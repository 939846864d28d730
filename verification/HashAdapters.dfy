/** The hash and equality adapters of dist-include/rxdk_xhash.h, and the sets they drive. */
module HashAdapters {
  import opened Direct3DTypes

  /** A hash_compare object: a hash, which is a size_t, and an ordering. */
  datatype Traits<!K> = Traits(hash: K -> Dword, comp: (K, K) -> bool)

  /** hasher_of */
  function HasherOf<K>(tr: Traits<K>, k: K): Dword {
    tr.hash(k)
  }

  /** equal_of: neither key orders before the other. */
  predicate EqualOf<K>(tr: Traits<K>, left: K, right: K) {
    !tr.comp(left, right) && !tr.comp(right, left)
  }

  ghost predicate StrictWeakOrdering<K(!new)>(tr: Traits<K>) {
    && (forall x :: !tr.comp(x, x))
    && (forall x, y, z :: tr.comp(x, y) && tr.comp(y, z) ==> tr.comp(x, z))
    && (forall x, y, z :: EqualOf(tr, x, y) && EqualOf(tr, y, z) ==> EqualOf(tr, x, z))
  }

  /** For any strict weak ordering, equal_of is an equivalence, and the ordering does not tell equal keys apart. */
  lemma EqualIsEquivalence<K(!new)>(tr: Traits<K>, x: K, y: K, z: K)
    requires StrictWeakOrdering(tr)
    ensures EqualOf(tr, x, x)
    ensures EqualOf(tr, x, y) ==> EqualOf(tr, y, x)
    ensures EqualOf(tr, x, y) && EqualOf(tr, y, z) ==> EqualOf(tr, x, z)
    ensures EqualOf(tr, x, y) ==> tr.comp(x, z) == tr.comp(y, z) && tr.comp(z, x) == tr.comp(z, y)
  {
    if EqualOf(tr, x, y) {
      OrderRespectsEqual(tr, x, y, z);
      OrderRespectsEqual(tr, y, x, z);
    }
  }

  lemma OrderRespectsEqual<K(!new)>(tr: Traits<K>, x: K, y: K, z: K)
    requires StrictWeakOrdering(tr) && EqualOf(tr, x, y)
    ensures tr.comp(x, z) ==> tr.comp(y, z)
    ensures tr.comp(z, x) ==> tr.comp(z, y)
  {
    assert tr.comp(x, z) && tr.comp(z, y) ==> tr.comp(x, y);
    assert tr.comp(y, z) && tr.comp(z, x) ==> tr.comp(y, x);
    assert EqualOf(tr, x, y) && EqualOf(tr, y, z) ==> EqualOf(tr, x, z);
  }

  /** Equal keys hash alike. Nothing in the adapters makes it so. */
  ghost predicate HashRespects<K(!new)>(tr: Traits<K>) {
    forall x, y :: !tr.comp(x, y) && !tr.comp(y, x) ==> tr.hash(x) == tr.hash(y)
  }

  /** A total ordering has no equal keys but identical ones, so that any hash will do. */
  lemma TotalOrderingSuffices<K(!new)>(tr: Traits<K>)
    requires forall x, y :: x == y || tr.comp(x, y) || tr.comp(y, x)
    ensures HashRespects(tr)
  {
    forall x, y | EqualOf(tr, x, y)
      ensures tr.hash(x) == tr.hash(y)
    {
      assert x == y;
    }
  }

  datatype Op<K> = Insert(key: K) | Erase(key: K) | Contains(key: K) | Rehash(count: Dword)

  // The bucketed set.

  type Chain<K> = seq<K>

  predicate Has<K>(tr: Traits<K>, chain: Chain<K>, k: K) {
    chain != [] && (EqualOf(tr, chain[0], k) || Has(tr, chain[1..], k))
  }

  function Without<K>(tr: Traits<K>, chain: Chain<K>, k: K): Chain<K> {
    if chain == [] then []
    else (if EqualOf(tr, chain[0], k) then [] else [chain[0]]) + Without(tr, chain[1..], k)
  }

  type Table<K> = seq<Chain<K>>

  /** The bucket of a key. */
  function BucketOf<K>(tr: Traits<K>, table: Table<K>, k: K): (b: nat)
    requires table != []
    ensures b < |table|
  {
    HasherOf(tr, k) % |table|
  }

  function Put<K>(tr: Traits<K>, table: Table<K>, k: K): (r: Table<K>)
    requires table != []
    ensures |r| == |table|
  {
    var b := BucketOf(tr, table, k);
    table[b := table[b] + [k]]
  }

  function Empty<K>(count: nat): (table: Table<K>)
    ensures |table| == count
  {
    seq(count, _ => [])
  }

  /** Puts the keys of a chain, and then of many, into a table. */
  function PutChain<K>(tr: Traits<K>, table: Table<K>, chain: Chain<K>): (r: Table<K>)
    requires table != []
    ensures |r| == |table|
    decreases |chain|
  {
    if chain == [] then table else PutChain(tr, Put(tr, table, chain[0]), chain[1..])
  }

  function PutAll<K>(tr: Traits<K>, table: Table<K>, chains: Table<K>): (r: Table<K>)
    requires table != []
    ensures |r| == |table|
    decreases |chains|
  {
    if chains == [] then table else PutAll(tr, PutChain(tr, table, chains[0]), chains[1..])
  }

  /** One operation on the table, and its answer. A rehash to no buckets leaves the count as it is. */
  function HashStep<K>(tr: Traits<K>, table: Table<K>, op: Op<K>): (r: (Table<K>, bool))
    requires table != []
    ensures r.0 != []
  {
    match op
    case Insert(k) =>
      if Has(tr, table[BucketOf(tr, table, k)], k) then (table, false) else (Put(tr, table, k), true)
    case Erase(k) =>
      var b := BucketOf(tr, table, k);
      (table[b := Without(tr, table[b], k)], Has(tr, table[b], k))
    case Contains(k) => (table, Has(tr, table[BucketOf(tr, table, k)], k))
    case Rehash(count) => (if count == 0 then table else PutAll(tr, Empty(count), table), true)
  }

  function HashAnswers<K>(tr: Traits<K>, table: Table<K>, ops: seq<Op<K>>): seq<bool>
    requires table != []
    decreases |ops|
  {
    if ops == [] then [] else
      var (table', answer) := HashStep(tr, table, ops[0]);
      [answer] + HashAnswers(tr, table', ops[1..])
  }

  // The ordered set.

  type Keys<K> = seq<K>

  function LowerBound<K>(tr: Traits<K>, keys: Keys<K>, k: K): (i: nat)
    ensures i <= |keys|
  {
    if keys != [] && tr.comp(keys[0], k) then 1 + LowerBound(tr, keys[1..], k) else 0
  }

  /** Whether the key at the lower bound is not above the one sought. */
  predicate Found<K>(tr: Traits<K>, keys: Keys<K>, k: K) {
    var i := LowerBound(tr, keys, k);
    i < |keys| && !tr.comp(k, keys[i])
  }

  function OrderedStep<K>(tr: Traits<K>, keys: Keys<K>, op: Op<K>): (Keys<K>, bool) {
    match op
    case Insert(k) =>
      var i := LowerBound(tr, keys, k);
      if Found(tr, keys, k) then (keys, false) else (keys[..i] + [k] + keys[i..], true)
    case Erase(k) =>
      var i := LowerBound(tr, keys, k);
      if Found(tr, keys, k) then (keys[..i] + keys[i + 1..], true) else (keys, false)
    case Contains(k) => (keys, Found(tr, keys, k))
    case Rehash(_) => (keys, true)
  }

  function OrderedAnswers<K>(tr: Traits<K>, keys: Keys<K>, ops: seq<Op<K>>): seq<bool>
    decreases |ops|
  {
    if ops == [] then [] else
      var (keys', answer) := OrderedStep(tr, keys, ops[0]);
      [answer] + OrderedAnswers(tr, keys', ops[1..])
  }

  ghost predicate Sorted<K>(tr: Traits<K>, keys: Keys<K>) {
    forall i, j :: 0 <= i < j < |keys| ==> tr.comp(keys[i], keys[j])
  }

  // They agree.

  /** The key is in its own bucket. */
  predicate In<K(==)>(tr: Traits<K>, table: Table<K>, k: K)
    requires table != []
  {
    k in table[BucketOf(tr, table, k)]
  }

  /** Every key is in its own bucket only. */
  ghost predicate Placed<K(!new)>(tr: Traits<K>, table: Table<K>)
    requires table != []
  {
    forall b: nat, k :: b < |table| && k in table[b] ==> b == BucketOf(tr, table, k)
  }

  /** The table and the ordered keys hold the same keys. */
  ghost predicate Same<K(!new)>(tr: Traits<K>, table: Table<K>, keys: Keys<K>)
    requires table != []
  {
    Placed(tr, table) && forall k :: In(tr, table, k) <==> k in keys
  }

  lemma {:induction false} HasIff<K>(tr: Traits<K>, chain: Chain<K>, k: K)
    ensures Has(tr, chain, k) <==> exists x :: x in chain && EqualOf(tr, x, k)
  {
    if chain != [] {
      HasIff(tr, chain[1..], k);
      assert chain == [chain[0]] + chain[1..];
    }
  }

  lemma {:induction false} WithoutIff<K>(tr: Traits<K>, chain: Chain<K>, k: K, x: K)
    ensures x in Without(tr, chain, k) <==> x in chain && !EqualOf(tr, x, k)
  {
    if chain != [] {
      WithoutIff(tr, chain[1..], k, x);
      assert chain == [chain[0]] + chain[1..];
    }
  }

  lemma {:induction false} LowerBoundSplits<K(!new)>(tr: Traits<K>, keys: Keys<K>, k: K)
    requires StrictWeakOrdering(tr) && Sorted(tr, keys)
    ensures
      var i := LowerBound(tr, keys, k);
      && (forall j :: 0 <= j < i ==> tr.comp(keys[j], k))
      && (forall j :: i <= j < |keys| ==> !tr.comp(keys[j], k))
  {
    if keys != [] {
      LowerBoundSplits(tr, keys[1..], k);
      if tr.comp(keys[0], k) {
        assert forall j :: 1 <= j < |keys| ==> keys[j] == keys[1..][j - 1];
      } else {
        forall j | 1 <= j < |keys|
          ensures !tr.comp(keys[j], k)
        {
          assert tr.comp(keys[0], keys[j]);
        }
      }
    }
  }

  /** In a sorted sequence, only the key at the lower bound can be equal to the one sought. */
  lemma FoundIff<K(!new)>(tr: Traits<K>, keys: Keys<K>, k: K)
    requires StrictWeakOrdering(tr) && Sorted(tr, keys)
    ensures
      var i := LowerBound(tr, keys, k);
      forall j :: 0 <= j < |keys| ==> (EqualOf(tr, keys[j], k) <==> j == i && Found(tr, keys, k))
  {
    var i := LowerBound(tr, keys, k);
    LowerBoundSplits(tr, keys, k);
    forall j | i < j < |keys|
      ensures tr.comp(k, keys[j])
    {
      assert tr.comp(keys[i], keys[j]);
      EqualIsEquivalence(tr, keys[i], k, keys[j]);
    }
  }

  /** Both structures find a key in the same cases. */
  lemma FindsAlike<K(!new)>(tr: Traits<K>, table: Table<K>, keys: Keys<K>, k: K)
    requires StrictWeakOrdering(tr) && HashRespects(tr) && table != [] && Same(tr, table, keys) && Sorted(tr, keys)
    ensures Has(tr, table[BucketOf(tr, table, k)], k) <==> Found(tr, keys, k)
  {
    var b := BucketOf(tr, table, k);
    HasIff(tr, table[b], k);
    FoundIff(tr, keys, k);
    if Has(tr, table[b], k) {
      var x :| x in table[b] && EqualOf(tr, x, k);
      assert In(tr, table, x);
      var j :| 0 <= j < |keys| && keys[j] == x;
    }
    if Found(tr, keys, k) {
      var x := keys[LowerBound(tr, keys, k)];
      assert EqualOf(tr, x, k) && In(tr, table, x);
      assert BucketOf(tr, table, x) == b;
    }
  }

  /** A put adds its key, and keeps the others where they are. */
  lemma PutAdds<K(!new)>(tr: Traits<K>, table: Table<K>, k: K)
    requires table != [] && Placed(tr, table)
    ensures Placed(tr, Put(tr, table, k))
    ensures forall x :: In(tr, Put(tr, table, k), x) <==> In(tr, table, x) || x == k
  {
    var table', own := Put(tr, table, k), BucketOf(tr, table, k);
    forall b: nat, x | b < |table'|
      ensures x in table'[b] <==> x in table[b] || (b == own && x == k)
    {
    }
    assert forall x :: BucketOf(tr, table', x) == BucketOf(tr, table, x);
  }

  lemma {:induction false} PutChainAdds<K(!new)>(tr: Traits<K>, table: Table<K>, chain: Chain<K>)
    requires table != [] && Placed(tr, table)
    ensures Placed(tr, PutChain(tr, table, chain))
    ensures forall x :: In(tr, PutChain(tr, table, chain), x) <==> In(tr, table, x) || x in chain
    decreases |chain|
  {
    if chain != [] {
      PutAdds(tr, table, chain[0]);
      PutChainAdds(tr, Put(tr, table, chain[0]), chain[1..]);
      assert chain == [chain[0]] + chain[1..];
    }
  }

  predicate InSome<K(==)>(chains: Table<K>, x: K) {
    chains != [] && (x in chains[0] || InSome(chains[1..], x))
  }

  lemma {:induction false} PutAllAdds<K(!new)>(tr: Traits<K>, table: Table<K>, chains: Table<K>)
    requires table != [] && Placed(tr, table)
    ensures Placed(tr, PutAll(tr, table, chains))
    ensures forall x :: In(tr, PutAll(tr, table, chains), x) <==> In(tr, table, x) || InSome(chains, x)
    decreases |chains|
  {
    if chains != [] {
      PutChainAdds(tr, table, chains[0]);
      PutAllAdds(tr, PutChain(tr, table, chains[0]), chains[1..]);
    }
  }

  lemma {:induction false} InSomeIff<K>(chains: Table<K>, x: K)
    ensures InSome(chains, x) <==> exists b: nat :: b < |chains| && x in chains[b]
  {
    if chains != [] {
      InSomeIff(chains[1..], x);
      if InSome(chains[1..], x) {
        var b: nat :| b < |chains[1..]| && x in chains[1..][b];
        assert x in chains[b + 1];
      }
      if b: nat :| b < |chains| && x in chains[b] {
        assert b > 0 ==> x in chains[1..][b - 1];
      }
    }
  }

  /** A rehash keeps the keys, in as many buckets as asked for. */
  lemma RehashKeeps<K(!new)>(tr: Traits<K>, table: Table<K>, keys: Keys<K>, count: Dword)
    requires table != [] && Same(tr, table, keys)
    ensures Same(tr, HashStep(tr, table, Rehash(count)).0, keys)
    ensures count > 0 ==> |HashStep(tr, table, Rehash(count)).0| == count
  {
    if count > 0 {
      PutAllAdds(tr, Empty(count), table);
      forall x
        ensures InSome(table, x) <==> In(tr, table, x)
      {
        InSomeIff(table, x);
      }
    }
  }

  lemma SortedAfterInsert<K(!new)>(tr: Traits<K>, keys: Keys<K>, k: K)
    requires StrictWeakOrdering(tr) && Sorted(tr, keys) && !Found(tr, keys, k)
    ensures Sorted(tr, OrderedStep(tr, keys, Insert(k)).0)
  {
    var i := LowerBound(tr, keys, k);
    FoundIff(tr, keys, k);
    LowerBoundSplits(tr, keys, k);
    assert forall j :: i <= j < |keys| ==> !EqualOf(tr, keys[j], k);
    assert forall j :: i <= j < |keys| ==> tr.comp(k, keys[j]);
    assert forall j :: 0 <= j < i ==> tr.comp(keys[j], k);
  }

  lemma KeysAfterInsert<K(!new)>(tr: Traits<K>, keys: Keys<K>, k: K, x: K)
    requires !Found(tr, keys, k)
    ensures x in OrderedStep(tr, keys, Insert(k)).0 <==> x in keys || x == k
  {
    var i := LowerBound(tr, keys, k);
    assert keys == keys[..i] + keys[i..];
  }

  /** A new key goes in front of the first one not below it. */
  lemma InsertKeeps<K(!new)>(tr: Traits<K>, table: Table<K>, keys: Keys<K>, k: K)
    requires StrictWeakOrdering(tr) && table != [] && Same(tr, table, keys) && Sorted(tr, keys) && !Found(tr, keys, k)
    ensures
      var keys' := OrderedStep(tr, keys, Insert(k)).0;
      Sorted(tr, keys') && Same(tr, Put(tr, table, k), keys')
  {
    PutAdds(tr, table, k);
    SortedAfterInsert(tr, keys, k);
    forall x
      ensures x in OrderedStep(tr, keys, Insert(k)).0 <==> x in keys || x == k
    {
      KeysAfterInsert(tr, keys, k, x);
    }
  }

  lemma ErasedKeys<K(!new)>(tr: Traits<K>, keys: Keys<K>, k: K, x: K)
    requires StrictWeakOrdering(tr) && Sorted(tr, keys)
    ensures x in OrderedStep(tr, keys, Erase(k)).0 <==> x in keys && !EqualOf(tr, x, k)
  {
    var i := LowerBound(tr, keys, k);
    FoundIff(tr, keys, k);
    if Found(tr, keys, k) {
      assert keys == keys[..i] + [keys[i]] + keys[i + 1..];
      assert forall j :: 0 <= j < i ==> keys[..i][j] == keys[j];
      assert forall j :: i < j < |keys| ==> keys[i + 1..][j - i - 1] == keys[j];
    }
  }

  lemma SortedAfterErase<K(!new)>(tr: Traits<K>, keys: Keys<K>, k: K)
    requires Sorted(tr, keys)
    ensures Sorted(tr, OrderedStep(tr, keys, Erase(k)).0)
  {
  }

  lemma TableAfterErase<K(!new)>(tr: Traits<K>, table: Table<K>, k: K)
    requires HashRespects(tr) && table != [] && Placed(tr, table)
    ensures
      var table' := HashStep(tr, table, Erase(k)).0;
      && |table'| == |table| && Placed(tr, table')
      && forall x :: In(tr, table', x) <==> In(tr, table, x) && !EqualOf(tr, x, k)
  {
    var b, table' := BucketOf(tr, table, k), HashStep(tr, table, Erase(k)).0;
    forall x
      ensures x in table'[b] <==> x in table[b] && !EqualOf(tr, x, k)
    {
      WithoutIff(tr, table[b], k, x);
    }
    assert forall x :: BucketOf(tr, table', x) == BucketOf(tr, table, x);
    assert forall x :: EqualOf(tr, x, k) ==> BucketOf(tr, table, x) == b;
  }

  /** Erasing takes the one equal key out of both. */
  lemma EraseKeeps<K(!new)>(tr: Traits<K>, table: Table<K>, keys: Keys<K>, k: K)
    requires StrictWeakOrdering(tr) && HashRespects(tr) && table != [] && Same(tr, table, keys) && Sorted(tr, keys)
    ensures
      var keys' := OrderedStep(tr, keys, Erase(k)).0;
      Sorted(tr, keys') && Same(tr, HashStep(tr, table, Erase(k)).0, keys')
  {
    TableAfterErase(tr, table, k);
    SortedAfterErase(tr, keys, k);
    forall x
      ensures x in OrderedStep(tr, keys, Erase(k)).0 <==> x in keys && !EqualOf(tr, x, k)
    {
      ErasedKeys(tr, keys, k, x);
    }
  }

  /** One operation: the same answer, and the same keys afterwards. */
  lemma StepAgrees<K(!new)>(tr: Traits<K>, table: Table<K>, keys: Keys<K>, op: Op<K>)
    requires StrictWeakOrdering(tr) && HashRespects(tr) && table != [] && Same(tr, table, keys) && Sorted(tr, keys)
    ensures
      var (table', answer) := HashStep(tr, table, op);
      var (keys', answer') := OrderedStep(tr, keys, op);
      answer == answer' && Same(tr, table', keys') && Sorted(tr, keys')
  {
    match op {
      case Insert(k) =>
        FindsAlike(tr, table, keys, k);
        if !Found(tr, keys, k) {
          InsertKeeps(tr, table, keys, k);
        }
      case Erase(k) =>
        FindsAlike(tr, table, keys, k);
        EraseKeeps(tr, table, keys, k);
      case Contains(k) =>
        FindsAlike(tr, table, keys, k);
      case Rehash(count) =>
        RehashKeeps(tr, table, keys, count);
    }
  }

  lemma {:induction false} RunsAgree<K(!new)>(tr: Traits<K>, table: Table<K>, keys: Keys<K>, ops: seq<Op<K>>)
    requires StrictWeakOrdering(tr) && HashRespects(tr) && table != [] && Same(tr, table, keys) && Sorted(tr, keys)
    ensures HashAnswers(tr, table, ops) == OrderedAnswers(tr, keys, ops)
    decreases |ops|
  {
    if ops != [] {
      StepAgrees(tr, table, keys, ops[0]);
      RunsAgree(tr, HashStep(tr, table, ops[0]).0, OrderedStep(tr, keys, ops[0]).0, ops[1..]);
    }
  }

  /** From empty on, the bucketed set answers like the ordered one. */
  ghost predicate Agree<K(!new)>(tr: Traits<K>, count: Dword, ops: seq<Op<K>>)
    requires count > 0
  {
    HashAnswers(tr, Empty(count), ops) == OrderedAnswers(tr, [], ops)
  }

  /** A number of buckets that tells two hashes apart. */
  function Apart(m: Dword, n: Dword): (count: Dword)
    requires m != n
    ensures count > 0
  {
    if m % 2 != n % 2 then 2 else if m < n then n - m + 1 else m - n + 1
  }

  lemma ApartTellsApart(m: Dword, n: Dword)
    requires m != n
    ensures m % Apart(m, n) != n % Apart(m, n)
  {
    if m % 2 == n % 2 {
      if m < n {
        DifferentRemainders(m, n);
      } else {
        DifferentRemainders(n, m);
      }
    }
  }

  lemma DifferentRemainders(m: nat, n: nat)
    requires m < n
    ensures m % (n - m + 1) != n % (n - m + 1)
  {
    var k := n - m + 1;
    var d := n / k - m / k;
    assert n - m == k * d + (n % k - m % k);
    assert d >= 1 ==> k * d >= k;
    assert d <= -1 ==> k * d <= -k;
  }

  /** Equal keys that hash differently get lost: with some number of buckets, one is not found where the other went. */
  lemma DifferentHashesLose<K(!new)>(tr: Traits<K>, x: K, y: K)
    requires StrictWeakOrdering(tr) && EqualOf(tr, x, y) && tr.hash(x) != tr.hash(y)
    ensures !Agree(tr, Apart(tr.hash(x), tr.hash(y)), [Insert(x), Contains(y)])
  {
    var count := Apart(HasherOf(tr, x), HasherOf(tr, y));
    var empty: Table<K>, none: Keys<K> := Empty(count), [];
    TwoAnswers(tr, empty, none, Insert(x), Contains(y));
    assert HashStep(tr, empty, Insert(x)).0 == Put(tr, empty, x);
    ApartTellsApart(HasherOf(tr, x), HasherOf(tr, y));
    assert Put(tr, empty, x)[BucketOf(tr, empty, y)] == [];
    assert OrderedStep(tr, none, Insert(x)).0 == [x];
    assert Found(tr, [x], y);
  }

  lemma TwoAnswers<K>(tr: Traits<K>, table: Table<K>, keys: Keys<K>, a: Op<K>, b: Op<K>)
    requires table != []
    ensures HashAnswers(tr, table, [a, b]) == [HashStep(tr, table, a).1, HashStep(tr, HashStep(tr, table, a).0, b).1]
    ensures OrderedAnswers(tr, keys, [a, b])
      == [OrderedStep(tr, keys, a).1, OrderedStep(tr, OrderedStep(tr, keys, a).0, b).1]
  {
    assert [a, b][1..] == [b] && [b][1..] == [];
    var table' := HashStep(tr, HashStep(tr, table, a).0, b).0;
    assert HashAnswers(tr, table', []) == [];
    var keys' := OrderedStep(tr, OrderedStep(tr, keys, a).0, b).0;
    assert OrderedAnswers(tr, keys', []) == [];
  }

  /** The bucketed set answers every run of operations like the ordered set, for any number of buckets, if and only
      if equal keys hash alike. */
  lemma AgreeIff<K(!new)>(tr: Traits<K>)
    requires StrictWeakOrdering(tr)
    ensures (forall count: Dword, ops: seq<Op<K>> :: count > 0 ==> Agree(tr, count, ops)) <==> HashRespects(tr)
  {
    if HashRespects(tr) {
      forall count: Dword, ops: seq<Op<K>> | count > 0
        ensures Agree(tr, count, ops)
      {
        RunsAgree(tr, Empty(count), [], ops);
      }
    } else {
      var x, y :| EqualOf(tr, x, y) && tr.hash(x) != tr.hash(y);
      DifferentHashesLose(tr, x, y);
    }
  }
}
