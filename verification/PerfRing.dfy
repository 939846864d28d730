/** The ring of performance events of shared/include/d3d8perf.h. */
module PerfRing {
  import opened Direct3DTypes
  import Digits

  type Char = c: int | 0 <= c < 256

  /** The characters of a C string, without the NUL that ends it. */
  type CString = s: seq<Char> | forall c <- s :: c != 0

  const HEADER_LENGTH: nat := 30
  const EVENT_HEADER: nat := 0

  /** What an event slot holds: its type, and the header text with its padding. */
  datatype Event = Event(kind: nat, text: seq<Char>)

  function NoChars(n: nat): (s: seq<Char>)
    ensures |s| == n
  {
    seq(n, _ => 0)
  }

  /** A slot as memset leaves it. */
  const CLEARED: Event := Event(0, NoChars(HEADER_LENGTH))

  /** strncpy: no NUL is written when there is no room for it. */
  function StrNCpy(s: CString, n: nat): (r: seq<Char>)
    ensures |r| == n
  {
    if |s| >= n then s[..n] else s + NoChars(n - |s|)
  }

  /** What InsertPerfEventHeader puts into a slot. */
  function Header(s: CString): Event {
    Event(EVENT_HEADER, StrNCpy(s, HEADER_LENGTH)[HEADER_LENGTH - 1 := 0])
  }

  /** The string that starts a text field, up to its first NUL. */
  function Terminated(text: seq<Char>): seq<Char> {
    if text == [] || text[0] == 0 then [] else [text[0]] + Terminated(text[1..])
  }

  lemma {:induction false} TerminatedPrefix(s: seq<Char>, rest: seq<Char>)
    requires (forall c <- s :: c != 0) && rest != [] && rest[0] == 0
    ensures Terminated(s + rest) == s
  {
    if s == [] {
      assert s + rest == rest;
    } else {
      assert (s + rest)[1..] == s[1..] + rest;
      assert forall c <- s[1..] :: c in s;
      TerminatedPrefix(s[1..], rest);
    }
  }

  /** A header is kept up to 29 characters, and always ends in a NUL. */
  lemma HeaderText(s: CString)
    ensures Header(s).kind == 0 && |Header(s).text| == 30 && Header(s).text[29] == 0
    ensures Terminated(Header(s).text) == if |s| < 30 then s else s[..29]
  {
    var kept := if |s| < HEADER_LENGTH then s else s[..HEADER_LENGTH - 1];
    assert forall c <- kept :: c in s;
    assert Header(s).text == kept + NoChars(HEADER_LENGTH - |kept|);
    TerminatedPrefix(kept, NoChars(HEADER_LENGTH - |kept|));
  }

  // Tickets and slots.

  /** The slot of the t-th insert: the counter has 32 bits. */
  function SlotOf(t: nat, size: nat): (slot: nat)
    requires size > 0
    ensures slot < size
  {
    t % DWORD_RANGE % size
  }

  /** Slots follow the tickets forever if and only if the ring size divides 2^32. */
  lemma SlotsFollowTicketsIff(size: nat)
    requires size > 0
    ensures (forall t: nat :: SlotOf(t, size) == t % size) <==> DWORD_RANGE % size == 0
  {
    if DWORD_RANGE % size == 0 {
      forall t: nat
        ensures SlotOf(t, size) == t % size
      {
        RemainderOfRemainder(t, DWORD_RANGE, size);
      }
    } else {
      assert SlotOf(DWORD_RANGE, size) == 0;
    }
  }

  lemma RemainderOfRemainder(t: nat, m: nat, size: nat)
    requires m > 0 && size > 0 && m % size == 0
    ensures t % m % size == t % size
  {
    var q, k := t / m, m / size;
    assert t == m * q + t % m && m == size * k;
    Multiples(t % m, size, k, q);
  }

  lemma Multiples(r: nat, size: nat, k: nat, q: nat)
    requires size > 0
    ensures (size * k * q + r) % size == r % size
  {
    assert size * k * q == size * (k * q);
    AddMultiple(r, size, k * q);
  }

  lemma AddMultiple(r: nat, size: nat, n: nat)
    requires size > 0
    ensures (size * n + r) % size == r % size
  {
    var q, m := r / size, r % size;
    assert r == size * q + m;
    assert size * n + size * q == size * (n + q);
    RemainderIsUnique(size * n + r, size, n + q, m);
  }

  lemma RemainderIsUnique(x: nat, size: nat, q: nat, m: nat)
    requires x == size * q + m && m < size
    ensures x % size == m
  {
    var d := q - x / size;
    assert size * q - size * (x / size) == size * d;
    assert size * d == x % size - m;
    AtLeastOnce(size, d);
    AtLeastOnce(size, -d);
  }

  lemma AtLeastOnce(size: nat, d: int)
    ensures d >= 1 ==> size * d >= size
    ensures size * -d == -(size * d)
  {
    if d >= 1 {
      assert size * d == size * (d - 1) + size;
    }
  }

  /** The ring after headers were inserted one after the other. */
  function Ring(base: seq<Event>, headers: seq<CString>): (ring: seq<Event>)
    requires |base| > 0
    ensures |ring| == |base|
  {
    if headers == [] then base else
      var k := |headers| - 1;
      Ring(base, headers[..k])[SlotOf(k, |base|) := Header(headers[k])]
  }

  /** Nearby tickets have different slots. */
  lemma DifferentSlots(a: nat, b: nat, size: nat)
    requires size > 0 && a < b < a + size
    ensures a % size != b % size
  {
    if a % size == b % size {
      assert b == size * (b / size) + b % size && a == size * (a / size) + a % size;
      var d := b / size - a / size;
      assert size * (b / size) - size * (a / size) == size * d;
      AtLeastOnce(size, d);
      AtLeastOnce(size, -d);
      assert false;
    }
  }

  /** The counter has not wrapped, or wrapping makes no difference. */
  predicate TicketsInOrder(k: nat, size: nat)
    requires size > 0
  {
    k <= DWORD_RANGE || DWORD_RANGE % size == 0
  }

  lemma InOrder(t: nat, k: nat, size: nat)
    requires size > 0 && t < k && TicketsInOrder(k, size)
    ensures SlotOf(t, size) == t % size
  {
    if k > DWORD_RANGE {
      RemainderOfRemainder(t, DWORD_RANGE, size);
    }
  }

  lemma RingSnoc(base: seq<Event>, headers: seq<CString>, s: CString)
    requires |base| > 0
    ensures Ring(base, headers + [s]) == Ring(base, headers)[SlotOf(|headers|, |base|) := Header(s)]
  {
    assert (headers + [s])[..|headers|] == headers;
  }

  lemma RingUnfold(base: seq<Event>, headers: seq<CString>) returns (before: seq<CString>, s: CString)
    requires |base| > 0 && headers != []
    ensures headers == before + [s]
    ensures Ring(base, headers) == Ring(base, before)[SlotOf(|before|, |base|) := Header(s)]
  {
    before, s := headers[..|headers| - 1], headers[|headers| - 1];
  }

  /** The ring holds the latest headers, as many as it has slots, each at its ticket's slot. */
  lemma {:induction false} RingHoldsLatest(base: seq<Event>, headers: seq<CString>, t: nat)
    requires |base| > 0 && TicketsInOrder(|headers|, |base|)
    requires t < |headers| <= t + |base|
    ensures Ring(base, headers)[t % |base|] == Header(headers[t])
    decreases |headers|
  {
    var before, s := RingUnfold(base, headers);
    InOrder(|before|, |headers|, |base|);
    if t < |before| {
      DifferentSlots(t, |before|, |base|);
      RingHoldsLatest(base, before, t);
    }
  }

  /** A slot that no ticket has reached is as it was. */
  lemma {:induction false} RingUntouched(base: seq<Event>, headers: seq<CString>, slot: nat)
    requires |base| > 0 && |headers| <= slot < |base|
    requires TicketsInOrder(|headers|, |base|)
    ensures Ring(base, headers)[slot] == base[slot]
    decreases |headers|
  {
    if headers != [] {
      var before, s := RingUnfold(base, headers);
      InOrder(|before|, |headers|, |base|);
      SmallRemainder(|before|, |base|);
      RingUntouched(base, before, slot);
    }
  }

  lemma SmallRemainder(t: nat, size: nat)
    requires t < size
    ensures t % size == t
  {
  }

  /** The ticket whose header a slot holds after k inserts. */
  function Latest(k: nat, size: nat, slot: nat): int
    requires slot < size
  {
    k - 1 - (k - 1 - slot) % size
  }

  /** Every slot that a ticket has reached is the slot of one of the last tickets. */
  lemma LatestIsLatest(k: nat, size: nat, slot: nat)
    requires slot < size && slot < k
    ensures 0 <= Latest(k, size, slot) < k <= Latest(k, size, slot) + size
    ensures Latest(k, size, slot) % size == slot
  {
    var d: nat := k - 1 - slot;
    var q, r := d / size, d % size;
    assert d == size * q + r;
    AddMultiple(slot, size, q);
    SmallRemainder(slot, size);
    assert Latest(k, size, slot) == size * q + slot;
    Digits.MulMonotone(size, 0, q);
  }

  // The program.

  /** How many events fit the bytes that malloc is asked for; the byte count has 32 bits. */
  function Capacity(eventSize: nat, count: nat): nat
    requires eventSize > 0
  {
    eventSize * count % DWORD_RANGE / eventSize
  }

  /** A block has room for the events it was allocated for exactly when the byte count does not wrap. */
  lemma CapacityIff(eventSize: nat, count: nat)
    requires 0 < eventSize < DWORD_RANGE
    ensures eventSize * count < DWORD_RANGE ==> Capacity(eventSize, count) == count
    ensures eventSize * count >= DWORD_RANGE ==> Capacity(eventSize, count) < count
  {
    var bytes := eventSize * count;
    if bytes < DWORD_RANGE {
      assert bytes / eventSize == count by {
        QuotientIsUnique(bytes, eventSize, count);
      }
    } else {
      var c := bytes % DWORD_RANGE / eventSize;
      assert eventSize * c <= bytes % DWORD_RANGE < bytes;
      if count <= c {
        Digits.MulMonotone(eventSize, count, c);
      }
    }
  }

  lemma QuotientIsUnique(x: nat, size: nat, q: nat)
    requires size > 0 && x == size * q
    ensures x / size == q
  {
    RemainderIsUnique(x, size, q, 0);
    var d := q - x / size;
    assert size * q - size * (x / size) == size * d;
    AtLeastOnce(size, d);
    AtLeastOnce(size, -d);
  }

  /** InterlockedIncrement of a 32-bit counter. */
  function Incremented(current: Dword): Dword {
    (current + 1) % DWORD_RANGE
  }

  lemma CounterCounts(k: nat, current: Dword)
    requires current == k % DWORD_RANGE
    ensures Incremented(current) == (k + 1) % DWORD_RANGE
  {
  }

  ghost predicate AllDifferent(all: seq<array<Event>>) {
    forall i, j :: 0 <= i < j < |all| ==> all[i] != all[j]
  }

  /** The part of the performance statistics that the event ring uses. */
  class Counters {
    /** sizeof(D3DPERFEvent) */
    const eventSize: nat
    var events: array?<Event>
    var current: Dword
    var count: Dword

    /** What the block was allocated for, what it held at the last start, and the headers inserted since. */
    ghost var asked: nat
    ghost var base: seq<Event>
    ghost var headers: seq<CString>

    /** Every block that malloc returned, and every block that free got. */
    ghost var blocks: seq<array<Event>>
    ghost var freed: seq<array<Event>>

    /** Every block but the current one was freed, once. */
    ghost predicate NoLeak()
      reads this
    {
      AllDifferent(blocks) && blocks == if events == null then freed else freed + [events]
    }

    /** The byte count of the block does not wrap. */
    ghost predicate Fits()
      reads this
    {
      eventSize * count < DWORD_RANGE
    }

    ghost predicate Valid()
      reads this, events
    {
      && 0 < eventSize < DWORD_RANGE && NoLeak()
      && (events != null ==> events.Length == Capacity(eventSize, asked))
      && (count > 0 ==> events != null && count == asked)
      && current == |headers| % DWORD_RANGE
      && (count > 0 && Fits() ==> |base| == count == events.Length && events[..] == Ring(base, headers))
    }

    constructor (eventSize: nat)
      requires 0 < eventSize < DWORD_RANGE
      ensures Valid() && this.eventSize == eventSize && count == 0 && blocks == []
    {
      this.eventSize := eventSize;
      events, current, count := null, 0, 0;
      asked, base, headers, blocks, freed := 0, [], [], [], [];
    }

    /** free and malloc of the block; `granted` tells whether malloc finds the memory. */
    method Replace(eventCount: Dword, granted: bool)
      requires NoLeak() && 0 < eventSize
      modifies `events, `blocks, `freed, `asked
      ensures NoLeak() && (events != null <==> granted) && asked == eventCount
      ensures freed == old(freed) + if old(events) == null then [] else [old(events)]
      ensures events != null ==>
        && fresh(events) && events.Length == Capacity(eventSize, eventCount)
        && forall i :: 0 <= i < events.Length ==> events[i] == CLEARED
    {
      if events != null {
        freed := freed + [events];
      }
      asked := eventCount;
      if granted {
        var block := new Event[Capacity(eventSize, eventCount)](_ => CLEARED);
        blocks := blocks + [block];
        events := block;
      } else {
        events := null;
      }
    }

    /** D3DPERF_StartCountingPerfEvent, as far as the ring goes. */
    method Start(requested: Dword, granted: bool)
      requires Valid()
      modifies this
      ensures Valid() && headers == []
      ensures count == if requested == 0 || requested == old(count) || granted then requested else 0
      ensures freed == old(freed) +
        if requested != 0 && requested != old(count) && old(events) != null then [old(events)] else []
      ensures requested == 0 || requested == old(count) ==> events == old(events)
      ensures count > 0 && Fits() ==>
        base == if requested == old(count) then old(events[..]) else seq(count, _ => CLEARED)
    {
      var eventCount := requested;
      if eventCount != 0 && count != eventCount {
        Replace(eventCount, granted);
        if events == null {
          eventCount := 0;
        }
      }
      CapacityIff(eventSize, eventCount);
      current := 0;
      count := eventCount;
      headers := [];
      base := if events == null then [] else events[..];
    }

    /** D3DPERF_InsertPerfEventHeader, run without interruption. `outside` is a write behind the block, of which the
        model follows nothing further; it takes a block whose byte count wrapped. */
    method InsertHeader(s: CString) returns (outside: bool)
      requires Valid()
      modifies this, events
      ensures Valid() && count == old(count) && events == old(events) && base == old(base) && freed == old(freed)
      ensures headers == if count > 0 then old(headers) + [s] else old(headers)
      ensures outside <==> count > 0 && SlotOf(|old(headers)|, count) >= events.Length
      ensures Fits() ==> !outside
      ensures events != null ==>
        events[..] == (if count == 0 || outside then old(events[..])
                       else old(events[..])[SlotOf(|old(headers)|, count) := Header(s)])
    {
      outside := false;
      if count != 0 {
        CapacityIff(eventSize, count);
        var slot := Claim(s);
        if slot < events.Length {
          events[slot] := Header(s);
        } else {
          outside := true;
        }
        assert events[..] == if outside then old(events[..]) else old(events[..])[slot := Header(s)];
      }
    }

    /** The increment, and the slot it gives. */
    method Claim(ghost s: CString) returns (slot: nat)
      requires count > 0 && current == |headers| % DWORD_RANGE
      modifies `current, `headers
      ensures current == |headers| % DWORD_RANGE && headers == old(headers) + [s]
      ensures slot == SlotOf(|old(headers)|, count)
      ensures |base| == count ==> Ring(base, headers) == Ring(base, old(headers))[slot := Header(s)]
    {
      CounterCounts(|headers|, current);
      slot := current % count;
      current := Incremented(current);
      if |base| == count {
        RingSnoc(base, headers, s);
      }
      headers := headers + [s];
    }
  }
}
