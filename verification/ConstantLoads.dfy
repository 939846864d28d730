/** How libs/libd3d8/se/vshader.cpp turns the constant loads of a declaration into push-buffer commands. */
module ConstantLoads {
  import opened Prelude
  import opened Direct3DTypes
  import VertexDeclaration
  import PushBuffer

  const SET_TRANSFORM_CONSTANT_LOAD: nat := 0x1EA4
  const SET_TRANSFORM_CONSTANT: nat := 0xB80

  /** The words of one batch: eight vectors. */
  const BATCH_WORDS: nat := 32

  /** No constant address follows this one. */
  const NO_ADDRESS: nat := 0xDEAD_BEEF

  type Vectors = v: seq<Dword> | |v| % 4 == 0

  type Address = x: nat | x < 256

  /** A constant load, its address biased by 96. */
  datatype Load = Load(address: Address, data: Vectors)

  // The program, seen from what it emits.

  function SetPointer(address: Dword): PushBuffer.Packet {
    PushBuffer.Packet(SET_TRANSFORM_CONSTANT_LOAD, false, [address])
  }

  /** Data in batches; even no data makes one. */
  function Batches(data: seq<Dword>): (packets: seq<PushBuffer.Packet>)
    ensures PushBuffer.AllEncodable(packets)
    decreases |data|
  {
    if |data| <= BATCH_WORDS then [PushBuffer.Packet(SET_TRANSFORM_CONSTANT, false, data)]
    else [PushBuffer.Packet(SET_TRANSFORM_CONSTANT, false, data[..BATCH_WORDS])] + Batches(data[BATCH_WORDS..])
  }

  /** No more batches than the limit of eight vectors calls for. */
  lemma {:induction false} BatchCount(data: seq<Dword>)
    ensures |Batches(data)| == if data == [] then 1 else (|data| + 31) / 32
    decreases |data|
  {
    if |data| > BATCH_WORDS {
      BatchCount(data[BATCH_WORDS..]);
    }
  }

  /** The commands of one load, given the address of the load before it. */
  function LoadPackets(load: Load, previous: nat): (packets: seq<PushBuffer.Packet>)
    ensures PushBuffer.AllEncodable(packets)
  {
    assert [SetPointer(load.address)][1..] == [];
    PushBuffer.EncodeAppend([SetPointer(load.address)], Batches(load.data));
    PushBuffer.EncodeAppend([], Batches(load.data));
    (if load.address == previous + 1 then [] else [SetPointer(load.address)]) + Batches(load.data)
  }

  function Emitted(loads: seq<Load>, previous: nat): (packets: seq<PushBuffer.Packet>)
    ensures PushBuffer.AllEncodable(packets)
  {
    if loads == [] then [] else
      var first, later := LoadPackets(loads[0], previous), Emitted(loads[1..], loads[0].address);
      PushBuffer.EncodeAppend(first, later);
      first + later
  }

  // What the hardware does with it.

  /** One word written to a method. */
  datatype Write = Write(target: nat, value: Dword)

  /** The arguments of a command go to consecutive methods, unless its target is fixed. */
  function Writes(p: PushBuffer.Packet): seq<Write> {
    seq(|p.args|, i requires 0 <= i < |p.args| => Write(p.target + (if p.fixedTarget then 0 else 4 * i), p.args[i]))
  }

  function AllWrites(packets: seq<PushBuffer.Packet>): seq<Write> {
    if packets == [] then [] else Writes(packets[0]) + AllWrites(packets[1..])
  }

  /** A word stored in a component of a constant register. */
  datatype Store = Store(slot: nat, component: nat, value: Dword)

  /** Thirty-two methods, from 0xB80 on, take constants. */
  predicate TakesConstant(target: nat) {
    0xB80 <= target < 0xC00
  }

  predicate MovesPointer(target: nat) {
    target == 0x1EA4
  }

  /** The stores that writes make, from a given position of the load pointer on. The method tells the component, and
      the last component moves the pointer on. */
  function Follow(writes: seq<Write>, pointer: nat): seq<Store>
    decreases |writes|
  {
    if writes == [] then [] else
      var w, later := writes[0], writes[1..];
      if MovesPointer(w.target) then Follow(later, w.value)
      else if TakesConstant(w.target) then
        var c := (w.target - 0xB80) / 4 % 4;
        [Store(pointer, c, w.value)] + Follow(later, if c == 3 then pointer + 1 else pointer)
      else Follow(later, pointer)
  }

  /** The stores that commands make. */
  function Execute(packets: seq<PushBuffer.Packet>, pointer: nat): seq<Store> {
    Follow(AllWrites(packets), pointer)
  }

  /** A vector stored in a register. */
  function Vector(slot: nat, v: seq<Dword>): (stores: seq<Store>)
    requires |v| == 4
    ensures |stores| == 4
  {
    [Store(slot, 0, v[0]), Store(slot, 1, v[1]), Store(slot, 2, v[2]), Store(slot, 3, v[3])]
  }

  /** Consecutive vectors in consecutive registers. */
  function Stores(slot: nat, data: seq<Dword>): seq<Store>
    decreases |data|
  {
    if |data| < 4 then [] else Vector(slot, data[..4]) + Stores(slot + 1, data[4..])
  }

  /** The stores that the loads of a declaration ask for. */
  function Declared(loads: seq<Load>): seq<Store> {
    if loads == [] then [] else Stores(loads[0].address, loads[0].data) + Declared(loads[1..])
  }

  lemma {:induction false} StoresAppend(slot: nat, a: Vectors, b: seq<Dword>)
    ensures Stores(slot, a + b) == Stores(slot, a) + Stores(slot + |a| / 4, b)
    decreases |a|
  {
    if a == [] {
      assert a + b == b;
    } else {
      assert (a + b)[..4] == a[..4] && (a + b)[4..] == a[4..] + b;
      StoresAppend(slot + 1, a[4..], b);
    }
  }

  /** Words written to the methods that take constants, from the given one of the thirty-two on. */
  function Window(first: nat, data: seq<Dword>): (writes: seq<Write>)
    ensures |writes| == |data|
  {
    seq(|data|, i requires 0 <= i < |data| => Write(0xB80 + 4 * (first + i), data[i]))
  }

  lemma FollowPointer(w: Write, later: seq<Write>, pointer: nat)
    requires MovesPointer(w.target)
    ensures Follow([w] + later, pointer) == Follow(later, w.value)
  {
    assert ([w] + later)[1..] == later;
  }

  /** The word at the c-th place of a vector. */
  lemma FollowWord(w: Write, first: nat, c: nat, later: seq<Write>, pointer: nat)
    requires first % 4 == 0 && c < 4 && first + c < 32 && w.target == 0xB80 + 4 * (first + c)
    ensures Follow([w] + later, pointer)
      == [Store(pointer, c, w.value)] + Follow(later, if c == 3 then pointer + 1 else pointer)
  {
    assert ([w] + later)[1..] == later;
    assert (w.target - 0xB80) / 4 == first + c;
  }

  lemma FourWords(a: Write, b: Write, c: Write, d: Write, later: seq<Write>)
    ensures [a, b, c, d] + later == [a] + ([b] + ([c] + ([d] + later)))
  {
  }

  /** Four words at a vector's place. */
  lemma FollowVector(first: nat, v: seq<Dword>, later: seq<Write>, pointer: nat)
    requires |v| == 4 && first % 4 == 0 && first + 4 <= 32
    ensures Follow(Window(first, v) + later, pointer) == Vector(pointer, v) + Follow(later, pointer + 1)
  {
    var w0, w1, w2, w3 := Window(first, v)[0], Window(first, v)[1], Window(first, v)[2], Window(first, v)[3];
    assert Window(first, v) == [w0, w1, w2, w3];
    FourWords(w0, w1, w2, w3, later);
    FollowFour(first, w0, w1, w2, w3, later, pointer);
  }

  lemma FollowFour(first: nat, w0: Write, w1: Write, w2: Write, w3: Write, later: seq<Write>, pointer: nat)
    requires first % 4 == 0 && first + 4 <= 32
    requires w0.target == 0xB80 + 4 * (first + 0) && w1.target == 0xB80 + 4 * (first + 1)
    requires w2.target == 0xB80 + 4 * (first + 2) && w3.target == 0xB80 + 4 * (first + 3)
    ensures Follow([w0] + ([w1] + ([w2] + ([w3] + later))), pointer)
      == Vector(pointer, [w0.value, w1.value, w2.value, w3.value]) + Follow(later, pointer + 1)
  {
    FollowWord(w0, first, 0, [w1] + ([w2] + ([w3] + later)), pointer);
    FollowWord(w1, first, 1, [w2] + ([w3] + later), pointer);
    FollowWord(w2, first, 2, [w3] + later, pointer);
    FollowWord(w3, first, 3, later, pointer);
  }

  lemma StoresUnfold(slot: nat, data: seq<Dword>)
    requires |data| >= 4
    ensures Stores(slot, data) == Vector(slot, data[..4]) + Stores(slot + 1, data[4..])
  {
  }

  lemma WindowSplits(first: nat, data: seq<Dword>)
    requires |data| >= 4
    ensures Window(first, data) == Window(first, data[..4]) + Window(first + 4, data[4..])
  {
  }

  /** Whole vectors within the window. */
  lemma {:induction false} FollowWindow(first: nat, data: Vectors, later: seq<Write>, pointer: nat)
    requires first % 4 == 0 && first + |data| <= 32
    ensures Follow(Window(first, data) + later, pointer) == Stores(pointer, data) + Follow(later, pointer + |data| / 4)
    decreases |data|
  {
    if data == [] {
      assert Window(first, data) + later == later;
    } else {
      var v, rest := data[..4], data[4..];
      WindowSplits(first, data);
      Regroup(Window(first, v), Window(first + 4, rest), later);
      FollowWindow(first + 4, rest, later, pointer + 1);
      assert pointer + 1 + |rest| / 4 == pointer + |data| / 4;
      WindowStep(first, v, rest, later, pointer, Follow(later, pointer + |data| / 4));
      StoresUnfold(pointer, data);
    }
  }

  lemma WindowStep(first: nat, v: seq<Dword>, rest: seq<Dword>, later: seq<Write>, pointer: nat, behind: seq<Store>)
    requires |v| == 4 && first % 4 == 0 && first + 4 <= 32
    requires Follow(Window(first + 4, rest) + later, pointer + 1) == Stores(pointer + 1, rest) + behind
    ensures Follow(Window(first, v) + (Window(first + 4, rest) + later), pointer)
      == Vector(pointer, v) + Stores(pointer + 1, rest) + behind
  {
    FollowVector(first, v, Window(first + 4, rest) + later, pointer);
    Regroup(Vector(pointer, v), Stores(pointer + 1, rest), behind);
  }

  lemma AllWritesUnfold(p: PushBuffer.Packet, rest: seq<PushBuffer.Packet>)
    ensures AllWrites([p] + rest) == Writes(p) + AllWrites(rest)
  {
    assert ([p] + rest)[1..] == rest;
  }

  lemma BatchWrites(data: seq<Dword>)
    ensures Writes(PushBuffer.Packet(SET_TRANSFORM_CONSTANT, false, data)) == Window(0, data)
  {
  }

  /** A batch of eight vectors at most keeps within the window. */
  lemma ExecuteBatch(data: Vectors, rest: seq<PushBuffer.Packet>, pointer: nat)
    requires |data| <= 32
    ensures Execute([PushBuffer.Packet(SET_TRANSFORM_CONSTANT, false, data)] + rest, pointer)
      == Stores(pointer, data) + Execute(rest, pointer + |data| / 4)
  {
    AllWritesUnfold(PushBuffer.Packet(SET_TRANSFORM_CONSTANT, false, data), rest);
    BatchWrites(data);
    FollowWindow(0, data, AllWrites(rest), pointer);
  }

  lemma ExecutePointer(address: Dword, rest: seq<PushBuffer.Packet>, pointer: nat)
    ensures Execute([SetPointer(address)] + rest, pointer) == Execute(rest, address)
  {
    AllWritesUnfold(SetPointer(address), rest);
    assert Writes(SetPointer(address)) == [Write(SET_TRANSFORM_CONSTANT_LOAD, address)];
    FollowPointer(Write(SET_TRANSFORM_CONSTANT_LOAD, address), AllWrites(rest), pointer);
  }

  /** Splitting into batches makes the hardware store the vectors in consecutive registers. */
  lemma {:induction false} BatchesExecute(data: Vectors, rest: seq<PushBuffer.Packet>, pointer: nat)
    ensures Execute(Batches(data) + rest, pointer) == Stores(pointer, data) + Execute(rest, pointer + |data| / 4)
    decreases |data|
  {
    if |data| <= BATCH_WORDS {
      ExecuteBatch(data, rest, pointer);
    } else {
      var first, later := data[..BATCH_WORDS], data[BATCH_WORDS..];
      var packet := [PushBuffer.Packet(SET_TRANSFORM_CONSTANT, false, first)];
      Regroup(packet, Batches(later), rest);
      ExecuteBatch(first, Batches(later) + rest, pointer);
      BatchesExecute(later, rest, pointer + |first| / 4);
      assert data == first + later;
      StoresAppend(pointer, first, later);
      Regroup(Stores(pointer, first), Stores(pointer + |first| / 4, later), Execute(rest, pointer + |data| / 4));
    }
  }

  /** Every word goes to the load pointer or to a method that takes constants. */
  ghost predicate InPlace(packets: seq<PushBuffer.Packet>) {
    forall w <- AllWrites(packets) :: MovesPointer(w.target) || TakesConstant(w.target)
  }

  lemma {:induction false} InPlaceAppend(a: seq<PushBuffer.Packet>, b: seq<PushBuffer.Packet>)
    ensures InPlace(a + b) <==> InPlace(a) && InPlace(b)
    decreases |a|
  {
    if a == [] {
      assert a + b == b;
    } else {
      assert (a + b)[1..] == a[1..] + b;
      InPlaceAppend(a[1..], b);
      InPlaceFirst(a);
      InPlaceFirst(a + b);
    }
  }

  lemma InPlaceFirst(packets: seq<PushBuffer.Packet>)
    requires packets != []
    ensures InPlace(packets) <==>
      (forall w <- Writes(packets[0]) :: MovesPointer(w.target) || TakesConstant(w.target)) && InPlace(packets[1..])
  {
  }

  lemma OneInPlace(p: PushBuffer.Packet)
    requires (p.target == 0x1EA4 && |p.args| == 1) || (p.target == 0xB80 && |p.args| <= 32)
    ensures InPlace([p])
  {
    assert [p] == [p] + [] && AllWrites([]) == [];
    AllWritesUnfold(p, []);
  }

  lemma {:induction false} BatchesInPlace(data: seq<Dword>)
    ensures InPlace(Batches(data))
    decreases |data|
  {
    if |data| <= BATCH_WORDS {
      OneInPlace(PushBuffer.Packet(SET_TRANSFORM_CONSTANT, false, data));
    } else {
      OneInPlace(PushBuffer.Packet(SET_TRANSFORM_CONSTANT, false, data[..BATCH_WORDS]));
      BatchesInPlace(data[BATCH_WORDS..]);
      InPlaceAppend([PushBuffer.Packet(SET_TRANSFORM_CONSTANT, false, data[..BATCH_WORDS])], Batches(data[BATCH_WORDS..]));
    }
  }

  lemma LoadInPlace(load: Load, previous: nat)
    ensures InPlace(LoadPackets(load, previous))
  {
    BatchesInPlace(load.data);
    OneInPlace(SetPointer(load.address));
    InPlaceAppend([SetPointer(load.address)], Batches(load.data));
    assert load.address == previous + 1 ==> LoadPackets(load, previous) == Batches(load.data);
  }

  /** No word that is emitted for any loads leaves the load pointer and the thirty-two methods that take constants. */
  lemma {:induction false} EmittedInPlace(loads: seq<Load>, previous: nat)
    ensures InPlace(Emitted(loads, previous))
  {
    if loads != [] {
      var load := loads[0];
      LoadInPlace(load, previous);
      EmittedInPlace(loads[1..], load.address);
      InPlaceAppend(LoadPackets(load, previous), Emitted(loads[1..], load.address));
    }
  }

  /** Where the first vector of a load goes. */
  function Target(load: Load, previous: nat, pointer: nat): nat {
    if load.address == previous + 1 then pointer else load.address
  }

  lemma LoadExecutes(load: Load, previous: nat, rest: seq<PushBuffer.Packet>, pointer: nat)
    ensures
      var at := Target(load, previous, pointer);
      Execute(LoadPackets(load, previous) + rest, pointer) == Stores(at, load.data) + Execute(rest, at + |load.data| / 4)
  {
    var at, batches := Target(load, previous, pointer), Batches(load.data) + rest;
    BatchesExecute(load.data, rest, at);
    if load.address == previous + 1 {
      assert LoadPackets(load, previous) + rest == batches;
    } else {
      assert LoadPackets(load, previous) + rest == [SetPointer(load.address)] + batches;
      ExecutePointer(load.address, batches, pointer);
    }
  }

  /** Stores from two slots on, and others behind them, are the same if and only if the others are and the slots too,
      unless nothing is stored there. */
  lemma FrontDecides(a: nat, b: nat, data: Vectors, later: seq<Store>, later': seq<Store>)
    ensures Stores(a, data) + later == Stores(b, data) + later' <==> (data != [] ==> a == b) && later == later'
  {
    if data != [] && a != b {
      assert (Stores(a, data) + later)[0].slot == a && (Stores(b, data) + later')[0].slot == b;
    } else {
      assert Stores(a, data) == Stores(b, data);
      SameFront(Stores(a, data), later, later');
    }
  }

  /** What the first load stores, and what it should. */
  lemma FirstLoad(loads: seq<Load>, previous: nat, pointer: nat) returns (at: nat, done: seq<Store>, wanted: seq<Store>)
    requires loads != []
    ensures at == Target(loads[0], previous, pointer)
    ensures done == Execute(Emitted(loads[1..], loads[0].address), at + |loads[0].data| / 4)
    ensures wanted == Declared(loads[1..])
    ensures Execute(Emitted(loads, previous), pointer) == Stores(at, loads[0].data) + done
    ensures Declared(loads) == Stores(loads[0].address, loads[0].data) + wanted
  {
    at := Target(loads[0], previous, pointer);
    done := Execute(Emitted(loads[1..], loads[0].address), at + |loads[0].data| / 4);
    wanted := Declared(loads[1..]);
    LoadExecutes(loads[0], previous, Emitted(loads[1..], loads[0].address), pointer);
  }

  /**
   * What a caller can check on the declaration: `drift` is how far the load pointer stands from the register behind
   * the start of the load before. A load there is not given the pointer anew, and so must find no drift, unless it is
   * empty; any other load is.
   */
  predicate Aligned(loads: seq<Load>, previous: nat, drift: int) {
    if loads == [] then true else
      var d := if loads[0].address == previous + 1 then drift else 0;
      && (loads[0].data != [] ==> d == 0)
      && Aligned(loads[1..], loads[0].address, d + |loads[0].data| / 4 - 1)
  }

  lemma {:induction false} StoresAreAligned(loads: seq<Load>, previous: nat, pointer: nat)
    ensures Execute(Emitted(loads, previous), pointer) == Declared(loads) <==>
      Aligned(loads, previous, pointer - previous - 1)
  {
    if loads != [] {
      var load := loads[0];
      var at, done, wanted := FirstLoad(loads, previous, pointer);
      var behind := at + |load.data| / 4;
      assert behind - load.address - 1 == at - load.address + |load.data| / 4 - 1;
      StoresAreAligned(loads[1..], load.address, behind);
      FrontDecides(at, load.address, load.data, done, wanted);
    }
  }

  /** All constants reach the registers that the declaration names if and only if its loads are aligned. */
  lemma ConstantsPlacedIff(loads: seq<Load>, pointer: nat)
    ensures Execute(Emitted(loads, NO_ADDRESS), pointer) == Declared(loads) <==> Aligned(loads, NO_ADDRESS, 0)
  {
    StoresAreAligned(loads, NO_ADDRESS, pointer);
    if loads != [] {
      assert loads[0].address != NO_ADDRESS + 1;
    }
  }

  predicate NoneEmpty(loads: seq<Load>) {
    loads == [] || (loads[0].data != [] && NoneEmpty(loads[1..]))
  }

  /** The load after the k-th starts one register behind the start of the k-th, which was not of one vector. */
  predicate Overlooked(loads: seq<Load>, k: nat) {
    k + 1 < |loads| && loads[k + 1].address == loads[k].address + 1 && |loads[k].data| != 4
  }

  lemma {:induction false} AlignedUnlessOverlooked(loads: seq<Load>, previous: nat, drift: int)
    ensures
      var fine :=
        && (loads != [] && loads[0].address == previous + 1 ==> drift == 0)
        && forall k: nat | k < |loads| :: !Overlooked(loads, k);
      && (fine ==> Aligned(loads, previous, drift))
      && (NoneEmpty(loads) && Aligned(loads, previous, drift) ==> fine)
  {
    if loads != [] {
      var load, later := loads[0], loads[1..];
      AlignedUnlessOverlooked(later, load.address, |load.data| / 4 - 1);
      assert Overlooked(loads, 0) <==> later != [] && later[0].address == load.address + 1 && |load.data| / 4 != 1;
      assert forall k: nat | k < |later| :: Overlooked(later, k) <==> Overlooked(loads, k + 1);
      assert forall k: nat | 1 <= k < |loads| :: Overlooked(loads, k) <==> Overlooked(later, k - 1);
    }
  }

  /** Loads are aligned if none is overlooked; and, when none is empty, only then. */
  lemma OverlookedLoads(loads: seq<Load>)
    ensures (forall k: nat | k < |loads| :: !Overlooked(loads, k)) ==> Aligned(loads, NO_ADDRESS, 0)
    ensures NoneEmpty(loads) ==>
      (Aligned(loads, NO_ADDRESS, 0) <==> forall k: nat | k < |loads| :: !Overlooked(loads, k))
  {
    AlignedUnlessOverlooked(loads, NO_ADDRESS, 0);
  }

  // The program.

  predicate IsConstantToken(word: Dword) {
    word / VertexDeclaration.TYPE == 4
  }

  function DataSize(word: Dword): (n: nat)
    ensures n % 4 == 0
  {
    4 * (word / VertexDeclaration.CONST_COUNT % 16)
  }

  function AddressOf(word: Dword): Address {
    word % 256
  }

  /** How many words the scan passes over behind a word. */
  function Passed(word: Dword): nat {
    if IsConstantToken(word) then DataSize(word) else 0
  }

  /** The load that a word and the words behind it are to the scan, or none. */
  function LoadAt(word: Dword, data: seq<Dword>): seq<Load> {
    if IsConstantToken(word) && |data| % 4 == 0 then [Load(AddressOf(word), data)] else []
  }

  /** How a scan reads a word; nothing below depends on more than this, but where it is compared with the grammar. */
  datatype Reading = Reading(passed: Dword -> nat, load: (Dword, seq<Dword>) -> seq<Load>)

  const DRIVER: Reading := Reading((word: Dword) => Passed(word), (word: Dword, data: seq<Dword>) => LoadAt(word, data))

  /** The scan comes to an end token. It takes every word for a token, also what an extension token is followed by. */
  predicate Ends(r: Reading, words: seq<Dword>)
    decreases |words|
  {
    words != [] &&
    (words[0] != VertexDeclaration.END ==>
       1 + r.passed(words[0]) <= |words| && Ends(r, words[1 + r.passed(words[0])..]))
  }

  /** The loads that the scan finds. */
  function Scanned(r: Reading, words: seq<Dword>): seq<Load>
    requires Ends(r, words)
    decreases |words|
  {
    if words[0] == VertexDeclaration.END then [] else
      var n := r.passed(words[0]);
      r.load(words[0], words[1..1 + n]) + Scanned(r, words[1 + n..])
  }

  /** One token of the scan. */
  lemma ScanStep(r: Reading, words: seq<Dword>, n: nat)
    requires words != [] && words[0] != VertexDeclaration.END && n == r.passed(words[0]) && 1 + n <= |words|
    ensures Ends(r, words) <==> Ends(r, words[1 + n..])
    ensures Ends(r, words) ==> Scanned(r, words) == r.load(words[0], words[1..1 + n]) + Scanned(r, words[1 + n..])
  {
  }

  function EmittedWords(loads: seq<Load>, previous: nat): seq<Dword> {
    PushBuffer.Encode(Emitted(loads, previous))
  }

  lemma EmittedWordsUnfold(load: Load, later: seq<Load>, previous: nat)
    ensures EmittedWords([load] + later, previous) ==
      (if load.address == previous + 1 then [] else PushBuffer.EncodePacket(SetPointer(load.address)))
      + PushBuffer.Encode(Batches(load.data)) + EmittedWords(later, load.address)
  {
    assert ([load] + later)[1..] == later;
    PushBuffer.EncodeAppend(LoadPackets(load, previous), Emitted(later, load.address));
    EncodeOne(SetPointer(load.address));
    PushBuffer.EncodeAppend([SetPointer(load.address)], Batches(load.data));
    assert [] + Batches(load.data) == Batches(load.data);
  }

  lemma EncodeOne(p: PushBuffer.Packet)
    requires PushBuffer.Encodable(p)
    ensures PushBuffer.AllEncodable([p]) && PushBuffer.Encode([p]) == PushBuffer.EncodePacket(p)
  {
    assert [p][1..] == [];
    assert PushBuffer.EncodePacket(p) + [] == PushBuffer.EncodePacket(p);
  }

  function FirstBatch(data: seq<Dword>): (batch: seq<Dword>)
    ensures |batch| <= |data| && |batch| <= BATCH_WORDS
  {
    if |data| <= BATCH_WORDS then data else data[..BATCH_WORDS]
  }

  function BatchWords(batch: seq<Dword>): seq<Dword>
    requires |batch| <= BATCH_WORDS
  {
    PushBuffer.EncodePacket(PushBuffer.Packet(SET_TRANSFORM_CONSTANT, false, batch))
  }

  /** The words of the batches still to be written. */
  function ToCome(left: seq<Dword>, more: bool): seq<Dword> {
    if more then PushBuffer.Encode(Batches(left)) else []
  }

  lemma BatchStep(data: seq<Dword>)
    ensures
      var batch := FirstBatch(data);
      var left := data[|batch|..];
      ToCome(data, true) == BatchWords(batch) + ToCome(left, left != [])
  {
    var packet := PushBuffer.Packet(SET_TRANSFORM_CONSTANT, false, FirstBatch(data));
    if |data| <= BATCH_WORDS {
      EncodeOne(packet);
    } else {
      assert Batches(data)[1..] == Batches(data[BATCH_WORDS..]);
    }
  }

  /** A buffer, if there is one, holds these words so far. */
  ghost predicate Filled(push: array?<Dword>, words: seq<Dword>)
    reads push
  {
    push != null ==> |words| <= push.Length && push[..|words|] == words
  }

  predicate HasRoom(push: array?<Dword>, n: nat) {
    push != null ==> n <= push.Length
  }

  /** Adds words to the output; without a buffer they are only counted. */
  method Put(push: array?<Dword>, ghost done: seq<Dword>, size: nat, words: seq<Dword>) returns (size': nat)
    requires size == |done| && Filled(push, done) && HasRoom(push, size + |words|)
    modifies push
    ensures size' == |done + words| && Filled(push, done + words)
  {
    if push != null {
      for i := 0 to |words|
        invariant push[..size + i] == done + words[..i]
      {
        push[size + i] := words[i];
      }
    }
    return size + |words|;
  }

  /** The do-while loop over the batches of one load. */
  method PutBatches(push: array?<Dword>, ghost done: seq<Dword>, size: nat, data: seq<Dword>) returns (size': nat)
    requires size == |done| && Filled(push, done) && HasRoom(push, size + |PushBuffer.Encode(Batches(data))|)
    modifies push
    ensures size' == |done + PushBuffer.Encode(Batches(data))| && Filled(push, done + PushBuffer.Encode(Batches(data)))
  {
    ghost var now := done;
    var left, more := data, true;
    size' := size;
    while more
      invariant size' == |now| && Filled(push, now)
      invariant now + ToCome(left, more) == done + PushBuffer.Encode(Batches(data))
      decreases more, |left|
    {
      var batch := FirstBatch(left);
      BatchStep(left);
      Regroup(now, BatchWords(batch), ToCome(left[|batch|..], left[|batch|..] != []));
      size' := Put(push, now, size', BatchWords(batch));
      now := now + BatchWords(batch);
      left := left[|batch|..];
      more := left != [];
    }
  }

  /** The commands for one load. */
  method PutLoad(push: array?<Dword>, ghost done: seq<Dword>, size: nat, load: Load, previous: nat) returns (size': nat)
    requires size == |done| && Filled(push, done) && HasRoom(push, size + |EmittedWords([load], previous)|)
    modifies push
    ensures size' == |done + EmittedWords([load], previous)| && Filled(push, done + EmittedWords([load], previous))
  {
    EmittedWordsOf(load, previous);
    size' := size;
    ghost var now := done;
    if load.address != previous + 1 {
      var words := PushBuffer.EncodePacket(SetPointer(load.address));
      size' := Put(push, done, size', words);
      now := done + words;
    }
    Regroup(done, now[|done|..], PushBuffer.Encode(Batches(load.data)));
    size' := PutBatches(push, now, size', load.data);
  }

  lemma EmittedWordsOf(load: Load, previous: nat)
    ensures EmittedWords([load], previous) ==
      (if load.address == previous + 1 then [] else PushBuffer.EncodePacket(SetPointer(load.address)))
      + PushBuffer.Encode(Batches(load.data))
  {
    EmittedWordsUnfold(load, [], previous);
    assert [load] + [] == [load];
    assert EmittedWords([], load.address) == [];
  }

  lemma EmittedWordsSplit(load: Load, later: seq<Load>, previous: nat)
    ensures EmittedWords([load] + later, previous) == EmittedWords([load], previous) + EmittedWords(later, load.address)
  {
    EmittedWordsUnfold(load, later, previous);
    EmittedWordsOf(load, previous);
  }

  /** The branch on the token type: how far to move on, and what load there is. */
  method ReadToken(rest: seq<Dword>) returns (n: nat, found: seq<Load>)
    requires Ends(DRIVER, rest) && rest[0] != VertexDeclaration.END
    ensures n == DRIVER.passed(rest[0]) && 1 + n <= |rest| && found == DRIVER.load(rest[0], rest[1..1 + n])
    ensures |found| <= 1
  {
    n, found := 0, [];
    if IsConstantToken(rest[0]) {
      n := DataSize(rest[0]);
      found := [Load(AddressOf(rest[0]), rest[1..1 + n])];
    }
  }

  lemma NoLoadMore(loads: seq<Load>)
    ensures [] + loads == loads
  {
  }

  /** Two passes call this: without a buffer to get the size, then with one of that size. */
  method ParseDeclarationConstants(declaration: seq<Dword>, push: array?<Dword>) returns (size: nat)
    requires Ends(DRIVER, declaration)
    requires HasRoom(push, |EmittedWords(Scanned(DRIVER, declaration), NO_ADDRESS)|)
    modifies push
    ensures size == |EmittedWords(Scanned(DRIVER, declaration), NO_ADDRESS)|
    ensures push != null ==> push[..size] == EmittedWords(Scanned(DRIVER, declaration), NO_ADDRESS)
  {
    ghost var all := EmittedWords(Scanned(DRIVER, declaration), NO_ADDRESS);
    ghost var done: seq<Dword> := [];
    var rest, previous: nat := declaration, NO_ADDRESS;
    size := 0;
    while rest[0] != VertexDeclaration.END
      invariant Ends(DRIVER, rest)
      invariant size == |done| && all == done + EmittedWords(Scanned(DRIVER, rest), previous)
      invariant Filled(push, done)
      decreases |rest|
    {
      var n, found := ReadToken(rest);
      ScanStep(DRIVER, rest, n);
      rest := rest[1 + n..];
      if found != [] {
        var load := found[0];
        EmittedWordsSplit(load, Scanned(DRIVER, rest), previous);
        Regroup(done, EmittedWords([load], previous), EmittedWords(Scanned(DRIVER, rest), load.address));
        size := PutLoad(push, done, size, load, previous);
        done := done + EmittedWords([load], previous);
        previous := load.address;
      } else {
        NoLoadMore(Scanned(DRIVER, rest));
      }
    }
    assert all == done;
  }

  // The scan as a reading of the declaration.

  /** Extension tokens carry nothing that the scan would take for a constant token or for the end. */
  predicate PlainExtensions(tokens: seq<VertexDeclaration.Token>) {
    tokens == [] || (
      && (tokens[0].Extension? ==> forall word <- tokens[0].extra :: IsPlain(word))
      && PlainExtensions(tokens[1..]))
  }

  predicate IsPlain(word: Dword) {
    word != VertexDeclaration.END && !IsConstantToken(word)
  }

  /** The load that a token is, or none. */
  function LoadOf(t: VertexDeclaration.Token): seq<Load> {
    match t
    case Constants(address, vectors) =>
      if 0 <= address + 96 < 256 && |vectors| % 4 == 0 then [Load(address + 96, vectors)] else []
    case _ => []
  }

  function LoadsOf(tokens: seq<VertexDeclaration.Token>): seq<Load> {
    if tokens == [] then [] else LoadOf(tokens[0]) + LoadsOf(tokens[1..])
  }

  lemma TokensUnfold(t: VertexDeclaration.Token, later: seq<VertexDeclaration.Token>)
    ensures PlainExtensions([t] + later) <==>
      (t.Extension? ==> forall word <- t.extra :: IsPlain(word)) && PlainExtensions(later)
    ensures LoadsOf([t] + later) == LoadOf(t) + LoadsOf(later)
  {
    assert ([t] + later)[1..] == later;
  }

  /** A reading that goes on to the next word behind a word that is not a constant token. */
  ghost predicate SkipsPlain(r: Reading) {
    forall word: Dword :: !IsConstantToken(word) ==> r.passed(word) == 0 && r.load(word, []) == []
  }

  /** A reading that takes every token but an extension for what the grammar says it is. */
  ghost predicate Agrees(r: Reading) {
    forall word: Dword, payload: seq<Dword> ::
      |payload| == VertexDeclaration.PayloadSize(word) && AgreesOn(word, payload) ==>
        var t := VertexDeclaration.TokenOf(word, payload).value;
        |payload| == r.passed(word) && r.load(word, payload) == LoadOf(t)
  }

  predicate AgreesOn(word: Dword, payload: seq<Dword>) {
    var t := VertexDeclaration.TokenOf(word, payload);
    t.Some? && !t.value.Extension?
  }

  lemma DriverAgrees()
    ensures Agrees(DRIVER)
  {
    forall word: Dword, payload: seq<Dword> |
      |payload| == VertexDeclaration.PayloadSize(word) && AgreesOn(word, payload)
      ensures
        var t := VertexDeclaration.TokenOf(word, payload).value;
        |payload| == DRIVER.passed(word) && DRIVER.load(word, payload) == LoadOf(t)
    {
      HeadAgrees(word, payload, VertexDeclaration.TokenOf(word, payload).value);
    }
  }

  lemma DriverSkipsPlain()
    ensures SkipsPlain(DRIVER)
  {
  }

  lemma HeadAgrees(word: Dword, payload: seq<Dword>, t: VertexDeclaration.Token)
    requires |payload| == VertexDeclaration.PayloadSize(word) && VertexDeclaration.TokenOf(word, payload) == Some(t)
    requires !t.Extension?
    ensures |payload| == Passed(word) && LoadAt(word, payload) == LoadOf(t)
  {
    assert IsConstantToken(word) <==> t.Constants?;
  }

  lemma ExtensionHead(word: Dword, payload: seq<Dword>, t: VertexDeclaration.Token)
    requires VertexDeclaration.TokenOf(word, payload) == Some(t) && t.Extension?
    ensures !IsConstantToken(word) && t.extra == payload && LoadOf(t) == []
  {
  }

  /** One word that is not a constant token. */
  lemma PlainStep(r: Reading, words: seq<Dword>)
    requires SkipsPlain(r) && words != [] && IsPlain(words[0])
    ensures Ends(r, words) <==> Ends(r, words[1..])
    ensures Ends(r, words) ==> Scanned(r, words) == Scanned(r, words[1..])
  {
    assert words[1..1 + 0] == [];
    ScanStep(r, words, 0);
    if Ends(r, words) {
      NoLoadMore(Scanned(r, words[1..]));
    }
  }

  lemma {:induction false} PlainSteps(r: Reading, words: seq<Dword>, n: nat)
    requires SkipsPlain(r) && n <= |words| && forall i | 0 <= i < n :: IsPlain(words[i])
    ensures Ends(r, words) <==> Ends(r, words[n..])
    ensures Ends(r, words) ==> Scanned(r, words) == Scanned(r, words[n..])
    decreases n
  {
    if n > 0 {
      PlainStep(r, words);
      PlainSteps(r, words[1..], n - 1);
      assert words[1..][n - 1..] == words[n..];
    } else {
      assert words[0..] == words;
    }
  }

  /** An extension token, given what the scan makes of the words behind it. */
  lemma ExtensionStep(r: Reading, words: seq<Dword>, t: VertexDeclaration.Token, n: nat)
    requires SkipsPlain(r) && 1 + n <= |words| && words[0] != VertexDeclaration.END
    requires VertexDeclaration.TokenOf(words[0], words[1..1 + n]) == Some(t)
    requires t.Extension? && forall word <- t.extra :: IsPlain(word)
    requires Ends(r, words[1 + n..])
    ensures Ends(r, words) && Scanned(r, words) == LoadOf(t) + Scanned(r, words[1 + n..])
  {
    ExtensionHead(words[0], words[1..1 + n], t);
    PayloadIsPlain(words, t.extra);
    PlainSteps(r, words, 1 + n);
    NoLoadMore(Scanned(r, words[1 + n..]));
  }

  lemma PayloadIsPlain(words: seq<Dword>, payload: seq<Dword>)
    requires words != [] && words[0] != VertexDeclaration.END && !IsConstantToken(words[0])
    requires payload <= words[1..] && forall word <- payload :: IsPlain(word)
    ensures forall i | 0 <= i < 1 + |payload| :: IsPlain(words[i])
  {
    forall i | 0 <= i < 1 + |payload|
      ensures IsPlain(words[i])
    {
      if i > 0 {
        assert words[i] == words[1..][i - 1] == payload[i - 1];
      }
    }
  }

  /** Any other token. */
  lemma TokenStep(r: Reading, words: seq<Dword>, t: VertexDeclaration.Token, n: nat)
    requires Agrees(r) && words != [] && words[0] != VertexDeclaration.END
    requires n == VertexDeclaration.PayloadSize(words[0]) && 1 + n <= |words|
    requires VertexDeclaration.TokenOf(words[0], words[1..1 + n]) == Some(t) && !t.Extension?
    ensures n == r.passed(words[0]) && r.load(words[0], words[1..1 + n]) == LoadOf(t)
  {
    assert AgreesOn(words[0], words[1..1 + n]);
  }

  /** Unless an extension token carries a constant token or an end, the scan finds the declaration's constant loads. */
  lemma {:induction false} ScanFinds(r: Reading, words: seq<Dword>)
    requires Agrees(r) && SkipsPlain(r)
    requires VertexDeclaration.Parse(words).Some? && PlainExtensions(VertexDeclaration.Parse(words).value)
    ensures Ends(r, words) && Scanned(r, words) == LoadsOf(VertexDeclaration.Parse(words).value)
    decreases |words|
  {
    if words[0] == VertexDeclaration.END {
    } else if words[0] == VertexDeclaration.NOP {
      ScanFinds(r, words[1..]);
      PlainStep(r, words);
    } else {
      var t, n := VertexDeclaration.ParseStep(words);
      TokensUnfold(t, VertexDeclaration.Parse(words[1 + n..]).value);
      ScanFinds(r, words[1 + n..]);
      if t.Extension? {
        ExtensionStep(r, words, t, n);
      } else {
        TokenStep(r, words, t, n);
        ScanStep(r, words, n);
      }
    }
  }

  lemma ScanFindsLoads(words: seq<Dword>)
    requires VertexDeclaration.Parse(words).Some? && PlainExtensions(VertexDeclaration.Parse(words).value)
    ensures Ends(DRIVER, words) && Scanned(DRIVER, words) == LoadsOf(VertexDeclaration.Parse(words).value)
  {
    DriverAgrees();
    DriverSkipsPlain();
    ScanFinds(DRIVER, words);
  }

  /** What is emitted for a declaration decodes as whole commands, which store what the declaration asks for if and
      only if its loads are aligned. */
  lemma DeclarationLoads(words: seq<Dword>, pointer: nat)
    requires VertexDeclaration.Parse(words).Some? && PlainExtensions(VertexDeclaration.Parse(words).value)
    ensures
      var loads := LoadsOf(VertexDeclaration.Parse(words).value);
      && Ends(DRIVER, words)
      && PushBuffer.Decode(EmittedWords(Scanned(DRIVER, words), NO_ADDRESS)) == Some(Emitted(loads, NO_ADDRESS))
      && InPlace(Emitted(loads, NO_ADDRESS))
      && (Execute(Emitted(loads, NO_ADDRESS), pointer) == Declared(loads) <==> Aligned(loads, NO_ADDRESS, 0))
  {
    ScanFindsLoads(words);
    var loads := LoadsOf(VertexDeclaration.Parse(words).value);
    PushBuffer.EncodeDecode(Emitted(loads, NO_ADDRESS), []);
    assert EmittedWords(loads, NO_ADDRESS) + [] == EmittedWords(loads, NO_ADDRESS);
    assert Emitted(loads, NO_ADDRESS) + [] == Emitted(loads, NO_ADDRESS);
    ConstantsPlacedIff(loads, pointer);
    EmittedInPlace(loads, NO_ADDRESS);
  }

  /** An extension token whose one extra word is that of the end token: the grammar goes on behind it to a constant
      load, and the scan stops at it. */
  lemma ExtensionExample(info: nat, vector: seq<Dword>)
    requires info < VertexDeclaration.EXT_COUNT && |vector| == 4
    ensures
      var first := VertexDeclaration.Extension(info, [VertexDeclaration.END]);
      var second := VertexDeclaration.Constants(-96, vector);
      var words := VertexDeclaration.PrintToken(first) + (VertexDeclaration.PrintToken(second) + [VertexDeclaration.END]);
      && VertexDeclaration.Parse(words) == Some([first, second]) && LoadsOf([first, second]) == [Load(0, vector)]
      && Ends(DRIVER, words) && Scanned(DRIVER, words) == []
  {
    var first, second := VertexDeclaration.Extension(info, [VertexDeclaration.END]), VertexDeclaration.Constants(-96, vector);
    TwoTokensParse(first, second);
    TwoLoads(first, second);
    FirstRegisterLoad(vector);
    ScanStopsInside(info, VertexDeclaration.PrintToken(second) + [VertexDeclaration.END]);
  }

  lemma FirstRegisterLoad(vector: seq<Dword>)
    requires |vector| == 4
    ensures LoadOf(VertexDeclaration.Constants(-96, vector)) == [Load(0, vector)]
  {
  }

  lemma ScanStopsInside(info: nat, later: seq<Dword>)
    requires info < VertexDeclaration.EXT_COUNT
    ensures
      var words := VertexDeclaration.PrintToken(VertexDeclaration.Extension(info, [VertexDeclaration.END])) + later;
      Ends(DRIVER, words) && Scanned(DRIVER, words) == []
  {
    var t := VertexDeclaration.Extension(info, [VertexDeclaration.END]);
    ExtensionIsPlain(t);
    DriverSkipsPlain();
    ScanStops(DRIVER, VertexDeclaration.HeadWord(t), later);
    assert VertexDeclaration.PrintToken(t) == [VertexDeclaration.HeadWord(t), VertexDeclaration.END];
  }

  lemma ExtensionIsPlain(t: VertexDeclaration.Token)
    requires VertexDeclaration.WellFormed(t) && t.Extension?
    ensures 0 <= VertexDeclaration.HeadWord(t) < DWORD_RANGE && IsPlain(VertexDeclaration.HeadWord(t))
  {
    VertexDeclaration.TokenReads(t);
    ExtensionHead(VertexDeclaration.HeadWord(t), t.extra, t);
  }

  lemma TwoTokensParse(t: VertexDeclaration.Token, u: VertexDeclaration.Token)
    requires VertexDeclaration.WellFormed(t) && VertexDeclaration.WellFormed(u)
    ensures VertexDeclaration.Parse(
        VertexDeclaration.PrintToken(t) + (VertexDeclaration.PrintToken(u) + [VertexDeclaration.END])) == Some([t, u])
  {
    assert VertexDeclaration.Parse([VertexDeclaration.END]) == Some([]);
    assert [u] + [] == [u] && [t] + [u] == [t, u];
    VertexDeclaration.ParseTakesToken(u, [VertexDeclaration.END]);
    VertexDeclaration.ParseTakesToken(t, VertexDeclaration.PrintToken(u) + [VertexDeclaration.END]);
  }

  lemma TwoLoads(t: VertexDeclaration.Token, u: VertexDeclaration.Token)
    ensures LoadsOf([t, u]) == LoadOf(t) + LoadOf(u)
  {
    assert [t, u] == [t] + [u] && [u] == [u] + [];
    TokensUnfold(t, [u]);
    TokensUnfold(u, []);
    assert LoadOf(u) + LoadsOf([]) == LoadOf(u);
  }

  lemma ScanStops(r: Reading, head: Dword, later: seq<Dword>)
    requires SkipsPlain(r) && IsPlain(head)
    ensures
      var words := [head, VertexDeclaration.END] + later;
      Ends(r, words) && Scanned(r, words) == []
  {
    var words := [head, VertexDeclaration.END] + later;
    PlainStep(r, words);
    assert words[1..][0] == VertexDeclaration.END;
  }

  /** Two vectors for register 0 and one for register 1: the last one goes to register 2. */
  lemma OverlookedExample(a: seq<Dword>, b: seq<Dword>, c: seq<Dword>)
    requires |a| == 4 && |b| == 4 && |c| == 4
    ensures
      var loads := [Load(0, a + b), Load(1, c)];
      && Declared(loads) == Vector(0, a) + Vector(1, b) + Vector(1, c)
      && Execute(Emitted(loads, NO_ADDRESS), 0) == Vector(0, a) + Vector(1, b) + Vector(2, c)
  {
    var first, second := Load(0, a + b), Load(1, c);
    var loads := [first, second];
    assert loads[1..] == [second] && [second][1..] == [];
    TwoStores(0, a, b);
    OneStore(1, c);
    OneStore(2, c);
    LoadExecutes(first, NO_ADDRESS, Emitted([second], 0), 0);
    LoadExecutes(second, 0, Emitted([], 1), 2);
    assert Execute(Emitted([], 1), 3) == [];
    assert Declared([second]) == Stores(1, c) + Declared([]);
  }

  lemma OneStore(slot: nat, a: seq<Dword>)
    requires |a| == 4
    ensures Stores(slot, a) == Vector(slot, a)
  {
    assert a[..4] == a && a[4..] == [];
  }

  lemma TwoStores(slot: nat, a: seq<Dword>, b: seq<Dword>)
    requires |a| == 4 && |b| == 4
    ensures Stores(slot, a + b) == Vector(slot, a) + Vector(slot + 1, b)
  {
    assert (a + b)[..4] == a && (a + b)[4..] == b;
    OneStore(slot + 1, b);
  }
}
