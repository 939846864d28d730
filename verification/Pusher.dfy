/** Push-buffer space: BeginState and EndState of shared/include/d3d8.h, over libs/libd3d8/se/pusher.cpp. */
module Pusher {
  import opened Prelude
  import opened Direct3DTypes
  import opened PushBuffer
  import opened RenderTables

  // Sizes, in words.

  /** What is always available, and the word kept free behind it for a jump. */
  const THRESHOLD_SIZE: nat := 128
  const OVERHEAD: nat := 1

  const HALF_DEFAULT_SEGMENT: nat := 4096
  const MINIMUM_SEGMENT: nat := 512
  const MINIMUM_BUFFER: nat := 0x4000

  /** The commands of a fence: a progress stamp, a semaphore release, and two fillers. */
  const SET_MONOCHROME_COLOR0: nat := 0xA310
  const BACK_END_WRITE_SEMAPHORE_RELEASE: nat := 0x1D70
  const SET_COLOR_CLEAR_VALUE: nat := 0x1D90
  const FENCE_SIZE: nat := 8

  function Single(target: nat, arg: Dword): Packet {
    Packet(target, false, [arg])
  }

  function FencePackets(stamp: Dword, time: Dword): seq<Packet> {
    [Single(SET_MONOCHROME_COLOR0, stamp), Single(BACK_END_WRITE_SEMAPHORE_RELEASE, time)]
    + [Single(SET_COLOR_CLEAR_VALUE, 0), Single(SET_COLOR_CLEAR_VALUE, 0)]
  }

  /** The word that encodes a method with one argument. */
  function MethodWord(target: nat): (w: Dword)
    requires target < METHOD_RANGE
  {
    METHOD_RANGE + target
  }

  /** Two methods with one argument each. */
  function PairWords(target: nat, arg: Dword, target': nat, arg': Dword): (words: seq<Dword>)
    requires target < METHOD_RANGE && target' < METHOD_RANGE
    ensures |words| == 4
  {
    [MethodWord(target), arg] + [MethodWord(target'), arg']
  }

  /** The words that SetFence writes. */
  function FenceWords(stamp: Dword, time: Dword): (words: seq<Dword>)
    ensures |words| == FENCE_SIZE
  {
    PairWords(SET_MONOCHROME_COLOR0, stamp, BACK_END_WRITE_SEMAPHORE_RELEASE, time)
    + PairWords(SET_COLOR_CLEAR_VALUE, 0, SET_COLOR_CLEAR_VALUE, 0)
  }

  lemma SingleDecodes(target: nat, arg: Dword)
    requires target < METHOD_RANGE
    ensures Decode([MethodWord(target), arg]) == Some([Single(target, arg)])
  {
    assert EncodePacket(Single(target, arg)) == [MethodWord(target), arg];
    DecodeOne(Single(target, arg));
  }

  lemma PairDecodes(target: nat, arg: Dword, target': nat, arg': Dword)
    requires target < METHOD_RANGE && target' < METHOD_RANGE
    ensures Decode(PairWords(target, arg, target', arg')) == Some([Single(target, arg), Single(target', arg')])
  {
    SingleDecodes(target, arg);
    SingleDecodes(target', arg');
    DecodeAppend([MethodWord(target), arg], [MethodWord(target'), arg']);
    assert [Single(target, arg)] + [Single(target', arg')] == [Single(target, arg), Single(target', arg')];
  }

  lemma FenceDecodes(stamp: Dword, time: Dword)
    ensures FenceWords(stamp, time) == [0x4_A310, stamp, 0x4_1D70, time, 0x4_1D90, 0, 0x4_1D90, 0]
    ensures Decode(FenceWords(stamp, time)) == Some(FencePackets(stamp, time))
  {
    PairDecodes(SET_MONOCHROME_COLOR0, stamp, BACK_END_WRITE_SEMAPHORE_RELEASE, time);
    PairDecodes(SET_COLOR_CLEAR_VALUE, 0, SET_COLOR_CLEAR_VALUE, 0);
    DecodeAppend(PairWords(SET_MONOCHROME_COLOR0, stamp, BACK_END_WRITE_SEMAPHORE_RELEASE, time),
                 PairWords(SET_COLOR_CLEAR_VALUE, 0, SET_COLOR_CLEAR_VALUE, 0));
  }

  /** The pusher, with the GPU's reading left out. */
  class Pusher {
    const memory: array<Dword>
    /** The words between kick-offs, and the address the GPU knows the base of the memory by. */
    const segment: nat
    const base: Dword
    var put: nat
    var threshold: int
    /** Inside a begin/end bracket no fence may be written. */
    var bracket: bool
    var fencePending: bool

    /** Every word pushed since the start, in order; and how many of them came before the current lap. */
    ghost var stream: seq<Dword>
    ghost var lap: nat

    /** The sizes that SetPushBufferSize allows. */
    ghost predicate Sized() {
      && MINIMUM_BUFFER <= memory.Length && MINIMUM_SEGMENT <= segment && 4 * segment <= memory.Length
      && base % 4 == 0
    }

    /** A reservation never reaches the last word before the end of the memory. */
    ghost predicate Bounded()
      reads this
    {
      Sized() && put <= threshold + THRESHOLD_SIZE && threshold + THRESHOLD_SIZE + OVERHEAD <= memory.Length
    }

    /** The current lap's words stand in the memory from its base to the put pointer. */
    ghost predicate Valid()
      reads this, memory
    {
      Bounded() && lap + put == |stream| && memory[..put] == stream[lap..]
    }

    /** How many words a caller may still write before the word kept for a jump. */
    ghost function Room(): int
      reads this
    {
      threshold + THRESHOLD_SIZE - put
    }

    constructor (size: nat, segment: nat, base: Dword)
      requires MINIMUM_BUFFER <= size && MINIMUM_SEGMENT <= segment && 4 * segment <= size && base % 4 == 0
      ensures Valid() && fresh(memory) && memory.Length == size && this.segment == segment
      ensures stream == [] && Room() >= THRESHOLD_SIZE
    {
      this.segment, this.base := segment, base;
      memory := new Dword[size];
      put, threshold := 0, segment - (THRESHOLD_SIZE + OVERHEAD);
      bracket, fencePending := false, false;
      stream, lap := [], 0;
    }

    /** Copies words into the memory; this is what callers do between BeginState and EndState. */
    method Write(at: nat, words: seq<Dword>)
      requires at + |words| <= memory.Length
      modifies memory
      ensures memory[at..at + |words|] == words
      ensures forall i: nat :: i < at || at + |words| <= i < memory.Length ==> memory[i] == old(memory[i])
    {
      for i := 0 to |words|
        invariant forall k: nat :: k < i ==> memory[at + k] == words[k]
        invariant forall k: nat :: k < at || at + i <= k < memory.Length ==> memory[k] == old(memory[k])
      {
        memory[at + i] := words[i];
      }
    }

    /** D3DDevice_EndState, with the bound its parameter check states. */
    method EndState(at: nat)
      requires Valid() && put <= at <= threshold + THRESHOLD_SIZE
      modifies `put, `stream
      ensures Valid() && put == at && stream == old(stream + memory[put..at])
    {
      stream := stream + memory[put..at];
      put := at;
    }

    /** What a caller does with a reservation: write words into it and end it behind them. */
    method Finish(at: nat, words: seq<Dword>)
      requires Valid() && at == put && |words| <= Room()
      modifies `put, `stream, memory
      ensures Valid() && put == at + |words| && stream == old(stream) + words
      ensures forall i: nat :: put <= i < memory.Length ==> memory[i] == old(memory[i])
    {
      Write(at, words);
      assert memory[..put] == old(memory[..put]);
      EndState(at + |words|);
    }

    /** SetFence, where there is room for it; the clock's time and the progress stamp are given. */
    method SetFence(stamp: Dword, time: Dword)
      requires Valid() && put < threshold
      modifies `put, `stream, memory
      ensures Valid() && put == old(put) + FENCE_SIZE && stream == old(stream) + FenceWords(stamp, time)
      ensures forall i: nat :: put <= i < memory.Length ==> memory[i] == old(memory[i])
    {
      Finish(put, FenceWords(stamp, time));
    }

    /** The part of MakeRequestedSpace that finds the new segment, wrapping to the base when it must. */
    method FindSegment(minimum: nat, requested: nat)
      requires Valid() && segment / 2 <= minimum <= requested && segment <= requested <= memory.Length / 2
      modifies `put, `threshold, `lap, memory
      ensures Valid() && Room() + OVERHEAD >= minimum
      ensures put == if old(put) + minimum <= memory.Length then old(put) else 0
      ensures old(put) + minimum > memory.Length ==> memory[old(put)] == base + 1
      ensures forall i: nat :: i < memory.Length && (old(put) + minimum <= memory.Length || i != old(put)) ==>
        memory[i] == old(memory[i])
      ensures Room() + OVERHEAD == requested ||
        (put + requested + HALF_DEFAULT_SEGMENT >= memory.Length && put + Room() + OVERHEAD == memory.Length)
    {
      var end := put + requested;
      if end + HALF_DEFAULT_SEGMENT >= memory.Length {
        if put + minimum <= memory.Length {
          end := memory.Length;
        } else {
          memory[put] := base + 1;
          put, lap := 0, |stream|;
          end := requested;
        }
      }
      threshold := end - (THRESHOLD_SIZE + OVERHEAD);
    }

    /** MakeRequestedSpace: at least `minimum` words, less those of the fence that marks the segment. */
    method MakeRequestedSpace(minimum: nat, requested: nat, stamp: Dword, time: Dword) returns (ghost fence: seq<Dword>)
      requires Valid() && segment / 2 <= minimum <= requested && segment <= requested <= memory.Length / 2
      modifies this, memory
      ensures Valid() && Room() + OVERHEAD + FENCE_SIZE >= minimum
      ensures bracket == old(bracket) && fence == (if bracket then [] else FenceWords(stamp, time))
      ensures stream == old(stream) + fence
      ensures bracket ==> fencePending
      ensures put == (if old(put) + minimum <= memory.Length then old(put) else 0) + |fence|
      ensures old(put) + minimum > memory.Length ==> memory[old(put)] == base + 1
    {
      FindSegment(minimum, requested);
      if bracket {
        fencePending := true;
        fence := [];
      } else {
        SetFence(stamp, time);
        fence := FenceWords(stamp, time);
      }
    }

    /** MakeSpace, which the inline BeginState calls when the threshold is passed. */
    method MakeSpace(stamp: Dword, time: Dword) returns (at: nat, ghost fence: seq<Dword>)
      requires Valid()
      modifies this, memory
      ensures Valid() && at == put && Room() + OVERHEAD + FENCE_SIZE >= MINIMUM_SEGMENT / 2
      ensures (fence == [] || fence == FenceWords(stamp, time)) && stream == old(stream) + fence
    {
      fence := MakeRequestedSpace(segment / 2, segment, stamp, time);
      at := put;
    }

    /** StartPush with a count, for big reservations; its last postcondition is the assertion in the source. */
    method StartPush(count: nat, stamp: Dword, time: Dword) returns (at: nat, ghost fence: seq<Dword>)
      requires Valid() && count + THRESHOLD_SIZE + OVERHEAD <= memory.Length / 2
      modifies this, memory
      ensures Valid() && at == put
      ensures (fence == [] || fence == FenceWords(stamp, time)) && stream == old(stream) + fence
      ensures put + count < threshold + 128
    {
      fence := [];
      if put + count >= threshold + THRESHOLD_SIZE {
        var needed := count + THRESHOLD_SIZE + OVERHEAD;
        var minimum := if needed > segment / 2 then needed else segment / 2;
        var maximum := if needed > segment then needed else segment;
        fence := MakeRequestedSpace(minimum, maximum, stamp, time);
      }
      at := put;
      assert stream == old(stream) + fence;
    }

    /** D3DDevice_BeginState: a place where `count` words may be written. */
    method BeginState(count: nat, stamp: Dword, time: Dword) returns (at: nat, ghost fence: seq<Dword>)
      requires Valid() && count + THRESHOLD_SIZE + OVERHEAD <= memory.Length / 2
      modifies this, memory
      ensures Valid() && at == put && count <= Room()
      ensures (fence == [] || fence == FenceWords(stamp, time)) && stream == old(stream) + fence
    {
      if count < THRESHOLD_SIZE {
        at, fence := put, [];
        if put >= threshold {
          at, fence := MakeSpace(stamp, time);
        }
      } else {
        at, fence := StartPush(count, stamp, time);
      }
      assert stream == old(stream) + fence;
    }

    /** Reserve, write and end, as every user of the push buffer does: the stream stays one of whole commands, and
        nothing but the command, and perhaps a fence in front of it, is added. */
    method Push(p: Packet, stamp: Dword, time: Dword) returns (ghost fence: seq<Packet>)
      requires Valid() && Encodable(p) && Decode(stream).Some?
      modifies this, memory
      ensures Valid() && (fence == [] || fence == FencePackets(stamp, time))
      ensures Decode(stream) == Some(old(Decode(stream).value) + fence + [p])
    {
      var at, words := BeginState(1 + |p.args|, stamp, time);
      fence := Fenced(old(stream), words, stamp, time);
      ghost var before := stream;
      Finish(at, EncodePacket(p));
      DecodeOne(p);
      DecodeAppend(before, EncodePacket(p));
    }

    /** D3DDevice_SetRenderState_Simple: a command word and its value; at most one turn of the loop makes space. */
    method PushSimple(word: Dword, value: Dword, stamp: Dword, time: Dword) returns (ghost fence: seq<Packet>)
      requires Valid() && IsHeader(word) && CountOf(word) == 1 && Decode(stream).Some?
      modifies this, memory
      ensures Valid() && (fence == [] || fence == FencePackets(stamp, time))
      ensures Decode(stream) == Some(old(Decode(stream).value) + fence + [PacketOf(word, [value])])
    {
      ghost var before, words: seq<Dword> := stream, [];
      while true
        invariant Valid() && stream == before + words
        invariant words == [] || (words == FenceWords(stamp, time) && put + 2 < threshold)
        decreases put + 2 >= threshold
      {
        var end := put + 2;
        if end < threshold {
          Finish(put, [word, value]);
          break;
        }
        var at, made := MakeSpace(stamp, time);
        words := made;
        assert before + words == before + [] + made;
      }
      fence := SimpleDecodes(before, words, word, value, stamp, time);
    }
  }

  lemma SimpleDecodes(before: seq<Dword>, words: seq<Dword>, word: Dword, value: Dword, stamp: Dword, time: Dword)
    returns (fence: seq<Packet>)
    requires Decode(before).Some? && (words == [] || words == FenceWords(stamp, time))
    requires IsHeader(word) && CountOf(word) == 1
    ensures fence == [] || fence == FencePackets(stamp, time)
    ensures Decode(before + words + [word, value]) == Some(Decode(before).value + fence + [PacketOf(word, [value])])
  {
    fence := Fenced(before, words, stamp, time);
    HeaderWrites(word, [value]);
    DecodeOne(PacketOf(word, [value]));
    assert EncodePacket(PacketOf(word, [value])) == [word, value];
    DecodeAppend(before + words, [word, value]);
  }

  /** Every simple render state's table entry is a whole header for one argument, so that the two words that the
      setter pushes are one command. */
  lemma SimpleEntriesAreHeaders(state: nat)
    requires state < RS_SIMPLE_MAX
    ensures IsHeader(SimpleEncode(state)) && CountOf(SimpleEncode(state)) == 1
  {
    assert METHOD_RANGE <= SimpleEncode(state) < 2 * METHOD_RANGE;
  }

  lemma Fenced(stream: seq<Dword>, words: seq<Dword>, stamp: Dword, time: Dword) returns (fence: seq<Packet>)
    requires Decode(stream).Some? && (words == [] || words == FenceWords(stamp, time))
    ensures fence == [] || fence == FencePackets(stamp, time)
    ensures Decode(stream + words) == Some(Decode(stream).value + fence)
  {
    if words == [] {
      fence := [];
      assert stream + words == stream;
      assert Decode(stream).value + fence == Decode(stream).value;
    } else {
      fence := FencePackets(stamp, time);
      FenceDecodes(stamp, time);
      DecodeAppend(stream, words);
    }
  }
}
