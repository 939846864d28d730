/** The push-buffer encoding of shared/include/d3d8types.h. */
module PushBuffer {
  import opened Prelude
  import opened Direct3DTypes

  const METHOD_RANGE: nat := 0x4_0000
  const NOINCREMENT_FLAG: nat := 0x4000_0000
  const MAX_COUNT: nat := 2047

  /** A command: a method, whether its arguments all go to that one method, and the arguments. */
  datatype Packet = Packet(target: nat, fixedTarget: bool, args: seq<Dword>)

  predicate Encodable(p: Packet) {
    p.target < METHOD_RANGE && |p.args| <= MAX_COUNT
  }

  /** D3DPUSH_ENCODE, with the flag added to the method. */
  function HeaderWord(p: Packet): (w: Dword)
    requires Encodable(p)
  {
    |p.args| * METHOD_RANGE + p.target + if p.fixedTarget then NOINCREMENT_FLAG else 0
  }

  /** Where the fields of a header lie, and how many arguments there may be. */
  lemma HeaderFields(p: Packet)
    ensures Encodable(p) <==> p.target < 0x4_0000 && |p.args| <= 2047
    ensures Encodable(p) ==> HeaderWord(p) == p.target + 0x4_0000 * |p.args| + if p.fixedTarget then 0x4000_0000 else 0
  {
  }

  function EncodePacket(p: Packet): seq<Dword>
    requires Encodable(p)
  {
    [HeaderWord(p)] + p.args
  }

  predicate AllEncodable(packets: seq<Packet>) {
    packets == [] || (Encodable(packets[0]) && AllEncodable(packets[1..]))
  }

  function Encode(packets: seq<Packet>): seq<Dword>
    requires AllEncodable(packets)
  {
    if packets == [] then [] else EncodePacket(packets[0]) + Encode(packets[1..])
  }

  /** The count field of a header. */
  function CountOf(w: Dword): nat {
    w % NOINCREMENT_FLAG / METHOD_RANGE
  }

  /** A command starts with a word whose bits 29 and 31 are zero. */
  predicate IsHeader(w: Dword) {
    w / NOINCREMENT_FLAG < 2 && CountOf(w) <= MAX_COUNT
  }

  function PacketOf(w: Dword, args: seq<Dword>): Packet {
    Packet(w % METHOD_RANGE, w / NOINCREMENT_FLAG == 1, args)
  }

  /** The commands in a list of words; None if it holds other words, or ends in the middle of a command. */
  function Decode(words: seq<Dword>): Option<seq<Packet>>
    decreases |words|
  {
    if words == [] then Some([]) else
      var n := CountOf(words[0]);
      if !IsHeader(words[0]) || 1 + n > |words| then None
      else Prefixed(PacketOf(words[0], words[1..1 + n]), Decode(words[1 + n..]))
  }

  function Prefixed(p: Packet, later: Option<seq<Packet>>): Option<seq<Packet>> {
    if later.None? then None else Some([p] + later.value)
  }

  lemma HeaderReads(p: Packet)
    requires Encodable(p)
    ensures
      var w := HeaderWord(p);
      IsHeader(w) && CountOf(w) == |p.args| && PacketOf(w, p.args) == p
  {
  }

  lemma HeaderWrites(w: Dword, args: seq<Dword>)
    requires IsHeader(w) && |args| == CountOf(w)
    ensures Encodable(PacketOf(w, args)) && HeaderWord(PacketOf(w, args)) == w
  {
  }

  lemma DecodeTakesPacket(p: Packet, rest: seq<Dword>)
    requires Encodable(p)
    ensures Decode(EncodePacket(p) + rest) == Prefixed(p, Decode(rest))
  {
    HeaderReads(p);
    var words := EncodePacket(p) + rest;
    assert words[1..1 + |p.args|] == p.args;
    assert words[1 + |p.args|..] == rest;
  }

  lemma {:induction false} EncodeAppend(a: seq<Packet>, b: seq<Packet>)
    requires AllEncodable(a) && AllEncodable(b)
    ensures AllEncodable(a + b) && Encode(a + b) == Encode(a) + Encode(b)
  {
    if a == [] {
      assert a + b == b;
    } else {
      assert (a + b)[1..] == a[1..] + b;
      EncodeAppend(a[1..], b);
      Regroup(EncodePacket(a[0]), Encode(a[1..]), Encode(b));
    }
  }

  function After(packets: seq<Packet>, later: Option<seq<Packet>>): Option<seq<Packet>> {
    if later.None? then None else Some(packets + later.value)
  }

  lemma PrefixedAfter(packets: seq<Packet>, later: Option<seq<Packet>>)
    ensures packets == [] ==> After(packets, later) == later
    ensures packets != [] ==> After(packets, later) == Prefixed(packets[0], After(packets[1..], later))
  {
    if packets == [] && later.Some? {
      assert packets + later.value == later.value;
    } else if later.Some? {
      assert packets + later.value == [packets[0]] + (packets[1..] + later.value);
    }
  }

  /** Decoding what was encoded, in front of any other words, gives the commands back. */
  lemma {:induction false} EncodeDecode(packets: seq<Packet>, rest: seq<Dword>)
    requires AllEncodable(packets)
    ensures Decode(Encode(packets) + rest) == After(packets, Decode(rest))
  {
    PrefixedAfter(packets, Decode(rest));
    if packets == [] {
      assert Encode(packets) + rest == rest;
    } else {
      var first, later := EncodePacket(packets[0]), Encode(packets[1..]);
      Regroup(first, later, rest);
      DecodeTakesPacket(packets[0], later + rest);
      EncodeDecode(packets[1..], rest);
    }
  }

  /** Every list of words that decodes is the encoding of what it decodes to. */
  lemma {:induction false} DecodeEncode(words: seq<Dword>)
    requires Decode(words).Some?
    ensures AllEncodable(Decode(words).value) && Encode(Decode(words).value) == words
    decreases |words|
  {
    if words != [] {
      var n := CountOf(words[0]);
      var p := PacketOf(words[0], words[1..1 + n]);
      HeaderWrites(words[0], words[1..1 + n]);
      DecodeEncode(words[1 + n..]);
      var packets := Decode(words).value;
      assert packets[1..] == Decode(words[1 + n..]).value;
      assert words == EncodePacket(p) + words[1 + n..];
    }
  }

  /** Whole commands appended to whole commands. */
  lemma DecodeAppend(a: seq<Dword>, b: seq<Dword>)
    requires Decode(a).Some?
    ensures Decode(a + b) == After(Decode(a).value, Decode(b))
  {
    DecodeEncode(a);
    EncodeDecode(Decode(a).value, b);
  }

  lemma DecodeOne(p: Packet)
    requires Encodable(p)
    ensures Decode(EncodePacket(p)) == Some([p])
  {
    assert EncodePacket(p) + [] == EncodePacket(p);
    DecodeTakesPacket(p, []);
    assert [p] + [] == [p];
  }
}
