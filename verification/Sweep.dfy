/** The resuming linear sweep of tools/isa-scan.py over the bytes of one section. */
module Sweep {
  import opened Prelude
  import opened Latin1
  import opened IsaPolicy

  /** What, if anything, decodes at an offset of code loaded at a base address, and what it is reported for. */
  datatype Scanner = Scanner(decode: (Text, nat, nat) -> Option<Insn>, violations: Insn -> set<string>)

  /** The scanner that the tables of the policy make of a decoder. */
  function PolicyScanner(decode: (Text, nat, nat) -> Option<Insn>): Scanner {
    Scanner(decode, Violations)
  }

  predicate InBounds(insn: Insn, code: Text, pos: nat) {
    insn.size >= 1 && pos + insn.size <= |code|
  }

  /** A decoded instruction has a size and lies inside the code. */
  ghost predicate Sound(md: Scanner) {
    forall code: Text, base: nat, pos: nat ::
      md.decode(code, base, pos).Some? && pos < |code| ==> InBounds(md.decode(code, base, pos).value, code, pos)
  }

  /** Where a hit was found: the file, the archive member if any, and the section. */
  datatype Place = Place(file: Text, member: Option<Text>, section: Text)

  datatype Hit = Hit(place: Place, address: nat, mnemonic: string, operands: string, bad: set<string>)

  /** The hits of one instruction: one, or none. */
  function HitsOf(md: Scanner, place: Place, address: nat, insn: Insn): seq<Hit> {
    var bad := md.violations(insn);
    if bad == {} then [] else [Hit(place, address, insn.mnemonic, insn.operands, bad)]
  }

  /** The one-step sweep: decode and advance by the size, else advance by one byte. */
  function Hits(md: Scanner, place: Place, base: nat, code: Text, pos: nat): seq<Hit>
    requires Sound(md)
    decreases |code| - pos
  {
    if pos >= |code| then [] else
      match md.decode(code, base, pos)
      case None => Hits(md, place, base, code, pos + 1)
      case Some(insn) => HitsOf(md, place, base + pos, insn) + Hits(md, place, base, code, pos + insn.size)
  }

  /** A list after hits were appended to it one by one, stopping once it is at least `max` long. */
  function Record(out: seq<Hit>, hits: seq<Hit>, max: int): seq<Hit>
    decreases |hits|
  {
    if hits == [] then out
    else if |out| + 1 >= max then out + [hits[0]]
    else Record(out + [hits[0]], hits[1..], max)
  }

  function FirstN<T>(s: seq<T>, n: nat): seq<T> {
    if |s| <= n then s else s[..n]
  }

  /** Below the limit, recording keeps as many of the hits as the limit leaves room for, and no others. */
  lemma {:induction false} RecordTakes(out: seq<Hit>, hits: seq<Hit>, max: int)
    requires |out| < max
    ensures Record(out, hits, max) == out + FirstN(hits, max - |out|)
    decreases |hits|
  {
    if hits != [] && |out| + 1 < max {
      RecordTakes(out + [hits[0]], hits[1..], max);
    }
  }

  /** The list the scanner functions share and append to. */
  class HitList {
    var items: seq<Hit>

    constructor ()
      ensures items == []
    {
      items := [];
    }
  }

  /** The inner loop: disassembles from `off` until the decoder stalls, or the list is full. */
  method Disassemble(md: Scanner, place: Place, base: nat, code: Text, off: nat, out: HitList, maxHits: int)
    returns (last: nat, full: bool)
    requires Sound(md) && off <= |code|
    modifies out
    ensures full ==> out.items == Record(old(out.items), Hits(md, place, base, code, off), maxHits)
    ensures !full ==>
      && off <= last <= |code| && (last < |code| ==> md.decode(code, base, last) == None)
      && Record(out.items, Hits(md, place, base, code, last), maxHits)
         == Record(old(out.items), Hits(md, place, base, code, off), maxHits)
  {
    ghost var goal := Record(out.items, Hits(md, place, base, code, off), maxHits);
    last := off;
    while last < |code| && md.decode(code, base, last).Some?
      invariant off <= last <= |code|
      invariant Record(out.items, Hits(md, place, base, code, last), maxHits) == goal
      decreases |code| - last
    {
      var insn, address := md.decode(code, base, last).value, base + last;
      var bad := md.violations(insn);
      SweepStep(md, place, base, code, last, out.items, maxHits);
      last := last + insn.size;
      if bad != {} {
        out.items := out.items + [Hit(place, address, insn.mnemonic, insn.operands, bad)];
        if |out.items| >= maxHits {
          return last, true;
        }
      }
    }
    full := false;
  }

  /** The outer loop resumes the inner one, one byte past wherever it stalled without progress. */
  method ScanBytes(md: Scanner, place: Place, base: nat, code: Text, out: HitList, maxHits: int)
    requires Sound(md)
    modifies out
    ensures out.items == Record(old(out.items), Hits(md, place, base, code, 0), maxHits)
  {
    ghost var goal := Record(out.items, Hits(md, place, base, code, 0), maxHits);
    var off := 0;
    while off < |code|
      invariant Record(out.items, Hits(md, place, base, code, off), maxHits) == goal
      decreases |code| - off
    {
      var last, full := Disassemble(md, place, base, code, off, out, maxHits);
      if full {
        return;
      }
      off := if last > off + 1 then last else off + 1;
    }
  }

  /** One instruction of the inner loop. */
  lemma SweepStep(md: Scanner, place: Place, base: nat, code: Text, pos: nat, out: seq<Hit>, max: int)
    requires Sound(md) && pos < |code| && md.decode(code, base, pos).Some?
    ensures
      var insn := md.decode(code, base, pos).value;
      var bad := md.violations(insn);
      var later := Hits(md, place, base, code, pos + insn.size);
      var now := out + [Hit(place, base + pos, insn.mnemonic, insn.operands, bad)];
      && insn.size >= 1 && pos + insn.size <= |code|
      && Record(out, Hits(md, place, base, code, pos), max) ==
         (if bad == {} then Record(out, later, max) else if |now| >= max then now else Record(now, later, max))
  {
    HitsUnfold(md, place, base, code, pos);
    var insn := md.decode(code, base, pos).value;
    var hit := Hit(place, base + pos, insn.mnemonic, insn.operands, md.violations(insn));
    RecordOne(out, hit, Hits(md, place, base, code, pos + insn.size), max);
  }

  lemma HitsUnfold(md: Scanner, place: Place, base: nat, code: Text, pos: nat)
    requires Sound(md) && pos < |code| && md.decode(code, base, pos).Some?
    ensures
      var insn := md.decode(code, base, pos).value;
      var later := Hits(md, place, base, code, pos + insn.size);
      Hits(md, place, base, code, pos) ==
        if md.violations(insn) == {} then later
        else [Hit(place, base + pos, insn.mnemonic, insn.operands, md.violations(insn))] + later
  {
  }

  lemma RecordOne(out: seq<Hit>, hit: Hit, later: seq<Hit>, max: int)
    ensures Record(out, [hit] + later, max) ==
      if |out| + 1 >= max then out + [hit] else Record(out + [hit], later, max)
  {
    assert ([hit] + later)[1..] == later;
  }

  // What a sweep covers.

  /** A stretch of the code: a decoded instruction, or one byte skipped. */
  datatype Tile = Tile(start: nat, size: nat, decoded: bool)

  /** The stretches the sweep goes over, in order. */
  function Tiles(md: Scanner, base: nat, code: Text, pos: nat): seq<Tile>
    requires Sound(md)
    decreases |code| - pos
  {
    if pos >= |code| then [] else
      match md.decode(code, base, pos)
      case None => [Tile(pos, 1, false)] + Tiles(md, base, code, pos + 1)
      case Some(insn) => [Tile(pos, insn.size, true)] + Tiles(md, base, code, pos + insn.size)
  }

  predicate Covers(t: Tile, i: nat) {
    t.start <= i < t.start + t.size
  }

  /** How many of the stretches a byte lies in. */
  function Coverings(tiles: seq<Tile>, i: nat): nat {
    if tiles == [] then 0 else (if Covers(tiles[0], i) then 1 else 0) + Coverings(tiles[1..], i)
  }

  lemma TilesUnfold(md: Scanner, base: nat, code: Text, pos: nat) returns (t: Tile)
    requires Sound(md) && pos < |code|
    ensures t.start == pos && t.size >= 1 && pos + t.size <= |code|
    ensures Tiles(md, base, code, pos) == [t] + Tiles(md, base, code, pos + t.size)
  {
    t := Tiles(md, base, code, pos)[0];
  }

  lemma CoveringsUnfold(t: Tile, tiles: seq<Tile>, i: nat)
    ensures Coverings([t] + tiles, i) == (if Covers(t, i) then 1 else 0) + Coverings(tiles, i)
  {
    assert ([t] + tiles)[1..] == tiles;
  }

  /** Every byte from pos on lies in exactly one stretch, and no stretch reaches back or leaves the code. */
  lemma {:induction false} EachByteOnce(md: Scanner, base: nat, code: Text, pos: nat, i: nat)
    requires Sound(md)
    ensures Coverings(Tiles(md, base, code, pos), i) == if pos <= i < |code| then 1 else 0
    decreases |code| - pos
  {
    if pos < |code| {
      var t := TilesUnfold(md, base, code, pos);
      CoveringsUnfold(t, Tiles(md, base, code, pos + t.size), i);
      EachByteOnce(md, base, code, pos + t.size, i);
    }
  }

  /** The hits of the decoded stretches, in order. */
  function TileHits(md: Scanner, place: Place, base: nat, code: Text, tiles: seq<Tile>): seq<Hit> {
    if tiles == [] then [] else
      var insn := md.decode(code, base, tiles[0].start);
      (if insn.Some? then HitsOf(md, place, base + tiles[0].start, insn.value) else [])
      + TileHits(md, place, base, code, tiles[1..])
  }

  /** The sweep reports what its decoded stretches are reported for, and nothing else. */
  lemma {:induction false} HitsAreTileHits(md: Scanner, place: Place, base: nat, code: Text, pos: nat)
    requires Sound(md)
    ensures Hits(md, place, base, code, pos) == TileHits(md, place, base, code, Tiles(md, base, code, pos))
    decreases |code| - pos
  {
    if pos < |code| {
      var t := TilesUnfold(md, base, code, pos);
      var later := Tiles(md, base, code, pos + t.size);
      assert ([t] + later)[1..] == later;
      HitsAreTileHits(md, place, base, code, pos + t.size);
      assert md.decode(code, base, pos).None? ==> t.size == 1;
    }
  }

  /** A stretch that decodes to an instruction that is reported. */
  predicate Offends(md: Scanner, base: nat, code: Text, t: Tile) {
    md.decode(code, base, t.start).Some? && md.violations(md.decode(code, base, t.start).value) != {}
  }

  lemma {:induction false} SomeTileOffends(md: Scanner, place: Place, base: nat, code: Text, tiles: seq<Tile>)
    ensures TileHits(md, place, base, code, tiles) != [] <==> exists t :: t in tiles && Offends(md, base, code, t)
  {
    if tiles != [] {
      var first := Offends(md, base, code, tiles[0]);
      assert tiles == [tiles[0]] + tiles[1..];
      assert TileHits(md, place, base, code, tiles) != [] <==> first || TileHits(md, place, base, code, tiles[1..]) != [];
      SomeTileOffends(md, place, base, code, tiles[1..]);
    }
  }

  /** Code is clean for the sweep if and only if none of its stretches is reported. */
  lemma HitsIff(md: Scanner, place: Place, base: nat, code: Text)
    requires Sound(md)
    ensures Hits(md, place, base, code, 0) != [] <==>
      exists t :: t in Tiles(md, base, code, 0) && Offends(md, base, code, t)
  {
    HitsAreTileHits(md, place, base, code, 0);
    SomeTileOffends(md, place, base, code, Tiles(md, base, code, 0));
  }
}
