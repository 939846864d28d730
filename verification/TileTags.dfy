/** Compression tags of depth tiles: D3DTILE_ZENDTAG, and what SetTile makes of it. */
module TileTags {
  import opened Prelude
  import opened Direct3DTypes

  const TAG_SIZE: nat := 64
  const TAG_ALIGNMENT: nat := 256
  const TILE_ALIGNMENT: nat := 0x4000
  const MAX_TILES: nat := 8
  const MAX_TAGS: nat := 76800

  /** A depth-compressed tile, as far as its tags go. */
  datatype Tile = Tile(startTag: Dword, size: Dword)

  /** The sum that the macro rounds down, before it is cut to 32 bits. */
  function Sum(t: Tile): nat {
    t.startTag + t.size / TAG_SIZE + 255
  }

  /** D3DTILE_ZENDTAG, on 32-bit words; clearing the low eight bits rounds down to a multiple of 256. */
  function EndTag(t: Tile): Dword {
    var s := Sum(t) % DWORD_RANGE;
    s - s % TAG_ALIGNMENT
  }

  /** The end tag is the least multiple of 256 at or above the last tag needed. */
  lemma EndTagIsLeast(t: Tile, tag: nat)
    requires Sum(t) < DWORD_RANGE
    ensures EndTag(t) % 256 == 0
    ensures t.startTag + t.size / 64 <= EndTag(t)
    ensures tag % 256 == 0 && t.startTag + t.size / 64 <= tag ==> EndTag(t) <= tag
  {
  }

  /** The end tag reaches the last tag needed exactly when the sum fits 32 bits. */
  lemma EndTagReachesIff(t: Tile)
    ensures t.startTag + t.size / 64 <= EndTag(t) <==> t.startTag + t.size / 64 + 255 < 0x1_0000_0000
  {
  }

  /** From an aligned start, tags are wasted exactly when the tile's own tags do not fill their last group. */
  lemma WasteIff(t: Tile)
    requires t.startTag % TAG_ALIGNMENT == 0 && Sum(t) < DWORD_RANGE
    ensures EndTag(t) == t.startTag + t.size / TAG_SIZE <==> t.size / TAG_SIZE % TAG_ALIGNMENT == 0
  {
  }

  /** Tiles of the granularity that the driver asks for waste none. */
  lemma AlignedTileWastesNone(t: Tile)
    requires t.startTag % 256 == 0 && Sum(t) < DWORD_RANGE && t.size % 0x4000 == 0
    ensures EndTag(t) == t.startTag + t.size / TAG_SIZE
  {
    assert t.size / TAG_SIZE % TAG_ALIGNMENT == 0;
    WasteIff(t);
  }

  // Tiles laid out one after the other.

  /** Each tile starts at the end tag of the one before. */
  function Layout(first: Dword, sizes: seq<Dword>): (tiles: seq<Tile>)
    ensures |tiles| == |sizes|
    decreases |sizes|
  {
    if sizes == [] then [] else
      var t := Tile(first, sizes[0]);
      [t] + Layout(EndTag(t), sizes[1..])
  }

  predicate NoneWraps(tiles: seq<Tile>) {
    tiles == [] || (Sum(tiles[0]) < DWORD_RANGE && NoneWraps(tiles[1..]))
  }

  function TagsNeeded(sizes: seq<Dword>): nat {
    if sizes == [] then 0 else sizes[0] / TAG_SIZE + TagsNeeded(sizes[1..])
  }

  /** Where a layout ends. */
  function LayoutEnd(first: Dword, sizes: seq<Dword>): Dword
    decreases |sizes|
  {
    if sizes == [] then first else LayoutEnd(EndTag(Tile(first, sizes[0])), sizes[1..])
  }

  predicate HasTag(t: Tile, tag: nat) {
    t.startTag <= tag < EndTag(t)
  }

  /** The first tile of a layout, and the layout of the others behind it. */
  lemma LayoutUnfold(first: Dword, sizes: seq<Dword>) returns (t: Tile, rest: seq<Dword>)
    requires sizes != [] && NoneWraps(Layout(first, sizes))
    ensures t == Tile(first, sizes[0]) && rest == sizes[1..] && Sum(t) < DWORD_RANGE
    ensures first <= EndTag(t)
    ensures Layout(first, sizes) == [t] + Layout(EndTag(t), rest) && NoneWraps(Layout(EndTag(t), rest))
    ensures LayoutEnd(first, sizes) == LayoutEnd(EndTag(t), rest)
  {
    t, rest := Tile(first, sizes[0]), sizes[1..];
    assert Layout(first, sizes)[1..] == Layout(EndTag(t), rest);
    EndTagReachesIff(t);
  }

  lemma {:induction false} LayoutGrows(first: Dword, sizes: seq<Dword>)
    requires NoneWraps(Layout(first, sizes))
    ensures first <= LayoutEnd(first, sizes)
    decreases |sizes|
  {
    if sizes != [] {
      var t, rest := LayoutUnfold(first, sizes);
      LayoutGrows(EndTag(t), rest);
    }
  }

  /** All tags of a layout lie between its first tag and its end. */
  lemma {:induction false} LayoutBounds(first: Dword, sizes: seq<Dword>, k: nat)
    requires NoneWraps(Layout(first, sizes)) && k < |sizes|
    ensures first <= Layout(first, sizes)[k].startTag && EndTag(Layout(first, sizes)[k]) <= LayoutEnd(first, sizes)
    decreases |sizes|
  {
    var t, rest := LayoutUnfold(first, sizes);
    if k == 0 {
      LayoutGrows(EndTag(t), rest);
    } else {
      LayoutBounds(EndTag(t), rest, k - 1);
    }
  }

  /** No tag belongs to two tiles of a layout. */
  lemma {:induction false} LayoutIsDisjoint(first: Dword, sizes: seq<Dword>, j: nat, k: nat, tag: nat)
    requires NoneWraps(Layout(first, sizes)) && j < k < |sizes|
    ensures !(HasTag(Layout(first, sizes)[j], tag) && HasTag(Layout(first, sizes)[k], tag))
    decreases |sizes|
  {
    var t, rest := LayoutUnfold(first, sizes);
    if j == 0 {
      LayoutBounds(EndTag(t), rest, k - 1);
    } else {
      LayoutIsDisjoint(EndTag(t), rest, j - 1, k - 1, tag);
    }
  }

  lemma EndTagBounds(t: Tile)
    requires Sum(t) < DWORD_RANGE
    ensures EndTag(t) % TAG_ALIGNMENT == 0 && 0 <= EndTag(t) - t.startTag - t.size / TAG_SIZE <= 255
  {
  }

  /** From an aligned start, every tile starts aligned, and at most 255 tags a tile are wasted. */
  lemma {:induction false} LayoutWaste(first: Dword, sizes: seq<Dword>)
    requires NoneWraps(Layout(first, sizes)) && first % TAG_ALIGNMENT == 0
    ensures LayoutEnd(first, sizes) % TAG_ALIGNMENT == 0
    ensures 0 <= LayoutEnd(first, sizes) - first - TagsNeeded(sizes) <= 255 * |sizes|
    decreases |sizes|
  {
    if sizes != [] {
      var t, rest := LayoutUnfold(first, sizes);
      EndTagBounds(t);
      LayoutWaste(EndTag(t), rest);
    }
  }

  // SetTile, with the checks of the debug build.

  /** The driver's overlap test. */
  predicate Overlaps(t: Tile, u: Tile) {
    t.startTag < EndTag(u) && EndTag(t) > u.startTag
  }

  /** A tile with these tags may be set. */
  predicate Allowed(t: Tile) {
    && t.size != 0 && t.size % TILE_ALIGNMENT == 0
    && t.startTag % TAG_ALIGNMENT == 0 && t.startTag < MAX_TAGS
  }

  /** The last place for a tile is 256 tags before the 76800th. */
  lemma LastPlace(t: Tile)
    requires t.size != 0 && t.size % 0x4000 == 0 && t.startTag % 256 == 0
    ensures Allowed(t) <==> t.startTag <= 76544
  {
  }

  /** For tiles that may be set the test is exact: it holds if and only if they share a tag. */
  lemma OverlapsIff(t: Tile, u: Tile)
    requires Allowed(t) && Allowed(u)
    ensures Overlaps(t, u) <==> exists tag: nat :: HasTag(t, tag) && HasTag(u, tag)
  {
    AlignedTileWastesNone(t);
    AlignedTileWastesNone(u);
    if Overlaps(t, u) {
      var tag := if t.startTag >= u.startTag then t.startTag else u.startTag;
      assert HasTag(t, tag) && HasTag(u, tag);
    }
  }

  /** What the driver keeps of a tile: whether it is depth-compressed, its tags and its size. */
  datatype Entry = Entry(compressed: bool, tile: Tile)

  const CLEARED: Entry := Entry(false, Tile(0, 0))

  /** A call of SetTile; without a tile it clears the slot. */
  datatype Call = Call(index: nat, what: Option<Entry>)

  /** Tiles without depth compression are stored without tags. */
  function Stored(what: Option<Entry>): Entry {
    match what
    case None => CLEARED
    case Some(e) => if e.compressed then e else e.(tile := e.tile.(startTag := 0))
  }

  /** A tile is kept as given, but for the tags of one that is not compressed. */
  lemma StoredAsGiven(e: Entry)
    ensures Stored(Some(e)).compressed == e.compressed && Stored(Some(e)).tile.size == e.tile.size
    ensures Stored(Some(e)).tile.startTag == if e.compressed then e.tile.startTag else 0
    ensures Stored(None) == Entry(false, Tile(0, 0))
  {
  }

  function After(table: seq<Entry>, c: Call): (after: seq<Entry>)
    requires c.index < |table|
    ensures |after| == |table|
  {
    table[c.index := Stored(c.what)]
  }

  predicate SizeAllowed(t: Tile) {
    t.size != 0 && t.size % TILE_ALIGNMENT == 0
  }

  /** What is wanted of a tile whatever the others are. */
  predicate Admissible(e: Entry) {
    if e.compressed then Allowed(e.tile) else SizeAllowed(e.tile)
  }

  predicate MeetsAny(table: seq<Entry>, t: Tile) {
    exists i :: 0 <= i < |table| && table[i].compressed && Overlaps(t, table[i].tile)
  }

  /** The debug build has nothing to report. */
  predicate Passes(table: seq<Entry>, c: Call)
    requires c.index < |table|
  {
    c.what.Some? ==>
      && table[c.index].tile.size == 0 && Admissible(Stored(c.what))
      && (c.what.value.compressed ==> !MeetsAny(table, c.what.value.tile))
  }

  predicate Tagged(e: Entry, tag: nat) {
    e.compressed && HasTag(e.tile, tag)
  }

  /** No tag belongs to two tiles. */
  ghost predicate Disjoint(table: seq<Entry>) {
    forall i, j, tag: nat :: 0 <= i < j < |table| && Tagged(table[i], tag) ==> !Tagged(table[j], tag)
  }

  /** The depth-compressed tiles are ones that may be set. */
  ghost predicate Proper(table: seq<Entry>) {
    forall i :: 0 <= i < |table| && table[i].compressed ==> Allowed(table[i].tile)
  }

  /** The tile overlaps one in another slot. */
  predicate Clashes(table: seq<Entry>, c: Call) {
    c.what.Some? && c.what.value.compressed &&
    exists i :: 0 <= i < |table| && i != c.index && table[i].compressed && Overlaps(c.what.value.tile, table[i].tile)
  }

  /** The driver stores what it is given, whatever it reports: the table stays disjoint if and only if the tile
      overlaps none in another slot. */
  lemma StoreKeepsDisjoint(table: seq<Entry>, c: Call)
    requires Proper(table) && Disjoint(table) && c.index < |table| && (c.what.Some? ==> Admissible(c.what.value))
    ensures Proper(After(table, c))
    ensures Disjoint(After(table, c)) <==> !Clashes(table, c)
  {
    var after, e := After(table, c), Stored(c.what);
    if Clashes(table, c) {
      var i :| 0 <= i < |table| && i != c.index && table[i].compressed && Overlaps(e.tile, table[i].tile);
      OverlapsIff(e.tile, table[i].tile);
      var tag: nat :| HasTag(e.tile, tag) && HasTag(table[i].tile, tag);
      assert Tagged(after[i], tag) && Tagged(after[c.index], tag);
    } else {
      forall i, j, tag: nat | 0 <= i < j < |after| && Tagged(after[i], tag)
        ensures !Tagged(after[j], tag)
      {
        if Tagged(after[j], tag) {
          var other := if i == c.index then j else i;
          if e.compressed && (i == c.index || j == c.index) {
            OverlapsIff(e.tile, table[other].tile);
          }
        }
      }
    }
  }

  /** A call that sets an admissible tile into a cleared slot, or clears one. */
  predicate Orderly(table: seq<Entry>, c: Call) {
    c.index < |table| && (c.what.Some? ==> table[c.index].tile.size == 0 && Admissible(c.what.value))
  }

  /** For such a call the checks are exact. */
  lemma PassesIff(table: seq<Entry>, c: Call)
    requires Proper(table) && Orderly(table, c)
    ensures Passes(table, c) <==> !Clashes(table, c)
  {
    if c.what.Some? && c.what.value.compressed && MeetsAny(table, c.what.value.tile) {
      var i :| 0 <= i < |table| && table[i].compressed && Overlaps(c.what.value.tile, table[i].tile);
      assert Allowed(table[i].tile);
    }
  }

  /** Clearing a slot frees its tags, and the slot for the next tile: what is then set passes if and only if it is
      admissible and overlaps no tile in another slot. */
  lemma ClearedSlotTakes(table: seq<Entry>, i: nat, e: Entry)
    requires Proper(table) && i < |table|
    ensures
      var cleared := After(table, Call(i, None));
      && (forall tag: nat :: !Tagged(cleared[i], tag))
      && (Passes(cleared, Call(i, Some(e))) <==>
            Admissible(Stored(Some(e))) && !Clashes(table, Call(i, Some(e))))
  {
    var cleared := After(table, Call(i, None));
    if e.compressed {
      if Clashes(table, Call(i, Some(e))) {
        var k :| 0 <= k < |table| && k != i && table[k].compressed && Overlaps(e.tile, table[k].tile);
        assert cleared[k] == table[k];
      }
    }
  }

  ghost predicate AllOrderly(table: seq<Entry>, calls: seq<Call>)
    decreases |calls|
  {
    calls == [] || (Orderly(table, calls[0]) && AllOrderly(After(table, calls[0]), calls[1..]))
  }

  ghost predicate AllPass(table: seq<Entry>, calls: seq<Call>)
    requires AllOrderly(table, calls)
    decreases |calls|
  {
    calls == [] || (Passes(table, calls[0]) && AllPass(After(table, calls[0]), calls[1..]))
  }

  /** The table is disjoint after every call. */
  ghost predicate StaysDisjoint(table: seq<Entry>, calls: seq<Call>)
    requires AllOrderly(table, calls)
    decreases |calls|
  {
    Disjoint(table) && (calls == [] || StaysDisjoint(After(table, calls[0]), calls[1..]))
  }

  /** Over any orderly run, no tag ever belongs to two tiles if and only if the debug build reports nothing. */
  lemma {:induction false} DisjointIffChecksPass(table: seq<Entry>, calls: seq<Call>)
    requires Proper(table) && Disjoint(table) && AllOrderly(table, calls)
    ensures StaysDisjoint(table, calls) <==> AllPass(table, calls)
    decreases |calls|
  {
    if calls != [] {
      PassesIff(table, calls[0]);
      StoreKeepsDisjoint(table, calls[0]);
      if Passes(table, calls[0]) {
        DisjointIffChecksPass(After(table, calls[0]), calls[1..]);
      } else {
        assert !Disjoint(After(table, calls[0]));
      }
    }
  }

  /** The same tags in two slots: the debug build reports it, and stores the tile all the same. */
  lemma SameTagsTwice(table: seq<Entry>, t: Tile, i: nat, j: nat)
    requires Allowed(t) && i < |table| && j < |table| && i != j
    ensures
      var first := After(table, Call(i, Some(Entry(true, t))));
      var second := Call(j, Some(Entry(true, t)));
      !Passes(first, second) && !Disjoint(After(first, second))
  {
    var first := After(table, Call(i, Some(Entry(true, t))));
    var after := After(first, Call(j, Some(Entry(true, t))));
    AlignedTileWastesNone(t);
    assert first[i].compressed && Overlaps(t, first[i].tile);
    assert Tagged(after[i], t.startTag) && Tagged(after[j], t.startTag);
  }

  /** Setting a tile again without clearing its slot is reported, and does no harm. */
  lemma SetAgain(table: seq<Entry>, t: Tile, i: nat)
    requires Proper(table) && Disjoint(table) && i < |table| && table[i] == Entry(true, t)
    ensures
      var again := Call(i, Some(Entry(true, t)));
      !Passes(table, again) && Disjoint(After(table, again))
  {
    assert Allowed(table[i].tile);
    assert After(table, Call(i, Some(Entry(true, t)))) == table;
  }

  /** The tiles of the device. */
  class TileTable {
    const entries: array<Entry>

    ghost predicate Valid() {
      entries.Length == MAX_TILES
    }

    constructor ()
      ensures Valid() && fresh(entries)
      ensures Proper(entries[..]) && Disjoint(entries[..]) && forall e <- entries[..] :: e == CLEARED
    {
      entries := new Entry[MAX_TILES](_ => CLEARED);
    }

    /** Sets or clears a tile, with the checks of the debug build or without; false if an error was reported. */
    method SetTile(c: Call, debug: bool) returns (quiet: bool)
      requires Valid() && c.index < MAX_TILES
      modifies entries
      ensures entries[..] == After(old(entries[..]), c)
      ensures quiet <==> (debug ==> Passes(old(entries[..]), c))
    {
      quiet := true;
      if c.what == None {
        entries[c.index] := CLEARED;
        return;
      }
      var e := Stored(c.what);
      if debug {
        quiet := entries[c.index].tile.size == 0 && Admissible(e);
        if e.compressed {
          var clear := OverlapsNone(e.tile);
          quiet := quiet && clear;
        }
      }
      entries[c.index] := e;
    }

    /** The loop over the tiles set. */
    method OverlapsNone(t: Tile) returns (clear: bool)
      requires Valid()
      ensures clear <==> !MeetsAny(entries[..], t)
    {
      clear := true;
      for i := 0 to MAX_TILES
        invariant clear <==> !MeetsAny(entries[..i], t)
      {
        assert entries[..i + 1] == entries[..i] + [entries[i]];
        MeetsOneMore(entries[..i], entries[i], t);
        if entries[i].compressed && Overlaps(t, entries[i].tile) {
          clear := false;
        }
      }
      assert entries[..MAX_TILES] == entries[..];
    }
  }

  lemma MeetsOneMore(table: seq<Entry>, e: Entry, t: Tile)
    ensures MeetsAny(table + [e], t) <==> MeetsAny(table, t) || (e.compressed && Overlaps(t, e.tile))
  {
    var more := table + [e];
    assert more[|table|] == e;
    if MeetsAny(table, t) {
      var i :| 0 <= i < |table| && table[i].compressed && Overlaps(t, table[i].tile);
      assert more[i] == table[i];
    }
  }
}
