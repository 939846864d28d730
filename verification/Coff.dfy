/** The executable sections of a COFF object, as tools/isa-scan.py finds them. */
module Coff {
  import opened Prelude
  import opened Latin1

  const FILE_HEADER_SIZE: nat := 20
  const SECTION_HEADER_SIZE: nat := 40
  const SCN_CNT_CODE: nat := 0x0000_0020
  const SCN_MEM_EXECUTE: nat := 0x2000_0000

  datatype Section = Section(name: Text, vaddr: nat, code: Text)

  function U16(data: Text, at: nat): nat
    requires at + 2 <= |data|
  {
    var low: int, high: int := data[at], data[at + 1];
    low + 0x100 * high
  }

  function U32(data: Text, at: nat): nat
    requires at + 4 <= |data|
  {
    U16(data, at) + 0x1_0000 * U16(data, at + 2)
  }

  predicate HasBit(word: nat, bit: nat)
    requires bit > 0
  {
    word / bit % 2 == 1
  }

  function RStripNul(s: Text): Text {
    if s != [] && s[|s| - 1] == 0 then RStripNul(s[..|s| - 1]) else s
  }

  /** The section of a header with these fields, if it is executable and its bytes are in the file. */
  function SectionOf(data: Text, name: Text, vaddr: nat, rawSize: nat, rawPtr: nat, chars: nat): Option<Section> {
    if (HasBit(chars, SCN_CNT_CODE) || HasBit(chars, SCN_MEM_EXECUTE))
       && rawPtr != 0 && rawSize != 0 && rawPtr + rawSize <= |data|
    then Some(Section(name, vaddr, data[rawPtr..rawPtr + rawSize]))
    else None
  }

  /** The section that the header at `off` describes. */
  function SectionAt(data: Text, off: nat): Option<Section>
    requires off + SECTION_HEADER_SIZE <= |data|
  {
    SectionOf(data, RStripNul(data[off..off + 8]), U32(data, off + 12), U32(data, off + 16), U32(data, off + 20),
              U32(data, off + 36))
  }

  /** A header whose size or whose pointer to raw data is zero, as that of uninitialised data, describes none. */
  lemma NoRawData(data: Text, off: nat)
    requires off + 40 <= |data|
    requires data[off + 16..off + 20] == [0, 0, 0, 0] || data[off + 20..off + 24] == [0, 0, 0, 0]
    ensures SectionAt(data, off) == None
  {
    var at := if data[off + 16..off + 20] == [0, 0, 0, 0] then off + 16 else off + 20;
    var field := data[at..at + 4];
    assert data[at] == field[0] && data[at + 1] == field[1] && data[at + 2] == field[2] && data[at + 3] == field[3];
  }

  /** The i-th entry of the section table; None when it is not a whole, usable, executable one. */
  function Entry(data: Text, i: nat): Option<Section>
    requires FILE_HEADER_SIZE <= |data|
  {
    var off := FILE_HEADER_SIZE + U16(data, 16) + i * SECTION_HEADER_SIZE;
    if off + SECTION_HEADER_SIZE > |data| then None else SectionAt(data, off)
  }

  /** All usable entries of the section table from the i-th to the declared count, in order. */
  function Entries(data: Text, i: nat): seq<Section>
    requires FILE_HEADER_SIZE <= |data|
    decreases U16(data, 2) - i
  {
    if i >= U16(data, 2) then [] else
      match Entry(data, i)
      case None => Entries(data, i + 1)
      case Some(s) => [s] + Entries(data, i + 1)
  }

  /** A file too short for its header has no sections. */
  function CodeSectionsOf(data: Text): seq<Section> {
    if |data| < FILE_HEADER_SIZE then [] else Entries(data, 0)
  }

  /** Entries past the end of the file stay past it, so stopping at the first loses nothing. */
  lemma {:induction false} NothingPastTheEnd(data: Text, i: nat)
    requires FILE_HEADER_SIZE <= |data|
    requires FILE_HEADER_SIZE + U16(data, 16) + i * SECTION_HEADER_SIZE + SECTION_HEADER_SIZE > |data|
    ensures Entries(data, i) == []
    decreases U16(data, 2) - i
  {
    if i < U16(data, 2) {
      NothingPastTheEnd(data, i + 1);
    }
  }

  function OneOrNone(s: Option<Section>): seq<Section> {
    if s.Some? then [s.value] else []
  }

  lemma EntriesUnfold(data: Text, i: nat)
    requires FILE_HEADER_SIZE <= |data| && i < U16(data, 2)
    ensures Entries(data, i) == OneOrNone(Entry(data, i)) + Entries(data, i + 1)
  {
  }

  lemma EntryIsSection(data: Text, i: nat, off: nat)
    requires FILE_HEADER_SIZE <= |data| && off == FILE_HEADER_SIZE + U16(data, 16) + i * SECTION_HEADER_SIZE
    requires off + SECTION_HEADER_SIZE <= |data|
    ensures Entry(data, i) == SectionAt(data, off)
  {
  }

  /** The generator's loop, which breaks at the first header that does not fit the file. */
  method CodeSections(data: Text) returns (sections: seq<Section>)
    ensures sections == CodeSectionsOf(data)
  {
    sections := [];
    if |data| < FILE_HEADER_SIZE {
      return;
    }
    var count, table := U16(data, 2), FILE_HEADER_SIZE + U16(data, 16);
    ghost var all := Entries(data, 0);
    for i := 0 to count
      invariant sections + Entries(data, i) == all
    {
      var off := table + i * SECTION_HEADER_SIZE;
      if off + SECTION_HEADER_SIZE > |data| {
        NothingPastTheEnd(data, i);
        return;
      }
      var section := SectionAt(data, off);
      EntryIsSection(data, i, off);
      EntriesUnfold(data, i);
      Regroup(sections, OneOrNone(section), Entries(data, i + 1));
      match section {
        case None =>
        case Some(s) => sections := sections + [s];
      }
    }
  }

  /** A section is reported if and only if some entry within the declared count is a whole usable one. */
  lemma {:induction false} ReportedIff(data: Text, i: nat, s: Section)
    requires FILE_HEADER_SIZE <= |data|
    ensures s in Entries(data, i) <==> exists k: nat :: i <= k < U16(data, 2) && Entry(data, k) == Some(s)
    decreases U16(data, 2) - i
  {
    if i < U16(data, 2) {
      EntriesUnfold(data, i);
      ReportedIff(data, i + 1, s);
      InOneOrNone(s, Entry(data, i), Entries(data, i + 1));
      if exists k: nat :: i <= k < U16(data, 2) && Entry(data, k) == Some(s) {
        var k: nat :| i <= k < U16(data, 2) && Entry(data, k) == Some(s);
        assert k == i || i + 1 <= k;
      }
    }
  }

  lemma InOneOrNone(s: Section, first: Option<Section>, rest: seq<Section>)
    ensures s in OneOrNone(first) + rest <==> first == Some(s) || s in rest
  {
  }
}
