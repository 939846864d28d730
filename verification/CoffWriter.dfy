/** Writing a COFF object, and the proof that the section walk of tools/isa-scan.py reads it back. */
module CoffWriter {
  import opened Prelude
  import opened Latin1
  import opened Coff

  const WORD_RANGE: nat := 0x1_0000_0000

  /** What a section is: whether it holds code, whether it may be executed, and the other flag bits, which are those
      below the code flag, those between the two, and those above the execute flag. */
  datatype Kind = Kind(code: bool, executable: bool, low: nat, middle: nat, high: nat)

  predicate IsKind(k: Kind) {
    k.low < 0x20 && k.middle < 0x80_0000 && k.high < 4
  }

  /** The characteristics word of a kind. */
  function Characteristics(k: Kind): nat {
    k.low + (if k.code then 0x20 else 0) + 0x40 * k.middle + (if k.executable then 0x2000_0000 else 0)
    + 0x4000_0000 * k.high
  }

  /** The two tests of the walk find the two flags, whatever the other bits are. */
  lemma FlagsRead(k: Kind)
    requires IsKind(k)
    ensures Characteristics(k) < WORD_RANGE
    ensures HasBit(Characteristics(k), SCN_CNT_CODE) <==> k.code
    ensures HasBit(Characteristics(k), SCN_MEM_EXECUTE) <==> k.executable
  {
    var c, e := if k.code then 1 else 0, if k.executable then 1 else 0;
    var above: nat := e + 2 * k.high;
    var below: nat := k.low + 0x20 * c + 0x40 * k.middle;
    LowFlag(k.low, c, k.middle + 0x80_0000 * above);
    HighFlag(below, e, k.high);
  }

  lemma LowFlag(below: nat, flag: nat, above: nat)
    requires below < 0x20 && flag < 2
    ensures (below + 0x20 * (flag + 2 * above)) / 0x20 % 2 == flag
  {
  }

  lemma HighFlag(below: nat, flag: nat, above: nat)
    requires below < 0x2000_0000 && flag < 2
    ensures (below + 0x2000_0000 * (flag + 2 * above)) / 0x2000_0000 % 2 == flag
  {
  }

  /** Every word is the characteristics of a kind. */
  lemma EveryWordIsAKind(word: nat) returns (k: Kind)
    requires word < WORD_RANGE
    ensures IsKind(k) && Characteristics(k) == word
  {
    var low, half := word % 0x20, word / 0x20;
    var middle, top := half / 2 % 0x80_0000, half / 2 / 0x80_0000;
    k := Kind(half % 2 == 1, top % 2 == 1, low, middle, top / 2);
    assert half / 2 == middle + 0x80_0000 * top;
  }

  /** A section with the header fields that the walk does not report. */
  datatype Image = Image(section: Section, virtualSize: nat, relocations: Text, kind: Kind)

  predicate Writable(img: Image) {
    && |img.section.name| <= 8 && (img.section.name == [] || img.section.name[|img.section.name| - 1] != 0)
    && img.section.vaddr < WORD_RANGE && img.virtualSize < WORD_RANGE && IsKind(img.kind)
    && |img.relocations| == 12
  }

  predicate AllWritable(images: seq<Image>) {
    images == [] || (Writable(images[0]) && AllWritable(images[1..]))
  }

  /** The sections to be reported: code or executable, and not without bytes. */
  function ReportedOf(img: Image): Option<Section> {
    if (img.kind.code || img.kind.executable) && img.section.code != [] then Some(img.section) else None
  }

  function Reported(images: seq<Image>): seq<Section> {
    if images == [] then [] else OneOrNone(ReportedOf(images[0])) + Reported(images[1..])
  }

  // The writer, little-endian.

  function Little16(n: nat): Text {
    [n % 0x100, n / 0x100 % 0x100]
  }

  function Little32(n: nat): (s: Text)
    ensures |s| == 4
  {
    Little16(n % 0x1_0000) + Little16(n / 0x1_0000)
  }

  function Nuls(n: nat): (s: Text)
    ensures |s| == n
  {
    seq<Byte>(n, _ => 0)
  }

  function PaddedName(name: Text): (s: Text)
    requires |name| <= 8
    ensures |s| == 8
  {
    name + Nuls(8 - |name|)
  }

  function SectionHeader(img: Image, rawPtr: nat): (hdr: Text)
    requires Writable(img)
    ensures |hdr| == SECTION_HEADER_SIZE
  {
    PaddedName(img.section.name) + Little32(img.virtualSize) + Little32(img.section.vaddr)
    + Little32(|img.section.code|) + Little32(rawPtr) + img.relocations + Little32(Characteristics(img.kind))
  }

  /** The section table, for code that is written from `rawPtr` on. */
  function Headers(images: seq<Image>, rawPtr: nat): (s: Text)
    requires AllWritable(images)
    ensures |s| == SECTION_HEADER_SIZE * |images|
  {
    if images == [] then [] else
      SectionHeader(images[0], rawPtr) + Headers(images[1..], rawPtr + |images[0].section.code|)
  }

  function Bodies(images: seq<Image>): Text {
    if images == [] then [] else images[0].section.code + Bodies(images[1..])
  }

  /** The file header's fields that the walk skips. */
  datatype Stamp = Stamp(machine: Text, dates: Text, flags: Text)

  predicate IsStamp(stamp: Stamp) {
    |stamp.machine| == 2 && |stamp.dates| == 12 && |stamp.flags| == 2
  }

  function FileHeader(stamp: Stamp, count: nat, optional: nat): (hdr: Text)
    requires IsStamp(stamp)
    ensures |hdr| == FILE_HEADER_SIZE
  {
    stamp.machine + Little16(count) + stamp.dates + Little16(optional) + stamp.flags
  }

  function TableStart(optional: Text): nat {
    FILE_HEADER_SIZE + |optional|
  }

  function CodeStart(optional: Text, images: seq<Image>): nat {
    TableStart(optional) + SECTION_HEADER_SIZE * |images|
  }

  function WriteObject(stamp: Stamp, optional: Text, images: seq<Image>): Text
    requires IsStamp(stamp) && AllWritable(images)
  {
    FileHeader(stamp, |images|, |optional|) + optional
    + Headers(images, CodeStart(optional, images)) + Bodies(images)
  }

  // Reading it back.

  lemma ReadsLittle16(data: Text, at: nat, n: nat)
    requires n < 0x1_0000 && at + 2 <= |data| && data[at..at + 2] == Little16(n)
    ensures U16(data, at) == n
  {
    assert data[at] == data[at..at + 2][0] && data[at + 1] == data[at..at + 2][1];
  }

  lemma ReadsLittle32(data: Text, at: nat, n: nat)
    requires n < WORD_RANGE && at + 4 <= |data| && data[at..at + 4] == Little32(n)
    ensures U32(data, at) == n
  {
    var field := data[at..at + 4];
    assert data[at..at + 2] == field[..2] == Little16(n % 0x1_0000);
    assert data[at + 2..at + 4] == field[2..] == Little16(n / 0x1_0000);
    ReadsLittle16(data, at, n % 0x1_0000);
    ReadsLittle16(data, at + 2, n / 0x1_0000);
  }

  /** Where the fields of a section header lie. */
  lemma SectionHeaderLayout(name: Text, virtualSize: Text, vaddr: Text, size: Text, ptr: Text, rest: Text, chars: Text)
    requires |name| == 8 && |virtualSize| == |vaddr| == |size| == |ptr| == |chars| == 4 && |rest| == 12
    ensures
      var hdr := name + virtualSize + vaddr + size + ptr + rest + chars;
      hdr[..8] == name && hdr[12..16] == vaddr && hdr[16..20] == size && hdr[20..24] == ptr && hdr[36..40] == chars
  {
  }

  lemma Subslice(data: Text, off: nat, hdr: Text, a: nat, b: nat)
    requires off + |hdr| <= |data| && data[off..off + |hdr|] == hdr && a <= b <= |hdr|
    ensures data[off + a..off + b] == hdr[a..b]
  {
    forall k | 0 <= k < b - a
      ensures data[off + a..off + b][k] == hdr[a..b][k]
    {
      assert data[off..off + |hdr|][a + k] == hdr[a + k];
    }
  }

  lemma {:induction false} StripsNuls(name: Text, n: nat)
    requires name == [] || name[|name| - 1] != 0
    ensures RStripNul(name + Nuls(n)) == name
  {
    var padded := name + Nuls(n);
    if n == 0 {
      assert padded == name;
    } else {
      assert padded[..|padded| - 1] == name + Nuls(n - 1);
      StripsNuls(name, n - 1);
    }
  }

  /** The fields of a written section header read back. */
  lemma HeaderReads(data: Text, off: nat, img: Image, rawPtr: nat)
    requires Writable(img) && rawPtr < WORD_RANGE && |img.section.code| < WORD_RANGE
    requires off + SECTION_HEADER_SIZE <= |data|
    requires data[off..off + SECTION_HEADER_SIZE] == SectionHeader(img, rawPtr)
    ensures RStripNul(data[off..off + 8]) == img.section.name
    ensures U32(data, off + 12) == img.section.vaddr && U32(data, off + 16) == |img.section.code|
    ensures U32(data, off + 20) == rawPtr && U32(data, off + 36) == Characteristics(img.kind)
  {
    HeaderFieldsStand(data, off, img, rawPtr);
    StripsNuls(img.section.name, 8 - |img.section.name|);
    FlagsRead(img.kind);
    ReadsLittle32(data, off + 12, img.section.vaddr);
    ReadsLittle32(data, off + 16, |img.section.code|);
    ReadsLittle32(data, off + 20, rawPtr);
    ReadsLittle32(data, off + 36, Characteristics(img.kind));
  }

  lemma HeaderFieldsStand(data: Text, off: nat, img: Image, rawPtr: nat)
    requires Writable(img) && off + SECTION_HEADER_SIZE <= |data|
    requires data[off..off + SECTION_HEADER_SIZE] == SectionHeader(img, rawPtr)
    ensures data[off..off + 8] == PaddedName(img.section.name)
    ensures data[off + 12..off + 16] == Little32(img.section.vaddr)
    ensures data[off + 16..off + 20] == Little32(|img.section.code|) && data[off + 20..off + 24] == Little32(rawPtr)
    ensures data[off + 36..off + 40] == Little32(Characteristics(img.kind))
  {
    var hdr := SectionHeader(img, rawPtr);
    SectionHeaderLayout(PaddedName(img.section.name), Little32(img.virtualSize), Little32(img.section.vaddr),
                        Little32(|img.section.code|), Little32(rawPtr), img.relocations, Little32(Characteristics(img.kind)));
    Subslice(data, off, hdr, 0, 8);
    Subslice(data, off, hdr, 12, 16);
    Subslice(data, off, hdr, 16, 20);
    Subslice(data, off, hdr, 20, 24);
    Subslice(data, off, hdr, 36, 40);
  }

  /** One written section. */
  lemma SectionReads(data: Text, off: nat, img: Image, rawPtr: nat)
    requires Writable(img) && 0 < rawPtr && rawPtr + |img.section.code| <= |data| < WORD_RANGE
    requires off + SECTION_HEADER_SIZE <= |data|
    requires data[off..off + SECTION_HEADER_SIZE] == SectionHeader(img, rawPtr)
    requires data[rawPtr..rawPtr + |img.section.code|] == img.section.code
    ensures SectionAt(data, off) == ReportedOf(img)
  {
    HeaderReads(data, off, img, rawPtr);
    ImageReads(data, img, rawPtr);
  }

  lemma ImageReads(data: Text, img: Image, rawPtr: nat)
    requires IsKind(img.kind) && 0 < rawPtr && rawPtr + |img.section.code| <= |data|
    requires data[rawPtr..rawPtr + |img.section.code|] == img.section.code
    ensures SectionOf(data, img.section.name, img.section.vaddr, |img.section.code|, rawPtr, Characteristics(img.kind))
      == ReportedOf(img)
  {
    FlagsRead(img.kind);
  }

  /** At a place of the data stands this text. */
  predicate Stands(data: Text, at: nat, s: Text) {
    at + |s| <= |data| && data[at..at + |s|] == s
  }

  lemma StandsSplit(data: Text, at: nat, s: Text, t: Text)
    requires Stands(data, at, s + t)
    ensures Stands(data, at, s) && Stands(data, at + |s|, t)
  {
    Subslice(data, at, s + t, 0, |s|);
    Subslice(data, at, s + t, |s|, |s + t|);
  }

  lemma EntryReads(data: Text, i: nat, off: nat, img: Image, rawPtr: nat)
    requires Writable(img) && 0 < rawPtr && FILE_HEADER_SIZE <= |data| < WORD_RANGE
    requires off == FILE_HEADER_SIZE + U16(data, 16) + i * SECTION_HEADER_SIZE
    requires Stands(data, off, SectionHeader(img, rawPtr)) && Stands(data, rawPtr, img.section.code)
    ensures Entry(data, i) == ReportedOf(img)
  {
    EntryIsSection(data, i, off);
    StandsWithin(data, off, SectionHeader(img, rawPtr));
    StandsWithin(data, rawPtr, img.section.code);
    SectionReads(data, off, img, rawPtr);
  }

  lemma StandsWithin(data: Text, at: nat, s: Text)
    requires Stands(data, at, s)
    ensures at + |s| <= |data| && data[at..at + |s|] == s
  {
  }

  /** What stands for the first section, and what for the others. */
  lemma FirstStands(data: Text, off: nat, images: seq<Image>, rawPtr: nat) returns (next: nat)
    requires images != [] && AllWritable(images)
    requires Stands(data, off, Headers(images, rawPtr)) && Stands(data, rawPtr, Bodies(images))
    ensures next == rawPtr + |images[0].section.code|
    ensures Stands(data, off, SectionHeader(images[0], rawPtr)) && Stands(data, rawPtr, images[0].section.code)
    ensures Stands(data, off + SECTION_HEADER_SIZE, Headers(images[1..], next)) && Stands(data, next, Bodies(images[1..]))
  {
    next := rawPtr + |images[0].section.code|;
    StandsSplit(data, off, SectionHeader(images[0], rawPtr), Headers(images[1..], next));
    StandsSplit(data, rawPtr, images[0].section.code, Bodies(images[1..]));
  }

  /** Where the header and the code of the k-th section stand. */
  lemma {:induction false} TableStands(data: Text, off: nat, images: seq<Image>, rawPtr: nat, k: nat) returns (ptr: nat)
    requires AllWritable(images) && 0 < rawPtr && k < |images|
    requires Stands(data, off, Headers(images, rawPtr)) && Stands(data, rawPtr, Bodies(images))
    ensures 0 < ptr && Writable(images[k])
    ensures Stands(data, off + k * SECTION_HEADER_SIZE, SectionHeader(images[k], ptr))
    ensures Stands(data, ptr, images[k].section.code)
    decreases |images|
  {
    var next := FirstStands(data, off, images, rawPtr);
    if k == 0 {
      ptr := rawPtr;
    } else {
      ptr := TableStands(data, off + SECTION_HEADER_SIZE, images[1..], next, k - 1);
    }
  }

  /** The sections among the entries from the i-th to the n-th, whatever the entries are. */
  function Collected(entry: nat -> Option<Section>, i: nat, n: nat): seq<Section>
    decreases n - i
  {
    if i >= n then [] else OneOrNone(entry(i)) + Collected(entry, i + 1, n)
  }

  function EntryOf(data: Text): nat -> Option<Section> {
    (i: nat) => if FILE_HEADER_SIZE <= |data| then Entry(data, i) else None
  }

  lemma {:induction false} EntriesAreCollected(data: Text, i: nat)
    requires FILE_HEADER_SIZE <= |data|
    ensures Entries(data, i) == Collected(EntryOf(data), i, U16(data, 2))
    decreases U16(data, 2) - i
  {
    if i < U16(data, 2) {
      EntriesUnfold(data, i);
      EntriesAreCollected(data, i + 1);
    }
  }

  lemma {:induction false} CollectedAre(entry: nat -> Option<Section>, i: nat, images: seq<Image>)
    requires forall k: nat | k < |images| :: entry(i + k) == ReportedOf(images[k])
    ensures Collected(entry, i, i + |images|) == Reported(images)
    decreases |images|
  {
    if images != [] {
      assert entry(i + 0) == ReportedOf(images[0]);
      forall k: nat | k < |images[1..]|
        ensures entry(i + 1 + k) == ReportedOf(images[1..][k])
      {
        assert entry(i + (k + 1)) == ReportedOf(images[k + 1]);
      }
      CollectedAre(entry, i + 1, images[1..]);
    }
  }

  lemma KthReads(data: Text, start: nat, images: seq<Image>, code: nat, k: nat)
    requires AllWritable(images) && 0 < code && k < |images| && FILE_HEADER_SIZE <= |data| < WORD_RANGE
    requires start == FILE_HEADER_SIZE + U16(data, 16)
    requires Stands(data, start, Headers(images, code)) && Stands(data, code, Bodies(images))
    ensures EntryOf(data)(k) == ReportedOf(images[k])
  {
    var ptr := TableStands(data, start, images, code, k);
    EntryReads(data, k, start + k * SECTION_HEADER_SIZE, images[k], ptr);
  }

  lemma FileHeaderReads(data: Text, stamp: Stamp, count: nat, optional: nat)
    requires IsStamp(stamp) && count < 0x1_0000 && optional < 0x1_0000
    requires FILE_HEADER_SIZE <= |data| && data[..FILE_HEADER_SIZE] == FileHeader(stamp, count, optional)
    ensures U16(data, 2) == count && U16(data, 16) == optional
  {
    var hdr := FileHeader(stamp, count, optional);
    assert hdr[2..4] == Little16(count) && hdr[16..18] == Little16(optional);
    Subslice(data, 0, hdr, 2, 4);
    Subslice(data, 0, hdr, 16, 18);
    ReadsLittle16(data, 2, count);
    ReadsLittle16(data, 16, optional);
  }

  lemma ObjectStands(stamp: Stamp, optional: Text, images: seq<Image>)
    requires IsStamp(stamp) && AllWritable(images)
    ensures
      var data, code := WriteObject(stamp, optional, images), CodeStart(optional, images);
      && Stands(data, 0, FileHeader(stamp, |images|, |optional|))
      && Stands(data, TableStart(optional), Headers(images, code)) && Stands(data, code, Bodies(images))
  {
    var start, code := TableStart(optional), CodeStart(optional, images);
    var hdr, table, bodies := FileHeader(stamp, |images|, |optional|), Headers(images, code), Bodies(images);
    PartsStand(WriteObject(stamp, optional, images), hdr, optional, table, bodies, start, code);
  }

  lemma PartsStand(data: Text, a: Text, b: Text, c: Text, d: Text, start: nat, end: nat)
    requires data == a + b + c + d && start == |a| + |b| && end == start + |c|
    ensures Stands(data, 0, a) && Stands(data, start, c) && Stands(data, end, d)
  {
    assert data[..|a|] == a;
    assert data[start..end] == c;
    assert data[end..] == d;
  }

  /** Walking a written object reports its executable sections that have bytes: names, addresses and code, in order,
      behind an optional header of any size and among sections of other kinds. */
  lemma ObjectRoundTrip(stamp: Stamp, optional: Text, images: seq<Image>)
    requires IsStamp(stamp) && AllWritable(images) && |images| < 0x1_0000 && |optional| < 0x1_0000
    requires |WriteObject(stamp, optional, images)| < WORD_RANGE
    ensures CodeSectionsOf(WriteObject(stamp, optional, images)) == Reported(images)
  {
    var data, start, code := WriteObject(stamp, optional, images), TableStart(optional), CodeStart(optional, images);
    ObjectStands(stamp, optional, images);
    FileHeaderReads(data, stamp, |images|, |optional|);
    forall k: nat | k < |images|
      ensures EntryOf(data)(0 + k) == ReportedOf(images[k])
    {
      KthReads(data, start, images, code, k);
    }
    CollectedAre(EntryOf(data), 0, images);
    EntriesAreCollected(data, 0);
  }
}
