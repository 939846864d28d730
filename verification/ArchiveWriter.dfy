/** Writing a GNU `ar` archive, and the proof that the walker reads it back. */
module ArchiveWriter {
  import opened Prelude
  import opened Latin1
  import opened Archive
  import Digits

  const MAX_SIZE: nat := 10_000_000_000           // a size field is ten digits wide
  const MAX_OFFSET: nat := 1_000_000_000_000_000  // a name reference has room for fifteen digits

  /** The date, owner, group and mode fields, which the walker skips. */
  type Stamp = s: Text | |s| == 32 witness Spaces(32)

  function Padding(body: Text): Text {
    if |body| % 2 == 1 then [NEWLINE] else []
  }

  function HeaderBytes(stamp: Stamp, field: Text, size: nat): (hdr: Text)
    requires |field| <= 16 && size < MAX_SIZE
    ensures |hdr| == HEADER_SIZE
  {
    SizeFits(size);
    (field + Spaces(16 - |field|)) + stamp + (Decimal(size) + Spaces(10 - |Decimal(size)|)) + [96, NEWLINE]
  }

  function Record(stamp: Stamp, field: Text, body: Text): (r: Text)
    requires |field| <= 16 && |body| < MAX_SIZE
    ensures |r| == Extent(|body|)
  {
    HeaderBytes(stamp, field, |body|) + body + Padding(body)
  }

  lemma SizeFits(size: nat)
    ensures size < MAX_SIZE ==> |Decimal(size)| <= 10
    ensures size < MAX_OFFSET ==> |Decimal(size)| <= 15
  {
    assert Digits.Power(10, 5) == 100_000;
    assert Digits.Power(10, 10) == MAX_SIZE;
    assert Digits.Power(10, 15) == MAX_OFFSET;
    if size < MAX_SIZE {
      Digits.DigitCountBound(size, 10, 10);
    }
    if size < MAX_OFFSET {
      Digits.DigitCountBound(size, 10, 15);
    }
  }

  lemma HeaderLayout(name: Text, stamp: Text, size: Text)
    requires |name| == 16 && |stamp| == 32 && |size| == 10
    ensures
      var hdr := name + stamp + size + [96, NEWLINE];
      hdr[..16] == name && hdr[48..58] == size
  {
  }

  lemma SizeReads(hdr: Text, size: nat, pad: nat)
    requires |hdr| == HEADER_SIZE && hdr[48..58] == Decimal(size) + Spaces(pad)
    ensures SizeField(hdr) == Some(size)
  {
    assert Slice(hdr, 48, 58) == hdr[48..58];
    DecimalRoundTrip(size, pad);
  }

  lemma HeaderReads(stamp: Stamp, field: Text, size: nat)
    requires |field| <= 16 && size < MAX_SIZE && (field == [] || !IsSpace(field[|field| - 1]))
    ensures
      var hdr := HeaderBytes(stamp, field, size);
      HeaderOf(hdr) == Some(Header(field, size))
  {
    SizeFits(size);
    var pad := 10 - |Decimal(size)|;
    HeaderLayout(field + Spaces(16 - |field|), stamp, Decimal(size) + Spaces(pad));
    RStripPadding(field, 16 - |field|);
    SizeReads(HeaderBytes(stamp, field, size), size, pad);
    assert Slice(HeaderBytes(stamp, field, size), 0, 16) == field + Spaces(16 - |field|);
  }

  /** A record is read as its field and its body, and the walk goes on right behind it. */
  lemma RecordReads(stamp: Stamp, field: Text, body: Text, rest: Text)
    requires |field| <= 16 && |body| < MAX_SIZE && (field == [] || !IsSpace(field[|field| - 1]))
    ensures
      var whole := Record(stamp, field, body) + rest;
      && ReadHeader(GNU, whole) == Some(Header(field, |body|))
      && Slice(whole, HEADER_SIZE, HEADER_SIZE + |body|) == body
      && Drop(whole, Extent(|body|)) == rest
  {
    var hdr := HeaderBytes(stamp, field, |body|);
    HeaderReads(stamp, field, |body|);
    Layout(hdr, body, Padding(body), rest);
  }

  lemma Layout(hdr: Text, body: Text, padding: Text, rest: Text)
    requires |hdr| == HEADER_SIZE
    ensures
      var whole := hdr + body + padding + rest;
      && whole[..HEADER_SIZE] == hdr && whole[..16] == hdr[..16]
      && Slice(whole, HEADER_SIZE, HEADER_SIZE + |body|) == body
      && Drop(whole, HEADER_SIZE + |body| + |padding|) == rest
  {
  }

  // Member names.

  predicate NoTrailingSlash(name: Text) {
    name == [] || name[|name| - 1] != SLASH
  }

  /** A name that is written into the header itself, closed by a slash. */
  predicate IsShort(name: Text) {
    0 < |name| <= 15 && NoTrailingSlash(name) && name != SYM64_STEM
  }

  const SYM64_STEM: Text := [47, 83, 89, 77, 54, 52]

  predicate Writable(m: Member) {
    && |m.body| < MAX_SIZE
    && NoTrailingSlash(m.name)
    && (IsShort(m.name) || NEWLINE !in m.name)
  }

  predicate AllWritable(members: seq<Member>) {
    forall i | 0 <= i < |members| :: Writable(members[i])
  }

  /** The bytes that a name adds to the long-name table. */
  function TableEntry(name: Text): Text {
    if IsShort(name) then [] else name + [SLASH, NEWLINE]
  }

  function Table(members: seq<Member>): Text {
    if members == [] then [] else TableEntry(members[0].name) + Table(members[1..])
  }

  function Field(name: Text, offset: nat): (f: Text)
    ensures offset < MAX_OFFSET ==> |f| <= 16 && f != [] && !IsSpace(f[|f| - 1])
  {
    SizeFits(offset);
    if IsShort(name) then name + [SLASH] else [SLASH] + Decimal(offset)
  }

  lemma SlashStrips(name: Text)
    requires NoTrailingSlash(name)
    ensures RStripSlash(name + [SLASH]) == name && RStripSlash(name) == name
  {
    assert (name + [SLASH])[..|name|] == name;
  }

  lemma ShortNameReads(name: Text, longNames: Text)
    requires IsShort(name)
    ensures !IsIndexName(name + [SLASH]) && MemberName(name + [SLASH], longNames) == Some(name)
  {
    var f := name + [SLASH];
    assert f[|f| - 1] == SLASH;
    assert f[..|name|] == name;
    assert NAME_SYM64[..6] == SYM64_STEM;
    if f[0] == SLASH {
      var t := f[1..];
      assert t[|t| - 1] == SLASH;
      if IsDigitText(t) {
        DigitCharAt(t, |t| - 1);
        assert false;
      }
    }
    SlashStrips(name);
  }

  lemma {:induction false} FindFirst(s: Text, b: Byte, from: nat, at: nat)
    requires from <= at < |s| && s[at] == b && b !in s[from..at]
    ensures Find(s, b, from) == Some(at)
    decreases at - from
  {
    if from < at {
      assert s[from] == s[from..at][0];
      assert s[from + 1..at] == s[from..at][1..];
      FindFirst(s, b, from + 1, at);
    }
  }

  lemma ReferenceIsNoIndex(f: Text)
    requires |f| >= 2 && f[0] == SLASH && IsDecimal(f[1])
    ensures !IsIndexName(f)
  {
    assert NAME_SYM64[1] == 83 && NAME_LONGNAMES[1] == SLASH && NAME_SYMDEF[0] == 95 && NAME_SYMDEF_SORTED[0] == 95;
  }

  lemma LongReference(o: nat, longNames: Text)
    requires longNames != []
    ensures
      var f := [SLASH] + Decimal(o);
      !IsIndexName(f) && IsLongNameReference(f, longNames) && ParseInt(f[1..]) == Some(o)
  {
    var digits := Decimal(o);
    var f := [SLASH] + digits;
    assert f[1..] == digits;
    assert f[1] == digits[0];
    ReferenceIsNoIndex(f);
    DecimalRoundTrip(o, 0);
  }

  lemma LongNameReads(name: Text, before: Text, rest: Text)
    requires NoTrailingSlash(name) && NEWLINE !in name
    ensures
      var f := [SLASH] + Decimal(|before|);
      !IsIndexName(f) && MemberName(f, before + (name + [SLASH, NEWLINE]) + rest) == Some(name)
  {
    var o, t := |before|, before + (name + [SLASH, NEWLINE]) + rest;
    LongReference(o, t);
    var e := o + |name| + 1;
    assert t[o..e] == name + [SLASH];
    assert NEWLINE !in name + [SLASH];
    FindFirst(t, NEWLINE, o, e);
    assert LongNameEnd(t, o) == e;
    assert Slice(t, o, e) == name + [SLASH];
    SlashStrips(name);
  }

  /** A reference to a name that ends, for the walker, at `e`. */
  lemma ReferenceReads(name: Text, o: nat, e: nat, table: Text)
    requires NoTrailingSlash(name) && table != [] && o < e <= |table| && table[o..e] == name
    requires LongNameEnd(table, o) == e
    ensures MemberName([SLASH] + Decimal(o), table) == Some(name)
  {
    LongReference(o, table);
    assert Slice(table, o, e) == name;
    SlashStrips(name);
  }

  /** In a table without newlines a name goes up to the next NUL. */
  lemma NulNameReads(name: Text, before: Text, rest: Text)
    requires NoTrailingSlash(name) && name != [] && 0 !in name && NEWLINE !in name && NEWLINE !in rest
    ensures MemberName([SLASH] + Decimal(|before|), before + (name + [0]) + rest) == Some(name)
  {
    var o, e, table := |before|, |before| + |name|, before + (name + [0]) + rest;
    assert table[o..] == name + [0] + rest && table[o..e] == name;
    FindNone(table, NEWLINE, o);
    FindFirst(table, 0, o, e);
    ReferenceReads(name, o, e, table);
  }

  /** And without a NUL behind it either, up to the end. */
  lemma LastNameReads(name: Text, before: Text)
    requires NoTrailingSlash(name) && name != [] && 0 !in name && NEWLINE !in name
    ensures MemberName([SLASH] + Decimal(|before|), before + name) == Some(name)
  {
    var o, table := |before|, before + name;
    assert table[o..] == name && table[o..|table|] == name;
    FindNone(table, NEWLINE, o);
    FindNone(table, 0, o);
    ReferenceReads(name, o, |table|, table);
  }

  lemma {:induction false} FindNone(s: Text, b: Byte, from: nat)
    requires from <= |s| && b !in s[from..]
    ensures Find(s, b, from) == None
    decreases |s| - from
  {
    if from < |s| {
      assert s[from] == s[from..][0] && s[from + 1..] == s[from..][1..];
      FindNone(s, b, from + 1);
    }
  }

  /** Without a table a slash and digits are a name. */
  lemma NoTableNoReference(name: Text)
    requires name != [] && name[0] == SLASH && name[|name| - 1] != SLASH
    ensures MemberName(name, []) == Some(name)
  {
  }

  /** A superscript is a digit to isdigit and not to int(). */
  lemma SuperscriptRaises(longNames: Text)
    requires longNames != []
    ensures MemberName([SLASH, 0xB2], longNames) == None
  {
    assert [SLASH, 0xB2][1..] == [0xB2] && [0xB2][1..] == [];
    assert Strip([0xB2]) == [0xB2];
  }

  /** A blank size field is zero. */
  lemma BlankSizeReads(hdr: Text)
    requires |hdr| == HEADER_SIZE && hdr[48..58] == Spaces(10)
    ensures SizeField(hdr) == Some(0)
  {
    assert Slice(hdr, 48, 58) == [] + Spaces(10);
    RStripPadding([], 10);
    assert [ZERO] == Decimal(0) + Spaces(0);
    DecimalRoundTrip(0, 0);
  }

  // Whole archives.

  lemma TurnYields(f: Format, whole: Text, longNames: Text, field: Text, m: Member)
    requires ReadHeader(f, whole) == Some(Header(field, |m.body|))
    requires Slice(whole, HEADER_SIZE, HEADER_SIZE + |m.body|) == m.body
    requires !IsIndexName(field) && f.named(field, longNames) == Some(m.name)
    ensures TakeTurn(f, whole, longNames) == Yields(m, Extent(|m.body|))
  {
  }

  lemma NameReads(name: Text, before: Text, after: Text)
    requires NoTrailingSlash(name) && (IsShort(name) || NEWLINE !in name)
    ensures
      var field := Field(name, |before|);
      !IsIndexName(field) && MemberName(field, before + TableEntry(name) + after) == Some(name)
  {
    if IsShort(name) {
      ShortNameReads(name, before + TableEntry(name) + after);
    } else {
      LongNameReads(name, before, after);
    }
  }

  /** Whatever follows it, a chunk is walked over in one turn that reports one member. */
  ghost predicate ReadsAs(f: Format, chunk: Text, m: Member, longNames: Text) {
    forall rest: Text :: TakeTurn(f, chunk + rest, longNames) == Yields(m, |chunk|)
  }

  function Flatten(chunks: seq<Text>): Text {
    if chunks == [] then [] else chunks[0] + Flatten(chunks[1..])
  }

  /** Chunks that each report one member are together walked as the list of their members. */
  lemma {:induction false} ChunksWalk(f: Format, chunks: seq<Text>, members: seq<Member>, longNames: Text)
    requires |chunks| == |members|
    requires forall i | 0 <= i < |chunks| :: chunks[i] != [] && ReadsAs(f, chunks[i], members[i], longNames)
    ensures Walk(f, Flatten(chunks), longNames) == Some(Walked(members, Finished))
    decreases |chunks|
  {
    if chunks != [] {
      var rest := Flatten(chunks[1..]);
      assert ReadsAs(f, chunks[0], members[0], longNames);
      assert TakeTurn(f, chunks[0] + rest, longNames) == Yields(members[0], |chunks[0]|);
      assert Drop(chunks[0] + rest, |chunks[0]|) == rest;
      ChunksWalk(f, chunks[1..], members[1..], longNames);
      WalkYields(f, chunks[0] + rest, longNames, members[0], |chunks[0]|, Walked(members[1..], Finished));
      assert members == [members[0]] + members[1..];
    }
  }

  /** The record of a member whose name, if long, is at the given offset of the table. */
  function MemberRecord(stamp: Stamp, m: Member, offset: nat): (chunk: Text)
    requires Writable(m) && offset < MAX_OFFSET
    ensures |chunk| == Extent(|m.body|)
  {
    Record(stamp, Field(m.name, offset), m.body)
  }

  lemma RecordReadsAs(stamp: Stamp, m: Member, before: Text, after: Text, longNames: Text)
    requires Writable(m) && |before| < MAX_OFFSET
    requires longNames == before + TableEntry(m.name) + after
    ensures ReadsAs(GNU, MemberRecord(stamp, m, |before|), m, longNames)
  {
    var field, chunk := Field(m.name, |before|), MemberRecord(stamp, m, |before|);
    NameReads(m.name, before, after);
    forall rest: Text
      ensures TakeTurn(GNU, chunk + rest, longNames) == Yields(m, |chunk|)
    {
      RecordReads(stamp, field, m.body, rest);
      TurnYields(GNU, chunk + rest, longNames, field, m);
    }
  }

  lemma {:induction false} TableAppends(a: seq<Member>, b: seq<Member>)
    ensures Table(a + b) == Table(a) + Table(b)
    decreases |a|
  {
    if a == [] {
      assert a + b == b;
    } else {
      assert (a + b)[1..] == a[1..] + b;
      TableAppends(a[1..], b);
      Regroup(TableEntry(a[0].name), Table(a[1..]), Table(b));
    }
  }

  lemma TableOfOne(m: Member)
    ensures Table([m]) == TableEntry(m.name)
  {
    assert [m][1..] == [];
    assert Table([]) == [];
  }

  lemma SplitAt<T>(s: seq<T>, i: nat)
    requires i < |s|
    ensures s == s[..i] + [s[i]] + s[i + 1..]
  {
  }

  lemma TableSplits(members: seq<Member>, i: nat)
    requires i < |members|
    ensures Table(members) == Table(members[..i]) + TableEntry(members[i].name) + Table(members[i + 1..])
  {
    var a, m, b := members[..i], members[i], members[i + 1..];
    SplitAt(members, i);
    TableAppends(a + [m], b);
    TableAppends(a, [m]);
    TableOfOne(m);
  }

  /** Where the name of the i-th member starts in the table, if it is there. */
  function Offset(members: seq<Member>, i: nat): (o: nat)
    requires i < |members|
    ensures o <= |Table(members)|
  {
    TableSplits(members, i);
    |Table(members[..i])|
  }

  function MemberRecords(stamp: Stamp, members: seq<Member>): (chunks: seq<Text>)
    requires AllWritable(members) && |Table(members)| < MAX_SIZE
    ensures |chunks| == |members|
  {
    seq(|members|, i requires 0 <= i < |members| => MemberRecord(stamp, members[i], Offset(members, i)))
  }

  lemma MembersRoundTrip(stamp: Stamp, members: seq<Member>)
    requires AllWritable(members) && |Table(members)| < MAX_SIZE
    ensures Walk(GNU, Flatten(MemberRecords(stamp, members)), Table(members)) == Some(Walked(members, Finished))
  {
    var chunks := MemberRecords(stamp, members);
    forall i | 0 <= i < |chunks|
      ensures chunks[i] != [] && ReadsAs(GNU, chunks[i], members[i], Table(members))
    {
      TableSplits(members, i);
      RecordReadsAs(stamp, members[i], Table(members[..i]), Table(members[i + 1..]), Table(members));
    }
    ChunksWalk(GNU, chunks, members, Table(members));
  }

  /** The names that symbol indexes go by: "/", "/SYM64/", "__.SYMDEF" and "__.SYMDEF SORTED". */
  datatype IndexKind = Linker | Linker64 | Ranlib | RanlibSorted

  function IndexName(k: IndexKind): (name: Text)
    ensures |name| <= 16
  {
    match k
    case Linker => [47]
    case Linker64 => [47, 83, 89, 77, 54, 52, 47]
    case Ranlib => [95, 95, 46, 83, 89, 77, 68, 69, 70]
    case RanlibSorted => [95, 95, 46, 83, 89, 77, 68, 69, 70, 32, 83, 79, 82, 84, 69, 68]
  }

  /** The long-name table's: "//". */
  const TABLE_NAME: Text := [47, 47]

  /** The walk drops the symbol indexes and takes over the table, and a member of any other name it never skips. */
  lemma SkipsIff(f: Format, name: Text, size: int, body: Text, longNames: Text)
    ensures
      var turn := TurnOf(f, name, size, body, longNames);
      && (turn.Skips? <==> name == TABLE_NAME || exists k: IndexKind :: name == IndexName(k))
      && (turn.Skips? ==> turn.longNames == if name == TABLE_NAME then body else longNames)
  {
    IndexNames(name);
  }

  lemma IndexNames(name: Text)
    ensures IsIndexName(name) <==> name == TABLE_NAME || exists k: IndexKind :: name == IndexName(k)
  {
    IndexNameOf(Linker);
    IndexNameOf(Linker64);
    IndexNameOf(Ranlib);
    IndexNameOf(RanlibSorted);
    assert NAME_INDEX == IndexName(Linker) && NAME_SYM64 == IndexName(Linker64);
    assert NAME_SYMDEF == IndexName(Ranlib) && NAME_SYMDEF_SORTED == IndexName(RanlibSorted);
  }

  lemma IndexNameOf(k: IndexKind)
    ensures IsIndexName(IndexName(k)) && IndexName(k) != NAME_LONGNAMES
    ensures IndexName(k) != [] && !IsSpace(IndexName(k)[|IndexName(k)| - 1])
  {
    assert IndexName(RanlibSorted) == NAME_SYMDEF_SORTED;
  }

  /** An index member is passed over. */
  lemma IndexTurn(stamp: Stamp, name: Text, body: Text, rest: Text, longNames: Text)
    requires IsIndexName(name) && |body| < MAX_SIZE
    ensures Walk(GNU, Record(stamp, name, body) + rest, longNames)
      == Walk(GNU, rest, if name == NAME_LONGNAMES then body else longNames)
  {
    RecordReads(stamp, name, body, rest);
    WalkSkips(GNU, Record(stamp, name, body) + rest, longNames, Extent(|body|), if name == NAME_LONGNAMES then body else longNames);
  }

  /** A symbol index. */
  datatype Symbols = Symbols(kind: IndexKind, body: Text)

  predicate AllSymbolIndexes(symbols: seq<Symbols>) {
    forall i | 0 <= i < |symbols| :: |symbols[i].body| < MAX_SIZE
  }

  function WriteSymbols(stamp: Stamp, symbols: seq<Symbols>): Text
    requires AllSymbolIndexes(symbols)
  {
    if symbols == [] then [] else
      Record(stamp, IndexName(symbols[0].kind), symbols[0].body) + WriteSymbols(stamp, symbols[1..])
  }

  lemma {:induction false} SymbolsAreDropped(stamp: Stamp, symbols: seq<Symbols>, rest: Text)
    requires AllSymbolIndexes(symbols)
    ensures Walk(GNU, WriteSymbols(stamp, symbols) + rest, []) == Walk(GNU, rest, [])
    decreases |symbols|
  {
    if symbols == [] {
      assert WriteSymbols(stamp, symbols) + rest == rest;
    } else {
      var s, tail := symbols[0], WriteSymbols(stamp, symbols[1..]) + rest;
      var name := IndexName(s.kind);
      Regroup(Record(stamp, name, s.body), WriteSymbols(stamp, symbols[1..]), rest);
      IndexNameOf(s.kind);
      IndexTurn(stamp, name, s.body, tail, []);
      SymbolsAreDropped(stamp, symbols[1..], rest);
    }
  }

  /** The line that archives start with, "!<arch>" and a newline. */
  const START: Text := [33, 60, 97, 114, 99, 104, 62, 10]

  function WriteArchive(stamp: Stamp, symbols: seq<Symbols>, members: seq<Member>): Text
    requires AllSymbolIndexes(symbols) && AllWritable(members)
    requires |Table(members)| < MAX_SIZE
  {
    START + (WriteSymbols(stamp, symbols)
      + ((if Table(members) == [] then [] else Record(stamp, TABLE_NAME, Table(members)))
      + Flatten(MemberRecords(stamp, members))))
  }

  /** The long-name table is taken over and not reported. */
  lemma TableTurn(stamp: Stamp, table: Text, rest: Text)
    requires |table| < MAX_SIZE
    ensures Walk(GNU, Record(stamp, TABLE_NAME, table) + rest, []) == Walk(GNU, rest, table)
  {
    IndexTurn(stamp, TABLE_NAME, table, rest, []);
  }

  /** Walking a written archive reports its members, names and bodies, in order, without its indexes. */
  lemma ArchiveRoundTrip(stamp: Stamp, symbols: seq<Symbols>, members: seq<Member>)
    requires AllSymbolIndexes(symbols) && AllWritable(members)
    requires |Table(members)| < MAX_SIZE
    ensures WalkEnds(WriteArchive(stamp, symbols, members))
    ensures WalkArchive(WriteArchive(stamp, symbols, members)) == Walked(members, Finished)
  {
    var data := WriteArchive(stamp, symbols, members);
    var table, written := Table(members), Flatten(MemberRecords(stamp, members));
    var rest := (if table == [] then [] else Record(stamp, TABLE_NAME, table)) + written;
    assert START == MAGIC;
    assert data[|MAGIC|..] == WriteSymbols(stamp, symbols) + rest;
    SymbolsAreDropped(stamp, symbols, rest);
    if table == [] {
      assert rest == written;
    } else {
      TableTurn(stamp, table, written);
    }
    MembersRoundTrip(stamp, members);
    ForwardIsWalk(GNU, data, |MAGIC|, []);
    WalkOfIs(GNU, data, |MAGIC|, [], |Drop(data, |MAGIC|)|);
  }
}
