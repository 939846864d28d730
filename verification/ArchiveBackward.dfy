/** A size field of minus sixty-two: the walk goes back over the archive's own magic, and ends. */
module ArchiveBackward {
  import opened Prelude
  import opened Latin1
  import opened Archive
  import Digits

  // "100644  " and "-62       ", the last two header fields, and what the walk reads of them two and four bytes on.
  const MODE: Text := [49, 48, 48, 54, 52, 52, 32, 32]
  const MINUS_62: Text := [45, 54, 50]

  /** An archive of one header: name "a/", that mode and that size. */
  function Data(dates: Text): (data: Text)
    requires |dates| == 24
    ensures |data| == |MAGIC| + HEADER_SIZE
  {
    MAGIC + ([97, SLASH] + Spaces(14)) + dates + MODE + (MINUS_62 + Spaces(7)) + [96, NEWLINE]
  }

  lemma {:induction false} LStripLead(lead: nat, s: Text)
    requires s != [] && !IsSpace(s[0])
    ensures LStrip(Spaces(lead) + s) == s
  {
    var t := Spaces(lead) + s;
    if lead == 0 {
      assert t == s;
    } else {
      assert t[1..] == Spaces(lead - 1) + s;
      LStripLead(lead - 1, s);
    }
  }

  lemma StripsTo(lead: nat, s: Text, trail: nat)
    requires s != [] && !IsSpace(s[0]) && !IsSpace(s[|s| - 1])
    ensures Strip(Spaces(lead) + s + Spaces(trail)) == s
  {
    RStripPadding(Spaces(lead) + s, trail);
    LStripLead(lead, s);
  }

  lemma SixtyTwoRun()
    ensures IsDigitRun([54, 50])
  {
    assert [54, 50][1..] == [50] && [50][1..] == [];
    assert ContinuesRun([]) && IsDigitRun([50]) && ContinuesRun([50]);
  }

  lemma SixtyTwoValue()
    ensures Digits.Value(DigitValues([54, 50]), 10) == 62
  {
    DigitValuesAt([54, 50]);
    assert DigitValues([54, 50]) == [6, 2];
    assert [6, 2][..1] == [6] && [6][..0] == [];
    assert Digits.Value([6], 10) == 6;
  }

  lemma ParsesMinus62()
    ensures ParseInt(MINUS_62) == Some(-62)
  {
    assert Strip(MINUS_62) == MINUS_62;
    assert MINUS_62[1..] == [54, 50];
    SixtyTwoRun();
    SixtyTwoValue();
  }

  const BLANKS_INSIDE: Text := [52, 52, 32, 32] + MINUS_62

  /** "44  -62" has blanks inside, which int() rejects. */
  lemma RejectsInnerBlanks()
    ensures ParseInt(BLANKS_INSIDE) == None
  {
    var s := BLANKS_INSIDE;
    assert Strip(s) == s;
    var t := s[1..];
    var u := t[1..];
    assert t[0] == 52 && u[0] == 32;
    assert !IsDigitRun(u) && !ContinuesRun(u) && !IsDigitRun(t) && !ContinuesRun(t) && !IsDigitRun(s);
  }

  /** Where the fields lie, for a header at 8, and for ones read two and four bytes before it. */
  lemma Layout(magic: Text, name: Text, dates: Text, mode: Text, size: Text, end: Text)
    requires |magic| == 8 && |name| == 16 && |dates| == 24 && |mode| == 8 && |size| == 10 && |end| == 2
    ensures
      var data := magic + name + dates + mode + size + end;
      && data[8..24] == name && data[56..66] == size
      && data[6..22] == magic[6..] + name[..14] && data[54..64] == mode[6..] + size[..8]
      && data[52..62] == mode[4..] + size[..6]
  {
  }

  lemma FieldsAt(data: Text, p: nat)
    requires p + HEADER_SIZE <= |data|
    ensures HeaderAt(GNU, data, p) == HeaderOf(PySlice(data, p, p + HEADER_SIZE))
    ensures Slice(PySlice(data, p, p + HEADER_SIZE), 48, 58) == data[p + 48..p + 58]
    ensures Slice(PySlice(data, p, p + HEADER_SIZE), 0, 16) == data[p..p + 16]
  {
    assert PySlice(data, p, p + HEADER_SIZE) == data[p..p + HEADER_SIZE];
  }

  /** A header whose name and size fields are padded so. */
  lemma HeaderIs(data: Text, p: nat, name: Text, pad: nat, lead: nat, trail: nat)
    requires p + HEADER_SIZE <= |data| && name != [] && !IsSpace(name[|name| - 1])
    requires data[p..p + 16] == name + Spaces(pad) && data[p + 48..p + 58] == Spaces(lead) + MINUS_62 + Spaces(trail)
    ensures HeaderAt(GNU, data, p) == Some(Header(name, -62))
  {
    FieldsAt(data, p);
    StripsTo(lead, MINUS_62, trail);
    ParsesMinus62();
    RStripPadding(name, pad);
  }

  /** The header at its own place, and two bytes before it: the same size, another name. */
  lemma TwoHeaders(dates: Text)
    requires |dates| == 24
    ensures HeaderAt(GNU, Data(dates), 8) == Some(Header([97, SLASH], -62))
    ensures HeaderAt(GNU, Data(dates), 6) == Some(Header([62, NEWLINE, 97, SLASH], -62))
  {
    var name, size := [97, SLASH] + Spaces(14), MINUS_62 + Spaces(7);
    Layout(MAGIC, name, dates, MODE, size, [96, NEWLINE]);
    assert size == Spaces(0) + MINUS_62 + Spaces(7);
    HeaderIs(Data(dates), 8, [97, SLASH], 14, 0, 7);
    assert MAGIC[6..] + name[..14] == [62, NEWLINE, 97, SLASH] + Spaces(12);
    assert MODE[6..] + size[..8] == Spaces(2) + MINUS_62 + Spaces(5);
    HeaderIs(Data(dates), 6, [62, NEWLINE, 97, SLASH], 12, 2, 5);
  }

  /** Four bytes before it there is no number. */
  lemma NoThirdHeader(dates: Text)
    requires |dates| == 24
    ensures HeaderAt(GNU, Data(dates), 4) == None
  {
    var name, size := [97, SLASH] + Spaces(14), MINUS_62 + Spaces(7);
    Layout(MAGIC, name, dates, MODE, size, [96, NEWLINE]);
    FieldsAt(Data(dates), 4);
    assert MODE[4..] + size[..6] == Spaces(0) + BLANKS_INSIDE + Spaces(3);
    StripsTo(0, BLANKS_INSIDE, 3);
    RejectsInnerBlanks();
  }

  /** A name that starts with neither a slash nor an underscore is reported without its closing slash. */
  lemma PlainName(name: Text)
    requires name != [] && name[0] != SLASH && name[0] != 95 && name[|name| - 1] != SLASH
    ensures TurnOf(GNU, name + [SLASH], -62, [], []) == Yields(Member(name, []), -2)
  {
    var field := name + [SLASH];
    assert field[0] == name[0] && NAME_SYMDEF_SORTED[0] == 95;
    assert !IsIndexName(field);
    assert field[..|field| - 1] == name;
    assert RStripSlash(field) == RStripSlash(name) == name;
  }

  /** The walk reports the member twice, under two names, and then ends at a field that is no number. */
  lemma GoesBackAndEnds(dates: Text)
    requires |dates| == 24
    ensures WalkEnds(Data(dates))
    ensures WalkArchive(Data(dates)) == Walked([Member([97], []), Member([62, NEWLINE, 97], [])], Finished)
  {
    var data := Data(dates);
    TwoHeaders(dates);
    NoThirdHeader(dates);
    PlainName([97]);
    PlainName([62, NEWLINE, 97]);
    assert [97] + [SLASH] == [97, SLASH] && [62, NEWLINE, 97] + [SLASH] == [62, NEWLINE, 97, SLASH];
    assert PySlice(data, 68, 6) == [] && PySlice(data, 66, 4) == [];
    assert TurnAt(GNU, data, 8, []) == Yields(Member([97], []), -2);
    assert TurnAt(GNU, data, 6, []) == Yields(Member([62, NEWLINE, 97], []), -2);
    assert TurnAt(GNU, data, 4, []) == Ends(Finished);
    assert EndsWithin(GNU, data, 4, [], 0) && WalkFrom(GNU, data, 4, [], 0) == Walked([], Finished);
    assert EndsWithin(GNU, data, 6, [], 1) && WalkFrom(GNU, data, 6, [], 1) == Walked([Member([62, NEWLINE, 97], [])], Finished);
    assert EndsWithin(GNU, data, 8, [], 2);
    WalkOfIs(GNU, data, 8, [], 2);
  }
}
