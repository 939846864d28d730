/** The build gate end to end: libraries are archives of COFF objects, and tools/isa-scan.py judges what was written. */
module IsaGate {
  import opened Prelude
  import opened Latin1
  import opened Sweep
  import opened IsaScan
  import opened IsaPolicy
  import Archive
  import ArchiveWriter
  import Coff
  import CoffWriter
  import IsaVerdict

  /** An object file, as a compiler leaves it in a library, for any machine. */
  datatype Object = Object(name: Text, stamp: CoffWriter.Stamp, optional: Text, images: seq<CoffWriter.Image>)

  predicate Written(o: Object) {
    && CoffWriter.IsStamp(o.stamp) && CoffWriter.AllWritable(o.images)
    && |o.images| < 0x1_0000 && |o.optional| < 0x1_0000
    && |CoffWriter.WriteObject(o.stamp, o.optional, o.images)| < CoffWriter.WORD_RANGE
  }

  function MemberOf(o: Object): Archive.Member
    requires Written(o)
  {
    Archive.Member(o.name, CoffWriter.WriteObject(o.stamp, o.optional, o.images))
  }

  predicate AllWritten(objects: seq<Object>) {
    objects == [] || (Written(objects[0]) && AllWritten(objects[1..]))
  }

  function MembersOf(objects: seq<Object>): (members: seq<Archive.Member>)
    requires AllWritten(objects)
    ensures |members| == |objects|
  {
    if objects == [] then [] else [MemberOf(objects[0])] + MembersOf(objects[1..])
  }

  /** An object for the i386. */
  predicate ForI386(o: Object) {
    o.stamp.machine == [0x4C, 0x01]
  }

  /** The hits of the executable sections of an object; those for other machines are not looked into. */
  function OneObjectHits(md: Scanner, library: Text, o: Object): seq<Hit>
    requires Sound(md)
  {
    if ForI386(o) then ObjectHits(md, Source(library, Some(o.name)), CoffWriter.Reported(o.images)) else []
  }

  /** The hits of the objects, in order. */
  function ObjectsHits(md: Scanner, library: Text, objects: seq<Object>): seq<Hit>
    requires Sound(md)
  {
    if objects == [] then [] else
      OneObjectHits(md, library, objects[0]) + ObjectsHits(md, library, objects[1..])
  }

  lemma MachineReads(o: Object)
    requires Written(o)
    ensures IsI386(MemberOf(o).body) <==> ForI386(o)
  {
    var body := MemberOf(o).body;
    assert body[..2] == o.stamp.machine;
    assert I386 <= body <==> body[..2] == I386;
  }

  lemma MemberHitsOf(md: Scanner, library: Text, o: Object)
    requires Sound(md) && Written(o)
    ensures MemberHits(md, library, MemberOf(o)) == OneObjectHits(md, library, o)
  {
    MachineReads(o);
    CoffWriter.ObjectRoundTrip(o.stamp, o.optional, o.images);
  }

  lemma {:induction false} MembersHits(md: Scanner, library: Text, objects: seq<Object>)
    requires Sound(md) && AllWritten(objects)
    ensures ArchiveHits(md, library, MembersOf(objects)) == ObjectsHits(md, library, objects)
  {
    if objects != [] {
      MemberHitsOf(md, library, objects[0]);
      MembersHits(md, library, objects[1..]);
      assert MembersOf(objects)[1..] == MembersOf(objects[1..]);
    }
  }

  /**
   * For a library written from objects, behind any symbol indexes, and a positive limit: the scan does not raise,
   * its result is the first `max` hits of the executable sections of its i386 objects, and the gate closes if and only
   * if one of them has a hit.
   */
  lemma GateIsExact(md: Scanner, library: Text, stamp: ArchiveWriter.Stamp, symbols: seq<ArchiveWriter.Symbols>,
      objects: seq<Object>, max: int)
    requires Sound(md) && max >= 1 && AllWritten(objects)
    requires ArchiveWriter.AllSymbolIndexes(symbols) && ArchiveWriter.AllWritable(MembersOf(objects))
    requires |ArchiveWriter.Table(MembersOf(objects))| < ArchiveWriter.MAX_SIZE
    ensures
      var f := File(library, ArchiveWriter.WriteArchive(stamp, symbols, MembersOf(objects)));
      Terminates(f) &&
      var hits := ObjectsHits(md, library, objects);
      && FileOutcome(md, f, max) == Scanned(FirstN(hits, max))
      && Status(md, [f], max) == if hits == [] then 0 else 1
  {
    var data := ArchiveWriter.WriteArchive(stamp, symbols, MembersOf(objects));
    var f := File(library, data);
    assert data[..|Archive.MAGIC|] == Archive.MAGIC;
    ArchiveWriter.ArchiveRoundTrip(stamp, symbols, MembersOf(objects));
    MembersHits(md, library, objects);
    IsaVerdict.FileTakes(md, f, max);
    IsaVerdict.StatusIff(md, [f], max);
    assert f in [f];
  }

  // Where hits are.

  /** The hit names the place, and lies within the code at its address. */
  predicate LiesIn(h: Hit, from: Source, s: Coff.Section) {
    && h.place.file == from.file && h.place.member == from.member && h.place.section == s.name
    && s.vaddr <= h.address < s.vaddr + |s.code|
  }

  lemma {:induction false} SectionHitsLieIn(md: Scanner, from: Source, s: Coff.Section, pos: nat, h: Hit)
    requires Sound(md) && h in Hits(md, Place(from.file, from.member, s.name), s.vaddr, s.code, pos)
    ensures LiesIn(h, from, s) && h.address >= s.vaddr + pos
    decreases |s.code| - pos
  {
    var place := Place(from.file, from.member, s.name);
    match md.decode(s.code, s.vaddr, pos) {
      case None => SectionHitsLieIn(md, from, s, pos + 1, h);
      case Some(insn) =>
        var later := Hits(md, place, s.vaddr, s.code, pos + insn.size);
        assert Hits(md, place, s.vaddr, s.code, pos) == HitsOf(md, place, s.vaddr + pos, insn) + later;
        if h in later {
          SectionHitsLieIn(md, from, s, pos + insn.size, h);
        }
    }
  }

  lemma {:induction false} ObjectHitsLieIn(md: Scanner, from: Source, sections: seq<Coff.Section>, h: Hit)
    requires Sound(md) && h in ObjectHits(md, from, sections)
    ensures exists s :: s in sections && LiesIn(h, from, s)
  {
    assert sections == [sections[0]] + sections[1..];
    if h in SectionHits(md, from, sections[0]) {
      SectionHitsLieIn(md, from, sections[0], 0, h);
    } else {
      ObjectHitsLieIn(md, from, sections[1..], h);
    }
  }

  /** Every hit names the library, an i386 object of it and an executable section of that, and lies within its code. */
  lemma {:induction false} HitsLieInside(md: Scanner, library: Text, objects: seq<Object>, h: Hit)
    requires Sound(md) && h in ObjectsHits(md, library, objects)
    ensures exists o, s :: o in objects && ForI386(o) && s in CoffWriter.Reported(o.images) && LiesIn(h, Source(library, Some(o.name)), s)
  {
    assert objects == [objects[0]] + objects[1..];
    var o := objects[0];
    var first := OneObjectHits(md, library, o);
    assert ObjectsHits(md, library, objects) == first + ObjectsHits(md, library, objects[1..]);
    if h in first {
      ObjectHitsLieIn(md, Source(library, Some(o.name)), CoffWriter.Reported(o.images), h);
    } else {
      HitsLieInside(md, library, objects[1..], h);
    }
  }

  // With the tables of the policy.

  /** The section has a stretch that decodes to an instruction above the baseline. */
  ghost predicate SectionAbove(decode: (Text, nat, nat) -> Option<Insn>, s: Coff.Section)
    requires Sound(PolicyScanner(decode))
  {
    exists t :: t in Tiles(PolicyScanner(decode), s.vaddr, s.code, 0) && DecodesAbove(decode, s, t.start)
  }

  predicate DecodesAbove(decode: (Text, nat, nat) -> Option<Insn>, s: Coff.Section, pos: nat) {
    var insn := decode(s.code, s.vaddr, pos);
    insn.Some? && AboveBaseline(insn.value)
  }

  ghost predicate ObjectAbove(decode: (Text, nat, nat) -> Option<Insn>, images: seq<CoffWriter.Image>)
    requires Sound(PolicyScanner(decode))
  {
    exists s :: s in CoffWriter.Reported(images) && SectionAbove(decode, s)
  }

  lemma SectionHitsIff(decode: (Text, nat, nat) -> Option<Insn>, from: Source, s: Coff.Section)
    requires Sound(PolicyScanner(decode))
    ensures SectionHits(PolicyScanner(decode), from, s) != [] <==> SectionAbove(decode, s)
  {
    var md := PolicyScanner(decode);
    HitsIff(md, Place(from.file, from.member, s.name), s.vaddr, s.code);
    forall t | t in Tiles(md, s.vaddr, s.code, 0)
      ensures Offends(md, s.vaddr, s.code, t) <==> DecodesAbove(decode, s, t.start)
    {
      var insn := decode(s.code, s.vaddr, t.start);
      if insn.Some? {
        ReportedIffAbove(insn.value);
      }
    }
  }

  lemma {:induction false} ObjectHitsIff(decode: (Text, nat, nat) -> Option<Insn>, from: Source, sections: seq<Coff.Section>)
    requires Sound(PolicyScanner(decode))
    ensures ObjectHits(PolicyScanner(decode), from, sections) != [] <==>
      exists s :: s in sections && SectionAbove(decode, s)
  {
    if sections != [] {
      assert sections == [sections[0]] + sections[1..];
      SectionHitsIff(decode, from, sections[0]);
      ObjectHitsIff(decode, from, sections[1..]);
    }
  }

  lemma {:induction false} ObjectsHitsIff(decode: (Text, nat, nat) -> Option<Insn>, library: Text, objects: seq<Object>)
    requires Sound(PolicyScanner(decode))
    ensures ObjectsHits(PolicyScanner(decode), library, objects) != [] <==>
      exists o :: o in objects && ForI386(o) && ObjectAbove(decode, o.images)
  {
    if objects != [] {
      assert objects == [objects[0]] + objects[1..];
      ObjectHitsIff(decode, Source(library, Some(objects[0].name)), CoffWriter.Reported(objects[0].images));
      ObjectsHitsIff(decode, library, objects[1..]);
    }
  }

  /** The gate closes on a written library if and only if an executable section of one of its i386 objects has a
      stretch that decodes to an instruction above the baseline. */
  lemma GateEnforcesPolicy(decode: (Text, nat, nat) -> Option<Insn>, library: Text, stamp: ArchiveWriter.Stamp,
      symbols: seq<ArchiveWriter.Symbols>, objects: seq<Object>, max: int)
    requires Sound(PolicyScanner(decode)) && max >= 1 && AllWritten(objects)
    requires ArchiveWriter.AllSymbolIndexes(symbols) && ArchiveWriter.AllWritable(MembersOf(objects))
    requires |ArchiveWriter.Table(MembersOf(objects))| < ArchiveWriter.MAX_SIZE
    ensures
      var f := File(library, ArchiveWriter.WriteArchive(stamp, symbols, MembersOf(objects)));
      Terminates(f) &&
      Status(PolicyScanner(decode), [f], max) == 
        if exists o :: o in objects && ForI386(o) && ObjectAbove(decode, o.images) then 1 else 0
  {
    GateIsExact(PolicyScanner(decode), library, stamp, symbols, objects, max);
    ObjectsHitsIff(decode, library, objects);
  }

  /** On an object by itself, of any machine, the gate closes if and only if one of its executable sections has such a
      stretch. */
  lemma ObjectGate(decode: (Text, nat, nat) -> Option<Insn>, name: Text, o: Object, max: int)
    requires Sound(PolicyScanner(decode)) && max >= 1 && Written(o) && o.stamp.machine != [33, 60]
    ensures
      var f := File(name, MemberOf(o).body);
      && Terminates(f)
      && Status(PolicyScanner(decode), [f], max) == if ObjectAbove(decode, o.images) then 1 else 0
  {
    var md, body := PolicyScanner(decode), MemberOf(o).body;
    var f := File(name, body);
    assert body[..2] == o.stamp.machine && Archive.MAGIC[..2] == [33, 60];
    assert !IsArchive(body);
    CoffWriter.ObjectRoundTrip(o.stamp, o.optional, o.images);
    ObjectHitsIff(decode, Source(name, None), CoffWriter.Reported(o.images));
    IsaVerdict.StatusIff(md, [f], max);
    assert f in [f] && (IsaVerdict.Contributes(md, f, max) <==> IsaVerdict.HasHit(md, f));
  }
}
