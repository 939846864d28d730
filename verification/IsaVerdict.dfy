/** What the hit limit of tools/isa-scan.py does to its results and to its exit status. */
module IsaVerdict {
  import opened Prelude
  import opened Latin1
  import opened Sweep
  import opened IsaScan
  import Archive
  import Coff

  lemma FirstOfAppended<T>(a: seq<T>, b: seq<T>, n: nat)
    ensures FirstN(a + b, n) == if |a| >= n then FirstN(a, n) else a + FirstN(b, n - |a|)
  {
  }

  /** Taking from two lists in turn, after `out`. */
  lemma TakesInTurn<T>(out: seq<T>, a: seq<T>, b: seq<T>, max: nat)
    requires |out| <= max
    ensures |out| + |a| >= max ==> FirstN(a + b, max - |out|) == FirstN(a, max - |out|)
    ensures |out| + |a| < max ==>
      && FirstN(a, max - |out|) == a
      && out + FirstN(a + b, max - |out|) == out + a + FirstN(b, max - |out + a|)
  {
  }

  lemma {:induction false} SectionsTake(md: Scanner, from: Source, sections: seq<Coff.Section>, out: seq<Hit>, max: int)
    requires Sound(md) && |out| < max
    ensures SectionsRecord(md, from, sections, out, max) == out + FirstN(ObjectHits(md, from, sections), max - |out|)
    decreases |sections|
  {
    if sections != [] {
      var first := SectionHits(md, from, sections[0]);
      RecordTakes(out, first, max);
      TakesInTurn(out, first, ObjectHits(md, from, sections[1..]), max);
      if |out| + |first| < max {
        SectionsTake(md, from, sections[1..], out + first, max);
      }
    }
  }

  lemma MemberTakes(md: Scanner, file: Text, m: Archive.Member, out: seq<Hit>, max: int)
    requires Sound(md) && |out| < max
    ensures MemberRecord(md, file, m, out, max) == out + FirstN(MemberHits(md, file, m), max - |out|)
  {
    if IsI386(m.body) {
      SectionsTake(md, Source(file, Some(m.name)), Coff.CodeSectionsOf(m.body), out, max);
    }
  }

  lemma {:induction false} WalkedTakes(md: Scanner, file: Text, w: Archive.Walked, out: seq<Hit>, max: int)
    requires Sound(md) && |out| < max
    ensures
      var all := ArchiveHits(md, file, w.members);
      WalkedRecord(md, file, w, out, max) ==
        if w.end == Archive.Raised && |out| + |all| < max then Failed else Scanned(out + FirstN(all, max - |out|))
    decreases |w.members|
  {
    if w.members != [] {
      var first := MemberHits(md, file, w.members[0]);
      MemberTakes(md, file, w.members[0], out, max);
      TakesInTurn(out, first, ArchiveHits(md, file, w.members[1..]), max);
      if |out| + |first| < max {
        WalkedTakes(md, file, Archive.Walked(w.members[1..], w.end), out + first, max);
      }
    }
  }

  /** For a positive limit, a file's result is exactly the first `max` of its hits; it fails if and only if its
      exception comes before the limit is reached. */
  lemma FileTakes(md: Scanner, f: File, max: int)
    requires Sound(md) && Terminates(f) && max >= 1
    ensures FileOutcome(md, f, max) ==
      if Raises(f) && |FileHits(md, f)| < max then Failed else Scanned(FirstN(FileHits(md, f), max))
  {
    match f {
      case Unreadable =>
      case File(name, data) =>
        if IsArchive(data) {
          WalkedTakes(md, name, Archive.WalkArchive(data), [], max);
        } else {
          SectionsTake(md, Source(name, None), Coff.CodeSectionsOf(data), [], max);
          assert FileOutcome(md, f, max)
            == Scanned(SectionsRecord(md, Source(name, None), Coff.CodeSectionsOf(data), [], max));
        }
    }
  }

  /** The file has a hit, and no exception before the limit is reached. */
  ghost predicate Contributes(md: Scanner, f: File, max: int)
    requires Sound(md) && Terminates(f)
  {
    FileHits(md, f) != [] && (Raises(f) ==> |FileHits(md, f)| >= max)
  }

  lemma ContributesIff(md: Scanner, f: File, max: int)
    requires Sound(md) && Terminates(f) && max >= 1
    ensures Contributes(md, f, max) <==> FileOutcome(md, f, max).Scanned? && FileOutcome(md, f, max).hits != []
  {
    FileTakes(md, f, max);
  }

  lemma {:induction false} SomeFileContributes(md: Scanner, files: seq<File>, all: seq<Hit>, max: int)
    requires Sound(md) && AllTerminate(files) && max >= 1
    ensures AllHits(md, files, all, max) != [] <==> all != [] || exists f :: f in files && Contributes(md, f, max)
    decreases |files|
  {
    if files != [] {
      ContributesIff(md, files[0], max);
      assert files == [files[0]] + files[1..];
      match FileOutcome(md, files[0], max) {
        case Failed =>
          SomeFileContributes(md, files[1..], all, max);
        case Scanned(hits) =>
          if |all + hits| < max {
            SomeFileContributes(md, files[1..], all + hits, max);
          }
      }
    }
  }

  /** The verdict, for a positive limit: stopping early never hides a file that contributes. */
  lemma StatusIff(md: Scanner, files: seq<File>, max: int)
    requires Sound(md) && AllTerminate(files) && max >= 1
    ensures Status(md, files, max) == 2 <==> files == []
    ensures Status(md, files, max) == 1 <==> exists f :: f in files && Contributes(md, f, max)
  {
    SomeFileContributes(md, files, [], max);
  }

  ghost predicate HasHit(md: Scanner, f: File)
    requires Sound(md) && Terminates(f)
  {
    FileHits(md, f) != []
  }

  /** The status is the same under all positive limits. */
  ghost predicate LimitNeverMatters(md: Scanner, files: seq<File>)
    requires Sound(md) && AllTerminate(files)
  {
    forall a: int, b: int :: a >= 1 && b >= 1 ==> Status(md, files, a) == Status(md, files, b)
  }

  /** Some positive limit closes the gate and another does not, if hits come only before exceptions. */
  lemma LimitMatters(md: Scanner, files: seq<File>, f: File)
    requires Sound(md) && AllTerminate(files) && f in files && HasHit(md, f)
    requires forall f :: f in files && HasHit(md, f) ==> Raises(f)
    ensures !LimitNeverMatters(md, files)
  {
    var beyond := Longest(md, files) + 1;
    AtMostLongest(md, files);
    StatusIff(md, files, 1);
    StatusIff(md, files, beyond);
    assert Contributes(md, f, 1) && Status(md, files, 1) == 1;
    assert forall f :: f in files ==> !Contributes(md, f, beyond);
    assert Status(md, files, beyond) != 1;
  }

  lemma SameStatus(md: Scanner, files: seq<File>, max: int)
    requires Sound(md) && AllTerminate(files) && max >= 1
    ensures (exists f :: f in files && !Raises(f) && HasHit(md, f)) ==> Status(md, files, max) == 1
    ensures files != [] && (forall f :: f in files ==> !HasHit(md, f)) ==> Status(md, files, max) == 0
  {
    StatusIff(md, files, max);
    if exists f :: f in files && !Raises(f) && HasHit(md, f) {
      var f :| f in files && !Raises(f) && HasHit(md, f);
      assert Contributes(md, f, max);
    }
  }

  /** The limit never changes the verdict if and only if a file without an exception has a hit, or no file has one.
      A hit that precedes an exception counts only while the limit cuts the scan short of the exception. */
  lemma LimitNeverMattersIff(md: Scanner, files: seq<File>)
    requires Sound(md) && AllTerminate(files)
    ensures LimitNeverMatters(md, files) <==>
      || (exists f :: f in files && !Raises(f) && HasHit(md, f))
      || (forall f :: f in files ==> !HasHit(md, f))
  {
    if !(exists f :: f in files && !Raises(f) && HasHit(md, f)) && exists f :: f in files && HasHit(md, f) {
      var f :| f in files && HasHit(md, f);
      LimitMatters(md, files, f);
    } else {
      forall a: int, b: int | a >= 1 && b >= 1
        ensures Status(md, files, a) == Status(md, files, b)
      {
        SameStatus(md, files, a);
        SameStatus(md, files, b);
      }
    }
  }

  /** The most hits any of the files has. */
  ghost function Longest(md: Scanner, files: seq<File>): nat
    requires Sound(md) && AllTerminate(files)
  {
    if files == [] then 0 else
      var n, rest := |FileHits(md, files[0])|, Longest(md, files[1..]);
      if n > rest then n else rest
  }

  lemma {:induction false} AtMostLongest(md: Scanner, files: seq<File>)
    requires Sound(md) && AllTerminate(files)
    ensures forall f :: f in files ==> |FileHits(md, f)| <= Longest(md, files)
  {
    if files != [] {
      AtMostLongest(md, files[1..]);
      assert files == [files[0]] + files[1..];
    }
  }

  /** All hits of all files. */
  ghost function EveryHit(md: Scanner, files: seq<File>): seq<Hit>
    requires Sound(md) && AllTerminate(files)
  {
    if files == [] then [] else FileHits(md, files[0]) + EveryHit(md, files[1..])
  }

  /** When nothing raises, the hits listed (those within the limit) are the first `max` over all files. */
  lemma {:induction false} ListsFirstHits(md: Scanner, files: seq<File>, all: seq<Hit>, max: int)
    requires Sound(md) && AllTerminate(files) && max >= 1 && forall f :: f in files ==> !Raises(f)
    requires |all| < max
    ensures FirstN(AllHits(md, files, all, max), max) == FirstN(all + EveryHit(md, files), max)
    decreases |files|
  {
    if files != [] {
      var first, rest := FileHits(md, files[0]), EveryHit(md, files[1..]);
      FileTakes(md, files[0], max);
      Regroup(all, first, rest);
      FirstOfAppended(all + first, rest, max);
      if |all| + |first| >= max {
        FirstOfAppended(all, FirstN(first, max), max);
        FirstOfAppended(all, first, max);
      } else {
        ListsFirstHits(md, files[1..], all + first, max);
      }
    }
  }

  // Limits below one: the first object looked at counts as having reached them.

  /** The hits of an object's first section. */
  function FirstSectionHits(md: Scanner, from: Source, sections: seq<Coff.Section>): seq<Hit>
    requires Sound(md)
  {
    if sections == [] then [] else SectionHits(md, from, sections[0])
  }

  /** The hits of the first section of a file, or of the first member of an archive if that is an i386 object. */
  ghost function FirstHits(md: Scanner, f: File): seq<Hit>
    requires Sound(md) && Terminates(f)
  {
    match f
    case Unreadable => []
    case File(name, data) =>
      if !IsArchive(data) then FirstSectionHits(md, Source(name, None), Coff.CodeSectionsOf(data))
      else
        var members := Archive.WalkArchive(data).members;
        if members == [] || !IsI386(members[0].body) then []
        else FirstSectionHits(md, Source(name, Some(members[0].name)), Coff.CodeSectionsOf(members[0].body))
  }

  /** The file cannot be read, or its walk raises before the first member. */
  ghost predicate FailsAtOnce(f: File)
    requires Terminates(f)
  {
    Raises(f) && (f.File? ==> Archive.WalkArchive(f.data).members == [])
  }

  /** The first file that is scanned at all. */
  ghost function FirstScanned(files: seq<File>): (first: Option<File>)
    requires AllTerminate(files)
    ensures first.Some? ==> first.value in files
  {
    if files == [] then None else if FailsAtOnce(files[0]) then FirstScanned(files[1..]) else Some(files[0])
  }

  lemma FirstSectionOnly(md: Scanner, from: Source, sections: seq<Coff.Section>, max: int)
    requires Sound(md) && max <= 0
    ensures SectionsRecord(md, from, sections, [], max) == FirstN(FirstSectionHits(md, from, sections), 1)
  {
    if sections != [] {
      var hits := SectionHits(md, from, sections[0]);
      assert Record([], hits, max) == if hits == [] then [] else [] + [hits[0]];
    }
  }

  /** Under a limit below one a file's result is the first hit of its first section, if that has one. */
  lemma FileTakesOne(md: Scanner, f: File, max: int)
    requires Sound(md) && Terminates(f) && max <= 0
    ensures FileOutcome(md, f, max) == if FailsAtOnce(f) then Failed else Scanned(FirstN(FirstHits(md, f), 1))
  {
    if f.File? {
      if IsArchive(f.data) {
        var w := Archive.WalkArchive(f.data);
        if w.members != [] && IsI386(w.members[0].body) {
          var m := w.members[0];
          FirstSectionOnly(md, Source(f.name, Some(m.name)), Coff.CodeSectionsOf(m.body), max);
        }
      } else {
        FirstSectionOnly(md, Source(f.name, None), Coff.CodeSectionsOf(f.data), max);
      }
    }
  }

  /** Under such a limit the hits collected are at most one: the first of the first file scanned. */
  lemma {:induction false} FirstFileOnly(md: Scanner, files: seq<File>, max: int)
    requires Sound(md) && AllTerminate(files) && max <= 0
    ensures AllHits(md, files, [], max) ==
      if FirstScanned(files) == None then [] else FirstN(FirstHits(md, FirstScanned(files).value), 1)
    decreases |files|
  {
    if files != [] {
      FileTakesOne(md, files[0], max);
      if FailsAtOnce(files[0]) {
        FirstFileOnly(md, files[1..], max);
      }
    }
  }

  /** The exact verdict under a limit below one: the first file scanned decides, and in it the first section. */
  lemma {:induction false} StatusBelowOne(md: Scanner, files: seq<File>, max: int)
    requires Sound(md) && AllTerminate(files) && max <= 0
    ensures Status(md, files, max) == 2 <==> files == []
    ensures Status(md, files, max) == 1 <==>
      FirstScanned(files).Some? && FirstHits(md, FirstScanned(files).value) != []
  {
    FirstFileOnly(md, files, max);
  }

  lemma FirstHitIsHit(md: Scanner, f: File)
    requires Sound(md) && Terminates(f) && FirstHits(md, f) != []
    ensures FileHits(md, f) != []
  {
  }

  /** So a limit below one can hide hits, in a file or behind one, but never invents them. */
  lemma LimitBelowOneOnlyHides(md: Scanner, files: seq<File>, max: int)
    requires Sound(md) && AllTerminate(files) && max <= 0
    ensures Status(md, files, max) == 1 ==> Status(md, files, 1) == 1
  {
    StatusBelowOne(md, files, max);
    StatusIff(md, files, 1);
    if Status(md, files, max) == 1 {
      var f := FirstScanned(files).value;
      FirstHitIsHit(md, f);
      assert Contributes(md, f, 1);
    }
  }

  /** It hides within one file: a clean first section hides all later ones. */
  lemma LaterSectionsHidden(md: Scanner, f: File, max: int)
    requires Sound(md) && f.File? && !IsArchive(f.data) && FileHits(md, f) != []
    requires FirstSectionHits(md, Source(f.name, None), Coff.CodeSectionsOf(f.data)) == []
    ensures Status(md, [f], max) == if max <= 0 then 0 else 1
  {
    assert AllTerminate([f]);
    if max <= 0 {
      assert FirstScanned([f]) == Some(f);
      StatusBelowOne(md, [f], max);
    } else {
      assert f in [f] && Contributes(md, f, max);
      StatusIff(md, [f], max);
    }
  }
}
