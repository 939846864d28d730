/** The scan of objects, archives and file lists in tools/isa-scan.py, with the hit limit threaded through it. */
module IsaScan {
  import opened Prelude
  import opened Latin1
  import opened Sweep
  import Archive
  import Coff

  const I386: Text := [0x4C, 0x01]

  /** An input file; its name is the base name that labels carry. */
  datatype File = Unreadable | File(name: Text, data: Text)

  /** What scanning a file comes to: its hits, or an exception. */
  datatype Outcome = Scanned(hits: seq<Hit>) | Failed

  /** An object to sweep: a file, or a member of one. */
  datatype Source = Source(file: Text, member: Option<Text>)

  // The hits there are, whatever the limit.

  function SectionHits(md: Scanner, from: Source, s: Coff.Section): seq<Hit>
    requires Sound(md)
  {
    Hits(md, Place(from.file, from.member, s.name), s.vaddr, s.code, 0)
  }

  function ObjectHits(md: Scanner, from: Source, sections: seq<Coff.Section>): seq<Hit>
    requires Sound(md)
  {
    if sections == [] then [] else SectionHits(md, from, sections[0]) + ObjectHits(md, from, sections[1..])
  }

  predicate IsI386(body: Text) {
    I386 <= body
  }

  /** Members of other machines are passed over. */
  function MemberHits(md: Scanner, file: Text, m: Archive.Member): seq<Hit>
    requires Sound(md)
  {
    if IsI386(m.body) then ObjectHits(md, Source(file, Some(m.name)), Coff.CodeSectionsOf(m.body)) else []
  }

  function ArchiveHits(md: Scanner, file: Text, members: seq<Archive.Member>): seq<Hit>
    requires Sound(md)
  {
    if members == [] then [] else MemberHits(md, file, members[0]) + ArchiveHits(md, file, members[1..])
  }

  predicate IsArchive(data: Text) {
    Archive.MAGIC <= data
  }

  /** The walk of the file, if it is an archive, ends. */
  ghost predicate Terminates(f: File) {
    f.File? && IsArchive(f.data) ==> Archive.WalkEnds(f.data)
  }

  ghost predicate AllTerminate(files: seq<File>) {
    forall f <- files :: Terminates(f)
  }

  /** All hits of a file, up to its exception if it has one. */
  ghost function FileHits(md: Scanner, f: File): seq<Hit>
    requires Sound(md) && Terminates(f)
  {
    match f
    case Unreadable => []
    case File(name, data) =>
      if IsArchive(data) then ArchiveHits(md, name, Archive.WalkArchive(data).members)
      else ObjectHits(md, Source(name, None), Coff.CodeSectionsOf(data))
  }

  /** Reading or walking the whole file ends in an exception. */
  ghost predicate Raises(f: File)
    requires Terminates(f)
  {
    f.Unreadable? || (IsArchive(f.data) && Archive.WalkArchive(f.data).end == Archive.Raised)
  }

  // What is recorded under a limit.

  function SectionsRecord(md: Scanner, from: Source, sections: seq<Coff.Section>, out: seq<Hit>, max: int): seq<Hit>
    requires Sound(md)
    decreases |sections|
  {
    if sections == [] then out else
      var now := Record(out, SectionHits(md, from, sections[0]), max);
      if |now| >= max then now else SectionsRecord(md, from, sections[1..], now, max)
  }

  function MemberRecord(md: Scanner, file: Text, m: Archive.Member, out: seq<Hit>, max: int): seq<Hit>
    requires Sound(md)
  {
    if IsI386(m.body) then SectionsRecord(md, Source(file, Some(m.name)), Coff.CodeSectionsOf(m.body), out, max) else out
  }

  function WalkedRecord(md: Scanner, file: Text, w: Archive.Walked, out: seq<Hit>, max: int): Outcome
    requires Sound(md)
    decreases |w.members|
  {
    if w.members == [] then (if w.end == Archive.Raised then Failed else Scanned(out)) else
      var now := MemberRecord(md, file, w.members[0], out, max);
      if |now| >= max then Scanned(now)
      else WalkedRecord(md, file, Archive.Walked(w.members[1..], w.end), now, max)
  }

  ghost function FileOutcome(md: Scanner, f: File, max: int): Outcome
    requires Sound(md) && Terminates(f)
  {
    match f
    case Unreadable => Failed
    case File(name, data) =>
      if IsArchive(data) then WalkedRecord(md, name, Archive.WalkArchive(data), [], max)
      else Scanned(SectionsRecord(md, Source(name, None), Coff.CodeSectionsOf(data), [], max))
  }

  /** The hits collected over the files, stopping once they reach the limit. */
  ghost function AllHits(md: Scanner, files: seq<File>, all: seq<Hit>, max: int): seq<Hit>
    requires Sound(md) && AllTerminate(files)
    decreases |files|
  {
    if files == [] then all else
      match FileOutcome(md, files[0], max)
      case Failed => AllHits(md, files[1..], all, max)
      case Scanned(hits) => if |all + hits| >= max then all + hits else AllHits(md, files[1..], all + hits, max)
  }

  /** The exit status. */
  ghost function Status(md: Scanner, files: seq<File>, max: int): int
    requires Sound(md) && AllTerminate(files)
  {
    if files == [] then 2 else if AllHits(md, files, [], max) != [] then 1 else 0
  }

  // The program.

  method ScanObject(md: Scanner, data: Text, from: Source, out: HitList, maxHits: int)
    requires Sound(md)
    modifies out
    ensures out.items == SectionsRecord(md, from, Coff.CodeSectionsOf(data), old(out.items), maxHits)
  {
    var sections := Coff.CodeSections(data);
    ghost var goal := SectionsRecord(md, from, sections, out.items, maxHits);
    var i := 0;
    while i < |sections|
      invariant i <= |sections| && SectionsRecord(md, from, sections[i..], out.items, maxHits) == goal
    {
      var s := sections[i];
      ScanBytes(md, Place(from.file, from.member, s.name), s.vaddr, s.code, out, maxHits);
      assert sections[i..][1..] == sections[i + 1..];
      if |out.items| >= maxHits {
        return;
      }
      i := i + 1;
    }
  }

  method ScanArchive(md: Scanner, file: Text, data: Text, out: HitList, maxHits: int) returns (ok: bool)
    requires Sound(md) && IsArchive(data) && Archive.WalkEnds(data)
    modifies out
    ensures (if ok then Scanned(out.items) else Failed)
      == WalkedRecord(md, file, Archive.WalkArchive(data), old(out.items), maxHits)
  {
    ghost var goal := WalkedRecord(md, file, Archive.WalkArchive(data), out.items, maxHits);
    var members := new Archive.Walker(data);
    ghost var left := |members.Remaining().members|;
    while true
      invariant fresh(members) && members.Valid() && left == |members.Remaining().members|
      invariant WalkedRecord(md, file, members.Remaining(), out.items, maxHits) == goal
      decreases left
    {
      ghost var before := members.Remaining();
      var item := members.Next();
      match item {
        case Stop => return true;
        case Raise => return false;
        case Yield(m) =>
          WalkedUnfold(md, file, before, m, members.Remaining(), out.items, maxHits);
          if IsI386(m.body) {
            ScanObject(md, m.body, Source(file, Some(m.name)), out, maxHits);
          }
          if |out.items| >= maxHits {
            return true;
          }
          left := |members.Remaining().members|;
      }
    }
  }

  lemma WalkedUnfold(md: Scanner, file: Text, w: Archive.Walked, m: Archive.Member, later: Archive.Walked,
      out: seq<Hit>, max: int)
    requires Sound(md) && w == Archive.Walked([m] + later.members, later.end)
    ensures
      var now := MemberRecord(md, file, m, out, max);
      WalkedRecord(md, file, w, out, max) ==
        if |now| >= max then Scanned(now) else WalkedRecord(md, file, later, now, max)
  {
    assert w.members[1..] == later.members;
  }

  method ScanFile(md: Scanner, f: File, out: HitList, maxHits: int) returns (ok: bool)
    requires Sound(md) && Terminates(f) && out.items == []
    modifies out
    ensures (if ok then Scanned(out.items) else Failed) == FileOutcome(md, f, maxHits)
  {
    match f {
      case Unreadable => return false;
      case File(name, data) =>
        if IsArchive(data) {
          ok := ScanArchive(md, name, data, out, maxHits);
        } else {
          ScanObject(md, data, Source(name, None), out, maxHits);
          ok := true;
        }
    }
  }

  lemma AllHitsUnfold(md: Scanner, files: seq<File>, i: nat, all: seq<Hit>, max: int)
    requires Sound(md) && AllTerminate(files) && i < |files|
    ensures
      var outcome := FileOutcome(md, files[i], max);
      AllHits(md, files[i..], all, max) ==
        if outcome == Failed then AllHits(md, files[i + 1..], all, max)
        else if |all + outcome.hits| >= max then all + outcome.hits
        else AllHits(md, files[i + 1..], all + outcome.hits, max)
  {
    assert files[i..][1..] == files[i + 1..];
  }

  /** The verdict over all files: the exit status, and the hits it lists. */
  method Verdict(md: Scanner, files: seq<File>, max: int) returns (status: int, allHits: seq<Hit>)
    requires Sound(md) && AllTerminate(files)
    ensures status == Status(md, files, max) && allHits == AllHits(md, files, [], max)
  {
    allHits := [];
    if files == [] {
      return 2, [];
    }
    var i := 0;
    while i < |files|
      invariant i <= |files| && AllHits(md, files[i..], allHits, max) == AllHits(md, files, [], max)
    {
      var hits := new HitList();
      var ok := ScanFile(md, files[i], hits, max);
      AllHitsUnfold(md, files, i, allHits, max);
      if ok {
        allHits := allHits + hits.items;
        if |allHits| >= max {
          break;
        }
      }
      i := i + 1;
    }
    status := if allHits != [] then 1 else 0;
  }
}
