/** The `ar` archive walker of tools/isa-scan.py. */
module Archive {
  import opened Prelude
  import opened Latin1

  const MAGIC: Text := [33, 60, 97, 114, 99, 104, 62, 10]
  const HEADER_SIZE: nat := 60

  const NAME_INDEX: Text := [47]
  const NAME_LONGNAMES: Text := [47, 47]
  const NAME_SYM64: Text := [47, 83, 89, 77, 54, 52, 47]
  const NAME_SYMDEF: Text := [95, 95, 46, 83, 89, 77, 68, 69, 70]
  const NAME_SYMDEF_SORTED: Text := NAME_SYMDEF + [32, 83, 79, 82, 84, 69, 68]

  datatype Member = Member(name: Text, body: Text)

  /** A member header whose size field is a number. */
  datatype Header = Header(name: Text, size: int)

  function SizeField(hdr: Text): Option<int> {
    var s := Strip(Slice(hdr, 48, 58));
    ParseInt(if s == [] then [ZERO] else s)
  }

  /** The fields of a header, unless its size is not a number. */
  function HeaderOf(hdr: Text): Option<Header> {
    match SizeField(hdr)
    case None => None
    case Some(size) => Some(Header(RStrip(Slice(hdr, 0, 16)), size))
  }

  /** How the walker reads a header, and names a member by its header and the long-name table. */
  datatype Format = Format(header: Text -> Option<Header>, named: (Text, Text) -> Option<Text>)

  /** How far a member moves the walk: its header, its body, and a byte of padding if its size is odd. */
  function Extent(size: int): int {
    HEADER_SIZE + size + size % 2
  }

  predicate IsIndexName(name: Text) {
    name == NAME_INDEX || name == NAME_LONGNAMES || name == NAME_SYM64
    || name == NAME_SYMDEF || name == NAME_SYMDEF_SORTED
  }

  predicate IsLongNameReference(name: Text, longNames: Text) {
    name != [] && name[0] == SLASH && IsDigitText(name[1..]) && longNames != []
  }

  function LongNameEnd(longNames: Text, o: nat): nat {
    match Find(longNames, NEWLINE, o)
    case Some(e) => e
    case None =>
      match Find(longNames, 0, o)
      case Some(e) => e
      case None => |longNames|
  }

  /** The name a member is reported under; None when int() rejects the digits. */
  function MemberName(name: Text, longNames: Text): Option<Text> {
    if IsLongNameReference(name, longNames) then
      DigitTextIsNatural(name[1..]);
      match ParseInt(name[1..])
      case None => None
      case Some(o) => Some(RStripSlash(Slice(longNames, o, LongNameEnd(longNames, o))))
    else
      Some(RStripSlash(name))
  }

  /** The one format there is; the walking below does not depend on its details. */
  const GNU: Format := Format(hdr => HeaderOf(hdr), (name, longNames) => MemberName(name, longNames))

  // The walk, by positions. A negative size moves it back, and slices of negative positions count from the end.

  /** How a walk ends: off the end or at a bad size field, or in a ValueError. */
  datatype End = Finished | Raised

  datatype Walked = Walked(members: seq<Member>, end: End)

  /** What one turn of the loop does, and how far it moves. */
  datatype Turn = Ends(end: End) | Skips(extent: int, longNames: Text) | Yields(member: Member, yieldExtent: int)

  /** The loop body, once the header's fields and the body have been cut out. */
  function TurnOf(f: Format, name: Text, size: int, body: Text, longNames: Text): Turn {
    if IsIndexName(name) then
      Skips(Extent(size), if name == NAME_LONGNAMES then body else longNames)
    else
      match f.named(name, longNames)
      case None => Ends(Raised)
      case Some(memberName) => Yields(Member(memberName, body), Extent(size))
  }

  /** The header at a position. */
  function HeaderAt(f: Format, data: Text, p: int): Option<Header> {
    if p + HEADER_SIZE > |data| then None else f.header(PySlice(data, p, p + HEADER_SIZE))
  }

  /** The turn at a position. */
  function TurnAt(f: Format, data: Text, p: int, longNames: Text): Turn {
    match HeaderAt(f, data, p)
    case None => Ends(Finished)
    case Some(Header(name, size)) =>
      TurnOf(f, name, size, PySlice(data, p + HEADER_SIZE, p + HEADER_SIZE + size), longNames)
  }

  /** How far a turn moves, and what name table it leaves. */
  function MovedBy(turn: Turn): int {
    if turn.Skips? then turn.extent else if turn.Yields? then turn.yieldExtent else 0
  }

  function TableAfter(turn: Turn, longNames: Text): Text {
    if turn.Skips? then turn.longNames else longNames
  }

  /** What a turn adds in front of the rest of the walk. */
  function Before(turn: Turn, later: Walked): Walked {
    if turn.Ends? then Walked([], turn.end)
    else if turn.Yields? then Walked([turn.member] + later.members, later.end)
    else later
  }

  /** The walk from a position ends within so many turns. */
  predicate EndsWithin(f: Format, data: Text, p: int, longNames: Text, turns: nat)
    decreases turns
  {
    var turn := TurnAt(f, data, p, longNames);
    turn.Ends? ||
    (turns > 0 && EndsWithin(f, data, p + MovedBy(turn), TableAfter(turn, longNames), turns - 1))
  }

  /** Everything a walk that ends reports, and how it ends. */
  function WalkFrom(f: Format, data: Text, p: int, longNames: Text, turns: nat): Walked
    requires EndsWithin(f, data, p, longNames, turns)
    decreases turns
  {
    var turn := TurnAt(f, data, p, longNames);
    if turn.Ends? then Walked([], turn.end)
    else Before(turn, WalkFrom(f, data, p + MovedBy(turn), TableAfter(turn, longNames), turns - 1))
  }

  /** A wider bound changes nothing. */
  lemma {:induction false} BoundIsNoMatter(f: Format, data: Text, p: int, longNames: Text, turns: nat, turns': nat)
    requires EndsWithin(f, data, p, longNames, turns) && turns <= turns'
    ensures EndsWithin(f, data, p, longNames, turns')
    ensures WalkFrom(f, data, p, longNames, turns') == WalkFrom(f, data, p, longNames, turns)
    decreases turns
  {
    var turn := TurnAt(f, data, p, longNames);
    if !turn.Ends? {
      BoundIsNoMatter(f, data, p + MovedBy(turn), TableAfter(turn, longNames), turns - 1, turns' - 1);
    }
  }

  /** The walk from a position ends. */
  ghost predicate EndsFrom(f: Format, data: Text, p: int, longNames: Text) {
    exists turns: nat :: EndsWithin(f, data, p, longNames, turns)
  }

  ghost function WalkOf(f: Format, data: Text, p: int, longNames: Text): Walked
    requires EndsFrom(f, data, p, longNames)
  {
    var turns: nat :| EndsWithin(f, data, p, longNames, turns);
    WalkFrom(f, data, p, longNames, turns)
  }

  lemma WalkOfIs(f: Format, data: Text, p: int, longNames: Text, turns: nat)
    requires EndsWithin(f, data, p, longNames, turns)
    ensures EndsFrom(f, data, p, longNames) && WalkOf(f, data, p, longNames) == WalkFrom(f, data, p, longNames, turns)
  {
    var any: nat :| EndsWithin(f, data, p, longNames, any) && WalkOf(f, data, p, longNames) == WalkFrom(f, data, p, longNames, any);
    BoundIsNoMatter(f, data, p, longNames, turns, turns + any);
    BoundIsNoMatter(f, data, p, longNames, any, turns + any);
  }

  /** The walk of an archive, from behind its magic. */
  ghost predicate WalkEnds(data: Text) {
    EndsFrom(GNU, data, |MAGIC|, [])
  }

  ghost function WalkArchive(data: Text): Walked
    requires WalkEnds(data)
  {
    WalkOf(GNU, data, |MAGIC|, [])
  }

  // When the walk ends.

  /** A member moves the walk nowhere for two sizes. */
  lemma StallsIff(size: int)
    ensures Extent(size) == 0 <==> size == -60 || size == -61
    ensures Extent(size) > 0 <==> size > -60
  {
  }

  /** A member of such a size is met again and again, unless its name raises. */
  lemma {:induction false} StalledWalkNeverEnds(f: Format, data: Text, p: int, longNames: Text, name: Text, size: int, turns: nat)
    requires HeaderAt(f, data, p) == Some(Header(name, size)) && (size == -60 || size == -61)
    requires IsIndexName(name) || f.named(name, longNames).Some?
    ensures !EndsWithin(f, data, p, longNames, turns)
    decreases turns
  {
    var turn := TurnAt(f, data, p, longNames);
    StallsIff(size);
    if turns > 0 {
      StalledWalkNeverEnds(f, data, p, TableAfter(turn, longNames), name, size, turns - 1);
    }
  }

  // Walks that only go forward, read off the unread part alone.

  /** The header that the unread part of an archive starts with. */
  function ReadHeader(f: Format, rest: Text): Option<Header> {
    if HEADER_SIZE > |rest| then None else f.header(rest[..HEADER_SIZE])
  }

  /** What a turn does with the unread part. */
  function TakeTurn(f: Format, rest: Text, longNames: Text): Turn {
    match ReadHeader(f, rest)
    case None => Ends(Finished)
    case Some(Header(name, size)) =>
      TurnOf(f, name, size, Slice(rest, HEADER_SIZE, HEADER_SIZE + size), longNames)
  }

  /** Every size field on the way is above minus sixty. */
  ghost predicate SizesAllowProgress(f: Format, rest: Text)
    decreases |rest|
  {
    match ReadHeader(f, rest)
    case None => true
    case Some(Header(_, size)) => size > -60 && SizesAllowProgress(f, Drop(rest, Extent(size)))
  }

  /** The walk over the unread part, as long as it goes forward; None where it does not. */
  function Walk(f: Format, rest: Text, longNames: Text): Option<Walked>
    decreases |rest|
  {
    var turn := TakeTurn(f, rest, longNames);
    if turn.Ends? then Some(Walked([], turn.end))
    else if MovedBy(turn) <= 0 || rest == [] then None
    else
      match Walk(f, Drop(rest, MovedBy(turn)), TableAfter(turn, longNames))
      case None => None
      case Some(later) => Some(Before(turn, later))
  }

  lemma SliceOfDrop(s: Text, p: nat, a: nat, b: int)
    ensures Slice(Drop(s, p), a, b) == Slice(s, p + a, p + b)
  {
  }

  lemma DropTwice(s: Text, p: nat, n: nat)
    ensures Drop(Drop(s, p), n) == Drop(s, p + n)
  {
  }

  lemma HeaderOfRest(f: Format, data: Text, p: nat)
    ensures ReadHeader(f, Drop(data, p)) == HeaderAt(f, data, p)
  {
    if p + HEADER_SIZE <= |data| {
      assert Drop(data, p)[..HEADER_SIZE] == data[p..p + HEADER_SIZE] == PySlice(data, p, p + HEADER_SIZE);
    }
  }

  /** Where a member moves forward, or ends the walk, its turn can be read off the unread part. */
  lemma TurnOfRest(f: Format, data: Text, p: nat, longNames: Text)
    ensures
      var turn := TakeTurn(f, Drop(data, p), longNames);
      turn.Ends? || MovedBy(turn) > 0 ==> turn == TurnAt(f, data, p, longNames)
  {
    HeaderOfRest(f, data, p);
    match HeaderAt(f, data, p) {
      case None =>
      case Some(Header(_, size)) =>
        StallsIff(size);
        SliceOfDrop(data, p, HEADER_SIZE, HEADER_SIZE + size);
    }
  }

  lemma TurnMoves(f: Format, rest: Text, longNames: Text)
    ensures
      var header, turn := ReadHeader(f, rest), TakeTurn(f, rest, longNames);
      && (header.None? ==> turn.Ends?)
      && (!turn.Ends? ==> MovedBy(turn) == Extent(header.value.size) && |rest| >= HEADER_SIZE)
  {
  }

  lemma WalkSkips(f: Format, rest: Text, longNames: Text, extent: int, table: Text)
    requires TakeTurn(f, rest, longNames) == Skips(extent, table) && extent > 0
    ensures Walk(f, rest, longNames) == Walk(f, Drop(rest, extent), table)
  {
    TurnMoves(f, rest, longNames);
  }

  lemma WalkYields(f: Format, rest: Text, longNames: Text, m: Member, extent: int, later: Walked)
    requires TakeTurn(f, rest, longNames) == Yields(m, extent) && extent > 0
    requires Walk(f, Drop(rest, extent), longNames) == Some(later)
    ensures Walk(f, rest, longNames) == Some(Walked([m] + later.members, later.end))
  {
    TurnMoves(f, rest, longNames);
  }

  /** With sizes above minus sixty the walk goes forward all the way. */
  lemma {:induction false} ProgressIsForward(f: Format, rest: Text, longNames: Text)
    requires SizesAllowProgress(f, rest)
    ensures Walk(f, rest, longNames).Some?
    decreases |rest|
  {
    var turn := TakeTurn(f, rest, longNames);
    TurnMoves(f, rest, longNames);
    if !turn.Ends? {
      StallsIff(ReadHeader(f, rest).value.size);
      ProgressIsForward(f, Drop(rest, MovedBy(turn)), TableAfter(turn, longNames));
    }
  }

  /** The forward reading is the walk. */
  lemma {:induction false} ForwardIsWalk(f: Format, data: Text, p: nat, longNames: Text)
    requires Walk(f, Drop(data, p), longNames).Some?
    ensures EndsWithin(f, data, p, longNames, |Drop(data, p)|)
    ensures WalkFrom(f, data, p, longNames, |Drop(data, p)|) == Walk(f, Drop(data, p), longNames).value
    decreases |Drop(data, p)|
  {
    var rest := Drop(data, p);
    var turn := TakeTurn(f, rest, longNames);
    TurnOfRest(f, data, p, longNames);
    if !turn.Ends? {
      var next, table := p + MovedBy(turn), TableAfter(turn, longNames);
      DropTwice(data, p, MovedBy(turn));
      ForwardIsWalk(f, data, next, table);
      BoundIsNoMatter(f, data, next, table, |Drop(data, next)|, |rest| - 1);
    }
  }

  /** The walk ends if every size field on the way is above minus sixty. */
  lemma WalkProgresses(f: Format, data: Text, p: nat, longNames: Text)
    requires SizesAllowProgress(f, Drop(data, p))
    ensures EndsFrom(f, data, p, longNames)
    ensures Some(WalkOf(f, data, p, longNames)) == Walk(f, Drop(data, p), longNames)
  {
    ProgressIsForward(f, Drop(data, p), longNames);
    ForwardIsWalk(f, data, p, longNames);
    WalkOfIs(f, data, p, longNames, |Drop(data, p)|);
  }

  // The program.

  datatype Item = Yield(member: Member) | Stop | Raise

  /** The generator. While its walk ends, what it has still to report is a function of its position and name table;
      the bound on the turns left is for the proof. */
  class Walker {
    const f: Format
    const data: Text
    var p: int
    var longNames: Text
    ghost var turns: nat

    ghost predicate Valid()
      reads this
    {
      EndsWithin(f, data, p, longNames, turns)
    }

    ghost function Remaining(): Walked
      requires Valid()
      reads this
    {
      WalkFrom(f, data, p, longNames, turns)
    }

    constructor (data: Text)
      requires MAGIC <= data && WalkEnds(data)
      ensures this.data == data && Valid() && Remaining() == WalkArchive(data)
    {
      this.f, this.data := GNU, data;
      p := |MAGIC|;
      longNames := [];
      ghost var bound: nat :| EndsWithin(GNU, data, |MAGIC|, [], bound);
      WalkOfIs(GNU, data, |MAGIC|, [], bound);
      turns := bound;
    }

    /** The loop body below the size field: moves on, and skips or names the member. */
    method Dispatch(name: Text, size: int, body: Text) returns (turn: Turn)
      modifies `p, `longNames
      ensures turn == TurnOf(f, name, size, body, old(longNames))
      ensures p == old(p) + Extent(size) && longNames == TableAfter(turn, old(longNames))
    {
      p := p + HEADER_SIZE + size + size % 2;
      if IsIndexName(name) {
        if name == NAME_LONGNAMES {
          longNames := body;
        }
        return Skips(Extent(size), longNames);
      }
      match f.named(name, longNames) {
        case None => return Ends(Raised);
        case Some(memberName) => return Yields(Member(memberName, body), Extent(size));
      }
    }

    /** One pass through the loop body: reads a header, moves on, and says what came of it. */
    method Pass() returns (turn: Turn)
      requires p + HEADER_SIZE <= |data|
      modifies `p, `longNames
      ensures turn == old(TurnAt(f, data, p, longNames))
      ensures !turn.Ends? ==> p == old(p) + MovedBy(turn) && longNames == TableAfter(turn, old(longNames))
    {
      match f.header(PySlice(data, p, p + HEADER_SIZE)) {
        case None => turn := Ends(Finished);
        case Some(Header(name, size)) =>
          turn := Dispatch(name, size, PySlice(data, p + HEADER_SIZE, p + HEADER_SIZE + size));
      }
    }

    /** Runs the generator to its next yield, its return, or its exception. */
    method Next() returns (item: Item)
      requires Valid()
      modifies this
      ensures item.Yield? ==> Valid()
      ensures match item
        case Yield(m) => old(Remaining()) == Walked([m] + Remaining().members, Remaining().end)
        case Stop => old(Remaining()) == Walked([], Finished)
        case Raise => old(Remaining()) == Walked([], Raised)
    {
      ghost var before := Remaining();
      while p + HEADER_SIZE <= |data|
        invariant Valid() && Remaining() == before
        decreases turns
      {
        var turn := Pass();
        match turn {
          case Ends(end) => return if end == Raised then Raise else Stop;
          case Skips(_, _) =>
            turns := turns - 1;
          case Yields(m, _) =>
            turns := turns - 1;
            return Yield(m);
        }
      }
      return Stop;
    }
  }
}
