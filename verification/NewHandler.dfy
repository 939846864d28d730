/** The allocation loop of libs/libcpp/operator_new_delete.cpp, and the new-handler it calls. */
module NewHandler {
  import opened Prelude

  /** A non-null address. */
  type Address = x: nat | x > 0 witness 1

  /** The C library and the program's handler, as functions of a state of type S; the handler's second result tells
      whether it returned rather than left by an exception. */
  datatype System<!S> = System(malloc: (S, nat) -> (S, Option<Address>), installed: S -> bool, handle: S -> (S, bool),
                               exceptions: bool)

  datatype Event = Attempt(size: nat, ok: bool) | HandlerCall

  datatype End = Block(address: Address) | BadAlloc | Aborted | HandlerLeft

  datatype Run<S> = Run(events: seq<Event>, end: End, final: S)

  function Failure(sys: System): End {
    if sys.exceptions then BadAlloc else Aborted
  }

  /** Every call of the handler lowers a rank of the state or leaves no handler installed; malloc installs none. */
  ghost predicate Progresses<S(!new)>(sys: System<S>, n: nat, rank: S -> nat) {
    && (forall s :: sys.installed(sys.malloc(s, n).0) == sys.installed(s))
    && (forall s ::
          var after := sys.handle(sys.malloc(s, n).0);
          sys.malloc(s, n).1.None? && sys.installed(s) && after.1 ==> rank(after.0) < rank(s) || !sys.installed(after.0))
  }

  /** How many more handler calls a state allows at most. */
  function Budget<S>(sys: System<S>, rank: S -> nat, s: S): nat {
    if sys.installed(s) then rank(s) + 1 else 0
  }

  /** One attempt, and what follows when it fails and a handler returns. */
  function Allocation<S(!new)>(sys: System<S>, n: nat, rank: S -> nat, s: S): Run<S>
    requires Progresses(sys, n, rank)
    decreases Budget(sys, rank, s)
  {
    var (s1, p) := sys.malloc(s, n);
    if p.Some? then Run([Attempt(n, true)], Block(p.value), s1)
    else if !sys.installed(s1) then Run([Attempt(n, false)], Failure(sys), s1)
    else
      var (s2, returned) := sys.handle(s1);
      if !returned then Run([Attempt(n, false), HandlerCall], HandlerLeft, s2)
      else
        var later := Allocation(sys, n, rank, s2);
        Run([Attempt(n, false), HandlerCall] + later.events, later.end, later.final)
  }

  /** The program's state, and what has happened to it. */
  class Program<S(!new)> {
    const sys: System<S>
    var state: S
    ghost var events: seq<Event>

    constructor (sys: System<S>, state: S)
      ensures this.sys == sys && this.state == state && events == []
    {
      this.sys, this.state := sys, state;
      events := [];
    }

    /** rxdk_allocate. Every attempt is for the size asked for, or for one byte when that is zero, and a block answers
        such an attempt. */
    method Allocate(size: nat, ghost rank: S -> nat) returns (end: End)
      requires Progresses(sys, if size > 0 then size else 1, rank)
      modifies this
      ensures end == Allocation(sys, if size > 0 then size else 1, rank, old(state)).end
      ensures state == Allocation(sys, if size > 0 then size else 1, rank, old(state)).final
      ensures events == old(events) + Allocation(sys, if size > 0 then size else 1, rank, old(state)).events
      ensures |old(events)| < |events| && events[..|old(events)|] == old(events)
      ensures
        var added := events[|old(events)|..];
        && (size > 0 ==> Alternates(added, size) && EndsWith(added, size, end))
        && (size == 0 ==> Alternates(added, 1) && EndsWith(added, 1, end))
    {
      var n := if size == 0 then 1 else size;
      ghost var all := Allocation(sys, n, rank, state);
      RunFollowsProtocol(sys, n, rank, state);
      while true
        invariant all.end == Allocation(sys, n, rank, state).end && all.final == Allocation(sys, n, rank, state).final
        invariant events + Allocation(sys, n, rank, state).events == old(events) + all.events
        decreases Budget(sys, rank, state)
      {
        ghost var here := Allocation(sys, n, rank, state);
        ghost var before := events;
        var (s1, p) := sys.malloc(state, n);
        state := s1;
        events := events + [Attempt(n, p.Some?)];
        if p.Some? {
          return Block(p.value);
        }
        if !sys.installed(state) {
          return if sys.exceptions then BadAlloc else Aborted;
        }
        var (s2, returned) := sys.handle(state);
        state := s2;
        events := events + [HandlerCall];
        assert events == before + [Attempt(n, false), HandlerCall];
        if !returned {
          return HandlerLeft;
        }
        Regroup(before, [Attempt(n, false), HandlerCall], Allocation(sys, n, rank, state).events);
      }
    }
  }

  /** Attempts for n bytes at the even places, handler calls between them, and no success but at the end. */
  ghost predicate Alternates(events: seq<Event>, n: nat) {
    && (forall i | 0 <= i < |events| && i % 2 == 0 :: events[i].Attempt? && events[i].size == n)
    && (forall i | 0 <= i < |events| && i % 2 == 1 :: events[i].HandlerCall?)
    && (forall i | 0 <= i < |events| - 1 && i % 2 == 0 :: !events[i].ok)
  }

  /** What the last event is, by the end of the run. */
  predicate EndsWith(events: seq<Event>, n: nat, end: End) {
    events != [] &&
    events[|events| - 1] ==
      match end
      case Block(_) => Attempt(n, true)
      case BadAlloc => Attempt(n, false)
      case Aborted => Attempt(n, false)
      case HandlerLeft => HandlerCall
  }

  /**
   * Every run is a failed attempt and one handler call, over and over, up to an end: a block right after a
   * successful attempt, or a failure right after a failed attempt with no handler installed. The rank bounds the
   * number of handler calls.
   */
  lemma {:induction false} RunFollowsProtocol<S(!new)>(sys: System<S>, n: nat, rank: S -> nat, s: S)
    requires Progresses(sys, n, rank)
    ensures
      var r := Allocation(sys, n, rank, s);
      && Alternates(r.events, n) && EndsWith(r.events, n, r.end)
      && (r.end.BadAlloc? ==> sys.exceptions && !sys.installed(r.final))
      && (r.end.Aborted? ==> !sys.exceptions && !sys.installed(r.final))
      && |r.events| <= 2 * Budget(sys, rank, s) + 1
    decreases Budget(sys, rank, s)
  {
    var (s1, p) := sys.malloc(s, n);
    if p.None? && sys.installed(s1) {
      var (s2, returned) := sys.handle(s1);
      if returned {
        RunFollowsProtocol(sys, n, rank, s2);
        var later := Allocation(sys, n, rank, s2).events;
        var events := [Attempt(n, false), HandlerCall] + later;
        assert forall i | 2 <= i < |events| :: events[i] == later[i - 2];
        assert Allocation(sys, n, rank, s).events == events;
      }
    }
  }

  /** The nothrow form of the compiler's own name: a single attempt, whatever handler is installed. */
  function NothrowNew<S>(sys: System<S>, size: nat, s: S): (S, Option<Address>) {
    sys.malloc(s, if size != 0 then size else 1)
  }

  /** It returns a block exactly when the throwing form would return one for its first attempt, which is for the size
      asked for or one byte, and then the same one; so it differs from that form, caught, exactly when a handler would
      have helped. */
  lemma NothrowIgnoresHandler<S(!new)>(sys: System<S>, size: nat, rank: S -> nat, s: S)
    requires Progresses(sys, if size > 0 then size else 1, rank)
    ensures
      var r, q := Allocation(sys, if size > 0 then size else 1, rank, s), NothrowNew(sys, size, s).1;
      && (q.Some? <==> r.events == [Attempt(if size > 0 then size else 1, true)])
      && (q.Some? ==> r.end == Block(q.value))
      && (q.None? && r.end.Block? <==> r.end.Block? && |r.events| > 1)
  {
  }
}
