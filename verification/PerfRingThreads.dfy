/**
 * Headers inserted into the event ring by several threads, and from interrupts. Each insert takes four steps: it
 * sees that counting is on, takes a ticket by the interlocked increment, locates its slot, and writes it.
 */
module PerfRingThreads {
  import opened Direct3DTypes
  import opened PerfRing

  /** How far a thread has got with an insert. */
  datatype Phase =
    | Idle
    | Checked(text: CString)
    | Ticketed(text: CString, ticket: nat)
    | Located(text: CString, ticket: nat, block: nat, slot: nat)

  /**
   * The block is told from earlier ones by its number. `base` is what it held at the last start, and `claimed` the
   * headers that took a ticket since; its length is the counter. `stray` is set by a write outside the current block,
   * and `trapped` by a division by zero.
   */
  datatype State = State(block: nat, ring: seq<Event>, count: nat, claimed: seq<CString>, base: seq<Event>,
                         phases: seq<Phase>, stray: bool, trapped: bool)

  datatype Action =
    | Check(thread: nat, text: CString)
    | Ticket(thread: nat)
    | Locate(thread: nat)
    | Write(thread: nat)
    | Restart(size: nat, granted: bool)

  function PhaseOf(s: State, t: nat): Phase {
    if t < |s.phases| then s.phases[t] else Idle
  }

  function SlotIn(s: State, ticket: nat): nat
    requires s.count > 0
  {
    SlotOf(ticket, s.count)
  }

  /** D3DPERF_StartCountingPerfEvent, with a size whose byte count does not wrap. */
  function Restarted(s: State, size: nat, granted: bool): State {
    if size == 0 then s.(count := 0, claimed := [], base := s.ring)
    else if size == s.count then s.(claimed := [], base := s.ring)
    else
      var ring := if granted then seq(size, _ => CLEARED) else [];
      s.(block := s.block + 1, ring := ring, count := |ring|, claimed := [], base := ring)
  }

  /** A write through the pointer that the thread located. */
  function Written(s: State, p: Phase): State
    requires p.Located?
  {
    if p.block == s.block && p.slot < |s.ring| then s.(ring := s.ring[p.slot := Header(p.text)]) else s.(stray := true)
  }

  /** One action; an action that the thread is not ready for does nothing. */
  function Step(s: State, a: Action): State {
    match a
    case Check(t, text) =>
      if t < |s.phases| && s.phases[t].Idle? && s.count > 0 then s.(phases := s.phases[t := Checked(text)]) else s
    case Ticket(t) =>
      if PhaseOf(s, t).Checked? then
        var text := s.phases[t].text;
        s.(phases := s.phases[t := Ticketed(text, |s.claimed|)], claimed := s.claimed + [text])
      else s
    case Locate(t) =>
      if PhaseOf(s, t).Ticketed? then
        var Ticketed(text, ticket) := s.phases[t];
        if s.count == 0 then s.(trapped := true)
        else s.(phases := s.phases[t := Located(text, ticket, s.block, SlotIn(s, ticket))])
      else s
    case Write(t) =>
      if PhaseOf(s, t).Located? then Written(s, s.phases[t]).(phases := s.phases[t := Idle]) else s
    case Restart(size, granted) => Restarted(s, size, granted)
  }

  function Run(s: State, actions: seq<Action>): State
    decreases |actions|
  {
    if actions == [] then s else Run(Step(s, actions[0]), actions[1..])
  }

  ghost predicate AllIdle(s: State) {
    forall t :: 0 <= t < |s.phases| ==> s.phases[t].Idle?
  }

  /** Restarts happen only while no insert is under way, as the comment on the function demands. */
  ghost predicate RestartsWhenIdle(s: State, actions: seq<Action>)
    decreases |actions|
  {
    actions != [] ==>
      (actions[0].Restart? ==> AllIdle(s)) && RestartsWhenIdle(Step(s, actions[0]), actions[1..])
  }

  predicate Holds(p: Phase) {
    p.Ticketed? || p.Located?
  }

  // Safety.

  /** An insert under way: its ticket was given to its header, and its pointer is to its slot of the current block. */
  predicate PhaseSafe(s: State, p: Phase) {
    && (!p.Idle? ==> s.count > 0)
    && (Holds(p) ==> p.ticket < |s.claimed| && s.claimed[p.ticket] == p.text)
    && (p.Located? ==> s.count > 0 && p.block == s.block && p.slot == SlotIn(s, p.ticket))
  }

  ghost predicate PhasesSafe(s: State) {
    forall t :: 0 <= t < |s.phases| ==> PhaseSafe(s, s.phases[t])
  }

  ghost predicate TicketsDiffer(phases: seq<Phase>) {
    forall t, u :: 0 <= t < u < |phases| && Holds(phases[t]) && Holds(phases[u]) ==> phases[t].ticket != phases[u].ticket
  }

  ghost predicate Safe(s: State) {
    !s.stray && !s.trapped && (s.count > 0 ==> s.count == |s.ring| == |s.base|) && PhasesSafe(s) && TicketsDiffer(s.phases)
  }

  lemma TicketKeepsSafe(s: State, t: nat)
    requires Safe(s)
    ensures Safe(Step(s, Ticket(t)))
  {
    var s' := Step(s, Ticket(t));
    if PhaseOf(s, t).Checked? {
      forall u | 0 <= u < |s'.phases|
        ensures PhaseSafe(s', s'.phases[u])
      {
        assert PhaseSafe(s, s.phases[u]);
      }
      assert forall u :: 0 <= u < |s.phases| && Holds(s.phases[u]) ==> PhaseSafe(s, s.phases[u]);
    }
  }

  lemma WriteKeepsSafe(s: State, t: nat)
    requires Safe(s)
    ensures Safe(Step(s, Write(t)))
  {
    var s' := Step(s, Write(t));
    if PhaseOf(s, t).Located? {
      assert PhaseSafe(s, s.phases[t]);
      forall u | 0 <= u < |s'.phases|
        ensures PhaseSafe(s', s'.phases[u])
      {
        assert PhaseSafe(s, s.phases[u]);
      }
    }
  }

  lemma CheckAndLocateKeepSafe(s: State, a: Action)
    requires Safe(s) && (a.Check? || a.Locate?)
    ensures Safe(Step(s, a))
  {
    var s' := Step(s, a);
    forall u | 0 <= u < |s'.phases|
      ensures PhaseSafe(s', s'.phases[u])
    {
      assert PhaseSafe(s, s.phases[u]);
    }
  }

  lemma RestartKeepsSafe(s: State, size: nat, granted: bool)
    requires Safe(s) && AllIdle(s)
    ensures Safe(Step(s, Restart(size, granted)))
  {
  }

  lemma StepKeepsSafe(s: State, a: Action)
    requires Safe(s) && (a.Restart? ==> AllIdle(s))
    ensures Safe(Step(s, a))
  {
    match a {
      case Ticket(t) => TicketKeepsSafe(s, t);
      case Write(t) => WriteKeepsSafe(s, t);
      case Restart(size, granted) => RestartKeepsSafe(s, size, granted);
      case _ => CheckAndLocateKeepSafe(s, a);
    }
  }

  /** In every interleaving of inserts with restarts made when idle, no write strays from the current block, and
      nothing is divided by zero. */
  lemma {:induction false} RunIsSafe(s: State, actions: seq<Action>)
    requires Safe(s) && RestartsWhenIdle(s, actions)
    ensures Safe(Run(s, actions))
    decreases |actions|
  {
    if actions != [] {
      StepKeepsSafe(s, actions[0]);
      RunIsSafe(Step(s, actions[0]), actions[1..]);
    }
  }

  /** Two inserts under way whose tickets differ by less than the ring size own different slots. */
  lemma SlotsAreOwned(s: State, t: nat, u: nat)
    requires Safe(s) && t < |s.phases| && u < |s.phases| && t != u && Holds(s.phases[t]) && Holds(s.phases[u])
    requires s.phases[t].ticket < s.phases[u].ticket + s.count && s.phases[u].ticket < s.phases[t].ticket + s.count
    requires s.count > 0 && TicketsInOrder(|s.claimed|, s.count)
    ensures SlotIn(s, s.phases[t].ticket) != SlotIn(s, s.phases[u].ticket)
  {
    var a, b := s.phases[t].ticket, s.phases[u].ticket;
    assert PhaseSafe(s, s.phases[t]) && PhaseSafe(s, s.phases[u]);
    InOrder(a, |s.claimed|, s.count);
    InOrder(b, |s.claimed|, s.count);
    if a < b {
      DifferentSlots(a, b, s.count);
    } else {
      DifferentSlots(b, a, s.count);
    }
  }

  /** A restart that replaces the block while an insert has located its slot makes the insert's write stray. */
  lemma RestartUnderWayStrays(s: State, t: nat, size: nat, granted: bool)
    requires Safe(s) && t < |s.phases| && s.phases[t].Located? && size != 0 && size != s.count
    ensures Run(s, [Restart(size, granted), Write(t)]).stray
  {
    assert PhaseSafe(s, s.phases[t]);
    var actions := [Restart(size, granted), Write(t)];
    assert actions[1..] == [Write(t)] && [Write(t)][1..] == [];
    var s1 := Step(s, actions[0]);
    assert Run(s, actions) == Run(s1, [Write(t)]) == Run(Step(s1, Write(t)), []) == Step(s1, Write(t));
  }

  /** A start with the same size keeps the block, and the write lands. */
  lemma SameSizeKeepsBlock(s: State, t: nat, granted: bool)
    requires Safe(s) && t < |s.phases| && s.phases[t].Located?
    ensures !Run(s, [Restart(s.count, granted), Write(t)]).stray
  {
    assert PhaseSafe(s, s.phases[t]);
    var actions := [Restart(s.count, granted), Write(t)];
    assert actions[1..] == [Write(t)] && [Write(t)][1..] == [];
    var s1 := Step(s, actions[0]);
    assert Run(s, actions) == Run(s1, [Write(t)]) == Run(Step(s1, Write(t)), []) == Step(s1, Write(t));
  }

  /** A stop between an insert's ticket and its slot leaves nothing to take the remainder by. */
  lemma StopUnderWayTraps(s: State, t: nat, granted: bool)
    requires Safe(s) && t < |s.phases| && s.phases[t].Ticketed?
    ensures Run(s, [Restart(0, granted), Locate(t)]).trapped
  {
    var actions := [Restart(0, granted), Locate(t)];
    assert actions[1..] == [Locate(t)] && [Locate(t)][1..] == [];
    var s1 := Step(s, actions[0]);
    assert Run(s, actions) == Run(s1, [Locate(t)]) == Run(Step(s1, Locate(t)), []) == Step(s1, Locate(t));
  }

  // Contents.

  /** A ticket whose insert is not under way any more. */
  ghost predicate Finished(phases: seq<Phase>, ticket: nat) {
    forall t :: 0 <= t < |phases| && Holds(phases[t]) ==> phases[t].ticket != ticket
  }

  /** What the finished inserts among the first n leave when they are made one by one in the order of their tickets. */
  ghost function Sequential(base: seq<Event>, claimed: seq<CString>, phases: seq<Phase>, n: nat): (ring: seq<Event>)
    requires |base| > 0 && n <= |claimed|
    ensures |ring| == |base|
  {
    if n == 0 then base else
      var before := Sequential(base, claimed, phases, n - 1);
      if Finished(phases, n - 1) then before[SlotOf(n - 1, |base|) := Header(claimed[n - 1])] else before
  }

  /** The ring holds what its finished inserts leave in the order of their tickets. */
  ghost predicate Current(s: State) {
    s.count > 0 ==> s.count == |s.base| && s.ring == Sequential(s.base, s.claimed, s.phases, |s.claimed|)
  }

  /** The header of a newer ticket of the same slot, below n, is written already. */
  ghost predicate Overtaken(size: nat, phases: seq<Phase>, ticket: nat, n: nat)
    requires size > 0
  {
    exists k: nat :: ticket < k < n && Finished(phases, k) && SlotOf(k, size) == SlotOf(ticket, size)
  }

  /** What a thread must see to before it writes: no newer ticket of its slot has been written, unless with the same
      header. */
  ghost predicate Guard(s: State, a: Action) {
    a.Write? && PhaseOf(s, a.thread).Located? && s.count > 0 ==>
      var p := s.phases[a.thread];
      || !Overtaken(s.count, s.phases, p.ticket, |s.claimed|)
      || (p.slot < |s.ring| && s.ring[p.slot] == Header(p.text))
  }

  /** Only tickets that are taken and finished matter. */
  lemma {:induction false} SequentialDepends(base: seq<Event>, claimed: seq<CString>, claimed': seq<CString>,
      phases: seq<Phase>, phases': seq<Phase>, n: nat)
    requires |base| > 0 && n <= |claimed| && claimed <= claimed'
    requires forall k: nat | k < n :: Finished(phases, k) <==> Finished(phases', k)
    ensures Sequential(base, claimed', phases', n) == Sequential(base, claimed, phases, n)
  {
    if n > 0 {
      SequentialDepends(base, claimed, claimed', phases, phases', n - 1);
    }
  }

  /** One more finished insert changes its slot, unless it is overtaken. */
  lemma {:induction false} FinishedChanges(base: seq<Event>, claimed: seq<CString>, phases: seq<Phase>, phases': seq<Phase>,
      p: nat, n: nat)
    requires |base| > 0 && n <= |claimed|
    requires forall k: nat :: Finished(phases', k) <==> k == p || Finished(phases, k)
    requires !Finished(phases, p)
    ensures
      var before := Sequential(base, claimed, phases, n);
      Sequential(base, claimed, phases', n) ==
        if n <= p || Overtaken(|base|, phases, p, n) then before
        else before[SlotOf(p, |base|) := Header(claimed[p])]
  {
    if n > 0 {
      FinishedChanges(base, claimed, phases, phases', p, n - 1);
      OvertakenByLast(|base|, phases, p, n);
    }
  }

  lemma OvertakenByLast(size: nat, phases: seq<Phase>, p: nat, n: nat)
    requires size > 0 && n > 0
    ensures Overtaken(size, phases, p, n) <==>
      || Overtaken(size, phases, p, n - 1)
      || (p < n - 1 && Finished(phases, n - 1) && SlotOf(n - 1, size) == SlotOf(p, size))
  {
  }

  lemma CheckAndLocateKeepCurrent(s: State, a: Action)
    requires Safe(s) && Current(s) && (a.Check? || a.Locate?)
    ensures Current(Step(s, a))
  {
    if s.count > 0 {
      forall k: nat | k < |s.claimed|
        ensures Finished(s.phases, k) <==> Finished(Step(s, a).phases, k)
      {
        SameHolders(s, a, k);
      }
      SequentialDepends(s.base, s.claimed, s.claimed, s.phases, Step(s, a).phases, |s.claimed|);
    }
  }

  lemma SameHolders(s: State, a: Action, k: nat)
    requires a.Check? || a.Locate?
    ensures Finished(Step(s, a).phases, k) <==> Finished(s.phases, k)
  {
    var phases, phases' := s.phases, Step(s, a).phases;
    assert forall t :: 0 <= t < |phases| ==>
      Holds(phases[t]) == Holds(phases'[t]) && (Holds(phases[t]) ==> phases[t].ticket == phases'[t].ticket);
  }

  lemma TicketKeepsCurrent(s: State, t: nat)
    requires Safe(s) && Current(s) && s.count > 0 && PhaseOf(s, t).Checked?
    ensures Current(Step(s, Ticket(t)))
  {
    var s', n := Step(s, Ticket(t)), |s.claimed|;
    assert Holds(s'.phases[t]) && s'.phases[t].ticket == n;
    assert !Finished(s'.phases, n);
    forall k: nat | k < n
      ensures Finished(s.phases, k) <==> Finished(s'.phases, k)
    {
      OneMoreHolder(s.phases, t, s'.phases[t], k);
    }
    SequentialDepends(s.base, s.claimed, s'.claimed, s.phases, s'.phases, n);
  }

  lemma OneMoreHolder(phases: seq<Phase>, t: nat, p: Phase, k: nat)
    requires t < |phases| && !Holds(phases[t]) && (Holds(p) ==> p.ticket != k)
    ensures Finished(phases, k) <==> Finished(phases[t := p], k)
  {
    var phases' := phases[t := p];
    assert forall u :: 0 <= u < |phases| && u != t ==> phases'[u] == phases[u];
    if Finished(phases', k) {
      forall u | 0 <= u < |phases| && Holds(phases[u])
        ensures phases[u].ticket != k
      {
        assert phases'[u] == phases[u];
      }
    }
  }

  /** A write keeps the ring current if and only if it is guarded. */
  lemma WriteKeepsCurrentIff(s: State, t: nat)
    requires Safe(s) && Current(s) && s.count > 0 && PhaseOf(s, t).Located?
    ensures Current(Step(s, Write(t))) <==> Guard(s, Write(t))
  {
    var s', p := Step(s, Write(t)), s.phases[t];
    assert PhaseSafe(s, p);
    assert !Finished(s.phases, p.ticket);
    forall k: nat
      ensures Finished(s'.phases, k) <==> k == p.ticket || Finished(s.phases, k)
    {
      OneHolderLess(s.phases, t, k);
    }
    FinishedChanges(s.base, s.claimed, s.phases, s'.phases, p.ticket, |s.claimed|);
    assert s'.ring == s.ring[p.slot := Header(p.text)];
    assert s'.ring[p.slot] == Header(p.text);
    assert s.ring[p.slot] == Header(p.text) ==> s'.ring == s.ring;
  }

  lemma OneHolderLess(phases: seq<Phase>, t: nat, k: nat)
    requires TicketsDiffer(phases) && t < |phases| && Holds(phases[t])
    ensures Finished(phases[t := Idle], k) <==> k == phases[t].ticket || Finished(phases, k)
  {
    var phases' := phases[t := Idle];
    if k == phases[t].ticket {
      forall u | 0 <= u < |phases'| && Holds(phases'[u])
        ensures phases'[u].ticket != k
      {
        assert u != t && phases'[u] == phases[u];
      }
    } else {
      OneMoreHolder(phases', t, phases[t], k);
      assert phases'[t := phases[t]] == phases;
    }
  }

  /** One action keeps the ring current if and only if it is guarded. */
  lemma StepKeepsCurrentIff(s: State, a: Action)
    requires Safe(s) && Current(s) && (a.Restart? ==> AllIdle(s))
    ensures Current(Step(s, a)) <==> Guard(s, a)
  {
    match a {
      case Ticket(t) =>
        if PhaseOf(s, t).Checked? {
          assert PhaseSafe(s, s.phases[t]);
          TicketKeepsCurrent(s, t);
        }
      case Write(t) =>
        if PhaseOf(s, t).Located? {
          assert PhaseSafe(s, s.phases[t]);
          WriteKeepsCurrentIff(s, t);
        }
      case Restart(_, _) =>
      case _ => CheckAndLocateKeepCurrent(s, a);
    }
  }

  ghost predicate Guarded(s: State, actions: seq<Action>)
    decreases |actions|
  {
    actions == [] || (Guard(s, actions[0]) && Guarded(Step(s, actions[0]), actions[1..]))
  }

  ghost predicate StaysCurrent(s: State, actions: seq<Action>)
    decreases |actions|
  {
    Current(s) && (actions == [] || StaysCurrent(Step(s, actions[0]), actions[1..]))
  }

  /** However the steps are interleaved: the ring is at every moment what its finished inserts leave in the order of
      their tickets if and only if every write is guarded. */
  lemma {:induction false} InterleavingIsSequentialIff(s: State, actions: seq<Action>)
    requires Safe(s) && Current(s) && RestartsWhenIdle(s, actions)
    ensures StaysCurrent(s, actions) <==> Guarded(s, actions)
    decreases |actions|
  {
    if actions != [] {
      StepKeepsSafe(s, actions[0]);
      StepKeepsCurrentIff(s, actions[0]);
      if Guard(s, actions[0]) {
        InterleavingIsSequentialIff(Step(s, actions[0]), actions[1..]);
      }
    }
  }

  lemma {:induction false} AllFinished(base: seq<Event>, claimed: seq<CString>, phases: seq<Phase>, n: nat)
    requires |base| > 0 && n <= |claimed| && forall t :: 0 <= t < |phases| ==> phases[t].Idle?
    ensures Sequential(base, claimed, phases, n) == Ring(base, claimed[..n])
  {
    if n > 0 {
      AllFinished(base, claimed, phases, n - 1);
      assert Finished(phases, n - 1);
      assert claimed[..n] == claimed[..n - 1] + [claimed[n - 1]];
      RingSnoc(base, claimed[..n - 1], claimed[n - 1]);
    }
  }

  /** Once every insert is finished, a ring is current if and only if it is as if the headers had been inserted one
      by one in the order of their tickets. */
  lemma CurrentWhenIdle(s: State)
    requires Safe(s) && AllIdle(s) && s.count > 0
    ensures Current(s) <==> s.ring == Ring(s.base, s.claimed)
  {
    AllFinished(s.base, s.claimed, s.phases, |s.claimed|);
    assert s.claimed[..|s.claimed|] == s.claimed;
  }

  /** After guarded writes, once all inserts are finished, the ring holds what the same headers inserted one after the
      other, in the order of their tickets, would leave. */
  lemma {:induction false} InterleavingIsSequential(s: State, actions: seq<Action>)
    requires Safe(s) && Current(s) && RestartsWhenIdle(s, actions) && Guarded(s, actions)
    ensures
      var s' := Run(s, actions);
      && Safe(s') && Current(s')
      && (AllIdle(s') && s'.count > 0 ==> s'.ring == Ring(s'.base, s'.claimed))
    decreases |actions|
  {
    if actions == [] {
      if AllIdle(s) && s.count > 0 {
        CurrentWhenIdle(s);
      }
    } else {
      StepKeepsSafe(s, actions[0]);
      StepKeepsCurrentIff(s, actions[0]);
      InterleavingIsSequential(Step(s, actions[0]), actions[1..]);
    }
  }

  /** And if the last of them is not guarded, it does not. */
  lemma UnguardedDiffers(s: State, t: nat)
    requires Safe(s) && Current(s) && s.count > 0 && !Guard(s, Write(t)) && AllIdle(Step(s, Write(t)))
    ensures Step(s, Write(t)).ring != Ring(s.base, s.claimed)
  {
    StepKeepsSafe(s, Write(t));
    StepKeepsCurrentIff(s, Write(t));
    CurrentWhenIdle(Step(s, Write(t)));
  }

  /** An insert that is not a whole ring behind is guarded, as long as slots follow tickets. */
  lemma RecentIsGuarded(s: State, t: nat)
    requires Safe(s) && s.count > 0 && PhaseOf(s, t).Located?
    requires TicketsInOrder(|s.claimed|, s.count) && |s.claimed| <= s.phases[t].ticket + s.count
    ensures Guard(s, Write(t))
  {
    var p := s.phases[t];
    assert PhaseSafe(s, p);
    forall k: nat | p.ticket < k < |s.claimed|
      ensures SlotOf(k, s.count) != SlotOf(p.ticket, s.count)
    {
      InOrder(k, |s.claimed|, s.count);
      InOrder(p.ticket, |s.claimed|, s.count);
      DifferentSlots(p.ticket, k, s.count);
    }
  }

  /** A ring that counting has just started on, with idle threads, is a state to begin from. */
  lemma StartIsCurrent(s: State)
    requires AllIdle(s) && !s.stray && !s.trapped && s.claimed == [] && s.base == s.ring && (s.count > 0 ==> s.count == |s.ring|)
    ensures Safe(s) && Current(s)
  {
  }

  lemma RunStep(s: State, a: Action, later: seq<Action>)
    ensures Run(s, [a] + later) == Run(Step(s, a), later)
  {
    assert ([a] + later)[1..] == later;
  }

  /** The first three steps of an insert into a ring of one slot. */
  lemma LocateRuns(s: State, t: nat, text: CString, later: seq<Action>)
    requires s.count == 1 && t < |s.phases| && s.phases[t].Idle?
    ensures
      var located := Located(text, |s.claimed|, s.block, 0);
      Run(s, [Check(t, text), Ticket(t), Locate(t)] + later)
        == Run(s.(phases := s.phases[t := located], claimed := s.claimed + [text]), later)
  {
    RunThree(s, Check(t, text), Ticket(t), Locate(t), later);
    var s2 := Step(Step(s, Check(t, text)), Ticket(t));
    assert s2.phases == s.phases[t := Ticketed(text, |s.claimed|)];
    assert Step(s2, Locate(t)).phases == s.phases[t := Located(text, |s.claimed|, s.block, 0)];
  }

  lemma WriteRuns(s: State, t: nat, later: seq<Action>)
    requires |s.ring| == 1 && t < |s.phases| && s.phases[t].Located?
    requires s.phases[t].block == s.block && s.phases[t].slot == 0
    ensures Run(s, [Write(t)] + later)
      == Run(s.(phases := s.phases[t := Idle], ring := [Header(s.phases[t].text)]), later)
  {
    RunStep(s, Write(t), later);
    assert s.ring[0 := Header(s.phases[t].text)] == [Header(s.phases[t].text)];
  }

  /** What two inserts into a ring of one slot should leave. */
  lemma SecondOfTwo(base: seq<Event>, a: CString, b: CString)
    requires |base| == 1
    ensures Ring(base, [a, b]) == [Header(b)]
  {
    RingSnoc(base, [a], b);
    assert [a] + [b] == [a, b];
    assert Ring(base, [a])[0 := Header(b)] == [Header(b)];
  }

  /** An insert that is overtaken by a whole turn of the ring puts its older header over the newer one. */
  lemma OvertakenInsert(s: State, a: CString, b: CString)
    requires s.count == |s.ring| == |s.base| == 1 && s.phases == [Idle, Idle] && s.claimed == []
    ensures
      var late := [Write(1)] + ([Write(0)] + []);
      var s' := Run(s, [Check(0, a), Ticket(0), Locate(0)] + ([Check(1, b), Ticket(1), Locate(1)] + late));
      s'.phases == [Idle, Idle] && s'.claimed == [a, b] && s'.ring == [Header(a)]
    ensures Ring(s.base, [a, b]) == [Header(b)]
  {
    var first, second := Located(a, 0, s.block, 0), Located(b, 1, s.block, 0);
    var late := [Write(1)] + ([Write(0)] + []);
    var s1 := s.(phases := [first, Idle], claimed := [a]);
    var s2 := s.(phases := [first, second], claimed := [a, b]);
    var s3 := s2.(phases := [first, Idle], ring := [Header(b)]);
    assert s.claimed + [a] == [a] && s1.claimed + [b] == [a, b];
    assert s.phases[0 := first] == [first, Idle] && s1.phases[1 := second] == [first, second];
    assert s2.phases[1 := Idle] == [first, Idle] && s3.phases[0 := Idle] == [Idle, Idle];
    LocateRuns(s, 0, a, [Check(1, b), Ticket(1), Locate(1)] + late);
    LocateRuns(s1, 1, b, late);
    WriteRuns(s2, 1, [Write(0)] + []);
    WriteRuns(s3, 0, []);
    var s4 := s3.(phases := [Idle, Idle], ring := [Header(a)]);
    assert Run(s4, []) == s4;
    SecondOfTwo(s.base, a, b);
  }

  lemma RunThree(s: State, a: Action, b: Action, c: Action, later: seq<Action>)
    ensures Run(s, [a, b, c] + later) == Run(Step(Step(Step(s, a), b), c), later)
  {
    assert [a, b, c] + later == [a] + ([b] + ([c] + later));
    RunStep(s, a, [b] + ([c] + later));
    RunStep(Step(s, a), b, [c] + later);
    RunStep(Step(Step(s, a), b), c, later);
  }
}
