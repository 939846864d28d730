/** The shadow of the simple render states as a cache of the registers that the pushed commands set. */
module RenderCache {
  import opened Direct3DTypes
  import opened RenderTables
  import opened DeferredState

  /** The registers after the pusher has executed a list of one-argument commands. */
  function Replay(registers: map<Dword, Dword>, commands: seq<Command>): map<Dword, Dword>
    decreases |commands|
  {
    if commands == [] then registers
    else Replay(registers[commands[0].word := commands[0].value], commands[1..])
  }

  /** A setter call: nothing here draws, and drawing is what lets the combiners overwrite pixel-shader registers. */
  predicate IsSetter(op: Op) {
    Handled(op) && !op.Draw?
  }

  /** The simple states that a run sets. */
  function SimpleStatesSet(ops: seq<Op>): set<nat> {
    set op | op in ops && op.SetRender? && op.state < RS_SIMPLE_MAX :: op.state
  }

  /** For each of these states the register and the shadow hold one value. */
  ghost predicate Cached(states: set<nat>, render: seq<Dword>, registers: map<Dword, Dword>)
    requires |render| == RS_MAX
  {
    forall s <- states :: s < RS_SIMPLE_MAX && !IsReserved(s) ==>
      SimpleEncode(s) in registers && registers[SimpleEncode(s)] == render[s]
  }

  /** The commands pushed between two moments. */
  function Pushed(d: Device, d': Device): seq<Command>
    requires d.commands <= d'.commands
  {
    d'.commands[|d.commands|..]
  }

  lemma {:induction false} ReplayAppend(registers: map<Dword, Dword>, a: seq<Command>, b: seq<Command>)
    ensures Replay(registers, a + b) == Replay(Replay(registers, a), b)
    decreases |a|
  {
    if a == [] {
      assert a + b == b;
    } else {
      assert (a + b)[1..] == a[1..] + b;
      ReplayAppend(registers[a[0].word := a[0].value], a[1..], b);
    }
  }

  lemma ReplayOne(registers: map<Dword, Dword>, c: Command)
    ensures Replay(registers, [c]) == registers[c.word := c.value]
  {
    assert [c][1..] == [];
    assert Replay(registers[c.word := c.value], []) == registers[c.word := c.value];
  }

  lemma OneState(op: Op)
    ensures SimpleStatesSet([op]) == if op.SetRender? && op.state < RS_SIMPLE_MAX then {op.state} else {}
  {
    var one := [op];
    assert forall o :: o in one <==> o == op;
    assert one[0] in one;
  }

  /** One setter call keeps what was cached and caches what it sets. */
  lemma StepCaches(d: Device, op: Op, states: set<nat>, registers: map<Dword, Dword>)
    requires d.Valid() && IsSetter(op) && Cached(states, d.render, registers)
    ensures
      var d' := Step(d, false, op);
      && d.commands <= d'.commands
      && Cached(states + SimpleStatesSet([op]), d'.render, Replay(registers, Pushed(d, d')))
  {
    var d' := Step(d, false, op);
    OneState(op);
    if op.SetRender? && op.state < RS_SIMPLE_MAX {
      var c := Command(SimpleEncode(op.state), op.value);
      assert Pushed(d, d') == [c];
      var registers' := Replay(registers, [c]);
      ReplayOne(registers, c);
      forall s | s in states + {op.state} && s < RS_SIMPLE_MAX && !IsReserved(s)
        ensures SimpleEncode(s) in registers' && registers'[SimpleEncode(s)] == d'.render[s]
      {
        if s != op.state && SimpleEncode(s) == SimpleEncode(op.state) {
          SimpleEncodeInjective(s, op.state);
        }
      }
    } else {
      assert Pushed(d, d') == [];
    }
  }

  lemma ReplayThrough(d: Device, d1: Device, d': Device, registers: map<Dword, Dword>)
    requires d.commands <= d1.commands <= d'.commands
    ensures Replay(registers, Pushed(d, d')) == Replay(Replay(registers, Pushed(d, d1)), Pushed(d1, d'))
  {
    assert Pushed(d, d') == Pushed(d, d1) + Pushed(d1, d');
    ReplayAppend(registers, Pushed(d, d1), Pushed(d1, d'));
  }

  /**
   * After any run of setter calls in the non-pure build, replaying what was pushed leaves the register of every
   * non-reserved simple state that was ever set equal to its shadow entry, which is what GetRenderState reads.
   */
  lemma {:induction false} ShadowIsExactCache(d: Device, ops: seq<Op>, states: set<nat>, registers: map<Dword, Dword>)
    requires d.Valid() && AllHandled(ops) && (forall op <- ops :: IsSetter(op))
    requires Cached(states, d.render, registers)
    ensures
      var d' := Run(d, false, ops);
      && d.commands <= d'.commands
      && Cached(states + SimpleStatesSet(ops), d'.render, Replay(registers, Pushed(d, d')))
    decreases |ops|
  {
    if ops == [] {
      assert Pushed(d, d) == [];
      assert states + SimpleStatesSet(ops) == states;
    } else {
      var op, rest, d1 := ops[0], ops[1..], Step(d, false, ops[0]);
      assert IsSetter(op);
      StepCaches(d, op, states, registers);
      ShadowIsExactCache(d1, rest, states + SimpleStatesSet([op]), Replay(registers, Pushed(d, d1)));
      var d' := Run(d1, false, rest);
      ReplayThrough(d, d1, d', registers);
      SetSplits(op, rest);
      assert ops == [op] + rest;
      assert states + SimpleStatesSet(ops) == states + SimpleStatesSet([op]) + SimpleStatesSet(rest);
    }
  }

  lemma SetSplits(op: Op, rest: seq<Op>)
    ensures SimpleStatesSet([op] + rest) == SimpleStatesSet([op]) + SimpleStatesSet(rest)
  {
    forall o
      ensures o in [op] + rest <==> o in [op] || o in rest
    {
    }
  }

  /** The reserved states share one register, so of two of them only the one set last agrees with its shadow. */
  lemma ReservedStatesClash(d: Device, s: nat, t: nat, v: Dword, w: Dword, registers: map<Dword, Dword>)
    requires d.Valid() && s < RS_SIMPLE_MAX && t < RS_SIMPLE_MAX && s != t && IsReserved(s) && IsReserved(t) && v != w
    ensures
      var d' := Run(d, false, [SetRender(true, s, v), SetRender(true, t, w)]);
      && d.commands <= d'.commands
      && var after := Replay(registers, Pushed(d, d'));
      && RESERVED_COMMAND in after
      && d'.render[t] == after[RESERVED_COMMAND] && d'.render[s] != after[RESERVED_COMMAND]
  {
    var ops := [SetRender(true, s, v), SetRender(true, t, w)];
    var d1 := Step(d, false, ops[0]);
    var d2 := Step(d1, false, ops[1]);
    assert ops[1..] == [ops[1]] && ops[1..][1..] == [];
    assert Run(d, false, ops) == Run(d1, false, [ops[1]]) == Run(d2, false, []) == d2;
    var c1, c2 := Command(RESERVED_COMMAND, v), Command(RESERVED_COMMAND, w);
    assert Pushed(d, d2) == [c1, c2];
    assert [c1, c2] == [c1] + [c2];
    ReplayAppend(registers, [c1], [c2]);
    ReplayOne(Replay(registers, [c1]), c2);
    assert d2.render == d.render[s := v][t := w];
  }
}
