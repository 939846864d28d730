/** The shadow arrays hold what was set last, and the simple registers with them. */
module ShadowState {
  import opened Prelude
  import opened Direct3DTypes
  import opened RenderTables
  import opened DeferredState
  import RenderCache

  /** The value that a call gives a render state; the inline setter of the pure-device build keeps no simple ones. */
  function RenderSet(pure: bool, op: Op, state: nat): Option<Dword> {
    if op.SetRender? && op.state == state && (state >= RS_SIMPLE_MAX || !(pure && op.inline)) then Some(op.value)
    else None
  }

  /** The value that a call gives a texture stage state. */
  function TextureSet(op: Op, stage: Stage, state: nat): Option<Dword> {
    if op.SetTexture? && op.stage == stage && op.state == state then Some(op.value) else None
  }

  /** The value of the last call that gives one, if any does. */
  function LastOf(ops: seq<Op>, sets: Op -> Option<Dword>): Option<Dword> {
    if ops == [] then None else
      var later := LastOf(ops[1..], sets);
      if later.Some? then later else sets(ops[0])
  }

  function OrElse(o: Option<Dword>, otherwise: Dword): Dword {
    if o.Some? then o.value else otherwise
  }

  /** After any run, every simple and deferred render state reads as it was set last. */
  lemma {:induction false} RenderHoldsLast(d: Device, pure: bool, ops: seq<Op>, state: nat)
    requires d.Valid() && AllHandled(ops) && state < RS_DEFERRED_MAX
    ensures Run(d, pure, ops).render[state] == OrElse(LastOf(ops, op => RenderSet(pure, op, state)), d.render[state])
    decreases |ops|
  {
    if ops != [] {
      var d' := Step(d, pure, ops[0]);
      assert d'.render[state] == OrElse(RenderSet(pure, ops[0], state), d.render[state]);
      RenderHoldsLast(d', pure, ops[1..], state);
    }
  }

  /** After any run, every texture stage state reads as it was set last. */
  lemma {:induction false} TextureHoldsLast(d: Device, pure: bool, ops: seq<Op>, stage: Stage, state: nat)
    requires d.Valid() && AllHandled(ops) && state < TSS_MAX
    ensures Run(d, pure, ops).texture[TextureIndex(stage, state)]
      == OrElse(LastOf(ops, op => TextureSet(op, stage, state)), d.texture[TextureIndex(stage, state)])
    decreases |ops|
  {
    if ops != [] {
      var d' := Step(d, pure, ops[0]);
      assert d'.texture[TextureIndex(stage, state)]
        == OrElse(TextureSet(ops[0], stage, state), d.texture[TextureIndex(stage, state)]);
      TextureHoldsLast(d', pure, ops[1..], stage, state);
    }
  }

  lemma {:induction false} SetStatesHaveLast(ops: seq<Op>, state: nat)
    requires state in RenderCache.SimpleStatesSet(ops)
    ensures LastOf(ops, op => RenderSet(false, op, state)).Some?
  {
    var op :| op in ops && op.SetRender? && op.state == state;
    if ops[0] != op {
      assert op in ops[1..];
      assert state in RenderCache.SimpleStatesSet(ops[1..]);
      SetStatesHaveLast(ops[1..], state);
    }
  }

  /** After any run of setters in the non-pure build, replaying the pushed commands leaves the register of every
      non-reserved simple state that was set at the value it was set to last. */
  lemma RegistersHoldLast(d: Device, ops: seq<Op>, state: nat, registers: map<Dword, Dword>)
    requires d.Valid() && AllHandled(ops) && (forall op <- ops :: RenderCache.IsSetter(op))
    requires state in RenderCache.SimpleStatesSet(ops) && state < RS_SIMPLE_MAX && !IsReserved(state)
    ensures
      var d' := Run(d, false, ops);
      && d.commands <= d'.commands
      && var after := RenderCache.Replay(registers, RenderCache.Pushed(d, d'));
      && SimpleEncode(state) in after
      && Some(after[SimpleEncode(state)]) == LastOf(ops, op => RenderSet(false, op, state))
  {
    RenderCache.ShadowIsExactCache(d, ops, {}, registers);
    assert state in {} + RenderCache.SimpleStatesSet(ops);
    SetStatesHaveLast(ops, state);
    RenderHoldsLast(d, false, ops, state);
  }
}
