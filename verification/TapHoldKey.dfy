/// A tap-hold key seen from outside: which key the layout outputs, and when
/// (keyberon/src/layout.rs).

module TapHoldKey {
  import opened Types
  import opened HoldTap
  import opened LayoutModel

  /// Key events followed by one tick.
  ghost function Batch(cfg: Config, s: LayoutValue, es: seq<Event>): LayoutValue
  {
    Tick(cfg, ReceiveAll(cfg, s, es))
  }

  ghost function ReceiveAll(cfg: Config, s: LayoutValue, es: seq<Event>): LayoutValue
    decreases |es|
  {
    if es == [] then s else ReceiveAll(cfg, Receive(cfg, s, es[0]), es[1..])
  }

  lemma {:induction false} ReceiveAllIs(cfg: Config, s: LayoutValue, es: seq<Event>)
    requires |s.queue| + |es| <= QUEUE_SIZE
    ensures ReceiveAll(cfg, s, es) == s.(queue := s.queue + Fresh(es))
    decreases |es|
  {
    if es == [] {
      assert s.queue + Fresh(es) == s.queue;
    } else {
      assert s.queue + Fresh(es) == (s.queue + [Queued(es[0], 0)]) + Fresh(es[1..]);
      ReceiveAllIs(cfg, Receive(cfg, s, es[0]), es[1..]);
    }
  }

  /// One key waits, alone: no other wait and no one-shot key.
  ghost predicate WaitsAlone(s: LayoutValue, w: Waiting)
  {
    s.waiting == Some(w) && s.extra == [] && s.oneshot.keys == []
  }

  lemma PendingBatch(cfg: Config, s: LayoutValue, w: Waiting, es: seq<Event>)
    requires WaitsAlone(s, w) && |s.queue| + |es| <= QUEUE_SIZE
    requires WaitingTick(w.timer, Arrive(s.queue, es)).1.None?
    ensures var t := WaitingTick(w.timer, Arrive(s.queue, es)).0;
            Batch(cfg, s, es) == s.(queue := Arrive(s.queue, es), waiting := Some(w.(timer := t)),
                                    tapHoldTimeout := SatSub(s.tapHoldTimeout, 1))
  {
    ReceiveAllIs(cfg, s, es);
    NoExtraWaits(cfg, TickPrimary(cfg, TickTimers(ReceiveAll(cfg, s, es))));
  }

  lemma KeyCodeAction(cfg: Config, s: LayoutValue, keycode: nat, c: Coord, delay: u16, stack: seq<nat>)
    requires |s.states| < MAX_STATES && forall x :: x in s.states ==> !Clears(x)
    ensures var r := DoAction(cfg, s, KeyCode(keycode), c, delay, false, stack);
            && r.states == s.states + [NormalKey(keycode, c, false)]
            && r.extra == s.extra && r.queue == s.queue
  {
    NothingFlagged(s.states);
  }

  lemma ResolvedKey(cfg: Config, s: LayoutValue, w: Waiting, a: WaitingAction, keycode: nat)
    requires ResolvedAction(w, a) == KeyCode(keycode)
    requires |s.states| < MAX_STATES && forall x :: x in s.states ==> !Clears(x)
    ensures var r := WaitingInto(cfg, s, w, a);
            && r.states == s.states + [NormalKey(keycode, w.timer.coord, false)]
            && r.extra == s.extra && r.queue == s.queue
  {
    KeyCodeAction(cfg, ResolvedFrom(cfg, s, w, a), keycode, w.timer.coord, ResolvedDelay(w), w.layerStack);
  }

  lemma NoExtraWaits(cfg: Config, s: LayoutValue)
    requires s.extra == []
    ensures TickExtra(cfg, s) == s
  {
    assert TickWaits([], s.queue, 1) == [];
  }

  lemma ResolvingBatch(cfg: Config, s: LayoutValue, w: Waiting, es: seq<Event>, keycode: nat)
    requires WaitsAlone(s, w) && |s.queue| + |es| <= QUEUE_SIZE
    requires var a := WaitingTick(w.timer, Arrive(s.queue, es)).1;
             a.Some? && ResolvedAction(w, a.value) == KeyCode(keycode)
    requires |s.states| < MAX_STATES && forall x :: x in s.states ==> !Clears(x)
    ensures Batch(cfg, s, es).states == s.states + [NormalKey(keycode, w.timer.coord, false)]
  {
    ReceiveAllIs(cfg, s, es);
    var (t, a) := WaitingTick(w.timer, Arrive(s.queue, es));
    var s1 := TickTimers(ReceiveAll(cfg, s, es));
    assert s1 == s.(queue := Arrive(s.queue, es), tapHoldTimeout := SatSub(s.tapHoldTimeout, 1));
    var r := WaitingInto(cfg, s1.(waiting := None), w.(timer := t), a.value);
    ResolvedKey(cfg, s1.(waiting := None), w.(timer := t), a.value, keycode);
    NoExtraWaits(cfg, r);
  }

  lemma {:induction false} NothingFlagged(states: seq<KeyState>)
    requires forall x :: x in states ==> !Clears(x)
    ensures Unflagged(states) == states
    decreases |states|
  {
    if states != [] {
      var n := |states| - 1;
      assert states == states[..n] + [states[n]];
      NothingFlagged(states[..n]);
    }
  }

  /// The key that a resolution stands for, when all three actions are plain keys.
  function OutputKey(a: Action, r: WaitingAction): nat
    requires a.HoldTapAction? && a.hold.KeyCode? && a.tap.KeyCode? && a.timeoutAction.KeyCode?
  {
    match r case Hold => a.hold.keycode case Tap => a.tap.keycode case Timeout => a.timeoutAction.keycode
  }

  ghost predicate WaitFor(w: Waiting, a: Action)
  {
    a.HoldTapAction? && w.hold == a.hold && w.tap == a.tap && w.timeoutAction == a.timeoutAction
  }

  /// `trace` lists the layout before the first batch and after each of `|trace| - 1` batches.
  ghost predicate IsTrace(cfg: Config, trace: seq<LayoutValue>, batches: seq<seq<Event>>)
  {
    && 1 <= |trace| <= |batches| + 1
    && forall i :: 0 <= i < |trace| - 1 ==> trace[i + 1] == Batch(cfg, trace[i], batches[i])
  }

  /// The states stay what they were until the last batch of the trace, which adds `x` to them.
  ghost predicate OutputsLast(trace: seq<LayoutValue>, x: KeyState)
  {
    var n := |trace| - 1;
    && n >= 1
    && (forall i :: 0 <= i < n ==> trace[i].states == trace[0].states)
    && trace[n].states == trace[0].states + [x]
  }

  /// The layout outputs nothing new until the wait resolves, and then exactly the key of the
  /// resolution, in the tick that the timer alone determines.
  lemma {:induction false} WaitResolves(cfg: Config, s: LayoutValue, w: Waiting, a: Action, batches: seq<seq<Event>>)
    returns (trace: seq<LayoutValue>)
    requires WaitsAlone(s, w) && WaitFor(w, a)
    requires a.hold.KeyCode? && a.tap.KeyCode? && a.timeoutAction.KeyCode?
    requires |s.queue| + Arrivals(batches) <= QUEUE_SIZE
    requires |s.states| < MAX_STATES && forall x :: x in s.states ==> !Clears(x)
    requires HoldTap.Run(w.timer, s.queue, batches).Resolved?
    ensures IsTrace(cfg, trace, batches) && trace[0] == s
    ensures var Resolved(n, r) := HoldTap.Run(w.timer, s.queue, batches);
            |trace| == n + 2 && OutputsLast(trace, NormalKey(OutputKey(a, r), w.timer.coord, false))
    decreases |batches|
  {
    var (t, now) := WaitingTick(w.timer, Arrive(s.queue, batches[0]));
    if now.Some? {
      ResolvingBatch(cfg, s, w, batches[0], OutputKey(a, now.value));
      trace := [s, Batch(cfg, s, batches[0])];
    } else {
      var s1, w1 := StillWaiting(cfg, s, w, batches);
      var rest := WaitResolves(cfg, s1, w1, a, batches[1..]);
      trace := [s] + rest;
    }
  }

  lemma StillWaiting(cfg: Config, s: LayoutValue, w: Waiting, batches: seq<seq<Event>>) returns (s1: LayoutValue, w1: Waiting)
    requires WaitsAlone(s, w) && batches != [] && |s.queue| + Arrivals(batches) <= QUEUE_SIZE
    requires WaitingTick(w.timer, Arrive(s.queue, batches[0])).1.None?
    ensures s1 == Batch(cfg, s, batches[0]) && WaitsAlone(s1, w1) && s1.states == s.states
    ensures w1 == w.(timer := w1.timer) && w1.timer.coord == w.timer.coord
    ensures |s1.queue| + Arrivals(batches[1..]) <= QUEUE_SIZE
    ensures HoldTap.Run(w.timer, s.queue, batches) == Later(HoldTap.Run(w1.timer, s1.queue, batches[1..]))
  {
    PendingBatch(cfg, s, w, batches[0]);
    s1 := Batch(cfg, s, batches[0]);
    w1 := w.(timer := WaitingTick(w.timer, Arrive(s.queue, batches[0])).0);
  }

  lemma HoldTapWaits(cfg: Config, s: LayoutValue, c: Coord, a: Action, stack: seq<nat>, rest: seq<nat>)
    requires ResolveCoord(cfg, c, stack) == (a, rest) && a.HoldTapAction?
    requires s.states == [] && s.waiting.None? && s.extra == [] && s.oneshot.keys == [] && s.tapHoldTimeout == 0
    ensures var r := DoAction(cfg, s, Trans, c, 1, false, stack);
            && WaitsAlone(r, NewWait(cfg, a, c, 1, rest))
            && r.states == [] && r.queue == s.queue
  {
    var s1 := BeforeAction(s, c);
    assert s1.states == [] && s1.tapHoldTimeout == 0;
  }

  /// A key is pressed on an empty layout and found to be `a`.
  lemma PressStartsWait(cfg: Config, c: Coord, a: Action, rest: seq<nat>)
    requires ResolveCoord(cfg, c, LayerOrder(cfg, [])) == (a, rest) && a.HoldTapAction?
    ensures var s := Batch(cfg, INITIAL, [Press(c)]);
            && WaitsAlone(s, NewWait(cfg, a, c, 1, rest))
            && s.states == [] && s.queue == []
  {
    ReceiveAllIs(cfg, INITIAL, [Press(c)]);
    var s1 := TickTimers(ReceiveAll(cfg, INITIAL, [Press(c)]));
    assert s1 == INITIAL.(queue := [Queued(Press(c), 1)]);
    HoldTapWaits(cfg, s1.(queue := []), c, a, LayerOrder(cfg, []), rest);
    assert s1.queue[1..] == [];
    NoExtraWaits(cfg, TickPrimary(cfg, s1));
  }

  /// A default tap-hold key alone: pressed, kept down for `1 + m` ticks and released, it outputs
  /// its tap key if and only if the time it was down is short of the timeout, and otherwise its
  /// timeout key; a hold of exactly the timeout is a tap only for a timeout of one tick or without
  /// `quick_tap_hold_timeout`.
  lemma TapHoldKeyOutputs(cfg: Config, c: Coord, a: Action, rest: seq<nat>, m: nat) returns (trace: seq<LayoutValue>)
    requires ResolveCoord(cfg, c, LayerOrder(cfg, [])) == (a, rest) && a.HoldTapAction?
    requires a.config.Default? && a.timeout >= 1
    requires a.hold.KeyCode? && a.tap.KeyCode? && a.timeoutAction.KeyCode?
    ensures var held, t := 1 + m, a.timeout;
            var tap := held < t || (held == t && (t == 1 || !cfg.quickTapHoldTimeout));
            && IsTrace(cfg, trace, Idle(m) + [[Release(c)]])
            && trace[0] == Batch(cfg, INITIAL, [Press(c)]) && trace[0].states == []
            && OutputsLast(trace, NormalKey(if tap then a.tap.keycode else a.timeoutAction.keycode, c, false))
            && (tap ==> |trace| == m + 2)
  {
    var s, w := Batch(cfg, INITIAL, [Press(c)]), NewWait(cfg, a, c, 1, rest);
    var batches := Idle(m) + [[Release(c)]];
    PressStartsWait(cfg, c, a, rest);
    OneArrival(m, Release(c));
    assert batches[m] == [Release(c)];
    assert ReleasedAt(c, batches, m);
    ReleaseWhileWaiting(c, a.timeout, 1, cfg.quickTapHoldTimeout, [], batches, m);
    trace := WaitResolves(cfg, s, w, a, batches);
  }

  lemma {:induction false} OneArrival(m: nat, e: Event)
    ensures Arrivals(Idle(m) + [[e]]) == 1
    decreases m
  {
    var bs := Idle(m) + [[e]];
    if m == 0 {
      assert bs == [[e]] && bs[1..] == [];
    } else {
      assert bs[0] == [] && bs[1..] == Idle(m - 1) + [[e]];
      OneArrival(m - 1, e);
    }
  }
}
