/// What is pending in a layout, as a measure, and what each action adds to it at most
/// (keyberon/src/layout.rs).

module PendingWork {
  import opened Types
  import opened LayoutModel
  import opened NoStuckKeys

  /// More layers than any layer stack can list.
  const MAX_STACK := MAX_ACTIVE_LAYERS

  // ---------------------------------------------------------------------------------------
  // The ticks that an action can still cost

  ghost function Weight(cfg: Config, a: Action, c: Coord, depth: nat): (w: nat)
    decreases depth, 1, a
  {
    match a
    case Trans => TransWeight(cfg, c, depth)
    case MultipleActions(acts) => WeightAll(cfg, acts, c, depth)
    case HoldTapAction(t, hold, tap, timeoutAction, _, _) =>
      t + 1 + cfg.pauseDelay +
      Weight(cfg, hold, c, depth) + Weight(cfg, tap, c, depth) + Weight(cfg, timeoutAction, c, depth)
    case OneShot(inner, t, _) => Weight(cfg, inner, c, 0) + t + 2
    case _ => PlainWeight(cfg, a)
  }

  function PlainWeight(cfg: Config, a: Action): nat
  {
    cfg.pauseDelay + if a.MultipleKeyCodes? then 2 * |a.keycodes| else 0
  }

  ghost function WeightAll(cfg: Config, acts: seq<Action>, c: Coord, depth: nat): (w: nat)
    decreases depth, 1, acts
  {
    if acts == [] then 0 else Weight(cfg, acts[0], c, depth) + WeightAll(cfg, acts[1..], c, depth)
  }

  /// A bound for whatever a transparent action resolves to in a stack of `depth` layers.
  ghost function TransWeight(cfg: Config, c: Coord, depth: nat): (w: nat)
    ensures w >= cfg.pauseDelay
    decreases depth, 0
  {
    if depth == 0 then cfg.pauseDelay
    else TransWeight(cfg, c, depth - 1) + LayersWeight(cfg, c, depth - 1, |cfg.layers|)
  }

  /// The actions of the first `n` layers at `c`.
  ghost function LayersWeight(cfg: Config, c: Coord, depth: nat, n: nat): (w: nat)
    requires n <= |cfg.layers|
    ensures forall l :: 0 <= l < n ==> Weight(cfg, cfg.layers[l](c), c, depth) <= w
    decreases depth, 2, n
  {
    if n == 0 then 0
    else LayersWeight(cfg, c, depth, n - 1) + Weight(cfg, cfg.layers[n - 1](c), c, depth)
  }

  lemma {:induction false} TransWeightGrows(cfg: Config, c: Coord, m: nat, n: nat)
    requires m <= n
    ensures TransWeight(cfg, c, m) <= TransWeight(cfg, c, n)
    decreases n
  {
    if m < n {
      TransWeightGrows(cfg, c, m, n - 1);
    }
  }

  lemma {:induction false} ResolvedWeight(cfg: Config, c: Coord, stack: seq<nat>)
    ensures var (a, rest) := ResolveCoord(cfg, c, stack);
            Weight(cfg, a, c, |rest|) <= TransWeight(cfg, c, |stack|)
    decreases |stack|
  {
    if stack != [] && ActionAt(cfg, stack[0], c).Trans? {
      ResolvedWeight(cfg, c, stack[1..]);
    }
  }

  // ---------------------------------------------------------------------------------------
  // The measure

  ghost function QueueWeight(cfg: Config, q: seq<Queued>): (w: nat)
  {
    if q == [] then 0
    else (if q[0].event.Press? then TransWeight(cfg, q[0].event.coord, MAX_STACK) else 0) + 1 + QueueWeight(cfg, q[1..])
  }

  ghost function WaitWeight(cfg: Config, w: Waiting): (n: nat)
    ensures n > w.timer.timeout
  {
    var (c, depth) := (w.timer.coord, |w.layerStack|);
    w.timer.timeout + 1 + cfg.pauseDelay +
    Weight(cfg, w.hold, c, depth) + Weight(cfg, w.tap, c, depth) + Weight(cfg, w.timeoutAction, c, depth)
  }

  ghost function WaitsWeight(cfg: Config, ws: seq<Waiting>): (n: nat)
  {
    if ws == [] then 0 else WaitWeight(cfg, ws[0]) + WaitsWeight(cfg, ws[1..])
  }

  ghost function OneShotWeight(o: OneShotValue): (n: nat)
  {
    o.pauseTicks + if o.keys == [] then 0 else 1 + o.timeout
  }

  ghost function Measure(cfg: Config, s: LayoutValue): (n: nat)
  {
    QueueWeight(cfg, s.queue) + (if s.waiting.Some? then WaitWeight(cfg, s.waiting.value) else 0) +
    WaitsWeight(cfg, s.extra) + OneShotWeight(s.oneshot) + 2 * Flagged(s.states)
  }

  /// The states fit their vector, and no wait restarts its own timeout.
  ghost predicate WellFormed(s: LayoutValue)
  {
    && |s.states| <= MAX_STATES
    && (s.waiting.Some? ==> s.waiting.value.timer.resetTo.None?)
    && (forall w :: w in s.extra ==> w.timer.resetTo.None?)
  }

  // ---------------------------------------------------------------------------------------
  // Lists

  lemma QueueWeightAppend(cfg: Config, q: seq<Queued>, r: seq<Queued>)
    ensures QueueWeight(cfg, q + r) == QueueWeight(cfg, q) + QueueWeight(cfg, r)
  {
    if q == [] {
      assert q + r == r;
    } else {
      assert (q + r)[1..] == q[1..] + r;
      QueueWeightAppend(cfg, q[1..], r);
    }
  }

  lemma QueueWeightTicks(cfg: Config, q: seq<Queued>)
    ensures QueueWeight(cfg, TickAll(q)) == QueueWeight(cfg, q)
  {
    if q != [] {
      assert TickAll(q)[1..] == TickAll(q[1..]);
      QueueWeightTicks(cfg, q[1..]);
    }
  }

  lemma WaitsWeightAppend(cfg: Config, v: seq<Waiting>, w: seq<Waiting>)
    ensures WaitsWeight(cfg, v + w) == WaitsWeight(cfg, v) + WaitsWeight(cfg, w)
  {
    if v == [] {
      assert v + w == w;
    } else {
      assert (v + w)[1..] == v[1..] + w;
      WaitsWeightAppend(cfg, v[1..], w);
    }
  }

  lemma {:induction false} RetainFlagged(states: seq<KeyState>, keep: KeyState -> bool)
    ensures Flagged(Retain(states, keep)) <= Flagged(states)
    decreases |states|
  {
    if states != [] {
      var n := |states| - 1;
      RetainFlagged(states[..n], keep);
      var r := Retain(states[..n], keep);
      if keep(states[n]) {
        assert (r + [states[n]])[..|r|] == r;
      } else {
        assert r + [] == r;
      }
    }
  }

  lemma {:induction false} NoneFlagged(states: seq<KeyState>)
    requires forall x :: x in states ==> !Clears(x)
    ensures Flagged(states) == 0
    decreases |states|
  {
    if states != [] {
      assert states[|states| - 1] in states;
      NoneFlagged(states[..|states| - 1]);
    }
  }

  lemma PushStateFlagged(states: seq<KeyState>, x: KeyState)
    requires |states| <= MAX_STATES
    ensures |PushState(states, x)| <= MAX_STATES
    ensures Flagged(PushState(states, x)) <= Flagged(states) + if Clears(x) then 1 else 0
  {
    assert (states + [x])[..|states|] == states;
  }

  lemma {:induction false} PushKeysFlagged(states: seq<KeyState>, kcs: seq<nat>, c: Coord, clear: bool)
    requires |states| <= MAX_STATES
    ensures |PushKeys(states, kcs, c, clear)| <= MAX_STATES
    ensures Flagged(PushKeys(states, kcs, c, clear)) <= Flagged(states) + |kcs|
    decreases |kcs|
  {
    if kcs != [] {
      PushStateFlagged(states, NormalKey(kcs[0], c, clear));
      PushKeysFlagged(PushState(states, NormalKey(kcs[0], c, clear)), kcs[1..], c, clear);
    }
  }

  // ---------------------------------------------------------------------------------------
  // Actions cost no more than their weight

  /// From `s` to `r` at most `cost` is added to the measure.
  ghost predicate Costs(cfg: Config, s: LayoutValue, r: LayoutValue, cost: nat)
  {
    WellFormed(r) && Measure(cfg, r) <= Measure(cfg, s) + cost
  }

  lemma BeforeActionIsFree(cfg: Config, s: LayoutValue, c: Coord)
    requires WellFormed(s)
    ensures Costs(cfg, s, BeforeAction(s, c), 0)
  {
    NoneFlagged(BeforeAction(s, c).states);
  }

  lemma OtherPressCosts(o: OneShotValue, c: Coord, pauseDelay: u16)
    ensures OneShotWeight(HandleOtherPress(o, c, pauseDelay)) <= OneShotWeight(o) + pauseDelay
  {
  }

  /// What a plain action does to the states.
  ghost function PlainStates(states: seq<KeyState>, a: Action, c: Coord, isOneShot: bool): seq<KeyState>
  {
    match a
    case NoOp => PushState(states, NoOpInput(c))
    case KeyCode(kc) => PushState(states, NormalKey(kc, c, false))
    case MultipleKeyCodes(kcs) => PushKeys(states, kcs, c, !isOneShot)
    case Layer(l) => PushState(states, LayerModifier(l, c))
    case _ => states
  }

  lemma PlainStatesAre(cfg: Config, s: LayoutValue, a: Action, c: Coord, isOneShot: bool)
    ensures PlainAction(cfg, s, a, c, isOneShot).states == PlainStates(s.states, a, c, isOneShot)
  {
  }

  lemma PlainStatesCost(cfg: Config, s: LayoutValue, a: Action, c: Coord, isOneShot: bool)
    requires |s.states| <= MAX_STATES
    ensures var r := PlainAction(cfg, s, a, c, isOneShot);
            && |r.states| <= MAX_STATES
            && Flagged(r.states) <= Flagged(s.states) + if a.MultipleKeyCodes? then |a.keycodes| else 0
  {
    PlainStatesAre(cfg, s, a, c, isOneShot);
    match a {
      case NoOp => PushStateFlagged(s.states, NoOpInput(c));
      case KeyCode(kc) => PushStateFlagged(s.states, NormalKey(kc, c, false));
      case MultipleKeyCodes(kcs) => PushKeysFlagged(s.states, kcs, c, !isOneShot);
      case Layer(l) => PushStateFlagged(s.states, LayerModifier(l, c));
      case _ =>
    }
  }

  lemma PlainOneShotCost(cfg: Config, s: LayoutValue, a: Action, c: Coord, isOneShot: bool)
    ensures var r := PlainAction(cfg, s, a, c, isOneShot);
            && r == s.(states := r.states, oneshot := r.oneshot, lastPress := r.lastPress)
            && OneShotWeight(r.oneshot) <= OneShotWeight(s.oneshot) + cfg.pauseDelay
  {
    OtherPressCosts(s.oneshot, c, cfg.pauseDelay);
    if a.MultipleKeyCodes? {
      RetainedKeysFrame(s.oneshot, c, a.keycodes);
    }
  }

  lemma PlainActionCosts(cfg: Config, s: LayoutValue, a: Action, c: Coord, isOneShot: bool)
    requires WellFormed(s)
    ensures Costs(cfg, s, PlainAction(cfg, s, a, c, isOneShot), PlainWeight(cfg, a))
  {
    PlainStatesCost(cfg, s, a, c, isOneShot);
    PlainOneShotCost(cfg, s, a, c, isOneShot);
  }

  lemma StartWaitingCosts(cfg: Config, s: LayoutValue, w: Waiting, interval: u16)
    requires WellFormed(s) && w.timer.resetTo.None?
    ensures Costs(cfg, s, StartWaiting(s, w, interval), WaitWeight(cfg, w))
  {
    var r := StartWaiting(s, w, interval);
    WaitsWeightAppend(cfg, s.extra, [w]);
    if s.extra != [] {
      WaitsWeightAppend(cfg, s.extra[1..], [w]);
    }
  }

  lemma ActivateOneShotCosts(cfg: Config, s: LayoutValue, c: Coord, t: u16, endConfig: OneShotEndConfig)
    requires WellFormed(s)
    ensures Costs(cfg, s, ActivateOneShot(s, c, t, endConfig), t + 2)
  {
    var r := ActivateOneShot(s, c, t, endConfig);
    if s.oneshot.keys != [] {
      QueueWeightAppend(cfg, s.queue, [Queued(Release(s.oneshot.keys[0]), 0)]);
    }
  }

  lemma {:induction false} DoActionCosts(cfg: Config, s: LayoutValue, action: Action, c: Coord, delay: u16,
                                         isOneShot: bool, stack: seq<nat>)
    requires WellFormed(s)
    ensures Costs(cfg, s, DoAction(cfg, s, action, c, delay, isOneShot, stack), Weight(cfg, action, c, |stack|))
    decreases |stack|, action, 1
  {
    var (a, rest) := if action.Trans? then ResolveCoord(cfg, c, stack) else (action, stack);
    if action.Trans? {
      ResolvedWeight(cfg, c, stack);
    }
    var s1 := BeforeAction(s, c);
    BeforeActionIsFree(cfg, s, c);
    var s2 := UpdateLastPress(s1, c);
    LastPressIsFree(cfg, s1, c);
    if a.MultipleActions? {
      DoActionsCost(cfg, s2, a.actions, c, delay, isOneShot, rest);
    } else if a.HoldTapAction? {
      HoldTapCosts(cfg, s1, a, c, delay, isOneShot, rest);
    } else if a.OneShot? {
      DoActionCosts(cfg, s2, a.action, c, delay, true, []);
      ActivateOneShotCosts(cfg, DoAction(cfg, s2, a.action, c, delay, true, []), c, a.oneshotTimeout, a.endConfig);
    } else {
      PlainActionCosts(cfg, s1, a, c, isOneShot);
    }
  }

  lemma NewWaitWeight(cfg: Config, a: Action, c: Coord, delay: u16, stack: seq<nat>)
    requires a.HoldTapAction?
    ensures WaitWeight(cfg, NewWait(cfg, a, c, delay, stack)) <= Weight(cfg, a, c, |stack|)
    ensures Weight(cfg, a.tap, c, |stack|) <= Weight(cfg, a, c, |stack|)
  {
  }

  /// The body of a hold-tap: it either starts a wait or taps at once.
  lemma {:induction false} HoldTapCosts(cfg: Config, s: LayoutValue, a: Action, c: Coord, delay: u16,
                                        isOneShot: bool, stack: seq<nat>)
    requires WellFormed(s) && a.HoldTapAction?
    ensures Costs(cfg, s, HoldTapBody(cfg, s, a, c, delay, isOneShot, stack), Weight(cfg, a, c, |stack|))
    decreases |stack|, a, 0
  {
    NewWaitWeight(cfg, a, c, delay, stack);
    if a.tapHoldInterval == 0 || c != s.lastPress || s.tapHoldTimeout == 0 {
      StartWaitingCosts(cfg, s, NewWait(cfg, a, c, delay, stack), a.tapHoldInterval);
    } else {
      var s1 := s.(tapHoldTimeout := 0);
      DoActionCosts(cfg, s1, a.tap, c, delay, isOneShot, stack);
      LastPressIsFree(cfg, DoAction(cfg, s1, a.tap, c, delay, isOneShot, stack), c);
    }
  }

  lemma LastPressIsFree(cfg: Config, s: LayoutValue, c: Coord)
    requires WellFormed(s)
    ensures Costs(cfg, s, UpdateLastPress(s, c), 0)
  {
  }

  lemma {:induction false} DoActionsCost(cfg: Config, s: LayoutValue, acts: seq<Action>, c: Coord, delay: u16,
                                         isOneShot: bool, stack: seq<nat>)
    requires WellFormed(s)
    ensures Costs(cfg, s, DoActions(cfg, s, acts, c, delay, isOneShot, stack), WeightAll(cfg, acts, c, |stack|))
    decreases |stack|, acts, 0
  {
    if acts != [] {
      DoActionCosts(cfg, s, acts[0], c, delay, isOneShot, stack);
      DoActionsCost(cfg, DoAction(cfg, s, acts[0], c, delay, isOneShot, stack), acts[1..], c, delay, isOneShot, stack);
    }
  }
}
