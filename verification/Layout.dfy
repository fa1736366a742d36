/// The layout as it runs: objects updated in place, each method proved to make the step that
/// `LayoutModel` describes (keyberon/src/layout.rs).

module Layout {
  import opened Types
  import opened HoldTap
  import M = LayoutModel
  import opened LayoutModel

  // ---------------------------------------------------------------------------------------
  // In-place retention is the model's filter

  lemma UnflaggedStep(states: seq<KeyState>, i: nat)
    requires i < |states|
    ensures Unflagged(states[..i + 1]) == Unflagged(states[..i]) + if Clears(states[i]) then [] else [states[i]]
    ensures Flagged(states[..i + 1]) == Flagged(states[..i]) + if Clears(states[i]) then 1 else 0
  {
    assert states[..i + 1][..i] == states[..i];
  }

  lemma DropCoordStep(states: seq<KeyState>, i: nat, c: Coord)
    requires i < |states|
    ensures DropCoord(states[..i + 1], c) == DropCoord(states[..i], c) + if states[i].coord == c then [] else [states[i]]
  {
    assert states[..i + 1][..i] == states[..i];
  }

  lemma SurvivorsStep(states: seq<KeyState>, i: nat, c: Coord, retained: seq<Retainable>)
    requires i < |states|
    ensures Survivors(states[..i + 1], c, retained) ==
            Survivors(states[..i], c, retained) + if SurvivesRelease(states[i], c, retained) then [states[i]] else []
  {
    assert states[..i + 1][..i] == states[..i];
  }

  lemma WithoutStep(cs: seq<Coord>, i: nat, c: Coord)
    requires i < |cs|
    ensures Without(cs[..i + 1], c) == Without(cs[..i], c) + if cs[i] == c then [] else [cs[i]]
  {
    assert cs[..i + 1][..i] == cs[..i];
  }

  // ---------------------------------------------------------------------------------------
  // In-place retention

  method DropAt(states: seq<KeyState>, c: Coord) returns (kept: seq<KeyState>)
    ensures kept == DropCoord(states, c)
  {
    kept := [];
    for i := 0 to |states|
      invariant kept == DropCoord(states[..i], c)
    {
      DropCoordStep(states, i, c);
      if states[i].coord != c {
        kept := kept + [states[i]];
      }
    }
    assert states[..|states|] == states;
  }

  method KeepSurvivors(states: seq<KeyState>, c: Coord, retained: seq<Retainable>) returns (kept: seq<KeyState>)
    ensures kept == Survivors(states, c, retained)
  {
    kept := [];
    for i := 0 to |states|
      invariant kept == Survivors(states[..i], c, retained)
    {
      SurvivorsStep(states, i, c, retained);
      if SurvivesRelease(states[i], c, retained) {
        kept := kept + [states[i]];
      }
    }
    assert states[..|states|] == states;
  }

  /// The states without output chords, and how many were cleared.
  method ClearFlagged(states: seq<KeyState>) returns (kept: seq<KeyState>, cleared: nat)
    ensures kept == Unflagged(states) && cleared == Flagged(states)
  {
    kept, cleared := [], 0;
    for i := 0 to |states|
      invariant kept == Unflagged(states[..i]) && cleared == Flagged(states[..i])
    {
      UnflaggedStep(states, i);
      if Clears(states[i]) {
        cleared := cleared + 1;
      } else {
        kept := kept + [states[i]];
      }
    }
    assert states[..|states|] == states;
  }

  method RemoveCoord(cs: seq<Coord>, c: Coord) returns (kept: seq<Coord>)
    ensures kept == Without(cs, c)
  {
    kept := [];
    for i := 0 to |cs|
      invariant kept == Without(cs[..i], c)
    {
      WithoutStep(cs, i, c);
      if cs[i] != c {
        kept := kept + [cs[i]];
      }
    }
    assert cs[..|cs|] == cs;
  }

  // ---------------------------------------------------------------------------------------
  // One-shot keys

  class OneShotState {
    var keys: seq<Coord>
    var released: seq<Coord>
    var retained: seq<Retainable>
    var otherPressed: seq<Coord>
    var timeout: u16
    var endConfig: OneShotEndConfig
    var releaseOnNextTick: bool
    var pauseTicks: u16
    var ignoreTicks: u16
    const pauseDelay: u16

    ghost function Value(): OneShotValue
      reads this
    {
      OneShotValue(keys, released, retained, otherPressed, timeout, endConfig, releaseOnNextTick, pauseTicks, ignoreTicks)
    }

    constructor (pauseDelay: u16)
      ensures Value() == INITIAL_ONE_SHOT && this.pauseDelay == pauseDelay
    {
      this.pauseDelay := pauseDelay;
      keys, released, retained, otherPressed := [], [], [], [];
      timeout, endConfig, releaseOnNextTick := 0, EndOnFirstPress, false;
      pauseTicks, ignoreTicks := 0, 0;
    }

    method Tick() returns (due: seq<Coord>)
      modifies this
      ensures (Value(), due) == TickOneShot(old(Value()))
    {
      due := [];
      if |keys| == 0 {
        return;
      }
      ignoreTicks := SatSub(ignoreTicks, 1);
      timeout := SatSub(timeout, 1);
      if releaseOnNextTick || timeout == 0 {
        releaseOnNextTick := false;
        timeout := 0;
        pauseTicks := 0;
        ignoreTicks := 0;
        keys := [];
        otherPressed := [];
        retained := [];
        due, released := released, [];
      }
    }

    method PressOther(c: Coord)
      modifies this
      ensures Value() == HandleOtherPress(old(Value()), c, pauseDelay)
    {
      if |keys| == 0 || ignoreTicks > 0 {
        return;
      }
      if endConfig.EndOnFirstPress? || endConfig.EndOnFirstPressOrRepress? {
        if pauseDelay <= timeout {
          timeout := pauseDelay;
        }
        pauseTicks := pauseDelay;
      } else if |otherPressed| >= ONE_SHOT_MAX_ACTIVE {
        otherPressed := otherPressed[1..] + [c];
      } else {
        otherPressed := otherPressed + [c];
      }
    }

    method PressOneShot(c: Coord)
      modifies this
      ensures Value() == HandleOneShotPress(old(Value()), c)
    {
      if |keys| == 0 || ignoreTicks > 0 {
        return;
      }
      if (endConfig.EndOnFirstReleaseOrRepress? || endConfig.EndOnFirstPressOrRepress?) && c in keys {
        releaseOnNextTick := true;
      }
      released := RemoveCoord(released, c);
    }

    /// Whether the release is to be handled now, and a held-back release that no longer fits.
    method Release(c: Coord) returns (now: bool, overflow: Option<Coord>)
      modifies this
      ensures now <==> c !in old(keys)
      ensures overflow == if !now && |old(released)| >= ONE_SHOT_MAX_ACTIVE then Some(old(released)[0]) else None
      ensures Value() == HandleRelease(INITIAL.(oneshot := old(Value())), c).oneshot
    {
      now, overflow := true, None;
      if |keys| == 0 {
        return;
      }
      if c !in keys {
        if (endConfig.EndOnFirstRelease? || endConfig.EndOnFirstReleaseOrRepress?) && c in otherPressed {
          releaseOnNextTick := true;
        }
        return;
      }
      now := false;
      if |released| >= ONE_SHOT_MAX_ACTIVE {
        overflow := Some(released[0]);
        released := released[1..];
      }
      released := released + [c];
    }

    method AddStateToRetain(r: Retainable)
      modifies this
      ensures Value() == AddRetained(old(Value()), r)
    {
      if r !in retained {
        if |retained| >= ONE_SHOT_MAX_ACTIVE {
          retained := retained[1..];
        }
        retained := retained + [r];
      }
    }
  }

  // ---------------------------------------------------------------------------------------
  // The layout

  class Layout {
    const cfg: Config
    const oneshot: OneShotState
    var states: seq<KeyState>
    var waiting: Option<Waiting>
    var extraWaiting: seq<Waiting>
    var queue: seq<Queued>
    var lastPress: RealCoord
    var tapHoldTimeout: u16

    ghost function Value(): LayoutValue
      reads this, oneshot
    {
      LayoutValue(states, waiting, extraWaiting, queue, oneshot.Value(), lastPress, tapHoldTimeout)
    }

    ghost predicate Valid()
    {
      oneshot.pauseDelay == cfg.pauseDelay
    }

    constructor (cfg: Config)
      ensures this.cfg == cfg && Valid() && Value() == INITIAL && fresh(oneshot)
    {
      this.cfg := cfg;
      oneshot := new OneShotState(cfg.pauseDelay);
      states, waiting, extraWaiting, queue := [], None, [], [];
      lastPress, tapHoldTimeout := Coord(0, 0), 0;
    }

    /// A release that an action sends joins the queue.
    method QueueRelease(c: Coord)
      modifies this`queue
      ensures Value() == Enqueue(old(Value()), Release(c))
    {
      queue := queue + [Queued(Release(c), 0)];
    }

    method PushState(x: KeyState)
      modifies this`states
      ensures states == M.PushState(old(states), x)
    {
      if |states| < MAX_STATES {
        states := states + [x];
      }
    }

    method UpdateLastPress(c: Coord)
      modifies this`lastPress
      ensures Value() == M.UpdateLastPress(old(Value()), c)
    {
      if c.row == 0 {
        lastPress := c;
      }
    }

    /// The layers to search for a key, most recent held layer first.
    method LayerOrder() returns (order: seq<nat>)
      ensures order == M.LayerOrder(cfg, states)
    {
      var held: seq<nat> := [];
      for i := 0 to |states|
        invariant held == HeldLayers(states[..i])
      {
        assert states[..i + 1][..i] == states[..i];
        if states[i].LayerModifier? {
          held := [states[i].layer] + held;
        }
      }
      assert states[..|states|] == states;
      var current := if |held| > 0 then held[0] else cfg.defaultLayer;
      if cfg.transResolutionV2 {
        order := if |held| <= MAX_ACTIVE_LAYERS then held else held[..MAX_ACTIVE_LAYERS];
        order := PushLayer(order, cfg.defaultLayer);
        if cfg.delegateToFirstLayer && current != 0 && cfg.defaultLayer != 0 {
          order := PushLayer(order, 0);
        }
      } else {
        order := [current];
        if cfg.delegateToFirstLayer && current != 0 {
          order := order + [0];
        }
      }
    }

    method Resolve(c: Coord, stack: seq<nat>) returns (a: Action, rest: seq<nat>)
      ensures (a, rest) == ResolveCoord(cfg, c, stack)
    {
      rest := stack;
      while |rest| > 0
        invariant ResolveCoord(cfg, c, stack) == ResolveCoord(cfg, c, rest)
      {
        a := ActionAt(cfg, rest[0], c);
        rest := rest[1..];
        if !a.Trans? {
          return;
        }
      }
      a := if c.row == 0 then cfg.sourceKeys(c.col) else NoOp;
    }

    /// The clean-up in front of every action.
    method BeforeAction(c: Coord)
      modifies this, oneshot
      ensures Value() == M.BeforeAction(old(Value()), c)
    {
      if lastPress != c && c.row == 0 {
        tapHoldTimeout := 0;
      }
      var kept, cleared := ClearFlagged(states);
      states := kept;
      oneshot.pauseTicks := WrapAdd(oneshot.pauseTicks, 2 * cleared);
    }

    method PlainAction(a: Action, c: Coord, isOneShot: bool)
      requires Valid()
      modifies this, oneshot
      ensures Value() == M.PlainAction(cfg, old(Value()), a, c, isOneShot)
    {
      match a {
        case NoOp =>
          if !isOneShot && c != TRIGGER_TAPHOLD_COORD {
            oneshot.PressOther(c);
          }
          PushState(NoOpInput(c));
        case KeyCode(kc) =>
          UpdateLastPress(c);
          PushState(NormalKey(kc, c, false));
          if isOneShot {
            oneshot.AddStateToRetain(RetainKey(c, kc));
          } else {
            oneshot.PressOther(c);
          }
        case MultipleKeyCodes(kcs) =>
          UpdateLastPress(c);
          PressKeys(kcs, c, !isOneShot);
          if isOneShot {
            RetainKeys(kcs, c);
          } else {
            oneshot.PressOther(c);
          }
        case Layer(l) =>
          UpdateLastPress(c);
          PushState(LayerModifier(l, c));
          if isOneShot {
            oneshot.AddStateToRetain(RetainLayer(c, l));
          } else {
            oneshot.PressOther(c);
          }
        case OneShotIgnoreEventsTicks(n) =>
          UpdateLastPress(c);
          oneshot.ignoreTicks := n;
        case _ =>
      }
    }

    method PressKeys(kcs: seq<nat>, c: Coord, clear: bool)
      modifies this`states
      ensures states == PushKeys(old(states), kcs, c, clear)
    {
      for i := 0 to |kcs|
        invariant PushKeys(states, kcs[i..], c, clear) == PushKeys(old(states), kcs, c, clear)
      {
        assert kcs[i..][1..] == kcs[i + 1..];
        PushState(NormalKey(kcs[i], c, clear));
      }
    }

    method RetainKeys(kcs: seq<nat>, c: Coord)
      modifies oneshot
      ensures oneshot.Value() == AddRetainedKeys(old(oneshot.Value()), c, kcs)
    {
      for i := 0 to |kcs|
        invariant AddRetainedKeys(oneshot.Value(), c, kcs[i..]) == AddRetainedKeys(old(oneshot.Value()), c, kcs)
      {
        assert kcs[i..][1..] == kcs[i + 1..];
        oneshot.AddStateToRetain(RetainKey(c, kcs[i]));
      }
    }

    method StartWaiting(w: Waiting, interval: u16)
      modifies this
      ensures Value() == M.StartWaiting(old(Value()), w, interval)
    {
      if waiting.Some? {
        if |extraWaiting| >= EXTRA_WAITING_LEN {
          extraWaiting := extraWaiting[1..];
        }
        extraWaiting := extraWaiting + [w];
      } else {
        waiting := Some(w);
      }
      tapHoldTimeout := interval;
      UpdateLastPress(w.timer.coord);
    }

    method ActivateOneShot(c: Coord, t: u16, endConfig: OneShotEndConfig)
      modifies this, oneshot
      ensures Value() == M.ActivateOneShot(old(Value()), c, t, endConfig)
    {
      oneshot.PressOneShot(c);
      oneshot.timeout := t;
      oneshot.endConfig := endConfig;
      if |oneshot.keys| >= ONE_SHOT_MAX_ACTIVE {
        var first := oneshot.keys[0];
        oneshot.keys := oneshot.keys[1..] + [c];
        QueueRelease(first);
      } else {
        oneshot.keys := oneshot.keys + [c];
      }
    }

    /// Performs an action for the key at `c`; the layers below are searched for transparent ones.
    method DoAction(action: Action, c: Coord, delay: u16, isOneShot: bool, stack: seq<nat>)
      requires Valid()
      modifies this, oneshot
      ensures Value() == M.DoAction(cfg, old(Value()), action, c, delay, isOneShot, stack)
      decreases |stack|, action, 1
    {
      var a, rest := action, stack;
      if action.Trans? {
        a, rest := Resolve(c, stack);
      }
      BeforeAction(c);
      if a.MultipleActions? {
        UpdateLastPress(c);
        DoActions(a.actions, c, delay, isOneShot, rest);
      } else if a.HoldTapAction? {
        HoldTapBody(a, c, delay, isOneShot, rest);
      } else if a.OneShot? {
        UpdateLastPress(c);
        DoAction(a.action, c, delay, true, []);
        ActivateOneShot(c, a.oneshotTimeout, a.endConfig);
      } else {
        PlainAction(a, c, isOneShot);
      }
    }

    method HoldTapBody(a: Action, c: Coord, delay: u16, isOneShot: bool, stack: seq<nat>)
      requires Valid() && a.HoldTapAction?
      modifies this, oneshot
      ensures Value() == M.HoldTapBody(cfg, old(Value()), a, c, delay, isOneShot, stack)
      decreases |stack|, a, 0
    {
      if a.tapHoldInterval == 0 || c != lastPress || tapHoldTimeout == 0 {
        StartWaiting(NewWait(cfg, a, c, delay, stack), a.tapHoldInterval);
      } else {
        tapHoldTimeout := 0;
        DoAction(a.tap, c, delay, isOneShot, stack);
        UpdateLastPress(c);
      }
    }

    method DoActions(acts: seq<Action>, c: Coord, delay: u16, isOneShot: bool, stack: seq<nat>)
      requires Valid()
      modifies this, oneshot
      ensures Value() == M.DoActions(cfg, old(Value()), acts, c, delay, isOneShot, stack)
      decreases |stack|, acts, 0
    {
      for i := 0 to |acts|
        invariant M.DoActions(cfg, Value(), acts[i..], c, delay, isOneShot, stack) ==
                  M.DoActions(cfg, old(Value()), acts, c, delay, isOneShot, stack)
      {
        assert acts[i..][0] == acts[i] && acts[i..][1..] == acts[i + 1..];
        DoAction(acts[i], c, delay, isOneShot, stack);
      }
    }

    method ReleaseKey(c: Coord)
      modifies this, oneshot
      ensures Value() == HandleRelease(old(Value()), c)
    {
      var now, overflow := oneshot.Release(c);
      if now {
        states := DropAt(states, c);
      } else {
        states := KeepSurvivors(states, c, oneshot.retained);
      }
      if overflow.Some? {
        states := DropAt(states, overflow.value);
      }
    }

    method Dequeue(e: Event, since: u16)
      requires Valid()
      modifies this, oneshot
      ensures Value() == M.Dequeue(cfg, old(Value()), e, since)
    {
      match e {
        case Release(c) =>
          ReleaseKey(c);
        case Press(c) =>
          var order := LayerOrder();
          DoAction(Trans, c, since, false, order);
      }
    }

    /// A wait that has been taken out of the layout becomes its action.
    method WaitingInto(w: Waiting, a: WaitingAction)
      requires Valid()
      modifies this, oneshot
      ensures Value() == M.WaitingInto(cfg, old(Value()), w, a)
    {
      if !a.Tap? && w.timer.coord == lastPress {
        tapHoldTimeout := 0;
      }
      if a.Hold? {
        oneshot.pauseTicks := cfg.pauseDelay;
      }
      assert Value() == ResolvedFrom(cfg, old(Value()), w, a);
      DoAction(ResolvedAction(w, a), w.timer.coord, ResolvedDelay(w), false, w.layerStack);
      if a.Tap? {
        oneshot.pauseTicks := cfg.pauseDelay;
      }
    }

    /// A key event joins the queue; what falls out of a full queue is handled at once.
    method Event(e: Event)
      requires Valid()
      modifies this, oneshot
      ensures Value() == Receive(cfg, old(Value()), e)
    {
      if |queue| < QUEUE_SIZE {
        queue := queue + [Queued(e, 0)];
      } else {
        var first := queue[0];
        queue := queue[1..] + [Queued(e, 0)];
        HoldAllWaits();
        Dequeue(first.event, first.since);
      }
    }

    method HoldAllWaits()
      requires Valid()
      modifies this, oneshot
      ensures Value() == HoldWaits(cfg, old(Value()), EXTRA_WAITING_LEN)
    {
      if waiting.Some? {
        var w := waiting.value;
        waiting := None;
        WaitingInto(w, Hold);
      }
      assert Value() == HoldPrimary(cfg, old(Value()));
      for i := 0 to EXTRA_WAITING_LEN
        invariant Value() == HoldWaits(cfg, old(Value()), i)
      {
        HoldExtraWait(i);
      }
    }

    method HoldExtraWait(i: nat)
      requires Valid()
      modifies this, oneshot
      ensures Value() == HoldExtra(cfg, old(Value()), i)
    {
      if i < |extraWaiting| {
        var w := extraWaiting[i];
        extraWaiting := RemoveAt(extraWaiting, i);
        WaitingInto(w, Hold);
      }
    }

    method TickTimers()
      modifies this, oneshot
      ensures Value() == M.TickTimers(old(Value()))
    {
      queue := TickAll(queue);
      tapHoldTimeout := SatSub(tapHoldTimeout, 1);
      var due := oneshot.Tick();
      ghost var start := Value();
      for i := 0 to |due|
        invariant ReleaseAll(Value(), due[i..]) == ReleaseAll(start, due)
      {
        assert due[i..][1..] == due[i + 1..];
        ReleaseKey(due[i]);
      }
    }

    method TickPrimary()
      requires Valid()
      modifies this, oneshot
      ensures Value() == M.TickPrimary(cfg, old(Value()))
    {
      if waiting.Some? {
        var w := waiting.value;
        var t, a := TickWaiting(w.timer, queue);
        if a.Some? {
          waiting := None;
          WaitingInto(w.(timer := t), a.value);
        } else {
          waiting := Some(w.(timer := t));
        }
      } else if |extraWaiting| == 0 {
        if oneshot.pauseTicks > 0 {
          oneshot.pauseTicks := oneshot.pauseTicks - 1;
        } else if |queue| > 0 {
          var first := queue[0];
          queue := queue[1..];
          Dequeue(first.event, first.since);
        }
      }
    }

    /// Ticks the extra waits up to the first that resolves.
    method TickExtraWaits() returns (n: nat, first: Option<WaitingAction>)
      modifies this`extraWaiting
      ensures n == FirstResolved(old(extraWaiting), queue) && extraWaiting == Ticked(old(Value()))
      ensures first == if OneResolves(old(Value())) then Some(FirstAction(old(Value()))) else None
    {
      ghost var ws := extraWaiting;
      n, first := 0, None;
      while n < |extraWaiting|
        invariant 0 <= n <= |extraWaiting| == |ws|
        invariant extraWaiting == TickWaits(ws, queue, n)
        invariant forall k :: 0 <= k < n ==> WaitingTick(ws[k].timer, queue).1.None?
      {
        var w := extraWaiting[n];
        var t, a := TickWaiting(w.timer, queue);
        extraWaiting := extraWaiting[n := w.(timer := t)];
        if a.Some? {
          first := a;
          return;
        }
        n := n + 1;
      }
    }

    method TickExtraWaiting()
      requires Valid()
      modifies this, oneshot
      ensures Value() == M.TickExtra(cfg, old(Value()))
    {
      var n, first := TickExtraWaits();
      if first.Some? {
        var w := extraWaiting[n];
        extraWaiting := RemoveAt(extraWaiting, n);
        WaitingInto(w, first.value);
      }
    }

    /// One tick of the layout.
    method Tick()
      requires Valid()
      modifies this, oneshot
      ensures Value() == M.Tick(cfg, old(Value()))
    {
      TickTimers();
      TickPrimary();
      TickExtraWaiting();
    }
  }
}
