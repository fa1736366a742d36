/// How many one-shot keys can become active, and when the queue has room for the release of the oldest
/// that an action sends when it activates a seventeenth (keyberon/src/layout.rs).

module OneShotRoom {
  import opened Types
  import opened HoldTap
  import opened LayoutModel
  import opened NoStuckKeys
  import opened PendingWork
  import opened Quiescence

  function Max(a: nat, b: nat): nat
  {
    if a < b then b else a
  }

  // ---------------------------------------------------------------------------------------
  // The one-shot keys that an action can activate

  /// Of a hold-tap one action is done, of a transparent action one that it resolves to; only the
  /// actions of a list are all done.
  ghost function Shots(cfg: Config, a: Action, c: Coord, depth: nat): (n: nat)
    decreases depth, 1, a
  {
    match a
    case Trans => TransShots(cfg, c, depth)
    case MultipleActions(acts) => AllShots(cfg, acts, c, depth)
    case HoldTapAction(_, hold, tap, timeoutAction, _, _) =>
      Max(Shots(cfg, hold, c, depth), Max(Shots(cfg, tap, c, depth), Shots(cfg, timeoutAction, c, depth)))
    case OneShot(inner, _, _) => Shots(cfg, inner, c, 0) + 1
    case _ => 0
  }

  ghost function AllShots(cfg: Config, acts: seq<Action>, c: Coord, depth: nat): (n: nat)
    decreases depth, 1, acts
  {
    if acts == [] then 0 else Shots(cfg, acts[0], c, depth) + AllShots(cfg, acts[1..], c, depth)
  }

  /// A bound for whatever a transparent action resolves to in a stack of `depth` layers.
  ghost function TransShots(cfg: Config, c: Coord, depth: nat): (n: nat)
    decreases depth, 0
  {
    if depth == 0 then 0 else Max(TransShots(cfg, c, depth - 1), LayersShots(cfg, c, depth - 1, |cfg.layers|))
  }

  /// The actions of the first `n` layers at `c`.
  ghost function LayersShots(cfg: Config, c: Coord, depth: nat, n: nat): (r: nat)
    requires n <= |cfg.layers|
    ensures forall l :: 0 <= l < n ==> Shots(cfg, cfg.layers[l](c), c, depth) <= r
    decreases depth, 2, n
  {
    if n == 0 then 0 else Max(LayersShots(cfg, c, depth, n - 1), Shots(cfg, cfg.layers[n - 1](c), c, depth))
  }

  lemma {:induction false} TransShotsGrow(cfg: Config, c: Coord, m: nat, n: nat)
    requires m <= n
    ensures TransShots(cfg, c, m) <= TransShots(cfg, c, n)
    decreases n
  {
    if m < n {
      TransShotsGrow(cfg, c, m, n - 1);
    }
  }

  lemma {:induction false} ResolvedShots(cfg: Config, c: Coord, stack: seq<nat>)
    ensures var (a, rest) := ResolveCoord(cfg, c, stack);
            Shots(cfg, a, c, |rest|) <= TransShots(cfg, c, |stack|)
    decreases |stack|
  {
    if stack != [] && ActionAt(cfg, stack[0], c).Trans? {
      ResolvedShots(cfg, c, stack[1..]);
    }
  }

  /// No layer's own action at `c` activates more than `m` one-shot keys.
  ghost predicate AtMostPerLayer(cfg: Config, c: Coord, m: nat)
  {
    forall l, d: nat :: 0 <= l < |cfg.layers| && !cfg.layers[l](c).Trans? ==> Shots(cfg, cfg.layers[l](c), c, d) <= m
  }

  lemma {:induction false} LayersActivateFew(cfg: Config, c: Coord, depth: nat, n: nat, m: nat)
    requires n <= |cfg.layers| && AtMostPerLayer(cfg, c, m) && TransShots(cfg, c, depth) <= m
    ensures LayersShots(cfg, c, depth, n) <= m
    decreases n
  {
    if n > 0 {
      LayersActivateFew(cfg, c, depth, n - 1, m);
    }
  }

  /// A press activates no more one-shot keys than one layer's action, however many layers have one.
  lemma {:induction false} PressActivatesFew(cfg: Config, c: Coord, depth: nat, m: nat)
    requires AtMostPerLayer(cfg, c, m)
    ensures TransShots(cfg, c, depth) <= m
    decreases depth
  {
    if depth > 0 {
      PressActivatesFew(cfg, c, depth - 1, m);
      LayersActivateFew(cfg, c, depth - 1, |cfg.layers|, m);
    }
  }

  // ---------------------------------------------------------------------------------------
  // The one-shot keys that are active or may become so

  ghost function WaitShots(cfg: Config, w: Waiting): (n: nat)
  {
    var c := w.timer.coord;
    var depth := |w.layerStack|;
    Max(Shots(cfg, w.hold, c, depth), Max(Shots(cfg, w.tap, c, depth), Shots(cfg, w.timeoutAction, c, depth)))
  }

  ghost function WaitsShots(cfg: Config, ws: seq<Waiting>): (n: nat)
  {
    if ws == [] then 0 else WaitShots(cfg, ws[0]) + WaitsShots(cfg, ws[1..])
  }

  ghost function PossibleShots(cfg: Config, s: LayoutValue): (n: nat)
  {
    |s.oneshot.keys| + (if s.waiting.Some? then WaitShots(cfg, s.waiting.value) else 0) + WaitsShots(cfg, s.extra)
  }

  /// The press that is handled next, if the oldest queued event is one.
  ghost function FrontShots(cfg: Config, q: seq<Queued>): (n: nat)
  {
    if q != [] && q[0].event.Press? then TransShots(cfg, q[0].event.coord, MAX_ACTIVE_LAYERS) else 0
  }

  /// The releases that an action may have to queue when `n` one-shot keys may be active.
  function Excess(n: nat): nat
  {
    if n > ONE_SHOT_MAX_ACTIVE then n - ONE_SHOT_MAX_ACTIVE else 0
  }

  /// The one-shot keys that may be active after a tick: a press is handled only if no key waits.
  ghost function TickShots(cfg: Config, s: LayoutValue): nat
  {
    PossibleShots(cfg, s) + if s.waiting.None? && s.extra == [] then FrontShots(cfg, s.queue) else 0
  }

  /// A tick takes the oldest event off the queue.
  predicate Pops(s: LayoutValue)
  {
    s.waiting.None? && s.extra == [] && s.oneshot.pauseTicks == 0 && s.queue != []
  }

  /// The queue has room for the releases that the next input may queue. A key event acts only when it
  /// meets a full queue, which it leaves full.
  ghost predicate RoomForOneShots(cfg: Config, s: LayoutValue, i: Input)
  {
    match i
    case Key(_) => |s.queue| < QUEUE_SIZE || PossibleShots(cfg, s) + FrontShots(cfg, s.queue) <= ONE_SHOT_MAX_ACTIVE
    case TickInput => |s.queue| + Excess(TickShots(cfg, s)) <= if Pops(s) then QUEUE_SIZE + 1 else QUEUE_SIZE
  }

  lemma WaitsShotsAppend(cfg: Config, v: seq<Waiting>, w: seq<Waiting>)
    ensures WaitsShots(cfg, v + w) == WaitsShots(cfg, v) + WaitsShots(cfg, w)
  {
    if v == [] {
      assert v + w == w;
    } else {
      assert (v + w)[1..] == v[1..] + w;
      WaitsShotsAppend(cfg, v[1..], w);
    }
  }

  lemma RemovedWaitShots(cfg: Config, ws: seq<Waiting>, i: nat)
    requires i < |ws|
    ensures WaitsShots(cfg, ws) == WaitsShots(cfg, RemoveAt(ws, i)) + WaitShots(cfg, ws[i])
  {
    assert ws == ws[..i] + ([ws[i]] + ws[i + 1..]);
    WaitsShotsAppend(cfg, ws[..i], [ws[i]] + ws[i + 1..]);
    WaitsShotsAppend(cfg, ws[..i], ws[i + 1..]);
  }

  // ---------------------------------------------------------------------------------------
  // Actions activate no more than that

  /// From `s` to `r` at most `n` one-shot keys have become possible, each release queued has taken the
  /// place of one, and none was queued unless sixteen are active.
  ghost predicate Activates(cfg: Config, s: LayoutValue, r: LayoutValue, n: nat)
  {
    && |s.queue| <= |r.queue|
    && PossibleShots(cfg, r) + |r.queue| <= PossibleShots(cfg, s) + |s.queue| + n
    && |s.oneshot.keys| <= |r.oneshot.keys|
    && (r.queue == s.queue || |r.oneshot.keys| >= ONE_SHOT_MAX_ACTIVE)
  }

  lemma ActivatesWithinExcess(cfg: Config, s: LayoutValue, r: LayoutValue, n: nat)
    requires Activates(cfg, s, r, n)
    ensures PossibleShots(cfg, r) <= PossibleShots(cfg, s) + n
    ensures |r.queue| <= |s.queue| + Excess(PossibleShots(cfg, s) + n)
  {
  }

  lemma ActivatesNone(cfg: Config, s: LayoutValue, c: Coord)
    ensures Activates(cfg, s, BeforeAction(s, c), 0) && Activates(cfg, s, UpdateLastPress(s, c), 0)
  {
  }

  lemma PlainActivatesNone(cfg: Config, s: LayoutValue, a: Action, c: Coord, isOneShot: bool)
    ensures Activates(cfg, s, PlainAction(cfg, s, a, c, isOneShot), 0)
  {
    PlainKeepsRest(cfg, s, a, c, isOneShot);
  }

  lemma RingShots(cfg: Config, ws: seq<Waiting>, w: Waiting)
    ensures WaitsShots(cfg, PushRing(ws, w, EXTRA_WAITING_LEN)) <= WaitsShots(cfg, ws) + WaitShots(cfg, w)
  {
    WaitsShotsAppend(cfg, ws, [w]);
    if ws != [] {
      WaitsShotsAppend(cfg, ws[1..], [w]);
    }
  }

  lemma StartWaitingActivates(cfg: Config, s: LayoutValue, w: Waiting, interval: u16)
    ensures Activates(cfg, s, StartWaiting(s, w, interval), WaitShots(cfg, w))
  {
    RingShots(cfg, s.extra, w);
  }

  lemma OneShotActivates(cfg: Config, s: LayoutValue, c: Coord, t: u16, endConfig: OneShotEndConfig)
    ensures Activates(cfg, s, ActivateOneShot(s, c, t, endConfig), 1)
  {
  }

  lemma {:induction false} DoActionActivates(cfg: Config, s: LayoutValue, action: Action, c: Coord, delay: u16,
                                             isOneShot: bool, stack: seq<nat>)
    ensures Activates(cfg, s, DoAction(cfg, s, action, c, delay, isOneShot, stack), Shots(cfg, action, c, |stack|))
    decreases |stack|, action, 1
  {
    var (a, rest) := if action.Trans? then ResolveCoord(cfg, c, stack) else (action, stack);
    if action.Trans? {
      ResolvedShots(cfg, c, stack);
    }
    var s1 := BeforeAction(s, c);
    ActivatesNone(cfg, s, c);
    var s2 := UpdateLastPress(s1, c);
    ActivatesNone(cfg, s1, c);
    if a.MultipleActions? {
      DoActionsActivate(cfg, s2, a.actions, c, delay, isOneShot, rest);
    } else if a.HoldTapAction? {
      HoldTapActivates(cfg, s1, a, c, delay, isOneShot, rest);
    } else if a.OneShot? {
      DoActionActivates(cfg, s2, a.action, c, delay, true, []);
      OneShotActivates(cfg, DoAction(cfg, s2, a.action, c, delay, true, []), c, a.oneshotTimeout, a.endConfig);
    } else {
      PlainActivatesNone(cfg, s1, a, c, isOneShot);
    }
  }

  lemma {:induction false} HoldTapActivates(cfg: Config, s: LayoutValue, a: Action, c: Coord, delay: u16,
                                            isOneShot: bool, stack: seq<nat>)
    requires a.HoldTapAction?
    ensures Activates(cfg, s, HoldTapBody(cfg, s, a, c, delay, isOneShot, stack), Shots(cfg, a, c, |stack|))
    decreases |stack|, a, 0
  {
    if a.tapHoldInterval == 0 || c != s.lastPress || s.tapHoldTimeout == 0 {
      StartWaitingActivates(cfg, s, NewWait(cfg, a, c, delay, stack), a.tapHoldInterval);
    } else {
      var s1 := s.(tapHoldTimeout := 0);
      DoActionActivates(cfg, s1, a.tap, c, delay, isOneShot, stack);
      ActivatesNone(cfg, DoAction(cfg, s1, a.tap, c, delay, isOneShot, stack), c);
    }
  }

  lemma {:induction false} DoActionsActivate(cfg: Config, s: LayoutValue, acts: seq<Action>, c: Coord, delay: u16,
                                             isOneShot: bool, stack: seq<nat>)
    ensures Activates(cfg, s, DoActions(cfg, s, acts, c, delay, isOneShot, stack), AllShots(cfg, acts, c, |stack|))
    decreases |stack|, acts, 0
  {
    if acts != [] {
      DoActionActivates(cfg, s, acts[0], c, delay, isOneShot, stack);
      DoActionsActivate(cfg, DoAction(cfg, s, acts[0], c, delay, isOneShot, stack), acts[1..], c, delay, isOneShot, stack);
    }
  }

  // ---------------------------------------------------------------------------------------
  // Steps

  lemma ResolvingActivates(cfg: Config, s: LayoutValue, w: Waiting, a: WaitingAction)
    ensures Activates(cfg, s, WaitingInto(cfg, s, w, a), WaitShots(cfg, w))
  {
    DoActionActivates(cfg, ResolvedFrom(cfg, s, w, a), ResolvedAction(w, a), w.timer.coord, ResolvedDelay(w), false, w.layerStack);
  }

  lemma HoldActivatesNone(cfg: Config, s: LayoutValue, i: nat)
    ensures Activates(cfg, s, HoldPrimary(cfg, s), 0) && Activates(cfg, s, HoldExtra(cfg, s, i), 0)
  {
    if s.waiting.Some? {
      ResolvingActivates(cfg, s.(waiting := None), s.waiting.value, Hold);
    }
    if i < |s.extra| {
      RemovedWaitShots(cfg, s.extra, i);
      ResolvingActivates(cfg, s.(extra := RemoveAt(s.extra, i)), s.extra[i], Hold);
    }
  }

  lemma {:induction false} HoldsActivateNone(cfg: Config, s: LayoutValue, n: nat)
    ensures Activates(cfg, s, HoldWaits(cfg, s, n), 0)
    decreases n
  {
    if n == 0 {
      HoldActivatesNone(cfg, s, 0);
    } else {
      var t := HoldWaits(cfg, s, n - 1);
      HoldsActivateNone(cfg, s, n - 1);
      HoldActivatesNone(cfg, t, n - 1);
      assert HoldWaits(cfg, s, n) == HoldExtra(cfg, t, n - 1);
    }
  }

  lemma PressActivates(cfg: Config, s: LayoutValue, c: Coord, since: u16) returns (r: LayoutValue)
    ensures r == Dequeue(cfg, s, Press(c), since) && Activates(cfg, s, r, TransShots(cfg, c, MAX_ACTIVE_LAYERS))
  {
    var stack := LayerOrder(cfg, s.states);
    r := DoAction(cfg, s, Trans, c, since, false, stack);
    DoActionActivates(cfg, s, Trans, c, since, false, stack);
    TransShotsGrow(cfg, c, |stack|, MAX_ACTIVE_LAYERS);
  }

  lemma DequeueActivates(cfg: Config, s: LayoutValue, x: Queued) returns (r: LayoutValue)
    ensures r == Dequeue(cfg, s, x.event, x.since) && Activates(cfg, s, r, FrontShots(cfg, [x]))
  {
    match x.event {
      case Press(c) => r := PressActivates(cfg, s, c, x.since);
      case Release(c) => r := HandleRelease(s, c);
    }
  }

  lemma ReceiveFits(cfg: Config, s: LayoutValue, e: Event)
    requires |s.queue| <= QUEUE_SIZE
    ensures var r := Receive(cfg, s, e);
            && PossibleShots(cfg, r) <= PossibleShots(cfg, s) + FrontShots(cfg, s.queue)
            && (RoomForOneShots(cfg, s, Key(e)) ==> |r.queue| <= QUEUE_SIZE)
  {
    if |s.queue| == QUEUE_SIZE {
      var held := HoldWaits(cfg, Joined(s, e), EXTRA_WAITING_LEN);
      HoldsActivateNone(cfg, Joined(s, e), EXTRA_WAITING_LEN);
      var r := DequeueActivates(cfg, held, s.queue[0]);
    }
  }

  lemma {:induction false} ReleaseAllActivatesNone(cfg: Config, s: LayoutValue, cs: seq<Coord>)
    ensures var r := ReleaseAll(s, cs);
            PossibleShots(cfg, r) == PossibleShots(cfg, s) && r.queue == s.queue && r.waiting == s.waiting && r.extra == s.extra
    decreases |cs|
  {
    if cs != [] {
      ReleaseAllActivatesNone(cfg, HandleRelease(s, cs[0]), cs[1..]);
    }
  }

  lemma TimersActivateNone(cfg: Config, s: LayoutValue)
    ensures var r := TickTimers(s);
            && PossibleShots(cfg, r) <= PossibleShots(cfg, s)
            && r.queue == TickAll(s.queue) && r.waiting == s.waiting && r.extra == s.extra
            && (s.oneshot.pauseTicks == 0 ==> r.oneshot.pauseTicks == 0)
  {
    var (o, released) := TickOneShot(s.oneshot);
    var s1 := s.(queue := TickAll(s.queue), tapHoldTimeout := SatSub(s.tapHoldTimeout, 1), oneshot := o);
    ReleaseAllActivatesNone(cfg, s1, released);
    ReleaseAllKeepsPause(s1, released);
  }

  lemma {:induction false} ReleaseAllKeepsPause(s: LayoutValue, cs: seq<Coord>)
    ensures ReleaseAll(s, cs).oneshot.pauseTicks == s.oneshot.pauseTicks
    decreases |cs|
  {
    if cs != [] {
      ReleaseAllKeepsPause(HandleRelease(s, cs[0]), cs[1..]);
    }
  }

  /// The primary part of a tick, without the event that it may take off the queue.
  ghost function Popped(s: LayoutValue): LayoutValue
  {
    if Pops(s) then s.(queue := s.queue[1..]) else s
  }

  ghost function PrimaryShots(cfg: Config, s: LayoutValue): nat
  {
    if Pops(s) then FrontShots(cfg, s.queue) else 0
  }

  lemma PrimaryActivates(cfg: Config, s: LayoutValue)
    ensures Activates(cfg, Popped(s), TickPrimary(cfg, s), PrimaryShots(cfg, s))
  {
    if s.waiting.Some? {
      var (t, a) := WaitingTick(s.waiting.value.timer, s.queue);
      if a.Some? {
        ResolvingActivates(cfg, s.(waiting := None), s.waiting.value.(timer := t), a.value);
      }
    } else if Pops(s) {
      var r := DequeueActivates(cfg, Popped(s), s.queue[0]);
    }
  }

  lemma {:induction false} SameWaitsShots(cfg: Config, ws: seq<Waiting>, vs: seq<Waiting>)
    requires |ws| == |vs| && forall i :: 0 <= i < |ws| ==> WaitShots(cfg, ws[i]) == WaitShots(cfg, vs[i])
    ensures WaitsShots(cfg, ws) == WaitsShots(cfg, vs)
    decreases |ws|
  {
    if ws != [] {
      SameWaitsShots(cfg, ws[1..], vs[1..]);
    }
  }

  lemma TickedWaitsShots(cfg: Config, s: LayoutValue)
    ensures WaitsShots(cfg, Ticked(s)) == WaitsShots(cfg, s.extra)
  {
    TickedAreSame(s);
    SameWaitsShots(cfg, Ticked(s), s.extra);
  }

  lemma WithoutResolvedShots(cfg: Config, s: LayoutValue)
    requires OneResolves(s)
    ensures PossibleShots(cfg, s) == PossibleShots(cfg, WithoutResolved(s)) + WaitShots(cfg, ResolvedWait(s))
  {
    TickedWaitsShots(cfg, s);
    RemovedWaitShots(cfg, Ticked(s), FirstResolved(s.extra, s.queue));
  }

  lemma ExtraActivatesNone(cfg: Config, s: LayoutValue)
    ensures Activates(cfg, s, TickExtra(cfg, s), 0)
  {
    if OneResolves(s) {
      WithoutResolvedShots(cfg, s);
      ResolvingActivates(cfg, WithoutResolved(s), ResolvedWait(s), FirstAction(s));
    } else {
      TickedWaitsShots(cfg, s);
    }
  }

  lemma FrontShotsTicked(cfg: Config, q: seq<Queued>)
    ensures FrontShots(cfg, TickAll(q)) == FrontShots(cfg, q)
  {
  }

  lemma TickActivates(cfg: Config, s: LayoutValue)
    ensures var (s1, r) := (TickTimers(s), Tick(cfg, s));
            Activates(cfg, Popped(s1), r, PrimaryShots(cfg, s1))
  {
    var s1 := TickTimers(s);
    PrimaryActivates(cfg, s1);
    ExtraActivatesNone(cfg, TickPrimary(cfg, s1));
  }

  lemma TickFits(cfg: Config, s: LayoutValue)
    requires |s.queue| <= QUEUE_SIZE
    ensures var r := Tick(cfg, s);
            && PossibleShots(cfg, r) <= PossibleShots(cfg, s) + FrontShots(cfg, s.queue)
            && (RoomForOneShots(cfg, s, TickInput) ==> |r.queue| <= QUEUE_SIZE)
  {
    var s1 := TickTimers(s);
    TimersActivateNone(cfg, s);
    FrontShotsTicked(cfg, s.queue);
    TickActivates(cfg, s);
    ActivatesWithinExcess(cfg, Popped(s1), Tick(cfg, s), PrimaryShots(cfg, s1));
    assert PossibleShots(cfg, Popped(s1)) == PossibleShots(cfg, s1);
  }

  // ---------------------------------------------------------------------------------------
  // Runs

  /// Every step of the run finds room for the releases of one-shot keys.
  ghost predicate RoomThroughoutForOneShots(cfg: Config, s: LayoutValue, inputs: seq<Input>)
    decreases |inputs|
  {
    inputs != [] ==>
      RoomForOneShots(cfg, s, inputs[0]) && RoomThroughoutForOneShots(cfg, Step(cfg, s, inputs[0]), inputs[1..])
  }

  /// In every state of the run the queue keeps to its 32 places.
  ghost predicate FitsThroughout(cfg: Config, s: LayoutValue, inputs: seq<Input>)
    decreases |inputs|
  {
    |s.queue| <= QUEUE_SIZE && (inputs != [] ==> FitsThroughout(cfg, Step(cfg, s, inputs[0]), inputs[1..]))
  }

  /// With room for the releases of one-shot keys no step asks for a thirty-third place.
  lemma {:induction false} QueueFits(cfg: Config, s: LayoutValue, inputs: seq<Input>)
    requires RoomThroughoutForOneShots(cfg, s, inputs) && |s.queue| <= QUEUE_SIZE
    ensures FitsThroughout(cfg, s, inputs)
    decreases |inputs|
  {
    if inputs != [] {
      match inputs[0] {
        case Key(e) => ReceiveFits(cfg, s, e);
        case TickInput => TickFits(cfg, s);
      }
      QueueFits(cfg, Step(cfg, s, inputs[0]), inputs[1..]);
    }
  }

  /// No stuck keys in the queue of 32 places: runs that lose no release and have room for those of
  /// one-shot keys keep to it, and hold no key and no layer once all keys are up and nothing is pending.
  lemma NoStuckKeyInQueue(cfg: Config, inputs: seq<Input>)
    requires DownAfterAll({}, inputs) == {} && LosesNoRelease(cfg, INITIAL, {}, inputs)
    requires RoomThroughoutForOneShots(cfg, INITIAL, inputs)
    ensures FitsThroughout(cfg, INITIAL, inputs)
    ensures var s := RunLayout(cfg, INITIAL, inputs);
            Quiet(s) ==> s.states == []
  {
    QueueFits(cfg, INITIAL, inputs);
    NoStuckKey(cfg, inputs);
  }

  /// Such runs come to rest within it by ticking alone.
  lemma ReleasedLayoutEmptiesInQueue(cfg: Config, inputs: seq<Input>)
    requires DownAfterAll({}, inputs) == {} && LosesNoRelease(cfg, INITIAL, {}, inputs)
    requires RoomThroughoutForOneShots(cfg, INITIAL, inputs + Ticks(Measure(cfg, RunLayout(cfg, INITIAL, inputs))))
    ensures var all := inputs + Ticks(Measure(cfg, RunLayout(cfg, INITIAL, inputs)));
            var t := RunLayout(cfg, INITIAL, all);
            FitsThroughout(cfg, INITIAL, all) && Quiet(t) && t.states == []
  {
    QueueFits(cfg, INITIAL, inputs + Ticks(Measure(cfg, RunLayout(cfg, INITIAL, inputs))));
    ReleasedLayoutEmpties(cfg, inputs);
  }

  // ---------------------------------------------------------------------------------------
  // Configurations without one-shot keys

  /// No action of any layer activates a one-shot key.
  ghost predicate NoOneShots(cfg: Config)
  {
    forall c :: TransShots(cfg, c, MAX_ACTIVE_LAYERS) == 0
  }

  /// Then there is room in every run.
  lemma {:induction false} NoOneShotsHaveRoom(cfg: Config, s: LayoutValue, inputs: seq<Input>)
    requires NoOneShots(cfg) && PossibleShots(cfg, s) == 0 && |s.queue| <= QUEUE_SIZE
    ensures RoomThroughoutForOneShots(cfg, s, inputs)
    decreases |inputs|
  {
    if inputs != [] {
      match inputs[0] {
        case Key(e) => ReceiveFits(cfg, s, e);
        case TickInput => TickFits(cfg, s);
      }
      NoOneShotsHaveRoom(cfg, Step(cfg, s, inputs[0]), inputs[1..]);
    }
  }
}
