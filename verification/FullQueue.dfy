/// What a full queue costs: exactly when an event that meets it breaks "no stuck keys", and a run
/// that leaves a key held for ever (keyberon/src/layout.rs).

module FullQueue {
  import opened Types
  import opened HoldTap
  import opened LayoutModel
  import opened HeldWaits
  import opened NoStuckKeys
  import opened OneShotRoom
  import opened TapHoldKey
  import opened PendingWork
  import opened Quiescence

  // ---------------------------------------------------------------------------------------
  // The exact condition

  /// With room for the one-shot keys the waits that are made to hold queue nothing.
  lemma HoldsQueueNothing(cfg: Config, s: LayoutValue)
    requires PossibleShots(cfg, s) <= ONE_SHOT_MAX_ACTIVE
    ensures HoldWaits(cfg, s, EXTRA_WAITING_LEN).queue == s.queue
  {
    HoldsActivateNone(cfg, s, EXTRA_WAITING_LEN);
    HoldsOnlyAdd(cfg, s, EXTRA_WAITING_LEN);
  }

  /// A wait of a key that is up and has no release queued is not owed any.
  lemma SurvivorIsStuck(cfg: Config, s: LayoutValue, e: Event, down: set<Coord>)
    requires LosesRelease(cfg, s, e, down) && PossibleShots(cfg, s) <= ONE_SHOT_MAX_ACTIVE
    ensures !Inv(Receive(cfg, s, e), DownAfter(down, Key(e)))
  {
    var c := s.queue[0].event.coord;
    var held := HoldWaits(cfg, Joined(s, e), EXTRA_WAITING_LEN);
    HoldWaitsLeaves(cfg, Joined(s, e), EXTRA_WAITING_LEN);
    HoldsQueueNothing(cfg, Joined(s, e));
    assert WaitsAt(held.waiting, held.extra, c);
    SurvivorWaits(HandleRelease(held, c), c, DownAfter(down, Key(e)));
  }

  lemma SurvivorWaits(s: LayoutValue, c: Coord, down: set<Coord>)
    requires WaitsAt(s.waiting, s.extra, c) && !Live(s.queue, down, c)
    ensures !Inv(s, down)
  {
    var w: Waiting :| w.timer.coord == c && Waits(s, w);
  }

  /// A key event keeps the invariant if and only if it does not push the only release of a key out
  /// of the queue while a wait of that key survives. That such an event breaks it is said for layouts
  /// in which the waits that are made to hold have room for the one-shot keys they may activate.
  lemma ReceiveKeepsInvIff(cfg: Config, s: LayoutValue, e: Event, down: set<Coord>)
    requires Inv(s, down) && (LosesRelease(cfg, s, e, down) ==> PossibleShots(cfg, s) <= ONE_SHOT_MAX_ACTIVE)
    ensures Inv(Receive(cfg, s, e), DownAfter(down, Key(e))) <==> !LosesRelease(cfg, s, e, down)
  {
    if LosesRelease(cfg, s, e, down) {
      SurvivorIsStuck(cfg, s, e, down);
    } else {
      ReceiveKeepsInv(cfg, s, e, down);
    }
  }

  // ---------------------------------------------------------------------------------------
  // A run that loses a release

  /// A tap-hold key that outputs key `k` in any case.
  function Outputs(k: nat): Action
  {
    HoldTapAction(200, KeyCode(k), KeyCode(k), KeyCode(k), HoldTapConfig.Default, 0)
  }

  /// A tap-hold key whose hold action is another one.
  function Nested(k: nat): Action
  {
    HoldTapAction(200, Outputs(k), KeyCode(k), Outputs(k), HoldTapConfig.Default, 0)
  }

  ghost predicate WaitsFor(w: Waiting, c: Coord, k: nat)
  {
    w.timer.coord == c && w.timer.resetTo.None? && w.hold == w.tap == w.timeoutAction == KeyCode(k)
  }

  ghost predicate OnlyReleases(q: seq<Queued>, d: Coord)
  {
    forall i :: 0 <= i < |q| ==> q[i].event == Release(d)
  }

  /// Key `k` at `c` will be output by a wait, or is, and nothing queued will let it go.
  ghost predicate Doomed(s: LayoutValue, c: Coord, k: nat, d: Coord)
  {
    && s.oneshot.keys == [] && s.extra == [] && OnlyReleases(s.queue, d)
    && (   (s.states == [] && s.waiting.Some? && WaitsFor(s.waiting.value, c, k))
        || (s.waiting.None? && s.states == [NormalKey(k, c, false)]))
  }

  /// A plain key changes neither the waits nor the one-shot keys.
  lemma KeyKeepsRest(cfg: Config, s: LayoutValue, k: nat, c: Coord, delay: u16, stack: seq<nat>)
    ensures var r := DoAction(cfg, s, KeyCode(k), c, delay, false, stack);
            r.waiting == s.waiting && r.oneshot.keys == s.oneshot.keys
  {
    var s1 := BeforeAction(s, c);
    PlainKeepsRest(cfg, s1, KeyCode(k), c, false);
    assert DoAction(cfg, s, KeyCode(k), c, delay, false, stack) == PlainAction(cfg, s1, KeyCode(k), c, false);
  }

  lemma DoomedOutput(cfg: Config, s: LayoutValue, w: Waiting, a: WaitingAction, c: Coord, k: nat, d: Coord)
    requires s.oneshot.keys == [] && s.waiting.None? && s.extra == [] && s.states == [] && OnlyReleases(s.queue, d)
    requires WaitsFor(w, c, k)
    ensures Doomed(WaitingInto(cfg, s, w, a), c, k, d)
  {
    ResolvedKey(cfg, s, w, a, k);
    KeyKeepsRest(cfg, ResolvedFrom(cfg, s, w, a), k, c, ResolvedDelay(w), w.layerStack);
    assert [] + [NormalKey(k, c, false)] == [NormalKey(k, c, false)];
  }

  lemma HeldSurvivesRelease(k: nat, c: Coord, d: Coord)
    requires c != d
    ensures DropCoord([NormalKey(k, c, false)], d) == [NormalKey(k, c, false)]
  {
    var x := NormalKey(k, c, false);
    assert [x][..0] == [] && [] + [x] == [x];
  }

  lemma DoomedPrimary(cfg: Config, s: LayoutValue, c: Coord, k: nat, d: Coord)
    requires Doomed(s, c, k, d) && c != d
    ensures Doomed(TickPrimary(cfg, s), c, k, d)
  {
    HeldSurvivesRelease(k, c, d);
    if s.waiting.Some? {
      var (t, a) := WaitingTick(s.waiting.value.timer, s.queue);
      if a.Some? {
        DoomedOutput(cfg, s.(waiting := None), s.waiting.value.(timer := t), a.value, c, k, d);
      }
    }
  }

  lemma DoomedTick(cfg: Config, s: LayoutValue, c: Coord, k: nat, d: Coord)
    requires Doomed(s, c, k, d) && c != d
    ensures Doomed(Tick(cfg, s), c, k, d)
  {
    var s1 := TickTimers(s);
    assert s1 == s.(queue := TickAll(s.queue), tapHoldTimeout := SatSub(s.tapHoldTimeout, 1));
    DoomedPrimary(cfg, s1, c, k, d);
    NoExtraWaits(cfg, TickPrimary(cfg, s1));
  }

  lemma {:induction false} DoomedTicks(cfg: Config, s: LayoutValue, c: Coord, k: nat, d: Coord, n: nat)
    requires Doomed(s, c, k, d) && c != d
    ensures Doomed(RunLayout(cfg, s, Ticks(n)), c, k, d)
    decreases n
  {
    if n > 0 {
      TicksFirst(cfg, s, n);
      DoomedTick(cfg, s, c, k, d);
      DoomedTicks(cfg, Tick(cfg, s), c, k, d, n - 1);
    } else {
      assert Ticks(0) == [];
    }
  }

  // ---------------------------------------------------------------------------------------
  // Getting there

  function Flood(d: Coord, n: nat): (r: seq<Input>)
    ensures |r| == n
  {
    seq(n, i => Key(Release(d)))
  }

  /// The release of `c` and behind it `n` releases of `d`.
  ghost predicate FilledWith(q: seq<Queued>, c: Coord, d: Coord, n: nat)
  {
    |q| == 1 + n && q[0].event == Release(c) && OnlyReleases(q[1..], d)
  }

  lemma FillOne(q: seq<Queued>, c: Coord, d: Coord, n: nat)
    requires FilledWith(q, c, d, n)
    ensures OnlyReleases(q[1..] + [Queued(Release(d), 0)], d) && FilledWith(q + [Queued(Release(d), 0)], c, d, n + 1)
  {
    assert (q + [Queued(Release(d), 0)])[1..] == q[1..] + [Queued(Release(d), 0)];
  }

  lemma {:induction false} FloodFills(cfg: Config, s: LayoutValue, c: Coord, d: Coord, m: nat, n: nat)
    requires FilledWith(s.queue, c, d, m) && m + n < QUEUE_SIZE
    ensures var r := RunLayout(cfg, s, Flood(d, n));
            FilledWith(r.queue, c, d, m + n) && r == s.(queue := r.queue)
    decreases n
  {
    if n > 0 {
      assert Flood(d, n)[0] == Key(Release(d)) && Flood(d, n)[1..] == Flood(d, n - 1);
      FillOne(s.queue, c, d, m);
      FloodFills(cfg, Receive(cfg, s, Release(d)), c, d, m + 1, n - 1);
    } else {
      assert Flood(d, 0) == [];
    }
  }

  /// The hold action of the wait starts another wait, and no other is there to be made to hold.
  ghost predicate AboutToNest(s: LayoutValue, w: Waiting, k: nat)
  {
    WaitsAlone(s, w) && s.states == [] && w.hold == Outputs(k)
  }

  lemma HoldStartsWait(cfg: Config, s: LayoutValue, w: Waiting, k: nat)
    requires AboutToNest(s, w, k)
    ensures var r := HoldPrimary(cfg, s);
            && WaitsAlone(r, NewWait(cfg, Outputs(k), w.timer.coord, ResolvedDelay(w), w.layerStack))
            && r.states == [] && r.queue == s.queue
  {
    var (c, delay, stack) := (w.timer.coord, ResolvedDelay(w), w.layerStack);
    var from := ResolvedFrom(cfg, s.(waiting := None), w, Hold);
    var s1 := BeforeAction(from, c);
    assert s1.states == [] && s1.waiting.None?;
    assert DoAction(cfg, from, Outputs(k), c, delay, false, stack) == HoldTapBody(cfg, s1, Outputs(k), c, delay, false, stack);
  }

  lemma {:induction false} NoMoreHold(cfg: Config, s: LayoutValue, n: nat)
    requires HoldPrimary(cfg, s).extra == []
    ensures HoldWaits(cfg, s, n) == HoldPrimary(cfg, s)
    decreases n
  {
    if n > 0 {
      NoMoreHold(cfg, s, n - 1);
    }
  }

  lemma NothingReleased(s: LayoutValue, c: Coord)
    requires s.states == [] && s.oneshot.keys == []
    ensures var r := HandleRelease(s, c);
            && r.states == [] && r.waiting == s.waiting && r.extra == s.extra && r.queue == s.queue && r.oneshot.keys == []
  {
  }

  /// The event that meets the full queue makes the wait hold and pushes its release out.
  lemma LastEventDooms(cfg: Config, s: LayoutValue, w: Waiting, k: nat, d: Coord) returns (r: LayoutValue)
    requires AboutToNest(s, w, k) && w.timer.coord != d && FilledWith(s.queue, w.timer.coord, d, QUEUE_SIZE - 1)
    ensures r == Receive(cfg, s, Release(d)) && Doomed(r, w.timer.coord, k, d)
  {
    var joined := Joined(s, Release(d));
    FillOne(s.queue, w.timer.coord, d, QUEUE_SIZE - 1);
    HoldStartsWait(cfg, joined, w, k);
    NoMoreHold(cfg, joined, EXTRA_WAITING_LEN);
    r := HandleRelease(HoldPrimary(cfg, joined), w.timer.coord);
    NothingReleased(HoldPrimary(cfg, joined), w.timer.coord);
  }

  /// The release of the key, and as many other events as the queue has room for and one more, all
  /// before the next tick.
  ghost function Flooded(cfg: Config, s: LayoutValue, c: Coord, d: Coord): LayoutValue
  {
    Receive(cfg, RunLayout(cfg, Receive(cfg, s, Release(c)), Flood(d, QUEUE_SIZE - 1)), Release(d))
  }

  lemma FloodDooms(cfg: Config, s: LayoutValue, w: Waiting, k: nat, d: Coord)
    requires AboutToNest(s, w, k) && w.timer.coord != d && s.queue == []
    ensures Doomed(Flooded(cfg, s, w.timer.coord, d), w.timer.coord, k, d)
  {
    var c := w.timer.coord;
    var s1 := Receive(cfg, s, Release(c));
    assert s1.queue == [Queued(Release(c), 0)] by {
      assert [] + [Queued(Release(c), 0)] == [Queued(Release(c), 0)];
    }
    assert s1.queue[1..] == [];
    FloodFills(cfg, s1, c, d, 0, QUEUE_SIZE - 1);
    var r := LastEventDooms(cfg, RunLayout(cfg, s1, Flood(d, QUEUE_SIZE - 1)), w, k, d);
  }

  lemma DoomedSticks(cfg: Config, s: LayoutValue, c: Coord, k: nat, d: Coord)
    requires Doomed(s, c, k, d) && c != d
    ensures var r := RunLayout(cfg, s, Ticks(Measure(cfg, s)));
            Quiet(r) && r.states == [NormalKey(k, c, false)]
  {
    assert WellFormed(s);
    RunsDry(cfg, s, Measure(cfg, s));
    DoomedTicks(cfg, s, c, k, d, Measure(cfg, s));
  }

  /// A tap-hold key with a tap-hold hold action is pressed and, after a tick, released together with
  /// as many other events as fill the queue and one more. All keys are up, and yet the layout ends
  /// up holding the key with nothing left to do.
  lemma FullQueueCanStickKey(cfg: Config, c: Coord, d: Coord, k: nat, rest: seq<nat>)
    requires c != d && ResolveCoord(cfg, c, LayerOrder(cfg, [])) == (Nested(k), rest)
    ensures var s := Flooded(cfg, Batch(cfg, INITIAL, [Press(c)]), c, d);
            var r := RunLayout(cfg, s, Ticks(Measure(cfg, s)));
            Quiet(r) && r.states == [NormalKey(k, c, false)]
  {
    var s := Batch(cfg, INITIAL, [Press(c)]);
    PressStartsWait(cfg, c, Nested(k), rest);
    FloodDooms(cfg, s, NewWait(cfg, Nested(k), c, 1, rest), k, d);
    DoomedSticks(cfg, Flooded(cfg, s, c, d), c, k, d);
  }
}
