/// Everything pending in a layout ends: every tick lowers the measure of it, until nothing is left
/// (keyberon/src/layout.rs).

module Quiescence {
  import opened Types
  import opened HoldTap
  import opened LayoutModel
  import opened NoStuckKeys
  import opened PendingWork

  // ---------------------------------------------------------------------------------------
  // Every tick is paid for

  lemma HandleReleaseFlagged(s: LayoutValue, c: Coord)
    ensures var r := HandleRelease(s, c);
            |r.states| <= |s.states| && Flagged(r.states) <= Flagged(s.states)
  {
    var retained := s.oneshot.retained;
    RetainFlagged(s.states, (x: KeyState) => x.coord != c);
    RetainFlagged(s.states, x => SurvivesRelease(x, c, retained));
    if s.oneshot.released != [] {
      var (kept, first) := (Survivors(s.states, c, retained), s.oneshot.released[0]);
      RetainFlagged(kept, (x: KeyState) => x.coord != first);
    }
  }

  lemma HandleReleaseFrame(s: LayoutValue, c: Coord)
    ensures var r := HandleRelease(s, c);
            && r == s.(states := r.states, oneshot := r.oneshot)
            && r.oneshot.pauseTicks == s.oneshot.pauseTicks
            && OneShotWeight(r.oneshot) == OneShotWeight(s.oneshot)
  {
  }

  lemma HandleReleaseIsFree(cfg: Config, s: LayoutValue, c: Coord)
    requires WellFormed(s)
    ensures var r := HandleRelease(s, c);
            && Costs(cfg, s, r, 0)
            && r == s.(states := r.states, oneshot := r.oneshot)
            && r.oneshot.pauseTicks == s.oneshot.pauseTicks
  {
    HandleReleaseFlagged(s, c);
    HandleReleaseFrame(s, c);
  }

  lemma {:induction false} ReleaseAllIsFree(cfg: Config, s: LayoutValue, cs: seq<Coord>)
    requires WellFormed(s)
    ensures var r := ReleaseAll(s, cs);
            && Costs(cfg, s, r, 0)
            && r.queue == s.queue && r.waiting == s.waiting && r.extra == s.extra && r.oneshot.pauseTicks == s.oneshot.pauseTicks
    decreases |cs|
  {
    if cs != [] {
      HandleReleaseIsFree(cfg, s, cs[0]);
      ReleaseAllIsFree(cfg, HandleRelease(s, cs[0]), cs[1..]);
    }
  }

  lemma TimersPay(cfg: Config, s: LayoutValue)
    requires WellFormed(s)
    ensures var r := TickTimers(s);
            && Costs(cfg, s, r, 0)
            && (s.oneshot.keys != [] ==> Measure(cfg, r) < Measure(cfg, s))
            && |r.queue| == |s.queue| && r.waiting == s.waiting && r.extra == s.extra
  {
    QueueWeightTicks(cfg, s.queue);
    var (o, released) := TickOneShot(s.oneshot);
    var s1 := s.(queue := TickAll(s.queue), tapHoldTimeout := SatSub(s.tapHoldTimeout, 1), oneshot := o);
    ReleaseAllIsFree(cfg, s1, released);
  }

  lemma WaitingTickPays(w: Timer, q: seq<Queued>)
    requires w.resetTo.None?
    ensures var (t, a) := WaitingTick(w, q);
            && t.timeout <= w.timeout && t.coord == w.coord && t.resetTo.None?
            && (a.None? ==> t.timeout < w.timeout)
  {
  }

  lemma PauseInputCosts(cfg: Config, s: LayoutValue)
    requires WellFormed(s)
    ensures Costs(cfg, s, PauseInput(cfg, s), cfg.pauseDelay)
  {
  }

  lemma ResolvedFromCosts(cfg: Config, s: LayoutValue, w: Waiting, a: WaitingAction)
    requires WellFormed(s)
    ensures Costs(cfg, s, ResolvedFrom(cfg, s, w, a), if a.Hold? then cfg.pauseDelay else 0)
  {
  }

  lemma ResolvedWaitPays(cfg: Config, s: LayoutValue, w: Waiting, a: WaitingAction)
    requires WellFormed(s)
    ensures Costs(cfg, s, WaitingInto(cfg, s, w, a), WaitWeight(cfg, w) - 1)
  {
    var (from, action, c) := (ResolvedFrom(cfg, s, w, a), ResolvedAction(w, a), w.timer.coord);
    ResolvedFromCosts(cfg, s, w, a);
    DoActionCosts(cfg, from, action, c, ResolvedDelay(w), false, w.layerStack);
    PauseInputCosts(cfg, DoAction(cfg, from, action, c, ResolvedDelay(w), false, w.layerStack));
  }

  lemma PoppedEventPays(cfg: Config, s: LayoutValue)
    requires WellFormed(s) && s.queue != []
    ensures var r := Dequeue(cfg, s.(queue := s.queue[1..]), s.queue[0].event, s.queue[0].since);
            WellFormed(r) && Measure(cfg, r) < Measure(cfg, s)
  {
    var popped := s.(queue := s.queue[1..]);
    var e := s.queue[0].event;
    if e.Press? {
      var stack := LayerOrder(cfg, s.states);
      DoActionCosts(cfg, popped, Trans, e.coord, s.queue[0].since, false, stack);
      TransWeightGrows(cfg, e.coord, |stack|, MAX_STACK);
    } else {
      HandleReleaseIsFree(cfg, popped, e.coord);
    }
  }

  lemma PrimaryPays(cfg: Config, s: LayoutValue)
    requires WellFormed(s)
    ensures var r := TickPrimary(cfg, s);
            && Costs(cfg, s, r, 0)
            && (Measure(cfg, r) < Measure(cfg, s) ||
                (s.waiting.None? && (s.extra != [] || s.queue == []) && r.extra == s.extra))
  {
    var r := TickPrimary(cfg, s);
    if s.waiting.Some? {
      var w := s.waiting.value;
      WaitingTickPays(w.timer, s.queue);
      var (t, a) := WaitingTick(w.timer, s.queue);
      var s1 := s.(waiting := None);
      if a.Some? {
        ResolvedWaitPays(cfg, s1, w.(timer := t), a.value);
      }
    } else if s.extra == [] && s.oneshot.pauseTicks == 0 && s.queue != [] {
      PoppedEventPays(cfg, s);
    }
  }

  lemma TimerWeight(cfg: Config, w: Waiting, t: Timer)
    requires t.coord == w.timer.coord
    ensures WaitWeight(cfg, w.(timer := t)) == WaitWeight(cfg, w) - w.timer.timeout + t.timeout
  {
  }

  /// One wait as a tick of the extra waits leaves it.
  lemma TickedWaitPays(cfg: Config, s: LayoutValue, i: nat)
    requires i < |s.extra| && s.extra[i].timer.resetTo.None?
    ensures var w := Ticked(s)[i];
            && w.timer.resetTo.None? && WaitWeight(cfg, w) <= WaitWeight(cfg, s.extra[i])
            && (i < FirstResolved(s.extra, s.queue) ==> WaitWeight(cfg, w) < WaitWeight(cfg, s.extra[i]))
  {
    WaitingTickPays(s.extra[i].timer, s.queue);
    TimerWeight(cfg, s.extra[i], Ticked(s)[i].timer);
  }

  ghost predicate NoneRestarts(ws: seq<Waiting>)
  {
    forall w :: w in ws ==> w.timer.resetTo.None?
  }

  /// No wait weighs more in `vs` than in `ws`, and the first ones below `n` weigh less.
  ghost predicate Lighter(cfg: Config, ws: seq<Waiting>, vs: seq<Waiting>, n: nat)
  {
    && |ws| == |vs|
    && (forall i :: 0 <= i < |ws| ==> WaitWeight(cfg, vs[i]) <= WaitWeight(cfg, ws[i]))
    && (forall i :: 0 <= i < |ws| && i < n ==> WaitWeight(cfg, vs[i]) < WaitWeight(cfg, ws[i]))
  }

  lemma {:induction false} WaitsWeightFalls(cfg: Config, ws: seq<Waiting>, vs: seq<Waiting>, n: nat)
    requires Lighter(cfg, ws, vs, n)
    ensures WaitsWeight(cfg, vs) <= WaitsWeight(cfg, ws)
    ensures n > 0 && ws != [] ==> WaitsWeight(cfg, vs) < WaitsWeight(cfg, ws)
    decreases |ws|
  {
    if ws != [] {
      WaitsWeightFalls(cfg, ws[1..], vs[1..], if n > 0 then n - 1 else 0);
    }
  }

  lemma TickedWaitsAreLighter(cfg: Config, s: LayoutValue)
    requires NoneRestarts(s.extra)
    ensures NoneRestarts(Ticked(s)) && Lighter(cfg, s.extra, Ticked(s), FirstResolved(s.extra, s.queue))
  {
    forall i | 0 <= i < |s.extra|
      ensures Ticked(s)[i].timer.resetTo.None? && WaitWeight(cfg, Ticked(s)[i]) <= WaitWeight(cfg, s.extra[i])
      ensures i < FirstResolved(s.extra, s.queue) ==> WaitWeight(cfg, Ticked(s)[i]) < WaitWeight(cfg, s.extra[i])
    {
      assert s.extra[i] in s.extra;
      TickedWaitPays(cfg, s, i);
    }
  }

  lemma TickedWaitsPay(cfg: Config, s: LayoutValue)
    requires NoneRestarts(s.extra)
    ensures NoneRestarts(Ticked(s)) && WaitsWeight(cfg, Ticked(s)) <= WaitsWeight(cfg, s.extra)
    ensures (FirstResolved(s.extra, s.queue) == |s.extra| && s.extra != []) ==>
              WaitsWeight(cfg, Ticked(s)) < WaitsWeight(cfg, s.extra)
  {
    TickedWaitsAreLighter(cfg, s);
    WaitsWeightFalls(cfg, s.extra, Ticked(s), FirstResolved(s.extra, s.queue));
  }

  lemma RemovedWaitWeight(cfg: Config, ws: seq<Waiting>, i: nat)
    requires i < |ws|
    ensures WaitsWeight(cfg, ws) == WaitsWeight(cfg, RemoveAt(ws, i)) + WaitWeight(cfg, ws[i])
  {
    assert ws == ws[..i] + ([ws[i]] + ws[i + 1..]);
    WaitsWeightAppend(cfg, ws[..i], [ws[i]] + ws[i + 1..]);
    WaitsWeightAppend(cfg, ws[..i], ws[i + 1..]);
  }

  lemma RemovedPays(cfg: Config, s: LayoutValue, ws: seq<Waiting>, n: nat)
    requires WellFormed(s) && NoneRestarts(ws) && n < |ws|
    requires WaitsWeight(cfg, ws) <= WaitsWeight(cfg, s.extra)
    ensures var r := s.(extra := RemoveAt(ws, n));
            WellFormed(r) && Measure(cfg, r) + WaitWeight(cfg, ws[n]) <= Measure(cfg, s)
  {
    RemovedWaitWeight(cfg, ws, n);
  }

  lemma NoExtraResolves(cfg: Config, s: LayoutValue, ws: seq<Waiting>)
    requires WellFormed(s) && NoneRestarts(ws)
    requires WaitsWeight(cfg, ws) <= WaitsWeight(cfg, s.extra)
    ensures var r := s.(extra := ws);
            && Costs(cfg, s, r, 0)
            && (WaitsWeight(cfg, ws) < WaitsWeight(cfg, s.extra) ==> Measure(cfg, r) < Measure(cfg, s))
  {
  }

  lemma ExtraPays(cfg: Config, s: LayoutValue)
    requires WellFormed(s)
    ensures var r := TickExtra(cfg, s);
            && Costs(cfg, s, r, 0)
            && (s.extra != [] ==> Measure(cfg, r) < Measure(cfg, s))
  {
    TickedWaitsPay(cfg, s);
    if OneResolves(s) {
      RemovedPays(cfg, s, Ticked(s), FirstResolved(s.extra, s.queue));
      ResolvedWaitPays(cfg, WithoutResolved(s), ResolvedWait(s), FirstAction(s));
    } else {
      NoExtraResolves(cfg, s, Ticked(s));
    }
  }

  /// Every tick of a layout with something pending lowers the measure.
  lemma EveryTickPays(cfg: Config, s: LayoutValue)
    requires WellFormed(s)
    ensures Costs(cfg, s, Tick(cfg, s), 0)
    ensures !Quiet(s) ==> Measure(cfg, Tick(cfg, s)) < Measure(cfg, s)
    ensures Quiet(s) ==> Quiet(Tick(cfg, s))
  {
    var s1 := TickTimers(s);
    TimersPay(cfg, s);
    PrimaryPays(cfg, s1);
    ExtraPays(cfg, TickPrimary(cfg, s1));
  }

  // ---------------------------------------------------------------------------------------
  // Runs

  lemma HoldStaysWellFormed(cfg: Config, s: LayoutValue, i: nat)
    requires WellFormed(s)
    ensures WellFormed(HoldPrimary(cfg, s)) && WellFormed(HoldExtra(cfg, s, i))
  {
    if s.waiting.Some? {
      ResolvedWaitPays(cfg, s.(waiting := None), s.waiting.value, Hold);
    }
    if i < |s.extra| {
      ResolvedWaitPays(cfg, s.(extra := RemoveAt(s.extra, i)), s.extra[i], Hold);
    }
  }

  lemma {:induction false} HoldsStayWellFormed(cfg: Config, s: LayoutValue, n: nat)
    requires WellFormed(s)
    ensures WellFormed(HoldWaits(cfg, s, n))
    decreases n
  {
    if n == 0 {
      HoldStaysWellFormed(cfg, s, 0);
    } else {
      var t := HoldWaits(cfg, s, n - 1);
      HoldsStayWellFormed(cfg, s, n - 1);
      HoldStaysWellFormed(cfg, t, n - 1);
      assert HoldWaits(cfg, s, n) == HoldExtra(cfg, t, n - 1);
    }
  }

  lemma ReceiveStaysWellFormed(cfg: Config, s: LayoutValue, e: Event)
    requires WellFormed(s)
    ensures WellFormed(Receive(cfg, s, e))
  {
    if |s.queue| >= QUEUE_SIZE {
      var first := s.queue[0];
      var joined := s.(queue := s.queue[1..] + [Queued(e, 0)]);
      HoldsStayWellFormed(cfg, joined, EXTRA_WAITING_LEN);
      var held := HoldWaits(cfg, joined, EXTRA_WAITING_LEN);
      if first.event.Press? {
        DoActionCosts(cfg, held, Trans, first.event.coord, first.since, false, LayerOrder(cfg, held.states));
      } else {
        HandleReleaseIsFree(cfg, held, first.event.coord);
      }
    }
  }

  lemma {:induction false} RunsStayWellFormed(cfg: Config, s: LayoutValue, inputs: seq<Input>)
    requires WellFormed(s)
    ensures WellFormed(RunLayout(cfg, s, inputs))
    decreases |inputs|
  {
    if inputs != [] {
      var s1 := Step(cfg, s, inputs[0]);
      assert WellFormed(s1) by {
        match inputs[0] {
          case TickInput => EveryTickPays(cfg, s);
          case Key(e) => ReceiveStaysWellFormed(cfg, s, e);
        }
      }
      RunsStayWellFormed(cfg, s1, inputs[1..]);
    }
  }

  lemma OneTickDrier(cfg: Config, s: LayoutValue, n: nat)
    requires WellFormed(s) && (Quiet(s) || Measure(cfg, s) <= n)
    ensures n == 0 ==> Quiet(s)
    ensures n > 0 ==> var t := Tick(cfg, s);
                      WellFormed(t) && (Quiet(t) || Measure(cfg, t) <= n - 1)
  {
    EveryTickPays(cfg, s);
  }

  lemma {:induction false} RunsDry(cfg: Config, s: LayoutValue, n: nat)
    requires WellFormed(s) && (Quiet(s) || Measure(cfg, s) <= n)
    ensures Quiet(RunLayout(cfg, s, Ticks(n)))
    decreases n
  {
    OneTickDrier(cfg, s, n);
    if n > 0 {
      TicksFirst(cfg, s, n);
      RunsDry(cfg, Tick(cfg, s), n - 1);
    } else {
      assert Ticks(0) == [];
    }
  }

  lemma {:induction false} RunsCompose(cfg: Config, s: LayoutValue, a: seq<Input>, b: seq<Input>)
    ensures RunLayout(cfg, s, a + b) == RunLayout(cfg, RunLayout(cfg, s, a), b)
    ensures forall down :: DownAfterAll(down, a + b) == DownAfterAll(DownAfterAll(down, a), b)
    decreases |a|
  {
    if a == [] {
      assert a + b == b;
    } else {
      assert (a + b)[0] == a[0] && (a + b)[1..] == a[1..] + b;
      RunsCompose(cfg, Step(cfg, s, a[0]), a[1..], b);
    }
  }

  lemma {:induction false} TicksPressNothing(down: set<Coord>, n: nat)
    ensures DownAfterAll(down, Ticks(n)) == down
  {
    if n > 0 {
      assert Ticks(n)[0] == TickInput && Ticks(n)[1..] == Ticks(n - 1);
      TicksPressNothing(down, n - 1);
    }
  }

  lemma {:induction false} TicksLoseNothing(cfg: Config, s: LayoutValue, down: set<Coord>, n: nat)
    ensures LosesNoRelease(cfg, s, down, Ticks(n))
    decreases n
  {
    if n > 0 {
      assert Ticks(n)[0] == TickInput && Ticks(n)[1..] == Ticks(n - 1);
      TicksLoseNothing(cfg, Tick(cfg, s), down, n - 1);
    }
  }

  lemma {:induction false} LossesCompose(cfg: Config, s: LayoutValue, down: set<Coord>, a: seq<Input>, n: nat)
    requires LosesNoRelease(cfg, s, down, a)
    ensures LosesNoRelease(cfg, s, down, a + Ticks(n))
    decreases |a|
  {
    if a == [] {
      assert a + Ticks(n) == Ticks(n);
      TicksLoseNothing(cfg, s, down, n);
    } else {
      assert (a + Ticks(n))[0] == a[0] && (a + Ticks(n))[1..] == a[1..] + Ticks(n);
      LossesCompose(cfg, Step(cfg, s, a[0]), DownAfter(down, a[0]), a[1..], n);
    }
  }

  /// After any run that leaves every key up and loses no release, ticking alone empties the layout:
  /// nothing is queued, nothing waits, no one-shot is active and no key or layer is held.
  lemma ReleasedLayoutEmpties(cfg: Config, inputs: seq<Input>)
    requires DownAfterAll({}, inputs) == {} && LosesNoRelease(cfg, INITIAL, {}, inputs)
    ensures var s := RunLayout(cfg, INITIAL, inputs);
            var t := RunLayout(cfg, INITIAL, inputs + Ticks(Measure(cfg, s)));
            Quiet(t) && t.states == []
  {
    var s := RunLayout(cfg, INITIAL, inputs);
    var n := Measure(cfg, s);
    RunsStayWellFormed(cfg, INITIAL, inputs);
    RunsDry(cfg, s, n);
    RunsCompose(cfg, INITIAL, inputs, Ticks(n));
    TicksPressNothing({}, n);
    LossesCompose(cfg, INITIAL, {}, inputs, n);
    NoStuckKey(cfg, inputs + Ticks(n));
  }
}
