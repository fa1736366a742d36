/// Hold-tap resolution: the wait of a key that is either tapped or held
/// (`WaitingState` and `handle_hold_tap` of keyberon/src/layout.rs).

module HoldTap {
  import opened Types

  datatype HoldTapConfig =
    | Default
    | HoldOnOtherKeyPress
    | Order(buffer: u16)
    | PermissiveHold

  datatype WaitingAction = Hold | Tap | Timeout

  /// The timing half of a waiting key. What the key does once resolved is kept by its owner.
  datatype Timer = Timer(
    coord: Coord,
    timeout: u16,
    resetTo: Option<u16>,
    delay: u16,
    ticks: u16,
    config: HoldTapConfig,
    prevQueueLen: u8)

  /// The initial `prev_queue_len`, which no queue length equals.
  const NO_LEN: u8 := 0xFF

  /// The timer of a hold-tap key with timeout `t` whose press spent `delay` ticks in the queue.
  function StartTimer(coord: Coord, t: u16, delay: u16, quick: bool, config: HoldTapConfig): (w: Timer)
  {
    var ticks := QuickTicks(t, delay, quick);
    Timer(coord, t - ticks, None, delay - ticks, ticks, config, NO_LEN)
  }

  /// How much of the queue delay `quick_tap_hold_timeout` charges to the timeout up front.
  function QuickTicks(t: u16, delay: u16, quick: bool): (ticks: u16)
    ensures ticks <= t && ticks <= delay
  {
    if !quick then 0 else if delay <= SatSub(t, 1) then delay else SatSub(t, 1)
  }

  // ---------------------------------------------------------------------------------------
  // When the queue decides

  /// Press `i` is followed by the release of the same key.
  ghost predicate TappedAt(q: seq<Queued>, i: int)
  {
    0 <= i < |q| && q[i].event.Press? && HasRelease(q[i + 1..], q[i].event.coord)
  }

  /// Another key's events turn the wait into a hold.
  ghost predicate HoldTriggered(w: Timer, q: seq<Queued>)
  {
    match w.config
    case Default => false
    case HoldOnOtherKeyPress => exists i :: 0 <= i < |q| && q[i].event.Press?
    case Order(buffer) => exists i :: TappedAt(q, i) && SatSub(w.ticks, q[i].since) >= buffer
    case PermissiveHold => exists i :: TappedAt(q, i)
  }

  /// Index of the first release of `c`, or `|q|`.
  ghost function FirstRelease(q: seq<Queued>, c: Coord): (i: nat)
    ensures i <= |q|
    ensures i < |q| ==> q[i].event == Release(c)
    ensures forall j :: 0 <= j < i ==> q[j].event != Release(c)
  {
    if q == [] || q[0].event == Release(c) then 0 else 1 + FirstRelease(q[1..], c)
  }

  lemma FirstReleaseIs(q: seq<Queued>, c: Coord, i: nat)
    requires i <= |q|
    requires i < |q| ==> q[i].event == Release(c)
    requires forall j :: 0 <= j < i ==> q[j].event != Release(c)
    ensures FirstRelease(q, c) == i
  {
  }

  /// What a full evaluation of the queue decides.
  ghost function Decide(w: Timer, q: seq<Queued>): (r: Option<WaitingAction>)
  {
    var own := FirstRelease(q, w.coord);
    if HoldTriggered(w, q) then Some(Hold)
    else if own < |q| then
      if w.timeout >= SatSub(w.delay, q[own].since) then Some(Tap) else Some(Timeout)
    else if w.timeout == 0 then Some(Timeout)
    else None
  }

  /// One tick of the counters.
  function Elapse(w: Timer): (r: Timer)
  {
    w.(timeout := SatSub(w.timeout, 1), ticks := SatInc(w.ticks))
  }

  /// `on_press_reset_timeout_to`: a press at the end of the queue restarts the timeout.
  function ResetOnPress(w: Timer, q: seq<Queued>): (r: Timer)
  {
    if w.resetTo.Some? && q != [] && q[|q| - 1].event.Press? then w.(timeout := w.resetTo.value) else w
  }

  /// One tick that evaluates the queue unconditionally.
  ghost function EvaluatingTick(w: Timer, q: seq<Queued>): (r: (Timer, Option<WaitingAction>))
  {
    var w1 := ResetOnPress(Elapse(w), q).(prevQueueLen := |q| % 256);
    (w1, Decide(w1, q))
  }

  /// One tick as performed: the evaluation is skipped while the queue length is unchanged and
  /// the timeout has not elapsed.
  ghost function WaitingTick(w: Timer, q: seq<Queued>): (r: (Timer, Option<WaitingAction>))
  {
    if |q| % 256 == w.prevQueueLen && Elapse(w).timeout > 0 then (Elapse(w), None)
    else EvaluatingTick(w, q)
  }

  /// `tick_wt` for a hold-tap: an imperative scan of the queue that agrees with `WaitingTick`.
  method TickWaiting(w: Timer, q: seq<Queued>) returns (w': Timer, r: Option<WaitingAction>)
    ensures (w', r) == WaitingTick(w, q)
  {
    w' := w.(timeout := SatSub(w.timeout, 1));
    w' := w'.(ticks := SatInc(w.ticks));
    if |q| % 256 == w'.prevQueueLen && w'.timeout > 0 {
      return w', None;
    }
    if w'.resetTo.Some? && |q| > 0 && q[|q| - 1].event.Press? {
      w' := w'.(timeout := w'.resetTo.value);
    }
    w' := w'.(prevQueueLen := |q| % 256);
    var hold := OtherKeyTriggers(w', q);
    if hold {
      return w', Some(Hold);
    }
    for i := 0 to |q|
      invariant forall k :: 0 <= k < i ==> q[k].event != Release(w'.coord)
    {
      if q[i].event == Release(w'.coord) {
        FirstReleaseIs(q, w'.coord, i);
        r := if w'.timeout >= SatSub(w'.delay, q[i].since) then Some(Tap) else Some(Timeout);
        return w', r;
      }
    }
    FirstReleaseIs(q, w'.coord, |q|);
    r := if w'.timeout == 0 then Some(Timeout) else None;
  }

  /// The early exits of the four configurations.
  method OtherKeyTriggers(w: Timer, q: seq<Queued>) returns (hold: bool)
    ensures hold <==> HoldTriggered(w, q)
  {
    match w.config {
      case Default =>
      case HoldOnOtherKeyPress =>
        for i := 0 to |q|
          invariant forall k :: 0 <= k < i ==> !q[k].event.Press?
        {
          if q[i].event.Press? {
            return true;
          }
        }
      case Order(buffer) =>
        for i := 0 to |q|
          invariant forall k :: 0 <= k < i ==> !(TappedAt(q, k) && SatSub(w.ticks, q[k].since) >= buffer)
        {
          if q[i].event.Press? {
            if SatSub(w.ticks, q[i].since) < buffer {
              continue;
            }
            var released := ContainsRelease(q[i + 1..], q[i].event.coord);
            if released {
              assert TappedAt(q, i);
              return true;
            }
          }
        }
      case PermissiveHold =>
        for i := 0 to |q|
          invariant forall k :: 0 <= k < i ==> !TappedAt(q, k)
        {
          if q[i].event.Press? {
            var released := ContainsRelease(q[i + 1..], q[i].event.coord);
            if released {
              assert TappedAt(q, i);
              return true;
            }
          }
        }
    }
    return false;
  }

  method ContainsRelease(q: seq<Queued>, c: Coord) returns (r: bool)
    ensures r <==> HasRelease(q, c)
  {
    for i := 0 to |q|
      invariant forall k :: 0 <= k < i ==> q[k].event != Release(c)
    {
      if q[i].event == Release(c) {
        return true;
      }
    }
    return false;
  }

  /// Press `i` is followed by a release of its key.
  ghost predicate ReleasedLater(q: seq<Queued>, i: nat)
  {
    i < |q| && q[i].event.Press? && exists j :: i < j < |q| && q[j].event == Release(q[i].event.coord)
  }

  lemma TappedIffReleasedLater(q: seq<Queued>, i: nat)
    ensures TappedAt(q, i) <==> ReleasedLater(q, i)
  {
    if TappedAt(q, i) {
      var k :| 0 <= k < |q[i + 1..]| && q[i + 1..][k].event == Release(q[i].event.coord);
      assert q[i + 1 + k].event == Release(q[i].event.coord);
    }
    if ReleasedLater(q, i) {
      var j :| i < j < |q| && q[j].event == Release(q[i].event.coord);
      assert q[i + 1..][j - i - 1] == q[j];
    }
  }

  /// A tick that looks at the queue holds early exactly if there is a press in it, or a press with its release
  /// behind it, or such a press that came `buffer` ticks into the wait or later, as the configuration asks for.
  lemma HoldsEarlyIff(w: Timer, q: seq<Queued>)
    requires |q| % 256 != w.prevQueueLen
    ensures var (w1, a) := WaitingTick(w, q);
            a == Some(Hold) <==>
              match w.config
              case Default => false
              case HoldOnOtherKeyPress => exists i: nat :: i < |q| && q[i].event.Press?
              case PermissiveHold => exists i: nat :: ReleasedLater(q, i)
              case Order(buffer) => exists i: nat :: ReleasedLater(q, i) && SatSub(w1.ticks, q[i].since) >= buffer
  {
    forall i: nat ensures TappedAt(q, i) <==> ReleasedLater(q, i) {
      TappedIffReleasedLater(q, i);
    }
  }

  // ---------------------------------------------------------------------------------------
  // Runs: while a key waits, the queue only grows at its end

  datatype Resolution = Pending | Resolved(tick: nat, action: WaitingAction)

  ghost function Later(r: Resolution): Resolution
  {
    match r
    case Pending => Pending
    case Resolved(n, a) => Resolved(n + 1, a)
  }

  /// The queue as one tick sees it: the new arrivals are appended, then every entry is ticked.
  function Arrive(q: seq<Queued>, es: seq<Event>): (r: seq<Queued>)
  {
    TickAll(q + Fresh(es))
  }

  /// The outcome of the ticks whose arrivals are `inputs`, skipping evaluations as the code does.
  ghost function Run(w: Timer, q: seq<Queued>, inputs: seq<seq<Event>>): (r: Resolution)
    decreases |inputs|
  {
    if inputs == [] then Pending else
    var q1 := Arrive(q, inputs[0]);
    var (w1, a) := WaitingTick(w, q1);
    if a.Some? then Resolved(0, a.value) else Later(Run(w1, q1, inputs[1..]))
  }

  /// The same ticks, evaluating the queue every time.
  ghost function EagerRun(w: Timer, q: seq<Queued>, inputs: seq<seq<Event>>): (r: Resolution)
    decreases |inputs|
  {
    if inputs == [] then Pending else
    var q1 := Arrive(q, inputs[0]);
    var (w1, a) := EvaluatingTick(w, q1);
    if a.Some? then Resolved(0, a.value) else Later(EagerRun(w1, q1, inputs[1..]))
  }

  function Arrivals(inputs: seq<seq<Event>>): (n: nat)
  {
    if inputs == [] then 0 else |inputs[0]| + Arrivals(inputs[1..])
  }

  /// Nothing queued decides the wait; only time can.
  ghost predicate Undecided(w: Timer, q: seq<Queued>)
  {
    !HoldTriggered(w, q) && FirstRelease(q, w.coord) == |q|
  }

  /// A tick without arrivals decides nothing. For `Order` this is the buffer arithmetic: the age
  /// of the wait at the moment of a queued press never grows, even once a counter saturates.
  lemma UndecidedPersists(w: Timer, q: seq<Queued>)
    requires Undecided(w, q)
    ensures Undecided(Elapse(w), TickAll(q))
  {
    var w1, q1 := Elapse(w), TickAll(q);
    FirstReleaseIs(q1, w.coord, |q|);
    forall i | TappedAt(q1, i) ensures TappedAt(q, i) && SatSub(w1.ticks, q1[i].since) <= SatSub(w.ticks, q[i].since) {
      var j :| 0 <= j < |q1[i + 1..]| && q1[i + 1..][j].event == Release(q1[i].event.coord);
      assert q[i + 1..][j].event == Release(q[i].event.coord);
    }
    assert w.config.HoldOnOtherKeyPress? ==> forall i :: 0 <= i < |q1| ==> !q[i].event.Press?;
  }

  /// A skipped evaluation would have decided nothing.
  lemma SkippedTickDecidesNothing(w: Timer, v: Timer, q: seq<Queued>, es: seq<Event>)
    requires v == w.(prevQueueLen := v.prevQueueLen) && w.resetTo.None?
    requires |q| + |es| < NO_LEN
    requires w.prevQueueLen == |q| ==> Undecided(w, q)
    requires w.prevQueueLen <= |q| || w.prevQueueLen == NO_LEN
    ensures var q1 := Arrive(q, es);
            var (w1, a) := WaitingTick(w, q1);
            var (v1, b) := EvaluatingTick(v, q1);
            && a == b
            && v1 == w1.(prevQueueLen := v1.prevQueueLen)
            && (a.None? ==> w1.prevQueueLen == |q1| && Undecided(w1, q1))
  {
    var q1 := Arrive(q, es);
    var w1 := WaitingTick(w, q1).0;
    var v1 := EvaluatingTick(v, q1).0;
    if |q1| == w.prevQueueLen && Elapse(w).timeout > 0 {
      assert q + Fresh(es) == q;
      UndecidedPersists(w, q);
      SameTriggers(Elapse(w), v1, q1);
    }
    SameTriggers(w1, v1, q1);
  }

  /// The fast path is invisible: skipping evaluations gives the same action at the same tick.
  lemma {:induction false} FastPathInvisible(w: Timer, v: Timer, q: seq<Queued>, inputs: seq<seq<Event>>)
    requires v == w.(prevQueueLen := v.prevQueueLen) && w.resetTo.None?
    requires |q| + Arrivals(inputs) < NO_LEN
    requires w.prevQueueLen == |q| ==> Undecided(w, q)
    requires w.prevQueueLen <= |q| || w.prevQueueLen == NO_LEN
    ensures Run(w, q, inputs) == EagerRun(v, q, inputs)
    decreases |inputs|
  {
    if inputs != [] {
      SkippedTickDecidesNothing(w, v, q, inputs[0]);
      var q1 := Arrive(q, inputs[0]);
      var (w1, a) := WaitingTick(w, q1);
      if a.None? {
        FastPathInvisible(w1, EvaluatingTick(v, q1).0, q1, inputs[1..]);
      }
    }
  }

  lemma SameTriggers(w: Timer, v: Timer, q: seq<Queued>)
    requires v == w.(prevQueueLen := v.prevQueueLen)
    ensures HoldTriggered(w, q) == HoldTriggered(v, q) && Decide(w, q) == Decide(v, q)
  {
  }

  /// Its instance for a key that has just started waiting, whatever its four-way configuration.
  lemma FastPathInvisibleFromPress(coord: Coord, t: u16, delay: u16, quick: bool, config: HoldTapConfig,
                                   q: seq<Queued>, inputs: seq<seq<Event>>)
    requires |q| + Arrivals(inputs) < NO_LEN
    ensures var w := StartTimer(coord, t, delay, quick, config);
            Run(w, q, inputs) == EagerRun(w, q, inputs)
  {
    var w := StartTimer(coord, t, delay, quick, config);
    FastPathInvisible(w, w, q, inputs);
  }

  // ---------------------------------------------------------------------------------------
  // The default configuration measures the time the key was really held

  /// The first release of `c` among the arrivals comes with batch `m`.
  ghost predicate ReleasedAt(c: Coord, inputs: seq<seq<Event>>, m: nat)
  {
    && m < |inputs|
    && Release(c) in inputs[m]
    && forall j :: 0 <= j < m ==> Release(c) !in inputs[j]
  }

  lemma ArrivesWithoutRelease(q: seq<Queued>, es: seq<Event>, c: Coord)
    requires FirstRelease(q, c) == |q|
    ensures Release(c) !in es ==> FirstRelease(Arrive(q, es), c) == |q| + |es|
    ensures Release(c) in es ==>
              var i := FirstRelease(Arrive(q, es), c);
              i < |q| + |es| && Arrive(q, es)[i].since == 1
  {
    var q1 := Arrive(q, es);
    var i := FirstRelease(q1, c);
    if Release(c) in es {
      var k :| 0 <= k < |es| && es[k] == Release(c);
      assert q1[|q| + k].event == Release(c);
    } else {
      forall j | 0 <= j < |q1| ensures q1[j].event != Release(c) {
        assert j >= |q| ==> es[j - |q|] in es;
      }
    }
  }

  /// Evaluating every tick, a release that arrives with batch `m` meets the timer `m + 1` ticks on.
  lemma {:induction false} EagerRelease(w: Timer, q: seq<Queued>, inputs: seq<seq<Event>>, m: nat)
    requires w.config.Default? && w.resetTo.None?
    requires FirstRelease(q, w.coord) == |q| && ReleasedAt(w.coord, inputs, m)
    ensures var last := if w.timeout == 0 then 0 else w.timeout - 1;
            EagerRun(w, q, inputs) ==
            if m > last then Resolved(last, Timeout)
            else Resolved(m, if w.timeout >= m + 1 + SatSub(w.delay, 1) || (w.timeout <= m + 1 && w.delay <= 1) then Tap else Timeout)
    decreases |inputs|
  {
    ArrivesWithoutRelease(q, inputs[0], w.coord);
    if m > 0 && w.timeout > 1 {
      var q1 := Arrive(q, inputs[0]);
      var w1 := EvaluatingTick(w, q1).0;
      forall j | 0 <= j < m - 1 ensures Release(w.coord) !in inputs[1..][j] {
        assert inputs[1..][j] == inputs[j + 1];
      }
      EagerRelease(w1, q1, inputs[1..], m - 1);
    }
  }

  /// A release that is already queued decides the first tick.
  lemma EagerQueuedRelease(w: Timer, q: seq<Queued>, inputs: seq<seq<Event>>)
    requires w.config.Default? && w.resetTo.None? && inputs != []
    requires FirstRelease(q, w.coord) < |q|
    ensures var since := SatInc(q[FirstRelease(q, w.coord)].since);
            EagerRun(w, q, inputs) ==
            Resolved(0, if SatSub(w.timeout, 1) >= SatSub(w.delay, since) then Tap else Timeout)
  {
    FirstReleaseIs(Arrive(q, inputs[0]), w.coord, FirstRelease(q, w.coord));
  }

  /// A hold-tap with timeout `t >= 1` whose press waited `delay` ticks in the queue, released
  /// `held` ticks after the press, is a tap exactly when it was held for less than `t` ticks, or
  /// for exactly `t` with part of the queue delay still uncharged. `quick` changes nothing else.
  /// Here the release is already queued when the wait starts.
  lemma ReleaseQueuedBeforeWait(coord: Coord, t: u16, delay: u16, quick: bool, q: seq<Queued>, inputs: seq<seq<Event>>)
    requires 1 <= t && |q| + Arrivals(inputs) < NO_LEN && inputs != []
    requires var i := FirstRelease(q, coord); i < |q| && q[i].since <= delay
    ensures var held := delay - q[FirstRelease(q, coord)].since;
            Run(StartTimer(coord, t, delay, quick, Default), q, inputs) ==
            Resolved(0, if held <= t then Tap else Timeout)
  {
    var w := StartTimer(coord, t, delay, quick, Default);
    FastPathInvisible(w, w, q, inputs);
    EagerQueuedRelease(w, q, inputs);
  }

  /// The release arrives while the key waits, `m` ticks after the wait started.
  lemma ReleaseWhileWaiting(coord: Coord, t: u16, delay: u16, quick: bool, q: seq<Queued>, inputs: seq<seq<Event>>, m: nat)
    requires 1 <= t && |q| + Arrivals(inputs) < NO_LEN
    requires FirstRelease(q, coord) == |q| && ReleasedAt(coord, inputs, m)
    ensures var held := delay + m;
            var r := Run(StartTimer(coord, t, delay, quick, Default), q, inputs);
            && r.Resolved? && r.tick <= m
            && r.action != Hold
            && (r.action == Tap <==> held < t || (held == t && delay > QuickTicks(t, delay, quick)))
            && (r.action == Tap ==> r.tick == m)
  {
    var w := StartTimer(coord, t, delay, quick, Default);
    FastPathInvisible(w, w, q, inputs);
    EagerRelease(w, q, inputs, m);
  }

  /// A key held for exactly its timeout is therefore not always a tap: here it times out before its
  /// release arrives.
  lemma HeldForTheTimeoutTimesOut(coord: Coord, quick: bool)
    ensures Run(StartTimer(coord, 1, 0, quick, Default), [], [[], [Release(coord)]]) == Resolved(0, Timeout)
  {
    var inputs: seq<seq<Event>> := [[], [Release(coord)]];
    assert inputs[1..] == [[Release(coord)]] && inputs[1..][1..] == [];
    assert Arrivals(inputs) == Arrivals(inputs[1..]) == 1;
    assert Release(coord) !in inputs[0] && Release(coord) in inputs[1];
    ReleaseWhileWaiting(coord, 1, 0, quick, [], inputs, 1);
  }

  lemma EagerUnreleased(w: Timer, q: seq<Queued>, inputs: seq<seq<Event>>)
    requires w.config.Default? && w.resetTo.None? && inputs != [] && w.timeout == 0
    requires FirstRelease(q, w.coord) == |q|
    ensures EagerRun(w, q, inputs) ==
            Resolved(0, if Release(w.coord) in inputs[0] && w.delay <= 1 then Tap else Timeout)
  {
    ArrivesWithoutRelease(q, inputs[0], w.coord);
  }

  /// A zero timeout: only a release within one tick of the press, and within the queue delay, taps.
  lemma ZeroTimeout(coord: Coord, delay: u16, quick: bool, q: seq<Queued>, inputs: seq<seq<Event>>)
    requires |q| + Arrivals(inputs) < NO_LEN && inputs != []
    requires var i := FirstRelease(q, coord); i < |q| ==> q[i].since <= delay
    ensures var i := FirstRelease(q, coord);
            var r := Run(StartTimer(coord, 0, delay, quick, Default), q, inputs);
            && r.Resolved? && r.tick == 0
            && (i < |q| ==> (r.action == Tap <==> delay - q[i].since <= 1))
            && (i == |q| ==> (r.action == Tap <==> Release(coord) in inputs[0] && delay <= 1))
  {
    var w := StartTimer(coord, 0, delay, quick, Default);
    FastPathInvisible(w, w, q, inputs);
    if FirstRelease(q, coord) < |q| {
      EagerQueuedRelease(w, q, inputs);
    } else {
      EagerUnreleased(w, q, inputs);
    }
  }

  // ---------------------------------------------------------------------------------------
  // Restarting the timeout on a press

  /// `n` ticks without arrivals.
  function Idle(n: nat): (r: seq<seq<Event>>)
    ensures |r| == n
  {
    seq(n, i => [])
  }

  /// The last queued event is a press, so the timeout is set anew whenever the queue is evaluated.
  ghost predicate Restarts(w: Timer, q: seq<Queued>)
  {
    w.resetTo.Some? && q != [] && q[|q| - 1].event.Press?
  }

  lemma {:induction false} RestartedForever(w: Timer, q: seq<Queued>, n: nat)
    requires Undecided(w, q) && Restarts(w, q) && w.resetTo.value > 0
    ensures Run(w, q, Idle(n)) == Pending
    decreases n
  {
    if n > 0 {
      assert Idle(n)[1..] == Idle(n - 1);
      UndecidedPersists(w, q);
      var q1 := Arrive(q, []);
      assert q + Fresh([]) == q;
      var w1 := WaitingTick(w, q1).0;
      assert HoldTriggered(w1, q1) == HoldTriggered(Elapse(w), q1);
      RestartedForever(w1, q1, n - 1);
    }
  }

  lemma {:induction false} TimesOut(w: Timer, q: seq<Queued>)
    requires Undecided(w, q) && !Restarts(w, q)
    ensures Run(w, q, Idle(w.timeout + 1)).Resolved?
    decreases w.timeout
  {
    var n := w.timeout + 1;
    UndecidedPersists(w, q);
    var q1 := Arrive(q, []);
    assert q + Fresh([]) == q;
    var (w1, a) := WaitingTick(w, q1);
    assert HoldTriggered(w1, q1) == HoldTriggered(Elapse(w), q1);
    assert Idle(n)[0] == [] && Idle(n)[1..] == Idle(w.timeout);
    if a.None? {
      TimesOut(w1, q1);
    }
  }

  /// With nothing else arriving, an undecided wait ends by itself if and only if it is not
  /// restarted by the press at the end of the queue: `on_press_reset_timeout_to` is applied again
  /// each time the timeout elapses, so such a wait lasts until another event arrives.
  lemma TimeAloneResolves(w: Timer, q: seq<Queued>)
    requires Undecided(w, q)
    requires w.resetTo.Some? ==> w.resetTo.value > 0
    ensures (exists n: nat :: Run(w, q, Idle(n)).Resolved?) <==> !Restarts(w, q)
  {
    if Restarts(w, q) {
      forall n: nat ensures !Run(w, q, Idle(n)).Resolved? {
        RestartedForever(w, q, n);
      }
    } else {
      TimesOut(w, q);
    }
  }
}
