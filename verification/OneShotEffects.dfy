/// What one-shot keys do to the presses and releases around them, and how long input is paused
/// (keyberon/src/layout.rs).

module OneShotEffects {
  import opened Types
  import opened Picking
  import opened HoldTap
  import opened LayoutModel
  import opened NoStuckKeys
  import opened TapHoldKey
  import opened OneShotKey

  // ---------------------------------------------------------------------------------------
  // The timer

  /// A one-shot ends when it is due to or its time is up: it hands over the releases held back, in order, and
  /// is as if there had been none. Otherwise only its clocks advance.
  lemma OneShotEndsOrGoesOn(o: OneShotValue)
    requires o.keys != []
    ensures var (r, due) := TickOneShot(o);
            if o.releaseOnNextTick || o.timeout <= 1 then r == INITIAL_ONE_SHOT.(endConfig := o.endConfig) && due == o.released
            else r == o.(timeout := o.timeout - 1, ignoreTicks := if o.ignoreTicks > 0 then o.ignoreTicks - 1 else 0) && due == []
  {
  }

  /// The newest sixteen entries, in order of arrival.
  ghost predicate JoinsRing<T(!new)>(s: seq<T>, x: T, r: seq<T>)
  {
    r == (if |s| >= 16 then s[1..] else s) + [x]
  }

  /// A press of another key cuts an active one-shot short and pauses input, or is remembered, by the
  /// configuration; it does nothing while presses are ignored.
  lemma OtherPressCounts(o: OneShotValue, c: Coord, pauseDelay: u16)
    requires o.keys != []
    ensures var r := HandleOtherPress(o, c, pauseDelay);
            if o.ignoreTicks > 0 then r == o
            else if EndsOnPress(o.endConfig) then
              r == o.(pauseTicks := pauseDelay, timeout := r.timeout)
              && r.timeout <= o.timeout && r.timeout <= pauseDelay && (r.timeout == o.timeout || r.timeout == pauseDelay)
            else r == o.(otherPressed := r.otherPressed) && JoinsRing(o.otherPressed, c, r.otherPressed)
  {
  }

  predicate EndsOnRepress(e: OneShotEndConfig)
  {
    e.EndOnFirstPressOrRepress? || e.EndOnFirstReleaseOrRepress?
  }

  ghost function NotOf(cs: seq<Coord>, c: Coord, n: nat): set<nat>
  {
    set j: nat | j < n && j < |cs| && cs[j] != c
  }

  lemma {:induction false} WithoutSoFar(cs: seq<Coord>, c: Coord, n: nat)
    requires n <= |cs|
    ensures Picks(cs, NotOf(cs, c, n), Without(cs[..n], c))
    decreases n
  {
    if n == 0 {
      PicksNone(cs);
      assert NotOf(cs, c, 0) == {};
    } else {
      var m := n - 1;
      WithoutSoFar(cs, c, m);
      assert cs[..n][..m] == cs[..m] && cs[..n][m] == cs[m];
      PicksNext(cs, m, NotOf(cs, c, m), Without(cs[..m], c), cs[m] != c);
      assert NotOf(cs, c, n) == NotOf(cs, c, m) + if cs[m] != c then {m} else {};
    }
  }

  /// A one-shot key that is pressed while one-shot keys are active joins them: its release is no longer held
  /// back, its timeout and configuration count from now on, and with a configuration that says so a second
  /// press of an active key ends them all in the next tick.
  lemma PressedAgain(s: LayoutValue, c: Coord, t: u16, e: OneShotEndConfig)
    requires s.oneshot.keys != [] && |s.oneshot.keys| < 16 && s.oneshot.ignoreTicks == 0
    ensures var (o, r) := (s.oneshot, ActivateOneShot(s, c, t, e).oneshot);
            && r == o.(keys := o.keys + [c], released := r.released, timeout := t, endConfig := e, releaseOnNextTick := r.releaseOnNextTick)
            && Picks(o.released, NotOf(o.released, c, |o.released|), r.released)
            && (r.releaseOnNextTick <==> o.releaseOnNextTick || (EndsOnRepress(o.endConfig) && c in o.keys))
  {
    var cs := s.oneshot.released;
    WithoutSoFar(cs, c, |cs|);
    assert cs[..|cs|] == cs;
  }

  /// The first one-shot key, and one that is pressed while presses are ignored.
  lemma PressedFirst(s: LayoutValue, c: Coord, t: u16, e: OneShotEndConfig)
    requires |s.oneshot.keys| < 16 && (s.oneshot.keys == [] || s.oneshot.ignoreTicks > 0)
    ensures ActivateOneShot(s, c, t, e) ==
            s.(oneshot := s.oneshot.(keys := s.oneshot.keys + [c], timeout := t, endConfig := e))
  {
  }

  /// A release of a key that is no one-shot key ends those that are active, a tick later, exactly if the
  /// configuration says so and the key was pressed after them.
  lemma OwnReleaseEnds(s: LayoutValue, c: Coord)
    requires c !in s.oneshot.keys
    ensures var r := HandleRelease(s, c);
            && r.oneshot == s.oneshot.(releaseOnNextTick := r.oneshot.releaseOnNextTick)
            && (r.oneshot.releaseOnNextTick <==>
                  s.oneshot.releaseOnNextTick
                  || (s.oneshot.keys != [] && !EndsOnPress(s.oneshot.endConfig) && c in s.oneshot.otherPressed))
  {
  }

  /// A state that a release at `c` leaves: it is elsewhere, or is to be retained.
  ghost predicate Stays(x: KeyState, c: Coord, retained: seq<Retainable>)
  {
    match x
    case NormalKey(kc, d, _) => d != c || RetainKey(c, kc) in retained
    case LayerModifier(l, d) => d != c || RetainLayer(c, l) in retained
    case NoOpInput(d) => d != c
  }

  ghost function StayingBefore(states: seq<KeyState>, c: Coord, retained: seq<Retainable>, n: nat): set<nat>
  {
    set j: nat | j < n && j < |states| && Stays(states[j], c, retained)
  }

  lemma {:induction false} SurvivorsSoFar(states: seq<KeyState>, c: Coord, retained: seq<Retainable>, n: nat)
    requires n <= |states|
    ensures Picks(states, StayingBefore(states, c, retained, n), Survivors(states[..n], c, retained))
    decreases n
  {
    if n == 0 {
      PicksNone(states);
      assert StayingBefore(states, c, retained, 0) == {};
    } else {
      var m := n - 1;
      SurvivorsSoFar(states, c, retained, m);
      assert states[..n][..m] == states[..m] && states[..n][m] == states[m];
      PicksNext(states, m, StayingBefore(states, c, retained, m), Survivors(states[..m], c, retained), Stays(states[m], c, retained));
      assert StayingBefore(states, c, retained, n) ==
             StayingBefore(states, c, retained, m) + if Stays(states[m], c, retained) then {m} else {};
    }
  }

  /// A release of a one-shot key is held back behind those that are, and exactly the states to be retained
  /// stay; of sixteen releases the oldest is given up, and its states with it.
  lemma ReleaseIsHeldBack(s: LayoutValue, c: Coord)
    requires c in s.oneshot.keys
    ensures var r := HandleRelease(s, c);
            && r.oneshot == s.oneshot.(released := r.oneshot.released) && JoinsRing(s.oneshot.released, c, r.oneshot.released)
            && (|s.oneshot.released| < 16 ==>
                  Picks(s.states, StayingBefore(s.states, c, s.oneshot.retained, |s.states|), r.states))
            && (|s.oneshot.released| >= 16 ==> forall x :: x in r.states ==> x.coord != s.oneshot.released[0])
  {
    SurvivorsSoFar(s.states, c, s.oneshot.retained, |s.states|);
    assert s.states[..|s.states|] == s.states;
  }

  // ---------------------------------------------------------------------------------------
  // The states that stay

  lemma RetainedOnce(o: OneShotValue, x: Retainable)
    requires |o.retained| < 16
    ensures var r := AddRetained(o, x);
            r == o.(retained := if x in o.retained then o.retained else o.retained + [x])
  {
  }

  lemma {:induction false} RetainsKeys(o: OneShotValue, c: Coord, kcs: seq<nat>)
    requires |o.retained| + |kcs| <= 16
    ensures var r := AddRetainedKeys(o, c, kcs);
            && (forall x :: x in o.retained ==> x in r.retained)
            && (forall i :: 0 <= i < |kcs| ==> RetainKey(c, kcs[i]) in r.retained)
            && r == o.(retained := r.retained)
    decreases |kcs|
  {
    if kcs != [] {
      RetainsKeys(AddRetained(o, RetainKey(c, kcs[0])), c, kcs[1..]);
      forall i | 0 < i < |kcs| ensures RetainKey(c, kcs[i]) in AddRetainedKeys(o, c, kcs).retained {
        assert kcs[1..][i - 1] == kcs[i];
      }
    }
  }

  lemma {:induction false} PushedKeys(states: seq<KeyState>, kcs: seq<nat>, c: Coord, clear: bool, x: KeyState)
    ensures x in PushKeys(states, kcs, c, clear) ==> x in states || (exists i :: 0 <= i < |kcs| && x == NormalKey(kcs[i], c, clear))
    decreases |kcs|
  {
    if kcs != [] {
      PushedKeys(PushState(states, NormalKey(kcs[0], c, clear)), kcs[1..], c, clear, x);
      if x in PushKeys(states, kcs, c, clear) && x !in states && x != NormalKey(kcs[0], c, clear) {
        var i :| 0 <= i < |kcs[1..]| && x == NormalKey(kcs[1..][i], c, clear);
        assert kcs[i + 1] == kcs[1..][i];
      }
    }
  }

  /// The states that a key of this action adds, at most.
  ghost predicate AddedBy(a: Action, c: Coord, x: KeyState)
  {
    match a
    case KeyCode(kc) => x == NormalKey(kc, c, false)
    case MultipleKeyCodes(kcs) => exists i :: 0 <= i < |kcs| && x == NormalKey(kcs[i], c, false)
    case Layer(l) => x == LayerModifier(l, c)
    case _ => false
  }

  /// Keys and layers that a one-shot key activates are kept when it is released, whichever of them it is.
  lemma OneShotStatesStay(cfg: Config, s: LayoutValue, a: Action, c: Coord, x: KeyState)
    requires (a.KeyCode? || a.Layer? || (a.MultipleKeyCodes? && |a.keycodes| <= 16)) && s.oneshot.retained == []
    ensures var r := PlainAction(cfg, s, a, c, true);
            x in r.states ==> x in s.states || (AddedBy(a, c, x) && SurvivesRelease(x, c, r.oneshot.retained))
  {
    match a {
      case MultipleKeyCodes(kcs) =>
        RetainsKeys(UpdateLastPress(s, c).oneshot, c, kcs);
        PushedKeys(s.states, kcs, c, false, x);
      case _ =>
    }
  }

  /// Such an action is no press of another key.
  lemma OneShotActionIsNoPress(cfg: Config, s: LayoutValue, a: Action, c: Coord)
    requires (a.KeyCode? || a.Layer? || (a.MultipleKeyCodes? && |a.keycodes| <= 16)) && s.oneshot.retained == []
    ensures var r := PlainAction(cfg, s, a, c, true).oneshot;
            r == s.oneshot.(retained := r.retained)
  {
    if a.MultipleKeyCodes? {
      RetainsKeys(UpdateLastPress(s, c).oneshot, c, a.keycodes);
    }
  }

  // ---------------------------------------------------------------------------------------
  // Output chords

  ghost function FlaggedBefore(states: seq<KeyState>, n: nat): set<nat>
  {
    set j: nat | j < n && j < |states| && Clears(states[j])
  }

  ghost function UnflaggedBefore(states: seq<KeyState>, n: nat): set<nat>
  {
    set j: nat | j < n && j < |states| && !Clears(states[j])
  }

  lemma {:induction false} ClearedSoFar(states: seq<KeyState>, n: nat)
    requires n <= |states|
    ensures Flagged(states[..n]) == |FlaggedBefore(states, n)|
    ensures Picks(states, UnflaggedBefore(states, n), Unflagged(states[..n]))
    decreases n
  {
    if n == 0 {
      PicksNone(states);
      assert FlaggedBefore(states, 0) == {} && UnflaggedBefore(states, 0) == {};
    } else {
      var m := n - 1;
      ClearedSoFar(states, m);
      assert states[..n][..m] == states[..m] && states[..n][m] == states[m];
      ClearedNext(states, m);
      PicksNext(states, m, UnflaggedBefore(states, m), Unflagged(states[..m]), !Clears(states[m]));
    }
  }

  lemma ClearedNext(states: seq<KeyState>, m: nat)
    requires m < |states|
    ensures UnflaggedBefore(states, m + 1) == UnflaggedBefore(states, m) + if Clears(states[m]) then {} else {m}
    ensures |FlaggedBefore(states, m + 1)| == |FlaggedBefore(states, m)| + if Clears(states[m]) then 1 else 0
  {
    assert FlaggedBefore(states, m + 1) == FlaggedBefore(states, m) + if Clears(states[m]) then {m} else {};
    assert m !in FlaggedBefore(states, m);
  }

  /// Every action first clears the keys of output chords, and pauses input for two ticks for each of them; the
  /// tap-hold interval goes on only where the last key acts again.
  lemma ActionClearsOutputChords(s: LayoutValue, c: Coord)
    ensures var (r, n) := (BeforeAction(s, c), |s.states|);
            && Picks(s.states, UnflaggedBefore(s.states, n), r.states)
            && r.oneshot == s.oneshot.(pauseTicks := (s.oneshot.pauseTicks + 2 * |FlaggedBefore(s.states, n)|) % 0x1_0000)
            && r.tapHoldTimeout == (if c == s.lastPress || c.row != 0 then s.tapHoldTimeout else 0)
            && r == s.(states := r.states, oneshot := r.oneshot, tapHoldTimeout := r.tapHoldTimeout)
  {
    ClearedSoFar(s.states, |s.states|);
    assert s.states[..|s.states|] == s.states;
  }

  // ---------------------------------------------------------------------------------------
  // Actions without output

  /// An action that does nothing counts as a press of another key, but for the one at the coordinate that chords
  /// use to trigger tap-hold keys.
  lemma NothingCountsAsPress(cfg: Config, s: LayoutValue, c: Coord, isOneShot: bool)
    ensures PlainAction(cfg, s, NoOp, c, isOneShot).oneshot ==
            if isOneShot || c == Coord(0, 0) then s.oneshot else HandleOtherPress(s.oneshot, c, cfg.pauseDelay)
  {
  }

  /// From this action on presses are ignored for as many ticks as it says, while a one-shot key is active.
  lemma {:induction false} PressesAreIgnored(cfg: Config, s: LayoutValue, c: Coord, ticks: u16, n: nat)
    requires s.oneshot.keys != [] && !s.oneshot.releaseOnNextTick && n < s.oneshot.timeout
    ensures var r := OneShotTicks(PlainAction(cfg, s, OneShotIgnoreEventsTicks(ticks), c, false).oneshot, n);
            && r.ignoreTicks == (if n < ticks then ticks - n else 0) && r.timeout == s.oneshot.timeout - n
            && r.keys == s.oneshot.keys && !r.releaseOnNextTick
            && (n < ticks ==> forall d :: HandleOtherPress(r, d, cfg.pauseDelay) == r)
    decreases n
  {
    if n > 0 {
      PressesAreIgnored(cfg, s, c, ticks, n - 1);
    }
  }

  ghost function OneShotTicks(o: OneShotValue, n: nat): OneShotValue
  {
    if n == 0 then o else TickOneShot(OneShotTicks(o, n - 1)).0
  }

  // ---------------------------------------------------------------------------------------
  // Resolved waits

  /// A tap and a hold pause input for the configured number of ticks, a timeout does not.
  lemma ResolvingPauses(cfg: Config, s: LayoutValue, w: Waiting, a: WaitingAction, kc: nat)
    requires s.oneshot.keys == [] && forall x :: x in s.states ==> !Clears(x)
    requires (match a case Hold => w.hold case Tap => w.tap case Timeout => w.timeoutAction) == KeyCode(kc)
    ensures WaitingInto(cfg, s, w, a).oneshot ==
            s.oneshot.(pauseTicks := if a.Timeout? then s.oneshot.pauseTicks else cfg.pauseDelay)
  {
    PlainKeyKeepsOneShot(cfg, ResolvedFrom(cfg, s, w, a), kc, w.timer.coord, ResolvedDelay(w), w.layerStack);
  }

  lemma PlainKeyKeepsOneShot(cfg: Config, s: LayoutValue, kc: nat, c: Coord, delay: u16, stack: seq<nat>)
    requires s.oneshot.keys == [] && forall x :: x in s.states ==> !Clears(x)
    ensures DoAction(cfg, s, KeyCode(kc), c, delay, false, stack).oneshot == s.oneshot
  {
    NoneFlagged(s.states);
    assert WrapAdd(s.oneshot.pauseTicks, 0) == s.oneshot.pauseTicks;
    assert BeforeAction(s, c).oneshot == s.oneshot;
  }

  lemma {:induction false} NoneFlagged(states: seq<KeyState>)
    requires forall x :: x in states ==> !Clears(x)
    ensures Flagged(states) == 0
    decreases |states|
  {
    if states != [] {
      var n := |states| - 1;
      assert states == states[..n] + [states[n]];
      NoneFlagged(states[..n]);
    }
  }

  /// A tap-hold key as the action of another starts its wait with the time that the first one took, queue
  /// delay included.
  lemma NestedWaitInheritsDelay(cfg: Config, s: LayoutValue, w: Waiting, a: WaitingAction)
    requires var next := ResolvedAction(w, a); next.HoldTapAction? && next.tapHoldInterval == 0
    requires s.waiting.None?
    ensures WaitingInto(cfg, s, w, a).waiting ==
            Some(NewWait(cfg, ResolvedAction(w, a), w.timer.coord, (w.timer.delay + w.timer.ticks) % 0x1_0000, w.layerStack))
  {
    var (next, c, delay) := (ResolvedAction(w, a), w.timer.coord, ResolvedDelay(w));
    var from := ResolvedFrom(cfg, s, w, a);
    var before := BeforeAction(from, c);
    assert DoAction(cfg, from, next, c, delay, false, w.layerStack) == HoldTapBody(cfg, before, next, c, delay, false, w.layerStack);
    assert before.waiting.None?;
  }

  // ---------------------------------------------------------------------------------------
  // Paused input

  /// Nothing waits, and the next event is held up.
  ghost predicate Paused(s: LayoutValue)
  {
    s.waiting.None? && s.extra == [] && s.oneshot.pauseTicks > 0
  }

  /// The same events, `n` ticks older.
  ghost predicate Older(q: seq<Queued>, r: seq<Queued>, n: nat)
  {
    |r| == |q| && forall i :: 0 <= i < |q| ==>
      r[i].event == q[i].event && r[i].since == if q[i].since + n <= 0xFFFF then q[i].since + n else 0xFFFF
  }

  lemma PausedTick(cfg: Config, s: LayoutValue)
    requires Paused(s) && !s.oneshot.releaseOnNextTick && (s.oneshot.keys == [] || s.oneshot.timeout > 1)
    ensures var r := Tick(cfg, s);
            && r.states == s.states && Older(s.queue, r.queue, 1) && r.waiting.None? && r.extra == []
            && r.oneshot.pauseTicks == s.oneshot.pauseTicks - 1 && r.oneshot.keys == s.oneshot.keys
            && !r.oneshot.releaseOnNextTick && r.oneshot.released == s.oneshot.released
            && r.oneshot.timeout == (if s.oneshot.keys == [] then s.oneshot.timeout else s.oneshot.timeout - 1)
  {
    NoExtraWaits(cfg, TickPrimary(cfg, TickTimers(s)));
  }

  lemma OlderStill(q: seq<Queued>, r: seq<Queued>, s: seq<Queued>, n: nat)
    requires Older(q, r, 1) && Older(r, s, n)
    ensures Older(q, s, n + 1)
  {
  }

  /// While input is paused, and no one-shot ends, nothing is taken from the queue.
  lemma {:induction false} PauseHoldsEvents(cfg: Config, s: LayoutValue, n: nat) returns (r: LayoutValue)
    requires s.waiting.None? && s.extra == [] && !s.oneshot.releaseOnNextTick && n <= s.oneshot.pauseTicks
    requires s.oneshot.keys == [] || n < s.oneshot.timeout
    ensures r == RunLayout(cfg, s, Ticks(n))
    ensures r.states == s.states && Older(s.queue, r.queue, n) && r.waiting.None? && r.extra == []
    ensures r.oneshot.pauseTicks == s.oneshot.pauseTicks - n && r.oneshot.keys == s.oneshot.keys
    ensures !r.oneshot.releaseOnNextTick && r.oneshot.released == s.oneshot.released
    ensures r.oneshot.timeout == if s.oneshot.keys == [] then s.oneshot.timeout else s.oneshot.timeout - n
    decreases n
  {
    if n == 0 {
      r := s;
    } else {
      TicksFirst(cfg, s, n);
      PausedTick(cfg, s);
      r := PauseHoldsEvents(cfg, Tick(cfg, s), n - 1);
      OlderStill(s.queue, Tick(cfg, s).queue, r.queue, n - 1);
    }
  }

  /// A one-shot that another press has cut short ends before the next event is handled: in the tick in which its
  /// time is up its keys are released, and then the event is taken from the queue.
  lemma NextEventAfterOneShot(cfg: Config, s: LayoutValue)
    requires s.waiting.None? && s.extra == [] && s.oneshot.keys != [] && s.oneshot.timeout == 1 && s.queue != []
    ensures var s1 := TickTimers(s);
            && s1.oneshot.keys == [] && s1.oneshot.pauseTicks == 0 && s1.queue == TickAll(s.queue)
            && TickPrimary(cfg, s1) == Dequeue(cfg, s1.(queue := s1.queue[1..]), s1.queue[0].event, s1.queue[0].since)
  {
    var (o, due) := TickOneShot(s.oneshot);
    ReleasingAllKeeps(s.(queue := TickAll(s.queue), tapHoldTimeout := SatSub(s.tapHoldTimeout, 1), oneshot := o), due);
  }

  lemma {:induction false} ReleasingAllKeeps(s: LayoutValue, cs: seq<Coord>)
    requires s.oneshot.keys == []
    ensures var r := ReleaseAll(s, cs);
            r == s.(states := r.states)
    decreases |cs|
  {
    if cs != [] {
      ReleasingAllKeeps(HandleRelease(s, cs[0]), cs[1..]);
    }
  }
}
