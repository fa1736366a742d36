/// No stuck keys: over every run of key events and ticks, whatever the layout still holds is owed
/// a release (keyberon/src/layout.rs).

module NoStuckKeys {
  import opened Types
  import opened HoldTap
  import opened LayoutModel
  import opened HeldWaits

  /// `down` is the set of coordinates that are physically pressed.
  ghost predicate Live(q: seq<Queued>, down: set<Coord>, c: Coord)
  {
    c in down || HasRelease(q, c)
  }

  ghost predicate HeldByOneShot(o: OneShotValue, c: Coord)
  {
    c in o.keys && c in o.released
  }

  /// Every state belongs to a key that is down, whose release is queued, or that a one-shot holds
  /// back; releases about to be handled are listed in `due`.
  ghost predicate StatesOwed(s: LayoutValue, down: set<Coord>, due: seq<Coord>)
  {
    forall x :: x in s.states ==>
      Live(s.queue, down, x.coord) || HeldByOneShot(s.oneshot, x.coord) || x.coord in due
  }

  ghost predicate WaitsOwed(s: LayoutValue, down: set<Coord>, due: seq<Coord>)
  {
    forall w :: Waits(s, w) ==> Live(s.queue, down, w.timer.coord) || w.timer.coord in due
  }

  ghost predicate Waits(s: LayoutValue, w: Waiting)
  {
    s.waiting == Some(w) || w in s.extra
  }

  /// A queued press is still down, or its release is queued behind it.
  ghost predicate PressesOwed(q: seq<Queued>, down: set<Coord>)
  {
    forall i :: 0 <= i < |q| && q[i].event.Press? ==> Live(q[i + 1..], down, q[i].event.coord)
  }

  ghost predicate Inv(s: LayoutValue, down: set<Coord>)
  {
    InvBut(s, down, [])
  }

  /// The invariant but for keys whose release is about to be handled.
  ghost predicate InvBut(s: LayoutValue, down: set<Coord>, due: seq<Coord>)
  {
    StatesOwed(s, down, due) && WaitsOwed(s, down, due) && PressesOwed(s.queue, down)
  }

  // ---------------------------------------------------------------------------------------
  // What acting at coordinate `c` may change

  ghost predicate OnlyReleasesAdded(q: seq<Queued>, r: seq<Queued>)
  {
    q <= r && forall i :: |q| <= i < |r| ==> r[i].event.Release?
  }

  /// From `s` to `r`, new states and waits sit at `c`, and a one-shot key other than `c` stays
  /// held or has its release queued.
  ghost predicate ActsAt(s: LayoutValue, r: LayoutValue, c: Coord)
  {
    && OnlyReleasesAdded(s.queue, r.queue)
    && (forall x :: x in r.states ==> x in s.states || x.coord == c)
    && (forall w :: Waits(r, w) ==> Waits(s, w) || w.timer.coord == c)
    && (forall d :: HeldByOneShot(s.oneshot, d) ==>
          d == c || HeldByOneShot(r.oneshot, d) || HasRelease(r.queue, d))
  }

  lemma ReleaseStays(q: seq<Queued>, r: seq<Queued>, d: Coord)
    requires q <= r && HasRelease(q, d)
    ensures HasRelease(r, d)
  {
    var i :| 0 <= i < |q| && q[i].event == Release(d);
    assert r[i].event == Release(d);
  }

  lemma ActsTransitively(s: LayoutValue, r: LayoutValue, t: LayoutValue, c: Coord)
    requires ActsAt(s, r, c) && ActsAt(r, t, c)
    ensures ActsAt(s, t, c)
  {
    forall d | HasRelease(r.queue, d) ensures HasRelease(t.queue, d) {
      ReleaseStays(r.queue, t.queue, d);
    }
  }

  lemma PushKeysAt(states: seq<KeyState>, keycodes: seq<nat>, c: Coord, clear: bool)
    ensures forall x :: x in PushKeys(states, keycodes, c, clear) ==> x in states || x.coord == c
    decreases |keycodes|
  {
    if keycodes != [] {
      PushKeysAt(PushState(states, NormalKey(keycodes[0], c, clear)), keycodes[1..], c, clear);
    }
  }

  lemma RetainedKeysFrame(o: OneShotValue, c: Coord, keycodes: seq<nat>)
    ensures var r := AddRetainedKeys(o, c, keycodes); r == o.(retained := r.retained)
    decreases |keycodes|
  {
    if keycodes != [] {
      RetainedKeysFrame(AddRetained(o, RetainKey(c, keycodes[0])), c, keycodes[1..]);
    }
  }

  lemma OneShotActsAt(s: LayoutValue, c: Coord, t: u16, endConfig: OneShotEndConfig)
    ensures ActsAt(s, ActivateOneShot(s, c, t, endConfig), c)
  {
    var r := ActivateOneShot(s, c, t, endConfig);
    var o := HandleOneShotPress(s.oneshot, c);
    forall d | HeldByOneShot(s.oneshot, d) && d != c ensures HeldByOneShot(r.oneshot, d) || HasRelease(r.queue, d) {
      assert HeldByOneShot(o, d);
      if d !in r.oneshot.keys {
        assert r.queue[|s.queue|].event == Release(d);
      }
    }
  }

  lemma PlainKeepsRest(cfg: Config, s: LayoutValue, a: Action, c: Coord, isOneShot: bool)
    ensures var r := PlainAction(cfg, s, a, c, isOneShot);
            && r.queue == s.queue && r.waiting == s.waiting && r.extra == s.extra
            && r.oneshot.keys == s.oneshot.keys && r.oneshot.released == s.oneshot.released
  {
    if a.MultipleKeyCodes? {
      RetainedKeysFrame(s.oneshot, c, a.keycodes);
    }
  }

  lemma PlainStatesAt(cfg: Config, s: LayoutValue, a: Action, c: Coord, isOneShot: bool)
    ensures forall x :: x in PlainAction(cfg, s, a, c, isOneShot).states ==> x in s.states || x.coord == c
  {
    if a.MultipleKeyCodes? {
      PushKeysAt(s.states, a.keycodes, c, !isOneShot);
    }
  }

  lemma PlainActsAt(cfg: Config, s: LayoutValue, a: Action, c: Coord, isOneShot: bool)
    ensures ActsAt(s, PlainAction(cfg, s, a, c, isOneShot), c)
  {
    PlainKeepsRest(cfg, s, a, c, isOneShot);
    PlainStatesAt(cfg, s, a, c, isOneShot);
  }

  lemma {:induction false} HoldTapActsAt(cfg: Config, s: LayoutValue, a: Action, c: Coord, delay: u16,
                                         isOneShot: bool, stack: seq<nat>)
    requires a.HoldTapAction?
    ensures ActsAt(s, HoldTapBody(cfg, s, a, c, delay, isOneShot, stack), c)
    decreases |stack|, a, 0
  {
    if a.tapHoldInterval == 0 || c != s.lastPress || s.tapHoldTimeout == 0 {
      StartWaitingActsAt(s, NewWait(cfg, a, c, delay, stack), a.tapHoldInterval);
    } else {
      var s1 := s.(tapHoldTimeout := 0);
      DoActionActsAt(cfg, s1, a.tap, c, delay, isOneShot, stack);
      var s2 := DoAction(cfg, s1, a.tap, c, delay, isOneShot, stack);
      LastPressActsAt(s2, c);
      ActsTransitively(s, s1, s2, c);
      ActsTransitively(s, s2, UpdateLastPress(s2, c), c);
    }
  }

  lemma BeforeActsAt(s: LayoutValue, c: Coord)
    ensures ActsAt(s, BeforeAction(s, c), c) && ActsAt(s, UpdateLastPress(BeforeAction(s, c), c), c)
  {
  }

  lemma StartWaitingActsAt(s: LayoutValue, w: Waiting, interval: u16)
    ensures ActsAt(s, StartWaiting(s, w, interval), w.timer.coord)
  {
  }

  lemma {:induction false} DoActionActsAt(cfg: Config, s: LayoutValue, action: Action, c: Coord, delay: u16,
                                          isOneShot: bool, stack: seq<nat>)
    ensures ActsAt(s, DoAction(cfg, s, action, c, delay, isOneShot, stack), c)
    decreases |stack|, action, 1
  {
    var (a, rest) := if action.Trans? then ResolveCoord(cfg, c, stack) else (action, stack);
    var s1 := BeforeAction(s, c);
    var r := DoAction(cfg, s, action, c, delay, isOneShot, stack);
    BeforeActsAt(s, c);
    var mid := s1;
    if a.MultipleActions? {
      mid := UpdateLastPress(s1, c);
      DoActionsActAt(cfg, mid, a.actions, c, delay, isOneShot, rest);
    } else if a.HoldTapAction? {
      HoldTapActsAt(cfg, s1, a, c, delay, isOneShot, rest);
    } else if a.OneShot? {
      var s2 := UpdateLastPress(s1, c);
      mid := DoAction(cfg, s2, a.action, c, delay, true, []);
      DoActionActsAt(cfg, s2, a.action, c, delay, true, []);
      ActsTransitively(s, s2, mid, c);
      OneShotActsAt(mid, c, a.oneshotTimeout, a.endConfig);
    } else {
      PlainActsAt(cfg, s1, a, c, isOneShot);
    }
    ActsTransitively(s, mid, r, c);
  }

  lemma LastPressActsAt(s: LayoutValue, c: Coord)
    ensures ActsAt(s, UpdateLastPress(s, c), c)
  {
  }

  lemma {:induction false} DoActionsActAt(cfg: Config, s: LayoutValue, acts: seq<Action>, c: Coord, delay: u16,
                                          isOneShot: bool, stack: seq<nat>)
    ensures ActsAt(s, DoActions(cfg, s, acts, c, delay, isOneShot, stack), c)
    decreases |stack|, acts, 0
  {
    if acts != [] {
      var s1 := DoAction(cfg, s, acts[0], c, delay, isOneShot, stack);
      DoActionActsAt(cfg, s, acts[0], c, delay, isOneShot, stack);
      DoActionsActAt(cfg, s1, acts[1..], c, delay, isOneShot, stack);
      ActsTransitively(s, s1, DoActions(cfg, s, acts, c, delay, isOneShot, stack), c);
    }
  }

  /// Acting at a coordinate that is down, or whose release is queued or due, keeps the invariant.
  lemma ActingKeepsInv(s: LayoutValue, r: LayoutValue, c: Coord, down: set<Coord>, due: seq<Coord>)
    requires InvBut(s, down, due) && ActsAt(s, r, c)
    requires Live(s.queue, down, c) || c in due
    ensures InvBut(r, down, due)
  {
    forall d | HasRelease(s.queue, d) ensures HasRelease(r.queue, d) {
      ReleaseStays(s.queue, r.queue, d);
    }
    forall i | 0 <= i < |r.queue| && r.queue[i].event.Press? ensures Live(r.queue[i + 1..], down, r.queue[i].event.coord) {
      assert r.queue[i] == s.queue[i];
      if r.queue[i].event.coord !in down {
        ReleaseStays(s.queue[i + 1..], r.queue[i + 1..], r.queue[i].event.coord);
      }
    }
  }

  // ---------------------------------------------------------------------------------------
  // Releases

  lemma HandledReleaseIsDischarged(s: LayoutValue, c: Coord, down: set<Coord>, due: seq<Coord>)
    requires StatesOwed(s, down, [c] + due)
    ensures var r := HandleRelease(s, c);
            && StatesOwed(r, down, due)
            && r == s.(states := r.states, oneshot := r.oneshot)
  {
  }

  lemma {:induction false} ReleaseAllDischarges(s: LayoutValue, down: set<Coord>, due: seq<Coord>)
    requires StatesOwed(s, down, due)
    ensures var r := ReleaseAll(s, due);
            && StatesOwed(r, down, [])
            && r == s.(states := r.states, oneshot := r.oneshot)
    decreases |due|
  {
    if due != [] {
      assert due == [due[0]] + due[1..];
      HandledReleaseIsDischarged(s, due[0], down, due[1..]);
      ReleaseAllDischarges(HandleRelease(s, due[0]), down, due[1..]);
    }
  }

  /// Handling a release settles what was due, unless its key waits still with no other release.
  lemma ReleaseSettles(s: LayoutValue, c: Coord, down: set<Coord>)
    requires InvBut(s, down, [c])
    requires Live(s.queue, down, c) || !WaitsAt(s.waiting, s.extra, c)
    ensures Inv(HandleRelease(s, c), down)
  {
    assert [c] + [] == [c];
    HandledReleaseIsDischarged(s, c, down, []);
  }

  /// Taking the oldest event off the queue leaves its release, if it is one, due.
  lemma DroppedFirst(s: LayoutValue, down: set<Coord>)
    requires InvBut(s, down, []) && s.queue != []
    ensures var (first, t) := (s.queue[0].event, s.(queue := s.queue[1..]));
            && InvBut(t, down, if first.Release? then [first.coord] else [])
            && (first.Press? ==> Live(t.queue, down, first.coord))
  {
    var (e, t) := (s.queue[0].event, s.(queue := s.queue[1..]));
    forall d | HasRelease(s.queue, d) && e != Release(d) ensures HasRelease(t.queue, d) {
      var i :| 0 <= i < |s.queue| && s.queue[i].event == Release(d);
      assert t.queue[i - 1].event == Release(d);
    }
    forall i | 0 <= i < |t.queue| && t.queue[i].event.Press? ensures Live(t.queue[i + 1..], down, t.queue[i].event.coord) {
      assert s.queue[i + 1].event.Press? && s.queue[i + 2..] == t.queue[i + 1..];
    }
    assert s.queue[0 + 1..] == t.queue;
  }

  lemma PoppedEventKeepsInv(cfg: Config, s: LayoutValue, down: set<Coord>)
    requires Inv(s, down) && s.queue != [] && s.waiting.None? && s.extra == []
    ensures Inv(Dequeue(cfg, s.(queue := s.queue[1..]), s.queue[0].event, s.queue[0].since), down)
  {
    var popped := s.(queue := s.queue[1..]);
    var (e, since) := (s.queue[0].event, s.queue[0].since);
    DroppedFirst(s, down);
    if e.Press? {
      DoActionActsAt(cfg, popped, Trans, e.coord, since, false, LayerOrder(cfg, popped.states));
      ActingKeepsInv(popped, Dequeue(cfg, popped, e, since), e.coord, down, []);
    } else {
      ReleaseSettles(popped, e.coord, down);
    }
  }

  // ---------------------------------------------------------------------------------------
  // Ticks

  lemma TickAllKeepsReleases(q: seq<Queued>, d: Coord)
    ensures HasRelease(TickAll(q), d) <==> HasRelease(q, d)
  {
    if HasRelease(q, d) {
      var i :| 0 <= i < |q| && q[i].event == Release(d);
      assert TickAll(q)[i].event == Release(d);
    }
  }

  lemma TimersKeepInv(s: LayoutValue, down: set<Coord>)
    requires Inv(s, down)
    ensures Inv(TickTimers(s), down)
  {
    var (o, released) := TickOneShot(s.oneshot);
    var s1 := s.(queue := TickAll(s.queue), tapHoldTimeout := SatSub(s.tapHoldTimeout, 1), oneshot := o);
    forall d ensures HasRelease(s.queue, d) ==> HasRelease(s1.queue, d) {
      TickAllKeepsReleases(s.queue, d);
    }
    forall i | 0 <= i < |s1.queue| && s1.queue[i].event.Press? ensures Live(s1.queue[i + 1..], down, s1.queue[i].event.coord) {
      assert TickAll(s.queue)[i + 1..] == TickAll(s.queue[i + 1..]);
      TickAllKeepsReleases(s.queue[i + 1..], s1.queue[i].event.coord);
      assert s.queue[i].event.Press?;
    }
    ReleaseAllDischarges(s1, down, released);
  }

  lemma ResolvedWaitKeepsInv(cfg: Config, s: LayoutValue, w: Waiting, a: WaitingAction, down: set<Coord>, due: seq<Coord>)
    requires InvBut(s, down, due)
    requires Live(s.queue, down, w.timer.coord) || w.timer.coord in due
    ensures InvBut(WaitingInto(cfg, s, w, a), down, due)
  {
    var (from, action, c) := (ResolvedFrom(cfg, s, w, a), ResolvedAction(w, a), w.timer.coord);
    assert from == s.(tapHoldTimeout := from.tapHoldTimeout, oneshot := from.oneshot);
    assert InvBut(from, down, due);
    DoActionActsAt(cfg, from, action, c, ResolvedDelay(w), false, w.layerStack);
    var r := DoAction(cfg, from, action, c, ResolvedDelay(w), false, w.layerStack);
    ActingKeepsInv(from, r, c, down, due);
    assert InvBut(PauseInput(cfg, r), down, due);
  }

  lemma PrimaryKeepsInv(cfg: Config, s: LayoutValue, down: set<Coord>)
    requires Inv(s, down)
    ensures Inv(TickPrimary(cfg, s), down)
  {
    if s.waiting.Some? {
      var (t, a) := WaitingTick(s.waiting.value.timer, s.queue);
      if a.Some? {
        ResolvedWaitKeepsInv(cfg, s.(waiting := None), s.waiting.value.(timer := t), a.value, down, []);
      }
    } else if s.extra == [] && s.oneshot.pauseTicks == 0 && s.queue != [] {
      PoppedEventKeepsInv(cfg, s, down);
    }
  }

  ghost predicate SameKeys(ws: seq<Waiting>, vs: seq<Waiting>)
  {
    |ws| == |vs| && forall i :: 0 <= i < |ws| ==> ws[i].timer.coord == vs[i].timer.coord
  }

  ghost predicate AllLive(q: seq<Queued>, down: set<Coord>, ws: seq<Waiting>)
  {
    forall i :: 0 <= i < |ws| ==> Live(q, down, ws[i].timer.coord)
  }

  /// Waits at the same keys are owed as before.
  lemma StillOwed(s: LayoutValue, ws: seq<Waiting>, down: set<Coord>)
    requires Inv(s, down) && SameKeys(ws, s.extra)
    ensures AllLive(s.queue, down, ws)
  {
    forall i | 0 <= i < |ws| ensures Live(s.queue, down, ws[i].timer.coord) {
      assert Waits(s, s.extra[i]);
    }
  }

  lemma LiveWaitsKeepInv(s: LayoutValue, ws: seq<Waiting>, down: set<Coord>)
    requires Inv(s, down) && AllLive(s.queue, down, ws)
    ensures Inv(s.(extra := ws), down)
  {
    var r := s.(extra := ws);
    forall w | Waits(r, w) ensures Live(s.queue, down, w.timer.coord) {
      assert s.waiting == Some(w) ==> Waits(s, w);
    }
  }

  lemma TickedAreSame(s: LayoutValue)
    ensures SameKeys(Ticked(s), s.extra)
  {
    forall i | 0 <= i < |s.extra| ensures Ticked(s)[i].timer.coord == s.extra[i].timer.coord {
    }
  }

  lemma RemovedKeepsInv(s: LayoutValue, ws: seq<Waiting>, n: nat, down: set<Coord>)
    requires Inv(s, down) && n < |ws| && AllLive(s.queue, down, ws)
    ensures Inv(s.(extra := RemoveAt(ws, n)), down) && Live(s.queue, down, ws[n].timer.coord)
  {
    LiveWaitsKeepInv(s, RemoveAt(ws, n), down);
  }

  lemma ExtraKeepsInv(cfg: Config, s: LayoutValue, down: set<Coord>)
    requires Inv(s, down)
    ensures Inv(TickExtra(cfg, s), down)
  {
    TickedAreSame(s);
    StillOwed(s, Ticked(s), down);
    if OneResolves(s) {
      RemovedKeepsInv(s, Ticked(s), FirstResolved(s.extra, s.queue), down);
      ResolvedWaitKeepsInv(cfg, WithoutResolved(s), ResolvedWait(s), FirstAction(s), down, []);
    } else {
      LiveWaitsKeepInv(s, Ticked(s), down);
    }
  }

  // ---------------------------------------------------------------------------------------
  // Runs

  datatype Input = Key(event: Event) | TickInput

  ghost function Step(cfg: Config, s: LayoutValue, i: Input): LayoutValue
  {
    match i case Key(e) => Receive(cfg, s, e) case TickInput => Tick(cfg, s)
  }

  /// The keys that are down after an input.
  function DownAfter(down: set<Coord>, i: Input): set<Coord>
  {
    match i
    case Key(Press(c)) => down + {c}
    case Key(Release(c)) => down - {c}
    case TickInput => down
  }

  ghost function RunLayout(cfg: Config, s: LayoutValue, inputs: seq<Input>): LayoutValue
    decreases |inputs|
  {
    if inputs == [] then s else RunLayout(cfg, Step(cfg, s, inputs[0]), inputs[1..])
  }

  /// `n` ticks without events.
  function Ticks(n: nat): (r: seq<Input>)
    ensures |r| == n
  {
    seq(n, i => TickInput)
  }

  lemma TicksFirst(cfg: Config, s: LayoutValue, n: nat)
    requires n > 0
    ensures RunLayout(cfg, s, Ticks(n)) == RunLayout(cfg, Tick(cfg, s), Ticks(n - 1))
  {
    assert Ticks(n)[0] == TickInput && Ticks(n)[1..] == Ticks(n - 1);
  }

  function DownAfterAll(down: set<Coord>, inputs: seq<Input>): set<Coord>
    decreases |inputs|
  {
    if inputs == [] then down else DownAfterAll(DownAfter(down, inputs[0]), inputs[1..])
  }

  lemma HoldKeepsInv(cfg: Config, s: LayoutValue, i: nat, down: set<Coord>, due: seq<Coord>)
    requires InvBut(s, down, due)
    ensures InvBut(HoldPrimary(cfg, s), down, due) && InvBut(HoldExtra(cfg, s, i), down, due)
  {
    if s.waiting.Some? {
      assert Waits(s, s.waiting.value);
      ResolvedWaitKeepsInv(cfg, s.(waiting := None), s.waiting.value, Hold, down, due);
    }
    if i < |s.extra| {
      assert Waits(s, s.extra[i]);
      ResolvedWaitKeepsInv(cfg, s.(extra := RemoveAt(s.extra, i)), s.extra[i], Hold, down, due);
    }
  }

  lemma {:induction false} HoldsKeepInv(cfg: Config, s: LayoutValue, n: nat, down: set<Coord>, due: seq<Coord>)
    requires InvBut(s, down, due)
    ensures InvBut(HoldWaits(cfg, s, n), down, due)
    decreases n
  {
    if n == 0 {
      HoldKeepsInv(cfg, s, 0, down, due);
    } else {
      var t := HoldWaits(cfg, s, n - 1);
      HoldsKeepInv(cfg, s, n - 1, down, due);
      HoldKeepsInv(cfg, t, n - 1, down, due);
      assert HoldWaits(cfg, s, n) == HoldExtra(cfg, t, n - 1);
    }
  }

  /// Appending an event to a queue with room, in the presence of releases that are due.
  lemma JoiningKeepsInv(s: LayoutValue, e: Event, down: set<Coord>, due: seq<Coord>)
    requires InvBut(s, down, due)
    ensures InvBut(s.(queue := s.queue + [Queued(e, 0)]), DownAfter(down, Key(e)), due)
  {
    var r, after := s.(queue := s.queue + [Queued(e, 0)]), DownAfter(down, Key(e));
    assert r.queue[|s.queue|].event == e;
    forall d | Live(s.queue, down, d) ensures Live(r.queue, after, d) {
      if d !in after && e != Release(d) {
        ReleaseStays(s.queue, r.queue, d);
      }
    }
    forall i | 0 <= i < |r.queue| && r.queue[i].event.Press? ensures Live(r.queue[i + 1..], after, r.queue[i].event.coord) {
      if i < |s.queue| {
        var d := r.queue[i].event.coord;
        assert s.queue[i] == r.queue[i];
        assert r.queue[i + 1..][|s.queue| - i - 1].event == e;
        if d !in after && e != Release(d) {
          ReleaseStays(s.queue[i + 1..], r.queue[i + 1..], d);
        }
      }
    }
  }

  /// A key that is live stays so when an event joins the queue.
  lemma JoiningKeepsLive(q: seq<Queued>, e: Event, c: Coord, down: set<Coord>)
    requires Live(q, down, c)
    ensures Live(q + [Queued(e, 0)], DownAfter(down, Key(e)), c)
  {
    var r := q + [Queued(e, 0)];
    assert r[|q|].event == e;
    if c !in DownAfter(down, Key(e)) && e != Release(c) {
      ReleaseStays(q, r, c);
    }
  }

  /// Making waits hold adds nothing but releases to the queue.
  lemma {:induction false} HoldsOnlyAdd(cfg: Config, s: LayoutValue, n: nat)
    ensures s.queue <= HoldWaits(cfg, s, n).queue
    decreases n
  {
    if n == 0 {
      if s.waiting.Some? {
        WaitOnlyAdds(cfg, s.(waiting := None), s.waiting.value);
      }
    } else {
      HoldsOnlyAdd(cfg, s, n - 1);
      var t := HoldWaits(cfg, s, n - 1);
      if n - 1 < |t.extra| {
        WaitOnlyAdds(cfg, t.(extra := RemoveAt(t.extra, n - 1)), t.extra[n - 1]);
      }
    }
  }

  lemma WaitOnlyAdds(cfg: Config, s: LayoutValue, w: Waiting)
    ensures s.queue <= WaitingInto(cfg, s, w, Hold).queue
  {
    var from := ResolvedFrom(cfg, s, w, Hold);
    DoActionActsAt(cfg, from, ResolvedAction(w, Hold), w.timer.coord, ResolvedDelay(w), false, w.layerStack);
  }

  lemma HoldsKeepLive(cfg: Config, s: LayoutValue, n: nat, c: Coord, down: set<Coord>)
    requires Live(s.queue, down, c)
    ensures Live(HoldWaits(cfg, s, n).queue, down, c)
  {
    HoldsOnlyAdd(cfg, s, n);
    if c !in down {
      ReleaseStays(s.queue, HoldWaits(cfg, s, n).queue, c);
    }
  }

  /// The event `e` would push the only release of a key out of the full queue while a wait of that
  /// key survives: the key is up, no other release of it is queued, and it is left waiting.
  ghost predicate LosesRelease(cfg: Config, s: LayoutValue, e: Event, down: set<Coord>)
  {
    && |s.queue| >= QUEUE_SIZE && s.queue[0].event.Release?
    && var c := s.queue[0].event.coord;
       !Live(Joined(s, e).queue, DownAfter(down, Key(e)), c) && Survives(cfg, s, c)
  }

  /// All waits have been made to hold while the oldest event is in hand.
  lemma HeldKeepsInv(cfg: Config, s: LayoutValue, e: Event, down: set<Coord>)
    requires Inv(s, down) && |s.queue| >= QUEUE_SIZE
    ensures var (first, held) := (s.queue[0].event, HoldWaits(cfg, Joined(s, e), EXTRA_WAITING_LEN));
            && InvBut(held, DownAfter(down, Key(e)), if first.Release? then [first.coord] else [])
            && (first.Press? ==> Live(held.queue, DownAfter(down, Key(e)), first.coord))
  {
    var (first, after) := (s.queue[0].event, DownAfter(down, Key(e)));
    var (c, t) := (first.coord, s.(queue := s.queue[1..]));
    var due := if first.Release? then [c] else [];
    DroppedFirst(s, down);
    JoiningKeepsInv(t, e, down, due);
    assert Joined(s, e) == t.(queue := t.queue + [Queued(e, 0)]);
    HoldsKeepInv(cfg, Joined(s, e), EXTRA_WAITING_LEN, after, due);
    if first.Press? {
      JoiningKeepsLive(t.queue, e, c, down);
      HoldsKeepLive(cfg, Joined(s, e), EXTRA_WAITING_LEN, c, after);
    }
  }

  lemma OverflowKeepsInv(cfg: Config, s: LayoutValue, e: Event, down: set<Coord>)
    requires Inv(s, down) && |s.queue| >= QUEUE_SIZE && !LosesRelease(cfg, s, e, down)
    ensures Inv(Receive(cfg, s, e), DownAfter(down, Key(e)))
  {
    var (first, after) := (s.queue[0], DownAfter(down, Key(e)));
    var (c, held) := (first.event.coord, HoldWaits(cfg, Joined(s, e), EXTRA_WAITING_LEN));
    HeldKeepsInv(cfg, s, e, down);
    if first.event.Release? {
      if Live(Joined(s, e).queue, after, c) {
        HoldsKeepLive(cfg, Joined(s, e), EXTRA_WAITING_LEN, c, after);
      } else {
        HoldWaitsLeaves(cfg, Joined(s, e), EXTRA_WAITING_LEN);
      }
      ReleaseSettles(held, c, after);
    } else {
      DoActionActsAt(cfg, held, Trans, c, first.since, false, LayerOrder(cfg, held.states));
      ActingKeepsInv(held, Dequeue(cfg, held, first.event, first.since), c, after, []);
    }
  }

  lemma ReceiveKeepsInv(cfg: Config, s: LayoutValue, e: Event, down: set<Coord>)
    requires Inv(s, down) && !LosesRelease(cfg, s, e, down)
    ensures Inv(Receive(cfg, s, e), DownAfter(down, Key(e)))
  {
    if |s.queue| < QUEUE_SIZE {
      JoiningKeepsInv(s, e, down, []);
    } else {
      OverflowKeepsInv(cfg, s, e, down);
    }
  }

  lemma TickKeepsInv(cfg: Config, s: LayoutValue, down: set<Coord>)
    requires Inv(s, down)
    ensures Inv(Tick(cfg, s), down)
  {
    TimersKeepInv(s, down);
    PrimaryKeepsInv(cfg, TickTimers(s), down);
    ExtraKeepsInv(cfg, TickPrimary(cfg, TickTimers(s)), down);
  }

  /// No event of the run pushes the only release of a key out of a full queue while the key waits.
  ghost predicate LosesNoRelease(cfg: Config, s: LayoutValue, down: set<Coord>, inputs: seq<Input>)
    decreases |inputs|
  {
    inputs != [] ==>
      && (inputs[0].Key? ==> !LosesRelease(cfg, s, inputs[0].event, down))
      && LosesNoRelease(cfg, Step(cfg, s, inputs[0]), DownAfter(down, inputs[0]), inputs[1..])
  }

  /// Every event of the run finds room in the queue.
  ghost predicate RoomThroughout(cfg: Config, s: LayoutValue, inputs: seq<Input>)
    decreases |inputs|
  {
    inputs != [] ==>
      && (inputs[0].Key? ==> |s.queue| < QUEUE_SIZE)
      && RoomThroughout(cfg, Step(cfg, s, inputs[0]), inputs[1..])
  }

  lemma {:induction false} RoomLosesNothing(cfg: Config, s: LayoutValue, down: set<Coord>, inputs: seq<Input>)
    requires RoomThroughout(cfg, s, inputs)
    ensures LosesNoRelease(cfg, s, down, inputs)
    decreases |inputs|
  {
    if inputs != [] {
      RoomLosesNothing(cfg, Step(cfg, s, inputs[0]), DownAfter(down, inputs[0]), inputs[1..]);
    }
  }

  /// The invariant holds in every state that a run reaches without losing a release.
  lemma {:induction false} EveryRunKeepsInv(cfg: Config, s: LayoutValue, down: set<Coord>, inputs: seq<Input>)
    requires Inv(s, down) && LosesNoRelease(cfg, s, down, inputs)
    ensures Inv(RunLayout(cfg, s, inputs), DownAfterAll(down, inputs))
    decreases |inputs|
  {
    if inputs != [] {
      match inputs[0] {
        case Key(e) => ReceiveKeepsInv(cfg, s, e, down);
        case TickInput => TickKeepsInv(cfg, s, down);
      }
      EveryRunKeepsInv(cfg, Step(cfg, s, inputs[0]), DownAfter(down, inputs[0]), inputs[1..]);
    }
  }

  /// Nothing queued, nothing waiting and no one-shot key active.
  ghost predicate Quiet(s: LayoutValue)
  {
    s.queue == [] && s.waiting.None? && s.extra == [] && s.oneshot.keys == []
  }

  /// No stuck keys: once every key is up and everything pending has been handled, the layout
  /// holds no key and no layer.
  lemma NoStuckKey(cfg: Config, inputs: seq<Input>)
    requires DownAfterAll({}, inputs) == {} && LosesNoRelease(cfg, INITIAL, {}, inputs)
    ensures var s := RunLayout(cfg, INITIAL, inputs);
            Quiet(s) ==> s.states == []
  {
    EveryRunKeepsInv(cfg, INITIAL, {}, inputs);
    var s := RunLayout(cfg, INITIAL, inputs);
    assert s.states != [] ==> s.states[0] in s.states;
  }

  /// In particular where the queue never overflows.
  lemma NoStuckKeyWithRoom(cfg: Config, inputs: seq<Input>)
    requires DownAfterAll({}, inputs) == {} && RoomThroughout(cfg, INITIAL, inputs)
    ensures var s := RunLayout(cfg, INITIAL, inputs);
            Quiet(s) ==> s.states == []
  {
    RoomLosesNothing(cfg, INITIAL, {}, inputs);
    NoStuckKey(cfg, inputs);
  }
}
