/// What is left waiting when a full queue makes every wait hold: computed from the waits and the
/// configuration alone (keyberon/src/layout.rs).

module HeldWaits {
  import opened Types
  import opened HoldTap
  import opened LayoutModel

  ghost predicate WaitsAt(primary: Option<Waiting>, extra: seq<Waiting>, c: Coord)
  {
    (primary.Some? && primary.value.timer.coord == c) || exists i :: 0 <= i < |extra| && extra[i].timer.coord == c
  }

  // ---------------------------------------------------------------------------------------
  // The waits that an action starts

  /// The waits that `action` starts at `c`, in order, and whether the tap-hold interval of `c` runs
  /// afterwards; `running` says whether it does before.
  function Started(cfg: Config, action: Action, c: Coord, delay: u16, stack: seq<nat>, running: bool): (r: (seq<Waiting>, bool))
    decreases |stack|, action, 1
  {
    var (a, rest) := if action.Trans? then ResolveCoord(cfg, c, stack) else (action, stack);
    match a
    case MultipleActions(acts) => AllStarted(cfg, acts, c, delay, rest, running)
    case HoldTapAction(_, _, _, _, _, _) => StartedByHoldTap(cfg, a, c, delay, rest, running)
    case OneShot(inner, _, _) => Started(cfg, inner, c, delay, [], running)
    case _ => ([], running)
  }

  function StartedByHoldTap(cfg: Config, a: Action, c: Coord, delay: u16, stack: seq<nat>, running: bool): (r: (seq<Waiting>, bool))
    requires a.HoldTapAction?
    decreases |stack|, a, 0
  {
    if a.tapHoldInterval == 0 || !running then
      ([NewWait(cfg, a, c, delay, stack)], c.row == 0 && a.tapHoldInterval > 0)
    else Started(cfg, a.tap, c, delay, stack, false)
  }

  function AllStarted(cfg: Config, acts: seq<Action>, c: Coord, delay: u16, stack: seq<nat>, running: bool): (r: (seq<Waiting>, bool))
    decreases |stack|, acts, 0
  {
    if acts == [] then ([], running) else
    var (first, after) := Started(cfg, acts[0], c, delay, stack, running);
    var (others, last) := AllStarted(cfg, acts[1..], c, delay, stack, after);
    (first + others, last)
  }

  /// The waits that are started when `w` is made to hold.
  function Successors(cfg: Config, w: Waiting): (r: seq<Waiting>)
  {
    Started(cfg, w.hold, w.timer.coord, ResolvedDelay(w), w.layerStack, false).0
  }

  ghost predicate AllAt(ws: seq<Waiting>, c: Coord)
  {
    forall i :: 0 <= i < |ws| ==> ws[i].timer.coord == c
  }

  lemma {:induction false} StartedAt(cfg: Config, action: Action, c: Coord, delay: u16, stack: seq<nat>, running: bool)
    ensures AllAt(Started(cfg, action, c, delay, stack, running).0, c)
    decreases |stack|, action, 1
  {
    var (a, rest) := if action.Trans? then ResolveCoord(cfg, c, stack) else (action, stack);
    if a.MultipleActions? {
      AllStartedAt(cfg, a.actions, c, delay, rest, running);
    } else if a.HoldTapAction? && a.tapHoldInterval != 0 && running {
      StartedAt(cfg, a.tap, c, delay, rest, false);
    } else if a.OneShot? {
      StartedAt(cfg, a.action, c, delay, [], running);
    }
  }

  lemma {:induction false} AllStartedAt(cfg: Config, acts: seq<Action>, c: Coord, delay: u16, stack: seq<nat>, running: bool)
    ensures AllAt(AllStarted(cfg, acts, c, delay, stack, running).0, c)
    decreases |stack|, acts, 0
  {
    if acts != [] {
      StartedAt(cfg, acts[0], c, delay, stack, running);
      AllStartedAt(cfg, acts[1..], c, delay, stack, Started(cfg, acts[0], c, delay, stack, running).1);
    }
  }

  // ---------------------------------------------------------------------------------------
  // The waits that are left

  datatype WaitingKeys = WaitingKeys(primary: Option<Waiting>, extra: seq<Waiting>)

  ghost function AddWait(p: WaitingKeys, w: Waiting): WaitingKeys
  {
    if p.primary.None? then p.(primary := Some(w)) else p.(extra := PushRing(p.extra, w, EXTRA_WAITING_LEN))
  }

  ghost function AddWaits(p: WaitingKeys, ws: seq<Waiting>): (r: WaitingKeys)
    decreases |ws|
  {
    if ws == [] then p else AddWaits(AddWait(p, ws[0]), ws[1..])
  }

  /// The primary wait holds.
  ghost function LeftByPrimary(cfg: Config, p: WaitingKeys): WaitingKeys
  {
    if p.primary.None? then p else AddWaits(p.(primary := None), Successors(cfg, p.primary.value))
  }

  /// The extra wait at position `i` holds.
  ghost function LeftByExtra(cfg: Config, p: WaitingKeys, i: nat): WaitingKeys
  {
    if i >= |p.extra| then p
    else AddWaits(p.(extra := RemoveAt(p.extra, i)), Successors(cfg, p.extra[i]))
  }

  /// What is left when the primary wait and then the positions below `n` have been made to hold.
  ghost function Left(cfg: Config, p: WaitingKeys, n: nat): (r: WaitingKeys)
    decreases n
  {
    if n == 0 then LeftByPrimary(cfg, p) else LeftByExtra(cfg, Left(cfg, p, n - 1), n - 1)
  }

  ghost function PendingOf(s: LayoutValue): WaitingKeys
  {
    WaitingKeys(s.waiting, s.extra)
  }

  /// A key event that meets a full queue leaves some wait at `c`.
  ghost predicate Survives(cfg: Config, s: LayoutValue, c: Coord)
  {
    var left := Left(cfg, PendingOf(s), EXTRA_WAITING_LEN);
    WaitsAt(left.primary, left.extra, c)
  }

  // ---------------------------------------------------------------------------------------
  // The layout agrees

  predicate Running(s: LayoutValue, c: Coord)
  {
    c == s.lastPress && s.tapHoldTimeout > 0
  }

  lemma {:induction false} AddWaitsAppend(p: WaitingKeys, v: seq<Waiting>, w: seq<Waiting>)
    ensures AddWaits(p, v + w) == AddWaits(AddWaits(p, v), w)
    decreases |v|
  {
    if v == [] {
      assert v + w == w;
    } else {
      assert (v + w)[0] == v[0] && (v + w)[1..] == v[1..] + w;
      AddWaitsAppend(AddWait(p, v[0]), v[1..], w);
    }
  }

  /// No interval of another real key is running.
  predicate Settled(s: LayoutValue, c: Coord)
  {
    c.row == 0 && s.lastPress != c ==> s.tapHoldTimeout == 0
  }

  /// From `s` to `r` the waits `started.0` have been added and the interval is as `started.1` says.
  ghost predicate Starts(s: LayoutValue, r: LayoutValue, c: Coord, started: (seq<Waiting>, bool))
  {
    PendingOf(r) == AddWaits(PendingOf(s), started.0) && Running(r, c) == started.1
  }

  lemma BeforeStartsNone(s: LayoutValue, c: Coord)
    ensures var r := BeforeAction(s, c);
            && Starts(s, r, c, ([], Running(s, c)))
            && Starts(s, UpdateLastPress(r, c), c, ([], Running(s, c)))
  {
  }

  lemma PlainStartsNone(cfg: Config, s: LayoutValue, a: Action, c: Coord, isOneShot: bool)
    requires Settled(s, c)
    ensures var r := PlainAction(cfg, s, a, c, isOneShot);
            && PendingOf(r) == PendingOf(s) && Running(r, c) == Running(s, c)
  {
  }

  lemma StartWaitingStarts(s: LayoutValue, w: Waiting, interval: u16)
    ensures Starts(s, StartWaiting(s, w, interval), w.timer.coord, ([w], w.timer.coord.row == 0 && interval > 0))
  {
    assert [w][1..] == [];
    assert AddWaits(PendingOf(s), [w]) == AddWait(PendingOf(s), w);
  }

  lemma {:induction false} HoldTapStarts(cfg: Config, s: LayoutValue, a: Action, c: Coord, delay: u16,
                                         isOneShot: bool, stack: seq<nat>)
    requires a.HoldTapAction? && Settled(s, c)
    ensures Starts(s, HoldTapBody(cfg, s, a, c, delay, isOneShot, stack), c,
                   StartedByHoldTap(cfg, a, c, delay, stack, Running(s, c)))
    decreases |stack|, a, 0
  {
    if a.tapHoldInterval == 0 || c != s.lastPress || s.tapHoldTimeout == 0 {
      StartWaitingStarts(s, NewWait(cfg, a, c, delay, stack), a.tapHoldInterval);
    } else {
      var s1 := s.(tapHoldTimeout := 0);
      DoActionStarts(cfg, s1, a.tap, c, delay, isOneShot, stack);
      DoActionSettles(cfg, s1, a.tap, c, delay, isOneShot, stack);
      LastPressStarts(s1, DoAction(cfg, s1, a.tap, c, delay, isOneShot, stack), c, Started(cfg, a.tap, c, delay, stack, false));
    }
  }

  lemma LastPressStarts(s: LayoutValue, r: LayoutValue, c: Coord, started: (seq<Waiting>, bool))
    requires Starts(s, r, c, started) && Settled(r, c)
    ensures Starts(s, UpdateLastPress(r, c), c, started)
  {
  }

  /// After an action at `c` no interval of another real key runs.
  lemma {:induction false} DoActionSettles(cfg: Config, s: LayoutValue, action: Action, c: Coord, delay: u16,
                                           isOneShot: bool, stack: seq<nat>)
    ensures Settled(DoAction(cfg, s, action, c, delay, isOneShot, stack), c)
    decreases |stack|, action, 1
  {
    var (a, rest) := if action.Trans? then ResolveCoord(cfg, c, stack) else (action, stack);
    var s1 := BeforeAction(s, c);
    if a.MultipleActions? {
      DoActionsSettle(cfg, UpdateLastPress(s1, c), a.actions, c, delay, isOneShot, rest);
    } else if a.HoldTapAction? && a.tapHoldInterval != 0 && c == s1.lastPress && s1.tapHoldTimeout != 0 {
      DoActionSettles(cfg, s1.(tapHoldTimeout := 0), a.tap, c, delay, isOneShot, rest);
    } else if a.OneShot? {
      DoActionSettles(cfg, UpdateLastPress(s1, c), a.action, c, delay, true, []);
    }
  }

  lemma {:induction false} DoActionsSettle(cfg: Config, s: LayoutValue, acts: seq<Action>, c: Coord, delay: u16,
                                           isOneShot: bool, stack: seq<nat>)
    requires Settled(s, c)
    ensures Settled(DoActions(cfg, s, acts, c, delay, isOneShot, stack), c)
    decreases |stack|, acts, 0
  {
    if acts != [] {
      DoActionSettles(cfg, s, acts[0], c, delay, isOneShot, stack);
      DoActionsSettle(cfg, DoAction(cfg, s, acts[0], c, delay, isOneShot, stack), acts[1..], c, delay, isOneShot, stack);
    }
  }

  lemma {:induction false} DoActionStarts(cfg: Config, s: LayoutValue, action: Action, c: Coord, delay: u16,
                                          isOneShot: bool, stack: seq<nat>)
    ensures Starts(s, DoAction(cfg, s, action, c, delay, isOneShot, stack), c,
                   Started(cfg, action, c, delay, stack, Running(s, c)))
    decreases |stack|, action, 1
  {
    var (a, rest) := if action.Trans? then ResolveCoord(cfg, c, stack) else (action, stack);
    var s1 := BeforeAction(s, c);
    BeforeStartsNone(s, c);
    assert Running(s1, c) == Running(s, c) && Settled(s1, c);
    if a.MultipleActions? {
      DoActionsStart(cfg, UpdateLastPress(s1, c), a.actions, c, delay, isOneShot, rest);
    } else if a.HoldTapAction? {
      HoldTapStarts(cfg, s1, a, c, delay, isOneShot, rest);
    } else if a.OneShot? {
      DoActionStarts(cfg, UpdateLastPress(s1, c), a.action, c, delay, true, []);
    } else {
      PlainStartsNone(cfg, s1, a, c, isOneShot);
    }
  }

  lemma {:induction false} DoActionsStart(cfg: Config, s: LayoutValue, acts: seq<Action>, c: Coord, delay: u16,
                                          isOneShot: bool, stack: seq<nat>)
    requires Settled(s, c)
    ensures Starts(s, DoActions(cfg, s, acts, c, delay, isOneShot, stack), c,
                   AllStarted(cfg, acts, c, delay, stack, Running(s, c)))
    decreases |stack|, acts, 0
  {
    if acts != [] {
      var s1 := DoAction(cfg, s, acts[0], c, delay, isOneShot, stack);
      DoActionStarts(cfg, s, acts[0], c, delay, isOneShot, stack);
      DoActionSettles(cfg, s, acts[0], c, delay, isOneShot, stack);
      DoActionsStart(cfg, s1, acts[1..], c, delay, isOneShot, stack);
      var (first, after) := Started(cfg, acts[0], c, delay, stack, Running(s, c));
      var (others, last) := AllStarted(cfg, acts[1..], c, delay, stack, after);
      AddWaitsAppend(PendingOf(s), first, others);
    }
  }

  lemma HoldingStarts(cfg: Config, s: LayoutValue, w: Waiting)
    ensures PendingOf(WaitingInto(cfg, s, w, Hold)) == AddWaits(PendingOf(s), Successors(cfg, w))
  {
    var from := ResolvedFrom(cfg, s, w, Hold);
    assert PendingOf(from) == PendingOf(s) && !Running(from, w.timer.coord);
    DoActionStarts(cfg, from, w.hold, w.timer.coord, ResolvedDelay(w), false, w.layerStack);
  }

  /// The waits that the layout keeps when it makes all waits hold are those computed.
  lemma {:induction false} HoldWaitsLeaves(cfg: Config, s: LayoutValue, n: nat)
    ensures PendingOf(HoldWaits(cfg, s, n)) == Left(cfg, PendingOf(s), n)
    decreases n
  {
    if n == 0 {
      if s.waiting.Some? {
        HoldingStarts(cfg, s.(waiting := None), s.waiting.value);
      }
    } else {
      var t := HoldWaits(cfg, s, n - 1);
      HoldWaitsLeaves(cfg, s, n - 1);
      if n - 1 < |t.extra| {
        HoldingStarts(cfg, t.(extra := RemoveAt(t.extra, n - 1)), t.extra[n - 1]);
      }
    }
  }

  // ---------------------------------------------------------------------------------------
  // Which waits are left

  /// No hold action of these waits starts a wait.
  ghost predicate NoneStarts(cfg: Config, ws: seq<Waiting>)
  {
    forall i :: 0 <= i < |ws| ==> Successors(cfg, ws[i]) == []
  }

  /// Of the first `n` waits that were at even positions, all are gone.
  ghost predicate Thinned(x: seq<Waiting>, r: seq<Waiting>, n: nat)
  {
    && |r| == |x| - (if 2 * n <= |x| then n else (|x| + 1) / 2)
    && forall j :: 0 <= j < |r| ==> r[j] == x[if j < n then 2 * j + 1 else j + n]
  }

  lemma ThinnedStep(x: seq<Waiting>, r: seq<Waiting>, n: nat)
    requires Thinned(x, r, n)
    ensures n < |r| ==> 2 * n < |x| && r[n] == x[2 * n] && Thinned(x, RemoveAt(r, n), n + 1)
    ensures n >= |r| ==> Thinned(x, r, n + 1)
  {
  }

  /// The extra waits at even positions are gone, if none of them starts another.
  lemma {:induction false} OddOnesLeft(cfg: Config, p: WaitingKeys, n: nat)
    requires NoneStarts(cfg, LeftByPrimary(cfg, p).extra)
    ensures var (q, r) := (LeftByPrimary(cfg, p), Left(cfg, p, n));
            r.primary == q.primary && Thinned(q.extra, r.extra, n)
    decreases n
  {
    if n > 0 {
      OddOnesLeft(cfg, p, n - 1);
      ThinnedStep(LeftByPrimary(cfg, p).extra, Left(cfg, p, n - 1).extra, n - 1);
    }
  }

  lemma ThinnedHasOdd(x: seq<Waiting>, r: seq<Waiting>, c: Coord)
    requires Thinned(x, r, EXTRA_WAITING_LEN) && |x| <= EXTRA_WAITING_LEN
    ensures (exists i :: 0 <= i < |r| && r[i].timer.coord == c) <==>
            (exists i :: 0 <= i < |x| && i % 2 == 1 && x[i].timer.coord == c)
  {
    if i :| 0 <= i < |r| && r[i].timer.coord == c {
      assert x[2 * i + 1].timer.coord == c;
    }
    if i :| 0 <= i < |x| && i % 2 == 1 && x[i].timer.coord == c {
      assert r[i / 2] == x[2 * (i / 2) + 1];
    }
  }

  lemma LeftByPrimaryIs(cfg: Config, s: LayoutValue)
    requires s.waiting.Some? ==> |Successors(cfg, s.waiting.value)| <= 1
    ensures var p := LeftByPrimary(cfg, PendingOf(s));
            && p.extra == s.extra
            && (p.primary.Some? <==> s.waiting.Some? && Successors(cfg, s.waiting.value) != [])
            && (p.primary.Some? ==> p.primary.value.timer.coord == s.waiting.value.timer.coord)
  {
    if s.waiting.Some? {
      var ws := Successors(cfg, s.waiting.value);
      StartedAt(cfg, s.waiting.value.hold, s.waiting.value.timer.coord, ResolvedDelay(s.waiting.value), s.waiting.value.layerStack, false);
      if ws != [] {
        assert ws[1..] == [];
        var none := WaitingKeys(None, s.extra);
        assert AddWaits(none, ws) == AddWait(none, ws[0]);
      }
    }
  }

  /// Where no hold action of an extra wait starts a wait, and that of the primary wait at most one,
  /// a key is left waiting if and only if an extra wait of it is at an odd position, or it is that of
  /// the primary wait whose hold action starts a wait.
  lemma SurvivesIff(cfg: Config, s: LayoutValue, c: Coord)
    requires |s.extra| <= EXTRA_WAITING_LEN && NoneStarts(cfg, s.extra)
    requires s.waiting.Some? ==> |Successors(cfg, s.waiting.value)| <= 1
    ensures Survives(cfg, s, c) <==>
            || (exists i :: 0 <= i < |s.extra| && i % 2 == 1 && s.extra[i].timer.coord == c)
            || (s.waiting.Some? && s.waiting.value.timer.coord == c && Successors(cfg, s.waiting.value) != [])
  {
    LeftByPrimaryIs(cfg, s);
    OddOnesLeft(cfg, PendingOf(s), EXTRA_WAITING_LEN);
    ThinnedHasOdd(s.extra, Left(cfg, PendingOf(s), EXTRA_WAITING_LEN).extra, c);
  }
}
