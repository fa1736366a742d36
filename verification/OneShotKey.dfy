/// A one-shot key seen from outside: how long it stays held, and which key it applies to
/// (keyberon/src/layout.rs).

module OneShotKey {
  import opened Types
  import opened LayoutModel
  import opened NoStuckKeys
  import opened TapHoldKey

  /// A one-shot key that has been tapped: its key stays held and its release is held back for
  /// `left` more ticks. Other keys may be held as well.
  ghost predicate Tapped(s: LayoutValue, c: Coord, kc: nat, left: u16, others: seq<KeyState>)
  {
    && s.states == [NormalKey(kc, c, false)] + others
    && (forall x :: x in others ==> x.coord != c)
    && s.waiting.None? && s.extra == [] && s.queue == []
    && s.oneshot.keys == [c] && s.oneshot.released == [c]
    && s.oneshot.timeout == left && !s.oneshot.releaseOnNextTick && s.oneshot.ignoreTicks == 0
  }

  ghost predicate Over(s: LayoutValue, others: seq<KeyState>)
  {
    Quiet(s) && s.states == others
  }

  lemma {:induction false} DropNone(others: seq<KeyState>, c: Coord)
    requires forall x :: x in others ==> x.coord != c
    ensures DropCoord(others, c) == others
    decreases |others|
  {
    if others != [] {
      var n := |others| - 1;
      assert others == others[..n] + [others[n]];
      DropNone(others[..n], c);
    }
  }

  lemma {:induction false} DropFirst(x: KeyState, others: seq<KeyState>)
    requires forall y :: y in others ==> y.coord != x.coord
    ensures DropCoord([x] + others, x.coord) == others
    decreases |others|
  {
    var all := [x] + others;
    if others == [] {
      assert all[..0] == [] && [] + [] == others;
    } else {
      var n := |others| - 1;
      assert others == others[..n] + [others[n]] && all[..n + 1] == [x] + others[..n];
      DropFirst(x, others[..n]);
    }
  }

  lemma DropLast(others: seq<KeyState>, x: KeyState)
    requires forall y :: y in others ==> y.coord != x.coord
    ensures DropCoord(others + [x], x.coord) == others
  {
    assert (others + [x])[..|others|] == others;
    DropNone(others, x.coord);
  }

  /// A tick without events takes one tick off, and the last one lets the key go.
  lemma IdleTick(cfg: Config, s: LayoutValue, c: Coord, kc: nat, left: u16, others: seq<KeyState>)
    requires Tapped(s, c, kc, left, others)
    ensures if left <= 1 then Over(Tick(cfg, s), others) else Tapped(Tick(cfg, s), c, kc, left - 1, others)
  {
    var s1 := TickTimers(s);
    var (o, due) := TickOneShot(s.oneshot);
    if left <= 1 {
      var t := s.(queue := TickAll(s.queue), tapHoldTimeout := SatSub(s.tapHoldTimeout, 1), oneshot := o);
      assert due == [c] && due[1..] == [];
      assert ReleaseAll(t, due) == ReleaseAll(HandleRelease(t, c), due[1..]);
      DropFirst(NormalKey(kc, c, false), others);
      assert Over(s1, others);
    } else {
      assert due == [];
      assert Tapped(s1, c, kc, left - 1, others);
    }
    NoExtraWaits(cfg, TickPrimary(cfg, s1));
  }

  /// `n` ticks without events take as many ticks off.
  lemma {:induction false} IdleTicks(cfg: Config, s: LayoutValue, c: Coord, kc: nat, left: u16, others: seq<KeyState>, n: nat)
    returns (r: LayoutValue)
    requires Tapped(s, c, kc, left, others)
    ensures r == RunLayout(cfg, s, Ticks(n))
    ensures if n < left || n == 0 then Tapped(r, c, kc, left - n, others) else Over(r, others)
    decreases n
  {
    if n == 0 {
      r := s;
    } else {
      TicksFirst(cfg, s, n);
      var t := Tick(cfg, s);
      IdleTick(cfg, s, c, kc, left, others);
      if left <= 1 {
        OverStays(cfg, t, others, n - 1);
        r := RunLayout(cfg, t, Ticks(n - 1));
      } else {
        r := IdleTicks(cfg, t, c, kc, left - 1, others, n - 1);
      }
    }
  }

  lemma OverTick(cfg: Config, s: LayoutValue, others: seq<KeyState>)
    requires Over(s, others)
    ensures Over(Tick(cfg, s), others)
  {
    NoExtraWaits(cfg, TickPrimary(cfg, TickTimers(s)));
  }

  lemma {:induction false} OverStays(cfg: Config, s: LayoutValue, others: seq<KeyState>, n: nat)
    requires Over(s, others)
    ensures Over(RunLayout(cfg, s, Ticks(n)), others)
    decreases n
  {
    if n > 0 {
      TicksFirst(cfg, s, n);
      OverTick(cfg, s, others);
      OverStays(cfg, Tick(cfg, s), others, n - 1);
    }
  }

  // ---------------------------------------------------------------------------------------
  // Tapping the key

  /// The key has been pressed and is still down.
  ghost predicate PressedOnce(s: LayoutValue, c: Coord, kc: nat, t: u16, e: OneShotEndConfig)
  {
    && s.states == [NormalKey(kc, c, false)]
    && s.waiting.None? && s.extra == [] && s.queue == []
    && s.oneshot == INITIAL_ONE_SHOT.(keys := [c], retained := [RetainKey(c, kc)], timeout := t, endConfig := e)
  }

  lemma PressActs(cfg: Config, s: LayoutValue, c: Coord, kc: nat, t: u16, e: OneShotEndConfig, stack: seq<nat>, rest: seq<nat>)
    requires ResolveCoord(cfg, c, stack) == (OneShot(KeyCode(kc), t, e), rest)
    requires s.states == [] && s.oneshot == INITIAL_ONE_SHOT && s.waiting.None? && s.extra == [] && s.queue == []
    ensures PressedOnce(DoAction(cfg, s, Trans, c, 1, false, stack), c, kc, t, e)
  {
    var s1 := UpdateLastPress(BeforeAction(s, c), c);
    assert s1.states == [] && s1.oneshot == INITIAL_ONE_SHOT;
    var s2 := DoAction(cfg, s1, KeyCode(kc), c, 1, true, []);
    assert s2.states == [NormalKey(kc, c, false)] by {
      assert Unflagged(s1.states) == [];
      assert [] + [NormalKey(kc, c, false)] == [NormalKey(kc, c, false)];
    }
    assert s2.oneshot == INITIAL_ONE_SHOT.(retained := [RetainKey(c, kc)]) by {
      assert [] + [RetainKey(c, kc)] == [RetainKey(c, kc)];
    }
    assert [] + [c] == [c];
  }

  lemma PressTick(cfg: Config, c: Coord, kc: nat, t: u16, e: OneShotEndConfig, rest: seq<nat>)
    requires ResolveCoord(cfg, c, LayerOrder(cfg, [])) == (OneShot(KeyCode(kc), t, e), rest)
    ensures PressedOnce(Batch(cfg, INITIAL, [Press(c)]), c, kc, t, e)
  {
    ReceiveAllIs(cfg, INITIAL, [Press(c)]);
    var s1 := TickTimers(ReceiveAll(cfg, INITIAL, [Press(c)]));
    assert s1 == INITIAL.(queue := [Queued(Press(c), 1)]);
    var popped := s1.(queue := []);
    assert s1.queue[1..] == [];
    PressActs(cfg, popped, c, kc, t, e, LayerOrder(cfg, []), rest);
    NoExtraWaits(cfg, TickPrimary(cfg, s1));
  }

  lemma KeepsRetained(kc: nat, c: Coord)
    ensures Survivors([NormalKey(kc, c, false)], c, [RetainKey(c, kc)]) == [NormalKey(kc, c, false)]
  {
    var x := NormalKey(kc, c, false);
    assert [x][..0] == [] && [] + [x] == [x];
  }

  lemma ReleaseTick(cfg: Config, s: LayoutValue, c: Coord, kc: nat, t: u16, e: OneShotEndConfig)
    requires PressedOnce(s, c, kc, t, e)
    ensures var r := Batch(cfg, s, [Release(c)]);
            && (if t <= 1 then Over(r, []) else Tapped(r, c, kc, t - 1, []))
            && (t > 1 ==> r.oneshot.pauseTicks == 0 && r.oneshot.endConfig == e)
  {
    ReceiveAllIs(cfg, s, [Release(c)]);
    var joined := ReceiveAll(cfg, s, [Release(c)]);
    assert joined == s.(queue := [Queued(Release(c), 0)]);
    var s1 := TickTimers(joined);
    assert TickAll(joined.queue) == [Queued(Release(c), 1)];
    assert s1.queue[1..] == [];
    var popped := s1.(queue := []);
    DropFirst(NormalKey(kc, c, false), []);
    assert [NormalKey(kc, c, false)] + [] == [NormalKey(kc, c, false)];
    KeepsRetained(kc, c);
    assert [] + [c] == [c];
    assert TickPrimary(cfg, s1) == HandleRelease(popped, c);
    NoExtraWaits(cfg, TickPrimary(cfg, s1));
  }

  /// A one-shot key tapped alone stays held for exactly as many ticks as its timeout says, counted
  /// from the tick of its press, whatever its end configuration.
  lemma HeldForItsTimeout(cfg: Config, c: Coord, kc: nat, t: u16, e: OneShotEndConfig, rest: seq<nat>, n: nat)
    requires ResolveCoord(cfg, c, LayerOrder(cfg, [])) == (OneShot(KeyCode(kc), t, e), rest)
    ensures var pressed := Batch(cfg, INITIAL, [Press(c)]);
            var r := RunLayout(cfg, Batch(cfg, pressed, [Release(c)]), Ticks(n));
            && pressed.states == [NormalKey(kc, c, false)]
            && r.states == (if 1 + n < t then [NormalKey(kc, c, false)] else [])
            && (1 + n >= t ==> Quiet(r))
  {
    PressTick(cfg, c, kc, t, e, rest);
    var pressed := Batch(cfg, INITIAL, [Press(c)]);
    ReleaseTick(cfg, pressed, c, kc, t, e);
    var released := Batch(cfg, pressed, [Release(c)]);
    if t <= 1 {
      OverStays(cfg, released, [], n);
    } else {
      var r := IdleTicks(cfg, released, c, kc, t - 1, [], n);
    }
  }

  // ---------------------------------------------------------------------------------------
  // The next key

  predicate EndsOnPress(e: OneShotEndConfig)
  {
    e.EndOnFirstPress? || e.EndOnFirstPressOrRepress?
  }

  /// How long a one-shot still lasts when another key is pressed.
  function LeftAfterPress(cfg: Config, left: u16, e: OneShotEndConfig): u16
  {
    if EndsOnPress(e) && cfg.pauseDelay < left then cfg.pauseDelay else left
  }

  /// Another plain key acts while the one-shot key is held.
  ghost predicate Joins(cfg: Config, s: LayoutValue, r: LayoutValue, c: Coord, kc: nat, left: u16, d: Coord, k: nat)
  {
    && Tapped(r, c, kc, LeftAfterPress(cfg, left, s.oneshot.endConfig), [NormalKey(k, d, false)])
    && r.oneshot.endConfig == s.oneshot.endConfig
    && (!EndsOnPress(s.oneshot.endConfig) ==> r.oneshot.pauseTicks == s.oneshot.pauseTicks && d in r.oneshot.otherPressed)
  }

  lemma PlainKeyJoins(cfg: Config, s: LayoutValue, c: Coord, kc: nat, left: u16, d: Coord, k: nat)
    requires Tapped(s, c, kc, left, []) && c != d
    ensures Joins(cfg, s, PlainAction(cfg, s, KeyCode(k), d, false), c, kc, left, d, k)
  {
    assert s.states == [NormalKey(kc, c, false)];
  }

  lemma OtherKeyActs(cfg: Config, s: LayoutValue, c: Coord, kc: nat, left: u16, d: Coord, k: nat, stack: seq<nat>, rest: seq<nat>)
    returns (r: LayoutValue)
    requires Tapped(s, c, kc, left, []) && c != d
    requires ResolveCoord(cfg, d, stack) == (KeyCode(k), rest)
    ensures r == DoAction(cfg, s, Trans, d, 1, false, stack) && Joins(cfg, s, r, c, kc, left, d, k)
  {
    var s1 := BeforeAction(s, d);
    NothingFlagged(s.states);
    NoneFlaggedHere(s.states[0]);
    assert s1 == s.(tapHoldTimeout := s1.tapHoldTimeout);
    r := PlainAction(cfg, s1, KeyCode(k), d, false);
    PlainKeyJoins(cfg, s1, c, kc, left, d, k);
  }

  lemma NoneFlaggedHere(x: KeyState)
    requires !Clears(x)
    ensures Flagged([x]) == 0
  {
    assert [x][..0] == [];
  }

  /// The key pressed next joins the one-shot key. With an end configuration that ends on a press
  /// both are held for the pause after it, or for what was left of the timeout if that is less; the
  /// other configurations leave the timeout alone.
  lemma AppliesToNextKey(cfg: Config, s: LayoutValue, c: Coord, kc: nat, left: u16, d: Coord, k: nat, rest: seq<nat>, n: nat)
    requires Tapped(s, c, kc, left, []) && s.oneshot.pauseTicks == 0 && c != d && left > 1
    requires ResolveCoord(cfg, d, LayerOrder(cfg, s.states)) == (KeyCode(k), rest)
    ensures var both := Batch(cfg, s, [Press(d)]);
            var span := LeftAfterPress(cfg, left - 1, s.oneshot.endConfig);
            && both.states == [NormalKey(kc, c, false), NormalKey(k, d, false)]
            && RunLayout(cfg, both, Ticks(n)).states
               == if n < span || n == 0 then both.states else [NormalKey(k, d, false)]
  {
    NextKeyTick(cfg, s, c, kc, left, d, k, rest);
    var both := Batch(cfg, s, [Press(d)]);
    var r := IdleTicks(cfg, both, c, kc, LeftAfterPress(cfg, left - 1, s.oneshot.endConfig), [NormalKey(k, d, false)], n);
  }

  lemma NextKeyTick(cfg: Config, s: LayoutValue, c: Coord, kc: nat, left: u16, d: Coord, k: nat, rest: seq<nat>)
    requires Tapped(s, c, kc, left, []) && s.oneshot.pauseTicks == 0 && c != d && left > 1
    requires ResolveCoord(cfg, d, LayerOrder(cfg, s.states)) == (KeyCode(k), rest)
    ensures Joins(cfg, s, Batch(cfg, s, [Press(d)]), c, kc, left - 1, d, k)
  {
    ReceiveAllIs(cfg, s, [Press(d)]);
    var joined := ReceiveAll(cfg, s, [Press(d)]);
    assert joined == s.(queue := [Queued(Press(d), 0)]);
    var s1 := TickTimers(joined);
    assert TickAll(joined.queue) == [Queued(Press(d), 1)];
    assert s1.queue[1..] == [];
    var popped := s1.(queue := []);
    assert Tapped(popped, c, kc, left - 1, []);
    var r := OtherKeyActs(cfg, popped, c, kc, left - 1, d, k, LayerOrder(cfg, s.states), rest);
    assert TickPrimary(cfg, s1) == r;
    NoExtraWaits(cfg, r);
  }

  /// With an end configuration that ends on a release, the release of that key lets go of it at once
  /// and of the one-shot key a tick later.
  lemma ReleaseOfNextKeyEnds(cfg: Config, s: LayoutValue, c: Coord, kc: nat, left: u16, d: Coord, k: nat)
    requires Tapped(s, c, kc, left, [NormalKey(k, d, false)]) && s.oneshot.pauseTicks == 0 && left > 1
    requires !EndsOnPress(s.oneshot.endConfig) && d in s.oneshot.otherPressed
    ensures var r := Batch(cfg, s, [Release(d)]);
            r.states == [NormalKey(kc, c, false)] && Over(Tick(cfg, r), [])
  {
    var x, y := NormalKey(kc, c, false), NormalKey(k, d, false);
    ReceiveAllIs(cfg, s, [Release(d)]);
    var joined := ReceiveAll(cfg, s, [Release(d)]);
    assert joined == s.(queue := [Queued(Release(d), 0)]);
    var s1 := TickTimers(joined);
    assert TickAll(joined.queue) == [Queued(Release(d), 1)];
    assert s1.queue[1..] == [];
    var popped := s1.(queue := []);
    assert y in [y] && y.coord == d != c;
    DropLast([x], y);
    var r := HandleRelease(popped, d);
    assert TickPrimary(cfg, s1) == r;
    NoExtraWaits(cfg, r);
    LastTick(cfg, r, c, kc);
  }

  lemma LastTick(cfg: Config, s: LayoutValue, c: Coord, kc: nat)
    requires s.states == [NormalKey(kc, c, false)] && s.oneshot.keys == [c] && s.oneshot.released == [c]
    requires s.waiting.None? && s.extra == [] && s.queue == [] && s.oneshot.releaseOnNextTick
    ensures Over(Tick(cfg, s), [])
  {
    var (o, due) := TickOneShot(s.oneshot);
    var t := s.(queue := TickAll(s.queue), tapHoldTimeout := SatSub(s.tapHoldTimeout, 1), oneshot := o);
    assert due == [c] && due[1..] == [];
    assert ReleaseAll(t, due) == ReleaseAll(HandleRelease(t, c), due[1..]);
    DropFirst(NormalKey(kc, c, false), []);
    assert [NormalKey(kc, c, false)] + [] == [NormalKey(kc, c, false)];
    assert Over(TickTimers(s), []);
    NoExtraWaits(cfg, TickPrimary(cfg, TickTimers(s)));
  }
}
