/// How a running macro plays its events: one after the other, each for its time, and which macros are next
/// (keyberon/src/layout.rs).

module MacroPlay {
  import opened Types
  import opened Picking
  import opened MacroSequences

  // ---------------------------------------------------------------------------------------
  // The states

  ghost function OtherThan(states: seq<Held>, k: nat, n: nat): set<nat>
  {
    set j: nat | j < n && j < |states| && states[j] != FakeKey(k)
  }

  lemma {:induction false} ReleasedSoFar(states: seq<Held>, k: nat, n: nat)
    requires n <= |states|
    ensures Picks(states, OtherThan(states, k, n), ReleaseFake(states[..n], k))
    decreases n
  {
    if n == 0 {
      PicksNone(states);
      assert OtherThan(states, k, 0) == {};
    } else {
      var m := n - 1;
      ReleasedSoFar(states, k, m);
      assert states[..n][..m] == states[..m] && states[..n][m] == states[m];
      PicksNext(states, m, OtherThan(states, k, m), ReleaseFake(states[..m], k), states[m] != FakeKey(k));
      assert OtherThan(states, k, n) == OtherThan(states, k, m) + if states[m] != FakeKey(k) then {m} else {};
    }
  }

  /// The states without the key `k` that macros press, in order.
  ghost predicate Freed(states: seq<Held>, k: nat, r: seq<Held>)
  {
    Picks(states, OtherThan(states, k, |states|), r)
  }

  lemma ReleaseFrees(states: seq<Held>, k: nat)
    ensures Freed(states, k, ReleaseFake(states, k))
  {
    ReleasedSoFar(states, k, |states|);
    assert states[..|states|] == states;
  }

  /// A state more, if there are fewer than sixty-four.
  ghost predicate Joined(states: seq<Held>, x: Held, r: seq<Held>)
  {
    r == if |states| < 64 then states + [x] else states
  }

  // ---------------------------------------------------------------------------------------
  // Playing

  /// What an event does in its first tick.
  ghost predicate Does(e: MacroEvent, states: seq<Held>, r: seq<Held>)
  {
    match e
    case Down(k) => Joined(states, FakeKey(k), r)
    case Tap(k) => Joined(states, FakeKey(k), r)
    case Up(k) => Freed(states, k, r)
    case Custom(id) => Joined(states, CustomPending(id), r)
    case _ => r == states
  }

  /// Between two events.
  ghost predicate Ready(v: Macros, rest: seq<MacroEvent>)
  {
    |v.active| == 1 && v.active[0].delay == 0 && v.active[0].tapped.None? && v.active[0].remaining == rest
  }

  lemma SoloStep(v: Macros, s: Sequence)
    requires v.active == [s] && Step(v.states, s).1.remaining != []
    ensures Process(v) == Macros(Step(v.states, s).0, [Step(v.states, s).1])
  {
    SoloTick(v.states, s);
  }

  /// In its first tick an event takes effect; a tap is released in the next, a delay of more than one tick
  /// goes on, and after that the next event is due.
  lemma EventTakesEffect(v: Macros, e: MacroEvent, rest: seq<MacroEvent>)
    requires Ready(v, [e] + rest) && rest != [] && !e.Complete?
    ensures var r := Process(v);
            && Does(e, v.states, r.states)
            && (!e.Tap? && !(e.Delay? && e.ticks > 1) ==> Ready(r, rest))
            && (e.Tap? ==> Freed(r.states, e.key, Process(r).states) && Ready(Process(r), rest))
  {
    var s := v.active[0];
    assert ([e] + rest)[1..] == rest;
    SoloStep(v, s);
    if e.Up? {
      ReleaseFrees(v.states, e.key);
    }
    if e.Tap? {
      var r := Process(v);
      ReleaseFrees(r.states, e.key);
      SoloStep(r, r.active[0]);
    }
  }

  /// A sequence that counts down.
  lemma {:induction false} DelayGoesOn(v: Macros, s: Sequence, n: nat)
    requires v.active == [s] && s.tapped.None? && s.remaining != [] && n <= s.delay
    ensures Ticks(v, n) == Macros(v.states, [s.(delay := s.delay - n)])
    decreases n
  {
    if n > 0 {
      DelayGoesOn(v, s, n - 1);
      SoloStep(Ticks(v, n - 1), s.(delay := s.delay - (n - 1)));
    }
  }

  /// A delay changes nothing for as many ticks as it says.
  lemma DelayTakesItsTime(v: Macros, ticks: nat, rest: seq<MacroEvent>, n: nat)
    requires Ready(v, [Delay(ticks)] + rest) && rest != [] && 0 < n <= ticks
    ensures var r := Ticks(v, n);
            r.states == v.states && |r.active| == 1 && r.active[0].delay == ticks - n && r.active[0].remaining == rest
    ensures n == ticks ==> Ready(Ticks(v, n), rest)
  {
    var s := v.active[0];
    assert ([Delay(ticks)] + rest)[1..] == rest;
    SoloStep(v, s);
    var r := Process(v);
    DelayGoesOn(r, r.active[0], n - 1);
    TicksFirst(v, n - 1);
  }

  // ---------------------------------------------------------------------------------------
  // Several macros

  /// The sequences that are not at their end.
  ghost function Unfinished(stepped: seq<Sequence>, n: nat): set<nat>
  {
    set i: nat | i < n && i < |stepped| && stepped[i].remaining != []
  }

  /// Each sequence has taken its step on the states that the one before it left.
  ghost predicate InTurn(states: seq<seq<Held>>, active: seq<Sequence>, stepped: seq<Sequence>)
  {
    && |states| == |active| + 1 && |stepped| == |active|
    && forall i :: 0 <= i < |active| ==> Step(states[i], active[i]) == (states[i + 1], stepped[i])
  }

  lemma OneMoreTurn(states: seq<seq<Held>>, active: seq<Sequence>, stepped: seq<Sequence>, n: nat)
    requires n + 1 == |active| && InTurn(states, active[..n], stepped)
    ensures var (st, s) := Step(states[n], active[n]);
            InTurn(states + [st], active, stepped + [s])
  {
  }

  /// A tick takes each sequence one step, in order, and keeps those that are not at their end, in order.
  lemma {:induction false} EachTakesItsTurn(states: seq<Held>, active: seq<Sequence>)
    returns (between: seq<seq<Held>>, stepped: seq<Sequence>)
    ensures InTurn(between, active, stepped) && between[0] == states
    ensures Advance(states, active).0 == between[|active|]
    ensures Picks(stepped, Unfinished(stepped, |stepped|), Advance(states, active).1)
    decreases |active|
  {
    if active == [] {
      between, stepped := [states], [];
      PicksNone(stepped);
      assert Unfinished(stepped, 0) == {};
    } else {
      var n := |active| - 1;
      var before, first := EachTakesItsTurn(states, active[..n]);
      OneMoreTurn(before, active, first, n);
      var (st, s) := Step(before[n], active[n]);
      between, stepped := before + [st], first + [s];
      OneMoreUnfinished(first, s, Advance(states, active[..n]).1);
    }
  }

  lemma UnfinishedNext(first: seq<Sequence>, s: Sequence)
    ensures Unfinished(first + [s], |first| + 1) == Unfinished(first, |first|) + if s.remaining != [] then {|first|} else {}
  {
    var all := first + [s];
    assert all[|first|] == s;
    assert forall i :: 0 <= i < |first| ==> all[i] == first[i];
  }

  lemma OneMoreUnfinished(first: seq<Sequence>, s: Sequence, kept: seq<Sequence>)
    requires Picks(first, Unfinished(first, |first|), kept)
    ensures var all := first + [s];
            Picks(all, Unfinished(all, |all|), if s.remaining != [] then kept + [s] else kept)
  {
    UnfinishedNext(first, s);
    PicksWithin(first, first + [s], Unfinished(first, |first|), kept);
    PicksNext(first + [s], |first|, Unfinished(first, |first|), kept, s.remaining != []);
  }

  /// The last repeating macro among the states, by its position.
  lemma {:induction false} LatestIsLast(states: seq<Held>, i: nat)
    requires i < |states| && states[i].Repeating? && forall j :: i < j < |states| ==> !states[j].Repeating?
    ensures LatestRepeating(states) == Some(states[i].events)
    decreases |states|
  {
    if i < |states| - 1 {
      LatestIsLast(states[..|states| - 1], i);
    }
  }

  lemma {:induction false} NoneRepeats(states: seq<Held>)
    requires forall j :: 0 <= j < |states| ==> !states[j].Repeating?
    ensures LatestRepeating(states).None?
    decreases |states|
  {
    if states != [] {
      NoneRepeats(states[..|states| - 1]);
    }
  }

  ghost predicate RepeatsLast(states: seq<Held>, i: nat)
  {
    i < |states| && states[i].Repeating? && forall j :: i < j < |states| ==> !states[j].Repeating?
  }

  /// When all macros have ended, the last repeating one among the states begins again.
  lemma LatestBeginsAgain(v: Macros, i: nat)
    requires Advance(v.states, v.active).1 == []
    ensures RepeatsLast(Process(v).states, i) ==> Process(v).active == [NewSequence(Process(v).states[i].events)]
    ensures (forall x :: x in Process(v).states ==> !x.Repeating?) ==> Process(v).active == []
  {
    var states := Process(v).states;
    if RepeatsLast(states, i) {
      LatestIsLast(states, i);
    }
    if forall x :: x in states ==> !x.Repeating? {
      NoneRepeats(states);
    }
  }

  /// A sequence that is started comes last; of four others the oldest goes.
  lemma StartedIsLast(v: Macros, events: seq<MacroEvent>, c: Coord)
    requires |v.active| <= 4
    ensures var active := StartSequence(v, events).active;
            && active != [] && |active| <= 4 && active[|active| - 1] == Sequence(None, 0, None, events)
            && active[..|active| - 1] == v.active[if |v.active| == 4 then 1 else 0..]
    ensures StartSequence(v, events).states == v.states
    ensures StartRepeating(v, events, c).active == StartSequence(v, events).active
    ensures Joined(v.states, Repeating(events, c), StartRepeating(v, events, c).states)
  {
  }

  ghost function NoFakesAt(states: seq<Held>, n: nat): set<nat>
  {
    set j: nat | j < n && j < |states| && !states[j].FakeKey?
  }

  lemma {:induction false} FakesDroppedSoFar(states: seq<Held>, n: nat)
    requires n <= |states|
    ensures Picks(states, NoFakesAt(states, n), WithoutFakes(states[..n]))
    decreases n
  {
    if n == 0 {
      PicksNone(states);
      assert NoFakesAt(states, 0) == {};
    } else {
      var m := n - 1;
      FakesDroppedSoFar(states, m);
      assert states[..n][..m] == states[..m] && states[..n][m] == states[m];
      PicksNext(states, m, NoFakesAt(states, m), WithoutFakes(states[..m]), !states[m].FakeKey?);
      assert NoFakesAt(states, n) == NoFakesAt(states, m) + if states[m].FakeKey? then {} else {m};
    }
  }

  ghost predicate NoneRepeating(states: seq<Held>)
  {
    forall j :: 0 <= j < |states| ==> !states[j].Repeating?
  }

  lemma DroppingAddsNone(states: seq<Held>)
    requires NoneRepeating(states)
    ensures NoneRepeating(WithoutFakes(states))
  {
    var r := WithoutFakes(states);
    forall j | 0 <= j < |r| ensures !r[j].Repeating? {
      WithoutFakesMembers(states, r[j]);
    }
  }

  lemma {:induction false} NothingRuns(v: Macros, n: nat)
    requires v.active == [] && NoneRepeating(v.states)
    ensures Ticks(v, n) == v
    decreases n
  {
    if n > 0 {
      NothingRuns(v, n - 1);
      NoneRepeats(v.states);
    }
  }

  /// Cancelling stops all macros and lets go of their keys, of nothing else; unless a repeating one is held,
  /// nothing runs from then on.
  lemma CancelStops(v: Macros, n: nat)
    ensures Cancelled(v).active == []
    ensures Picks(v.states, NoFakesAt(v.states, |v.states|), Cancelled(v).states)
    ensures NoneRepeating(v.states) ==> Ticks(Cancelled(v), n) == Cancelled(v)
  {
    FakesDroppedSoFar(v.states, |v.states|);
    assert v.states[..|v.states|] == v.states;
    if NoneRepeating(v.states) {
      DroppingAddsNone(v.states);
      NothingRuns(Cancelled(v), n);
    }
  }
}
