/// Running macros: `process_sequences` of keyberon/src/layout.rs advances every active sequence by
/// one step a tick, and a balanced sequence gives back every key it presses.

module MacroSequences {
  import opened Types

  datatype MacroEvent = Nothing | Down(key: nat) | Up(key: nat) | Tap(key: nat) | Delay(ticks: nat) | Custom(id: nat) | Complete

  datatype Sequence = Sequence(current: Option<MacroEvent>, delay: nat, tapped: Option<nat>, remaining: seq<MacroEvent>)

  /// The states that macros push, and all others.
  datatype Held = FakeKey(key: nat) | Repeating(events: seq<MacroEvent>, coord: Coord) | CustomPending(id: nat) | OtherState(id: nat)

  datatype Macros = Macros(states: seq<Held>, active: seq<Sequence>)

  const MAX_STATES := 64
  const MAX_SEQUENCES := 4

  function NewSequence(events: seq<MacroEvent>): Sequence
  {
    Sequence(None, 0, None, events)
  }

  function PushState(states: seq<Held>, x: Held): (r: seq<Held>)
  {
    if |states| < MAX_STATES then states + [x] else states
  }

  function ReleaseFake(states: seq<Held>, k: nat): (r: seq<Held>)
  {
    if states == [] then [] else
    var n := |states| - 1;
    if states[n] == FakeKey(k) then ReleaseFake(states[..n], k) else ReleaseFake(states[..n], k) + [states[n]]
  }

  // ---------------------------------------------------------------------------------------
  // One tick

  /// Carries out the current event.
  function Perform(states: seq<Held>, s: Sequence): (r: (seq<Held>, Sequence))
  {
    match s.current
    case Some(Complete) => (states, s.(remaining := []))
    case Some(Down(k)) => (PushState(states, FakeKey(k)), s)
    case Some(Tap(k)) => (PushState(states, FakeKey(k)), s.(tapped := Some(k)))
    case Some(Up(k)) => (ReleaseFake(states, k), s)
    case Some(Delay(ticks)) => (states, if ticks > 0 then s.(delay := ticks - 1) else s)
    case Some(Custom(id)) => (PushState(states, CustomPending(id)), s)
    case Some(Nothing) => (states, s)
    case None => (states, s)
  }

  function Step(states: seq<Held>, s: Sequence): (r: (seq<Held>, Sequence))
  {
    if s.delay > 0 then (states, s.(delay := s.delay - 1))
    else if s.tapped.Some? then (ReleaseFake(states, s.tapped.value), s.(tapped := None))
    else if s.remaining == [] then Perform(states, s)
    else Perform(states, s.(current := Some(s.remaining[0]), remaining := s.remaining[1..]))
  }

  /// Advances each sequence once, in order; those with nothing left are dropped.
  ghost function Advance(states: seq<Held>, active: seq<Sequence>): (r: (seq<Held>, seq<Sequence>))
  {
    if active == [] then (states, []) else
    var n := |active| - 1;
    var (st, kept) := Advance(states, active[..n]);
    var (st1, s) := Step(st, active[n]);
    (st1, if s.remaining != [] then kept + [s] else kept)
  }

  function LatestRepeating(states: seq<Held>): (r: Option<seq<MacroEvent>>)
  {
    if states == [] then None
    else if states[|states| - 1].Repeating? then Some(states[|states| - 1].events)
    else LatestRepeating(states[..|states| - 1])
  }

  ghost function Process(v: Macros): (r: Macros)
  {
    var (states, active) := Advance(v.states, v.active);
    var again := LatestRepeating(states);
    Macros(states, if active == [] && again.Some? then [NewSequence(again.value)] else active)
  }

  // ---------------------------------------------------------------------------------------
  // The other operations

  /// A full ring loses its oldest sequence.
  function StartSequence(v: Macros, events: seq<MacroEvent>): (r: Macros)
  {
    var s := NewSequence(events);
    v.(active := if |v.active| < MAX_SEQUENCES then v.active + [s] else v.active[1..] + [s])
  }

  function StartRepeating(v: Macros, events: seq<MacroEvent>, c: Coord): (r: Macros)
  {
    StartSequence(v, events).(states := PushState(v.states, Repeating(events, c)))
  }

  ghost function WithoutFakes(states: seq<Held>): (r: seq<Held>)
  {
    if states == [] then [] else
    var n := |states| - 1;
    if states[n].FakeKey? then WithoutFakes(states[..n]) else WithoutFakes(states[..n]) + [states[n]]
  }

  ghost function Cancelled(v: Macros): (r: Macros)
  {
    Macros(WithoutFakes(v.states), [])
  }

  class MacroRunner {
    var states: seq<Held>
    var active: seq<Sequence>

    ghost function Value(): Macros
      reads this
    {
      Macros(states, active)
    }

    constructor ()
      ensures Value() == Macros([], [])
    {
      states, active := [], [];
    }

    /// Takes each sequence from the front and puts it back behind the others.
    method ProcessSequences()
      modifies this
      ensures Value() == Process(old(Value()))
    {
      states, active := AdvanceAll(states, active);
      if active == [] {
        var again := LatestRepeating(states);
        if again.Some? {
          active := [NewSequence(again.value)];
        }
      }
    }

    method Start(events: seq<MacroEvent>)
      modifies this`active
      ensures Value() == StartSequence(old(Value()), events)
    {
      if |active| >= MAX_SEQUENCES {
        active := active[1..];
      }
      active := active + [NewSequence(events)];
    }

    method StartRepeatable(events: seq<MacroEvent>, c: Coord)
      modifies this
      ensures Value() == StartRepeating(old(Value()), events, c)
    {
      Start(events);
      if |states| < MAX_STATES {
        states := states + [Repeating(events, c)];
      }
    }

    method Cancel()
      modifies this
      ensures Value() == Cancelled(old(Value()))
    {
      active := [];
      states := DropFakes(states);
    }
  }

  method AdvanceAll(states: seq<Held>, active: seq<Sequence>) returns (st: seq<Held>, q: seq<Sequence>)
    ensures (st, q) == Advance(states, active)
  {
    st, q := states, active;
    ghost var kept: seq<Sequence> := [];
    for i := 0 to |active|
      invariant (st, kept) == Advance(states, active[..i]) && q == active[i..] + kept
    {
      assert active[..i + 1][..i] == active[..i];
      var s := q[0];
      q := q[1..];
      assert s == active[i] && q == active[i + 1..] + kept;
      if s.delay > 0 {
        s := s.(delay := s.delay - 1);
      } else if s.tapped.Some? {
        st := RetainOthers(st, s.tapped.value);
        s := s.(tapped := None);
      } else {
        if s.remaining != [] {
          s := s.(current := Some(s.remaining[0]), remaining := s.remaining[1..]);
        }
        st, s := PerformEvent(st, s);
      }
      if s.remaining != [] {
        q, kept := q + [s], kept + [s];
        assert q == active[i + 1..] + kept;
      }
    }
    assert active[..|active|] == active && active[|active|..] + kept == kept;
  }

  method PerformEvent(states: seq<Held>, s: Sequence) returns (st: seq<Held>, r: Sequence)
    ensures (st, r) == Perform(states, s)
  {
    st, r := states, s;
    match s.current {
      case Some(Complete) => r := r.(remaining := []);
      case Some(Down(k)) => st := PushState(st, FakeKey(k));
      case Some(Tap(k)) => st, r := PushState(st, FakeKey(k)), r.(tapped := Some(k));
      case Some(Up(k)) => st := RetainOthers(st, k);
      case Some(Delay(ticks)) =>
        if ticks > 0 {
          r := r.(delay := ticks - 1);
        }
      case Some(Custom(id)) => st := PushState(st, CustomPending(id));
      case Some(Nothing) =>
      case None =>
    }
  }

  method RetainOthers(states: seq<Held>, k: nat) returns (r: seq<Held>)
    ensures r == ReleaseFake(states, k)
  {
    r := [];
    for i := 0 to |states|
      invariant r == ReleaseFake(states[..i], k)
    {
      assert states[..i + 1][..i] == states[..i];
      if states[i] != FakeKey(k) {
        r := r + [states[i]];
      }
    }
    assert states[..|states|] == states;
  }

  /// Releases every fake key of a copy of the states.
  method DropFakes(states: seq<Held>) returns (r: seq<Held>)
    ensures r == WithoutFakes(states)
  {
    r := states;
    NoneDropped(states);
    for i := 0 to |states|
      invariant r == WithoutListed(states, states[..i])
    {
      assert states[..i + 1] == states[..i] + [states[i]];
      OneMoreDropped(states, states[..i], states[i]);
      if states[i].FakeKey? {
        r := RetainOthers(r, states[i].key);
      }
    }
    assert states[..|states|] == states;
    AllDropped(states, states);
  }

  /// The states without the fake keys among `listed`.
  ghost function WithoutListed(states: seq<Held>, listed: seq<Held>): (r: seq<Held>)
  {
    if states == [] then [] else
    var n := |states| - 1;
    if states[n].FakeKey? && states[n] in listed then WithoutListed(states[..n], listed)
    else WithoutListed(states[..n], listed) + [states[n]]
  }

  lemma {:induction false} NoneDropped(states: seq<Held>)
    ensures WithoutListed(states, []) == states
    decreases |states|
  {
    if states != [] {
      NoneDropped(states[..|states| - 1]);
    }
  }

  lemma ReleaseSnoc(states: seq<Held>, x: Held, k: nat)
    ensures ReleaseFake(states + [x], k) == ReleaseFake(states, k) + if x == FakeKey(k) then [] else [x]
  {
    assert (states + [x])[..|states|] == states;
  }

  lemma {:induction false} OneMoreDropped(states: seq<Held>, listed: seq<Held>, x: Held)
    ensures WithoutListed(states, listed + [x]) ==
            if x.FakeKey? then ReleaseFake(WithoutListed(states, listed), x.key) else WithoutListed(states, listed)
    decreases |states|
  {
    if states != [] {
      var n := |states| - 1;
      OneMoreDropped(states[..n], listed, x);
      if x.FakeKey? {
        ReleaseSnoc(WithoutListed(states[..n], listed), states[n], x.key);
      }
    }
  }

  lemma {:induction false} AllDropped(states: seq<Held>, listed: seq<Held>)
    requires forall x :: x in states ==> x in listed
    ensures WithoutListed(states, listed) == WithoutFakes(states)
    decreases |states|
  {
    if states != [] {
      var n := |states| - 1;
      assert states == states[..n] + [states[n]];
      AllDropped(states[..n], listed);
    }
  }

  // ---------------------------------------------------------------------------------------
  // Time

  function StepCost(e: MacroEvent): (n: nat)
  {
    match e
    case Tap(_) => 2
    case Delay(ticks) => if ticks == 0 then 1 else ticks
    case _ => 1
  }

  /// The ticks that events take up to and with the first `Complete`.
  function CostOf(events: seq<MacroEvent>): (n: nat)
  {
    if events == [] then 0
    else if events[0].Complete? then 1
    else StepCost(events[0]) + CostOf(events[1..])
  }

  function TicksLeft(s: Sequence): (n: nat)
  {
    s.delay + (if s.tapped.Some? then 1 else 0) + CostOf(s.remaining)
  }

  ghost predicate Completes(events: seq<MacroEvent>)
  {
    exists i :: 0 <= i < |events| && events[i].Complete?
  }

  lemma CompletesBehind(events: seq<MacroEvent>)
    requires Completes(events) && !events[0].Complete?
    ensures Completes(events[1..])
  {
    var i :| 0 <= i < |events| && events[i].Complete?;
    assert events[1..][i - 1].Complete?;
  }

  /// A step takes exactly one tick off a sequence, and drops it when none is left.
  lemma StepTakesOneTick(states: seq<Held>, s: Sequence)
    requires Completes(s.remaining)
    ensures var r := Step(states, s).1;
            && TicksLeft(r) == TicksLeft(s) - 1
            && (r.remaining == [] <==> TicksLeft(r) == 0)
            && (r.remaining != [] ==> Completes(r.remaining))
  {
    if s.delay == 0 && s.tapped.None? && !s.remaining[0].Complete? {
      CompletesBehind(s.remaining);
    }
    if s.remaining[0].Complete? {
      assert CostOf(s.remaining) == 1;
    }
  }

  function MaxLeft(active: seq<Sequence>): (n: nat)
  {
    if active == [] then 0 else
    var m := MaxLeft(active[..|active| - 1]);
    if TicksLeft(active[|active| - 1]) > m then TicksLeft(active[|active| - 1]) else m
  }

  ghost predicate AllComplete(active: seq<Sequence>)
  {
    forall i :: 0 <= i < |active| ==> Completes(active[i].remaining)
  }

  lemma {:induction false} AdvanceTakesOneTick(states: seq<Held>, active: seq<Sequence>)
    requires AllComplete(active)
    ensures var kept := Advance(states, active).1;
            && AllComplete(kept)
            && MaxLeft(kept) == (if active == [] then 0 else MaxLeft(active) - 1)
            && (kept == [] <==> MaxLeft(kept) == 0)
    decreases |active|
  {
    if active != [] {
      var n := |active| - 1;
      var (st, kept) := Advance(states, active[..n]);
      AdvanceTakesOneTick(states, active[..n]);
      StepTakesOneTick(st, active[n]);
      var s := Step(st, active[n]).1;
      MaxLeftPositive(active[..n]);
      assert (kept + [s])[..|kept|] == kept;
    }
  }

  lemma {:induction false} MaxLeftPositive(active: seq<Sequence>)
    requires AllComplete(active)
    ensures active == [] <==> MaxLeft(active) == 0
    decreases |active|
  {
    if active != [] {
      var n := |active| - 1;
      MaxLeftPositive(active[..n]);
      StepTakesOneTick([], active[n]);
    }
  }

  ghost function Ticks(v: Macros, n: nat): (r: Macros)
  {
    if n == 0 then v else Process(Ticks(v, n - 1))
  }

  lemma {:induction false} ReleaseFakeMembers(states: seq<Held>, k: nat, x: Held)
    ensures x in ReleaseFake(states, k) <==> x in states && x != FakeKey(k)
    decreases |states|
  {
    if states != [] {
      var n := |states| - 1;
      assert states == states[..n] + [states[n]];
      ReleaseFakeMembers(states[..n], k, x);
    }
  }

  lemma StepAddsNoRepeat(states: seq<Held>, s: Sequence, x: Held)
    requires x.Repeating?
    ensures x in Step(states, s).0 ==> x in states
  {
    forall k ensures x in ReleaseFake(states, k) ==> x in states {
      ReleaseFakeMembers(states, k, x);
    }
  }

  lemma {:induction false} AdvanceAddsNoRepeat(states: seq<Held>, active: seq<Sequence>, x: Held)
    requires x.Repeating?
    ensures x in Advance(states, active).0 ==> x in states
    decreases |active|
  {
    if active != [] {
      var n := |active| - 1;
      AdvanceAddsNoRepeat(states, active[..n], x);
      StepAddsNoRepeat(Advance(states, active[..n]).0, active[n], x);
    }
  }

  lemma {:induction false} ReleasingKeepsLatest(states: seq<Held>, k: nat)
    ensures LatestRepeating(ReleaseFake(states, k)) == LatestRepeating(states)
    decreases |states|
  {
    if states != [] {
      var n := |states| - 1;
      var r := ReleaseFake(states[..n], k);
      ReleasingKeepsLatest(states[..n], k);
      assert (r + [states[n]])[..|r|] == r;
    }
  }

  lemma PushingKeepsLatest(states: seq<Held>, x: Held)
    requires !x.Repeating?
    ensures LatestRepeating(PushState(states, x)) == LatestRepeating(states)
  {
    assert (states + [x])[..|states|] == states;
  }

  lemma PerformKeepsLatest(states: seq<Held>, s: Sequence)
    ensures LatestRepeating(Perform(states, s).0) == LatestRepeating(states)
  {
    if s.current.Some? {
      match s.current.value {
        case Down(k) => PushingKeepsLatest(states, FakeKey(k));
        case Tap(k) => PushingKeepsLatest(states, FakeKey(k));
        case Up(k) => ReleasingKeepsLatest(states, k);
        case Custom(id) => PushingKeepsLatest(states, CustomPending(id));
        case _ =>
      }
    }
  }

  lemma StepKeepsLatest(states: seq<Held>, s: Sequence)
    ensures LatestRepeating(Step(states, s).0) == LatestRepeating(states)
  {
    if s.delay == 0 {
      if s.tapped.Some? {
        ReleasingKeepsLatest(states, s.tapped.value);
      } else {
        PerformKeepsLatest(states, if s.remaining == [] then s else s.(current := Some(s.remaining[0]), remaining := s.remaining[1..]));
      }
    }
  }

  /// Which macro repeats is not up to the macros that run.
  lemma {:induction false} AdvanceKeepsLatest(states: seq<Held>, active: seq<Sequence>)
    ensures LatestRepeating(Advance(states, active).0) == LatestRepeating(states)
    decreases |active|
  {
    if active != [] {
      var n := |active| - 1;
      AdvanceKeepsLatest(states, active[..n]);
      StepKeepsLatest(Advance(states, active[..n]).0, active[n]);
    }
  }

  /// What runs when all sequences have ended: the latest repeating macro, from its beginning.
  ghost function Restarted(states: seq<Held>): (r: seq<Sequence>)
  {
    var again := LatestRepeating(states);
    if again.Some? then [NewSequence(again.value)] else []
  }

  /// Macros that complete run for exactly the sum of the costs of their events. In the tick in which
  /// the last of them ends the latest repeating macro begins again, if its key is held; otherwise
  /// nothing runs from then on.
  lemma {:induction false} MacrosEndOnTime(v: Macros, n: nat)
    requires AllComplete(v.active)
    ensures var r := Ticks(v, n);
            && (n < MaxLeft(v.active) ==> AllComplete(r.active) && MaxLeft(r.active) == MaxLeft(v.active) - n)
            && (n == MaxLeft(v.active) > 0 ==> r.active == Restarted(v.states))
            && (n >= MaxLeft(v.active) && LatestRepeating(v.states).None? ==> r.active == [])
            && LatestRepeating(r.states) == LatestRepeating(v.states)
    decreases n
  {
    MaxLeftPositive(v.active);
    if n > 0 {
      MacrosEndOnTime(v, n - 1);
      var u := Ticks(v, n - 1);
      AdvanceKeepsLatest(u.states, u.active);
      if AllComplete(u.active) {
        AdvanceTakesOneTick(u.states, u.active);
        MaxLeftPositive(u.active);
      }
    }
  }

  // ---------------------------------------------------------------------------------------
  // Keys are given back

  /// The events let go of `k` before they complete.
  ghost predicate Frees(events: seq<MacroEvent>, k: nat)
  {
    events != [] && !events[0].Complete? && (events[0] == Up(k) || events[0] == Tap(k) || Frees(events[1..], k))
  }

  /// Every key pressed is let go of before the events complete, and the last event is no tap.
  ghost predicate Balanced(events: seq<MacroEvent>)
  {
    events == [] ||
    match events[0]
    case Complete => true
    case Down(k) => Frees(events[1..], k) && Balanced(events[1..])
    case Tap(_) => events[1..] != [] && Balanced(events[1..])
    case _ => Balanced(events[1..])
  }

  ghost predicate Owes(s: Sequence, k: nat)
  {
    s.tapped == Some(k) || Frees(s.remaining, k)
  }

  ghost predicate Sane(s: Sequence)
  {
    Balanced(s.remaining) && (s.remaining == [] ==> s.current == None && s.tapped == None && s.delay == 0)
  }

  /// Every fake key is owed a release by a running sequence.
  ghost predicate AllOwed(states: seq<Held>, active: seq<Sequence>)
  {
    forall k :: FakeKey(k) in states ==> OwedBySome(active, k)
  }

  ghost predicate OwedBySome(active: seq<Sequence>, k: nat)
  {
    exists i :: 0 <= i < |active| && Owes(active[i], k)
  }

  lemma OwedSnoc(active: seq<Sequence>, s: Sequence, k: nat)
    ensures OwedBySome(active + [s], k) <==> OwedBySome(active, k) || Owes(s, k)
  {
    var all := active + [s];
    assert all[|active|] == s;
    if OwedBySome(active, k) {
      var i :| 0 <= i < |active| && Owes(active[i], k);
      assert all[i] == active[i];
    }
  }

  lemma StepOwes(states: seq<Held>, s: Sequence, k: nat)
    requires Sane(s)
    ensures var (st, r) := Step(states, s);
            && (r.remaining != [] ==> Sane(r))
            && (FakeKey(k) in st ==> FakeKey(k) in states || (r.remaining != [] && Owes(r, k)))
            && (FakeKey(k) in st && Owes(s, k) ==> r.remaining != [] && Owes(r, k))
  {
    forall j ensures FakeKey(k) in ReleaseFake(states, j) <==> FakeKey(k) in states && j != k {
      ReleaseFakeMembers(states, j, FakeKey(k));
    }
    var (st, r) := Step(states, s);
    if Owes(s, k) && s.delay == 0 && s.tapped.None? {
      var (e, rest) := (s.remaining[0], s.remaining[1..]);
      assert e != Complete && (e == Up(k) || e == Tap(k) || Frees(rest, k));
      assert r.remaining == rest;
    }
  }

  lemma {:induction false} AdvanceOwes(states: seq<Held>, active: seq<Sequence>, k: nat)
    requires forall i :: 0 <= i < |active| ==> Sane(active[i])
    ensures var (st, kept) := Advance(states, active);
            && (forall i :: 0 <= i < |kept| ==> Sane(kept[i]))
            && (FakeKey(k) in st ==> OwedBySome(kept, k) || (FakeKey(k) in states && !OwedBySome(active, k)))
    decreases |active|
  {
    if active != [] {
      var n := |active| - 1;
      AdvanceOwes(states, active[..n], k);
      var (st, kept) := Advance(states, active[..n]);
      StepOwes(st, active[n], k);
      OwedSnoc(active[..n], active[n], k);
      OwedSnoc(kept, Step(st, active[n]).1, k);
      assert active == active[..n] + [active[n]];
    }
  }

  ghost predicate Fair(v: Macros)
  {
    && (forall i :: 0 <= i < |v.active| ==> Sane(v.active[i]))
    && (forall i :: 0 <= i < |v.states| && v.states[i].Repeating? ==> Balanced(v.states[i].events))
    && AllOwed(v.states, v.active)
  }

  lemma {:induction false} LatestIsHeld(states: seq<Held>)
    ensures var r := LatestRepeating(states);
            r.Some? ==> exists i :: 0 <= i < |states| && states[i].Repeating? && states[i].events == r.value
    decreases |states|
  {
    if states != [] && !states[|states| - 1].Repeating? {
      LatestIsHeld(states[..|states| - 1]);
    }
  }

  lemma ProcessIsFair(v: Macros)
    requires Fair(v)
    ensures Fair(Process(v))
  {
    var (st, kept) := Advance(v.states, v.active);
    forall k | FakeKey(k) in st ensures OwedBySome(kept, k) {
      AdvanceOwes(v.states, v.active, k);
    }
    AdvanceOwes(v.states, v.active, 0);
    forall i | 0 <= i < |st| && st[i].Repeating? ensures Balanced(st[i].events) {
      AdvanceAddsNoRepeat(v.states, v.active, st[i]);
    }
    LatestIsHeld(st);
  }

  datatype Input = Tick | Begin(events: seq<MacroEvent>) | BeginRepeating(events: seq<MacroEvent>, coord: Coord) | Stop

  ghost function Apply(v: Macros, input: Input): (r: Macros)
  {
    match input
    case Tick => Process(v)
    case Begin(events) => StartSequence(v, events)
    case BeginRepeating(events, c) => StartRepeating(v, events, c)
    case Stop => Cancelled(v)
  }

  ghost function Run(v: Macros, inputs: seq<Input>): (r: Macros)
  {
    if inputs == [] then v else Apply(Run(v, inputs[..|inputs| - 1]), inputs[|inputs| - 1])
  }

  /// No more than four sequences are active at a time, and those that begin are balanced.
  ghost predicate Orderly(v: Macros, inputs: seq<Input>)
  {
    forall i :: 0 <= i < |inputs| && (inputs[i].Begin? || inputs[i].BeginRepeating?) ==>
      Balanced(inputs[i].events) && |Run(v, inputs[..i]).active| < MAX_SEQUENCES
  }

  lemma StartIsFair(v: Macros, events: seq<MacroEvent>)
    requires Fair(v) && Balanced(events) && |v.active| < MAX_SEQUENCES
    ensures Fair(StartSequence(v, events))
  {
    forall k | FakeKey(k) in v.states ensures OwedBySome(v.active + [NewSequence(events)], k) {
      OwedSnoc(v.active, NewSequence(events), k);
    }
  }

  lemma {:induction false} WithoutFakesMembers(states: seq<Held>, x: Held)
    ensures x in WithoutFakes(states) <==> x in states && !x.FakeKey?
    decreases |states|
  {
    if states != [] {
      var n := |states| - 1;
      assert states == states[..n] + [states[n]];
      WithoutFakesMembers(states[..n], x);
    }
  }

  lemma CancelIsFair(v: Macros)
    requires Fair(v)
    ensures Fair(Cancelled(v))
  {
    var st := WithoutFakes(v.states);
    forall x ensures x in st <==> x in v.states && !x.FakeKey? {
      WithoutFakesMembers(v.states, x);
    }
    forall i | 0 <= i < |st| && st[i].Repeating? ensures Balanced(st[i].events) {
      assert st[i] in v.states;
    }
  }

  /// Running macros owe their keys: over every run, a fake key is owed a release by a sequence that
  /// runs, so none is held once none runs.
  lemma {:induction false} MacrosOweTheirKeys(v: Macros, inputs: seq<Input>)
    requires Fair(v) && Orderly(v, inputs)
    ensures var r := Run(v, inputs);
            Fair(r) && (r.active == [] ==> forall k :: FakeKey(k) !in r.states)
    decreases |inputs|
  {
    if inputs != [] {
      var n := |inputs| - 1;
      var before := Run(v, inputs[..n]);
      assert forall i :: 0 <= i < n ==> inputs[..n][..i] == inputs[..i];
      MacrosOweTheirKeys(v, inputs[..n]);
      match inputs[n] {
        case Tick => ProcessIsFair(before);
        case Begin(events) => StartIsFair(before, events);
        case BeginRepeating(events, c) => StartIsFair(before, events);
        case Stop => CancelIsFair(before);
      }
    }
  }

  ghost predicate NoFakes(states: seq<Held>)
  {
    forall k :: FakeKey(k) !in states
  }

  /// The tick in which the last of the running macros ends.
  lemma LastTick(v: Macros)
    requires Fair(v) && AllComplete(v.active) && MaxLeft(v.active) == 1
    ensures NoFakes(Process(v).states)
  {
    AdvanceTakesOneTick(v.states, v.active);
    forall k ensures FakeKey(k) !in Process(v).states {
      AdvanceOwes(v.states, v.active, k);
    }
  }

  lemma NoneOwedAtRest(v: Macros)
    requires Fair(v) && v.active == []
    ensures NoFakes(v.states)
  {
    forall k ensures FakeKey(k) !in v.states {
      assert !OwedBySome(v.active, k);
    }
  }

  lemma LastTickComes(v: Macros, n: nat) returns (u: Macros)
    requires Fair(v) && AllComplete(v.active) && MaxLeft(v.active) == n + 1
    ensures u == Ticks(v, n) && NoFakes(Process(u).states)
  {
    u := Ticks(v, n);
    MacrosEndOnTime(v, n);
    TicksAreFair(v, n);
    LastTick(u);
  }

  /// In the tick in which the last of the running macros ends, no key is left pressed, whether or not
  /// a repeating one begins again.
  lemma MacrosLeaveNothingBehind(v: Macros) returns (r: Macros)
    requires Fair(v) && AllComplete(v.active)
    ensures r == Ticks(v, MaxLeft(v.active)) && NoFakes(r.states)
    ensures r.active == if v.active == [] then [] else Restarted(v.states)
  {
    var n := MaxLeft(v.active);
    MaxLeftPositive(v.active);
    if n > 0 {
      var u := LastTickComes(v, n - 1);
      r := Process(u);
      assert r == Ticks(v, n);
      MacrosEndOnTime(v, n);
    } else {
      r := v;
      NoneOwedAtRest(v);
    }
  }

  lemma {:induction false} TicksAreFair(v: Macros, n: nat)
    requires Fair(v)
    ensures Fair(Ticks(v, n))
    decreases n
  {
    if n > 0 {
      TicksAreFair(v, n - 1);
      ProcessIsFair(Ticks(v, n - 1));
    }
  }

  // ---------------------------------------------------------------------------------------
  // One macro alone

  ghost function Fakes(states: seq<Held>): (r: set<nat>)
  {
    set x | x in states && x.FakeKey? :: x.key
  }

  /// The keys left pressed by events that find `held` pressed; the last event is not followed by
  /// the release of its tap.
  ghost function KeysLeft(events: seq<MacroEvent>, held: set<nat>): (r: set<nat>)
  {
    if events == [] then held
    else
      match events[0]
      case Complete => held
      case Down(k) => KeysLeft(events[1..], held + {k})
      case Up(k) => KeysLeft(events[1..], held - {k})
      case Tap(k) => if events[1..] == [] then held + {k} else KeysLeft(events[1..], held - {k})
      case _ => KeysLeft(events[1..], held)
  }

  lemma FreesAll(events: seq<MacroEvent>, k: nat, held: set<nat>)
    requires events != [] && (events[0] == Up(k) || events[0] == Tap(k))
    ensures (forall j :: j in held ==> Frees(events, j)) <==> (forall j :: j in held - {k} ==> Frees(events[1..], j))
  {
    forall j ensures Frees(events, j) <==> j == k || Frees(events[1..], j) {
    }
    if forall j :: j in held - {k} ==> Frees(events[1..], j) {
      forall j | j in held ensures Frees(events, j) {
        assert j == k || j in held - {k};
      }
    }
  }

  lemma {:induction false} NoKeysLeftIff(events: seq<MacroEvent>, held: set<nat>)
    ensures KeysLeft(events, held) == {} <==> Balanced(events) && forall k :: k in held ==> Frees(events, k)
    decreases |events|
  {
    if events == [] {
      assert held == {} <==> forall k :: k !in held;
    } else {
      var rest := events[1..];
      match events[0] {
        case Complete => assert held == {} <==> forall k :: k !in held;
        case Down(k) => NoKeysLeftIff(rest, held + {k});
        case Up(k) =>
          NoKeysLeftIff(rest, held - {k});
          FreesAll(events, k, held);
        case Tap(k) =>
          NoKeysLeftIff(rest, held - {k});
          FreesAll(events, k, held);
        case _ => NoKeysLeftIff(rest, held);
      }
    }
  }

  /// The keys left when a sequence that is still running has ended.
  ghost function KeysToBeLeft(s: Sequence, held: set<nat>): (r: set<nat>)
  {
    KeysLeft(s.remaining, if s.tapped.Some? then held - {s.tapped.value} else held)
  }

  lemma FakesReleased(states: seq<Held>, k: nat)
    ensures Fakes(ReleaseFake(states, k)) == Fakes(states) - {k} && |ReleaseFake(states, k)| <= |states|
  {
    forall x ensures x in ReleaseFake(states, k) <==> x in states && x != FakeKey(k) {
      ReleaseFakeMembers(states, k, x);
    }
    ReleaseFakeShorter(states, k);
    forall j ensures j in Fakes(ReleaseFake(states, k)) <==> j in Fakes(states) - {k} {
      assert j in Fakes(states) <==> FakeKey(j) in states;
    }
  }

  lemma {:induction false} ReleaseFakeShorter(states: seq<Held>, k: nat)
    ensures |ReleaseFake(states, k)| <= |states|
    decreases |states|
  {
    if states != [] {
      ReleaseFakeShorter(states[..|states| - 1], k);
    }
  }

  lemma FakesPushed(states: seq<Held>, x: Held)
    requires |states| < MAX_STATES
    ensures Fakes(PushState(states, x)) == if x.FakeKey? then Fakes(states) + {x.key} else Fakes(states)
  {
    var r := states + [x];
    forall j ensures j in Fakes(r) <==> j in Fakes(states) || x == FakeKey(j) {
      assert FakeKey(j) in r <==> FakeKey(j) in states || x == FakeKey(j);
    }
  }

  lemma {:induction false} KeysLeftGrow(events: seq<MacroEvent>, held: set<nat>, more: set<nat>)
    requires held <= more
    ensures KeysLeft(events, held) <= KeysLeft(events, more)
    decreases |events|
  {
    if events != [] {
      var rest := events[1..];
      match events[0] {
        case Complete =>
        case Down(k) => KeysLeftGrow(rest, held + {k}, more + {k});
        case Up(k) => KeysLeftGrow(rest, held - {k}, more - {k});
        case Tap(k) => KeysLeftGrow(rest, held - {k}, more - {k});
        case _ => KeysLeftGrow(rest, held, more);
      }
    }
  }

  /// The keys left when a sequence that may have ended has ended.
  ghost function KeysYetLeft(states: seq<Held>, s: Sequence): (r: set<nat>)
  {
    if s.remaining == [] then Fakes(states) else KeysToBeLeft(s, Fakes(states))
  }

  lemma StepTakesPlaces(states: seq<Held>, s: Sequence)
    requires s.remaining != []
    ensures var (st, r) := Step(states, s);
            |st| + |r.remaining| <= |states| + |s.remaining|
  {
    forall k ensures |ReleaseFake(states, k)| <= |states| {
      ReleaseFakeShorter(states, k);
    }
  }

  /// A step leaves what was to be left, as long as there is room for the state it may push.
  lemma RoomyStep(states: seq<Held>, s: Sequence)
    requires s.remaining != [] && |states| < MAX_STATES
    ensures var (st, r) := Step(states, s);
            KeysYetLeft(st, r) == KeysToBeLeft(s, Fakes(states))
  {
    if s.delay == 0 {
      if s.tapped.Some? {
        FakesReleased(states, s.tapped.value);
      } else {
        var rest := s.remaining[1..];
        assert rest == [] ==> forall held :: KeysLeft(rest, held) == held;
        match s.remaining[0] {
          case Down(k) =>
            FakesPushed(states, FakeKey(k));
            assert KeysLeft(s.remaining, Fakes(states)) == KeysLeft(rest, Fakes(states) + {k});
          case Tap(k) =>
            FakesPushed(states, FakeKey(k));
            assert Fakes(states) + {k} - {k} == Fakes(states) - {k};
          case Up(k) =>
            FakesReleased(states, k);
            assert KeysLeft(s.remaining, Fakes(states)) == KeysLeft(rest, Fakes(states) - {k});
          case Custom(id) =>
            FakesPushed(states, CustomPending(id));
            assert KeysLeft(s.remaining, Fakes(states)) == KeysLeft(rest, Fakes(states));
          case Complete =>
          case _ => assert KeysLeft(s.remaining, Fakes(states)) == KeysLeft(rest, Fakes(states));
        }
      }
    }
  }

  /// Without room, a step still leaves no more than was to be left.
  lemma FullStep(states: seq<Held>, s: Sequence)
    requires s.remaining != [] && |states| >= MAX_STATES
    ensures var (st, r) := Step(states, s);
            KeysYetLeft(st, r) <= KeysToBeLeft(s, Fakes(states))
  {
    if s.delay == 0 {
      if s.tapped.Some? {
        FakesReleased(states, s.tapped.value);
      } else {
        var rest := s.remaining[1..];
        assert rest == [] ==> forall held :: KeysLeft(rest, held) == held;
        match s.remaining[0] {
          case Down(k) =>
            KeysLeftGrow(rest, Fakes(states), Fakes(states) + {k});
            assert KeysLeft(s.remaining, Fakes(states)) == KeysLeft(rest, Fakes(states) + {k});
          case Tap(k) =>
            assert Step(states, s).0 == states;
          case Up(k) =>
            FakesReleased(states, k);
            assert KeysLeft(s.remaining, Fakes(states)) == KeysLeft(rest, Fakes(states) - {k});
          case Complete =>
          case _ => assert KeysLeft(s.remaining, Fakes(states)) == KeysLeft(rest, Fakes(states));
        }
      }
    }
  }

  lemma AnyStep(states: seq<Held>, s: Sequence)
    requires s.remaining != []
    ensures var (st, r) := Step(states, s);
            && KeysYetLeft(st, r) <= KeysToBeLeft(s, Fakes(states))
            && (|states| < MAX_STATES ==> KeysYetLeft(st, r) == KeysToBeLeft(s, Fakes(states)))
  {
    if |states| >= MAX_STATES {
      FullStep(states, s);
    } else {
      RoomyStep(states, s);
    }
  }

  lemma StepTakesTime(states: seq<Held>, s: Sequence)
    requires s.remaining != []
    ensures TicksLeft(Step(states, s).1) < TicksLeft(s)
  {
  }

  lemma {:induction false} TicksFirst(v: Macros, n: nat)
    ensures Ticks(v, n + 1) == Ticks(Process(v), n)
    decreases n
  {
    if n == 0 {
      assert Ticks(v, 1) == Process(Ticks(v, 0));
    } else {
      TicksFirst(v, n - 1);
      assert Ticks(v, n + 1) == Process(Ticks(v, n)) == Process(Ticks(Process(v), n - 1));
    }
  }

  /// One tick of a macro that runs alone.
  lemma SoloTick(states: seq<Held>, s: Sequence)
    ensures var (st, next) := Step(states, s);
            Process(Macros(states, [s])) == Macros(st, if next.remaining != [] then [next] else Restarted(states))
  {
    var (st, next) := Step(states, s);
    var one := [s];
    assert one[..0] == [] && Advance(states, one[..0]) == (states, []);
    assert [] + [next] == [next];
    StepKeepsLatest(states, s);
  }

  lemma {:induction false} SoloEnds(states: seq<Held>, s: Sequence) returns (n: nat)
    requires s.remaining != []
    ensures var r := Ticks(Macros(states, [s]), n);
            && r.active == Restarted(states)
            && Fakes(r.states) <= KeysToBeLeft(s, Fakes(states))
            && (|states| + |s.remaining| <= MAX_STATES ==> Fakes(r.states) == KeysToBeLeft(s, Fakes(states)))
    decreases TicksLeft(s)
  {
    var v := Macros(states, [s]);
    var (st, next) := Step(states, s);
    AnyStep(states, s);
    SoloTick(states, s);
    if next.remaining == [] {
      n := 1;
      assert Ticks(v, 0) == v;
    } else {
      StepTakesPlaces(states, s);
      StepTakesTime(states, s);
      StepKeepsLatest(states, s);
      n := SoloEnds(st, next);
      TicksFirst(v, n);
      n := n + 1;
    }
  }

  /// A macro that runs alone, when no macro key is pressed: it leaves no key pressed if its events are
  /// balanced, and, unless there may be no room for the states of all its events, only if they are.
  lemma LeavesNoKeyIffBalanced(states: seq<Held>, events: seq<MacroEvent>) returns (n: nat)
    requires events != [] && Fakes(states) == {}
    ensures var r := Ticks(StartSequence(Macros(states, []), events), n);
            && r.active == Restarted(states)
            && (Balanced(events) ==> Fakes(r.states) == {})
            && (|states| + |events| <= MAX_STATES ==> (Fakes(r.states) == {} <==> Balanced(events)))
  {
    n := SoloEnds(states, NewSequence(events));
    assert [] + [NewSequence(events)] == [NewSequence(events)];
    NoKeysLeftIff(events, {});
  }
}
