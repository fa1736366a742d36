/// Nested replays behave like calls: the items and the active macros of a replay are a stack of
/// distinct macros, and the stack runs empty (src/kanata/dynamic_macro.rs).

module NestedReplay {
  import opened Types
  import opened MacroModel

  /// A macro being replayed and what is left of it.
  datatype Frame = Frame(id: u16, rest: seq<Item>)

  ghost predicate Plain(items: seq<Item>)
  {
    forall i :: 0 <= i < |items| ==> items[i].KeyItem?
  }

  ghost predicate PlainMacros(macros: Macros)
  {
    forall id :: id in macros ==> Plain(macros[id])
  }

  ghost function Flatten(stack: seq<Frame>): (items: seq<Item>)
    requires stack != []
  {
    if |stack| == 1 then stack[0].rest
    else stack[0].rest + ([EndMacro(stack[0].id)] + Flatten(stack[1..]))
  }

  ghost function Ids(stack: seq<Frame>): (ids: set<u16>)
  {
    set i | 0 <= i < |stack| :: stack[i].id
  }

  /// Distinct macros, the innermost first.
  ghost predicate Stack(stack: seq<Frame>)
  {
    && stack != []
    && (forall i :: 0 <= i < |stack| ==> Plain(stack[i].rest))
    && (forall i, j :: 0 <= i < j < |stack| ==> stack[i].id != stack[j].id)
  }

  ghost predicate Represents(stack: seq<Frame>, s: Replay)
  {
    Stack(stack) && s.active == Ids(stack) && s.items == Flatten(stack)
  }

  /// Takes the next item of the innermost macro, or returns from it.
  ghost function Next(stack: seq<Frame>): (r: seq<Frame>)
    requires stack != []
  {
    if stack[0].rest != [] then stack[0 := Frame(stack[0].id, stack[0].rest[1..])] else stack[1..]
  }

  ghost function Call(stack: seq<Frame>, id: u16, macros: Macros): (r: seq<Frame>)
  {
    if id in macros && id !in Ids(stack) then [Frame(id, macros[id])] + stack else stack
  }

  predicate Due(s: Replay)
  {
    s.delayRemaining <= 1
  }

  lemma IdsOfCons(f: Frame, stack: seq<Frame>)
    ensures Ids([f] + stack) == {f.id} + Ids(stack)
  {
    var all := [f] + stack;
    assert all[0] == f;
    assert forall i :: 0 <= i < |stack| ==> all[i + 1] == stack[i];
  }

  lemma PlayCalls(stack: seq<Frame>, s: Replay, id: u16, macros: Macros)
    requires Represents(stack, s) && PlainMacros(macros)
    ensures var r := Play(Some(s), id, macros);
            r.Some? && Represents(Call(stack, id, macros), r.value)
  {
    if id in macros && id !in s.active {
      var called := Frame(id, macros[id]);
      var all := [called] + stack;
      IdsOfCons(called, stack);
      assert all[1..] == stack;
      assert forall i :: 0 < i < |all| ==> all[i] == stack[i - 1] && stack[i - 1].id in Ids(stack);
    }
  }

  lemma FirstPlayCalls(id: u16, macros: Macros)
    requires id in macros && PlainMacros(macros)
    ensures var r := Play(None, id, macros);
            r.Some? && Represents([Frame(id, macros[id])], r.value)
  {
    var only := Frame(id, macros[id]);
    IdsOfCons(only, []);
    assert [only] + [] == [only] && Ids([]) == {};
  }

  /// A tick that is due replays the next item of the innermost macro; at its end it returns to the
  /// macro that played it, and at the end of the first one the replay is over.
  lemma TickReturns(stack: seq<Frame>, s: Replay, b: DelayBehaviour)
    requires Represents(stack, s) && Due(s)
    ensures var (r, event) := TickReplay(Some(s), b);
            && (r.None? <==> Next(stack) == [])
            && (r.Some? ==> Represents(Next(stack), r.value))
            && (event.Some? <==> stack[0].rest != [])
            && (event.Some? ==>
                  var (item, c) := (stack[0].rest[0], Coord(0, stack[0].rest[0].key));
                  event.value.event == if item.press then Press(c) else Release(c))
  {
    if stack[0].rest != [] {
      StepInto(stack, s);
    } else if |stack| > 1 {
      StepOut(stack, s);
    }
  }

  lemma StepInto(stack: seq<Frame>, s: Replay)
    requires Represents(stack, s) && stack[0].rest != []
    ensures s.items != [] && s.items[0] == stack[0].rest[0]
    ensures Stack(Next(stack)) && Ids(Next(stack)) == s.active && Flatten(Next(stack)) == s.items[1..]
  {
    var next := Next(stack);
    assert next[1..] == stack[1..];
    assert forall i :: 0 <= i < |stack| ==> next[i].id == stack[i].id;
    assert Ids(next) == Ids(stack);
  }

  lemma StepOut(stack: seq<Frame>, s: Replay)
    requires Represents(stack, s) && stack[0].rest == [] && |stack| > 1
    ensures s.items != [] && s.items[0] == EndMacro(stack[0].id)
    ensures Stack(stack[1..]) && Ids(stack[1..]) == s.active - {stack[0].id} && Flatten(stack[1..]) == s.items[1..]
  {
    var rest := stack[1..];
    assert stack == [stack[0]] + rest;
    IdsOfCons(stack[0], rest);
    assert forall i :: 0 <= i < |rest| ==> rest[i] == stack[i + 1];
  }

  // ---------------------------------------------------------------------------------------
  // Runs

  datatype Step = TickStep | PlayStep(id: u16, macros: Macros)

  ghost function Advance(s: Option<Replay>, b: DelayBehaviour, step: Step): (r: Option<Replay>)
  {
    match step
    case TickStep => TickReplay(s, b).0
    case PlayStep(id, macros) => Play(s, id, macros)
  }

  ghost function Run(s: Option<Replay>, b: DelayBehaviour, steps: seq<Step>): (r: Option<Replay>)
    decreases |steps|
  {
    if steps == [] then s else Run(Advance(s, b, steps[0]), b, steps[1..])
  }

  /// The ids of the markers, in order.
  ghost function Markers(items: seq<Item>): (ids: seq<u16>)
  {
    if items == [] then []
    else if items[0].EndMacro? then [items[0].id] + Markers(items[1..])
    else Markers(items[1..])
  }

  lemma {:induction false} MarkersBehind(a: seq<Item>, b: seq<Item>)
    requires Plain(a)
    ensures Markers(a + b) == Markers(b)
    decreases |a|
  {
    if a == [] {
      assert a + b == b;
    } else {
      assert (a + b)[1..] == a[1..] + b;
      MarkersBehind(a[1..], b);
    }
  }

  lemma {:induction false} MarkersAreCallers(stack: seq<Frame>)
    requires Stack(stack)
    ensures var m := Markers(Flatten(stack));
            |m| == |stack| - 1 && forall i :: 0 <= i < |m| ==> m[i] == stack[i].id
    decreases |stack|
  {
    if |stack| == 1 {
      MarkersBehind(stack[0].rest, []);
      assert stack[0].rest + [] == stack[0].rest;
    } else {
      var back := [EndMacro(stack[0].id)] + Flatten(stack[1..]);
      assert back[1..] == Flatten(stack[1..]);
      assert forall i :: 0 <= i < |stack[1..]| ==> stack[1..][i] == stack[i + 1];
      MarkersBehind(stack[0].rest, back);
      MarkersAreCallers(stack[1..]);
    }
  }

  /// What every replay keeps: the active macros are the first one and those of the end markers,
  /// each once.
  ghost predicate Nested(s: Option<Replay>)
  {
    s.Some? ==> exists stack :: Represents(stack, s.value)
  }

  lemma StepKeepsNesting(s: Option<Replay>, b: DelayBehaviour, step: Step)
    requires Nested(s) && (step.PlayStep? ==> PlainMacros(step.macros))
    ensures Nested(Advance(s, b, step))
  {
    if s.Some? {
      var stack: seq<Frame> :| Represents(stack, s.value);
      if step.PlayStep? {
        PlayCalls(stack, s.value, step.id, step.macros);
      } else if Due(s.value) {
        TickReturns(stack, s.value, b);
      } else {
        assert Represents(stack, Advance(s, b, step).value);
      }
    } else if step.PlayStep? && step.id in step.macros {
      FirstPlayCalls(step.id, step.macros);
    }
  }

  lemma {:induction false} EveryReplayIsNested(s: Option<Replay>, b: DelayBehaviour, steps: seq<Step>)
    requires Nested(s)
    requires forall i :: 0 <= i < |steps| && steps[i].PlayStep? ==> PlainMacros(steps[i].macros)
    ensures Nested(Run(s, b, steps))
    decreases |steps|
  {
    if steps != [] {
      StepKeepsNesting(s, b, steps[0]);
      EveryReplayIsNested(Advance(s, b, steps[0]), b, steps[1..]);
    }
  }

  /// In every run from an idle replay, the markers are distinct and name all active macros but one.
  lemma MarkersNameActiveMacros(b: DelayBehaviour, steps: seq<Step>) returns (base: u16)
    requires forall i :: 0 <= i < |steps| && steps[i].PlayStep? ==> PlainMacros(steps[i].macros)
    ensures var s := Run(None, b, steps);
            s.Some? ==>
              var m := Markers(s.value.items);
              && (forall i, j :: 0 <= i < j < |m| ==> m[i] != m[j])
              && base !in m && s.value.active == {base} + (set i | 0 <= i < |m| :: m[i])
  {
    EveryReplayIsNested(None, b, steps);
    var s := Run(None, b, steps);
    base := 0;
    if s.Some? {
      var stack: seq<Frame> :| Represents(stack, s.value);
      base := stack[|stack| - 1].id;
      MarkersAreCallers(stack);
      var m := Markers(s.value.items);
      forall id ensures id in Ids(stack) <==> id in {base} + (set i | 0 <= i < |m| :: m[i]) {
        if id in Ids(stack) && id != base {
          var i :| 0 <= i < |stack| && stack[i].id == id;
          assert m[i] == id;
        }
      }
    }
  }

  // ---------------------------------------------------------------------------------------
  // Termination

  /// What replaying one event may cost while `unused` macros of at most `length` items are not
  /// active: the event itself, and all that the plays it leads to prepend.
  ghost function PlayCost(unused: nat, length: nat): (c: nat)
  {
    if unused == 0 then 0
    else PlayCost(unused - 1, length) + 1 + length * (1 + PlayCost(unused - 1, length))
  }

  function Minus(a: nat, b: nat): nat
  {
    if a < b then 0 else a - b
  }

  ghost function StackCost(stack: seq<Frame>, total: nat, length: nat): (c: nat)
  {
    if stack == [] then 0
    else |stack[0].rest| * (1 + PlayCost(Minus(total, |stack|), length)) + 1 + StackCost(stack[1..], total, length)
  }

  /// The number of items still to be taken at most; after an event, plays are to be expected.
  ghost function Cost(stack: seq<Frame>, open: bool, total: nat, length: nat): (c: nat)
  {
    StackCost(stack, total, length) + if open then PlayCost(Minus(total, |stack|), length) else 0
  }

  ghost predicate NoLonger(macros: Macros, length: nat)
  {
    forall id :: id in macros ==> |macros[id]| <= length
  }

  lemma {:induction false} StackFits(stack: seq<Frame>, ids: set<u16>)
    requires forall i, j :: 0 <= i < j < |stack| ==> stack[i].id != stack[j].id
    requires Ids(stack) <= ids
    ensures |stack| <= |ids|
    decreases |stack|
  {
    if stack != [] {
      var (first, rest) := (stack[0].id, stack[1..]);
      assert stack == [stack[0]] + rest;
      IdsOfCons(stack[0], rest);
      assert forall i :: 0 <= i < |rest| ==> rest[i] == stack[i + 1];
      assert first !in Ids(rest);
      StackFits(rest, ids - {first});
    }
  }

  /// A play is paid for by the event that led to it.
  lemma PlayIsPaid(stack: seq<Frame>, id: u16, macros: Macros, length: nat)
    requires Stack(stack) && Ids(stack) <= macros.Keys && NoLonger(macros, length)
    ensures Cost(Call(stack, id, macros), true, |macros.Keys|, length) <= Cost(stack, true, |macros.Keys|, length)
  {
    if id in macros && id !in Ids(stack) {
      var (total, all) := (|macros.Keys|, Call(stack, id, macros));
      StackFits(stack, macros.Keys - {id});
      var u := total - |stack|;
      assert all[1..] == stack;
      LongerCostsMore(|macros[id]|, length, 1 + PlayCost(u - 1, length));
    }
  }

  lemma LongerCostsMore(a: nat, b: nat, c: nat)
    requires a <= b
    ensures a * c <= b * c
  {
  }

  /// A step that is due takes at least one item off what is still to come.
  lemma NextIsPaid(stack: seq<Frame>, open: bool, total: nat, length: nat)
    requires stack != []
    ensures Cost(Next(stack), stack[0].rest != [], total, length) < Cost(stack, open, total, length)
  {
    if stack[0].rest != [] {
      var next := Next(stack);
      assert next[1..] == stack[1..];
      var c := 1 + PlayCost(Minus(total, |stack|), length);
      OneLess(|stack[0].rest|, c);
    }
  }

  lemma OneLess(n: nat, c: nat)
    requires n > 0
    ensures n * c == (n - 1) * c + c
  {
  }

  /// Whether an event was the last thing taken, so that plays may follow.
  ghost predicate Opens(s: Replay, open: bool)
  {
    if Due(s) then s.items != [] && s.items[0].KeyItem? else open
  }

  /// Macros are played only between an event and the next step that is due; what is recorded stays
  /// the same.
  ghost predicate Answering(s: Option<Replay>, open: bool, b: DelayBehaviour, steps: seq<Step>, macros: Macros)
    decreases |steps|
  {
    steps == [] ||
    match steps[0]
    case TickStep => Answering(TickReplay(s, b).0, s.Some? && Opens(s.value, open), b, steps[1..], macros)
    case PlayStep(_, m) => open && m == macros && s.Some? && Answering(Advance(s, b, steps[0]), open, b, steps[1..], macros)
  }

  ghost function TicksIn(steps: seq<Step>): (n: nat)
  {
    if steps == [] then 0 else TicksIn(steps[1..]) + if steps[0].TickStep? then 1 else 0
  }

  /// The number of ticks that a replay lasts at most.
  ghost function TimeLeft(stack: seq<Frame>, s: Replay, open: bool, total: nat, length: nat): (n: nat)
  {
    Cost(stack, open, total, length) * 0x1_0000 + s.delayRemaining
  }

  lemma {:induction false} IdleStaysIdle(open: bool, b: DelayBehaviour, steps: seq<Step>, macros: Macros)
    requires Answering(None, open, b, steps, macros)
    ensures Run(None, b, steps) == None
    decreases |steps|
  {
    if steps != [] {
      IdleStaysIdle(false, b, steps[1..], macros);
    }
  }

  lemma NextWithin(stack: seq<Frame>, ids: set<u16>)
    requires stack != [] && Ids(stack) <= ids
    ensures Ids(Next(stack)) <= ids
  {
    forall i | 0 <= i < |Next(stack)| ensures Next(stack)[i].id in Ids(stack) {
      if stack[0].rest != [] {
        assert stack[i].id in Ids(stack);
      } else {
        assert stack[i + 1].id in Ids(stack);
      }
    }
  }

  lemma CallWithin(stack: seq<Frame>, id: u16, macros: Macros)
    requires Ids(stack) <= macros.Keys
    ensures Ids(Call(stack, id, macros)) <= macros.Keys
  {
    if id in macros && id !in Ids(stack) {
      IdsOfCons(Frame(id, macros[id]), stack);
    }
  }

  /// Replay terminates: however often replayed events play further macros, the number of ticks is
  /// bounded by the length of what is recorded.
  lemma {:induction false} ReplayEnds(stack: seq<Frame>, s: Replay, open: bool, b: DelayBehaviour, steps: seq<Step>,
                                      macros: Macros, length: nat)
    requires Represents(stack, s) && Ids(stack) <= macros.Keys && PlainMacros(macros) && NoLonger(macros, length)
    requires Answering(Some(s), open, b, steps, macros)
    ensures Run(Some(s), b, steps).Some? ==> TicksIn(steps) <= TimeLeft(stack, s, open, |macros.Keys|, length)
    decreases |steps|
  {
    if steps != [] {
      var r := Advance(Some(s), b, steps[0]);
      var total := |macros.Keys|;
      if steps[0].PlayStep? {
        var next := Call(stack, steps[0].id, macros);
        PlayCalls(stack, s, steps[0].id, macros);
        CallWithin(stack, steps[0].id, macros);
        PlayIsPaid(stack, steps[0].id, macros, length);
        ReplayEnds(next, r.value, open, b, steps[1..], macros, length);
      } else if !Due(s) {
        ReplayEnds(stack, r.value, open, b, steps[1..], macros, length);
      } else {
        TickReturns(stack, s, b);
        NextIsPaid(stack, open, total, length);
        if r.None? {
          IdleStaysIdle(Opens(s, open), b, steps[1..], macros);
        } else {
          if stack[0].rest != [] { StepInto(stack, s); } else { StepOut(stack, s); }
          NextWithin(stack, macros.Keys);
          ReplayEnds(Next(stack), r.value, stack[0].rest != [], b, steps[1..], macros, length);
        }
      }
    }
  }

  // ---------------------------------------------------------------------------------------
  // Plays that answer the end of a macro

  function Again(id: u16, macros: Macros): (steps: seq<Step>)
  {
    [TickStep, TickStep, TickStep, TickStep, PlayStep(id, macros), TickStep]
  }

  function Often(steps: seq<Step>, n: nat): (r: seq<Step>)
  {
    if n == 0 then [] else steps + Often(steps, n - 1)
  }

  lemma {:induction false} RunSplits(s: Option<Replay>, b: DelayBehaviour, a: seq<Step>, c: seq<Step>)
    ensures Run(s, b, a + c) == Run(Run(s, b, a), b, c)
    decreases |a|
  {
    if a == [] {
      assert a + c == c;
    } else {
      assert (a + c)[1..] == a[1..] + c;
      RunSplits(Advance(s, b, a[0]), b, a[1..], c);
    }
  }

  /// Playing an empty macro whenever it has just ended keeps a replay from ever going on.
  lemma {:induction false} AnsweringEndsCycles(s: Replay, id: u16, b: DelayBehaviour, n: nat)
    requires s.delayRemaining == CONSTANT_DELAY && id !in s.active
    ensures Run(Some(s), b, Often(Again(id, map[id := []]), n)) == Some(s)
    decreases n
  {
    if n > 0 {
      var (macros, steps) := (map[id := []], Again(id, map[id := []]));
      RunSplits(Some(s), b, steps, Often(steps, n - 1));
      OneCycle(s, id, b, macros);
      AnsweringEndsCycles(s, id, b, n - 1);
    }
  }

  lemma OneCycle(s: Replay, id: u16, b: DelayBehaviour, macros: Macros)
    requires s.delayRemaining == CONSTANT_DELAY && id !in s.active && macros == map[id := []]
    ensures Run(Some(s), b, Again(id, macros)) == Some(s)
  {
    var steps := Again(id, macros);
    var s1, s2, s3, s4 := s.(delayRemaining := 4), s.(delayRemaining := 3), s.(delayRemaining := 2), s.(delayRemaining := 1);
    assert Run(Some(s4), b, [PlayStep(id, macros), TickStep]) == Some(s) by {
      var played := s4.(active := s.active + {id}, items := [EndMacro(id)] + s.items);
      assert Play(Some(s4), id, macros) == Some(played) by {
        assert [] + ([EndMacro(id)] + s.items) == [EndMacro(id)] + s.items;
      }
      assert played.items[1..] == s.items && s.active + {id} - {id} == s.active;
      assert Run(Some(played), b, [TickStep]) == Run(Some(s), b, []);
      assert [PlayStep(id, macros), TickStep][1..] == [TickStep];
    }
    assert steps[4..] == [PlayStep(id, macros), TickStep];
    assert Run(Some(s3), b, steps[3..]) == Run(Some(s4), b, steps[4..]) by { assert steps[3..][1..] == steps[4..]; }
    assert Run(Some(s2), b, steps[2..]) == Run(Some(s3), b, steps[3..]) by { assert steps[2..][1..] == steps[3..]; }
    assert Run(Some(s1), b, steps[1..]) == Run(Some(s2), b, steps[2..]) by { assert steps[1..][1..] == steps[2..]; }
  }
}
