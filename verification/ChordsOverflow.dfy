/// Runs in which the bounds of the chords v2 machine show: the output of a tick has sixteen places, but
/// up to thirty-two events can be forwarded in it; and a full queue loses sight of its oldest event. And a
/// tick that starts a chord twice (keyberon/src/chord.rs).

module ChordsOverflow {
  import opened Types
  import opened ChordsModel
  import opened ChordsHistory
  import opened ChordsQuiescence
  import opened Picking
  import opened ChordsActivation

  lemma RunOne(cfg: Config, h: History, i: Input)
    requires |h.lives| == |h.value.active|
    ensures Run(cfg, h, [i]) == Advance(cfg, h, i)
  {
    assert Run(cfg, h, [i]) == Run(cfg, Advance(cfg, h, i), [i][1..]);
  }

  function Pushes(es: seq<Event>): (r: seq<Input>)
    ensures |r| == |es|
  {
    seq(|es|, i requires 0 <= i < |es| => Push(es[i]))
  }

  /// The history in which the events `es` have joined the queue.
  ghost function Arrived(h: History, es: seq<Event>): (r: History)
  {
    h.(value := h.value.(queue := h.value.queue + Fresh(es)), arrived := h.arrived + Fresh(es))
  }

  lemma OneArrives(cfg: Config, h: History, e: Event)
    requires |h.lives| == |h.value.active| && |h.value.queue| < QUEUE_SIZE
    ensures Advance(cfg, h, Push(e)) == Arrived(h, [e])
  {
    assert Fresh([e]) == [Queued(e, 0)];
  }

  lemma ArrivalsCompose(h: History, a: seq<Event>, b: seq<Event>)
    ensures Arrived(Arrived(h, a), b) == Arrived(h, a + b)
  {
    assert Fresh(a + b) == Fresh(a) + Fresh(b);
    assert (h.value.queue + Fresh(a)) + Fresh(b) == h.value.queue + Fresh(a + b);
    assert (h.arrived + Fresh(a)) + Fresh(b) == h.arrived + Fresh(a + b);
  }

  /// Events that find room are queued.
  lemma {:induction false} PushesQueue(cfg: Config, h: History, es: seq<Event>)
    requires |h.lives| == |h.value.active| && |h.value.queue| + |es| <= QUEUE_SIZE
    ensures Run(cfg, h, Pushes(es)) == Arrived(h, es)
    decreases |es|
  {
    if es == [] {
      assert h.value.queue + Fresh(es) == h.value.queue && h.arrived + Fresh(es) == h.arrived;
    } else {
      assert Pushes(es)[0] == Push(es[0]) && Pushes(es)[1..] == Pushes(es[1..]) && es == [es[0]] + es[1..];
      OneArrives(cfg, h, es[0]);
      ArrivalsCompose(h, [es[0]], es[1..]);
      PushesQueue(cfg, Arrived(h, [es[0]]), es[1..]);
    }
  }

  /// One queued press of a key that is in no chord: chords are ignored, and it stays queued.
  lemma UnmappedDrains(cfg: Config, v: ChordsValue, k: nat, layer: nat) returns (d: Outcome)
    requires v.queue == [Queued(Press(Coord(0, k)), 1)] && v.active == [] && k !in cfg.chords
    requires v.ticksToIgnore == 0 && v.ticksUntilChange == 0
    ensures d == DrainInputs(cfg, v, layer)
    ensures d.forwarded == d.consumed == [] && d.seen == [] && d.started == []
    ensures d.value.queue == v.queue && d.value.active == [] && d.value.ticksToIgnore == cfg.ignoreTicks
  {
    var q := v.queue;
    assert q[..0] == [] && q[1..] == [] && [] + [q[0]] == q;
    assert RealOnly(q) == q && VirtualOnly(q) == [] && LeadingReleases(q) == 0;
    var (v1, forwarded, seen) := ForwardLeading(v, layer);
    assert v1.queue == q && forwarded == seen == [] && v1.active == [];
    var first := [PressAt(k, 1)];
    assert [] + first == first;
    assert Presses(q, []) == Presses([], first);
    d := ProcessPresses(cfg, v1, layer, forwarded, seen);
  }

  lemma UnmappedPressTick(cfg: Config, k: nat, layer: nat) returns (r: History)
    requires ValidConfig(cfg) && k !in cfg.chords
    ensures r == Run(cfg, Beginning(cfg), [Push(Press(Coord(0, k))), TickAt(layer)])
    ensures r.value.queue == [Queued(Press(Coord(0, k)), 1)] && r.value.active == [] && r.value.ticksToIgnore > 0
    ensures r.handed == r.lost == r.consumed == [] && |r.lives| == 0
  {
    var a, b := Push(Press(Coord(0, k))), TickAt(layer);
    var pushed := Advance(cfg, Beginning(cfg), a);
    assert Age(pushed.value).queue == [Queued(Press(Coord(0, k)), 1)];
    var d := UnmappedDrains(cfg, Age(pushed.value), k, layer);
    assert [a] + [b] == [a, b];
    RunsCompose(cfg, Beginning(cfg), [a], [b]);
    RunOne(cfg, Beginning(cfg), a);
    RunOne(cfg, pushed, b);
    r := Advance(cfg, pushed, b);
    var t := Tick(cfg, pushed.value, layer);
    OldestAreLost(t);
    assert t.value.active == [];
  }

  /// While chords are ignored a tick forwards the whole queue, and the output keeps the last sixteen.
  lemma IgnoringTick(cfg: Config, v: ChordsValue, layer: nat) returns (t: TickResult)
    requires v.active == [] && v.ticksToIgnore > 0 && |v.queue| == SMOL_Q_LEN + 1
    ensures t == Tick(cfg, v, layer) && t.value.queue == [] && t.value.active == [] && t.drained.consumed == []
    ensures HandedOver(t) == TickAll(v.queue)[1..] && Lost(t) == TickAll(v.queue)[..1]
    ensures !t.Overflows() && !VirtualOverflow(Age(v), layer)
  {
    t := Tick(cfg, v, layer);
    assert t.drained.forwarded == TickAll(v.queue);
    assert |t.drained.value.active| == 0;
    assert t.triggers == [] && t.releases == [];
    RingCutsFirst(t.drained.forwarded, []);
    OldestAreLost(t);
    assert |t.Output()| == SMOL_Q_LEN;
  }

  lemma EventsAre(x: Queued, es: seq<Event>)
    ensures var q := TickAll([x] + Fresh(es));
            Events(q[1..]) == es && Events(q[..1]) == [x.event]
  {
  }

  /// An unmapped key is pressed; a tick later, sixteen more events arrive before the next. That tick
  /// leaves the machine idle without a panic, and the press has reached neither the layout nor a chord.
  lemma FullOutputLosesEvent(cfg: Config, k: nat, es: seq<Event>, layer: nat)
    requires ValidConfig(cfg) && k !in cfg.chords && |es| == SMOL_Q_LEN
    ensures var full := Run(cfg, Beginning(cfg), [Push(Press(Coord(0, k))), TickAt(layer)] + Pushes(es));
            var h := Run(cfg, full, [TickAt(layer)]);
            && !VirtualOverflow(Age(full.value), layer) && !Tick(cfg, full.value, layer).Overflows()
            && h.value.queue == [] && h.value.active == []
            && Events(h.handed) == es && Events(h.lost) == [Press(Coord(0, k))] && h.consumed == []
  {
    var start := [Push(Press(Coord(0, k))), TickAt(layer)];
    var ignoring := UnmappedPressTick(cfg, k, layer);
    RunsCompose(cfg, Beginning(cfg), start, Pushes(es));
    PushesQueue(cfg, ignoring, es);
    var full := Run(cfg, Beginning(cfg), start + Pushes(es));
    RunOne(cfg, full, TickAt(layer));
    var t := IgnoringTick(cfg, full.value, layer);
    EventsAre(ignoring.value.queue[0], es);
    var (handed, lost) := (HandedOver(t), Lost(t));
    assert [] + handed == handed && [] + lost == lost && [] + t.drained.consumed == [];
  }

  // ---------------------------------------------------------------------------------------
  // A release that no chord sees

  /// A chord of the keys `a` and `b` that waits for both to be released, and nothing else.
  function Pair(a: nat, b: nat): Chord
  {
    Chord(7, [a, b], 50, [], OnLastRelease)
  }

  function PairOnly(a: nat, b: nat): Config
  {
    Config(map[a := [Pair(a, b)], b := [Pair(a, b)]], 5)
  }

  function BothPressed(a: nat, b: nat, since: u16): (r: seq<PressAt>)
  {
    [PressAt(a, since), PressAt(b, since)]
  }

  lemma PairIsPressed(a: nat, b: nat, since: u16)
    requires a != b
    ensures var ps := BothPressed(a, b, since);
            SameKeys(Pair(a, b), ps) && !SameKeys(Pair(a, b), ps[..1]) && ps[..1] == [PressAt(a, since)] && ps[..2] == ps
  {
    var ps := BothPressed(a, b, since);
    assert ps[0].key == a && ps[1].key == b && Pair(a, b).keys[1] == b;
    assert ps[..1] == [PressAt(a, since)];
    assert !Pressed(ps[..1], b);
  }

  lemma PairFits(c: Chord, ps: seq<PressAt>, layer: nat)
    requires ps != [] && Fits(c, ps, layer)
    ensures Fitting([c], ps, layer) == [c]
  {
    assert [c][..0] == [] && [] + [c] == [c];
  }

  lemma OneDeadline(c: Chord, since: u16)
    requires since < c.pendingDuration < U16_MAX
    ensures MinTimeout([c], since) == c.pendingDuration
  {
    assert [c][..0] == [];
  }

  lemma PairIsJudged(a: nat, b: nat, layer: nat, since: u16, nextCoord: nat) returns (j: Verdict)
    requires a != b && since < 50
    ensures j == Judge([Pair(a, b)], BothPressed(a, b, since), layer, since, false, nextCoord)
    ensures |j.activated| == 1 && j.activated[0].remaining == [a, b] && j.activated[0].status.Unread?
    ensures j.taken == BothPressed(a, b, since)
  {
    var (c, ps) := (Pair(a, b), BothPressed(a, b, since));
    PairIsPressed(a, b, since);
    PairFits(c, ps[..1], layer);
    PairFits(c, ps, layer);
    OneDeadline(c, since);
    var v := Verdict([], [], [], false, 0, nextCoord);
    var v1 := v.(taken := ps[..1], candidates := [c], wait := 50 - since, nextCoord := AdvanceCoord(nextCoord));
    assert Scan([c], ps, 0, layer, since, false, v) == Scan([c], ps, 1, layer, since, false, v1);
    j := Started(v1.(taken := ps), c, since, false);
    assert Scan([c], ps, 1, layer, since, false, v1) == j;
    assert [] + [Activate(c, since, v1.nextCoord, false)] == [Activate(c, since, v1.nextCoord, false)];
  }

  function PressesOf(a: nat, b: nat, since: u16): (q: seq<Queued>)
  {
    [Queued(Press(Coord(0, a)), since), Queued(Press(Coord(0, b)), since)]
  }

  lemma RealPresses(a: nat, b: nat, since: u16)
    ensures var q := PressesOf(a, b, since);
            RealOnly(q) == q && VirtualOnly(q) == [] && LeadingReleases(q) == 0
  {
    var q := PressesOf(a, b, since);
    var x, y := q[0], q[1];
    assert q[..1] == [x] && [x][..0] == [];
    assert [] + [x] == [x] && [x] + [y] == q;
  }

  lemma PressesRead(a: nat, b: nat, since: u16)
    ensures Presses(PressesOf(a, b, since), []) == (BothPressed(a, b, since), false)
  {
    var q := PressesOf(a, b, since);
    var first := [PressAt(a, since)];
    assert [] + first == first && first + [PressAt(b, since)] == BothPressed(a, b, since);
    assert q[1..] == [q[1]] && [q[1]][1..] == [];
    assert Presses(q, []) == Presses([q[1]], first);
    assert Presses([q[1]], first) == Presses([], BothPressed(a, b, since));
  }

  lemma BothTaken(a: nat, b: nat, since: u16)
    ensures Unconsumed(PressesOf(a, b, since), BothPressed(a, b, since)) == []
  {
    var (q, ps) := (PressesOf(a, b, since), BothPressed(a, b, since));
    assert ps[0].key == a && ps[1].key == b;
    assert Consumed(q[0], ps) && Consumed(q[1], ps);
    assert q[..1][..0] == [];
  }

  /// Both presses are in the queue when the machine ticks.
  lemma PairDrains(a: nat, b: nat, v: ChordsValue, layer: nat) returns (d: Outcome)
    requires a != b && v.queue == PressesOf(a, b, 1) && v.active == []
    requires v.ticksToIgnore == 0 && v.ticksUntilChange == 0
    ensures d == DrainInputs(PairOnly(a, b), v, layer) && d.value.queue == [] && |d.value.active| == 1
    ensures HoldsOut(d.value.active[0], {a})
  {
    var q := v.queue;
    RealPresses(a, b, 1);
    PressesRead(a, b, 1);
    BothTaken(a, b, 1);
    var (v1, forwarded, seen) := ForwardLeading(v, layer);
    assert q[0..] == q && q[..0] == [];
    assert v1.queue == q && v1.active == [];
    var j := PairIsJudged(a, b, layer, 1, v1.nextCoord);
    assert JudgeQueue(PairOnly(a, b), q, layer, v1.nextCoord) == j;
    assert [] + j.activated == j.activated;
    d := ProcessPresses(PairOnly(a, b), v1, layer, forwarded, seen);
  }

  lemma OneStays(active: seq<ActiveChord>, ks: set<nat>)
    requires |active| == 1 && HoldsOut(active[0], ks)
    ensures Unreleased(active) == active
  {
    assert active[..0] == [] && [] + [active[0]] == active;
  }

  lemma TickKeepsOne(cfg: Config, h: History, layer: nat, d: Outcome, ks: set<nat>) returns (r: History)
    requires |h.lives| == |h.value.active| && d == DrainInputs(cfg, Age(h.value), layer)
    requires |d.value.active| == 1 && HoldsOut(d.value.active[0], ks)
    ensures r == Advance(cfg, h, TickAt(layer))
    ensures r.value.queue == d.value.queue && r.value.active == d.value.active
  {
    r := Advance(cfg, h, TickAt(layer));
    OneStays(d.value.active, ks);
  }

  lemma PairTick(a: nat, b: nat, h: History, layer: nat) returns (r: History)
    requires a != b && |h.lives| == |h.value.active| == 0 && h.value.queue == PressesOf(a, b, 0)
    requires h.value.ticksToIgnore == 0 && h.value.ticksUntilChange == 0
    ensures r == Advance(PairOnly(a, b), h, TickAt(layer))
    ensures r.value.queue == [] && |r.value.active| == 1 && HoldsOut(r.value.active[0], {a})
  {
    var v := Age(h.value);
    assert v.queue == PressesOf(a, b, 1) && v.active == [];
    var d := PairDrains(a, b, v, layer);
    r := TickKeepsOne(PairOnly(a, b), h, layer, d, {a});
  }

  function BothArrive(a: nat, b: nat): (es: seq<Event>)
  {
    [Press(Coord(0, a)), Press(Coord(0, b))]
  }

  lemma PairArrives(a: nat, b: nat) returns (r: History)
    ensures r == Run(PairOnly(a, b), Beginning(PairOnly(a, b)), Pushes(BothArrive(a, b)))
    ensures r.value == Initial(PairOnly(a, b)).(queue := PressesOf(a, b, 0)) && |r.lives| == 0
  {
    var es := BothArrive(a, b);
    PushesQueue(PairOnly(a, b), Beginning(PairOnly(a, b)), es);
    r := Arrived(Beginning(PairOnly(a, b)), es);
    assert r.value.queue == PressesOf(a, b, 0);
  }

  lemma PairStarts(a: nat, b: nat, layer: nat) returns (r: History)
    requires a != b
    ensures r == Run(PairOnly(a, b), Beginning(PairOnly(a, b)), Pushes(BothArrive(a, b)) + [TickAt(layer)])
    ensures r.value.queue == [] && |r.value.active| == 1 && HoldsOut(r.value.active[0], {a})
  {
    var pushed := PairArrives(a, b);
    RunsCompose(PairOnly(a, b), Beginning(PairOnly(a, b)), Pushes(BothArrive(a, b)), [TickAt(layer)]);
    RunOne(PairOnly(a, b), pushed, TickAt(layer));
    r := PairTick(a, b, pushed, layer);
  }

  /// The releases that meet a machine with an empty queue, one more than it has room for.
  lemma FirstFallsOut(cfg: Config, h: History, es: seq<Event>) returns (r: History)
    requires |h.lives| == |h.value.active| && h.value.queue == [] && |es| == QUEUE_SIZE + 1
    ensures r == Run(cfg, h, Pushes(es))
    ensures r.value.active == h.value.active && Events(r.value.queue) == es[1..]
  {
    var n := QUEUE_SIZE;
    var (first, last) := (es[..n], Push(es[n]));
    var full := Arrived(h, first);
    assert Pushes(es) == Pushes(first) + [last];
    RunsCompose(cfg, h, Pushes(first), [last]);
    PushesQueue(cfg, h, first);
    RunOne(cfg, full, last);
    r := Advance(cfg, full, last);
    assert [] + Fresh(first) == Fresh(first);
  }

  lemma {:induction false} ReleasesPutUp(es: seq<Event>, down: set<nat>, k: nat)
    requires forall i :: 0 <= i < |es| ==> es[i].Release?
    ensures k in DownAfterAll(down, Pushes(es)) ==> k in down && ReleaseOf(k) !in es
    decreases |es|
  {
    if es != [] {
      assert Pushes(es)[0] == Push(es[0]) && Pushes(es)[1..] == Pushes(es[1..]) && es == [es[0]] + es[1..];
      ReleasesPutUp(es[1..], DownAfter(down, Push(es[0])), k);
    }
  }

  lemma PairDown(a: nat, b: nat)
    ensures DownAfterAll({}, Pushes(BothArrive(a, b))) == {a, b}
  {
    var es := BothArrive(a, b);
    var p := Pushes(es);
    assert p[1..] == [p[1]] && [p[1]][1..] == [];
    assert DownAfterAll({a}, [p[1]]) == DownAfterAll({a} + {b}, []);
    assert {} + {a} == {a};
    assert DownAfterAll({}, p) == DownAfterAll({a}, [p[1]]);
  }

  /// Thirty-three releases that arrive before the next tick, that of `a` first and that of `b` among
  /// them: nothing is down any more, but the chord never sees the first of them, and it stays active
  /// however long the machine is ticked and read.
  lemma FullQueueKeepsChord(a: nat, b: nat, layer: nat, es: seq<Event>, later: seq<Input>)
    requires a != b && |es| == QUEUE_SIZE + 1 && es[0] == ReleaseOf(a) && ReleaseOf(b) in es
    requires forall i :: 0 <= i < |es| ==> es[i].Release? && (i > 0 ==> es[i].coord.col != a)
    requires Pushless(later)
    ensures DownAfterAll(DownAfterAll({}, Pushes(BothArrive(a, b))), Pushes(es)) == {}
    ensures var started := Run(PairOnly(a, b), Beginning(PairOnly(a, b)), Pushes(BothArrive(a, b)) + [TickAt(layer)]);
            Run(PairOnly(a, b), Run(PairOnly(a, b), started, Pushes(es)), later).value.active != []
  {
    var started := PairStarts(a, b, layer);
    var h := FirstFallsOut(PairOnly(a, b), started, es);
    forall i | 0 <= i < |h.value.queue| ensures h.value.queue[i].event.coord.col != a {
      assert Events(h.value.queue)[i] == es[i + 1];
    }
    assert HoldsOut(h.value.active[0], {a});
    var r := StuckForEver(PairOnly(a, b), h, later, {a});
    PairDown(a, b);
    forall k ensures k !in DownAfterAll({a, b}, Pushes(es)) {
      ReleasesPutUp(es, {a, b}, k);
    }
  }

  // ---------------------------------------------------------------------------------------
  // A chord started twice

  function PressedAndReleased(a: nat, b: nat, since: u16): (q: seq<Queued>)
  {
    PressesOf(a, b, since) + [Queued(Release(Coord(0, a)), since)]
  }

  lemma ReleaseFound(a: nat, b: nat, since: u16)
    ensures ReadAs(PressedAndReleased(a, b, since), BothPressed(a, b, since), true)
  {
    var q := PressedAndReleased(a, b, since);
    var first, both := [PressAt(a, since)], BothPressed(a, b, since);
    PressesNext(q, 0, []);
    PressesNext(q, 1, first);
    PressesNext(q, 2, both);
    assert q[0..] == q && [] + first == first && first + [PressAt(b, since)] == both;
    assert both[0].key == a && Pressed(both, a);
    PressesAreRead(q);
  }

  lemma AllAreLeft(a: nat, b: nat, since: u16)
    ensures var q := PressedAndReleased(a, b, since);
            Picks(q, FrontPart(q), q)
  {
    var q := PressedAndReleased(a, b, since);
    forall j: nat ensures j in FrontPart(q) <==> j < |q| {
      assert Real(q[0].event) && q[0].event.Press?;
    }
    PicksAll(q, FrontPart(q));
  }

  lemma PairIsAlone(a: nat, b: nat, since: u16, layer: nat)
    requires a != b
    ensures var (cs, ps) := ([Pair(a, b)], BothPressed(a, b, since));
            LooksAt(cs, ps, layer, 2) && Alone(cs, ps, layer, 0) && Becomes(cs, ps, layer, since, true, 2, 2, 0)
  {
    var (cs, ps) := ([Pair(a, b)], BothPressed(a, b, since));
    var c := cs[0];
    assert KeySet(c.keys) == {a, b} by {
      assert c.keys[0] == a && c.keys[1] == b;
    }
    assert ps[0].key == a && ps[1].key == b;
    assert Typed(ps) == {a, b} && Typed(ps[..1]) == {a};
    assert Possible(c, ps, layer) && Possible(c, ps[..1], layer);
    assert Candidates(cs, ps, layer) == {0} && Candidates(cs, ps[..1], layer) == {0};
    assert ps[..2] == ps;
  }

  lemma TwoAreStarted(started: seq<ActiveChord>, c: Chord, since: u16, next: nat)
    requires |started| == 2 && AllStarted(started, [c], 0, since, true) && InTurn(started, next)
    ensures started[0].action == started[1].action == c.action && started[0].coordinate != started[1].coordinate
  {
    assert started[0] in started && started[1] in started;
  }

  /// A lone candidate is started twice in a tick that finds a release.
  lemma ReleasedStartsTwice(cfg: Config, v: ChordsValue, layer: nat, q: seq<Queued>, ps: seq<PressAt>, cs: seq<Chord>, i: nat)
    returns (t: TickResult)
    requires ValidConfig(cfg) && Evaluates(v, layer) && Reads(v, q, ps, true) && ps != []
    requires ps[0].key in cfg.chords && cs == cfg.chords[ps[0].key]
    requires LooksAt(cs, ps, layer, |ps|) && Alone(cs, ps, layer, i)
    ensures t == Tick(cfg, v, layer)
    ensures |t.drained.started| == 2 && Starts(t, q, cs, i, ps[0].since, true)
  {
    t := Tick(cfg, v, layer);
    assert ps[..|ps|] == ps;
    ChordIsStarted(cfg, v, layer, q, ps, true, |ps|, |ps|, i);
  }

  lemma PairOnlyIsValid(a: nat, b: nat)
    ensures ValidConfig(PairOnly(a, b))
  {
    var cfg := PairOnly(a, b);
    assert Pair(a, b).keys[0] == a && Pair(a, b).keys[1] == b;
    forall k, i | k in cfg.chords && 0 <= i < |cfg.chords[k]| ensures k in cfg.chords[k][i].keys {
      assert cfg.chords[k][i] == Pair(a, b);
    }
  }

  lemma PairTickStarts(a: nat, b: nat, cfg: Config, v: ChordsValue, layer: nat, since: u16) returns (t: TickResult)
    requires a != b && cfg == PairOnly(a, b)
    requires TickAll(v.queue) == PressedAndReleased(a, b, since) && Evaluates(v, layer)
    ensures t == Tick(cfg, v, layer)
    ensures |t.drained.started| == 2 && Starts(t, PressedAndReleased(a, b, since), [Pair(a, b)], 0, since, true)
  {
    PairOnlyIsValid(a, b);
    AllAreLeft(a, b, since);
    ReleaseFound(a, b, since);
    PairIsAlone(a, b, since, layer);
    t := ReleasedStartsTwice(cfg, v, layer, PressedAndReleased(a, b, since), BothPressed(a, b, since), [Pair(a, b)], 0);
  }

  /// Both keys of the only chord there is are pressed and one of them is released between two ticks: the
  /// chord is started twice, and its action is handed out twice.
  lemma PairStartsTwice(a: nat, b: nat, layer: nat) returns (t: TickResult)
    requires a != b
    ensures t == Tick(PairOnly(a, b), Initial(PairOnly(a, b)).(queue := PressedAndReleased(a, b, 0)), layer)
    ensures |t.drained.started| == 2 && t.drained.started[0].action == t.drained.started[1].action == 7
    ensures t.drained.started[0].coordinate != t.drained.started[1].coordinate
    ensures t.value.queue == [Queued(Release(Coord(0, a)), 1)]
  {
    var v := Initial(PairOnly(a, b)).(queue := PressedAndReleased(a, b, 0));
    assert TickAll(v.queue) == PressedAndReleased(a, b, 1);
    t := PairTickStarts(a, b, PairOnly(a, b), v, layer, 1);
    TwoAreStarted(t.drained.started, Pair(a, b), 1, t.value.nextCoord);
    ReleaseIsLeft(a, b, t.value.queue);
  }

  lemma ReleaseIsLeft(a: nat, b: nat, r: seq<Queued>)
    requires var q := PressedAndReleased(a, b, 1);
             Picks(q, OtherThan(q, KeySet([a, b])), r)
    ensures r == [Queued(Release(Coord(0, a)), 1)]
  {
    var q := PressedAndReleased(a, b, 1);
    var keep := OtherThan(q, KeySet([a, b]));
    assert [a, b][0] == a && [a, b][1] == b;
    assert keep == {2};
    PicksNone(q);
    PicksNext(q, 2, {}, [], true);
    assert {} + {2} == keep && [] + [q[2]] == [q[2]];
    PicksOnce(q, keep, r, [q[2]]);
  }
}
