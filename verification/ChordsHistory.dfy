/// What every run of the chords v2 machine keeps: where each event has gone, that real events stay in
/// order, and that every activation is read once and then released once (keyberon/src/chord.rs).

module ChordsHistory {
  import opened Types
  import opened ChordsModel

  // ---------------------------------------------------------------------------------------
  // Activated chords are exactly the presses taken

  /// `a` comes from an enabled chord whose participants are the keys of `taken`.
  ghost predicate MadeOf(a: ActiveChord, possible: seq<Chord>, taken: seq<PressAt>, layer: nat, since: u16, released: bool)
  {
    exists c :: c in possible && Enabled(c, layer) && SameKeys(c, taken) && a == Activate(c, since, a.coordinate, released)
  }

  ghost predicate Sound(v: Verdict, possible: seq<Chord>, ps: seq<PressAt>, layer: nat, since: u16, released: bool)
  {
    && v.taken <= ps
    && (forall c :: c in v.candidates ==> c in possible && Enabled(c, layer))
    && (forall a :: a in v.activated ==> MadeOf(a, possible, v.taken, layer, since, released))
  }

  lemma ActivatedIsMadeOf(c: Chord, possible: seq<Chord>, taken: seq<PressAt>, layer: nat, since: u16, coord: nat, released: bool)
    requires c in possible && Enabled(c, layer) && SameKeys(c, taken)
    ensures MadeOf(Activate(c, since, coord, released), possible, taken, layer, since, released)
  {
  }

  lemma CompleteIsSound(cs: seq<Chord>, v: Verdict, possible: seq<Chord>, ps: seq<PressAt>, layer: nat, since: u16, released: bool)
    requires v.taken <= ps && v.activated == []
    requires forall c :: c in cs || c in v.candidates ==> c in possible
    requires forall c :: c in v.candidates ==> Enabled(c, layer)
    ensures Sound(Complete(cs, v, layer, since, released), possible, ps, layer, since, released)
  {
    var exact := Exact(cs, v.taken, layer);
    if exact.Some? {
      ActivatedIsMadeOf(exact.value, possible, v.taken, layer, since, v.nextCoord, released);
    }
  }

  lemma StartedIsSound(v: Verdict, c: Chord, possible: seq<Chord>, ps: seq<PressAt>, layer: nat, since: u16, released: bool)
    requires v.taken <= ps && v.activated == [] && c in v.candidates && SameKeys(c, v.taken)
    requires forall d :: d in v.candidates ==> d in possible && Enabled(d, layer)
    ensures Sound(Started(v, c, since, released), possible, ps, layer, since, released)
  {
    ActivatedIsMadeOf(c, possible, v.taken, layer, since, v.nextCoord, released);
  }

  lemma {:induction false} ScanIsSound(possible: seq<Chord>, ps: seq<PressAt>, m: nat, layer: nat, since: u16, released: bool, v: Verdict)
    returns (r: Verdict)
    requires m <= |ps| && v.taken <= ps && v.activated == []
    requires forall c :: c in v.candidates ==> c in possible && Enabled(c, layer)
    ensures r == Scan(possible, ps, m, layer, since, released, v)
    ensures Sound(r, possible, ps, layer, since, released)
    decreases |ps| - m
  {
    if m == |ps| {
      r := v;
      return;
    }
    var taken := ps[..m + 1];
    var fitting := Fitting(possible, taken, layer);
    FittingMembers(possible, taken, layer);
    var v1 := v.(taken := taken, candidates := fitting);
    if |fitting| == 0 {
      var back := v1.(taken := ps[..m]);
      r := Complete(possible, back, layer, since, released);
      CompleteIsSound(possible, back, possible, ps, layer, since, released);
    } else if |fitting| == 1 && SameKeys(fitting[0], taken) {
      r := Started(v1, fitting[0], since, released);
      StartedIsSound(v1, fitting[0], possible, ps, layer, since, released);
    } else {
      var coord := if |fitting| == 1 then AdvanceCoord(v.nextCoord) else v.nextCoord;
      var wait := WaitFor(MinTimeout(fitting, since), since);
      r := ScanIsSound(possible, ps, m + 1, layer, since, released, v1.(wait := wait, nextCoord := coord));
    }
  }

  lemma ConcludeIsSound(possible: seq<Chord>, ps: seq<PressAt>, layer: nat, since: u16, released: bool, v: Verdict)
    requires Sound(v, possible, ps, layer, since, released)
    ensures Sound(Conclude(possible, layer, since, released, v), possible, ps, layer, since, released)
  {
    var exact := Exact(if |v.candidates| >= SMOL_Q_LEN then possible else v.candidates, v.taken, layer);
    if exact.Some? {
      ActivatedIsMadeOf(exact.value, possible, v.taken, layer, since, v.nextCoord, released);
    }
  }

  lemma JudgeIsSound(possible: seq<Chord>, ps: seq<PressAt>, layer: nat, since: u16, released: bool, nextCoord: nat)
    ensures Sound(Judge(possible, ps, layer, since, released, nextCoord), possible, ps, layer, since, released)
  {
    var scanned := ScanIsSound(possible, ps, 0, layer, since, released, Verdict([], [], [], false, 0, nextCoord));
    ConcludeIsSound(possible, ps, layer, since, released, scanned);
  }

  lemma {:induction false} PressesAreQueued(q: seq<Queued>, seen: seq<PressAt>)
    ensures var ps := Presses(q, seen).0;
            && seen <= ps
            && (seen == [] && q != [] && q[0].event.Press? ==> ps != [] && ps[0] == PressAt(q[0].event.coord.col, q[0].since))
            && (forall i :: |seen| <= i < |ps| ==>
                  exists j :: 0 <= j < |q| && q[j].event.Press? && q[j].event.coord.col == ps[i].key)
    decreases |q|
  {
    if q != [] && (q[0].event.Press? || !Pressed(seen, q[0].event.coord.col)) {
      var next := if q[0].event.Press? && |seen| < SMOL_Q_LEN then seen + [PressAt(q[0].event.coord.col, q[0].since)] else seen;
      PressesAreQueued(q[1..], next);
      var ps := Presses(q, seen).0;
      forall i | |seen| <= i < |ps| ensures exists j :: 0 <= j < |q| && q[j].event.Press? && q[j].event.coord.col == ps[i].key {
        if i >= |next| {
          var j :| 0 <= j < |q[1..]| && q[1..][j].event.Press? && q[1..][j].event.coord.col == ps[i].key;
          assert q[j + 1].event.Press?;
        }
      }
    }
  }

  // ---------------------------------------------------------------------------------------
  // One tick

  ghost function Keys(q: seq<Queued>): set<nat>
  {
    set i | 0 <= i < |q| :: q[i].event.coord.col
  }

  ghost function KeySet(ks: seq<nat>): set<nat>
  {
    set k | k in ks
  }

  // ---------------------------------------------------------------------------------------
  // No event is lost or doubled

  /// How often an event occurs in a queue.
  ghost function Count(q: seq<Queued>, e: Event): (n: nat)
  {
    if q == [] then 0
    else Count(q[..|q| - 1], e) + if q[|q| - 1].event == e then 1 else 0
  }

  lemma CountSnoc(q: seq<Queued>, x: Queued, e: Event)
    ensures Count(q + [x], e) == Count(q, e) + if x.event == e then 1 else 0
  {
    assert (q + [x])[..|q|] == q;
  }

  lemma {:induction false} CountAppend(a: seq<Queued>, b: seq<Queued>, e: Event)
    ensures Count(a + b, e) == Count(a, e) + Count(b, e)
    decreases |b|
  {
    if b == [] {
      assert a + b == a;
    } else {
      var n := |b| - 1;
      CountAppend(a, b[..n], e);
      CountSnoc(a + b[..n], b[n], e);
      assert a + b == (a + b[..n]) + [b[n]];
    }
  }

  lemma {:induction false} CountTicked(q: seq<Queued>, e: Event)
    ensures Count(TickAll(q), e) == Count(q, e)
    decreases |q|
  {
    if q != [] {
      var n := |q| - 1;
      assert TickAll(q)[..n] == TickAll(q[..n]);
      CountTicked(q[..n], e);
    }
  }

  lemma {:induction false} TakenSplits(q: seq<Queued>, taken: seq<PressAt>, e: Event)
    ensures Count(q, e) == Count(Taken(q, taken), e) + Count(Unconsumed(q, taken), e)
    decreases |q|
  {
    if q != [] {
      var n := |q| - 1;
      TakenSplits(q[..n], taken, e);
      var (t, u) := (Taken(q[..n], taken), Unconsumed(q[..n], taken));
      CountSnoc(t, q[n], e);
      CountSnoc(u, q[n], e);
    }
  }

  lemma {:induction false} RealsSplit(q: seq<Queued>, e: Event)
    ensures Count(q, e) == Count(RealOnly(q), e) + Count(VirtualOnly(q), e)
    decreases |q|
  {
    if q != [] {
      var n := |q| - 1;
      RealsSplit(q[..n], e);
      var (t, u) := (RealOnly(q[..n]), VirtualOnly(q[..n]));
      CountSnoc(t, q[n], e);
      CountSnoc(u, q[n], e);
    }
  }

  lemma LeadingSplits(v: ChordsValue, layer: nat, e: Event)
    ensures var (v1, forwarded, seen) := ForwardLeading(v, layer);
            Count(v.queue, e) == Count(forwarded, e) + Count(v1.queue, e)
  {
    var (reals, virtuals) := (RealOnly(v.queue), VirtualOnly(v.queue));
    var n := LeadingReleases(reals);
    RealsSplit(v.queue, e);
    CountAppend(virtuals, reals[..n], e);
    CountAppend(reals[..n], reals[n..], e);
    assert reals == reals[..n] + reals[n..];
  }

  /// Conservation: every queued event is forwarded, consumed or still queued, exactly once.
  lemma DrainingConserves(cfg: Config, v: ChordsValue, layer: nat, e: Event)
    ensures var d := DrainInputs(cfg, v, layer);
            Count(v.queue, e) == Count(d.forwarded, e) + Count(d.consumed, e) + Count(d.value.queue, e)
  {
    if v.ticksToIgnore == 0 && !MaySkip(v, layer) {
      var (v1, forwarded, seen) := ForwardLeading(v, layer);
      LeadingSplits(v, layer, e);
      ProcessingSplits(cfg, v1, layer, forwarded, seen, e);
    }
  }

  lemma ProcessingSplits(cfg: Config, v: ChordsValue, layer: nat, forwarded: seq<Queued>, seen: seq<Queued>, e: Event)
    ensures var d := ProcessPresses(cfg, v, layer, forwarded, seen);
            Count(v.queue, e) == Count(d.consumed, e) + Count(d.value.queue, e) && d.forwarded == forwarded
  {
    TakenSplits(v.queue, JudgeQueue(cfg, v.queue, layer, v.nextCoord).taken, e);
  }

  lemma TickConservesEvents(cfg: Config, v: ChordsValue, layer: nat, e: Event)
    ensures var r := Tick(cfg, v, layer);
            Count(v.queue, e) == Count(r.drained.forwarded, e) + Count(r.drained.consumed, e) + Count(r.value.queue, e)
  {
    CountTicked(v.queue, e);
    DrainingConserves(cfg, Age(v), layer, e);
  }

  /// `a` is a configured chord that is enabled on the layer.
  ghost predicate Configured(cfg: Config, a: ActiveChord, layer: nat)
  {
    exists k, i :: k in cfg.chords && 0 <= i < |cfg.chords[k]| && Enabled(cfg.chords[k][i], layer)
      && a.keys == cfg.chords[k][i].keys && a.action == cfg.chords[k][i].action
  }

  /// A tick consumes presses only by activating a chord; every chord it activates is enabled on
  /// the layer and made of exactly the keys consumed.
  lemma TickActivatesWhatItConsumes(cfg: Config, v: ChordsValue, layer: nat)
    requires ValidConfig(cfg)
    ensures ActivatesWhatItConsumes(cfg, layer, Tick(cfg, v, layer).drained)
  {
    var (v1, forwarded, seen) := ForwardLeading(Age(v), layer);
    ProcessingActivatesWhatItConsumes(cfg, v1, layer, forwarded, seen);
  }

  ghost predicate ActivatesWhatItConsumes(cfg: Config, layer: nat, d: Outcome)
  {
    && (forall x :: x in d.consumed ==> x.event.Press?)
    && (d.consumed != [] <==> d.started != [])
    && forall a :: a in d.started ==> KeySet(a.keys) == Keys(d.consumed) && Configured(cfg, a, layer)
  }

  lemma ProcessingActivatesWhatItConsumes(cfg: Config, v: ChordsValue, layer: nat, forwarded: seq<Queued>, seen: seq<Queued>)
    requires ValidConfig(cfg)
    ensures ActivatesWhatItConsumes(cfg, layer, ProcessPresses(cfg, v, layer, forwarded, seen))
  {
    var d := ProcessPresses(cfg, v, layer, forwarded, seen);
    var taken := JudgeQueue(cfg, v.queue, layer, v.nextCoord).taken;
    forall x ensures x in d.consumed ==> x.event.Press? {
      TakenMembers(v.queue, taken, x);
    }
    if d.started != [] {
      forall a | a in d.started ensures KeySet(a.keys) == Keys(d.consumed) && Configured(cfg, a, layer) && d.consumed != [] {
        var c := StartedFrom(cfg, v, layer, a);
        ConsumedKeys(v.queue, Presses(v.queue, []).0, taken, c);
        assert Keys([]) == {};
      }
      assert d.started[0] in d.started;
    }
  }

  /// The configured chord behind a chord that is started.
  lemma StartedFrom(cfg: Config, v: ChordsValue, layer: nat, a: ActiveChord) returns (c: Chord)
    requires ValidConfig(cfg) && a in JudgeQueue(cfg, v.queue, layer, v.nextCoord).activated
    ensures var (ps, released) := Presses(v.queue, []);
            var taken := JudgeQueue(cfg, v.queue, layer, v.nextCoord).taken;
            && v.queue != [] && taken <= ps && SameKeys(c, taken) && c.keys != []
            && a == Activate(c, v.queue[0].since, a.coordinate, released)
            && Configured(cfg, a, layer)
  {
    var (ps, released) := Presses(v.queue, []);
    var possible, since := cfg.chords[ps[0].key], v.queue[0].since;
    var taken := JudgeQueue(cfg, v.queue, layer, v.nextCoord).taken;
    JudgeIsSound(possible, ps, layer, since, released, v.nextCoord);
    c :| c in possible && Enabled(c, layer) && SameKeys(c, taken) && a == Activate(c, since, a.coordinate, released);
    var i :| 0 <= i < |possible| && possible[i] == c;
    assert ps[0].key in c.keys;
  }

  lemma {:induction false} TakenMembers(q: seq<Queued>, taken: seq<PressAt>, x: Queued)
    ensures x in Taken(q, taken) <==> x in q && Consumed(x, taken)
    decreases |q|
  {
    if q != [] {
      var n := |q| - 1;
      assert q == q[..n] + [q[n]];
      TakenMembers(q[..n], taken, x);
    }
  }

  /// The presses consumed have exactly the keys of the chord.
  lemma ConsumedKeys(q: seq<Queued>, ps: seq<PressAt>, taken: seq<PressAt>, c: Chord)
    requires ps == Presses(q, []).0 && taken <= ps && SameKeys(c, taken) && c.keys != []
    ensures Keys(Taken(q, taken)) == KeySet(c.keys) && KeySet(c.keys) != {}
  {
    PressesAreQueued(q, []);
    var consumed := Taken(q, taken);
    forall k | k in Keys(consumed) ensures k in KeySet(c.keys) {
      var i :| 0 <= i < |consumed| && consumed[i].event.coord.col == k;
      TakenMembers(q, taken, consumed[i]);
      var t :| 0 <= t < |taken| && taken[t].key == k;
    }
    forall k | k in KeySet(c.keys) ensures k in Keys(consumed) {
      var i :| 0 <= i < |c.keys| && c.keys[i] == k;
      var t :| 0 <= t < |taken| && taken[t].key == k;
      var j :| 0 <= j < |q| && q[j].event.Press? && q[j].event.coord.col == ps[t].key;
      TakenMembers(q, taken, q[j]);
      var m :| 0 <= m < |consumed| && consumed[m] == q[j];
    }
    assert c.keys[0] in KeySet(c.keys);
  }

  // ---------------------------------------------------------------------------------------
  // Real events stay in order

  /// `a` is `b` with some elements left out.
  ghost predicate Thinned(a: seq<Event>, b: seq<Event>)
    decreases |b|
  {
    if b == [] then a == []
    else
      || Thinned(a, b[..|b| - 1])
      || (a != [] && a[|a| - 1] == b[|b| - 1] && Thinned(a[..|a| - 1], b[..|b| - 1]))
  }

  lemma {:induction false} ThinnedSelf(a: seq<Event>)
    ensures Thinned(a, a)
    decreases |a|
  {
    if a != [] {
      ThinnedSelf(a[..|a| - 1]);
    }
  }

  lemma {:induction false} ThinnedChain(a: seq<Event>, b: seq<Event>, c: seq<Event>)
    requires Thinned(a, b) && Thinned(b, c)
    ensures Thinned(a, c)
    decreases |c|
  {
    if c != [] {
      var c1 := c[..|c| - 1];
      if Thinned(b, c1) {
        ThinnedChain(a, b, c1);
      } else {
        var b1 := b[..|b| - 1];
        if Thinned(a, b1) {
          ThinnedChain(a, b1, c1);
        } else {
          ThinnedChain(a[..|a| - 1], b1, c1);
        }
      }
    }
  }

  lemma {:induction false} ThinnedBehind(p: seq<Event>, a: seq<Event>, b: seq<Event>)
    requires Thinned(a, b)
    ensures Thinned(p + a, p + b)
    decreases |b|
  {
    if b == [] {
      assert p + a == p && p + b == p;
      ThinnedSelf(p);
    } else {
      var b1 := b[..|b| - 1];
      assert (p + b)[..|p + b| - 1] == p + b1;
      if Thinned(a, b1) {
        ThinnedBehind(p, a, b1);
      } else {
        assert (p + a)[..|p + a| - 1] == p + a[..|a| - 1];
        ThinnedBehind(p, a[..|a| - 1], b1);
      }
    }
  }

  lemma ThinnedSnoc(a: seq<Event>, b: seq<Event>, e: Event)
    requires Thinned(a, b)
    ensures Thinned(a + [e], b + [e]) && Thinned(a, b + [e])
  {
    assert (a + [e])[..|a|] == a && (b + [e])[..|b|] == b;
  }

  function Events(q: seq<Queued>): (r: seq<Event>)
    ensures |r| == |q|
    ensures forall i :: 0 <= i < |q| ==> r[i] == q[i].event
  {
    seq(|q|, i requires 0 <= i < |q| => q[i].event)
  }

  ghost function Reals(q: seq<Queued>): seq<Event>
  {
    Events(RealOnly(q))
  }

  lemma {:induction false} UnconsumedThinned(q: seq<Queued>, taken: seq<PressAt>)
    ensures Thinned(Reals(Unconsumed(q, taken)), Reals(q))
    decreases |q|
  {
    if q != [] {
      var n := |q| - 1;
      UnconsumedThinned(q[..n], taken);
      var u := Unconsumed(q[..n], taken);
      RealsSnoc(q[..n], q[n]);
      RealsSnoc(u, q[n]);
      assert q == q[..n] + [q[n]];
      if Real(q[n].event) {
        ThinnedSnoc(Reals(u), Reals(q[..n]), q[n].event);
      } else {
        assert Reals(q) == Reals(q[..n]) && Reals(Unconsumed(q, taken)) == Reals(u);
      }
    }
  }

  lemma RealsSnoc(q: seq<Queued>, x: Queued)
    ensures Reals(q + [x]) == Reals(q) + if Real(x.event) then [x.event] else []
  {
    assert (q + [x])[..|q|] == q;
  }

  lemma {:induction false} RealsAppend(a: seq<Queued>, b: seq<Queued>)
    ensures Reals(a + b) == Reals(a) + Reals(b)
    decreases |b|
  {
    if b == [] {
      assert a + b == a;
    } else {
      var n := |b| - 1;
      assert b == b[..n] + [b[n]] && a + b == (a + b[..n]) + [b[n]];
      RealsAppend(a, b[..n]);
      RealsSnoc(a + b[..n], b[n]);
      RealsSnoc(b[..n], b[n]);
    }
  }

  lemma {:induction false} RealsTwice(q: seq<Queued>)
    ensures Reals(RealOnly(q)) == Reals(q)
    decreases |q|
  {
    if q != [] {
      var n := |q| - 1;
      RealsTwice(q[..n]);
      RealsSnoc(RealOnly(q[..n]), q[n]);
      RealsSnoc(q[..n], q[n]);
      assert q == q[..n] + [q[n]];
    }
  }

  lemma {:induction false} RealsOfTicked(q: seq<Queued>)
    ensures Reals(TickAll(q)) == Reals(q)
    decreases |q|
  {
    if q != [] {
      var n := |q| - 1;
      assert TickAll(q)[..n] == TickAll(q[..n]);
      RealsOfTicked(q[..n]);
      RealsSnoc(q[..n], q[n]);
      RealsSnoc(TickAll(q[..n]), TickAll(q)[n]);
      assert q == q[..n] + [q[n]] && TickAll(q) == TickAll(q[..n]) + [TickAll(q)[n]];
    }
  }

  lemma {:induction false} NoReals(q: seq<Queued>)
    requires forall i :: 0 <= i < |q| ==> !Real(q[i].event)
    ensures RealOnly(q) == []
    decreases |q|
  {
    if q != [] {
      NoReals(q[..|q| - 1]);
    }
  }

  lemma {:induction false} SplitIsPure(q: seq<Queued>)
    ensures forall i :: 0 <= i < |RealOnly(q)| ==> Real(RealOnly(q)[i].event)
    ensures forall i :: 0 <= i < |VirtualOnly(q)| ==> !Real(VirtualOnly(q)[i].event)
    decreases |q|
  {
    if q != [] {
      SplitIsPure(q[..|q| - 1]);
    }
  }

  lemma LeadingKeepsOrder(v: ChordsValue, layer: nat)
    ensures var (v1, forwarded, seen) := ForwardLeading(v, layer);
            Reals(forwarded) + Reals(v1.queue) == Reals(v.queue)
  {
    var (reals, virtuals) := (RealOnly(v.queue), VirtualOnly(v.queue));
    var n := LeadingReleases(reals);
    var (first, rest) := (reals[..n], reals[n..]);
    assert reals == first + rest;
    SplitIsPure(v.queue);
    NoReals(virtuals);
    RealsTwice(v.queue);
    RealsAppend(virtuals, first);
    RealsAppend(first, rest);
    assert [] + Reals(first) == Reals(first);
  }

  /// A tick forwards the oldest real events, and what stays queued keeps its order.
  lemma DrainingKeepsOrder(cfg: Config, v: ChordsValue, layer: nat)
    ensures var d := DrainInputs(cfg, v, layer);
            Thinned(Reals(d.forwarded) + Reals(d.value.queue), Reals(v.queue))
  {
    var d := DrainInputs(cfg, v, layer);
    ThinnedSelf(Reals(v.queue));
    if v.ticksToIgnore > 0 {
      assert Reals(d.forwarded) + Reals([]) == Reals(v.queue);
    } else if MaySkip(v, layer) {
      assert Reals([]) + Reals(v.queue) == Reals(v.queue);
    } else {
      var (v1, forwarded, seen) := ForwardLeading(v, layer);
      LeadingKeepsOrder(v, layer);
      var taken := JudgeQueue(cfg, v1.queue, layer, v1.nextCoord).taken;
      UnconsumedThinned(v1.queue, taken);
      ThinnedBehind(Reals(forwarded), Reals(Unconsumed(v1.queue, taken)), Reals(v1.queue));
    }
  }

  // ---------------------------------------------------------------------------------------
  // Sixteen places for what a tick hands over

  /// The events in the output of a tick that did not come from chords.
  ghost function HandedOver(t: TickResult): seq<Queued>
  {
    var own := |t.triggers| + |t.releases|;
    if own <= |t.Output()| then t.Output()[..|t.Output()| - own] else []
  }

  /// The forwarded events that the output has no room for.
  ghost function Lost(t: TickResult): seq<Queued>
  {
    if |HandedOver(t)| <= |t.drained.forwarded| then t.drained.forwarded[..|t.drained.forwarded| - |HandedOver(t)|] else []
  }

  /// Everything that a tick has to hand over.
  ghost function Total(t: TickResult): nat
  {
    |t.drained.forwarded| + |t.triggers| + |t.releases|
  }

  /// Events `f` and behind them `own`, cut to the last sixteen.
  lemma RingCutsFirst(f: seq<Queued>, own: seq<Queued>)
    ensures |own| <= SMOL_Q_LEN ==> Ring(f + own) == (if |f| + |own| <= SMOL_Q_LEN then f else f[|f| + |own| - SMOL_Q_LEN..]) + own
  {
    if |own| <= SMOL_Q_LEN < |f + own| {
      var n := |f + own| - SMOL_Q_LEN;
      assert (f + own)[n..] == f[n..] + own;
    }
  }

  /// The oldest of the forwarded events are lost, and none of them if and only if all fit.
  lemma OldestAreLost(t: TickResult)
    ensures t.drained.forwarded == Lost(t) + HandedOver(t)
    ensures Lost(t) != [] <==> t.drained.forwarded != [] && Total(t) > SMOL_Q_LEN
    ensures |t.triggers| + |t.releases| <= SMOL_Q_LEN ==> t.Output() == HandedOver(t) + (t.triggers + t.releases)
  {
    var f, own := t.drained.forwarded, t.triggers + t.releases;
    assert f + t.triggers + t.releases == f + own;
    RingCutsFirst(f, own);
    if |own| <= SMOL_Q_LEN {
      var kept := if |f| + |own| <= SMOL_Q_LEN then f else f[|f| + |own| - SMOL_Q_LEN..];
      assert (kept + own)[..|kept|] == kept;
      assert HandedOver(t) == kept;
    }
  }

  ghost predicate AnyReleased(active: seq<ActiveChord>)
  {
    exists i :: 0 <= i < |active| && IsReleased(active[i].status)
  }

  /// How many events a tick forwards, seen on the machine before it.
  ghost function ForwardCount(v: ChordsValue, layer: nat): nat
  {
    if v.ticksToIgnore > 0 then |v.queue|
    else if MaySkip(v, layer) then 0
    else |VirtualOnly(v.queue)| + LeadingReleases(RealOnly(v.queue))
  }

  lemma ForwardsCount(cfg: Config, v: ChordsValue, layer: nat)
    ensures |DrainInputs(cfg, v, layer).forwarded| == ForwardCount(v, layer)
  {
  }

  /// The verdict that draining reaches, seen on the machine before it.
  ghost function WillJudge(cfg: Config, v: ChordsValue, layer: nat): Verdict
  {
    if v.ticksToIgnore > 0 || MaySkip(v, layer) then Verdict([], [], [], false, 0, v.nextCoord)
    else JudgeQueue(cfg, ForwardLeading(v, layer).0.queue, layer, v.nextCoord)
  }

  /// The active chords when they have seen the releases that draining forwards.
  ghost function WillBe(v: ChordsValue, layer: nat): seq<ActiveChord>
  {
    if v.ticksToIgnore > 0 then Forward(v.active, v.queue)
    else if MaySkip(v, layer) then v.active
    else Forward(v.active, RealOnly(v.queue)[..LeadingReleases(RealOnly(v.queue))])
  }

  lemma DrainsAsSeen(cfg: Config, v: ChordsValue, layer: nat)
    ensures var d := DrainInputs(cfg, v, layer);
            && |d.forwarded| == ForwardCount(v, layer)
            && d.started == WillJudge(cfg, v, layer).activated
            && d.value.active == WillBe(v, layer) + d.started
            && |WillBe(v, layer)| == |v.active|
  {
    ForwardsCount(cfg, v, layer);
    DrainedActive(cfg, v, layer);
    assert v.active + [] == v.active && WillBe(v, layer) + [] == WillBe(v, layer);
  }

  /// The places that a tick needs in its output, seen on the machine before it: for the events it will
  /// forward, the trigger of a chord it will start, that of a chord released, old or new, and the
  /// releases of the chords that have been read.
  ghost function PlacesNeeded(cfg: Config, v: ChordsValue, layer: nat): nat
  {
    var started := WillJudge(cfg, v, layer).activated;
    ForwardCount(v, layer) + (if started != [] then 1 else 0) +
    (if AnyReleased(WillBe(v, layer)) || AnyReleased(started) then 1 else 0) + |ChordReleases(WillBe(v, layer))|
  }

  lemma AnyReleasedAppend(a: seq<ActiveChord>, b: seq<ActiveChord>)
    ensures AnyReleased(a + b) <==> AnyReleased(a) || AnyReleased(b)
  {
    if AnyReleased(b) {
      var i :| 0 <= i < |b| && IsReleased(b[i].status);
      assert (a + b)[|a| + i] == b[i];
    }
    if AnyReleased(a) {
      var i :| 0 <= i < |a| && IsReleased(a[i].status);
      assert (a + b)[i] == a[i];
    }
  }

  lemma {:induction false} UnreadReleaseNone(active: seq<ActiveChord>, started: seq<ActiveChord>)
    requires forall a :: a in started ==> IsUnread(a.status)
    ensures ChordReleases(active + started) == ChordReleases(active)
    decreases |started|
  {
    if started == [] {
      assert active + started == active;
    } else {
      var n := |started| - 1;
      assert (active + started)[..|active + started| - 1] == active + started[..n];
      assert started[n] in started;
      UnreadReleaseNone(active, started[..n]);
    }
  }

  lemma TotalIsPlaces(cfg: Config, v: ChordsValue, layer: nat)
    requires ValidConfig(cfg)
    ensures Total(Tick(cfg, v, layer)) == PlacesNeeded(cfg, Age(v), layer)
  {
    var v0 := Age(v);
    var d := DrainInputs(cfg, v0, layer);
    DrainsAsSeen(cfg, v0, layer);
    StartedChordsLive(cfg, v0, layer);
    AnyReleasedAppend(WillBe(v0, layer), d.started);
    UnreadReleaseNone(WillBe(v0, layer), d.started);
    assert |Triggers(v.active, d.value.active)| == (if d.started != [] then 1 else 0) + (if AnyReleased(d.value.active) then 1 else 0);
  }

  /// A tick loses an event if and only if there is one to forward and sixteen places are too few for
  /// all that it has to hand over.
  lemma TickLosesIff(cfg: Config, v: ChordsValue, layer: nat)
    requires ValidConfig(cfg)
    ensures Lost(Tick(cfg, v, layer)) != [] <==>
              ForwardCount(Age(v), layer) > 0 && PlacesNeeded(cfg, Age(v), layer) > SMOL_Q_LEN
  {
    OldestAreLost(Tick(cfg, v, layer));
    ForwardsCount(cfg, Age(v), layer);
    TotalIsPlaces(cfg, v, layer);
  }

  /// Few enough events and chords that a tick has room for all it may hand over.
  predicate Roomy(v: ChordsValue)
  {
    |v.queue| + |v.active| + 2 <= SMOL_Q_LEN
  }

  lemma {:induction false} AtMostOneEach(active: seq<ActiveChord>)
    ensures |ChordReleases(active)| <= |active|
    decreases |active|
  {
    if active != [] {
      AtMostOneEach(active[..|active| - 1]);
    }
  }

  lemma RoomyTickLosesNothing(cfg: Config, v: ChordsValue, layer: nat)
    requires ValidConfig(cfg) && Roomy(v)
    ensures Lost(Tick(cfg, v, layer)) == []
  {
    TickLosesIff(cfg, v, layer);
    DrainsAsSeen(cfg, Age(v), layer);
    AtMostOneEach(WillBe(Age(v), layer));
  }

  // ---------------------------------------------------------------------------------------
  // The life of an active chord

  /// The chords at a coordinate, and those among them that the layout has not read yet.
  ghost function At(active: seq<ActiveChord>, c: nat): (n: nat)
  {
    if active == [] then 0
    else At(active[..|active| - 1], c) + if active[|active| - 1].coordinate == c then 1 else 0
  }

  ghost function UnreadAt(active: seq<ActiveChord>, c: nat): (n: nat)
    ensures n <= At(active, c)
  {
    if active == [] then 0
    else
      var a := active[|active| - 1];
      UnreadAt(active[..|active| - 1], c) + if a.coordinate == c && IsUnread(a.status) then 1 else 0
  }

  lemma AtSnoc(active: seq<ActiveChord>, a: ActiveChord, c: nat)
    ensures At(active + [a], c) == At(active, c) + if a.coordinate == c then 1 else 0
    ensures UnreadAt(active + [a], c) == UnreadAt(active, c) + if a.coordinate == c && IsUnread(a.status) then 1 else 0
  {
    assert (active + [a])[..|active|] == active;
  }

  lemma {:induction false} AtAppend(a: seq<ActiveChord>, b: seq<ActiveChord>, c: nat)
    ensures At(a + b, c) == At(a, c) + At(b, c)
    ensures UnreadAt(a + b, c) == UnreadAt(a, c) + UnreadAt(b, c)
    decreases |b|
  {
    if b == [] {
      assert a + b == a;
    } else {
      var n := |b| - 1;
      AtAppend(a, b[..n], c);
      AtSnoc(a + b[..n], b[n], c);
      assert a + b == (a + b[..n]) + [b[n]];
    }
  }

  /// Chords that agree in coordinate and in having been read are counted alike.
  lemma {:induction false} AtAgree(a: seq<ActiveChord>, b: seq<ActiveChord>, c: nat)
    requires |a| == |b|
    requires forall i :: 0 <= i < |a| ==> a[i].coordinate == b[i].coordinate && IsUnread(a[i].status) == IsUnread(b[i].status)
    ensures At(a, c) == At(b, c) && UnreadAt(a, c) == UnreadAt(b, c)
    decreases |a|
  {
    if a != [] {
      AtAgree(a[..|a| - 1], b[..|b| - 1], c);
    }
  }

  lemma {:induction false} AllUnread(active: seq<ActiveChord>, c: nat)
    requires forall a :: a in active ==> IsUnread(a.status)
    ensures UnreadAt(active, c) == At(active, c)
    decreases |active|
  {
    if active != [] {
      assert active[|active| - 1] in active;
      AllUnread(active[..|active| - 1], c);
    }
  }

  lemma {:induction false} ForwardKeepsChords(active: seq<ActiveChord>, q: seq<Queued>)
    ensures var r := Forward(active, q);
            forall i :: 0 <= i < |r| ==>
              && r[i] == active[i].(remaining := r[i].remaining, status := r[i].status)
              && IsUnread(r[i].status) == IsUnread(active[i].status)
    decreases |q|
  {
    if q != [] {
      ForwardKeepsChords(active, q[..|q| - 1]);
    }
  }

  function ReleaseOf(c: nat): Event
  {
    Release(Coord(0, c))
  }

  /// Removing the released chords emits one release for each, and touches no unread chord.
  lemma {:induction false} RemovedAreReleased(active: seq<ActiveChord>, c: nat)
    ensures UnreadAt(Unreleased(active), c) == UnreadAt(active, c)
    ensures At(active, c) == At(Unreleased(active), c) + Count(ChordReleases(active), ReleaseOf(c))
    decreases |active|
  {
    if active != [] {
      var n := |active| - 1;
      var a := active[n];
      RemovedAreReleased(active[..n], c);
      var (u, r) := (Unreleased(active[..n]), ChordReleases(active[..n]));
      if a.status.Released? {
        assert Unreleased(active) == u;
        CountSnoc(r, Queued(ReleaseOf(a.coordinate), 0), ReleaseOf(c));
      } else {
        assert ChordReleases(active) == r;
        AtSnoc(u, a, c);
      }
    }
  }

  lemma {:induction false} ReadMovesOne(active: seq<ActiveChord>, i: nat, c: nat)
    requires i < |active| && IsUnread(active[i].status)
    ensures var after := active[i := active[i].(status := ReadStatus(active[i].status))];
            && At(after, c) == At(active, c)
            && UnreadAt(active, c) == UnreadAt(after, c) + if active[i].coordinate == c then 1 else 0
    decreases |active|
  {
    var n := |active| - 1;
    var after := active[i := active[i].(status := ReadStatus(active[i].status))];
    if i < n {
      ReadMovesOne(active[..n], i, c);
      assert after[..n] == active[..n][i := after[i]];
    } else {
      assert after[..n] == active[..n];
    }
  }

  // ---------------------------------------------------------------------------------------
  // What the layout is told

  /// What the layout is to be told of a chord.
  function Name(a: ActiveChord): (nat, nat)
  {
    (a.coordinate, a.action)
  }

  function Names(active: seq<ActiveChord>): (r: seq<(nat, nat)>)
  {
    seq(|active|, i requires 0 <= i < |active| => Name(active[i]))
  }

  ghost function UnreadNames(active: seq<ActiveChord>): (r: seq<(nat, nat)>)
  {
    if active == [] then [] else
    var n := |active| - 1;
    if IsUnread(active[n].status) then UnreadNames(active[..n]) + [Name(active[n])] else UnreadNames(active[..n])
  }

  lemma UnreadSnoc(active: seq<ActiveChord>, a: ActiveChord)
    ensures UnreadNames(active + [a]) == UnreadNames(active) + if IsUnread(a.status) then [Name(a)] else []
  {
    assert (active + [a])[..|active|] == active;
  }

  lemma {:induction false} UnreadAgree(a: seq<ActiveChord>, b: seq<ActiveChord>)
    requires |a| == |b|
    requires forall i :: 0 <= i < |a| ==> Name(a[i]) == Name(b[i]) && IsUnread(a[i].status) == IsUnread(b[i].status)
    ensures UnreadNames(a) == UnreadNames(b)
    decreases |a|
  {
    if a != [] {
      UnreadAgree(a[..|a| - 1], b[..|b| - 1]);
    }
  }

  lemma {:induction false} StartedUnread(active: seq<ActiveChord>, started: seq<ActiveChord>)
    requires forall a :: a in started ==> IsUnread(a.status)
    ensures UnreadNames(active + started) == UnreadNames(active) + Names(started)
    decreases |started|
  {
    if started == [] {
      assert active + started == active;
    } else {
      var n := |started| - 1;
      assert started[n] in started;
      StartedUnread(active, started[..n]);
      UnreadSnoc(active + started[..n], started[n]);
      assert active + started == (active + started[..n]) + [started[n]];
      assert Names(started) == Names(started[..n]) + [Name(started[n])];
    }
  }

  lemma {:induction false} RemovingKeepsUnread(active: seq<ActiveChord>)
    ensures UnreadNames(Unreleased(active)) == UnreadNames(active)
    decreases |active|
  {
    if active != [] {
      var n := |active| - 1;
      RemovingKeepsUnread(active[..n]);
      UnreadSnoc(Unreleased(active[..n]), active[n]);
    }
  }

  /// Reading hands out the first of the unread chords.
  lemma {:induction false} ReadTakesFirst(active: seq<ActiveChord>, i: nat)
    requires i < |active| && IsUnread(active[i].status)
    requires forall k :: 0 <= k < i ==> !IsUnread(active[k].status)
    ensures var after := active[i := active[i].(status := ReadStatus(active[i].status))];
            UnreadNames(active) == [Name(active[i])] + UnreadNames(after)
    decreases |active|
  {
    var n := |active| - 1;
    var after := active[i := active[i].(status := ReadStatus(active[i].status))];
    if i < n {
      ReadTakesFirst(active[..n], i);
      assert after[..n] == active[..n][i := after[i]];
    } else {
      assert after[..n] == active[..n];
      NoneUnread(active[..n]);
    }
  }

  lemma {:induction false} NoneUnread(active: seq<ActiveChord>)
    requires forall k :: 0 <= k < |active| ==> !IsUnread(active[k].status)
    ensures UnreadNames(active) == []
    decreases |active|
  {
    if active != [] {
      NoneUnread(active[..|active| - 1]);
    }
  }

  /// How a chord was started and the keys whose release has been forwarded since.
  datatype Life = Life(last: bool, early: bool, freed: set<nat>)

  function LifeOf(a: ActiveChord): Life
  {
    Life(a.remaining != [], a.status.UnreadReleased?, {})
  }

  /// A chord that waits for the last release is due when all its keys are free, any other as soon
  /// as one is, or at once when it was started by a release.
  ghost predicate Due(l: Life, keys: seq<nat>)
  {
    if l.last then forall k :: k in keys ==> k in l.freed
    else l.early || exists k :: k in keys && k in l.freed
  }

  ghost predicate LifeInv(a: ActiveChord, l: Life)
  {
    && a.keys != []
    && (l.last ==> forall k :: k in a.remaining <==> k in a.keys && k !in l.freed)
    && (!l.last ==> a.remaining == [])
    && (IsReleased(a.status) <==> Due(l, a.keys))
  }

  ghost function Freed(q: seq<Queued>): (r: set<nat>)
  {
    set i | 0 <= i < |q| && q[i].event.Release? :: q[i].event.coord.col
  }

  lemma EmptyIff(ks: seq<nat>)
    ensures ks == [] <==> forall k :: k !in ks
  {
    if ks != [] {
      assert ks[0] in ks;
    }
  }

  lemma ReleaseKeyLife(a: ActiveChord, l: Life, j: nat)
    requires LifeInv(a, l)
    ensures LifeInv(ReleaseKey(a, j), l.(freed := l.freed + {j}))
  {
    EmptyIff(a.remaining);
    EmptyIff(Except(a.remaining, j));
  }

  lemma {:induction false} ForwardLives(active: seq<ActiveChord>, i: nat, q: seq<Queued>, l: Life)
    requires i < |active| && LifeInv(active[i], l)
    ensures LifeInv(Forward(active, q)[i], l.(freed := l.freed + Freed(q)))
    decreases |q|
  {
    if q == [] {
      assert l.freed + Freed(q) == l.freed;
    } else {
      var n := |q| - 1;
      ForwardLives(active, i, q[..n], l);
      var l1 := l.(freed := l.freed + Freed(q[..n]));
      if q[n].event.Release? {
        assert Freed(q) == Freed(q[..n]) + {q[n].event.coord.col};
        ReleaseKeyLife(Forward(active, q[..n])[i], l1, q[n].event.coord.col);
        assert l1.freed + {q[n].event.coord.col} == l.freed + Freed(q);
      } else {
        assert Freed(q) == Freed(q[..n]);
      }
    }
  }

  lemma StartedLives(c: Chord, since: u16, coord: nat, released: bool)
    requires c.keys != []
    ensures var a := Activate(c, since, coord, released);
            IsUnread(a.status) && LifeInv(a, LifeOf(a))
  {
    assert c.keys[0] in c.keys;
  }

  // ---------------------------------------------------------------------------------------
  // Runs

  datatype Input = Push(event: Event) | TickAt(layer: nat) | ReadAction

  /// The machine with a record of everything that entered and left it. Events that left the queue
  /// without forming a chord are `forwarded`; they are `handed` to the layout, or `lost` on the way.
  datatype History = History(
    value: ChordsValue,
    lives: seq<Life>,
    arrived: seq<Queued>,
    forwarded: seq<Queued>,
    handed: seq<Queued>,
    lost: seq<Queued>,
    consumed: seq<Queued>,
    started: seq<ActiveChord>,
    handedOut: seq<ActiveChord>,
    released: seq<Queued>)

  function Beginning(cfg: Config): History
  {
    History(Initial(cfg), [], [], [], [], [], [], [], [], [])
  }

  ghost function AdvanceLives(lives: seq<Life>, seen: seq<Queued>, started: seq<ActiveChord>): (r: seq<Life>)
    ensures |r| == |lives| + |started|
  {
    seq(|lives|, i requires 0 <= i < |lives| => lives[i].(freed := lives[i].freed + Freed(seen))) +
    seq(|started|, i requires 0 <= i < |started| => LifeOf(started[i]))
  }

  /// The lives of the chords that are not removed.
  ghost function KeptLives(active: seq<ActiveChord>, lives: seq<Life>): (r: seq<Life>)
    requires |active| == |lives|
    ensures |r| == |Unreleased(active)|
  {
    if active == [] then [] else
    var n := |active| - 1;
    if active[n].status.Released? then KeptLives(active[..n], lives[..n]) else KeptLives(active[..n], lives[..n]) + [lives[n]]
  }

  ghost function Advance(cfg: Config, h: History, input: Input): (r: History)
    requires |h.lives| == |h.value.active|
    ensures |r.lives| == |r.value.active|
  {
    match input
    case Push(e) =>
      var (v, overflow) := PushBack(h.value, Queued(e, 0));
      h.(value := v, arrived := h.arrived + [Queued(e, 0)],
         forwarded := if overflow.Some? then h.forwarded + [overflow.value] else h.forwarded,
         handed := if overflow.Some? then h.handed + [overflow.value] else h.handed)
    case TickAt(layer) =>
      var t := Tick(cfg, h.value, layer);
      var lives := AdvanceLives(h.lives, t.drained.seen, t.drained.started);
      DrainedActive(cfg, Age(h.value), layer);
      h.(value := t.value,
         lives := KeptLives(t.drained.value.active, lives),
         forwarded := h.forwarded + t.drained.forwarded,
         handed := h.handed + HandedOver(t),
         lost := h.lost + Lost(t),
         consumed := h.consumed + t.drained.consumed,
         started := h.started + t.drained.started,
         released := h.released + t.releases)
    case ReadAction =>
      var i := OldestUnread(h.value.active);
      h.(value := Read(h.value).0,
         handedOut := if i < |h.value.active| then h.handedOut + [h.value.active[i]] else h.handedOut)
  }

  lemma DrainedActive(cfg: Config, v: ChordsValue, layer: nat)
    ensures var d := DrainInputs(cfg, v, layer);
            d.value.active == Forward(v.active, d.seen) + d.started
  {
    assert Forward(v.active, v.queue) + [] == Forward(v.active, v.queue);
    assert v.active + [] == v.active;
  }

  /// Every event that arrived has been forwarded, consumed or is queued, once.
  ghost predicate Accounted(arrived: seq<Queued>, forwarded: seq<Queued>, consumed: seq<Queued>, queue: seq<Queued>)
  {
    forall e :: Count(arrived, e) == Count(forwarded, e) + Count(consumed, e) + Count(queue, e)
  }

  ghost predicate InOrder(arrived: seq<Queued>, forwarded: seq<Queued>, queue: seq<Queued>)
  {
    Thinned(Reals(forwarded) + Reals(queue), Reals(arrived))
  }

  ghost predicate EventsKept(h: History)
  {
    && Accounted(h.arrived, h.forwarded, h.consumed, h.value.queue)
    && InOrder(h.arrived, h.forwarded, h.value.queue)
  }

  /// Every event forwarded is handed over or lost, once, and the order stays.
  ghost predicate PassedOn(forwarded: seq<Queued>, handed: seq<Queued>, lost: seq<Queued>)
  {
    && (forall e :: Count(forwarded, e) == Count(handed, e) + Count(lost, e))
    && Thinned(Reals(handed), Reals(forwarded))
  }

  /// The chords read are those started, in order, up to the ones still unread.
  ghost predicate ReadInOrder(h: History)
  {
    Names(h.started) == Names(h.handedOut) + UnreadNames(h.value.active)
  }

  /// At each coordinate, the chords read are released or still active.
  ghost predicate ReadThenReleased(h: History)
  {
    forall c :: At(h.handedOut, c) == Count(h.released, ReleaseOf(c)) + At(h.value.active, c) - UnreadAt(h.value.active, c)
  }

  ghost predicate AllLive(active: seq<ActiveChord>, lives: seq<Life>)
  {
    |lives| == |active| && forall i :: 0 <= i < |lives| ==> LifeInv(active[i], lives[i])
  }

  ghost predicate Kept(h: History)
  {
    && EventsKept(h) && PassedOn(h.forwarded, h.handed, h.lost)
    && ReadInOrder(h) && ReadThenReleased(h) && AllLive(h.value.active, h.lives)
  }

  lemma TickKeepsAccounts(cfg: Config, v: ChordsValue, layer: nat, arrived: seq<Queued>, forwarded: seq<Queued>, consumed: seq<Queued>)
    requires Accounted(arrived, forwarded, consumed, v.queue)
    ensures var t := Tick(cfg, v, layer);
            Accounted(arrived, forwarded + t.drained.forwarded, consumed + t.drained.consumed, t.value.queue)
  {
    var t := Tick(cfg, v, layer);
    forall e
      ensures Count(arrived, e)
           == Count(forwarded + t.drained.forwarded, e) + Count(consumed + t.drained.consumed, e) + Count(t.value.queue, e)
    {
      TickConservesEvents(cfg, v, layer, e);
      CountAppend(forwarded, t.drained.forwarded, e);
      CountAppend(consumed, t.drained.consumed, e);
    }
  }

  lemma TickKeepsOrder(cfg: Config, v: ChordsValue, layer: nat, arrived: seq<Queued>, forwarded: seq<Queued>)
    requires InOrder(arrived, forwarded, v.queue)
    ensures var t := Tick(cfg, v, layer);
            InOrder(arrived, forwarded + t.drained.forwarded, t.value.queue)
  {
    RealsOfTicked(v.queue);
    DrainingKeepsOrder(cfg, Age(v), layer);
    var t := Tick(cfg, v, layer);
    OrderChains(arrived, forwarded, v.queue, t.drained.forwarded, t.value.queue);
  }

  lemma OrderChains(arrived: seq<Queued>, forwarded: seq<Queued>, queue: seq<Queued>, more: seq<Queued>, rest: seq<Queued>)
    requires InOrder(arrived, forwarded, queue) && InOrder(queue, more, rest)
    ensures InOrder(arrived, forwarded + more, rest)
  {
    var (f, q) := (Reals(more), Reals(rest));
    RealsAppend(forwarded, more);
    ThinnedBehind(Reals(forwarded), f + q, Reals(queue));
    ThinnedChain(Reals(forwarded) + (f + q), Reals(forwarded) + Reals(queue), Reals(arrived));
    assert Reals(forwarded) + (f + q) == Reals(forwarded + more) + q;
  }

  lemma ArrivalAccounted(arrived: seq<Queued>, forwarded: seq<Queued>, consumed: seq<Queued>, queue: seq<Queued>, x: Queued)
    requires Accounted(arrived, forwarded, consumed, queue) && InOrder(arrived, forwarded, queue)
    ensures Accounted(arrived + [x], forwarded, consumed, queue + [x]) && InOrder(arrived + [x], forwarded, queue + [x])
  {
    forall e ensures Count(arrived + [x], e) == Count(forwarded, e) + Count(consumed, e) + Count(queue + [x], e) {
      CountSnoc(arrived, x, e);
      CountSnoc(queue, x, e);
    }
    RealsSnoc(arrived, x);
    RealsSnoc(queue, x);
    if Real(x.event) {
      ThinnedSnoc(Reals(forwarded) + Reals(queue), Reals(arrived), x.event);
      assert Reals(forwarded) + Reals(queue) + [x.event] == Reals(forwarded) + Reals(queue + [x]);
    } else {
      assert Reals(queue + [x]) == Reals(queue) && Reals(arrived + [x]) == Reals(arrived);
    }
  }

  lemma FirstAccounted(arrived: seq<Queued>, forwarded: seq<Queued>, consumed: seq<Queued>, queue: seq<Queued>, n: nat)
    requires n <= |queue| && Accounted(arrived, forwarded, consumed, queue)
    ensures Accounted(arrived, forwarded + queue[..n], consumed, queue[n..])
  {
    var (first, rest) := (queue[..n], queue[n..]);
    assert queue == first + rest;
    forall e ensures Count(arrived, e) == Count(forwarded + first, e) + Count(consumed, e) + Count(rest, e) {
      CountAppend(forwarded, first, e);
      CountAppend(first, rest, e);
    }
  }

  lemma FirstInOrder(arrived: seq<Queued>, forwarded: seq<Queued>, queue: seq<Queued>, n: nat)
    requires n <= |queue| && InOrder(arrived, forwarded, queue)
    ensures InOrder(arrived, forwarded + queue[..n], queue[n..])
  {
    var (first, rest) := (queue[..n], queue[n..]);
    assert queue == first + rest;
    RealsAppend(first, rest);
    RealsAppend(forwarded, first);
    var (fw, f, r) := (Reals(forwarded), Reals(first), Reals(rest));
    assert (fw + f) + r == fw + (f + r);
  }

  lemma PushKeepsEvents(cfg: Config, h: History, e: Event)
    requires EventsKept(h) && AllLive(h.value.active, h.lives)
    ensures EventsKept(Advance(cfg, h, Push(e)))
  {
    var (q, x) := (h.value.queue, Queued(e, 0));
    ArrivalAccounted(h.arrived, h.forwarded, h.consumed, q, x);
    if |q| >= QUEUE_SIZE {
      var all := q + [x];
      assert all[..1] == [q[0]] && all[1..] == q[1..] + [x];
      FirstAccounted(h.arrived + [x], h.forwarded, h.consumed, all, 1);
      FirstInOrder(h.arrived + [x], h.forwarded, all, 1);
    }
  }

  lemma ThinnedBoth(a: seq<Event>, b: seq<Event>, c: seq<Event>, d: seq<Event>)
    requires Thinned(a, b) && Thinned(c, d)
    ensures Thinned(a + c, b + d)
    decreases |d|
  {
    if d == [] {
      assert a + c == a && b + d == b;
    } else {
      assert (b + d)[..|b + d| - 1] == b + d[..|d| - 1];
      if Thinned(c, d[..|d| - 1]) {
        ThinnedBoth(a, b, c, d[..|d| - 1]);
      } else {
        assert (a + c)[..|a + c| - 1] == a + c[..|c| - 1];
        ThinnedBoth(a, b, c[..|c| - 1], d[..|d| - 1]);
      }
    }
  }

  lemma {:induction false} NoneThinned(a: seq<Event>)
    ensures Thinned([], a)
    decreases |a|
  {
    if a != [] {
      NoneThinned(a[..|a| - 1]);
    }
  }

  /// Of the events forwarded next, `lost` and then `more`, the first are lost.
  lemma PassOn(forwarded: seq<Queued>, handed: seq<Queued>, lost: seq<Queued>, more: seq<Queued>, dropped: seq<Queued>)
    requires PassedOn(forwarded, handed, lost)
    ensures PassedOn(forwarded + (dropped + more), handed + more, lost + dropped)
  {
    forall e ensures Count(forwarded + (dropped + more), e) == Count(handed + more, e) + Count(lost + dropped, e) {
      CountAppend(forwarded, dropped + more, e);
      CountAppend(dropped, more, e);
      CountAppend(handed, more, e);
      CountAppend(lost, dropped, e);
    }
    RealsAppend(dropped, more);
    RealsAppend(forwarded, dropped + more);
    RealsAppend(handed, more);
    NoneThinned(Reals(dropped));
    ThinnedSelf(Reals(more));
    ThinnedBoth([], Reals(dropped), Reals(more), Reals(more));
    assert [] + Reals(more) == Reals(more);
    ThinnedBoth(Reals(handed), Reals(forwarded), Reals(more), Reals(dropped) + Reals(more));
  }

  lemma PushPassesOn(cfg: Config, h: History, e: Event)
    requires PassedOn(h.forwarded, h.handed, h.lost) && |h.lives| == |h.value.active|
    ensures var r := Advance(cfg, h, Push(e));
            PassedOn(r.forwarded, r.handed, r.lost)
  {
    if |h.value.queue| >= QUEUE_SIZE {
      var x := h.value.queue[0];
      PassOn(h.forwarded, h.handed, h.lost, [x], []);
      assert [] + [x] == [x] && h.lost + [] == h.lost;
    }
  }

  lemma TickPassesOn(t: TickResult, forwarded: seq<Queued>, handed: seq<Queued>, lost: seq<Queued>)
    requires PassedOn(forwarded, handed, lost)
    ensures PassedOn(forwarded + t.drained.forwarded, handed + HandedOver(t), lost + Lost(t))
  {
    OldestAreLost(t);
    PassOn(forwarded, handed, lost, HandedOver(t), Lost(t));
  }

  lemma TickKeepsReleases(cfg: Config, h: History, layer: nat)
    requires ValidConfig(cfg) && ReadThenReleased(h) && AllLive(h.value.active, h.lives)
    ensures ReadThenReleased(Advance(cfg, h, TickAt(layer)))
  {
    var t := Tick(cfg, h.value, layer);
    var v0, d := Age(h.value), t.drained;
    DrainedActive(cfg, v0, layer);
    ForwardKeepsChords(v0.active, d.seen);
    StartedChordsLive(cfg, v0, layer);
    forall c
      ensures At(h.handedOut, c) == Count(h.released + t.releases, ReleaseOf(c)) + At(t.value.active, c) - UnreadAt(t.value.active, c)
    {
      AtAgree(h.value.active, Forward(v0.active, d.seen), c);
      AtAppend(Forward(v0.active, d.seen), d.started, c);
      AllUnread(d.started, c);
      RemovedAreReleased(d.value.active, c);
      CountAppend(h.released, t.releases, ReleaseOf(c));
    }
  }

  lemma DrainingStarts(active: seq<ActiveChord>, seen: seq<Queued>, started: seq<ActiveChord>)
    requires forall a :: a in started ==> IsUnread(a.status)
    ensures UnreadNames(Unreleased(Forward(Aged(active), seen) + started)) == UnreadNames(active) + Names(started)
  {
    var kept := Forward(Aged(active), seen);
    ForwardKeepsChords(Aged(active), seen);
    UnreadAgree(active, kept);
    StartedUnread(kept, started);
    RemovingKeepsUnread(kept + started);
  }

  lemma TickKeepsReadOrder(cfg: Config, v: ChordsValue, layer: nat, started: seq<ActiveChord>, handedOut: seq<ActiveChord>)
    requires ValidConfig(cfg) && Names(started) == Names(handedOut) + UnreadNames(v.active)
    ensures var t := Tick(cfg, v, layer);
            Names(started + t.drained.started) == Names(handedOut) + UnreadNames(t.value.active)
  {
    var more := Tick(cfg, v, layer).drained.started;
    TickStarts(cfg, v, layer);
    NamesAppend(started, more);
    AppendMore(Names(handedOut), UnreadNames(v.active), Names(more));
  }

  lemma AppendMore(a: seq<(nat, nat)>, b: seq<(nat, nat)>, c: seq<(nat, nat)>)
    ensures (a + b) + c == a + (b + c)
  {
  }

  lemma TickStarts(cfg: Config, v: ChordsValue, layer: nat)
    requires ValidConfig(cfg)
    ensures var t := Tick(cfg, v, layer);
            UnreadNames(t.value.active) == UnreadNames(v.active) + Names(t.drained.started)
  {
    var v0 := Age(v);
    var d := DrainInputs(cfg, v0, layer);
    DrainedActive(cfg, v0, layer);
    StartedChordsLive(cfg, v0, layer);
    DrainingStarts(v.active, d.seen, d.started);
  }

  lemma NamesAppend(a: seq<ActiveChord>, b: seq<ActiveChord>)
    ensures Names(a + b) == Names(a) + Names(b)
  {
  }

  lemma StartedChordsLive(cfg: Config, v: ChordsValue, layer: nat)
    requires ValidConfig(cfg)
    ensures forall a :: a in DrainInputs(cfg, v, layer).started ==> IsUnread(a.status) && LifeInv(a, LifeOf(a))
  {
    var d := DrainInputs(cfg, v, layer);
    forall a | a in d.started ensures IsUnread(a.status) && LifeInv(a, LifeOf(a)) {
      var v1 := ForwardLeading(v, layer).0;
      var c := StartedFrom(cfg, v1, layer, a);
      StartedLives(c, v1.queue[0].since, a.coordinate, Presses(v1.queue, []).1);
    }
  }

  lemma LifeSnoc(active: seq<ActiveChord>, lives: seq<Life>, a: ActiveChord, l: Life)
    requires AllLive(active, lives) && LifeInv(a, l)
    ensures AllLive(active + [a], lives + [l])
  {
  }

  lemma {:induction false} KeptLivesHold(active: seq<ActiveChord>, lives: seq<Life>)
    requires AllLive(active, lives)
    ensures AllLive(Unreleased(active), KeptLives(active, lives))
    decreases |active|
  {
    if active != [] {
      var n := |active| - 1;
      KeptLivesHold(active[..n], lives[..n]);
      LifeSnoc(Unreleased(active[..n]), KeptLives(active[..n], lives[..n]), active[n], lives[n]);
    }
  }

  lemma LivesAdvance(active: seq<ActiveChord>, lives: seq<Life>, seen: seq<Queued>, started: seq<ActiveChord>)
    requires AllLive(active, lives)
    requires forall a :: a in started ==> LifeInv(a, LifeOf(a))
    ensures AllLive(Forward(active, seen) + started, AdvanceLives(lives, seen, started))
  {
    var (r, l) := (Forward(active, seen) + started, AdvanceLives(lives, seen, started));
    forall i | 0 <= i < |l| ensures LifeInv(r[i], l[i]) {
      if i < |lives| {
        ForwardLives(active, i, seen, lives[i]);
      } else {
        assert r[i] == started[i - |lives|] && r[i] in started;
      }
    }
  }

  lemma AgedLives(active: seq<ActiveChord>, lives: seq<Life>)
    requires AllLive(active, lives)
    ensures AllLive(Aged(active), lives)
  {
    forall i | 0 <= i < |lives| ensures LifeInv(Aged(active)[i], lives[i]) {
      assert LifeInv(active[i], lives[i]);
    }
  }

  /// The lives of all chords after draining, before the released ones are removed.
  lemma TickAdvancesLives(cfg: Config, h: History, layer: nat)
    requires ValidConfig(cfg) && AllLive(h.value.active, h.lives)
    ensures var d := Tick(cfg, h.value, layer).drained;
            AllLive(d.value.active, AdvanceLives(h.lives, d.seen, d.started))
  {
    var v0 := Age(h.value);
    var d := DrainInputs(cfg, v0, layer);
    AgedLives(h.value.active, h.lives);
    DrainedActive(cfg, v0, layer);
    StartedChordsLive(cfg, v0, layer);
    LivesAdvance(v0.active, h.lives, d.seen, d.started);
  }

  lemma TickKeepsLives(cfg: Config, h: History, layer: nat)
    requires ValidConfig(cfg) && AllLive(h.value.active, h.lives)
    ensures var r := Advance(cfg, h, TickAt(layer));
            AllLive(r.value.active, r.lives)
  {
    var d := Tick(cfg, h.value, layer).drained;
    TickAdvancesLives(cfg, h, layer);
    KeptLivesHold(d.value.active, AdvanceLives(h.lives, d.seen, d.started));
  }

  lemma ReadKeepsReleases(cfg: Config, h: History)
    requires ReadThenReleased(h) && |h.lives| == |h.value.active|
    ensures ReadThenReleased(Advance(cfg, h, ReadAction))
  {
    var active := h.value.active;
    var i := OldestUnread(active);
    if i < |active| {
      var after := Read(h.value).0.active;
      forall c ensures At(h.handedOut + [active[i]], c) == Count(h.released, ReleaseOf(c)) + At(after, c) - UnreadAt(after, c) {
        AtSnoc(h.handedOut, active[i], c);
        ReadMovesOne(active, i, c);
      }
    }
  }

  lemma ReadKeepsOrder(cfg: Config, h: History)
    requires ReadInOrder(h) && |h.lives| == |h.value.active|
    ensures ReadInOrder(Advance(cfg, h, ReadAction))
  {
    var active := h.value.active;
    var i := OldestUnread(active);
    if i < |active| {
      ReadTakesFirst(active, i);
      NamesAppend(h.handedOut, [active[i]]);
      assert Names([active[i]]) == [Name(active[i])];
    }
  }

  lemma ReadKeepsLives(active: seq<ActiveChord>, lives: seq<Life>, i: nat)
    requires AllLive(active, lives) && i < |active|
    ensures AllLive(active[i := active[i].(status := ReadStatus(active[i].status))], lives)
  {
    assert LifeInv(active[i], lives[i]);
  }

  ghost function Run(cfg: Config, h: History, inputs: seq<Input>): (r: History)
    requires |h.lives| == |h.value.active|
    ensures |r.lives| == |r.value.active|
    decreases |inputs|
  {
    if inputs == [] then h else
    Run(cfg, Advance(cfg, h, inputs[0]), inputs[1..])
  }

  lemma {:induction false} RunsCompose(cfg: Config, h: History, a: seq<Input>, b: seq<Input>)
    requires |h.lives| == |h.value.active|
    ensures Run(cfg, h, a + b) == Run(cfg, Run(cfg, h, a), b)
    decreases |a|
  {
    if a == [] {
      assert a + b == b;
    } else {
      assert (a + b)[0] == a[0] && (a + b)[1..] == a[1..] + b;
      RunsCompose(cfg, Advance(cfg, h, a[0]), a[1..], b);
    }
  }

  lemma AdvanceKeepsLives(cfg: Config, h: History, input: Input)
    requires ValidConfig(cfg) && AllLive(h.value.active, h.lives)
    ensures var r := Advance(cfg, h, input);
            AllLive(r.value.active, r.lives)
  {
    var i := OldestUnread(h.value.active);
    if input.TickAt? {
      TickKeepsLives(cfg, h, input.layer);
    } else if input.ReadAction? && i < |h.value.active| {
      ReadKeepsLives(h.value.active, h.lives, i);
    }
  }

  /// Over any mix of pushes, ticks and reads: every event has been handed over, lost to a full output
  /// or consumed, or is queued, once; real events are handed over in the order in which they arrived;
  /// every activation is read once and then released once.
  lemma {:induction false} EveryRunKeeps(cfg: Config, h: History, inputs: seq<Input>)
    requires ValidConfig(cfg) && Kept(h)
    ensures Kept(Run(cfg, h, inputs))
    decreases |inputs|
  {
    if inputs != [] {
      var next := Advance(cfg, h, inputs[0]);
      AdvanceKeepsLives(cfg, h, inputs[0]);
      match inputs[0] {
        case Push(e) =>
          PushKeepsEvents(cfg, h, e);
          PushPassesOn(cfg, h, e);
        case TickAt(layer) =>
          TickKeepsAccounts(cfg, h.value, layer, h.arrived, h.forwarded, h.consumed);
          TickKeepsOrder(cfg, h.value, layer, h.arrived, h.forwarded);
          TickPassesOn(Tick(cfg, h.value, layer), h.forwarded, h.handed, h.lost);
          TickKeepsReadOrder(cfg, h.value, layer, h.started, h.handedOut);
          TickKeepsReleases(cfg, h, layer);
        case ReadAction =>
          ReadKeepsOrder(cfg, h);
          ReadKeepsReleases(cfg, h);
      }
      EveryRunKeeps(cfg, next, inputs[1..]);
    }
  }

  lemma BeginningIsKept(cfg: Config)
    ensures Kept(Beginning(cfg))
  {
  }

  /// Every tick of the run has room for what it may hand over.
  ghost predicate RoomyThroughout(cfg: Config, h: History, inputs: seq<Input>)
    requires |h.lives| == |h.value.active|
    decreases |inputs|
  {
    inputs != [] ==>
      && (inputs[0].TickAt? ==> Roomy(h.value))
      && RoomyThroughout(cfg, Advance(cfg, h, inputs[0]), inputs[1..])
  }

  lemma {:induction false} RoomyRunLosesNothing(cfg: Config, h: History, inputs: seq<Input>)
    requires ValidConfig(cfg) && |h.lives| == |h.value.active| && RoomyThroughout(cfg, h, inputs)
    ensures Run(cfg, h, inputs).lost == h.lost
    decreases |inputs|
  {
    if inputs != [] {
      if inputs[0].TickAt? {
        RoomyTickLosesNothing(cfg, h.value, inputs[0].layer);
      }
      RoomyRunLosesNothing(cfg, Advance(cfg, h, inputs[0]), inputs[1..]);
    }
  }

  /// What an idle machine has done: every event was handed over, lost or consumed, the real ones in
  /// order, and every chord it ever started has been read and released as often as it was started.
  lemma IdleMachineOwesNothing(cfg: Config, inputs: seq<Input>, e: Event, c: nat)
    requires ValidConfig(cfg)
    ensures var h := Run(cfg, Beginning(cfg), inputs);
            h.value.queue == [] && h.value.active == [] ==>
              && Count(h.arrived, e) == Count(h.handed, e) + Count(h.lost, e) + Count(h.consumed, e)
              && Thinned(Reals(h.handed), Reals(h.arrived))
              && Names(h.started) == Names(h.handedOut)
              && At(h.handedOut, c) == Count(h.released, ReleaseOf(c))
    ensures RoomyThroughout(cfg, Beginning(cfg), inputs) ==> Run(cfg, Beginning(cfg), inputs).lost == []
  {
    BeginningIsKept(cfg);
    EveryRunKeeps(cfg, Beginning(cfg), inputs);
    var h := Run(cfg, Beginning(cfg), inputs);
    if h.value.queue == [] {
      assert Reals(h.forwarded) + Reals([]) == Reals(h.forwarded);
      ThinnedChain(Reals(h.handed), Reals(h.forwarded), Reals(h.arrived));
    }
    if RoomyThroughout(cfg, Beginning(cfg), inputs) {
      RoomyRunLosesNothing(cfg, Beginning(cfg), inputs);
    }
  }

  // ---------------------------------------------------------------------------------------
  // When chords are released

  /// In any run, a tick releases a chord only when it is due, and leaves no chord that is due and
  /// has been read.
  lemma ReleasedExactlyWhenDue(cfg: Config, inputs: seq<Input>, layer: nat)
    requires ValidConfig(cfg)
    ensures var h := Run(cfg, Beginning(cfg), inputs);
            var d := Tick(cfg, h.value, layer).drained;
            var lives := AdvanceLives(h.lives, d.seen, d.started);
            && |lives| == |d.value.active|
            && forall i :: 0 <= i < |lives| ==>
                 (d.value.active[i].status.Released? <==>
                    !IsUnread(d.value.active[i].status) && Due(lives[i], d.value.active[i].keys))
  {
    BeginningIsKept(cfg);
    EveryRunKeeps(cfg, Beginning(cfg), inputs);
    TickAdvancesLives(cfg, Run(cfg, Beginning(cfg), inputs), layer);
  }
}
