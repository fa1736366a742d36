/// When the chords v2 machine comes to rest: once all keys are up, ticking and reading alone empty
/// it, unless a full queue has cost an active chord a release (keyberon/src/chord.rs).

module ChordsQuiescence {
  import opened Types
  import opened ChordsModel
  import opened ChordsHistory
  import opened ChordsWait

  // ---------------------------------------------------------------------------------------
  // Keys whose release is still to come

  /// The real keys with a queued press and no release behind it.
  ghost function OpenKeys(q: seq<Queued>): (r: set<nat>)
  {
    if q == [] then {} else
    var n := |q| - 1;
    var (open, c) := (OpenKeys(q[..n]), q[n].event.coord);
    if c.row != 0 then open else if q[n].event.Press? then open + {c.col} else open - {c.col}
  }

  ghost predicate Releases(q: seq<Queued>, k: nat)
  {
    exists i :: 0 <= i < |q| && q[i].event == ReleaseOf(k)
  }

  /// Key `k` is down or its release is queued.
  ghost predicate Pending(q: seq<Queued>, down: set<nat>, k: nat)
  {
    k in down || Releases(q, k)
  }

  lemma ReleasesSnoc(q: seq<Queued>, x: Queued, k: nat)
    ensures Releases(q + [x], k) <==> Releases(q, k) || x.event == ReleaseOf(k)
  {
    var r := q + [x];
    assert r[|q|] == x;
    if Releases(q, k) {
      var i :| 0 <= i < |q| && q[i].event == ReleaseOf(k);
      assert r[i] == q[i];
    }
  }

  lemma OpenSnoc(q: seq<Queued>, x: Queued)
    ensures OpenKeys(q + [x]) ==
            if x.event.coord.row != 0 then OpenKeys(q)
            else if x.event.Press? then OpenKeys(q) + {x.event.coord.col} else OpenKeys(q) - {x.event.coord.col}
  {
    assert (q + [x])[..|q|] == q;
  }

  /// Ageing, leaving out virtual events, and taking presses leave no other key open.
  lemma {:induction false} TickedOpen(q: seq<Queued>)
    ensures OpenKeys(TickAll(q)) == OpenKeys(q)
    ensures forall k :: Releases(TickAll(q), k) <==> Releases(q, k)
    decreases |q|
  {
    if q != [] {
      var n := |q| - 1;
      assert TickAll(q)[..n] == TickAll(q[..n]);
      TickedOpen(q[..n]);
    }
    forall k ensures Releases(TickAll(q), k) <==> Releases(q, k) {
      if Releases(q, k) {
        var i :| 0 <= i < |q| && q[i].event == ReleaseOf(k);
        assert TickAll(q)[i].event == ReleaseOf(k);
      }
    }
  }

  lemma {:induction false} RealsOpen(q: seq<Queued>)
    ensures OpenKeys(RealOnly(q)) == OpenKeys(q)
    decreases |q|
  {
    if q != [] {
      var n := |q| - 1;
      RealsOpen(q[..n]);
      OpenSnoc(RealOnly(q[..n]), q[n]);
    }
  }

  lemma {:induction false} RealsRelease(q: seq<Queued>, k: nat)
    ensures Releases(RealOnly(q), k) <==> Releases(q, k)
    decreases |q|
  {
    if q != [] {
      var n := |q| - 1;
      RealsRelease(q[..n], k);
      ReleasesSnoc(RealOnly(q[..n]), q[n], k);
      ReleasesSnoc(q[..n], q[n], k);
      assert q == q[..n] + [q[n]];
    }
  }

  lemma {:induction false} UnconsumedOpen(q: seq<Queued>, taken: seq<PressAt>)
    ensures OpenKeys(Unconsumed(q, taken)) <= OpenKeys(q)
    decreases |q|
  {
    if q != [] {
      var n := |q| - 1;
      UnconsumedOpen(q[..n], taken);
      OpenSnoc(Unconsumed(q[..n], taken), q[n]);
    }
  }

  lemma {:induction false} UnconsumedRelease(q: seq<Queued>, taken: seq<PressAt>, k: nat)
    ensures Releases(Unconsumed(q, taken), k) <==> Releases(q, k)
    decreases |q|
  {
    if q != [] {
      var n := |q| - 1;
      UnconsumedRelease(q[..n], taken, k);
      ReleasesSnoc(Unconsumed(q[..n], taken), q[n], k);
      ReleasesSnoc(q[..n], q[n], k);
      assert q == q[..n] + [q[n]];
    }
  }

  lemma {:induction false} SuffixOpen(q: seq<Queued>, n: nat)
    requires n <= |q|
    ensures OpenKeys(q[n..]) <= OpenKeys(q)
    decreases |q|
  {
    if n < |q| {
      var m := |q| - 1;
      SuffixOpen(q[..m], n);
      assert q[n..][..m - n] == q[..m][n..];
    }
  }

  /// A queued press is open or has its release behind it.
  lemma {:induction false} PressIsPending(q: seq<Queued>, i: nat)
    requires i < |q| && q[i].event.Press? && Real(q[i].event)
    ensures q[i].event.coord.col in OpenKeys(q) || Releases(q, q[i].event.coord.col)
    decreases |q|
  {
    var n := |q| - 1;
    if i < n {
      PressIsPending(q[..n], i);
      ReleasesSnoc(q[..n], q[n], q[i].event.coord.col);
      assert q == q[..n] + [q[n]];
    }
  }

  // ---------------------------------------------------------------------------------------
  // The invariant

  /// A chord that waits for its last release has every key that it has not seen released down or with
  /// its release queued; any other is due, or has one key down or with its release queued.
  ghost predicate ChordOwed(keys: seq<nat>, l: Life, q: seq<Queued>, down: set<nat>)
  {
    if l.last then forall k :: k in keys && k !in l.freed ==> Pending(q, down, k)
    else Due(l, keys) || AnyPending(keys, q, down)
  }

  ghost predicate AnyPending(keys: seq<nat>, q: seq<Queued>, down: set<nat>)
  {
    exists k :: k in keys && Pending(q, down, k)
  }

  ghost predicate ChordsOwed(active: seq<ActiveChord>, lives: seq<Life>, q: seq<Queued>, down: set<nat>)
    requires |lives| == |active|
  {
    forall i :: 0 <= i < |active| ==> ChordOwed(active[i].keys, lives[i], q, down)
  }

  ghost predicate Owed(h: History, down: set<nat>)
    requires |h.lives| == |h.value.active|
  {
    OpenKeys(h.value.queue) <= down && ChordsOwed(h.value.active, h.lives, h.value.queue, down)
  }

  function DownAfter(down: set<nat>, input: Input): set<nat>
  {
    if input.Push? && Real(input.event) then
      if input.event.Press? then down + {input.event.coord.col} else down - {input.event.coord.col}
    else down
  }

  /// The release of `k` is the last that the chord can see: for a chord that waits for its last
  /// release, `k` is a key it has not seen released and that is not pending otherwise; any other
  /// chord is not due and has no key pending.
  ghost predicate Needs(keys: seq<nat>, l: Life, k: nat, q: seq<Queued>, down: set<nat>)
  {
    k in keys && if l.last then k !in l.freed && !Pending(q, down, k) else !Due(l, keys) && !AnyPending(keys, q, down)
  }

  /// The event pushes a release out of the full queue that some active chord needs.
  ghost predicate LosesRelease(h: History, e: Event, down: set<nat>)
    requires |h.lives| == |h.value.active|
  {
    && |h.value.queue| >= QUEUE_SIZE && h.value.queue[0].event.Release? && Real(h.value.queue[0].event)
    && exists i :: 0 <= i < |h.value.active| &&
         Needs(h.value.active[i].keys, h.lives[i], h.value.queue[0].event.coord.col,
               h.value.queue[1..] + [Queued(e, 0)], DownAfter(down, Push(e)))
  }

  lemma PushedPending(q: seq<Queued>, e: Event, down: set<nat>, k: nat)
    requires Pending(q, down, k)
    ensures Pending(q + [Queued(e, 0)], DownAfter(down, Push(e)), k)
  {
    ReleasesSnoc(q, Queued(e, 0), k);
  }

  lemma DroppedPending(q: seq<Queued>, down: set<nat>, k: nat)
    requires q != [] && Pending(q, down, k) && q[0].event != ReleaseOf(k)
    ensures Pending(q[1..], down, k)
  {
    if Releases(q, k) {
      var i :| 0 <= i < |q| && q[i].event == ReleaseOf(k);
      assert q[1..][i - 1] == q[i];
    }
  }

  /// What is pending stays so when an event joins the queue, but for the release that is pushed out.
  lemma JoinedPending(q: seq<Queued>, e: Event, down: set<nat>, k: nat)
    requires |q| >= QUEUE_SIZE && Pending(q, down, k) && q[0].event != ReleaseOf(k)
    ensures Pending(q[1..] + [Queued(e, 0)], DownAfter(down, Push(e)), k)
  {
    DroppedPending(q, down, k);
    PushedPending(q[1..], e, down, k);
  }

  ghost function PushedQueue(q: seq<Queued>, e: Event): seq<Queued>
  {
    (if |q| >= QUEUE_SIZE then q[1..] else q) + [Queued(e, 0)]
  }

  lemma PushChordOwed(q: seq<Queued>, e: Event, down: set<nat>, keys: seq<nat>, l: Life)
    requires ChordOwed(keys, l, q, down)
    ensures var after := DownAfter(down, Push(e));
            ChordOwed(keys, l, PushedQueue(q, e), after) <==>
              !(|q| >= QUEUE_SIZE && q[0].event.Release? && Real(q[0].event) &&
                Needs(keys, l, q[0].event.coord.col, PushedQueue(q, e), after))
  {
    var after := DownAfter(down, Push(e));
    forall k | Pending(q, down, k) && (|q| < QUEUE_SIZE || q[0].event != ReleaseOf(k))
      ensures Pending(PushedQueue(q, e), after, k)
    {
      if |q| < QUEUE_SIZE {
        PushedPending(q, e, down, k);
      } else {
        JoinedPending(q, e, down, k);
      }
    }
  }

  lemma PushOpen(q: seq<Queued>, e: Event, down: set<nat>)
    requires OpenKeys(q) <= down
    ensures OpenKeys(PushedQueue(q, e)) <= DownAfter(down, Push(e))
  {
    var n := if |q| >= QUEUE_SIZE then 1 else 0;
    assert q[0..] == q;
    SuffixOpen(q, n);
    OpenSnoc(q[n..], Queued(e, 0));
  }

  /// A push keeps the invariant if and only if it does not push out a release that a chord needs.
  lemma PushOwedIff(cfg: Config, h: History, e: Event, down: set<nat>)
    requires |h.lives| == |h.value.active| && Owed(h, down)
    ensures Owed(Advance(cfg, h, Push(e)), DownAfter(down, Push(e))) <==> !LosesRelease(h, e, down)
  {
    PushOpen(h.value.queue, e, down);
    forall i | 0 <= i < |h.value.active|
      ensures ChordOwed(h.value.active[i].keys, h.lives[i], PushedQueue(h.value.queue, e), DownAfter(down, Push(e))) <==>
              !(|h.value.queue| >= QUEUE_SIZE && h.value.queue[0].event.Release? && Real(h.value.queue[0].event) &&
                Needs(h.value.active[i].keys, h.lives[i], h.value.queue[0].event.coord.col, PushedQueue(h.value.queue, e),
                      DownAfter(down, Push(e))))
    {
      PushChordOwed(h.value.queue, e, down, h.value.active[i].keys, h.lives[i]);
    }
  }

  // ---------------------------------------------------------------------------------------
  // Ticks and reads

  lemma FreedIff(q: seq<Queued>, k: nat)
    ensures Releases(q, k) ==> k in Freed(q)
  {
    if Releases(q, k) {
      var i :| 0 <= i < |q| && q[i].event == ReleaseOf(k);
      assert q[i].event.Release? && q[i].event.coord.col == k;
    }
  }

  lemma ReleasesSplit(q: seq<Queued>, n: nat, k: nat)
    requires n <= |q| && Releases(q, k)
    ensures k in Freed(q[..n]) || Releases(q[n..], k)
  {
    var i :| 0 <= i < |q| && q[i].event == ReleaseOf(k);
    if i < n {
      assert q[..n][i].event == ReleaseOf(k);
      FreedIff(q[..n], k);
    } else {
      assert q[n..][i - n] == q[i];
    }
  }

  /// What draining leaves in the queue: no other key is open, and a queued release is seen by the
  /// chords or still queued.
  lemma DrainedQueue(cfg: Config, v: ChordsValue, layer: nat, k: nat)
    ensures var d := DrainInputs(cfg, v, layer);
            && OpenKeys(d.value.queue) <= OpenKeys(v.queue)
            && (Releases(v.queue, k) ==> k in Freed(d.seen) || Releases(d.value.queue, k))
  {
    if v.ticksToIgnore > 0 {
      FreedIff(v.queue, k);
    } else if !MaySkip(v, layer) {
      var reals := RealOnly(v.queue);
      var n := LeadingReleases(reals);
      RealsOpen(v.queue);
      RealsRelease(v.queue, k);
      SuffixOpen(reals, n);
      if Releases(reals, k) {
        ReleasesSplit(reals, n, k);
      }
      ProcessedQueue(cfg, ForwardLeading(v, layer).0, layer, ForwardLeading(v, layer).1, ForwardLeading(v, layer).2, k);
    }
  }

  lemma ProcessedQueue(cfg: Config, v: ChordsValue, layer: nat, forwarded: seq<Queued>, seen: seq<Queued>, k: nat)
    ensures var d := ProcessPresses(cfg, v, layer, forwarded, seen);
            OpenKeys(d.value.queue) <= OpenKeys(v.queue) && (Releases(v.queue, k) ==> Releases(d.value.queue, k))
  {
    var taken := JudgeQueue(cfg, v.queue, layer, v.nextCoord).taken;
    UnconsumedOpen(v.queue, taken);
    UnconsumedRelease(v.queue, taken, k);
  }

  /// The keys of a chord that is started are down or have their release behind the presses consumed.
  lemma StartedOwed(cfg: Config, v: ChordsValue, layer: nat, a: ActiveChord, k: nat, down: set<nat>)
    requires ValidConfig(cfg) && OpenKeys(v.queue) <= down
    requires a in DrainInputs(cfg, v, layer).started && k in a.keys
    ensures Pending(DrainInputs(cfg, v, layer).value.queue, down, k)
  {
    var (v1, forwarded, seen) := ForwardLeading(v, layer);
    var reals := RealOnly(v.queue);
    RealsOpen(v.queue);
    SuffixOpen(reals, LeadingReleases(reals));
    SplitIsPure(v.queue);
    ProcessingActivatesWhatItConsumes(cfg, v1, layer, forwarded, seen);
    var d := ProcessPresses(cfg, v1, layer, forwarded, seen);
    assert k in KeySet(a.keys);
    ConsumedPending(v1.queue, JudgeQueue(cfg, v1.queue, layer, v1.nextCoord).taken, k, down);
    ProcessedQueue(cfg, v1, layer, forwarded, seen, k);
  }

  lemma ConsumedPending(q: seq<Queued>, taken: seq<PressAt>, k: nat, down: set<nat>)
    requires k in Keys(Taken(q, taken)) && OpenKeys(q) <= down
    requires forall i :: 0 <= i < |q| ==> Real(q[i].event)
    ensures Pending(q, down, k)
  {
    var consumed := Taken(q, taken);
    var j :| 0 <= j < |consumed| && consumed[j].event.coord.col == k;
    TakenMembers(q, taken, consumed[j]);
    var i :| 0 <= i < |q| && q[i] == consumed[j];
    PressIsPending(q, i);
  }

  /// A chord that was active before draining.
  lemma EarlierChord(cfg: Config, h: History, layer: nat, i: nat)
    requires |h.lives| == |h.value.active| && i < |h.lives|
    ensures var d := Tick(cfg, h.value, layer).drained;
            && |d.value.active| == |h.lives| + |d.started|
            && d.value.active[i].keys == h.value.active[i].keys
            && AdvanceLives(h.lives, d.seen, d.started)[i] == h.lives[i].(freed := h.lives[i].freed + Freed(d.seen))
  {
    var v := Age(h.value);
    DrainedActive(cfg, v, layer);
    ForwardKeepsChords(v.active, DrainInputs(cfg, v, layer).seen);
  }

  lemma LaterChord(cfg: Config, h: History, layer: nat, i: nat)
    requires |h.lives| == |h.value.active|
    ensures var d := Tick(cfg, h.value, layer).drained;
            && |d.value.active| == |h.lives| + |d.started|
            && (|h.lives| <= i < |d.value.active| ==>
                  && d.value.active[i] == d.started[i - |h.lives|]
                  && AdvanceLives(h.lives, d.seen, d.started)[i] == LifeOf(d.started[i - |h.lives|]))
  {
    DrainedActive(cfg, Age(h.value), layer);
  }

  /// Draining keeps what an earlier chord is owed: a queued release is seen or still queued.
  lemma EarlierOwed(cfg: Config, v: ChordsValue, layer: nat, down: set<nat>, keys: seq<nat>, l: Life)
    requires ChordOwed(keys, l, v.queue, down)
    ensures var d := DrainInputs(cfg, v, layer);
            ChordOwed(keys, l.(freed := l.freed + Freed(d.seen)), d.value.queue, down)
  {
    var d := DrainInputs(cfg, v, layer);
    forall k | Pending(v.queue, down, k) ensures k in Freed(d.seen) || Pending(d.value.queue, down, k) {
      DrainedQueue(cfg, v, layer, k);
    }
  }

  lemma TickedOwed(keys: seq<nat>, l: Life, q: seq<Queued>, down: set<nat>)
    requires ChordOwed(keys, l, q, down)
    ensures ChordOwed(keys, l, TickAll(q), down)
  {
    TickedOpen(q);
  }

  lemma LaterOwed(cfg: Config, v: ChordsValue, layer: nat, down: set<nat>, a: ActiveChord)
    requires ValidConfig(cfg) && OpenKeys(v.queue) <= down && a in DrainInputs(cfg, v, layer).started
    ensures ChordOwed(a.keys, LifeOf(a), DrainInputs(cfg, v, layer).value.queue, down)
  {
    StartedChordsLive(cfg, v, layer);
    forall k | k in a.keys ensures Pending(DrainInputs(cfg, v, layer).value.queue, down, k) {
      StartedOwed(cfg, v, layer, a, k, down);
    }
    assert a.keys[0] in a.keys;
  }

  lemma DrainedOwed(cfg: Config, h: History, layer: nat, down: set<nat>) returns (d: Outcome, lives: seq<Life>)
    requires ValidConfig(cfg) && |h.lives| == |h.value.active| && Owed(h, down)
    ensures d == Tick(cfg, h.value, layer).drained && lives == AdvanceLives(h.lives, d.seen, d.started)
    ensures |lives| == |d.value.active| && OpenKeys(d.value.queue) <= down
    ensures ChordsOwed(d.value.active, lives, d.value.queue, down)
  {
    var v := Age(h.value);
    d := DrainInputs(cfg, v, layer);
    lives := AdvanceLives(h.lives, d.seen, d.started);
    TickedOpen(h.value.queue);
    DrainedQueue(cfg, v, layer, 0);
    LaterChord(cfg, h, layer, 0);
    forall i | 0 <= i < |d.value.active| ensures ChordOwed(d.value.active[i].keys, lives[i], d.value.queue, down) {
      if i < |h.lives| {
        EarlierChord(cfg, h, layer, i);
        TickedOwed(h.value.active[i].keys, h.lives[i], h.value.queue, down);
        EarlierOwed(cfg, v, layer, down, h.value.active[i].keys, h.lives[i]);
      } else {
        LaterChord(cfg, h, layer, i);
        LaterOwed(cfg, v, layer, down, d.started[i - |h.lives|]);
      }
    }
  }

  lemma {:induction false} KeptOwed(active: seq<ActiveChord>, lives: seq<Life>, q: seq<Queued>, down: set<nat>)
    requires |lives| == |active| && ChordsOwed(active, lives, q, down)
    ensures ChordsOwed(Unreleased(active), KeptLives(active, lives), q, down)
    decreases |active|
  {
    if active != [] {
      var n := |active| - 1;
      assert ChordsOwed(active[..n], lives[..n], q, down);
      KeptOwed(active[..n], lives[..n], q, down);
    }
  }

  lemma TickOwed(cfg: Config, h: History, layer: nat, down: set<nat>)
    requires ValidConfig(cfg) && |h.lives| == |h.value.active| && Owed(h, down)
    ensures Owed(Advance(cfg, h, TickAt(layer)), down)
  {
    var d, lives := DrainedOwed(cfg, h, layer, down);
    KeptOwed(d.value.active, lives, d.value.queue, down);
  }

  lemma ReadOwed(cfg: Config, h: History, down: set<nat>)
    requires |h.lives| == |h.value.active| && Owed(h, down)
    ensures Owed(Advance(cfg, h, ReadAction), down)
  {
    var r := Advance(cfg, h, ReadAction);
    forall i | 0 <= i < |h.lives| ensures r.value.active[i].keys == h.value.active[i].keys {
    }
  }

  // ---------------------------------------------------------------------------------------
  // Runs

  function DownAfterAll(down: set<nat>, inputs: seq<Input>): set<nat>
    decreases |inputs|
  {
    if inputs == [] then down else DownAfterAll(DownAfter(down, inputs[0]), inputs[1..])
  }

  /// No event of the run pushes out a release that an active chord needs.
  ghost predicate LosesNoRelease(cfg: Config, h: History, down: set<nat>, inputs: seq<Input>)
    requires |h.lives| == |h.value.active|
    decreases |inputs|
  {
    inputs != [] ==>
      && (inputs[0].Push? ==> !LosesRelease(h, inputs[0].event, down))
      && LosesNoRelease(cfg, Advance(cfg, h, inputs[0]), DownAfter(down, inputs[0]), inputs[1..])
  }

  lemma {:induction false} EveryRunOwes(cfg: Config, h: History, down: set<nat>, inputs: seq<Input>)
    requires ValidConfig(cfg) && |h.lives| == |h.value.active| && Owed(h, down) && LosesNoRelease(cfg, h, down, inputs)
    ensures Owed(Run(cfg, h, inputs), DownAfterAll(down, inputs))
    decreases |inputs|
  {
    if inputs != [] {
      match inputs[0] {
        case Push(e) => PushOwedIff(cfg, h, e, down);
        case TickAt(layer) => TickOwed(cfg, h, layer, down);
        case ReadAction => ReadOwed(cfg, h, down);
      }
      EveryRunOwes(cfg, Advance(cfg, h, inputs[0]), DownAfter(down, inputs[0]), inputs[1..]);
    }
  }

  // ---------------------------------------------------------------------------------------
  // Ticking and reading alone

  predicate Pushless(inputs: seq<Input>)
  {
    forall i :: 0 <= i < |inputs| ==> !inputs[i].Push?
  }

  function TicksIn(inputs: seq<Input>): (n: nat)
    ensures n <= |inputs|
  {
    if inputs == [] then 0 else TicksIn(inputs[..|inputs| - 1]) + if inputs[|inputs| - 1].TickAt? then 1 else 0
  }

  function ReadsIn(inputs: seq<Input>): (n: nat)
  {
    |inputs| - TicksIn(inputs)
  }

  ghost predicate AtLeast(q: seq<Queued>, n: nat)
  {
    forall i :: 0 <= i < |q| ==> q[i].since >= n
  }

  lemma DrainedFrom(cfg: Config, v: ChordsValue, layer: nat, i: nat)
    requires i < |DrainInputs(cfg, v, layer).value.queue|
    ensures DrainInputs(cfg, v, layer).value.queue[i] in v.queue
  {
    if v.ticksToIgnore == 0 && !MaySkip(v, layer) {
      var v1 := ForwardLeading(v, layer).0;
      var j := JudgeQueue(cfg, v1.queue, layer, v1.nextCoord);
      var m := SomeMember(v1.queue, j, i);
      assert v1.queue[m] == RealOnly(v.queue)[LeadingReleases(RealOnly(v.queue)) + m];
      RealOnlyMembers(v.queue, LeadingReleases(RealOnly(v.queue)) + m);
    }
  }

  lemma SomeMember(q: seq<Queued>, j: Verdict, i: nat) returns (m: nat)
    requires i < |if j.activated == [] then q else Unconsumed(q, j.taken)|
    ensures m < |q| && q[m] == (if j.activated == [] then q else Unconsumed(q, j.taken))[i]
  {
    if j.activated == [] {
      m := i;
    } else {
      UnconsumedMembers(q, j.taken, i);
      m :| 0 <= m < |q| && q[m] == Unconsumed(q, j.taken)[i];
    }
  }

  lemma TickAges(cfg: Config, v: ChordsValue, layer: nat, n: nat)
    requires AtLeast(v.queue, n) && n < U16_MAX
    ensures AtLeast(Tick(cfg, v, layer).value.queue, n + 1)
  {
    var r := DrainInputs(cfg, Age(v), layer).value.queue;
    forall i | 0 <= i < |r| ensures r[i].since >= n + 1 {
      DrainedFrom(cfg, Age(v), layer, i);
      var m :| 0 <= m < |Age(v).queue| && Age(v).queue[m] == r[i];
      assert v.queue[m].since >= n;
    }
  }

  lemma RunSnoc(cfg: Config, h: History, inputs: seq<Input>)
    requires |h.lives| == |h.value.active| && inputs != []
    ensures var n := |inputs| - 1;
            Run(cfg, h, inputs) == Advance(cfg, Run(cfg, h, inputs[..n]), inputs[n])
  {
    var n := |inputs| - 1;
    var last := [inputs[n]];
    assert inputs == inputs[..n] + last && last[1..] == [];
    RunsCompose(cfg, h, inputs[..n], last);
    var mid := Run(cfg, h, inputs[..n]);
    assert Run(cfg, mid, last) == Run(cfg, Advance(cfg, mid, last[0]), last[1..]);
  }

  lemma StepAges(cfg: Config, h: History, input: Input, n: nat)
    requires |h.lives| == |h.value.active| && !input.Push? && AtLeast(h.value.queue, n) && n < U16_MAX
    ensures AtLeast(Advance(cfg, h, input).value.queue, if input.TickAt? then n + 1 else n)
  {
    if input.TickAt? {
      TickAges(cfg, h.value, input.layer, n);
    }
  }

  /// Without pushes, what is still queued has been there for all the ticks.
  lemma {:induction false} QuietRunAges(cfg: Config, h: History, inputs: seq<Input>) returns (r: History)
    requires |h.lives| == |h.value.active| && Pushless(inputs)
    ensures r == Run(cfg, h, inputs)
    ensures AtLeast(r.value.queue, if TicksIn(inputs) < U16_MAX then TicksIn(inputs) else U16_MAX)
    decreases |inputs|
  {
    if inputs == [] {
      r := h;
    } else {
      var n := |inputs| - 1;
      var before := QuietRunAges(cfg, h, inputs[..n]);
      RunSnoc(cfg, h, inputs);
      r := Advance(cfg, before, inputs[n]);
      var m := TicksIn(inputs[..n]);
      if inputs[n].TickAt? {
        StepAges(cfg, before, inputs[n], if m < U16_MAX then m else U16_MAX - 1);
      }
    }
  }

  lemma QueueIsYoung(d: u16, v: ChordsValue, n: nat)
    requires Waiting(d, v) && AtLeast(v.queue, n)
    ensures v.queue == [] || n <= d + QUEUE_SIZE
  {
    if v.queue != [] {
      assert v.queue[0].since + 0 <= d + QUEUE_SIZE;
    }
  }

  /// Nothing queued, and every active chord only has to be read.
  ghost predicate Finishing(v: ChordsValue)
  {
    v.queue == [] && forall i :: 0 <= i < |v.active| ==> IsReleased(v.active[i].status)
  }

  lemma AllFreedFinishes(h: History)
    requires AllLive(h.value.active, h.lives) && Owed(h, {}) && h.value.queue == []
    ensures Finishing(h.value)
  {
    forall i | 0 <= i < |h.value.active| ensures IsReleased(h.value.active[i].status) {
      var a, l := h.value.active[i], h.lives[i];
      assert LifeInv(a, l) && ChordOwed(a.keys, l, h.value.queue, {});
      assert forall k :: !Pending(h.value.queue, {}, k);
    }
  }

  /// A tick of a machine that only has to be read.
  lemma FinishingTick(cfg: Config, v: ChordsValue, layer: nat)
    requires Finishing(v)
    ensures var r := Tick(cfg, v, layer).value;
            r.queue == [] && r.active == Unreleased(Aged(v.active))
  {
    var v0 := Age(v);
    assert v0.queue == [];
    assert Forward(v0.active, []) == v0.active;
    assert v0.active + [] == v0.active;
  }

  lemma {:induction false} UnreleasedFrom(active: seq<ActiveChord>, i: nat)
    requires i < |Unreleased(active)|
    ensures Unreleased(active)[i] in active && !Unreleased(active)[i].status.Released?
    decreases |active|
  {
    var n := |active| - 1;
    assert active == active[..n] + [active[n]];
    if i < |Unreleased(active[..n])| {
      UnreleasedFrom(active[..n], i);
    }
  }

  lemma FinishingTickKeeps(cfg: Config, v: ChordsValue, layer: nat)
    requires Finishing(v)
    ensures var r := Tick(cfg, v, layer).value;
            Finishing(r) && |UnreadNames(r.active)| == |UnreadNames(v.active)|
  {
    FinishingTick(cfg, v, layer);
    var aged := Aged(v.active);
    RemovingKeepsUnread(aged);
    UnreadAgree(v.active, aged);
    forall i | 0 <= i < |Unreleased(aged)| ensures IsReleased(Unreleased(aged)[i].status) {
      UnreleasedFrom(aged, i);
    }
  }

  lemma FinishingReadKeeps(v: ChordsValue)
    requires Finishing(v)
    ensures var r := Read(v).0;
            && Finishing(r)
            && |UnreadNames(r.active)| == (if UnreadNames(v.active) == [] then 0 else |UnreadNames(v.active)| - 1)
  {
    var i := OldestUnread(v.active);
    if i < |v.active| {
      ReadTakesFirst(v.active, i);
    } else {
      NoneUnread(v.active);
    }
  }

  ghost function UnreadCount(v: ChordsValue): nat
  {
    |UnreadNames(v.active)|
  }

  lemma FinishingStep(cfg: Config, h: History, input: Input)
    requires |h.lives| == |h.value.active| && Finishing(h.value) && !input.Push?
    ensures var r := Advance(cfg, h, input).value;
            && Finishing(r)
            && UnreadCount(r) == if input.TickAt? || UnreadCount(h.value) == 0 then UnreadCount(h.value) else UnreadCount(h.value) - 1
  {
    if input.TickAt? {
      FinishingTickKeeps(cfg, h.value, input.layer);
    } else {
      FinishingReadKeeps(h.value);
    }
  }

  lemma {:induction false} QuietRunReads(cfg: Config, h: History, inputs: seq<Input>) returns (r: History)
    requires |h.lives| == |h.value.active| && Finishing(h.value) && Pushless(inputs)
    ensures r == Run(cfg, h, inputs) && Finishing(r.value)
    ensures UnreadCount(r.value) == if UnreadCount(h.value) < ReadsIn(inputs) then 0 else UnreadCount(h.value) - ReadsIn(inputs)
    decreases |inputs|
  {
    if inputs == [] {
      r := h;
    } else {
      var n := |inputs| - 1;
      var before := QuietRunReads(cfg, h, inputs[..n]);
      RunSnoc(cfg, h, inputs);
      FinishingStep(cfg, before, inputs[n]);
      r := Advance(cfg, before, inputs[n]);
    }
  }

  /// A chord that is released and has been read goes with the next tick.
  lemma LastTickEmpties(cfg: Config, v: ChordsValue, layer: nat)
    requires Finishing(v) && UnreadNames(v.active) == []
    ensures var r := Tick(cfg, v, layer).value;
            r.queue == [] && r.active == []
  {
    FinishingTickKeeps(cfg, v, layer);
    FinishingTick(cfg, v, layer);
    var r := Tick(cfg, v, layer).value.active;
    if r != [] {
      UnreleasedFrom(Aged(v.active), 0);
      UnreadMember(r, 0);
    }
  }

  lemma {:induction false} UnreadMember(active: seq<ActiveChord>, i: nat)
    requires i < |active| && IsUnread(active[i].status)
    ensures UnreadNames(active) != []
    decreases |active|
  {
    var n := |active| - 1;
    if i < n {
      UnreadMember(active[..n], i);
    }
  }

  lemma {:induction false} PushlessRun(cfg: Config, h: History, inputs: seq<Input>, down: set<nat>)
    requires |h.lives| == |h.value.active| && Pushless(inputs)
    ensures LosesNoRelease(cfg, h, down, inputs) && DownAfterAll(down, inputs) == down
    decreases |inputs|
  {
    if inputs != [] {
      assert !inputs[0].Push? && forall i :: 0 <= i < |inputs[1..]| ==> inputs[1..][i] == inputs[i + 1];
      PushlessRun(cfg, Advance(cfg, h, inputs[0]), inputs[1..], down);
    }
  }

  lemma {:induction false} FewUnread(active: seq<ActiveChord>)
    ensures |UnreadNames(active)| <= |active|
    decreases |active|
  {
    if active != [] {
      FewUnread(active[..|active| - 1]);
    }
  }

  /// Ticking for longer than any event waits leaves nothing queued and only chords to be read.
  lemma TickingFinishes(cfg: Config, h: History, a: seq<Input>, d: u16) returns (r: History)
    requires ValidConfig(cfg) && LongestWait(cfg, d) && d + QUEUE_SIZE < U16_MAX
    requires Kept(h) && Owed(h, {}) && Waiting(d, h.value)
    requires Pushless(a) && TicksIn(a) > d + QUEUE_SIZE
    ensures r == Run(cfg, h, a) && Finishing(r.value)
  {
    r := Run(cfg, h, a);
    PushlessRun(cfg, h, a, {});
    EveryRunOwes(cfg, h, {}, a);
    EveryRunKeeps(cfg, h, a);
    EveryRunWaits(cfg, h, a, d);
    var aged := QuietRunAges(cfg, h, a);
    QueueIsYoung(d, r.value, if TicksIn(a) < U16_MAX then TicksIn(a) else U16_MAX);
    AllFreedFinishes(r);
  }

  lemma OwedEmpties(cfg: Config, h: History, a: seq<Input>, b: seq<Input>, layer: nat, d: u16)
    requires ValidConfig(cfg) && LongestWait(cfg, d) && d + QUEUE_SIZE < U16_MAX
    requires Kept(h) && Owed(h, {}) && Waiting(d, h.value)
    requires Pushless(a) && Pushless(b) && TicksIn(a) > d + QUEUE_SIZE
    ensures var ticked := Run(cfg, h, a);
            ReadsIn(b) >= |ticked.value.active| ==>
              var r := Tick(cfg, Run(cfg, ticked, b).value, layer).value;
              r.queue == [] && r.active == []
  {
    var ticked := TickingFinishes(cfg, h, a, d);
    FewUnread(ticked.value.active);
    var read := QuietRunReads(cfg, ticked, b);
    if ReadsIn(b) >= |ticked.value.active| {
      LastTickEmpties(cfg, read.value, layer);
    }
  }

  /// After a run that leaves all keys up and loses no release, ticks and reads alone empty the machine,
  /// in whatever order: more ticks than the longest pending duration and the size of the queue
  /// together, then a read for each chord that is still active, then one tick.
  lemma ReleasedMachineEmpties(cfg: Config, inputs: seq<Input>, a: seq<Input>, b: seq<Input>, layer: nat, d: u16)
    requires ValidConfig(cfg) && LongestWait(cfg, d) && d + QUEUE_SIZE < U16_MAX
    requires DownAfterAll({}, inputs) == {} && LosesNoRelease(cfg, Beginning(cfg), {}, inputs)
    requires Pushless(a) && Pushless(b) && TicksIn(a) > d + QUEUE_SIZE
    ensures var ticked := Run(cfg, Run(cfg, Beginning(cfg), inputs), a);
            ReadsIn(b) >= |ticked.value.active| ==>
              var r := Tick(cfg, Run(cfg, ticked, b).value, layer).value;
              r.queue == [] && r.active == []
  {
    var start := Beginning(cfg);
    BeginningIsKept(cfg);
    EveryRunKeeps(cfg, start, inputs);
    EveryRunOwes(cfg, start, {}, inputs);
    EveryRunWaits(cfg, start, inputs, d);
    OwedEmpties(cfg, Run(cfg, start, inputs), a, b, layer, d);
  }

  // ---------------------------------------------------------------------------------------
  // A chord that has lost a release

  /// The chord does not become released while no key of `ks` is: it waits for its last release and has
  /// not seen that of one of them, or all its keys are among them.
  ghost predicate HoldsOut(a: ActiveChord, ks: set<nat>)
  {
    !IsReleased(a.status) && if a.remaining != [] then exists k :: k in a.remaining && k in ks else forall k :: k in a.keys ==> k in ks
  }

  ghost predicate Stuck(v: ChordsValue, ks: set<nat>)
  {
    ks !! Freed(v.queue) && exists i :: 0 <= i < |v.active| && HoldsOut(v.active[i], ks)
  }

  lemma ReleaseHoldsOut(a: ActiveChord, j: nat, ks: set<nat>)
    requires HoldsOut(a, ks) && j !in ks
    ensures HoldsOut(ReleaseKey(a, j), ks)
  {
    if a.remaining != [] {
      var k :| k in a.remaining && k in ks;
      assert k in Except(a.remaining, j);
    }
  }

  lemma {:induction false} ForwardHoldsOut(active: seq<ActiveChord>, q: seq<Queued>, i: nat, ks: set<nat>)
    requires i < |active| && HoldsOut(active[i], ks) && ks !! Freed(q)
    ensures HoldsOut(Forward(active, q)[i], ks)
    decreases |q|
  {
    if q != [] {
      var n := |q| - 1;
      assert q[n].event.Release? ==> q[n].event.coord.col in Freed(q);
      assert forall j :: 0 <= j < n ==> q[..n][j] == q[j];
      ForwardHoldsOut(active, q[..n], i, ks);
      if q[n].event.Release? {
        ReleaseHoldsOut(Forward(active, q[..n])[i], q[n].event.coord.col, ks);
      }
    }
  }

  lemma {:induction false} UnreleasedHas(active: seq<ActiveChord>, i: nat) returns (j: nat)
    requires i < |active| && !active[i].status.Released?
    ensures j < |Unreleased(active)| && Unreleased(active)[j] == active[i]
    decreases |active|
  {
    var n := |active| - 1;
    if i < n {
      j := UnreleasedHas(active[..n], i);
    } else {
      j := |Unreleased(active[..n])|;
    }
  }

  lemma SeenFrom(cfg: Config, v: ChordsValue, layer: nat)
    ensures var d := DrainInputs(cfg, v, layer);
            Freed(d.seen) <= Freed(v.queue) && Freed(d.value.queue) <= Freed(v.queue)
  {
    var d := DrainInputs(cfg, v, layer);
    forall k | k in Freed(d.value.queue) ensures k in Freed(v.queue) {
      var i :| 0 <= i < |d.value.queue| && d.value.queue[i].event.Release? && d.value.queue[i].event.coord.col == k;
      DrainedFrom(cfg, v, layer, i);
      var m :| 0 <= m < |v.queue| && v.queue[m] == d.value.queue[i];
    }
    forall k | k in Freed(d.seen) ensures k in Freed(v.queue) {
      var i :| 0 <= i < |d.seen| && d.seen[i].event.Release? && d.seen[i].event.coord.col == k;
      if v.ticksToIgnore == 0 {
        RealOnlyMembers(v.queue, i);
      }
      var m :| 0 <= m < |v.queue| && v.queue[m] == d.seen[i];
    }
  }

  lemma TickedFreed(q: seq<Queued>)
    ensures Freed(TickAll(q)) == Freed(q)
  {
    forall k ensures k in Freed(TickAll(q)) <==> k in Freed(q) {
      if k in Freed(q) {
        var i :| 0 <= i < |q| && q[i].event.Release? && q[i].event.coord.col == k;
        assert TickAll(q)[i].event.coord.col == k;
      }
    }
  }

  lemma StuckTick(cfg: Config, v: ChordsValue, layer: nat, ks: set<nat>)
    requires Stuck(v, ks)
    ensures Stuck(Tick(cfg, v, layer).value, ks)
  {
    var v0 := Age(v);
    var i :| 0 <= i < |v.active| && HoldsOut(v.active[i], ks);
    TickedFreed(v.queue);
    SeenFrom(cfg, v0, layer);
    var d := DrainInputs(cfg, v0, layer);
    DrainedActive(cfg, v0, layer);
    ForwardHoldsOut(v0.active, d.seen, i, ks);
    var j := UnreleasedHas(d.value.active, i);
    assert HoldsOut(Tick(cfg, v, layer).value.active[j], ks);
  }

  lemma StuckRead(v: ChordsValue, ks: set<nat>)
    requires Stuck(v, ks)
    ensures Stuck(Read(v).0, ks)
  {
    var i :| 0 <= i < |v.active| && HoldsOut(v.active[i], ks);
    assert HoldsOut(Read(v).0.active[i], ks);
  }

  lemma StuckStep(cfg: Config, h: History, input: Input, ks: set<nat>)
    requires |h.lives| == |h.value.active| && !input.Push? && Stuck(h.value, ks)
    ensures Stuck(Advance(cfg, h, input).value, ks)
  {
    match input {
      case TickAt(layer) => StuckTick(cfg, h.value, layer, ks);
      case ReadAction => StuckRead(h.value, ks);
    }
  }

  /// Such a chord is never released by ticking and reading.
  lemma {:induction false} StuckForEver(cfg: Config, h: History, inputs: seq<Input>, ks: set<nat>) returns (r: History)
    requires |h.lives| == |h.value.active| && Pushless(inputs) && Stuck(h.value, ks)
    ensures r == Run(cfg, h, inputs) && Stuck(r.value, ks)
    decreases |inputs|
  {
    if inputs == [] {
      r := h;
    } else {
      var n := |inputs| - 1;
      var before := StuckForEver(cfg, h, inputs[..n], ks);
      RunSnoc(cfg, h, inputs);
      StuckStep(cfg, before, inputs[n], ks);
      r := Advance(cfg, before, inputs[n]);
    }
  }

  // ---------------------------------------------------------------------------------------
  // Exactly when the machine comes to rest

  predicate AllReal(q: seq<Queued>)
  {
    forall i :: 0 <= i < |q| ==> Real(q[i].event)
  }

  lemma FreedIsPending(q: seq<Queued>, k: nat)
    requires AllReal(q) && k in Freed(q)
    ensures Releases(q, k)
  {
    var i :| 0 <= i < |q| && q[i].event.Release? && q[i].event.coord.col == k;
    assert q[i].event == ReleaseOf(k);
  }

  /// With all keys up, a chord that is not owed a release holds out for ever.
  lemma UnowedHoldsOut(a: ActiveChord, l: Life, q: seq<Queued>) returns (ks: set<nat>)
    requires LifeInv(a, l) && AllReal(q) && !ChordOwed(a.keys, l, q, {})
    ensures HoldsOut(a, ks) && ks !! Freed(q)
  {
    if l.last {
      var k :| k in a.keys && k !in l.freed && !Pending(q, {}, k);
      ks := {k};
      assert k in a.remaining;
    } else {
      ks := KeySet(a.keys);
    }
    forall k | k in ks ensures k !in Freed(q) {
      if k in Freed(q) {
        FreedIsPending(q, k);
      }
    }
  }

  lemma UnowedIsStuck(h: History) returns (ks: set<nat>)
    requires AllLive(h.value.active, h.lives) && AllReal(h.value.queue)
    requires !ChordsOwed(h.value.active, h.lives, h.value.queue, {})
    ensures Stuck(h.value, ks)
  {
    var i :| 0 <= i < |h.value.active| && !ChordOwed(h.value.active[i].keys, h.lives[i], h.value.queue, {});
    ks := UnowedHoldsOut(h.value.active[i], h.lives[i], h.value.queue);
  }

  /// Whatever is lost, a queued press has its key down or its release behind it.
  lemma {:induction false} EveryRunOpens(cfg: Config, h: History, down: set<nat>, inputs: seq<Input>)
    requires |h.lives| == |h.value.active| && OpenKeys(h.value.queue) <= down
    ensures OpenKeys(Run(cfg, h, inputs).value.queue) <= DownAfterAll(down, inputs)
    decreases |inputs|
  {
    if inputs != [] {
      match inputs[0] {
        case Push(e) => PushOpen(h.value.queue, e, down);
        case TickAt(layer) =>
          TickedOpen(h.value.queue);
          DrainedQueue(cfg, Age(h.value), layer, 0);
        case ReadAction =>
      }
      EveryRunOpens(cfg, Advance(cfg, h, inputs[0]), DownAfter(down, inputs[0]), inputs[1..]);
    }
  }

  /// Once all keys are up and no virtual event is queued, the machine is emptied by ticking for long
  /// enough and reading every chord if and only if each active chord that waits for its last release
  /// has the releases it has not seen queued, and each other one is due or has a key's release queued.
  lemma ComesToRestIff(cfg: Config, inputs: seq<Input>, a: seq<Input>, b: seq<Input>, layer: nat, d: u16)
    requires ValidConfig(cfg) && LongestWait(cfg, d) && d + QUEUE_SIZE < U16_MAX
    requires DownAfterAll({}, inputs) == {} && AllReal(Run(cfg, Beginning(cfg), inputs).value.queue)
    requires Pushless(a) && Pushless(b) && TicksIn(a) > d + QUEUE_SIZE
    ensures var h := Run(cfg, Beginning(cfg), inputs);
            var ticked := Run(cfg, h, a);
            var r := Tick(cfg, Run(cfg, ticked, b).value, layer).value;
            ReadsIn(b) >= |ticked.value.active| ==>
              ((r.queue == [] && r.active == []) <==> ChordsOwed(h.value.active, h.lives, h.value.queue, {}))
  {
    var start := Beginning(cfg);
    var h := Run(cfg, start, inputs);
    BeginningIsKept(cfg);
    EveryRunKeeps(cfg, start, inputs);
    EveryRunOpens(cfg, start, {}, inputs);
    EveryRunWaits(cfg, start, inputs, d);
    if ChordsOwed(h.value.active, h.lives, h.value.queue, {}) {
      OwedEmpties(cfg, h, a, b, layer, d);
    } else {
      var ks := UnowedIsStuck(h);
      var ticked := StuckForEver(cfg, h, a, ks);
      var read := StuckForEver(cfg, ticked, b, ks);
      StuckTick(cfg, read.value, layer, ks);
    }
  }
}
