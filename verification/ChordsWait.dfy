/// No event waits in the chords v2 queue for longer than the longest chord allows, plus a fixed
/// number of ticks, although the machine skips its work while nothing can change
/// (keyberon/src/chord.rs).

module ChordsWait {
  import opened Types
  import opened ChordsModel
  import opened ChordsHistory

  /// No chord may stay pending for longer than `d`.
  ghost predicate LongestWait(cfg: Config, d: u16)
  {
    forall k, i :: k in cfg.chords && 0 <= i < |cfg.chords[k]| ==> cfg.chords[k][i].pendingDuration <= d
  }

  /// Older entries come first.
  ghost predicate Sorted(q: seq<Queued>)
  {
    forall i, j :: 0 <= i <= j < |q| ==> q[j].since <= q[i].since
  }

  /// Entries close to the front may be older.
  ghost predicate Below(q: seq<Queued>, b: nat)
  {
    forall i :: 0 <= i < |q| ==> q[i].since + i <= b
  }

  ghost predicate Waiting(d: u16, v: ChordsValue)
  {
    && |v.queue| <= QUEUE_SIZE
    && Sorted(v.queue)
    && Below(v.queue, d + QUEUE_SIZE)
    && v.ticksUntilChange <= d
    // The skip counter never outlasts the longest wait of a queued event.
    && (v.ticksUntilChange > 0 ==> forall i :: 0 <= i < |v.queue| ==> v.queue[i].since + v.ticksUntilChange <= d)
    && (v.ticksToIgnore == 0 ==>
          forall i :: 0 <= i < |v.queue| ==> v.queue[i].since <= d || v.queue[i].since + i < d + QUEUE_SIZE)
  }

  // ---------------------------------------------------------------------------------------
  // Leaving events out

  lemma {:induction false} RealOnlyMembers(q: seq<Queued>, i: nat)
    requires i < |RealOnly(q)|
    ensures RealOnly(q)[i] in q
    decreases |q|
  {
    var n := |q| - 1;
    if i < |RealOnly(q[..n])| {
      RealOnlyMembers(q[..n], i);
    }
  }

  lemma {:induction false} RealOnlyKeeps(q: seq<Queued>, b: nat)
    requires Sorted(q) && Below(q, b)
    ensures Sorted(RealOnly(q)) && Below(RealOnly(q), b)
    decreases |q|
  {
    if q != [] {
      var n := |q| - 1;
      RealOnlyKeeps(q[..n], b);
      var r := RealOnly(q[..n]);
      forall i | 0 <= i < |r| ensures q[n].since <= r[i].since {
        RealOnlyMembers(q[..n], i);
      }
    }
  }

  lemma {:induction false} UnconsumedMembers(q: seq<Queued>, taken: seq<PressAt>, i: nat)
    requires i < |Unconsumed(q, taken)|
    ensures Unconsumed(q, taken)[i] in q
    decreases |q|
  {
    var n := |q| - 1;
    if i < |Unconsumed(q[..n], taken)| {
      UnconsumedMembers(q[..n], taken, i);
    }
  }

  /// Consuming the first press moves all others forward.
  lemma {:induction false} UnconsumedMovesUp(q: seq<Queued>, taken: seq<PressAt>, b: nat)
    requires q != [] && Consumed(q[0], taken)
    requires Sorted(q) && Below(q, b + 1)
    ensures var r := Unconsumed(q, taken);
            |r| < |q| && Sorted(r) && Below(r, b)
    decreases |q|
  {
    var n := |q| - 1;
    if n > 0 {
      UnconsumedMovesUp(q[..n], taken, b);
      var r := Unconsumed(q[..n], taken);
      forall i | 0 <= i < |r| ensures q[n].since <= r[i].since {
        UnconsumedMembers(q[..n], taken, i);
      }
    } else {
      assert q[..0] == [];
    }
  }

  // ---------------------------------------------------------------------------------------
  // The wait that a scan computes

  ghost predicate WaitInTime(v: Verdict, since: u16, d: u16)
  {
    v.wait > 0 ==> since + v.wait <= d
  }

  lemma {:induction false} ScanWaits(possible: seq<Chord>, ps: seq<PressAt>, m: nat, layer: nat, since: u16, released: bool,
                                     v: Verdict, d: u16)
    requires m <= |ps| && WaitInTime(v, since, d)
    requires forall c :: c in possible ==> c.pendingDuration <= d
    ensures WaitInTime(Scan(possible, ps, m, layer, since, released, v), since, d)
    decreases |ps| - m
  {
    if m < |ps| {
      var taken := ps[..m + 1];
      var fitting := Fitting(possible, taken, layer);
      if |fitting| > 1 || (|fitting| == 1 && !SameKeys(fitting[0], taken)) {
        var coord := if |fitting| == 1 then AdvanceCoord(v.nextCoord) else v.nextCoord;
        var wait := WaitFor(MinTimeout(fitting, since), since);
        FittingMembers(possible, taken, layer);
        MinTimeoutIsADeadline(fitting, since);
        ScanWaits(possible, ps, m + 1, layer, since, released,
                  v.(taken := taken, candidates := fitting, wait := wait, nextCoord := coord), d);
      }
    }
  }

  /// A queue that starts with a press activates a chord, or chords are ignored for a while, or
  /// there is a deadline to wait for.
  lemma JudgedInTime(cfg: Config, q: seq<Queued>, layer: nat, nextCoord: nat, d: u16)
    requires LongestWait(cfg, d) && q != [] && q[0].event.Press?
    ensures var j := JudgeQueue(cfg, q, layer, nextCoord);
            && WaitInTime(j, q[0].since, d)
            && (j.activated != [] || j.ignore || j.wait > 0)
  {
    PressesAreQueued(q, []);
    var (ps, released) := Presses(q, []);
    if ps[0].key in cfg.chords {
      var possible := cfg.chords[ps[0].key];
      forall c | c in possible ensures c.pendingDuration <= d {
        var i :| 0 <= i < |possible| && possible[i] == c;
      }
      ScanWaits(possible, ps, 0, layer, q[0].since, released, Verdict([], [], [], false, 0, nextCoord), d);
    }
  }

  // ---------------------------------------------------------------------------------------
  // One step

  lemma HeadIsConsumed(cfg: Config, v: ChordsValue, layer: nat)
    requires ValidConfig(cfg) && v.queue != [] && v.queue[0].event.Press?
    requires JudgeQueue(cfg, v.queue, layer, v.nextCoord).activated != []
    ensures Consumed(v.queue[0], JudgeQueue(cfg, v.queue, layer, v.nextCoord).taken)
  {
    var j := JudgeQueue(cfg, v.queue, layer, v.nextCoord);
    var c := StartedFrom(cfg, v, layer, j.activated[0]);
    PressesAreQueued(v.queue, []);
    assert c.keys[0] in c.keys && Pressed(j.taken, c.keys[0]);
    assert j.taken[0].key == v.queue[0].event.coord.col;
  }

  /// What draining leaves behind: `Waiting`, but for a period of ignoring chords that starts now
  /// and has not been shortened yet.
  lemma ProcessingWaits(cfg: Config, v: ChordsValue, layer: nat, forwarded: seq<Queued>, seen: seq<Queued>, d: u16)
    requires ValidConfig(cfg) && LongestWait(cfg, d)
    requires |v.queue| <= QUEUE_SIZE && Sorted(v.queue) && Below(v.queue, d + QUEUE_SIZE)
    requires v.queue != [] ==> v.queue[0].event.Press?
    requires v.ticksToIgnore == 0
    ensures var r := ProcessPresses(cfg, v, layer, forwarded, seen).value;
            Waiting(d, r) && (r.ticksToIgnore == 0 || r.ticksToIgnore > 1)
  {
    var q, r := v.queue, ProcessPresses(cfg, v, layer, forwarded, seen).value;
    if q != [] {
      var j := JudgeQueue(cfg, q, layer, v.nextCoord);
      JudgedInTime(cfg, q, layer, v.nextCoord, d);
      if j.activated != [] {
        HeadIsConsumed(cfg, v, layer);
        UnconsumedMovesUp(q, j.taken, d + QUEUE_SIZE - 1);
        forall i | 0 <= i < |r.queue| ensures r.queue[i].since <= q[0].since {
          UnconsumedMembers(q, j.taken, i);
        }
      }
    }
  }

  lemma AgedWaiting(d: u16, v: ChordsValue)
    requires Waiting(d, v) && v.ticksToIgnore == 0
    ensures var q := Age(v).queue;
            |q| <= QUEUE_SIZE && Sorted(q) && Below(q, d + QUEUE_SIZE)
  {
  }

  lemma DrainingWaits(cfg: Config, v: ChordsValue, layer: nat, d: u16)
    requires ValidConfig(cfg) && LongestWait(cfg, d) && Waiting(d, v)
    ensures var r := DrainInputs(cfg, Age(v), layer).value;
            && Waiting(d, r.(ticksToIgnore := SatSub(r.ticksToIgnore, 1)))
  {
    var v0 := Age(v);
    if v.ticksToIgnore == 0 && !MaySkip(v0, layer) {
      var (v1, forwarded, seen) := ForwardLeading(v0, layer);
      AgedWaiting(d, v);
      var reals := RealOnly(v0.queue);
      RealOnlyKeeps(v0.queue, d + QUEUE_SIZE);
      assert v1.queue == reals[LeadingReleases(reals)..];
      ProcessingWaits(cfg, v1, layer, forwarded, seen, d);
    }
  }

  lemma DropWaits(v: ChordsValue, d: u16)
    requires Waiting(d, v) && v.queue != []
    ensures Waiting(d, v.(queue := v.queue[1..]))
  {
    var q := v.queue[1..];
    forall i, j | 0 <= i <= j < |q| ensures q[j].since <= q[i].since {
      assert v.queue[j + 1].since <= v.queue[i + 1].since;
    }
    forall i | 0 <= i < |q| ensures q[i] == v.queue[i + 1] {
    }
  }

  lemma AppendWaits(v: ChordsValue, x: Queued, d: u16)
    requires Waiting(d, v) && |v.queue| < QUEUE_SIZE && x.since == 0
    ensures Waiting(d, v.(queue := v.queue + [x]))
  {
  }

  lemma PushWaits(v: ChordsValue, e: Event, d: u16)
    requires Waiting(d, v)
    ensures Waiting(d, PushBack(v, Queued(e, 0)).0)
  {
    if |v.queue| == QUEUE_SIZE {
      DropWaits(v, d);
      AppendWaits(v.(queue := v.queue[1..]), Queued(e, 0), d);
    } else {
      AppendWaits(v, Queued(e, 0), d);
    }
  }

  lemma StepWaits(cfg: Config, h: History, input: Input, d: u16)
    requires ValidConfig(cfg) && LongestWait(cfg, d) && |h.lives| == |h.value.active| && Waiting(d, h.value)
    ensures Waiting(d, Advance(cfg, h, input).value)
  {
    match input {
      case Push(e) => PushWaits(h.value, e, d);
      case TickAt(layer) => DrainingWaits(cfg, h.value, layer, d);
      case ReadAction =>
    }
  }

  // ---------------------------------------------------------------------------------------
  // Runs

  lemma {:induction false} EveryRunWaits(cfg: Config, h: History, inputs: seq<Input>, d: u16)
    requires ValidConfig(cfg) && LongestWait(cfg, d) && |h.lives| == |h.value.active| && Waiting(d, h.value)
    ensures Waiting(d, Run(cfg, h, inputs).value)
    decreases |inputs|
  {
    if inputs != [] {
      StepWaits(cfg, h, inputs[0], d);
      EveryRunWaits(cfg, Advance(cfg, h, inputs[0]), inputs[1..], d);
    }
  }

  /// Bounded wait: over any mix of pushes, ticks and reads, no event has been queued for more
  /// ticks than the longest pending duration and the size of the queue together.
  lemma NoEventWaitsLonger(cfg: Config, inputs: seq<Input>, d: u16, x: Queued)
    requires ValidConfig(cfg) && LongestWait(cfg, d)
    requires x in Run(cfg, Beginning(cfg), inputs).value.queue
    ensures x.since <= d + QUEUE_SIZE
  {
    EveryRunWaits(cfg, Beginning(cfg), inputs, d);
  }
}
