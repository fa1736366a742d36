/// `ChordsV2` of keyberon/src/chord.rs: the queue and the active chords are changed in place, and
/// every method is proved to do what the functions of `ChordsModel` say.

module Chords {
  import opened Types
  import opened ChordsModel
  import opened ChordsWait

  // ---------------------------------------------------------------------------------------
  // The drain queue

  function RingPush(q: seq<Queued>, x: Queued): (r: seq<Queued>)
  {
    if |q| < SMOL_Q_LEN then q + [x] else q[1..] + [x]
  }

  lemma RingOfSnoc(q: seq<Queued>, x: Queued)
    ensures Ring(q + [x]) == RingPush(Ring(q), x)
  {
  }

  // ---------------------------------------------------------------------------------------
  // Releases reach the active chords

  method RetainOthers(ks: seq<nat>, j: nat) returns (r: seq<nat>)
    ensures r == Except(ks, j)
  {
    r := [];
    for i := 0 to |ks|
      invariant r == Except(ks[..i], j)
    {
      assert ks[..i + 1][..i] == ks[..i];
      if ks[i] != j {
        r := r + [ks[i]];
      }
    }
    assert ks[..|ks|] == ks;
  }

  method ReleaseInAll(active: seq<ActiveChord>, j: nat) returns (r: seq<ActiveChord>)
    ensures r == ReleaseKeyAll(active, j)
  {
    r := active;
    for i := 0 to |active|
      invariant |r| == |active|
      invariant forall k :: 0 <= k < i ==> r[k] == ReleaseKey(active[k], j)
      invariant forall k :: i <= k < |r| ==> r[k] == active[k]
    {
      var a := r[i];
      if j in a.keys {
        var left := RetainOthers(a.remaining, j);
        a := a.(remaining := left);
        if left == [] {
          a := a.(status := ReleasedStatus(a.status));
        }
        r := r[i := a];
      }
    }
  }

  method DrainAll(queue: seq<Queued>, active: seq<ActiveChord>) returns (r: seq<ActiveChord>, out: seq<Queued>)
    ensures r == Forward(active, queue) && out == Ring(queue)
  {
    r, out := active, [];
    for i := 0 to |queue|
      invariant r == Forward(active, queue[..i]) && out == Ring(queue[..i])
    {
      assert queue[..i + 1][..i] == queue[..i] && queue[..i + 1] == queue[..i] + [queue[i]];
      if queue[i].event.Release? {
        r := ReleaseInAll(r, queue[i].event.coord.col);
      }
      RingOfSnoc(queue[..i], queue[i]);
      out := RingPush(out, queue[i]);
    }
    assert queue[..|queue|] == queue;
  }

  /// Stops when the drain queue has no room.
  method DrainVirtual(queue: seq<Queued>) returns (ok: bool, kept: seq<Queued>, out: seq<Queued>)
    ensures ok <==> |VirtualOnly(queue)| <= SMOL_Q_LEN
    ensures ok ==> kept == RealOnly(queue) && out == VirtualOnly(queue)
  {
    ok, kept, out := true, [], [];
    for i := 0 to |queue|
      invariant ok <==> |VirtualOnly(queue[..i])| <= SMOL_Q_LEN
      invariant ok ==> kept == RealOnly(queue[..i]) && out == VirtualOnly(queue[..i])
    {
      assert queue[..i + 1][..i] == queue[..i];
      if Real(queue[i].event) {
        kept := kept + [queue[i]];
      } else if |out| == SMOL_Q_LEN {
        ok := false;
      } else {
        out := out + [queue[i]];
      }
    }
    assert queue[..|queue|] == queue;
  }

  method DrainLeading(queue: seq<Queued>, active: seq<ActiveChord>, ghost before: seq<Queued>, drained: seq<Queued>)
    returns (kept: seq<Queued>, r: seq<ActiveChord>, out: seq<Queued>)
    requires drained == Ring(before)
    ensures var n := LeadingReleases(queue);
            kept == queue[n..] && r == Forward(active, queue[..n]) && out == Ring(before + queue[..n])
  {
    kept, r, out := [], active, drained;
    ghost var n := LeadingReleases(queue);
    var pressed := false;
    assert before + queue[..0] == before;
    for i := 0 to |queue|
      invariant pressed <==> i > n
      invariant i <= n ==> kept == [] && r == Forward(active, queue[..i]) && out == Ring(before + queue[..i])
      invariant i > n ==> kept == queue[n..i] && r == Forward(active, queue[..n]) && out == Ring(before + queue[..n])
    {
      assert queue[..i + 1][..i] == queue[..i];
      if queue[i].event.Press? {
        pressed, kept := true, kept + [queue[i]];
      } else if !pressed {
        r := ReleaseInAll(r, queue[i].event.coord.col);
        RingOfSnoc(before + queue[..i], queue[i]);
        assert before + queue[..i + 1] == before + queue[..i] + [queue[i]];
        out := RingPush(out, queue[i]);
      } else {
        kept := kept + [queue[i]];
      }
    }
    assert queue[..|queue|] == queue && queue[n..|queue|] == queue[n..];
  }

  // ---------------------------------------------------------------------------------------
  // Deciding what the presses mean

  method CollectPresses(queue: seq<Queued>) returns (ps: seq<PressAt>, released: bool)
    ensures (ps, released) == Presses(queue, [])
  {
    ps, released := [], false;
    for i := 0 to |queue|
      invariant !released
      invariant Presses(queue[i..], ps) == Presses(queue, [])
    {
      assert queue[i..][1..] == queue[i + 1..];
      if queue[i].event.Press? {
        if |ps| < SMOL_Q_LEN {
          ps := ps + [PressAt(queue[i].event.coord.col, queue[i].since)];
        }
      } else if Pressed(ps, queue[i].event.coord.col) {
        released := true;
        return;
      }
    }
  }

  ghost predicate InTimeOrder(ps: seq<PressAt>)
  {
    forall i, j :: 0 <= i <= j < |ps| ==> ps[j].since <= ps[i].since
  }

  lemma {:induction false} PressesInTimeOrder(q: seq<Queued>, seen: seq<PressAt>)
    requires Sorted(q) && InTimeOrder(seen)
    requires q != [] && seen != [] ==> q[0].since <= seen[|seen| - 1].since
    ensures InTimeOrder(Presses(q, seen).0)
    decreases |q|
  {
    if q != [] && (q[0].event.Press? || !Pressed(seen, q[0].event.coord.col)) {
      var next := if q[0].event.Press? && |seen| < SMOL_Q_LEN then seen + [PressAt(q[0].event.coord.col, q[0].since)] else seen;
      PressesInTimeOrder(q[1..], next);
    }
  }

  /// What fits the candidate list, which has room for `SMOL_Q_LEN` chords.
  ghost function Cap(cs: seq<Chord>): (r: seq<Chord>)
  {
    if |cs| <= SMOL_Q_LEN then cs else cs[..SMOL_Q_LEN]
  }

  lemma MinTimeoutSnoc(cs: seq<Chord>, c: Chord, since: u16)
    ensures var t := MinTimeout(cs, since);
            MinTimeout(cs + [c], since) == if c.pendingDuration > since && c.pendingDuration < t then c.pendingDuration else t
  {
    assert (cs + [c])[..|cs|] == cs;
  }

  method CollectCandidates(possible: seq<Chord>, taken: seq<PressAt>, layer: nat, since: u16)
    returns (candidates: seq<Chord>, count: nat, minTimeout: u16)
    requires taken != []
    ensures var fitting := Fitting(possible, taken, layer);
            candidates == Cap(fitting) && count == |fitting| && minTimeout == MinTimeout(fitting, since)
  {
    candidates, count, minTimeout := [], 0, U16_MAX;
    ghost var fitting: seq<Chord> := [];
    for i := 0 to |possible|
      invariant fitting == Fitting(possible[..i], taken, layer)
      invariant candidates == Cap(fitting) && count == |fitting|
      invariant minTimeout == MinTimeout(fitting, since)
    {
      var c := possible[i];
      FittingSnoc(possible[..i], c, taken, layer);
      assert possible[..i + 1] == possible[..i] + [c];
      if Fits(c, taken, layer) {
        MinTimeoutSnoc(fitting, c, since);
        fitting := fitting + [c];
        if |candidates| < SMOL_Q_LEN {
          candidates := candidates + [c];
        }
        if c.pendingDuration > since {
          minTimeout := if c.pendingDuration < minTimeout then c.pendingDuration else minTimeout;
        }
        count := count + 1;
      }
    }
    assert possible[..|possible|] == possible;
  }

  lemma FittingSnoc(cs: seq<Chord>, c: Chord, taken: seq<PressAt>, layer: nat)
    requires taken != []
    ensures Fitting(cs + [c], taken, layer) == Fitting(cs, taken, layer) + if Fits(c, taken, layer) then [c] else []
  {
    assert (cs + [c])[..|cs|] == cs;
  }

  predicate StillFits(c: Chord, first: PressAt, press: PressAt)
  {
    press.key in c.keys && first.since - press.since <= c.pendingDuration
  }

  /// As long as all candidates are listed, it is enough to look at the new press.
  method RetainCandidates(candidates: seq<Chord>, first: PressAt, press: PressAt, since: u16,
                          ghost possible: seq<Chord>, ghost before: seq<PressAt>, ghost layer: nat)
    returns (r: seq<Chord>, minTimeout: u16)
    requires before != [] && first == before[0] && InTimeOrder(before + [press])
    requires candidates == Fitting(possible, before, layer)
    ensures r == Fitting(possible, before + [press], layer) && minTimeout == MinTimeout(r, since)
    ensures |r| <= |candidates|
  {
    r := [];
    for i := 0 to |candidates|
      invariant r == Retained(candidates[..i], first, press) && |r| <= i
    {
      assert candidates[..i + 1][..i] == candidates[..i];
      if StillFits(candidates[i], first, press) {
        r := r + [candidates[i]];
      }
    }
    assert candidates[..|candidates|] == candidates;
    RetainedFits(possible, before, press, layer);
    minTimeout := U16_MAX;
    for i := 0 to |r|
      invariant minTimeout == MinTimeout(r[..i], since)
    {
      assert r[..i + 1][..i] == r[..i];
      if r[i].pendingDuration > since {
        minTimeout := if r[i].pendingDuration < minTimeout then r[i].pendingDuration else minTimeout;
      }
    }
    assert r[..|r|] == r;
  }

  ghost function Retained(cs: seq<Chord>, first: PressAt, press: PressAt): (r: seq<Chord>)
  {
    if cs == [] then [] else
    var n := |cs| - 1;
    if StillFits(cs[n], first, press) then Retained(cs[..n], first, press) + [cs[n]] else Retained(cs[..n], first, press)
  }

  lemma RetainedSnoc(cs: seq<Chord>, c: Chord, first: PressAt, press: PressAt)
    ensures Retained(cs + [c], first, press) == Retained(cs, first, press) + if StillFits(c, first, press) then [c] else []
  {
    assert (cs + [c])[..|cs|] == cs;
  }

  lemma {:induction false} RetainedFits(possible: seq<Chord>, before: seq<PressAt>, press: PressAt, layer: nat)
    requires before != [] && InTimeOrder(before + [press])
    ensures Retained(Fitting(possible, before, layer), before[0], press) == Fitting(possible, before + [press], layer)
    decreases |possible|
  {
    if possible != [] {
      var n := |possible| - 1;
      RetainedFits(possible[..n], before, press, layer);
      FitsMore(possible[n], before, press, layer);
      RetainedSnoc(Fitting(possible[..n], before, layer), possible[n], before[0], press);
    }
  }

  lemma FitsMore(c: Chord, before: seq<PressAt>, press: PressAt, layer: nat)
    requires before != [] && InTimeOrder(before + [press])
    ensures Fits(c, before + [press], layer) <==> Fits(c, before, layer) && StillFits(c, before[0], press)
  {
    var all := before + [press];
    assert all[|all| - 1] == press && all[0] == before[0];
    if Fits(c, all, layer) {
      assert forall i :: 0 <= i < |before| ==> before[i] == all[i];
    }
    assert all[|before| - 1].since >= press.since;
  }

  method FindExact(cs: seq<Chord>, taken: seq<PressAt>, layer: nat) returns (r: Option<Chord>)
    ensures r == Exact(cs, taken, layer)
  {
    for i := 0 to |cs|
      invariant Exact(cs[i..], taken, layer) == Exact(cs, taken, layer)
    {
      assert cs[i..][1..] == cs[i + 1..];
      if Enabled(cs[i], layer) && SameKeys(cs[i], taken) {
        return Some(cs[i]);
      }
    }
    r := None;
  }

  /// What a verdict keeps of its candidates.
  ghost function Capped(v: Verdict): Verdict
  {
    v.(candidates := Cap(v.candidates))
  }

  /// The loop over the presses, with the list of candidates kept from one press to the next.
  method ScanPresses(possible: seq<Chord>, ps: seq<PressAt>, layer: nat, since: u16, released: bool, coord: nat)
    returns (v: Verdict)
    requires InTimeOrder(ps)
    ensures v == Capped(Scan(possible, ps, 0, layer, since, released, Verdict([], [], [], false, 0, coord)))
  {
    var prevCount: int := -1;
    v := Verdict([], [], [], false, 0, coord);
    ghost var full := v;
    ghost var goal := Scan(possible, ps, 0, layer, since, released, full);
    for m := 0 to |ps|
      invariant v == Capped(full)
      invariant m == 0 ==> prevCount == -1
      invariant m > 0 ==> full.candidates == Fitting(possible, ps[..m], layer) && prevCount == |full.candidates|
      invariant Scan(possible, ps, m, layer, since, released, full) == goal
    {
      var stop: bool;
      stop, v, prevCount, full := ScanPress(possible, ps, m, layer, since, released, v, prevCount, full);
      if stop {
        return;
      }
    }
  }

  /// One turn of the loop.
  method ScanPress(possible: seq<Chord>, ps: seq<PressAt>, m: nat, layer: nat, since: u16, released: bool,
                   v: Verdict, prevCount: int, ghost full: Verdict)
    returns (stop: bool, r: Verdict, count: nat, ghost next: Verdict)
    requires m < |ps| && InTimeOrder(ps) && v == Capped(full)
    requires m == 0 ==> prevCount == -1
    requires m > 0 ==> full.candidates == Fitting(possible, ps[..m], layer) && prevCount == |full.candidates|
    ensures stop ==> r == Capped(Scan(possible, ps, m, layer, since, released, full))
    ensures !stop ==> r == Capped(next)
    ensures !stop ==> next.candidates == Fitting(possible, ps[..m + 1], layer) && count == |next.candidates|
    ensures !stop ==> Scan(possible, ps, m + 1, layer, since, released, next) == Scan(possible, ps, m, layer, since, released, full)
  {
    var taken := ps[..m + 1];
    var candidates, minTimeout;
    candidates, count, minTimeout := PossibleChords(possible, ps, m, layer, since, v.candidates, prevCount, full.candidates);
    next := full;
    if count == 0 {
      ScanFails(possible, ps, m, layer, since, released, full);
      stop := true;
      r := ActivateExact(possible, v.(taken := ps[..m], candidates := []), layer, since, released);
    } else if count == 1 && SameKeys(candidates[0], taken) {
      ScanSucceeds(possible, ps, m, layer, since, released, full);
      stop, r := true, Started(v.(taken := taken, candidates := candidates), candidates[0], since, released);
    } else {
      ScanGoesOn(possible, ps, m, layer, since, released, full);
      next := NextVerdict(full, taken, Fitting(possible, taken, layer), since);
      var c := if count == 1 then AdvanceCoord(v.nextCoord) else v.nextCoord;
      stop, r := false, v.(taken := taken, candidates := candidates, nextCoord := c, wait := WaitFor(minTimeout, since));
    }
  }

  method PossibleChords(possible: seq<Chord>, ps: seq<PressAt>, m: nat, layer: nat, since: u16,
                        listed: seq<Chord>, prevCount: int, ghost fitting: seq<Chord>)
    returns (candidates: seq<Chord>, count: nat, minTimeout: u16)
    requires m < |ps| && InTimeOrder(ps) && listed == Cap(fitting)
    requires m == 0 ==> prevCount == -1
    requires m > 0 ==> fitting == Fitting(possible, ps[..m], layer) && prevCount == |fitting|
    ensures var next := Fitting(possible, ps[..m + 1], layer);
            candidates == Cap(next) && count == |next| && minTimeout == MinTimeout(next, since)
  {
    assert ps[..m + 1] == ps[..m] + [ps[m]];
    if prevCount == |listed| {
      candidates, minTimeout := RetainCandidates(listed, ps[0], ps[m], since, possible, ps[..m], layer);
      count := |candidates|;
    } else {
      candidates, count, minTimeout := CollectCandidates(possible, ps[..m + 1], layer, since);
    }
  }

  method ActivateExact(cs: seq<Chord>, v: Verdict, layer: nat, since: u16, released: bool) returns (r: Verdict)
    ensures r == Complete(cs, v, layer, since, released)
  {
    var exact := FindExact(cs, v.taken, layer);
    if exact.Some? {
      r := Started(v, exact.value, since, released);
    } else {
      r := v.(ignore := true);
    }
  }

  method JudgePresses(possible: seq<Chord>, ps: seq<PressAt>, layer: nat, since: u16, released: bool, coord: nat)
    returns (v: Verdict)
    requires InTimeOrder(ps)
    ensures v == Capped(Judge(possible, ps, layer, since, released, coord))
  {
    v := ScanPresses(possible, ps, layer, since, released, coord);
    if v.wait == 0 || released {
      v := ActivateExact(if |v.candidates| == SMOL_Q_LEN then possible else v.candidates, v, layer, since, released);
    }
  }

  method RetainUnconsumed(queue: seq<Queued>, taken: seq<PressAt>) returns (r: seq<Queued>)
    ensures r == Unconsumed(queue, taken)
  {
    r := [];
    for i := 0 to |queue|
      invariant r == Unconsumed(queue[..i], taken)
    {
      assert queue[..i + 1][..i] == queue[..i];
      if !Consumed(queue[i], taken) {
        r := r + [queue[i]];
      }
    }
    assert queue[..|queue|] == queue;
  }

  /// Takes out the released chords and pushes their releases; stops when a push has no room.
  method ClearReleased(active: seq<ActiveChord>, ghost before: seq<Queued>, drained: seq<Queued>)
    returns (ok: bool, kept: seq<ActiveChord>, out: seq<Queued>)
    requires drained == Ring(before)
    ensures ok <==> ChordReleases(active) == [] || |before + ChordReleases(active)| <= SMOL_Q_LEN
    ensures ok ==> kept == Unreleased(active) && out == Ring(before + ChordReleases(active))
  {
    ok, kept, out := true, [], drained;
    assert before + [] == before;
    for i := 0 to |active|
      invariant ok <==> ChordReleases(active[..i]) == [] || |before + ChordReleases(active[..i])| <= SMOL_Q_LEN
      invariant ok ==> kept == Unreleased(active[..i]) && out == Ring(before + ChordReleases(active[..i]))
    {
      assert active[..i + 1][..i] == active[..i];
      if !active[i].status.Released? {
        kept := kept + [active[i]];
      } else {
        var x := Queued(Release(Coord(0, active[i].coordinate)), 0);
        assert before + (ChordReleases(active[..i]) + [x]) == before + ChordReleases(active[..i]) + [x];
        if |out| == SMOL_Q_LEN {
          ok := false;
        } else {
          out := out + [x];
        }
      }
    }
    assert active[..|active|] == active;
  }

  // ---------------------------------------------------------------------------------------
  // The machine

  class ChordsV2 {
    const cfg: Config
    var queue: seq<Queued>
    var active: seq<ActiveChord>
    var ticksToIgnore: u16
    var ticksUntilChange: u16
    var prevLayer: nat
    var prevQueueLen: u8
    var nextCoord: nat

    ghost function Value(): ChordsValue
      reads this
    {
      ChordsValue(queue, active, ticksToIgnore, ticksUntilChange, prevLayer, prevQueueLen, nextCoord)
    }

    ghost predicate Valid()
      reads this
    {
      Sorted(queue) && |queue| <= QUEUE_SIZE && |active| <= MAX_ACTIVE
    }

    constructor (cfg: Config)
      requires 5 <= cfg.ignoreTicks
      ensures this.cfg == cfg && Value() == Initial(cfg) && Valid()
    {
      this.cfg := cfg;
      queue, active := [], [];
      ticksToIgnore, ticksUntilChange, prevLayer, prevQueueLen := 0, 0, U16_MAX, 0xFF;
      nextCoord := KEY_MAX + 1;
    }

    method PushBackChv2(e: Event) returns (overflow: Option<Queued>)
      requires Valid()
      modifies this
      ensures Valid() && (Value(), overflow) == PushBack(old(Value()), Queued(e, 0))
    {
      overflow := None;
      if |queue| == QUEUE_SIZE {
        overflow := Some(queue[0]);
        assert forall i :: 0 <= i < |queue[1..]| ==> queue[1..][i] == queue[i + 1];
        queue := queue[1..];
      }
      queue := queue + [Queued(e, 0)];
    }

    /// Hands out the oldest chord that has not been read.
    method GetActionChv2() returns (r: Option<(nat, u16, nat)>)
      requires Valid()
      modifies this`active
      ensures (Value(), r) == Read(old(Value()))
    {
      var i := 0;
      while i < |active| && !IsUnread(active[i].status)
        invariant i <= |active| && active == old(active)
        invariant OldestUnread(active) == i + OldestUnread(active[i..])
      {
        assert active[i..][1..] == active[i + 1..];
        i := i + 1;
      }
      r := None;
      if i < |active| {
        var a := active[i];
        active := active[i := a.(status := ReadStatus(a.status))];
        r := Some((a.coordinate, a.delay, a.action));
      }
    }

    /// Stops when there is no room for another active chord.
    method ProcessPresses(layer: nat) returns (ok: bool)
      requires Valid() && ticksUntilChange == 0
      modifies this
      ensures Value() == ChordsModel.ProcessPresses(cfg, old(Value()), layer, [], []).value
      ensures ok == (|active| <= MAX_ACTIVE) && (ok ==> Valid())
    {
      var ps, released := CollectPresses(queue);
      ok := true;
      assert active + [] == active;
      if ps == [] {
        return;
      }
      if ps[0].key !in cfg.chords {
        ticksToIgnore := cfg.ignoreTicks;
        return;
      }
      PressesInTimeOrder(queue, []);
      var v := JudgePresses(cfg.chords[ps[0].key], ps, layer, queue[0].since, released, nextCoord);
      ticksUntilChange, nextCoord := v.wait, v.nextCoord;
      if v.ignore {
        ticksToIgnore := cfg.ignoreTicks;
      }
      active := active + v.activated;
      if v.activated != [] {
        ok := |active| <= MAX_ACTIVE;
        UnconsumedSorted(queue, v.taken);
        queue := RetainUnconsumed(queue, v.taken);
      }
    }

    method DrainWithoutNewActivations() returns (out: seq<Queued>)
      requires Valid()
      modifies this`queue, this`active
      ensures Value() == ForwardAll(old(Value())).value && out == Ring(old(queue)) && Valid()
    {
      active, out := DrainAll(queue, active);
      queue := [];
    }

    /// `drain_virtual_keys` and `drain_releases`; stops when a virtual key finds no room.
    method DrainLeadingEvents(layer: nat) returns (ok: bool, out: seq<Queued>)
      requires Valid()
      modifies this
      ensures ok == (|VirtualOnly(old(queue))| <= SMOL_Q_LEN)
      ensures ok ==> Valid() && Value() == ForwardLeading(old(Value()), layer).0
      ensures ok ==> out == Ring(ForwardLeading(old(Value()), layer).1)
    {
      ticksUntilChange, prevLayer, prevQueueLen := 0, layer, |queue| % 256;
      var reals;
      ok, reals, out := DrainVirtual(queue);
      if ok {
        SortedPart(queue, LeadingReleases(reals));
        queue, active, out := DrainLeading(reals, active, out, out);
      }
    }

    /// Stops when an assertion about room fails.
    method DrainInputs(layer: nat) returns (ok: bool, out: seq<Queued>)
      requires Valid()
      modifies this
      ensures var d := ChordsModel.DrainInputs(cfg, old(Value()), layer);
              && ok == (!VirtualOverflow(old(Value()), layer) && |d.value.active| <= MAX_ACTIVE)
              && (ok ==> Valid() && Value() == d.value && out == Ring(d.forwarded))
    {
      ok, out := true, [];
      if ticksToIgnore > 0 {
        out := DrainWithoutNewActivations();
      } else if ticksUntilChange > 0 && prevLayer == layer && prevQueueLen == |queue| {
        ticksUntilChange := SatSub(ticksUntilChange, 1);
      } else {
        ok, out := DrainLeadingEvents(layer);
        if ok {
          ok := ProcessPresses(layer);
        }
      }
    }

    /// Stops when an assertion about room fails.
    method TickChv2(layer: nat) returns (ok: bool, out: seq<Queued>)
      requires Valid()
      modifies this
      ensures var t := Tick(cfg, old(Value()), layer);
              && ok == (!VirtualOverflow(Age(old(Value())), layer) && !t.Overflows())
              && (ok ==> Valid() && Value() == t.value && out == t.Output())
    {
      var before := active;
      ghost var d := ChordsModel.DrainInputs(cfg, Age(Value()), layer);
      queue := TickAll(queue);
      active := Aged(active);
      ok, out := DrainInputs(layer);
      if ok {
        out := PushTriggers(before, active, d.forwarded, out);
        UnreleasedLength(active);
        ok, active, out := ClearReleased(active, d.forwarded + Triggers(before, active), out);
        ticksToIgnore := SatSub(ticksToIgnore, 1);
      }
    }
  }

  /// The no-op events that tell the layout of chords started and released.
  method PushTriggers(before: seq<ActiveChord>, after: seq<ActiveChord>, ghost pushed: seq<Queued>, drained: seq<Queued>)
    returns (out: seq<Queued>)
    requires drained == Ring(pushed)
    ensures out == Ring(pushed + Triggers(before, after))
  {
    var (press, release) := (Queued(Press(TRIGGER), 0), Queued(Release(TRIGGER), 0));
    out := drained;
    ghost var full := pushed;
    if |after| != |before| {
      RingOfSnoc(full, press);
      out, full := RingPush(out, press), full + [press];
    }
    if exists i :: 0 <= i < |after| && IsReleased(after[i].status) {
      RingOfSnoc(full, release);
      out, full := RingPush(out, release), full + [release];
    }
    assert full == pushed + Triggers(before, after);
  }

  lemma {:induction false} UnconsumedSorted(q: seq<Queued>, taken: seq<PressAt>)
    requires Sorted(q)
    ensures Sorted(Unconsumed(q, taken))
    decreases |q|
  {
    if q != [] {
      var n := |q| - 1;
      UnconsumedSorted(q[..n], taken);
      var r := Unconsumed(q[..n], taken);
      forall i | 0 <= i < |r| ensures q[n].since <= r[i].since {
        UnconsumedMembers(q[..n], taken, i);
      }
    }
  }

  lemma SortedPart(q: seq<Queued>, n: nat)
    requires Sorted(q) && n <= |RealOnly(q)|
    ensures Sorted(RealOnly(q)[n..])
  {
    RealOnlyKeeps(q, U16_MAX + |q|);
    assert forall i :: 0 <= i < |RealOnly(q)[n..]| ==> RealOnly(q)[n..][i] == RealOnly(q)[i + n];
  }

  lemma {:induction false} UnreleasedLength(active: seq<ActiveChord>)
    ensures |Unreleased(active)| <= |active|
    decreases |active|
  {
    if active != [] {
      UnreleasedLength(active[..|active| - 1]);
    }
  }
}