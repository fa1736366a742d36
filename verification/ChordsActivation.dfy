/// Which presses become which chord, and when: the decision of chords v2 on the presses at the front of
/// its queue, said without the loops that take it (keyberon/src/chord.rs).

module ChordsActivation {
  import opened Types
  import opened Picking
  import opened ChordsModel
  import opened ChordsHistory

  // ---------------------------------------------------------------------------------------
  // The presses that are read

  ghost function PressesBefore(q: seq<Queued>, n: nat): set<nat>
  {
    set j: nat | j < n && j < |q| && q[j].event.Press?
  }

  /// One of the first sixteen presses.
  ghost predicate Counted(q: seq<Queued>, j: nat)
  {
    j < |q| && q[j].event.Press? && |PressesBefore(q, j)| < SMOL_Q_LEN
  }

  ghost function CountedBefore(q: seq<Queued>, n: nat): set<nat>
  {
    set j: nat | j < n && Counted(q, j)
  }

  ghost predicate PressedBefore(q: seq<Queued>, n: nat, k: nat)
  {
    exists j :: j in CountedBefore(q, n) && q[j].event.coord.col == k
  }

  /// A release of a key that was pressed before.
  ghost predicate EndsReading(q: seq<Queued>, n: nat)
  {
    n < |q| && q[n].event.Release? && PressedBefore(q, n, q[n].event.coord.col)
  }

  /// The reading goes on to the first such release, or to the end of the queue.
  ghost predicate ReadTo(q: seq<Queued>, n: nat)
  {
    n <= |q| && (n < |q| ==> EndsReading(q, n)) && NotEnded(q, n)
  }

  ghost predicate NotEnded(q: seq<Queued>, n: nat)
  {
    forall i: nat :: i < n ==> !EndsReading(q, i)
  }

  ghost predicate AsPresses(xs: seq<Queued>, ps: seq<PressAt>)
  {
    |ps| == |xs| && forall i :: 0 <= i < |ps| ==> ps[i] == PressAt(xs[i].event.coord.col, xs[i].since)
  }

  /// `ps` are the presses in front of a release of one of them, and `released` says whether there is one.
  ghost predicate ReadAs(q: seq<Queued>, ps: seq<PressAt>, released: bool)
  {
    exists n: nat, xs :: ReadTo(q, n) && (released <==> n < |q|) && Picks(q, CountedBefore(q, n), xs) && AsPresses(xs, ps)
  }

  /// After `m` entries: `seen` are the presses counted.
  ghost predicate SeenSoFar(q: seq<Queued>, m: nat, xs: seq<Queued>, seen: seq<PressAt>)
  {
    && m <= |q| && Picks(q, CountedBefore(q, m), xs) && AsPresses(xs, seen)
    && |seen| <= SMOL_Q_LEN
    && (if |seen| < SMOL_Q_LEN then |PressesBefore(q, m)| == |seen| else |PressesBefore(q, m)| >= SMOL_Q_LEN)
  }

  lemma PressedIsCounted(q: seq<Queued>, m: nat, xs: seq<Queued>, seen: seq<PressAt>, i: nat)
    requires SeenSoFar(q, m, xs, seen) && i < |seen|
    ensures PressedBefore(q, m, seen[i].key)
  {
    PicksMembers(q, CountedBefore(q, m), xs);
    assert OneOf(q, CountedBefore(q, m), xs[i]);
  }

  lemma CountedIsPressed(q: seq<Queued>, m: nat, xs: seq<Queued>, seen: seq<PressAt>, j: nat)
    requires SeenSoFar(q, m, xs, seen) && j in CountedBefore(q, m)
    ensures Pressed(seen, q[j].event.coord.col)
  {
    PicksMembers(q, CountedBefore(q, m), xs);
    var i :| 0 <= i < |xs| && xs[i] == q[j];
    assert seen[i].key == q[j].event.coord.col;
  }

  lemma PressedIffCounted(q: seq<Queued>, m: nat, xs: seq<Queued>, seen: seq<PressAt>, k: nat)
    requires SeenSoFar(q, m, xs, seen)
    ensures Pressed(seen, k) <==> PressedBefore(q, m, k)
  {
    if Pressed(seen, k) {
      var i: nat :| i < |seen| && seen[i].key == k;
      PressedIsCounted(q, m, xs, seen, i);
    }
    if PressedBefore(q, m, k) {
      var j :| j in CountedBefore(q, m) && q[j].event.coord.col == k;
      CountedIsPressed(q, m, xs, seen, j);
    }
  }

  lemma OneMorePress(q: seq<Queued>, m: nat)
    requires m < |q|
    ensures PressesBefore(q, m + 1) == PressesBefore(q, m) + (if q[m].event.Press? then {m} else {})
    ensures |PressesBefore(q, m + 1)| == |PressesBefore(q, m)| + if q[m].event.Press? then 1 else 0
  {
    assert m !in PressesBefore(q, m);
  }

  lemma OneMoreCounted(q: seq<Queued>, m: nat, xs: seq<Queued>)
    requires m < |q| && Picks(q, CountedBefore(q, m), xs)
    ensures Picks(q, CountedBefore(q, m + 1), if Counted(q, m) then xs + [q[m]] else xs)
  {
    assert CountedBefore(q, m + 1) == CountedBefore(q, m) + if Counted(q, m) then {m} else {};
    PicksNext(q, m, CountedBefore(q, m), xs, Counted(q, m));
  }

  lemma AsOneMore(xs: seq<Queued>, ps: seq<PressAt>, x: Queued)
    requires AsPresses(xs, ps)
    ensures AsPresses(xs + [x], ps + [PressAt(x.event.coord.col, x.since)])
  {
  }

  lemma SeesNext(q: seq<Queued>, m: nat, xs: seq<Queued>, seen: seq<PressAt>) returns (ys: seq<Queued>, next: seq<PressAt>)
    requires m < |q| && SeenSoFar(q, m, xs, seen)
    ensures SeenSoFar(q, m + 1, ys, next)
    ensures next == if q[m].event.Press? && |seen| < SMOL_Q_LEN then seen + [PressAt(q[m].event.coord.col, q[m].since)] else seen
  {
    OneMorePress(q, m);
    OneMoreCounted(q, m, xs);
    ys, next := xs, seen;
    if Counted(q, m) {
      AsOneMore(xs, seen, q[m]);
      ys, next := xs + [q[m]], seen + [PressAt(q[m].event.coord.col, q[m].since)];
    }
  }

  lemma ReadsUpTo(q: seq<Queued>, m: nat, xs: seq<Queued>, seen: seq<PressAt>)
    requires SeenSoFar(q, m, xs, seen) && ReadTo(q, m)
    ensures ReadAs(q, seen, m < |q|)
  {
  }

  /// The next entry is a press to be counted, ends the reading, or is passed over.
  lemma PressesNext(q: seq<Queued>, m: nat, seen: seq<PressAt>)
    requires m < |q|
    ensures var x := q[m];
            Presses(q[m..], seen) ==
            if x.event.Press? then
              Presses(q[m + 1..], if |seen| < SMOL_Q_LEN then seen + [PressAt(x.event.coord.col, x.since)] else seen)
            else if Pressed(seen, x.event.coord.col) then (seen, true)
            else Presses(q[m + 1..], seen)
  {
    assert q[m..][0] == q[m] && q[m..][1..] == q[m + 1..];
  }

  lemma {:induction false} ReadsOn(q: seq<Queued>, m: nat, xs: seq<Queued>, seen: seq<PressAt>)
    requires SeenSoFar(q, m, xs, seen) && NotEnded(q, m)
    ensures ReadAs(q, Presses(q[m..], seen).0, Presses(q[m..], seen).1)
    decreases |q| - m
  {
    if m == |q| {
      ReadsUpTo(q, m, xs, seen);
    } else {
      PressesNext(q, m, seen);
      PressedIffCounted(q, m, xs, seen, q[m].event.coord.col);
      if EndsReading(q, m) {
        ReadsUpTo(q, m, xs, seen);
      } else {
        var ys, next := SeesNext(q, m, xs, seen);
        ReadsOn(q, m + 1, ys, next);
      }
    }
  }

  /// What is read off the queue.
  lemma PressesAreRead(q: seq<Queued>)
    ensures ReadAs(q, Presses(q, []).0, Presses(q, []).1)
  {
    PicksNone(q);
    assert CountedBefore(q, 0) == {} && PressesBefore(q, 0) == {};
    ReadsOn(q, 0, [], []);
    assert q[0..] == q;
  }

  // ---------------------------------------------------------------------------------------
  // The chords that presses may form

  ghost function Typed(ps: seq<PressAt>): (r: set<nat>)
  {
    set i | 0 <= i < |ps| :: ps[i].key
  }

  /// The keys pressed are among those of the chord, and the last was pressed in time after the first.
  ghost predicate Possible(c: Chord, ps: seq<PressAt>, layer: nat)
    requires ps != []
  {
    && layer !in c.disabledLayers
    && Typed(ps) <= KeySet(c.keys)
    && ps[0].since - ps[|ps| - 1].since <= c.pendingDuration
  }

  /// The keys pressed are those of the chord.
  ghost predicate Made(c: Chord, ps: seq<PressAt>, layer: nat)
  {
    layer !in c.disabledLayers && Typed(ps) == KeySet(c.keys)
  }

  ghost function Candidates(cs: seq<Chord>, ps: seq<PressAt>, layer: nat): set<nat>
    requires ps != []
  {
    set i: nat | i < |cs| && Possible(cs[i], ps, layer)
  }

  /// The only candidate is the chord at `i`, and it is made.
  ghost predicate Alone(cs: seq<Chord>, ps: seq<PressAt>, layer: nat, i: nat)
    requires ps != []
  {
    i < |cs| && Candidates(cs, ps, layer) == {i} && Made(cs[i], ps, layer)
  }

  ghost predicate Settles(cs: seq<Chord>, ps: seq<PressAt>, layer: nat)
    requires ps != []
  {
    Candidates(cs, ps, layer) == {} || exists i: nat :: Alone(cs, ps, layer, i)
  }

  /// The first `n` presses are looked at: those up to the first that settles the matter.
  ghost predicate LooksAt(cs: seq<Chord>, ps: seq<PressAt>, layer: nat, n: nat)
  {
    && 1 <= n <= |ps|
    && (forall m :: 1 <= m < n ==> !Settles(cs, ps[..m], layer))
    && (n < |ps| ==> Settles(cs, ps[..n], layer))
  }

  /// A candidate has a deadline that is still to come.
  ghost predicate MayWait(cs: seq<Chord>, ps: seq<PressAt>, layer: nat, since: u16)
  {
    ps != [] && exists i :: i in Candidates(cs, ps, layer) && since < cs[i].pendingDuration < U16_MAX
  }

  /// `i` is the first chord among `among` that is made.
  ghost predicate FirstMade(cs: seq<Chord>, ps: seq<PressAt>, layer: nat, among: set<nat>, i: nat)
  {
    && i < |cs| && i in among && Made(cs[i], ps, layer)
    && forall j :: j in among && j < i ==> !Made(cs[j], ps, layer)
  }

  ghost predicate NoneMade(cs: seq<Chord>, ps: seq<PressAt>, layer: nat, among: set<nat>)
  {
    forall j :: j in among && j < |cs| ==> !Made(cs[j], ps, layer)
  }

  lemma TypedAre(ps: seq<PressAt>, c: Chord)
    ensures Typed(ps) <= KeySet(c.keys) <==> forall i :: 0 <= i < |ps| ==> ps[i].key in c.keys
    ensures KeySet(c.keys) <= Typed(ps) <==> forall i :: 0 <= i < |c.keys| ==> Pressed(ps, c.keys[i])
  {
    if forall i :: 0 <= i < |ps| ==> ps[i].key in c.keys {
      assert Typed(ps) <= KeySet(c.keys);
    } else {
      var i :| 0 <= i < |ps| && ps[i].key !in c.keys;
      assert ps[i].key in Typed(ps);
    }
    if KeySet(c.keys) <= Typed(ps) {
      forall i | 0 <= i < |c.keys| ensures Pressed(ps, c.keys[i]) {
        assert c.keys[i] in KeySet(c.keys);
      }
    }
  }

  lemma FitsIffPossible(c: Chord, ps: seq<PressAt>, layer: nat)
    requires ps != []
    ensures Fits(c, ps, layer) <==> Possible(c, ps, layer)
  {
    TypedAre(ps, c);
  }

  lemma IsExactIffMade(c: Chord, ps: seq<PressAt>, layer: nat)
    ensures SameKeys(c, ps) <==> Typed(ps) == KeySet(c.keys)
    ensures IsExact(c, ps, layer) <==> Made(c, ps, layer)
  {
    TypedAre(ps, c);
  }

  ghost function CandidatesBefore(cs: seq<Chord>, ps: seq<PressAt>, layer: nat, n: nat): set<nat>
    requires ps != []
  {
    set i: nat | i < n && i < |cs| && Possible(cs[i], ps, layer)
  }

  lemma {:induction false} FittingSoFar(cs: seq<Chord>, ps: seq<PressAt>, layer: nat, n: nat)
    requires ps != [] && n <= |cs|
    ensures Picks(cs, CandidatesBefore(cs, ps, layer, n), Fitting(cs[..n], ps, layer))
    decreases n
  {
    if n == 0 {
      PicksNone(cs);
      assert CandidatesBefore(cs, ps, layer, 0) == {};
    } else {
      var m := n - 1;
      FittingSoFar(cs, ps, layer, m);
      FitsIffPossible(cs[m], ps, layer);
      assert cs[..n][..m] == cs[..m] && cs[..n][m] == cs[m];
      PicksNext(cs, m, CandidatesBefore(cs, ps, layer, m), Fitting(cs[..m], ps, layer), Fits(cs[m], ps, layer));
      assert CandidatesBefore(cs, ps, layer, n) ==
             CandidatesBefore(cs, ps, layer, m) + if Possible(cs[m], ps, layer) then {m} else {};
    }
  }

  /// The list that the scan keeps is that of the candidates.
  lemma FittingAreCandidates(cs: seq<Chord>, ps: seq<PressAt>, layer: nat)
    requires ps != []
    ensures Picks(cs, Candidates(cs, ps, layer), Fitting(cs, ps, layer))
    ensures |Fitting(cs, ps, layer)| == |Candidates(cs, ps, layer)|
  {
    FittingSoFar(cs, ps, layer, |cs|);
    assert cs[..|cs|] == cs;
    assert CandidatesBefore(cs, ps, layer, |cs|) == Candidates(cs, ps, layer);
    PicksSize(cs, Candidates(cs, ps, layer), Fitting(cs, ps, layer));
  }

  lemma LoneCandidate(cs: seq<Chord>, ps: seq<PressAt>, layer: nat, i: nat)
    requires ps != [] && Alone(cs, ps, layer, i)
    ensures Fitting(cs, ps, layer) == [cs[i]] && SameKeys(cs[i], ps)
  {
    var (fitting, all) := (Fitting(cs, ps, layer), Candidates(cs, ps, layer));
    FittingAreCandidates(cs, ps, layer);
    PicksMembers(cs, all, fitting);
    assert OneOf(cs, all, fitting[0]);
    IsExactIffMade(cs[i], ps, layer);
  }

  lemma LoneFitting(cs: seq<Chord>, ps: seq<PressAt>, layer: nat) returns (i: nat)
    requires ps != [] && |Fitting(cs, ps, layer)| == 1 && SameKeys(Fitting(cs, ps, layer)[0], ps)
    ensures Alone(cs, ps, layer, i)
  {
    var (fitting, all) := (Fitting(cs, ps, layer), Candidates(cs, ps, layer));
    FittingAreCandidates(cs, ps, layer);
    PicksMembers(cs, all, fitting);
    assert OneOf(cs, all, fitting[0]);
    i :| i in all && i < |cs| && cs[i] == fitting[0];
    OnlyOne(all, i);
    IsExactIffMade(cs[i], ps, layer);
  }

  lemma OnlyOne(all: set<nat>, i: nat)
    requires |all| == 1 && i in all
    ensures all == {i}
  {
    assert |all - {i}| == 0;
  }

  /// Going on, the scan keeps the candidates and the next deadline of the presses taken.
  ghost predicate Scanned(cs: seq<Chord>, ps: seq<PressAt>, layer: nat, since: u16, m: nat, v: Verdict)
    requires m <= |ps|
  {
    && v.taken == ps[..m] && v.activated == [] && !v.ignore
    && (m == 0 ==> v.candidates == [] && v.wait == 0)
    && (m > 0 ==> v.candidates == Fitting(cs, ps[..m], layer) && v.wait == WaitFor(MinTimeout(v.candidates, since), since))
  }

  lemma UnsettledGoesOn(cs: seq<Chord>, ps: seq<PressAt>, layer: nat)
    requires ps != [] && !Settles(cs, ps, layer)
    ensures var fitting := Fitting(cs, ps, layer);
            |fitting| > 0 && !(|fitting| == 1 && SameKeys(fitting[0], ps))
  {
    FittingAreCandidates(cs, ps, layer);
    if |Fitting(cs, ps, layer)| == 1 && SameKeys(Fitting(cs, ps, layer)[0], ps) {
      var i := LoneFitting(cs, ps, layer);
    }
  }

  lemma {:induction false} ScanTo(cs: seq<Chord>, ps: seq<PressAt>, layer: nat, since: u16, released: bool, coord: nat, m: nat)
    returns (v: Verdict)
    requires m <= |ps| && forall k :: 1 <= k <= m ==> !Settles(cs, ps[..k], layer)
    ensures Scan(cs, ps, 0, layer, since, released, Verdict([], [], [], false, 0, coord))
         == Scan(cs, ps, m, layer, since, released, v)
    ensures Scanned(cs, ps, layer, since, m, v)
    decreases m
  {
    if m == 0 {
      v := Verdict([], [], [], false, 0, coord);
    } else {
      var before := ScanTo(cs, ps, layer, since, released, coord, m - 1);
      UnsettledGoesOn(cs, ps[..m], layer);
      ScanGoesOn(cs, ps, m - 1, layer, since, released, before);
      v := NextVerdict(before, ps[..m], Fitting(cs, ps[..m], layer), since);
    }
  }

  /// Of the deadlines of candidates that are still to come, `t` is the first.
  ghost predicate NextDeadline(cs: seq<Chord>, ps: seq<PressAt>, layer: nat, since: u16, t: u16)
    requires ps != []
  {
    && since < t
    && (exists i :: i in Candidates(cs, ps, layer) && cs[i].pendingDuration == t)
    && (forall i :: i in Candidates(cs, ps, layer) && since < cs[i].pendingDuration ==> t <= cs[i].pendingDuration)
  }

  lemma DeadlineIsOne(cs: seq<Chord>, ps: seq<PressAt>, layer: nat, since: u16)
    requires ps != []
    ensures var t := MinTimeout(Fitting(cs, ps, layer), since);
            t == U16_MAX || (since < t && exists i :: i in Candidates(cs, ps, layer) && cs[i].pendingDuration == t)
  {
    var (fitting, all) := (Fitting(cs, ps, layer), Candidates(cs, ps, layer));
    FittingAreCandidates(cs, ps, layer);
    PicksMembers(cs, all, fitting);
    MinTimeoutIsADeadline(fitting, since);
    var t := MinTimeout(fitting, since);
    if t < U16_MAX {
      var c :| c in fitting && c.pendingDuration == t;
      var k :| 0 <= k < |fitting| && fitting[k] == c;
      assert OneOf(cs, all, fitting[k]);
    }
  }

  lemma DeadlineIsFirst(cs: seq<Chord>, ps: seq<PressAt>, layer: nat, since: u16, i: nat)
    requires ps != [] && i in Candidates(cs, ps, layer) && since < cs[i].pendingDuration
    ensures MinTimeout(Fitting(cs, ps, layer), since) <= cs[i].pendingDuration
  {
    var (fitting, all) := (Fitting(cs, ps, layer), Candidates(cs, ps, layer));
    FittingAreCandidates(cs, ps, layer);
    PicksMembers(cs, all, fitting);
    MinTimeoutIsADeadline(fitting, since);
    assert cs[i] in fitting;
  }

  lemma WaitIsToDeadline(cs: seq<Chord>, ps: seq<PressAt>, layer: nat, since: u16)
    requires ps != []
    ensures var t := MinTimeout(Fitting(cs, ps, layer), since);
            && (WaitFor(t, since) > 0 <==> MayWait(cs, ps, layer, since))
            && (MayWait(cs, ps, layer, since) ==> NextDeadline(cs, ps, layer, since, t) && WaitFor(t, since) == t - since)
  {
    DeadlineIsOne(cs, ps, layer, since);
    forall i | i in Candidates(cs, ps, layer) && since < cs[i].pendingDuration
      ensures MinTimeout(Fitting(cs, ps, layer), since) <= cs[i].pendingDuration
    {
      DeadlineIsFirst(cs, ps, layer, since, i);
    }
  }

  /// The first chord of a list that is made, by its position.
  lemma ExactIsFirstMade(cs: seq<Chord>, ps: seq<PressAt>, layer: nat, keep: set<nat>, r: seq<Chord>) returns (i: nat)
    requires Picks(cs, keep, r)
    ensures if Exact(r, ps, layer).Some? then FirstMade(cs, ps, layer, keep, i) && Exact(r, ps, layer).value == cs[i]
            else NoneMade(cs, ps, layer, keep)
  {
    var js :| Ascending(js) && Elements(js) == keep && TakenAt(cs, js, r);
    var k := ExactIsFirst(r, ps, layer);
    i := if k < |r| then js[k] else 0;
    forall j | j in keep && j < |cs| && (k < |r| ==> j < i) ensures !Made(cs[j], ps, layer) {
      var h :| 0 <= h < |js| && js[h] == j;
      assert h < k && !IsExact(r[h], ps, layer);
      IsExactIffMade(cs[j], ps, layer);
    }
    if k < |r| {
      assert i in Elements(js);
      IsExactIffMade(cs[i], ps, layer);
    }
  }

  // ---------------------------------------------------------------------------------------
  // The decision

  /// A chord that has just been started, and what it is started with.
  ghost predicate StartOf(a: ActiveChord, c: Chord, since: u16, released: bool)
  {
    && a.keys == c.keys && a.action == c.action && a.delay == since
    && a.remaining == (match c.releaseBehaviour case OnLastRelease => c.keys case OnFirstRelease => [])
    && a.status == if released && c.releaseBehaviour.OnFirstRelease? then UnreadReleased else Unread
  }

  ghost function All(cs: seq<Chord>): set<nat>
  {
    set i: nat {:trigger cs[i]} | i < |cs|
  }

  lemma AllPicked(cs: seq<Chord>)
    ensures Picks(cs, All(cs), cs)
  {
    PicksAll(cs, All(cs));
  }

  /// Where a list of sixteen candidates would be full, all chords are searched.
  ghost function Among(cs: seq<Chord>, ps: seq<PressAt>, layer: nat): set<nat>
    requires ps != []
  {
    if |Candidates(cs, ps, layer)| >= SMOL_Q_LEN then All(cs) else Candidates(cs, ps, layer)
  }

  /// Nothing is left to wait for: a key was released, or no deadline of a candidate is to come.
  ghost predicate NowOrNever(cs: seq<Chord>, ps: seq<PressAt>, layer: nat, since: u16, released: bool)
  {
    released || !MayWait(cs, ps, layer, since)
  }

  /// The first `k` presses are the chord at `i`: `n` were looked at, and the chord is the only candidate
  /// left, or no chord is possible with another press, or there are no more presses and nothing to wait for.
  ghost predicate Becomes(cs: seq<Chord>, ps: seq<PressAt>, layer: nat, since: u16, released: bool, n: nat, k: nat, i: nat)
    requires 1 <= n <= |ps|
  {
    || (k == n && Alone(cs, ps[..n], layer, i))
    || (k == n - 1 && Candidates(cs, ps[..n], layer) == {} && FirstMade(cs, ps[..k], layer, All(cs), i))
    || (k == n == |ps| && !Settles(cs, ps, layer) && NowOrNever(cs, ps, layer, since, released)
        && FirstMade(cs, ps, layer, Among(cs, ps, layer), i))
  }

  ghost predicate NothingBecomes(cs: seq<Chord>, ps: seq<PressAt>, layer: nat, since: u16, released: bool, n: nat)
    requires 1 <= n <= |ps|
  {
    forall k, i :: !Becomes(cs, ps, layer, since, released, n, k, i)
  }

  /// All presses were looked at and a longer chord may still come.
  ghost predicate Pends(cs: seq<Chord>, ps: seq<PressAt>, layer: nat, since: u16, released: bool, n: nat)
    requires 1 <= n <= |ps|
  {
    n == |ps| && !Settles(cs, ps, layer) && !NowOrNever(cs, ps, layer, since, released)
  }

  /// The chord is started twice.
  ghost predicate Twice(cs: seq<Chord>, ps: seq<PressAt>, layer: nat, since: u16, released: bool, n: nat, i: nat)
    requires 1 <= n <= |ps|
  {
    Alone(cs, ps[..n], layer, i) && NowOrNever(cs, ps[..n - 1], layer, since, released)
  }

  /// Chords are ignored for a while although one is started.
  ghost predicate IgnoresToo(cs: seq<Chord>, ps: seq<PressAt>, layer: nat, since: u16, released: bool, n: nat)
    requires 1 <= n <= |ps|
  {
    Candidates(cs, ps[..n], layer) == {} && NowOrNever(cs, ps[..n - 1], layer, since, released)
  }

  ghost predicate AllStarted(started: seq<ActiveChord>, cs: seq<Chord>, i: nat, since: u16, released: bool)
  {
    forall a :: a in started ==> i < |cs| && StartOf(a, cs[i], since, released)
  }

  /// Chords get successive coordinates, over and over through fifty of them.
  ghost predicate InTurn(started: seq<ActiveChord>, next: nat)
  {
    forall i :: 0 <= i < |started| ==>
      var c := started[i].coordinate;
      (if i + 1 < |started| then started[i + 1].coordinate else next) == if c >= 900 then 851 else c + 1
  }

  lemma StartedIs(v: Verdict, cs: seq<Chord>, i: nat, since: u16, released: bool)
    requires i < |cs| && AllStarted(v.activated, cs, i, since, released) && InTurn(v.activated, v.nextCoord)
    ensures var r := Started(v, cs[i], since, released);
            && AllStarted(r.activated, cs, i, since, released) && |r.activated| == |v.activated| + 1
            && InTurn(r.activated, r.nextCoord)
            && r.taken == v.taken && r.ignore == v.ignore && r.wait == v.wait && r.candidates == v.candidates
  {
  }

  lemma FoundAgain(cs: seq<Chord>, layer: nat, since: u16, released: bool, v: Verdict, i: nat)
    requires i < |cs| && v.candidates == [cs[i]] && Made(cs[i], v.taken, layer) && AllStarted(v.activated, cs, i, since, released)
    requires InTurn(v.activated, v.nextCoord)
    ensures var j := Conclude(cs, layer, since, released, v);
            && j.taken == v.taken && j.ignore == v.ignore && AllStarted(j.activated, cs, i, since, released)
            && InTurn(j.activated, j.nextCoord)
            && |j.activated| == |v.activated| + if released || v.wait == 0 then 1 else 0
  {
    IsExactIffMade(cs[i], v.taken, layer);
    assert Exact([cs[i]], v.taken, layer) == Some(cs[i]);
    StartedIs(v, cs, i, since, released);
  }

  /// A candidate that is left alone is found again at the end where nothing was left to wait for.
  lemma JudgesAlone(cs: seq<Chord>, ps: seq<PressAt>, layer: nat, since: u16, released: bool, coord: nat, n: nat, i: nat)
    requires LooksAt(cs, ps, layer, n) && Alone(cs, ps[..n], layer, i)
    ensures var j := Judge(cs, ps, layer, since, released, coord);
            && j.taken == ps[..n] && !j.ignore && AllStarted(j.activated, cs, i, since, released)
            && InTurn(j.activated, j.nextCoord)
            && |j.activated| == if Twice(cs, ps, layer, since, released, n, i) then 2 else 1
  {
    var v := ScanTo(cs, ps, layer, since, released, coord, n - 1);
    LoneCandidate(cs, ps[..n], layer, i);
    ScanSucceeds(cs, ps, n - 1, layer, since, released, v);
    var v1 := v.(taken := ps[..n], candidates := [cs[i]]);
    StartedIs(v1, cs, i, since, released);
    WaitsAfter(cs, ps, layer, since, n - 1, v);
    FoundAgain(cs, layer, since, released, Started(v1, cs[i], since, released), i);
  }

  lemma WaitsAfter(cs: seq<Chord>, ps: seq<PressAt>, layer: nat, since: u16, m: nat, v: Verdict)
    requires m <= |ps| && Scanned(cs, ps, layer, since, m, v)
    ensures v.wait > 0 <==> MayWait(cs, ps[..m], layer, since)
  {
    if m > 0 {
      WaitIsToDeadline(cs, ps[..m], layer, since);
    }
  }

  /// No chord is possible with the last press looked at: the others are a chord, or chords are ignored.
  lemma JudgesTooMany(cs: seq<Chord>, ps: seq<PressAt>, layer: nat, since: u16, released: bool, coord: nat, n: nat) returns (i: nat)
    requires LooksAt(cs, ps, layer, n) && Candidates(cs, ps[..n], layer) == {}
    ensures var j := Judge(cs, ps, layer, since, released, coord);
            && j.taken == ps[..n - 1] && AllStarted(j.activated, cs, i, since, released) && InTurn(j.activated, j.nextCoord)
            && (if j.activated == [] then NoneMade(cs, ps[..n - 1], layer, All(cs)) && j.ignore
                else FirstMade(cs, ps[..n - 1], layer, All(cs), i) && |j.activated| == 1
                     && (j.ignore <==> IgnoresToo(cs, ps, layer, since, released, n)))
  {
    var v := ScanTo(cs, ps, layer, since, released, coord, n - 1);
    FittingAreCandidates(cs, ps[..n], layer);
    ScanFails(cs, ps, n - 1, layer, since, released, v);
    WaitsAfter(cs, ps, layer, since, n - 1, v);
    AllPicked(cs);
    i := ExactIsFirstMade(cs, ps[..n - 1], layer, All(cs), cs);
    var v1 := v.(taken := ps[..n - 1], candidates := []);
    if Exact(cs, ps[..n - 1], layer).Some? {
      StartedIs(v1, cs, i, since, released);
    }
  }

  lemma PressesPend(cs: seq<Chord>, ps: seq<PressAt>, layer: nat, since: u16, released: bool, coord: nat) returns (d: u16)
    requires LooksAt(cs, ps, layer, |ps|) && Pends(cs, ps, layer, since, released, |ps|)
    ensures var j := Judge(cs, ps, layer, since, released, coord);
            && j.activated == [] && !j.ignore
            && NextDeadline(cs, ps, layer, since, d) && j.wait == d - since
  {
    assert ps[..|ps|] == ps;
    var v := ScanTo(cs, ps, layer, since, released, coord, |ps|);
    WaitIsToDeadline(cs, ps, layer, since);
    d := MinTimeout(Fitting(cs, ps, layer), since);
  }

  /// All presses are looked at and there is nothing to wait for.
  lemma JudgesAllPresses(cs: seq<Chord>, ps: seq<PressAt>, layer: nat, since: u16, released: bool, coord: nat) returns (i: nat)
    requires LooksAt(cs, ps, layer, |ps|) && !Settles(cs, ps, layer) && NowOrNever(cs, ps, layer, since, released)
    ensures var j := Judge(cs, ps, layer, since, released, coord);
            && j.taken == ps && AllStarted(j.activated, cs, i, since, released) && InTurn(j.activated, j.nextCoord)
            && (if j.activated == [] then NoneMade(cs, ps, layer, Among(cs, ps, layer)) && j.ignore
                else FirstMade(cs, ps, layer, Among(cs, ps, layer), i) && |j.activated| == 1 && !j.ignore)
  {
    assert ps[..|ps|] == ps;
    var v := ScanTo(cs, ps, layer, since, released, coord, |ps|);
    WaitsAfter(cs, ps, layer, since, |ps|, v);
    FittingAreCandidates(cs, ps, layer);
    AllPicked(cs);
    var list := if |v.candidates| >= SMOL_Q_LEN then cs else v.candidates;
    assert Picks(cs, Among(cs, ps, layer), list);
    i := ConcludesAs(cs, ps, layer, since, released, v, Among(cs, ps, layer), list);
  }

  lemma ConcludesAs(cs: seq<Chord>, ps: seq<PressAt>, layer: nat, since: u16, released: bool, v: Verdict, among: set<nat>, list: seq<Chord>)
    returns (i: nat)
    requires v.taken == ps && v.activated == [] && !v.ignore && (released || v.wait == 0)
    requires list == (if |v.candidates| >= SMOL_Q_LEN then cs else v.candidates) && Picks(cs, among, list)
    ensures var j := Conclude(cs, layer, since, released, v);
            && j.taken == ps && AllStarted(j.activated, cs, i, since, released) && InTurn(j.activated, j.nextCoord)
            && (if j.activated == [] then NoneMade(cs, ps, layer, among) && j.ignore
                else FirstMade(cs, ps, layer, among, i) && |j.activated| == 1 && !j.ignore)
  {
    i := ExactIsFirstMade(cs, ps, layer, among, list);
    if Exact(list, ps, layer).Some? {
      StartedIs(v, cs, i, since, released);
    }
  }

  // ---------------------------------------------------------------------------------------
  // What a tick leaves to decide on

  /// Real events from the first press of a real key on.
  ghost function FrontPart(q: seq<Queued>): set<nat>
  {
    set j: nat | j < |q| && Real(q[j].event) && exists h: nat :: h <= j && Real(q[h].event) && q[h].event.Press?
  }

  ghost function RealBefore(q: seq<Queued>, n: nat): set<nat>
  {
    set j: nat | j < n && j < |q| && Real(q[j].event)
  }

  lemma {:induction false} RealsSoFar(q: seq<Queued>, n: nat)
    requires n <= |q|
    ensures Picks(q, RealBefore(q, n), RealOnly(q[..n]))
    decreases n
  {
    if n == 0 {
      PicksNone(q);
      assert RealBefore(q, 0) == {};
    } else {
      var m := n - 1;
      RealsSoFar(q, m);
      assert q[..n][..m] == q[..m] && q[..n][m] == q[m];
      PicksNext(q, m, RealBefore(q, m), RealOnly(q[..m]), Real(q[m].event));
      assert RealBefore(q, n) == RealBefore(q, m) + if Real(q[m].event) then {m} else {};
    }
  }

  lemma FrontIsLeft(q: seq<Queued>)
    ensures var reals := RealOnly(q);
            Picks(q, FrontPart(q), reals[LeadingReleases(reals)..])
  {
    var reals := RealOnly(q);
    var n := LeadingReleases(reals);
    RealsSoFar(q, |q|);
    assert q[..|q|] == q;
    var js :| Ascending(js) && Elements(js) == RealBefore(q, |q|) && TakenAt(q, js, reals);
    var ks := js[n..];
    forall j | j in Elements(ks) ensures j in FrontPart(q) {
      var i :| n <= i < |js| && js[i] == j;
      FrontMember(q, js, reals, n, i);
    }
    forall j | j in FrontPart(q) ensures j in Elements(ks) {
      var h: nat :| h <= j && Real(q[h].event) && q[h].event.Press?;
      FrontPosition(q, js, reals, n, j, h);
    }
    assert Elements(ks) == FrontPart(q);
    assert TakenAt(q, ks, reals[n..]);
  }

  lemma FrontMember(q: seq<Queued>, js: seq<nat>, reals: seq<Queued>, n: nat, i: nat)
    requires Ascending(js) && Elements(js) == RealBefore(q, |q|) && TakenAt(q, js, reals)
    requires n <= i < |js| && reals[n].event.Press?
    ensures js[i] in FrontPart(q)
  {
    assert js[i] in RealBefore(q, |q|) && js[n] in RealBefore(q, |q|);
    assert js[n] <= js[i] && Real(q[js[n]].event) && q[js[n]].event.Press?;
  }

  lemma FrontPosition(q: seq<Queued>, js: seq<nat>, reals: seq<Queued>, n: nat, j: nat, h: nat)
    requires Ascending(js) && Elements(js) == RealBefore(q, |q|) && TakenAt(q, js, reals)
    requires n <= |js| && forall i :: 0 <= i < n ==> reals[i].event.Release?
    requires j in FrontPart(q) && h <= j && Real(q[h].event) && q[h].event.Press?
    ensures j in js[n..]
  {
    assert j in RealBefore(q, |q|) && h in RealBefore(q, |q|);
    var i :| 0 <= i < |js| && js[i] == j;
    var k :| 0 <= k < |js| && js[k] == h;
    assert n <= k <= i;
    assert js[n..][i - n] == j;
  }

  ghost function PressesOn(q: seq<Queued>, ks: set<nat>): set<nat>
  {
    set j: nat | j < |q| && q[j].event.Press? && q[j].event.coord.col in ks
  }

  ghost function OtherThan(q: seq<Queued>, ks: set<nat>): set<nat>
  {
    set j: nat | j < |q| && !(q[j].event.Press? && q[j].event.coord.col in ks)
  }

  ghost function OnBefore(q: seq<Queued>, ks: set<nat>, n: nat): set<nat>
  {
    set j: nat | j < n && j < |q| && q[j].event.Press? && q[j].event.coord.col in ks
  }

  ghost function OtherBefore(q: seq<Queued>, ks: set<nat>, n: nat): set<nat>
  {
    set j: nat | j < n && j < |q| && !(q[j].event.Press? && q[j].event.coord.col in ks)
  }

  lemma ConsumedIffTyped(x: Queued, taken: seq<PressAt>)
    ensures Consumed(x, taken) <==> x.event.Press? && x.event.coord.col in Typed(taken)
  {
  }

  lemma OtherNext(q: seq<Queued>, ks: set<nat>, m: nat)
    requires m < |q|
    ensures var on := q[m].event.Press? && q[m].event.coord.col in ks;
            && OnBefore(q, ks, m + 1) == OnBefore(q, ks, m) + (if on then {m} else {})
            && OtherBefore(q, ks, m + 1) == OtherBefore(q, ks, m) + (if on then {} else {m})
  {
  }

  lemma {:induction false} ConsumedSoFar(q: seq<Queued>, taken: seq<PressAt>, n: nat)
    requires n <= |q|
    ensures Picks(q, OnBefore(q, Typed(taken), n), Taken(q[..n], taken))
    decreases n
  {
    var ks := Typed(taken);
    if n == 0 {
      PicksNone(q);
      assert OnBefore(q, ks, 0) == {};
    } else {
      var m := n - 1;
      ConsumedSoFar(q, taken, m);
      ConsumedIffTyped(q[m], taken);
      assert q[..n][..m] == q[..m] && q[..n][m] == q[m];
      PicksNext(q, m, OnBefore(q, ks, m), Taken(q[..m], taken), Consumed(q[m], taken));
      OtherNext(q, ks, m);
    }
  }

  lemma {:induction false} LeftSoFar(q: seq<Queued>, taken: seq<PressAt>, n: nat)
    requires n <= |q|
    ensures Picks(q, OtherBefore(q, Typed(taken), n), Unconsumed(q[..n], taken))
    decreases n
  {
    var ks := Typed(taken);
    if n == 0 {
      PicksNone(q);
      assert OtherBefore(q, ks, 0) == {};
    } else {
      var m := n - 1;
      LeftSoFar(q, taken, m);
      ConsumedIffTyped(q[m], taken);
      assert q[..n][..m] == q[..m] && q[..n][m] == q[m];
      PicksNext(q, m, OtherBefore(q, ks, m), Unconsumed(q[..m], taken), !Consumed(q[m], taken));
      OtherNext(q, ks, m);
    }
  }

  lemma ConsumedAreTyped(q: seq<Queued>, taken: seq<PressAt>)
    ensures Picks(q, PressesOn(q, Typed(taken)), Taken(q, taken))
    ensures Picks(q, OtherThan(q, Typed(taken)), Unconsumed(q, taken))
  {
    ConsumedSoFar(q, taken, |q|);
    LeftSoFar(q, taken, |q|);
    assert q[..|q|] == q;
    assert PressesOn(q, Typed(taken)) == OnBefore(q, Typed(taken), |q|);
    assert OtherThan(q, Typed(taken)) == OtherBefore(q, Typed(taken), |q|);
  }

  // ---------------------------------------------------------------------------------------
  // One tick

  /// Chords are not ignored, and something has arrived, the layer has changed or a deadline is due.
  ghost predicate Evaluates(v: ChordsValue, layer: nat)
  {
    v.ticksToIgnore == 0 && !(v.ticksUntilChange > 0 && v.prevLayer == layer && v.prevQueueLen == |v.queue|)
  }

  /// `q` is what a tick leaves to decide on, and the presses `ps` are read off it.
  ghost predicate Reads(v: ChordsValue, q: seq<Queued>, ps: seq<PressAt>, released: bool)
  {
    Picks(TickAll(v.queue), FrontPart(TickAll(v.queue)), q) && ReadAs(q, ps, released)
  }

  lemma ReadOnce(q: seq<Queued>, ps: seq<PressAt>, released: bool)
    requires ReadAs(q, ps, released)
    ensures Presses(q, []) == (ps, released)
  {
    PressesAreRead(q);
    var m: nat, xs :| ReadTo(q, m) && (released <==> m < |q|) && Picks(q, CountedBefore(q, m), xs) && AsPresses(xs, ps);
    var (ps1, released1) := Presses(q, []);
    var n: nat, ys :| ReadTo(q, n) && (released1 <==> n < |q|) && Picks(q, CountedBefore(q, n), ys) && AsPresses(ys, ps1);
    assert m == n;
    PicksOnce(q, CountedBefore(q, n), xs, ys);
    assert ps == ps1;
  }

  lemma {:induction false} FirstIsPress(q: seq<Queued>, ps: seq<PressAt>)
    requires ps == Presses(q, []).0 && ps != [] && q[0].event.Press?
    ensures ps[0] == PressAt(q[0].event.coord.col, q[0].since)
  {
    PressesAreQueued(q, []);
  }

  lemma FrontStartsWithPress(v: ChordsValue, layer: nat, q: seq<Queued>)
    requires Picks(TickAll(v.queue), FrontPart(TickAll(v.queue)), q)
    ensures ForwardLeading(Age(v), layer).0.queue == q
    ensures q != [] ==> q[0].event.Press?
  {
    var aged := TickAll(v.queue);
    FrontIsLeft(aged);
    var reals := RealOnly(aged);
    PicksOnce(aged, FrontPart(aged), q, reals[LeadingReleases(reals)..]);
  }

  /// The decision on the presses read.
  ghost function Decision(cfg: Config, v: ChordsValue, ps: seq<PressAt>, layer: nat, released: bool): Verdict
    requires ps != [] && ps[0].key in cfg.chords
  {
    Judge(cfg.chords[ps[0].key], ps, layer, ps[0].since, released, v.nextCoord)
  }

  /// What a tick does about a verdict.
  ghost predicate Follows(cfg: Config, t: TickResult, q: seq<Queued>, j: Verdict)
  {
    && t.drained.started == j.activated
    && t.drained.consumed == (if j.activated == [] then [] else Taken(q, j.taken))
    && t.value.queue == (if j.activated == [] then q else Unconsumed(q, j.taken))
    && t.value.ticksToIgnore == (if j.ignore then SatSub(cfg.ignoreTicks, 1) else 0)
    && t.value.ticksUntilChange == j.wait && t.value.nextCoord == j.nextCoord
  }

  lemma TickFollowsDecision(cfg: Config, v: ChordsValue, layer: nat, q: seq<Queued>, ps: seq<PressAt>, released: bool)
    requires Evaluates(v, layer) && Reads(v, q, ps, released) && ps != [] && ps[0].key in cfg.chords
    ensures Follows(cfg, Tick(cfg, v, layer), q, Decision(cfg, v, ps, layer, released))
  {
    var (v1, forwarded, seen) := ForwardLeading(Age(v), layer);
    FrontStartsWithPress(v, layer, q);
    ReadOnce(q, ps, released);
    FirstIsPress(q, ps);
    assert JudgeQueue(cfg, q, layer, v.nextCoord) == Decision(cfg, v, ps, layer, released);
    assert DrainInputs(cfg, Age(v), layer) == ProcessPresses(cfg, v1, layer, forwarded, seen);
  }

  function LastOf(active: seq<ActiveChord>, n: nat): (r: seq<ActiveChord>)
  {
    if n <= |active| then active[|active| - n..] else active
  }

  lemma {:induction false} UnreleasedKeepsLast(active: seq<ActiveChord>, more: seq<ActiveChord>)
    requires forall a :: a in more ==> !a.status.Released?
    ensures Unreleased(active + more) == Unreleased(active) + more
    decreases |more|
  {
    if more == [] {
      assert active + more == active;
    } else {
      var n := |more| - 1;
      assert more == more[..n] + [more[n]];
      assert (active + more)[..|active| + n] == active + more[..n];
      UnreleasedKeepsLast(active, more[..n]);
    }
  }

  /// What is started is active after the tick, behind the others.
  lemma StartedAreActive(cfg: Config, v: ChordsValue, layer: nat)
    requires ValidConfig(cfg)
    ensures var t := Tick(cfg, v, layer);
            t.drained.started == LastOf(t.value.active, |t.drained.started|)
  {
    var d := DrainInputs(cfg, Age(v), layer);
    DrainedActive(cfg, Age(v), layer);
    StartedChordsLive(cfg, Age(v), layer);
    UnreleasedKeepsLast(Forward(Age(v).active, d.seen), d.started);
  }

  /// The chord at `i` of those listed for the first key is started, and with it go exactly the queued presses
  /// of its keys.
  ghost predicate Starts(t: TickResult, q: seq<Queued>, cs: seq<Chord>, i: nat, since: u16, released: bool)
  {
    && i < |cs| && t.drained.started != [] && AllStarted(t.drained.started, cs, i, since, released)
    && InTurn(t.drained.started, t.value.nextCoord)
    && t.drained.started == LastOf(t.value.active, |t.drained.started|)
    && Picks(q, PressesOn(q, KeySet(cs[i].keys)), t.drained.consumed)
    && Picks(q, OtherThan(q, KeySet(cs[i].keys)), t.value.queue)
  }

  ghost predicate StartsNone(t: TickResult, q: seq<Queued>)
  {
    t.drained.started == [] && t.drained.consumed == [] && t.value.queue == q
  }

  /// From this tick on chords are ignored.
  ghost predicate Ignoring(cfg: Config, t: TickResult)
  {
    t.value.ticksToIgnore == cfg.ignoreTicks - 1
  }

  lemma FollowsStart(cfg: Config, t: TickResult, q: seq<Queued>, j: Verdict, cs: seq<Chord>, ps: seq<PressAt>, layer: nat,
                     since: u16, released: bool, n: nat, k: nat, i: nat)
    requires ValidConfig(cfg) && Follows(cfg, t, q, j) && t.drained.started == LastOf(t.value.active, |t.drained.started|)
    requires 1 <= n <= |ps| && StartsChord(j, cs, ps, layer, since, released, n, k, i)
    ensures Starts(t, q, cs, i, since, released) && Typed(ps[..k]) == KeySet(cs[i].keys)
    ensures |t.drained.started| == (if Twice(cs, ps, layer, since, released, n, i) then 2 else 1)
    ensures Ignoring(cfg, t) <==> IgnoresToo(cs, ps, layer, since, released, n)
  {
    ConsumedAreTyped(q, ps[..k]);
  }

  lemma FollowsNone(cfg: Config, t: TickResult, q: seq<Queued>, j: Verdict)
    requires ValidConfig(cfg) && Follows(cfg, t, q, j) && j.activated == []
    ensures StartsNone(t, q) && t.value.ticksUntilChange == j.wait && (Ignoring(cfg, t) <==> j.ignore)
    ensures !j.ignore ==> t.value.ticksToIgnore == 0
  {
  }

  lemma FirstIsOne(cs: seq<Chord>, ps: seq<PressAt>, layer: nat, among: set<nat>, f: nat, i: nat)
    requires FirstMade(cs, ps, layer, among, i)
    ensures !NoneMade(cs, ps, layer, among)
    ensures FirstMade(cs, ps, layer, among, f) ==> f == i
  {
  }

  lemma UnsettledAtEnd(cs: seq<Chord>, ps: seq<PressAt>, layer: nat, since: u16, released: bool, n: nat)
    requires LooksAt(cs, ps, layer, n) && Candidates(cs, ps[..n], layer) != {}
    requires NothingBecomes(cs, ps, layer, since, released, n)
    ensures n == |ps| && !Settles(cs, ps, layer)
  {
    if exists i: nat :: Alone(cs, ps[..n], layer, i) {
      var i: nat :| Alone(cs, ps[..n], layer, i);
      assert Becomes(cs, ps, layer, since, released, n, n, i);
    }
    assert n == |ps| ==> ps[..n] == ps;
  }

  /// The verdict starts the chord at `i` for the first `k` presses.
  ghost predicate StartsChord(j: Verdict, cs: seq<Chord>, ps: seq<PressAt>, layer: nat, since: u16, released: bool, n: nat, k: nat, i: nat)
    requires 1 <= n <= |ps|
  {
    && k <= |ps| && j.taken == ps[..k] && i < |cs| && Made(cs[i], ps[..k], layer)
    && AllStarted(j.activated, cs, i, since, released) && InTurn(j.activated, j.nextCoord)
    && |j.activated| == (if Twice(cs, ps, layer, since, released, n, i) then 2 else 1)
    && (j.ignore <==> IgnoresToo(cs, ps, layer, since, released, n))
  }

  lemma StartsAlone(cs: seq<Chord>, ps: seq<PressAt>, layer: nat, since: u16, released: bool, coord: nat, n: nat, i: nat)
    requires LooksAt(cs, ps, layer, n) && Alone(cs, ps[..n], layer, i)
    ensures StartsChord(Judge(cs, ps, layer, since, released, coord), cs, ps, layer, since, released, n, n, i)
  {
    JudgesAlone(cs, ps, layer, since, released, coord, n, i);
  }

  lemma StartsBefore(cs: seq<Chord>, ps: seq<PressAt>, layer: nat, since: u16, released: bool, coord: nat, n: nat, i: nat)
    requires LooksAt(cs, ps, layer, n) && Candidates(cs, ps[..n], layer) == {} && FirstMade(cs, ps[..n - 1], layer, All(cs), i)
    ensures StartsChord(Judge(cs, ps, layer, since, released, coord), cs, ps, layer, since, released, n, n - 1, i)
  {
    var f := JudgesTooMany(cs, ps, layer, since, released, coord, n);
    FirstIsOne(cs, ps[..n - 1], layer, All(cs), f, i);
  }

  lemma StartsAtEnd(cs: seq<Chord>, ps: seq<PressAt>, layer: nat, since: u16, released: bool, coord: nat, i: nat)
    requires LooksAt(cs, ps, layer, |ps|) && !Settles(cs, ps, layer) && NowOrNever(cs, ps, layer, since, released)
    requires FirstMade(cs, ps, layer, Among(cs, ps, layer), i)
    ensures StartsChord(Judge(cs, ps, layer, since, released, coord), cs, ps, layer, since, released, |ps|, |ps|, i)
  {
    assert ps[..|ps|] == ps;
    var f := JudgesAllPresses(cs, ps, layer, since, released, coord);
    FirstIsOne(cs, ps, layer, Among(cs, ps, layer), f, i);
  }

  lemma JudgesStart(cs: seq<Chord>, ps: seq<PressAt>, layer: nat, since: u16, released: bool, coord: nat, n: nat, k: nat, i: nat)
    requires LooksAt(cs, ps, layer, n) && Becomes(cs, ps, layer, since, released, n, k, i)
    ensures StartsChord(Judge(cs, ps, layer, since, released, coord), cs, ps, layer, since, released, n, k, i)
  {
    if k == n && Alone(cs, ps[..n], layer, i) {
      StartsAlone(cs, ps, layer, since, released, coord, n, i);
    } else if Candidates(cs, ps[..n], layer) == {} && k == n - 1 {
      StartsBefore(cs, ps, layer, since, released, coord, n, i);
    } else {
      StartsAtEnd(cs, ps, layer, since, released, coord, i);
    }
  }

  lemma JudgesNone(cs: seq<Chord>, ps: seq<PressAt>, layer: nat, since: u16, released: bool, coord: nat, n: nat)
    returns (d: u16)
    requires LooksAt(cs, ps, layer, n)
    requires NothingBecomes(cs, ps, layer, since, released, n)
    ensures var j := Judge(cs, ps, layer, since, released, coord);
            && j.activated == [] && (j.ignore <==> !Pends(cs, ps, layer, since, released, n))
            && (Pends(cs, ps, layer, since, released, n) ==> NextDeadline(cs, ps, layer, since, d) && j.wait == d - since)
  {
    d := 0;
    if Candidates(cs, ps[..n], layer) == {} {
      var f := JudgesTooMany(cs, ps, layer, since, released, coord, n);
      assert !Becomes(cs, ps, layer, since, released, n, n - 1, f);
      assert n == |ps| ==> ps[..n] == ps;
    } else {
      UnsettledAtEnd(cs, ps, layer, since, released, n);
      if NowOrNever(cs, ps, layer, since, released) {
        var f := JudgesAllPresses(cs, ps, layer, since, released, coord);
        assert !Becomes(cs, ps, layer, since, released, n, n, f);
      } else {
        d := PressesPend(cs, ps, layer, since, released, coord);
      }
    }
  }

  /// Where presses become a chord, a tick starts it with its keys and its action, once, or twice if the
  /// chord was found as the last candidate and nothing was left to wait for before its last key. Chords
  /// are not ignored then, but for a chord of which the next press is no part, and nothing was left to
  /// wait for.
  lemma ChordIsStarted(cfg: Config, v: ChordsValue, layer: nat, q: seq<Queued>, ps: seq<PressAt>, released: bool, n: nat, k: nat, i: nat)
    requires ValidConfig(cfg) && Evaluates(v, layer) && Reads(v, q, ps, released) && ps != [] && ps[0].key in cfg.chords
    requires LooksAt(cfg.chords[ps[0].key], ps, layer, n)
    requires Becomes(cfg.chords[ps[0].key], ps, layer, ps[0].since, released, n, k, i)
    ensures var (t, cs, since) := (Tick(cfg, v, layer), cfg.chords[ps[0].key], ps[0].since);
            && Starts(t, q, cs, i, since, released) && k <= |ps| && Typed(ps[..k]) == KeySet(cs[i].keys)
            && |t.drained.started| == (if Twice(cs, ps, layer, since, released, n, i) then 2 else 1)
            && (Ignoring(cfg, t) <==> IgnoresToo(cs, ps, layer, since, released, n))
  {
    var (cs, since) := (cfg.chords[ps[0].key], ps[0].since);
    JudgesStart(cs, ps, layer, since, released, v.nextCoord, n, k, i);
    TickFollowsDecision(cfg, v, layer, q, ps, released);
    StartedAreActive(cfg, v, layer);
    FollowsStart(cfg, Tick(cfg, v, layer), q, Decision(cfg, v, ps, layer, released), cs, ps, layer, since, released, n, k, i);
  }

  /// Where presses become no chord, a tick starts none and takes nothing; chords are ignored, unless a
  /// longer chord may still come, which is waited for until the next deadline.
  lemma NoChordIsStarted(cfg: Config, v: ChordsValue, layer: nat, q: seq<Queued>, ps: seq<PressAt>, released: bool, cs: seq<Chord>, n: nat)
    returns (d: u16)
    requires ValidConfig(cfg) && Evaluates(v, layer) && Reads(v, q, ps, released)
    requires ps != [] && ps[0].key in cfg.chords && cs == cfg.chords[ps[0].key]
    requires LooksAt(cs, ps, layer, n) && NothingBecomes(cs, ps, layer, ps[0].since, released, n)
    ensures var (t, since) := (Tick(cfg, v, layer), ps[0].since);
            && StartsNone(t, q)
            && (Ignoring(cfg, t) <==> !Pends(cs, ps, layer, since, released, n))
            && (Pends(cs, ps, layer, since, released, n) ==>
                  NextDeadline(cs, ps, layer, since, d) && t.value.ticksUntilChange == d - since && t.value.ticksToIgnore == 0)
  {
    d := JudgesNone(cs, ps, layer, ps[0].since, released, v.nextCoord, n);
    TickFollowsDecision(cfg, v, layer, q, ps, released);
    FollowsNone(cfg, Tick(cfg, v, layer), q, Decision(cfg, v, ps, layer, released));
  }

  /// A first key that is in no chord makes chords be ignored.
  lemma UnmappedIsIgnored(cfg: Config, v: ChordsValue, layer: nat, q: seq<Queued>, ps: seq<PressAt>, released: bool)
    requires ValidConfig(cfg) && Evaluates(v, layer) && Reads(v, q, ps, released)
    requires ps == [] || ps[0].key !in cfg.chords
    ensures StartsNone(Tick(cfg, v, layer), q) && (Ignoring(cfg, Tick(cfg, v, layer)) <==> ps != [])
  {
    FrontStartsWithPress(v, layer, q);
    ReadOnce(q, ps, released);
  }

  lemma {:induction false} SomeAreLookedAt(cs: seq<Chord>, ps: seq<PressAt>, layer: nat, m: nat) returns (n: nat)
    requires 1 <= m <= |ps| && forall k :: 1 <= k < m ==> !Settles(cs, ps[..k], layer)
    ensures LooksAt(cs, ps, layer, n)
    decreases |ps| - m
  {
    if m == |ps| || Settles(cs, ps[..m], layer) {
      n := m;
    } else {
      n := SomeAreLookedAt(cs, ps, layer, m + 1);
    }
  }

  lemma LookedAtOnce(cs: seq<Chord>, ps: seq<PressAt>, layer: nat, n: nat, m: nat)
    requires LooksAt(cs, ps, layer, n) && LooksAt(cs, ps, layer, m)
    ensures n == m
  {
  }

  ghost predicate SomethingBecomes(cs: seq<Chord>, ps: seq<PressAt>, layer: nat, since: u16, released: bool)
  {
    exists n: nat, k: nat, i: nat :: LooksAt(cs, ps, layer, n) && Becomes(cs, ps, layer, since, released, n, k, i)
  }

  /// A tick starts a chord if and only if presses become one.
  lemma StartsIff(cfg: Config, v: ChordsValue, layer: nat, q: seq<Queued>, ps: seq<PressAt>, released: bool)
    requires ValidConfig(cfg) && Evaluates(v, layer) && Reads(v, q, ps, released)
    ensures Tick(cfg, v, layer).drained.started != [] <==>
            ps != [] && ps[0].key in cfg.chords && SomethingBecomes(cfg.chords[ps[0].key], ps, layer, ps[0].since, released)
  {
    if ps == [] || ps[0].key !in cfg.chords {
      UnmappedIsIgnored(cfg, v, layer, q, ps, released);
    } else {
      var (cs, since) := (cfg.chords[ps[0].key], ps[0].since);
      if SomethingBecomes(cs, ps, layer, since, released) {
        var n: nat, k: nat, i: nat :| LooksAt(cs, ps, layer, n) && Becomes(cs, ps, layer, since, released, n, k, i);
        ChordIsStarted(cfg, v, layer, q, ps, released, n, k, i);
      } else {
        var n := SomeAreLookedAt(cs, ps, layer, 1);
        var d := NoChordIsStarted(cfg, v, layer, q, ps, released, cs, n);
      }
    }
  }

  /// A press does not come before the ones in front of it.
  ghost predicate InOrder(ps: seq<PressAt>)
  {
    forall i, j :: 0 <= i <= j < |ps| ==> ps[j].since <= ps[i].since
  }

  lemma PossibleBefore(c: Chord, ps: seq<PressAt>, layer: nat, m: nat, k: nat)
    requires 1 <= m <= k <= |ps| && InOrder(ps) && Possible(c, ps[..k], layer)
    ensures Possible(c, ps[..m], layer)
  {
    forall x | x in Typed(ps[..m]) ensures x in Typed(ps[..k]) {
      var i :| 0 <= i < m && ps[..m][i].key == x;
      assert ps[..k][i].key == x;
    }
  }

  /// The chord is the only candidate, or no chord is possible with the next press, or there is no other
  /// press, and a key was released or no candidate has a deadline to come.
  ghost predicate NothingLonger(cs: seq<Chord>, ps: seq<PressAt>, layer: nat, released: bool, k: nat, i: nat)
    requires 1 <= k <= |ps|
  {
    || Candidates(cs, ps[..k], layer) == {i}
    || (k < |ps| && Candidates(cs, ps[..k + 1], layer) == {})
    || (k == |ps| && (released || forall j :: j in Candidates(cs, ps, layer) ==> cs[j].pendingDuration <= ps[0].since))
  }

  lemma NoneSettlesBefore(cs: seq<Chord>, ps: seq<PressAt>, layer: nat, k: nat, i: nat)
    requires 1 <= k <= |ps| && InOrder(ps) && i < |cs| && Made(cs[i], ps[..k], layer) && Possible(cs[i], ps[..k], layer)
    requires forall m :: 1 <= m < k ==> Typed(ps[..m]) != Typed(ps[..k])
    ensures forall m :: 1 <= m < k ==> !Settles(cs, ps[..m], layer)
  {
    forall m | 1 <= m < k ensures !Settles(cs, ps[..m], layer) {
      PossibleBefore(cs[i], ps, layer, m, k);
      NotAlone(cs, ps, layer, m, k, i);
    }
  }

  lemma CompleteIsLookedAt(cs: seq<Chord>, ps: seq<PressAt>, layer: nat, released: bool, k: nat, i: nat) returns (n: nat)
    requires 1 <= k <= |ps| && InOrder(ps) && FirstMade(cs, ps[..k], layer, All(cs), i) && Possible(cs[i], ps[..k], layer)
    requires forall m :: 1 <= m < k ==> Typed(ps[..m]) != Typed(ps[..k])
    requires NothingLonger(cs, ps, layer, released, k, i)
    ensures LooksAt(cs, ps, layer, n) && Becomes(cs, ps, layer, ps[0].since, released, n, k, i)
    ensures n == if Candidates(cs, ps[..k], layer) == {i} || k == |ps| then k else k + 1
  {
    NoneSettlesBefore(cs, ps, layer, k, i);
    assert i in Candidates(cs, ps[..k], layer);
    if Candidates(cs, ps[..k], layer) == {i} {
      n := k;
      assert Alone(cs, ps[..k], layer, i);
    } else {
      assert !Settles(cs, ps[..k], layer);
      assert k == |ps| ==> ps[..k] == ps;
      n := if k == |ps| then k else k + 1;
    }
  }

  /// A chord whose keys are the first presses, the last of them needed and in time, is started if it is the
  /// only candidate, or if no chord is possible with the next press, or if there is no other press, and a
  /// key was released or no candidate has a deadline to come. Chords are ignored then only in the second
  /// case, where nothing was left to wait for.
  lemma CompleteChordIsStarted(cfg: Config, v: ChordsValue, layer: nat, q: seq<Queued>, ps: seq<PressAt>, released: bool, k: nat, i: nat)
    requires ValidConfig(cfg) && Evaluates(v, layer) && Reads(v, q, ps, released) && ps != [] && ps[0].key in cfg.chords
    requires 1 <= k <= |ps| && InOrder(ps)
    requires var cs := cfg.chords[ps[0].key];
             && FirstMade(cs, ps[..k], layer, All(cs), i) && Possible(cs[i], ps[..k], layer)
             && (forall m :: 1 <= m < k ==> Typed(ps[..m]) != Typed(ps[..k]))
             && NothingLonger(cs, ps, layer, released, k, i)
    ensures var (t, cs, since) := (Tick(cfg, v, layer), cfg.chords[ps[0].key], ps[0].since);
            && Starts(t, q, cs, i, since, released)
            && (Ignoring(cfg, t) <==> Candidates(cs, ps[..k], layer) != {i} && k < |ps| && NowOrNever(cs, ps[..k], layer, since, released))
  {
    var cs := cfg.chords[ps[0].key];
    assert i in Candidates(cs, ps[..k], layer);
    var n := CompleteIsLookedAt(cs, ps, layer, released, k, i);
    ChordIsStarted(cfg, v, layer, q, ps, released, n, k, i);
  }

  lemma NotAlone(cs: seq<Chord>, ps: seq<PressAt>, layer: nat, m: nat, k: nat, i: nat)
    requires 1 <= m < k <= |ps| && i < |cs| && Possible(cs[i], ps[..m], layer)
    requires Made(cs[i], ps[..k], layer) && Typed(ps[..m]) != Typed(ps[..k])
    ensures !Settles(cs, ps[..m], layer)
  {
    assert i in Candidates(cs, ps[..m], layer);
  }

  // ---------------------------------------------------------------------------------------
  // When pending presses are decided on

  /// Nothing is evaluated in the next tick.
  ghost predicate Rests(v: ChordsValue, layer: nat)
  {
    v.ticksToIgnore == 0 && v.ticksUntilChange > 0 && v.prevLayer == layer && v.prevQueueLen == |v.queue|
  }

  /// Ticks without arrivals.
  ghost predicate Ticking(cfg: Config, layer: nat, trace: seq<ChordsValue>)
  {
    forall i :: 0 <= i < |trace| - 1 ==> trace[i + 1] == Tick(cfg, trace[i], layer).value
  }

  /// The same events, `n` ticks older.
  ghost predicate Older(q: seq<Queued>, r: seq<Queued>, n: nat)
  {
    |r| == |q| && forall i :: 0 <= i < |q| ==>
      r[i].event == q[i].event && r[i].since == if q[i].since + n <= U16_MAX then q[i].since + n else U16_MAX
  }

  lemma RestingTick(cfg: Config, v: ChordsValue, layer: nat)
    requires Rests(v, layer)
    ensures var t := Tick(cfg, v, layer);
            && t.drained.started == [] && t.drained.consumed == [] && t.drained.forwarded == []
            && Older(v.queue, t.value.queue, 1) && t.value.ticksUntilChange == v.ticksUntilChange - 1
            && t.value.ticksToIgnore == 0 && t.value.prevLayer == layer && t.value.prevQueueLen == v.prevQueueLen
  {
  }

  lemma OlderStill(q: seq<Queued>, r: seq<Queued>, s: seq<Queued>, n: nat)
    requires Older(q, r, 1) && Older(r, s, n)
    ensures Older(q, s, n + 1)
  {
  }

  /// Nothing happens to `q` in all but the last of these values, which is looked at again.
  ghost predicate RestsTo(q: seq<Queued>, layer: nat, trace: seq<ChordsValue>)
  {
    && trace != []
    && (forall n :: 0 <= n < |trace| ==> Older(q, trace[n].queue, n))
    && (forall n :: 0 <= n < |trace| - 1 ==> Rests(trace[n], layer))
    && Evaluates(trace[|trace| - 1], layer)
  }

  lemma RestsOneMore(cfg: Config, v: ChordsValue, layer: nat, next: ChordsValue, trace: seq<ChordsValue>)
    requires Rests(v, layer) && next == Tick(cfg, v, layer).value && Older(v.queue, next.queue, 1)
    requires trace != [] && trace[0] == next && Ticking(cfg, layer, trace) && RestsTo(next.queue, layer, trace)
    ensures Ticking(cfg, layer, [v] + trace) && RestsTo(v.queue, layer, [v] + trace)
  {
    var all := [v] + trace;
    forall n | 0 <= n < |all| ensures Older(v.queue, all[n].queue, n) {
      if n > 0 {
        OlderStill(v.queue, next.queue, trace[n - 1].queue, n - 1);
      }
    }
    assert all[|all| - 1] == trace[|trace| - 1];
  }

  /// Without arrivals the machine rests for as many ticks as its counter says, and then looks again.
  lemma {:induction false} RestsUntilDue(cfg: Config, v: ChordsValue, layer: nat) returns (trace: seq<ChordsValue>)
    requires Rests(v, layer)
    ensures |trace| == v.ticksUntilChange + 1 && trace[0] == v && Ticking(cfg, layer, trace) && RestsTo(v.queue, layer, trace)
    decreases v.ticksUntilChange
  {
    RestingTick(cfg, v, layer);
    var next := Tick(cfg, v, layer).value;
    var rest := [next];
    if next.ticksUntilChange > 0 {
      rest := RestsUntilDue(cfg, next, layer);
    } else {
      assert Older(next.queue, next.queue, 0);
    }
    RestsOneMore(cfg, v, layer, next, rest);
    trace := [v] + rest;
  }

  /// An evaluating tick notes the layer and how many events it found.
  lemma EvaluatingNotes(cfg: Config, v: ChordsValue, layer: nat, r: ChordsValue)
    requires Evaluates(v, layer) && r == Tick(cfg, v, layer).value && |v.queue| <= 32
    ensures r.prevLayer == layer && r.prevQueueLen == |v.queue|
  {
  }

  lemma NothingBecomesYet(cs: seq<Chord>, ps: seq<PressAt>, layer: nat, since: u16, released: bool)
    requires LooksAt(cs, ps, layer, |ps|) && Pends(cs, ps, layer, since, released, |ps|)
    ensures NothingBecomes(cs, ps, layer, since, released, |ps|)
  {
    assert ps[..|ps|] == ps;
  }

  lemma PendingTick(cfg: Config, v: ChordsValue, layer: nat, q: seq<Queued>, ps: seq<PressAt>, released: bool, cs: seq<Chord>)
    returns (d: u16, r: ChordsValue)
    requires ValidConfig(cfg) && Evaluates(v, layer) && Reads(v, q, ps, released)
    requires ps != [] && ps[0].key in cfg.chords && cs == cfg.chords[ps[0].key]
    requires LooksAt(cs, ps, layer, |ps|) && Pends(cs, ps, layer, ps[0].since, released, |ps|)
    ensures NextDeadline(cs, ps, layer, ps[0].since, d) && r == Tick(cfg, v, layer).value
    ensures r.queue == q && r.ticksToIgnore == 0 && r.ticksUntilChange == d - ps[0].since
  {
    NothingBecomesYet(cs, ps, layer, ps[0].since, released);
    d := NoChordIsStarted(cfg, v, layer, q, ps, released, cs, |ps|);
    r := Tick(cfg, v, layer).value;
  }

  lemma FirstIsRead(v: ChordsValue, layer: nat, q: seq<Queued>, ps: seq<PressAt>, released: bool)
    requires Reads(v, q, ps, released) && ps != []
    ensures q != [] && q[0].since == ps[0].since
  {
    ReadOnce(q, ps, released);
    FrontStartsWithPress(v, layer, q);
    FirstIsPress(q, ps);
  }

  /// Presses that wait for a longer chord, with nothing in front of them, are decided on in the tick in which
  /// the first of them is one tick older than the next deadline, and not before, unless something arrives.
  lemma DecidedAfterDeadline(cfg: Config, v: ChordsValue, layer: nat, q: seq<Queued>, ps: seq<PressAt>, released: bool, cs: seq<Chord>)
    returns (d: u16, trace: seq<ChordsValue>)
    requires ValidConfig(cfg) && Evaluates(v, layer) && Reads(v, q, ps, released)
    requires ps != [] && ps[0].key in cfg.chords && cs == cfg.chords[ps[0].key]
    requires |v.queue| <= 32 && q == TickAll(v.queue)
    requires LooksAt(cs, ps, layer, |ps|) && Pends(cs, ps, layer, ps[0].since, released, |ps|)
    ensures NextDeadline(cs, ps, layer, ps[0].since, d)
    ensures trace != [] && trace[0] == Tick(cfg, v, layer).value && Ticking(cfg, layer, trace) && RestsTo(q, layer, trace)
    ensures q != [] && trace[|trace| - 1].queue != [] && trace[|trace| - 1].queue[0].since == d
  {
    var first;
    d, first := PendingTick(cfg, v, layer, q, ps, released, cs);
    FirstIsRead(v, layer, q, ps, released);
    EvaluatingNotes(cfg, v, layer, first);
    trace := RestsFor(cfg, first, layer, d - ps[0].since);
  }

  lemma RestsFor(cfg: Config, first: ChordsValue, layer: nat, n: nat) returns (trace: seq<ChordsValue>)
    requires first.ticksToIgnore == 0 && first.ticksUntilChange == n > 0 && first.prevLayer == layer
    requires first.prevQueueLen == |first.queue| && first.queue != [] && first.queue[0].since + n <= U16_MAX
    ensures trace != [] && trace[0] == first && Ticking(cfg, layer, trace) && RestsTo(first.queue, layer, trace)
    ensures trace[|trace| - 1].queue != [] && trace[|trace| - 1].queue[0].since == first.queue[0].since + n
  {
    trace := RestsUntilDue(cfg, first, layer);
    assert Older(first.queue, trace[|trace| - 1].queue, |trace| - 1);
  }

  // ---------------------------------------------------------------------------------------
  // What is handed out

  lemma {:induction false} UnreleasedIn(active: seq<ActiveChord>, a: ActiveChord)
    ensures a in Unreleased(active) <==> a in active && !a.status.Released?
    decreases |active|
  {
    if active != [] {
      var n := |active| - 1;
      assert active == active[..n] + [active[n]];
      UnreleasedIn(active[..n], a);
    }
  }

  /// The same chord, a tick older.
  ghost predicate TickedFrom(a: ActiveChord, b: ActiveChord)
  {
    && a.coordinate == b.coordinate && a.keys == b.keys && a.action == b.action
    && a.delay == if b.delay < 0xFFFF then b.delay + 1 else 0xFFFF
  }

  /// An active chord counts the ticks since its first key was pressed: it starts with the age of that press
  /// and grows a tick older in each tick.
  lemma ActiveChordsAge(cfg: Config, v: ChordsValue, layer: nat, a: ActiveChord)
    ensures var t := Tick(cfg, v, layer);
            a in t.value.active ==> a in t.drained.started || exists i :: 0 <= i < |v.active| && TickedFrom(a, v.active[i])
  {
    var d := DrainInputs(cfg, Age(v), layer);
    DrainedActive(cfg, Age(v), layer);
    var aged := Age(v).active;
    ForwardKeepsChords(aged, d.seen);
    UnreleasedIn(d.value.active, a);
    if a in Tick(cfg, v, layer).value.active && a !in d.started {
      var i :| 0 <= i < |Forward(aged, d.seen)| && Forward(aged, d.seen)[i] == a;
      assert TickedFrom(a, v.active[i]);
    }
  }

  /// The oldest chord that has not been read is handed out with its coordinate, its age and its action, and only
  /// its status changes.
  lemma HandsOutOldest(v: ChordsValue, i: nat)
    requires i < |v.active| && (v.active[i].status.Unread? || v.active[i].status.UnreadReleased?)
    requires forall j :: 0 <= j < i ==> !v.active[j].status.Unread? && !v.active[j].status.UnreadReleased?
    ensures var (r, out) := Read(v);
            var a := v.active[i];
            && out == Some((a.coordinate, a.delay, a.action))
            && r == v.(active := v.active[i := a.(status := if a.status.Unread? then Releasable else Released)])
  {
  }
}
