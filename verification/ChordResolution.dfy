/// What a key that waits for a chord resolves to: the events that count, the chord they make, and what is
/// left in the queue, said by positions and by the entries of the group (keyberon/src/layout.rs).

module ChordResolution {
  import opened Types
  import opened Picking
  import opened Segmentation
  import opened ChordGroups

  // ---------------------------------------------------------------------------------------
  // The entries of the group

  /// The first entry of a coordinate.
  ghost predicate FirstEntry(g: Group, c: Coord, i: nat)
  {
    i < |g.coords| && g.coords[i].0 == c && forall j :: 0 <= j < i ==> g.coords[j].0 != c
  }

  ghost predicate InGroup(g: Group, c: Coord)
  {
    exists i: nat :: FirstEntry(g, c, i)
  }

  ghost predicate HasKey(g: Group, c: Coord, key: nat)
  {
    exists i: nat :: FirstEntry(g, c, i) && key in g.coords[i].1
  }

  /// The first chord made of exactly the keys `m`.
  ghost predicate FirstChord(g: Group, m: Mask, i: nat)
  {
    i < |g.chords| && g.chords[i].0 == m && forall j :: 0 <= j < i ==> g.chords[j].0 != m
  }

  ghost predicate Defined(g: Group, m: Mask)
  {
    exists i :: 0 <= i < |g.chords| && g.chords[i].0 == m
  }

  lemma {:induction false} KeysAtFirst(coords: seq<(Coord, Mask)>, c: Coord) returns (i: nat)
    ensures i <= |coords| && forall j :: 0 <= j < i ==> coords[j].0 != c
    ensures if i < |coords| then coords[i].0 == c && KeysAt(coords, c) == Some(coords[i].1) else KeysAt(coords, c).None?
    decreases |coords|
  {
    if coords == [] || coords[0].0 == c {
      i := 0;
    } else {
      i := KeysAtFirst(coords[1..], c);
      i := i + 1;
    }
  }

  lemma KeysAreOfFirstEntry(g: Group, c: Coord)
    ensures GetKeys(g, c).Some? <==> InGroup(g, c)
    ensures forall key :: key in KeysOf(g, c) <==> HasKey(g, c, key)
  {
    var i := KeysAtFirst(g.coords, c);
    if i < |g.coords| {
      assert FirstEntry(g, c, i);
    }
  }

  lemma {:induction false} ChordOfFirst(chords: seq<(Mask, nat)>, m: Mask) returns (i: nat)
    ensures i <= |chords| && forall j :: 0 <= j < i ==> chords[j].0 != m
    ensures if i < |chords| then chords[i].0 == m && ChordOf(chords, m) == Some(chords[i].1) else ChordOf(chords, m).None?
    decreases |chords|
  {
    if chords == [] || chords[0].0 == m {
      i := 0;
    } else {
      i := ChordOfFirst(chords[1..], m);
      i := i + 1;
    }
  }

  /// The action of a chord is that of its first entry.
  lemma ChordIsFirst(g: Group, m: Mask) returns (i: nat)
    ensures GetChord(g, m).Some? <==> Defined(g, m)
    ensures Defined(g, m) ==> FirstChord(g, m, i) && GetChord(g, m) == Some(g.chords[i].1)
  {
    i := ChordOfFirst(g.chords, m);
  }

  // ---------------------------------------------------------------------------------------
  // The events that count

  ghost predicate Old(w: Clock, x: Queued)
  {
    w.delay - x.since > w.timeout
  }

  /// A press of a key of the group.
  ghost predicate Counts(g: Group, w: Clock, x: Queued)
  {
    !Old(w, x) && x.event.Press? && InGroup(g, x.event.coord)
  }

  /// A release of a key of the group, or a press of a key outside.
  ghost predicate Breaks(g: Group, w: Clock, x: Queued)
  {
    !Old(w, x) && (x.event.Press? <==> !InGroup(g, x.event.coord))
  }

  /// The queue counts up to the first event that breaks the chord off.
  ghost predicate CountsTo(g: Group, w: Clock, q: seq<Queued>, n: nat)
  {
    n <= |q| && (n < |q| ==> Breaks(g, w, q[n])) && forall i :: 0 <= i < n ==> !Breaks(g, w, q[i])
  }

  ghost function Counted(g: Group, w: Clock, q: seq<Queued>, n: nat): set<nat>
  {
    set j: nat | j < n && j < |q| && Counts(g, w, q[j])
  }

  ghost function Uncounted(g: Group, w: Clock, q: seq<Queued>, n: nat): set<nat>
  {
    set j: nat | j < |q| && !(j < n && Counts(g, w, q[j]))
  }

  /// The key is one of the waiting key or of a press counted.
  ghost predicate KeyIn(g: Group, w: Clock, q: seq<Queued>, n: nat, key: nat)
  {
    HasKey(g, w.coord, key) || exists j :: j in Counted(g, w, q, n) && HasKey(g, q[j].event.coord, key)
  }

  /// All keys down.
  ghost predicate AllKeys(g: Group, w: Clock, q: seq<Queued>, n: nat, m: Mask)
  {
    forall key :: key in m <==> KeyIn(g, w, q, n, key)
  }

  lemma TakesIffCounts(g: Group, w: Clock, x: Queued)
    ensures Takes(g, w, x) <==> Counts(g, w, x)
    ensures Ends(g, w, x) <==> Breaks(g, w, x)
  {
    KeysAreOfFirstEntry(g, x.event.coord);
  }

  lemma OneMoreKey(g: Group, w: Clock, q: seq<Queued>, n: nat, m: Mask)
    requires n < |q| && AllKeys(g, w, q, n, m)
    ensures AllKeys(g, w, q, n + 1, if Takes(g, w, q[n]) then m + KeysOf(g, q[n].event.coord) else m)
  {
    TakesIffCounts(g, w, q[n]);
    KeysAreOfFirstEntry(g, q[n].event.coord);
    assert Counted(g, w, q, n + 1) == Counted(g, w, q, n) + if Takes(g, w, q[n]) then {n} else {};
    forall key
      ensures KeyIn(g, w, q, n + 1, key) <==> KeyIn(g, w, q, n, key) || (Takes(g, w, q[n]) && HasKey(g, q[n].event.coord, key))
    {
    }
  }

  // ---------------------------------------------------------------------------------------
  // Reading

  /// The presses that bring a new key.
  ghost function Bringing(g: Group, w: Clock, q: seq<Queued>, n: nat): set<nat>
  {
    set j: nat | j < n && j < |q| && Brings(g, w, q, j)
  }

  ghost predicate Brings(g: Group, w: Clock, q: seq<Queued>, j: nat)
  {
    j < |q| && Counts(g, w, q[j]) && exists key :: HasKey(g, q[j].event.coord, key) && !KeyIn(g, w, q, j, key)
  }

  /// `order` lists the keys of the waiting key and of those presses.
  ghost predicate InOrder(g: Group, w: Clock, xs: seq<Queued>, order: seq<Mask>)
  {
    && |order| == 1 + |xs|
    && (forall key :: key in order[0] <==> HasKey(g, w.coord, key))
    && forall i, key :: 0 <= i < |xs| ==> (key in order[i + 1] <==> HasKey(g, xs[i].event.coord, key))
  }

  ghost predicate ReadSoFar(g: Group, w: Clock, q: seq<Queued>, m: nat, xs: seq<Queued>, r: Reading)
  {
    && m <= |q| && r.length == m && !r.ended && r.released.None?
    && AllKeys(g, w, q, m, r.mask) && r.handled == |Counted(g, w, q, m)|
    && Picks(q, Bringing(g, w, q, m), xs) && InOrder(g, w, xs, r.order)
  }

  lemma OneMoreCounted(g: Group, w: Clock, q: seq<Queued>, m: nat)
    requires m < |q|
    ensures |Counted(g, w, q, m + 1)| == |Counted(g, w, q, m)| + if Takes(g, w, q[m]) then 1 else 0
  {
    TakesIffCounts(g, w, q[m]);
    assert Counted(g, w, q, m + 1) == Counted(g, w, q, m) + if Takes(g, w, q[m]) then {m} else {};
    assert m !in Counted(g, w, q, m);
  }

  lemma BringsIffNew(g: Group, w: Clock, q: seq<Queued>, m: nat, mask: Mask)
    requires m < |q| && AllKeys(g, w, q, m, mask)
    ensures Brings(g, w, q, m) <==> Takes(g, w, q[m]) && mask + KeysOf(g, q[m].event.coord) != mask
  {
    TakesIffCounts(g, w, q[m]);
    KeysAreOfFirstEntry(g, q[m].event.coord);
    var keys := KeysOf(g, q[m].event.coord);
    if mask + keys != mask {
      var key :| key in keys && key !in mask;
      assert HasKey(g, q[m].event.coord, key) && !KeyIn(g, w, q, m, key);
    } else {
      assert keys <= mask;
    }
  }

  lemma OrderGrows(g: Group, w: Clock, xs: seq<Queued>, order: seq<Mask>, x: Queued)
    requires InOrder(g, w, xs, order)
    ensures InOrder(g, w, xs + [x], order + [KeysOf(g, x.event.coord)])
  {
    KeysAreOfFirstEntry(g, x.event.coord);
  }

  lemma OneMoreBrought(g: Group, w: Clock, q: seq<Queued>, m: nat, xs: seq<Queued>)
    requires m < |q| && Picks(q, Bringing(g, w, q, m), xs)
    ensures Picks(q, Bringing(g, w, q, m + 1), if Brings(g, w, q, m) then xs + [q[m]] else xs)
  {
    assert Bringing(g, w, q, m + 1) == Bringing(g, w, q, m) + if Brings(g, w, q, m) then {m} else {};
    PicksNext(q, m, Bringing(g, w, q, m), xs, Brings(g, w, q, m));
  }

  lemma ReadsNext(g: Group, w: Clock, q: seq<Queued>, m: nat, xs: seq<Queued>, r: Reading)
    returns (ys: seq<Queued>, next: Reading)
    requires m < |q| && ReadSoFar(g, w, q, m, xs, r)
    ensures next == if Takes(g, w, q[m]) then Took(g, r, q[m]) else r.(length := r.length + 1)
    ensures ReadSoFar(g, w, q, m + 1, ys, next)
  {
    next := if Takes(g, w, q[m]) then Took(g, r, q[m]) else r.(length := r.length + 1);
    OneMoreKey(g, w, q, m, r.mask);
    OneMoreCounted(g, w, q, m);
    BringsIffNew(g, w, q, m, r.mask);
    OneMoreBrought(g, w, q, m, xs);
    ys := xs;
    if Brings(g, w, q, m) {
      ys := xs + [q[m]];
      OrderGrows(g, w, xs, r.order, q[m]);
    }
  }

  /// The keys in the order in which they came: those of the waiting key, and of each press that brought one.
  ghost predicate InOrderOfArrival(g: Group, w: Clock, q: seq<Queued>, n: nat, order: seq<Mask>)
  {
    exists xs :: Picks(q, Bringing(g, w, q, n), xs) && InOrder(g, w, xs, order)
  }

  /// What reading to `n` gives.
  ghost predicate ReadAs(g: Group, w: Clock, q: seq<Queued>, n: nat, s: Reading)
  {
    && s.length == n && (s.ended <==> n < |q|)
    && s.released == (if n < |q| && q[n].event.Release? then Some(q[n].event.coord) else None)
    && AllKeys(g, w, q, n, s.mask) && s.handled == |Counted(g, w, q, n)|
    && InOrderOfArrival(g, w, q, n, s.order)
  }

  lemma {:induction false} ReadsOn(g: Group, w: Clock, q: seq<Queued>, m: nat, n: nat, xs: seq<Queued>, r: Reading)
    requires CountsTo(g, w, q, n) && m <= n && ReadSoFar(g, w, q, m, xs, r)
    ensures ReadAs(g, w, q, n, Read(g, w, q[m..], r))
    decreases n - m
  {
    if m < |q| {
      assert q[m..][0] == q[m] && q[m..][1..] == q[m + 1..];
      TakesIffCounts(g, w, q[m]);
      if m < n {
        var ys, next := ReadsNext(g, w, q, m, xs, r);
        ReadsOn(g, w, q, m + 1, n, ys, next);
      }
    }
  }

  lemma AllIsReadAs(g: Group, w: Clock, q: seq<Queued>, n: nat)
    requires CountsTo(g, w, q, n)
    ensures ReadAs(g, w, q, n, ReadAll(g, w, q))
  {
    var keys := KeysOf(g, w.coord);
    KeysAreOfFirstEntry(g, w.coord);
    PicksNone(q);
    assert Bringing(g, w, q, 0) == {} && Counted(g, w, q, 0) == {};
    assert InOrder(g, w, [], [keys]);
    assert q[0..] == q;
    ReadsOn(g, w, q, 0, n, [], Reading(0, keys, [keys], 0, None, false));
  }

  // ---------------------------------------------------------------------------------------
  // What is taken from the queue

  lemma {:induction false} LeftNext(g: Group, w: Clock, q: seq<Queued>, x: Queued)
    ensures Left(g, w, q + [x]) == Left(g, w, q) + if Takes(g, w, x) then [] else [x]
    decreases |q|
  {
    if q == [] {
      assert [] + [x] == [x] && [x][1..] == [];
    } else {
      assert (q + [x])[0] == q[0] && (q + [x])[1..] == q[1..] + [x];
      LeftNext(g, w, q[1..], x);
    }
  }

  ghost function UncountedBefore(g: Group, w: Clock, q: seq<Queued>, n: nat, m: nat): set<nat>
  {
    set j: nat | j < m && j < |q| && !(j < n && Counts(g, w, q[j]))
  }

  lemma UncountedNext(g: Group, w: Clock, q: seq<Queued>, n: nat, k: nat)
    requires k < |q|
    ensures UncountedBefore(g, w, q, n, k + 1) == UncountedBefore(g, w, q, n, k) + if k < n && Takes(g, w, q[k]) then {} else {k}
  {
    TakesIffCounts(g, w, q[k]);
  }

  lemma {:induction false} LeftSoFar(g: Group, w: Clock, q: seq<Queued>, n: nat, m: nat)
    requires m <= n <= |q|
    ensures Picks(q, UncountedBefore(g, w, q, n, m), Left(g, w, q[..m]))
    decreases m
  {
    if m == 0 {
      PicksNone(q);
      assert UncountedBefore(g, w, q, n, 0) == {};
    } else {
      var k := m - 1;
      LeftSoFar(g, w, q, n, k);
      TakesIffCounts(g, w, q[k]);
      assert q[..m] == q[..k] + [q[k]];
      LeftNext(g, w, q[..k], q[k]);
      PicksNext(q, k, UncountedBefore(g, w, q, n, k), Left(g, w, q[..k]), !Takes(g, w, q[k]));
      UncountedNext(g, w, q, n, k);
    }
  }

  lemma {:induction false} RestIsLeft(g: Group, w: Clock, q: seq<Queued>, n: nat, m: nat)
    requires n <= m <= |q|
    ensures Picks(q, UncountedBefore(g, w, q, n, m), Left(g, w, q[..n]) + q[n..m])
    decreases m
  {
    if m == n {
      LeftSoFar(g, w, q, n, n);
      assert Left(g, w, q[..n]) + q[n..n] == Left(g, w, q[..n]);
    } else {
      var k := m - 1;
      RestIsLeft(g, w, q, n, k);
      PicksNext(q, k, UncountedBefore(g, w, q, n, k), Left(g, w, q[..n]) + q[n..k], true);
      UncountedNext(g, w, q, n, k);
      assert Left(g, w, q[..n]) + q[n..m] == (Left(g, w, q[..n]) + q[n..k]) + [q[k]];
    }
  }

  /// The presses counted are taken from the queue, and nothing else.
  lemma KeptAreUncounted(g: Group, w: Clock, q: seq<Queued>, n: nat)
    requires CountsTo(g, w, q, n)
    ensures Picks(q, Uncounted(g, w, q, n), Kept(g, w, q, ReadAll(g, w, q).handled))
  {
    AllIsReadAs(g, w, q, n);
    TakesWhatWasRead(g, w, q);
    RestIsLeft(g, w, q, n, |q|);
    assert q[n..|q|] == q[n..];
    assert UncountedBefore(g, w, q, n, |q|) == Uncounted(g, w, q, n);
  }

  ghost function CoordsOf(xs: seq<Queued>): (cs: seq<Coord>)
    ensures |cs| == |xs|
    ensures forall i :: 0 <= i < |xs| ==> cs[i] == xs[i].event.coord
  {
    seq(|xs|, i requires 0 <= i < |xs| => xs[i].event.coord)
  }

  ghost function Presses(g: Group, w: Clock, q: seq<Queued>): (r: seq<Queued>)
  {
    if q == [] then [] else if Takes(g, w, q[0]) then [q[0]] + Presses(g, w, q[1..]) else Presses(g, w, q[1..])
  }

  lemma {:induction false} PressesNext(g: Group, w: Clock, q: seq<Queued>, x: Queued)
    ensures Presses(g, w, q + [x]) == Presses(g, w, q) + if Takes(g, w, x) then [x] else []
    decreases |q|
  {
    if q == [] {
      assert [] + [x] == [x] && [x][1..] == [];
    } else {
      assert (q + [x])[0] == q[0] && (q + [x])[1..] == q[1..] + [x];
      PressesNext(g, w, q[1..], x);
    }
  }

  lemma {:induction false} PressesSoFar(g: Group, w: Clock, q: seq<Queued>, n: nat)
    requires n <= |q|
    ensures Picks(q, Counted(g, w, q, n), Presses(g, w, q[..n]))
    decreases n
  {
    if n == 0 {
      PicksNone(q);
      assert Counted(g, w, q, 0) == {};
    } else {
      var k := n - 1;
      PressesSoFar(g, w, q, k);
      TakesIffCounts(g, w, q[k]);
      assert q[..n] == q[..k] + [q[k]];
      PressesNext(g, w, q[..k], q[k]);
      PicksNext(q, k, Counted(g, w, q, k), Presses(g, w, q[..k]), Takes(g, w, q[k]));
      assert Counted(g, w, q, n) == Counted(g, w, q, k) + if Takes(g, w, q[k]) then {k} else {};
    }
  }

  lemma {:induction false} TakenNone(g: Group, w: Clock, q: seq<Queued>)
    ensures TakenCoords(g, w, q, 0) == []
    decreases |q|
  {
    if q != [] {
      TakenNone(g, w, q[1..]);
    }
  }

  lemma CoordsCons(x: Queued, xs: seq<Queued>)
    ensures CoordsOf([x] + xs) == [x.event.coord] + CoordsOf(xs)
  {
  }

  lemma {:induction false} TakenPart(g: Group, w: Clock, q: seq<Queued>, n: nat)
    requires n <= |q|
    ensures TakenCoords(g, w, q, Taking(g, w, q[..n])) == CoordsOf(Presses(g, w, q[..n]))
    decreases n
  {
    if n == 0 {
      TakenNone(g, w, q);
    } else {
      assert q[..n][0] == q[0] && q[..n][1..] == q[1..][..n - 1];
      TakenPart(g, w, q[1..], n - 1);
      CoordsCons(q[0], Presses(g, w, q[1..][..n - 1]));
    }
  }

  /// The presses handed over are those counted, in order.
  lemma TakenAreCounted(g: Group, w: Clock, q: seq<Queued>, n: nat) returns (xs: seq<Queued>)
    requires CountsTo(g, w, q, n)
    ensures Picks(q, Counted(g, w, q, n), xs) && TakenCoords(g, w, q, ReadAll(g, w, q).handled) == CoordsOf(xs)
  {
    xs := Presses(g, w, q[..n]);
    AllIsReadAs(g, w, q, n);
    var keys := KeysOf(g, w.coord);
    ReadingCounts(g, w, q, Reading(0, keys, [keys], 0, None, false));
    PressesSoFar(g, w, q, n);
    TakenPart(g, w, q, n);
  }

  // ---------------------------------------------------------------------------------------
  // The outcome

  /// Some chord has more keys.
  ghost predicate Extends(g: Group, m: Mask)
  {
    exists i :: 0 <= i < |g.chords| && m < g.chords[i].0
  }

  /// There is time left to wait for more keys.
  ghost predicate InTime(w: Clock)
  {
    w.timeout > w.delay
  }

  /// The presses counted have left the queue, and stand, after the waiting key, for what is resolved.
  ghost predicate TakesOut(g: Group, w: Clock, q: seq<Queued>, n: nat, presses: seq<Coord>, left: seq<Queued>)
  {
    && Picks(q, Uncounted(g, w, q, n), left)
    && exists xs :: Picks(q, Counted(g, w, q, n), xs) && presses == FirstOf([w.coord] + CoordsOf(xs))
  }

  function FirstOf(cs: seq<Coord>): (r: seq<Coord>)
  {
    if |cs| <= 32 then cs else cs[..32]
  }

  lemma Resolving(g: Group, w: Clock, q: seq<Queued>, n: nat)
    requires CountsTo(g, w, q, n)
    ensures var s := ReadAll(g, w, q);
            TakesOut(g, w, q, n, FirstPresses([w.coord] + TakenCoords(g, w, q, s.handled)), Kept(g, w, q, s.handled))
  {
    KeptAreUncounted(g, w, q, n);
    var xs := TakenAreCounted(g, w, q, n);
  }

  lemma ReadFacts(g: Group, w: Clock, q: seq<Queued>, n: nat, m: Mask)
    requires CountsTo(g, w, q, n) && AllKeys(g, w, q, n, m)
    ensures var s := ReadAll(g, w, q);
            && s.mask == m && (s.ended <==> n < |q|)
            && s.released == if n < |q| && q[n].event.Release? then Some(q[n].event.coord) else None
  {
    AllIsReadAs(g, w, q, n);
    SameKeys(g, w, q, n, m, ReadAll(g, w, q).mask);
  }

  /// While nothing has broken the chord off and there is time, a key waits on, unless the keys down are a
  /// chord that no other chord extends; then it performs a chord made of them.
  lemma WaitsForMoreKeys(g: Group, w: Clock, ticks: u16, q: seq<Queued>, actions: seq<QueuedAction>, m: Mask)
    requires CountsTo(g, w, q, |q|) && InTime(w) && AllKeys(g, w, q, |q|, m)
    ensures var r := Handle(g, w, ticks, q, actions);
            && r.coord == w.coord && r.actions == actions
            && (r.resolved.Some? <==> Defined(g, m) && !Extends(g, m))
            && (r.resolved.None? ==> r.queue == q)
            && (r.resolved.Some? ==> TakesOut(g, w, q, |q|, r.resolved.value.presses, r.queue) &&
                                     r.resolved.value.action.Some? && (m, r.resolved.value.action.value) in g.chords)
  {
    ReadFacts(g, w, q, |q|, m);
    Resolving(g, w, q, |q|);
    UnambiguousIff(g.chords, m, None);
    var i := ChordIsFirst(g, m);
  }

  lemma SameKeys(g: Group, w: Clock, q: seq<Queued>, n: nat, a: Mask, b: Mask)
    requires AllKeys(g, w, q, n, a) && AllKeys(g, w, q, n, b)
    ensures a == b
  {
  }

  /// Once something has broken the chord off or the time is over, the first chord made of exactly the keys
  /// down is performed, at the coordinate of the release that broke it off if there is one.
  lemma PerformsDefinedChord(g: Group, w: Clock, ticks: u16, q: seq<Queued>, actions: seq<QueuedAction>, n: nat, m: Mask, i: nat)
    requires CountsTo(g, w, q, n) && (n < |q| || !InTime(w)) && AllKeys(g, w, q, n, m) && FirstChord(g, m, i)
    ensures var r := Handle(g, w, ticks, q, actions);
            && r.resolved.Some? && r.resolved.value.action == Some(g.chords[i].1)
            && TakesOut(g, w, q, n, r.resolved.value.presses, r.queue)
            && r.coord == (if n < |q| && q[n].event.Release? then q[n].event.coord else w.coord)
            && r.actions == actions
  {
    ReadFacts(g, w, q, n, m);
    Resolving(g, w, q, n);
    var j := ChordIsFirst(g, m);
  }

  // ---------------------------------------------------------------------------------------
  // A combination that is no chord

  /// `m` holds the keys of the entries `from` to `end`, exclusive.
  ghost predicate RunOf(order: seq<Mask>, from: nat, end: nat, m: Mask)
  {
    from <= end <= |order| && forall key :: key in m <==> exists k :: from <= k < end && key in order[k]
  }

  /// The keys of the entries are together a chord.
  ghost predicate DefinedRun(g: Group, order: seq<Mask>, from: nat, end: nat)
  {
    from < end && exists m :: RunOf(order, from, end, m) && Defined(g, m)
  }

  lemma {:induction false} UnionIsRun(order: seq<Mask>, from: nat, end: nat)
    requires from <= end <= |order|
    ensures RunOf(order, from, end, Union(order[from..end]))
    decreases end
  {
    if from == end {
      assert order[from..end] == [];
    } else {
      var k := end - 1;
      UnionIsRun(order, from, k);
      assert order[from..end] == order[from..k] + [order[k]];
      UnionSnoc(order[from..k], order[k]);
    }
  }

  lemma RunOnce(order: seq<Mask>, from: nat, end: nat, a: Mask, b: Mask)
    requires RunOf(order, from, end, a) && RunOf(order, from, end, b)
    ensures a == b
  {
    assert forall key :: key in a <==> key in b;
  }

  /// The runs that are split off are those whose keys are a chord.
  lemma IsChordIff(g: Group, order: seq<Mask>, from: nat, end: nat)
    ensures ChordsIn(g, order)(from, end) <==> DefinedRun(g, order, from, end)
  {
    if from <= end <= |order| {
      var m := Union(order[from..end]);
      UnionIsRun(order, from, end);
      var i := ChordIsFirst(g, m);
      if DefinedRun(g, order, from, end) {
        var d :| RunOf(order, from, end, d) && Defined(g, d);
        RunOnce(order, from, end, d, m);
      }
    }
  }

  ghost predicate Meets(g: Group, c: Coord, m: Mask)
  {
    exists key :: key in m && HasKey(g, c, key)
  }

  /// The coordinate of an action split off: that of the release which broke the chord off, or else of the
  /// waiting key, or else the first in the queue that has a key of it.
  ghost predicate PutOn(g: Group, w: Clock, q: seq<Queued>, n: nat, m: Mask, c: Coord)
  {
    var default := if n < |q| && q[n].event.Release? then q[n].event.coord else w.coord;
    if Meets(g, default, m) then c == default
    else if Meets(g, w.coord, m) then c == w.coord
    else if FirstMeets(g, q, m, |q|) then c == default
    else exists k: nat :: k < |q| && FirstMeets(g, q, m, k) && Meets(g, q[k].event.coord, m) && c == q[k].event.coord
  }

  /// None of the first `k` events is of a key of the chord.
  ghost predicate FirstMeets(g: Group, q: seq<Queued>, m: Mask, k: nat)
  {
    forall i :: 0 <= i < k && i < |q| ==> !Meets(g, q[i].event.coord, m)
  }

  lemma MeetsIff(g: Group, c: Coord, m: Mask)
    ensures KeysOf(g, c) * m != {} <==> Meets(g, c, m)
  {
    KeysAreOfFirstEntry(g, c);
    assert forall key :: key in KeysOf(g, c) * m <==> key in m && HasKey(g, c, key);
  }

  lemma {:induction false} FirstMeetingIs(g: Group, q: seq<Queued>, m: Mask, default: Coord, n: nat)
    requires n <= |q| && FirstMeets(g, q, m, n)
    ensures var c := FirstMeeting(g, q[n..], m, default);
            if FirstMeets(g, q, m, |q|) then c == default
            else exists k: nat :: k < |q| && FirstMeets(g, q, m, k) && Meets(g, q[k].event.coord, m) && c == q[k].event.coord
    decreases |q| - n
  {
    if n < |q| {
      assert q[n..][0] == q[n] && q[n..][1..] == q[n + 1..];
      MeetsIff(g, q[n].event.coord, m);
      if !Meets(g, q[n].event.coord, m) {
        FirstMeetingIs(g, q, m, default, n + 1);
      }
    }
  }

  lemma CoordIsPutOn(g: Group, w: Clock, q: seq<Queued>, n: nat, m: Mask)
    requires CountsTo(g, w, q, n)
    ensures PutOn(g, w, q, n, m, CoordFor(g, w, DefaultCoord(g, w, q), q, m))
  {
    AllIsReadAs(g, w, q, n);
    var default := DefaultCoord(g, w, q);
    MeetsIff(g, default, m);
    MeetsIff(g, w.coord, m);
    FirstMeetingIs(g, q, m, default, 0);
    assert q[0..] == q;
  }

  /// The action emitted for a run of keys.
  ghost predicate EmittedFor(g: Group, w: Clock, ticks: u16, q: seq<Queued>, n: nat, order: seq<Mask>, s: Segment, a: QueuedAction)
  {
    && a.delay == (w.delay + ticks) % 0x1_0000
    && exists m, i: nat :: RunOf(order, s.from, s.to, m) && FirstChord(g, m, i) && a.action == g.chords[i].1 && PutOn(g, w, q, n, m, a.coord)
  }

  lemma EmissionIs(g: Group, w: Clock, ticks: u16, q: seq<Queued>, n: nat, s: Segment)
    requires CountsTo(g, w, q, n) && IsChord(g, ReadAll(g, w, q).order, s.from, s.to)
    ensures EmittedFor(g, w, ticks, q, n, ReadAll(g, w, q).order, s, Emission(g, w, ticks, q, s))
  {
    var order := ReadAll(g, w, q).order;
    var m := Union(order[s.from..s.to]);
    UnionIsRun(order, s.from, s.to);
    var i := ChordIsFirst(g, m);
    CoordIsPutOn(g, w, q, n, m);
  }

  ghost predicate AllEmitted(g: Group, w: Clock, ticks: u16, q: seq<Queued>, n: nat, order: seq<Mask>,
                             segments: seq<Segment>, emitted: seq<QueuedAction>)
  {
    |emitted| == |segments| && forall i :: 0 <= i < |emitted| ==> EmittedFor(g, w, ticks, q, n, order, segments[i], emitted[i])
  }

  function LastEight(all: seq<QueuedAction>): (r: seq<QueuedAction>)
  {
    if |all| <= 8 then all else all[|all| - 8..]
  }

  /// A combination that is no chord is split into the longest chords in order of arrival, and their
  /// actions join those that are queued, of which the last eight are kept; no action is performed at once.
  lemma SplitsUndefined(g: Group, w: Clock, ticks: u16, q: seq<Queued>, actions: seq<QueuedAction>, n: nat, m: Mask)
    returns (order: seq<Mask>, segments: seq<Segment>, emitted: seq<QueuedAction>)
    requires CountsTo(g, w, q, n) && (n < |q| || !InTime(w)) && AllKeys(g, w, q, n, m) && !Defined(g, m)
    ensures InOrderOfArrival(g, w, q, n, order) && Splits(ChordsIn(g, order), |order|, 0, segments)
    ensures AllEmitted(g, w, ticks, q, n, order, segments, emitted)
    ensures var r := Handle(g, w, ticks, q, actions);
            && r.resolved.Some? && r.resolved.value.action.None? && r.coord == w.coord
            && TakesOut(g, w, q, n, r.resolved.value.presses, r.queue)
            && r.actions == LastEight(actions + emitted)
  {
    AllIsReadAs(g, w, q, n);
    ReadFacts(g, w, q, n, m);
    Resolving(g, w, q, n);
    var i := ChordIsFirst(g, m);
    order := ReadAll(g, w, q).order;
    segments, emitted := SplitIs(g, w, ticks, q, n);
  }

  lemma SplitIs(g: Group, w: Clock, ticks: u16, q: seq<Queued>, n: nat) returns (segments: seq<Segment>, emitted: seq<QueuedAction>)
    requires CountsTo(g, w, q, n)
    ensures emitted == SplitInto(g, w, ticks, q)
    ensures var order := ReadAll(g, w, q).order;
            Splits(ChordsIn(g, order), |order|, 0, segments) && AllEmitted(g, w, ticks, q, n, order, segments, emitted)
  {
    var order := ReadAll(g, w, q).order;
    segments := Greedy(ChordsIn(g, order), |order|, 0);
    GreedySplits(ChordsIn(g, order), |order|, 0);
    emitted := SplitInto(g, w, ticks, q);
    forall i | 0 <= i < |emitted| ensures EmittedFor(g, w, ticks, q, n, order, segments[i], emitted[i]) {
      assert ChordsIn(g, order)(segments[i].from, segments[i].to);
      EmissionIs(g, w, ticks, q, n, segments[i]);
    }
  }

  // ---------------------------------------------------------------------------------------
  // Skipped ticks

  lemma {:induction false} ReadsTheSame(g: Group, w: Clock, v: Clock, q: seq<Queued>, r: Reading)
    requires w.timeout > 0 && v == w.(timeout := w.timeout - 1)
    ensures Read(g, v, TickAll(q), r) == Read(g, w, q, r)
    decreases |q|
  {
    if q != [] {
      var x := TickAll(q)[0];
      assert Takes(g, v, x) == Takes(g, w, q[0]) && Ends(g, v, x) == Ends(g, w, q[0]);
      assert TickAll(q)[1..] == TickAll(q[1..]);
      if !Ends(g, w, q[0]) {
        ReadsTheSame(g, w, v, q[1..], if Takes(g, w, q[0]) then Took(g, r, q[0]) else r.(length := r.length + 1));
      }
    }
  }

  /// A tick without arrivals that leaves time resolves nothing that was not resolved before, so that it may
  /// be skipped.
  lemma SkippedTickDecidesNothing(g: Group, w: Clock, ticks: u16, q: seq<Queued>, actions: seq<QueuedAction>)
    requires w.timeout > 0 && InTime(w.(timeout := w.timeout - 1))
    requires Handle(g, w, ticks, q, actions).resolved.None?
    ensures var (aged, later) := (TickAll(q), w.(timeout := w.timeout - 1));
            Handle(g, later, SatInc(ticks), aged, actions) == Outcome(None, w.coord, aged, actions)
  {
    var keys := KeysOf(g, w.coord);
    ReadsTheSame(g, w, w.(timeout := w.timeout - 1), q, Reading(0, keys, [keys], 0, None, false));
  }
}
