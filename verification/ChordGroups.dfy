/// Chords v1: a key that waits for the rest of a chord, and the way a combination that is no chord
/// is split into chords (keyberon/src/layout.rs, keyberon/src/action.rs).

module ChordGroups {
  import opened Types
  import opened Segmentation

  /// The virtual keys of a group, as a set rather than a bit mask.
  type Mask = set<nat>

  datatype Group = Group(coords: seq<(Coord, Mask)>, chords: seq<(Mask, nat)>)

  datatype QueuedAction = QueuedAction(coord: Coord, delay: u16, action: nat)

  const ACTION_QUEUE_LEN := 8
  const PRESSED_QUEUE_LEN := 32

  // ---------------------------------------------------------------------------------------
  // The group

  function KeysAt(coords: seq<(Coord, Mask)>, c: Coord): (r: Option<Mask>)
    ensures r.Some? ==> exists i :: 0 <= i < |coords| && coords[i].0 == c && coords[i].1 == r.value
    ensures r.None? ==> forall i :: 0 <= i < |coords| ==> coords[i].0 != c
  {
    if coords == [] then None
    else if coords[0].0 == c then Some(coords[0].1)
    else KeysAt(coords[1..], c)
  }

  function ChordOf(chords: seq<(Mask, nat)>, m: Mask): (r: Option<nat>)
    ensures r.Some? ==> exists i :: 0 <= i < |chords| && chords[i] == (m, r.value)
    ensures r.None? ==> forall i :: 0 <= i < |chords| ==> chords[i].0 != m
  {
    if chords == [] then None
    else if chords[0].0 == m then Some(chords[0].1)
    else ChordOf(chords[1..], m)
  }

  function GetKeys(g: Group, c: Coord): Option<Mask>
  {
    KeysAt(g.coords, c)
  }

  function GetChord(g: Group, m: Mask): Option<nat>
  {
    ChordOf(g.chords, m)
  }

  /// The keys of a coordinate, none if it is not in the group.
  function KeysOf(g: Group, c: Coord): Mask
  {
    match GetKeys(g, c)
    case Some(m) => m
    case None => {}
  }

  /// `get_chord_if_unambiguous`.
  function Unambiguous(chords: seq<(Mask, nat)>, m: Mask, found: Option<nat>): (r: Option<nat>)
  {
    if chords == [] then found
    else if chords[0].0 == m then Unambiguous(chords[1..], m, Some(chords[0].1))
    else if m <= chords[0].0 then None
    else Unambiguous(chords[1..], m, found)
  }

  /// Some further key would turn the combination into a chord.
  ghost predicate CouldGrow(chords: seq<(Mask, nat)>, m: Mask)
  {
    exists i :: 0 <= i < |chords| && m < chords[i].0
  }

  lemma CouldGrowCons(chords: seq<(Mask, nat)>, m: Mask)
    requires chords != []
    ensures CouldGrow(chords, m) <==> m < chords[0].0 || CouldGrow(chords[1..], m)
  {
    if CouldGrow(chords[1..], m) {
      var i :| 0 <= i < |chords[1..]| && m < chords[1..][i].0;
      assert chords[i + 1].0 == chords[1..][i].0;
    }
  }

  /// A chord is unambiguous when it is defined and no further key would make another one.
  lemma {:induction false} UnambiguousIff(chords: seq<(Mask, nat)>, m: Mask, found: Option<nat>)
    ensures Unambiguous(chords, m, found).Some? <==>
              !CouldGrow(chords, m) && (found.Some? || ChordOf(chords, m).Some?)
    ensures var r := Unambiguous(chords, m, found);
            r.Some? ==> r == found || (m, r.value) in chords
    decreases |chords|
  {
    if chords != [] {
      CouldGrowCons(chords, m);
      var next := if chords[0].0 == m then Some(chords[0].1) else found;
      UnambiguousIff(chords[1..], m, next);
      assert (m, chords[0].1) == chords[0] || chords[0].0 != m;
    }
  }

  // ---------------------------------------------------------------------------------------
  // Reading the queue

  /// How far the queue was read, what was pressed in it, in which order new keys came, the release
  /// that ended the reading and whether anything did.
  datatype Reading = Reading(length: nat, mask: Mask, order: seq<Mask>, handled: nat, released: Option<Coord>, ended: bool)

  /// The key that waits: its coordinate and its clocks.
  datatype Clock = Clock(coord: Coord, delay: u16, timeout: u16)

  predicate TooOld(w: Clock, x: Queued)
  {
    SatSub(w.delay, x.since) > w.timeout
  }

  /// A press that belongs to the chord.
  predicate Takes(g: Group, w: Clock, x: Queued)
  {
    !TooOld(w, x) && x.event.Press? && GetKeys(g, x.event.coord).Some?
  }

  /// A release of a key of the group, or a press of any other key.
  predicate Ends(g: Group, w: Clock, x: Queued)
  {
    !TooOld(w, x) && (x.event.Release? <==> GetKeys(g, x.event.coord).Some?)
  }

  function Took(g: Group, r: Reading, x: Queued): (s: Reading)
  {
    var keys := KeysOf(g, x.event.coord);
    r.(length := r.length + 1, mask := r.mask + keys, handled := r.handled + 1,
       order := if r.mask + keys != r.mask then r.order + [keys] else r.order)
  }

  ghost function Read(g: Group, w: Clock, q: seq<Queued>, r: Reading): (s: Reading)
    ensures r.length <= s.length <= r.length + |q|
  {
    if q == [] then r
    else if Ends(g, w, q[0]) then
      r.(ended := true, released := if q[0].event.Release? then Some(q[0].event.coord) else r.released)
    else Read(g, w, q[1..], if Takes(g, w, q[0]) then Took(g, r, q[0]) else r.(length := r.length + 1))
  }

  ghost function ReadAll(g: Group, w: Clock, q: seq<Queued>): (s: Reading)
    ensures s.length <= |q|
  {
    var keys := KeysOf(g, w.coord);
    Read(g, w, q, Reading(0, keys, [keys], 0, None, false))
  }

  ghost function Union(ms: seq<Mask>): (m: Mask)
  {
    if ms == [] then {} else Union(ms[..|ms| - 1]) + ms[|ms| - 1]
  }

  lemma UnionSnoc(ms: seq<Mask>, m: Mask)
    ensures Union(ms + [m]) == Union(ms) + m
  {
    assert (ms + [m])[..|ms|] == ms;
  }

  /// The keys in order of arrival are together the keys that the chord is judged by.
  lemma {:induction false} OrderMakesMask(g: Group, w: Clock, q: seq<Queued>, r: Reading)
    requires Union(r.order) == r.mask && r.order != []
    ensures var s := Read(g, w, q, r);
            Union(s.order) == s.mask && r.order <= s.order
    decreases |q|
  {
    if q != [] && !Ends(g, w, q[0]) {
      if Takes(g, w, q[0]) {
        UnionSnoc(r.order, KeysOf(g, q[0].event.coord));
        OrderMakesMask(g, w, q[1..], Took(g, r, q[0]));
      } else {
        OrderMakesMask(g, w, q[1..], r.(length := r.length + 1));
      }
    }
  }

  /// A mask that was pressed: the one of the waiting key, or of an event in the queue.
  ghost predicate Arrived(g: Group, w: Clock, q: seq<Queued>, m: Mask)
  {
    m == KeysOf(g, w.coord) || exists i :: 0 <= i < |q| && m == KeysOf(g, q[i].event.coord)
  }

  ghost predicate AllArrived(g: Group, w: Clock, q: seq<Queued>, ms: seq<Mask>)
  {
    forall i :: 0 <= i < |ms| ==> Arrived(g, w, q, ms[i]) && ms[i] != {}
  }

  lemma {:induction false} OrderHasArrived(g: Group, w: Clock, all: seq<Queued>, n: nat, r: Reading)
    requires n <= |all| && AllArrived(g, w, all, r.order)
    ensures AllArrived(g, w, all, Read(g, w, all[n..], r).order)
    decreases |all| - n
  {
    var q := all[n..];
    if q != [] && !Ends(g, w, q[0]) {
      assert q[1..] == all[n + 1..] && q[0] == all[n];
      var keys := KeysOf(g, q[0].event.coord);
      assert Arrived(g, w, all, keys);
      assert keys == {} ==> r.mask + keys == r.mask;
      OrderHasArrived(g, w, all, n + 1, if Takes(g, w, q[0]) then Took(g, r, q[0]) else r.(length := r.length + 1));
    }
  }

  // ---------------------------------------------------------------------------------------
  // Splitting a combination

  ghost predicate IsChord(g: Group, order: seq<Mask>, from: nat, to: nat)
  {
    from < to <= |order| && GetChord(g, Union(order[from..to])).Some?
  }

  ghost function ChordsIn(g: Group, order: seq<Mask>): Chords
  {
    (from: nat, to: nat) => IsChord(g, order, from, to)
  }

  // ---------------------------------------------------------------------------------------
  // The actions emitted

  function FirstMeeting(g: Group, q: seq<Queued>, m: Mask, default: Coord): (c: Coord)
  {
    if q == [] then default
    else if KeysOf(g, q[0].event.coord) * m != {} then q[0].event.coord
    else FirstMeeting(g, q[1..], m, default)
  }

  /// The coordinate that a chord is put on: that of the release which ended the reading if it can
  /// release the chord, else the first that has a key of it.
  function CoordFor(g: Group, w: Clock, default: Coord, q: seq<Queued>, m: Mask): (c: Coord)
  {
    if KeysOf(g, default) * m != {} then default
    else if w.coord != default && KeysOf(g, w.coord) * m != {} then w.coord
    else FirstMeeting(g, q, m, default)
  }

  ghost function DefaultCoord(g: Group, w: Clock, q: seq<Queued>): Coord
  {
    var r := ReadAll(g, w, q).released;
    if r.Some? then r.value else w.coord
  }

  ghost function Emission(g: Group, w: Clock, ticks: u16, q: seq<Queued>, s: Segment): (a: QueuedAction)
    requires IsChord(g, ReadAll(g, w, q).order, s.from, s.to)
  {
    var m := Union(ReadAll(g, w, q).order[s.from..s.to]);
    QueuedAction(CoordFor(g, w, DefaultCoord(g, w, q), q, m), WrapAdd(w.delay, ticks), GetChord(g, m).value)
  }

  ghost function Emissions(g: Group, w: Clock, ticks: u16, q: seq<Queued>, segments: seq<Segment>): (r: seq<QueuedAction>)
    requires forall i :: 0 <= i < |segments| ==> IsChord(g, ReadAll(g, w, q).order, segments[i].from, segments[i].to)
    ensures |r| == |segments|
    ensures forall i :: 0 <= i < |r| ==> r[i] == Emission(g, w, ticks, q, segments[i])
  {
    seq(|segments|, i requires 0 <= i < |segments| => Emission(g, w, ticks, q, segments[i]))
  }

  /// What a ring of eight keeps.
  function LastActions(q: seq<QueuedAction>): (r: seq<QueuedAction>)
  {
    if |q| <= ACTION_QUEUE_LEN then q else q[|q| - ACTION_QUEUE_LEN..]
  }

  lemma {:induction false} FirstMeetingMeets(g: Group, q: seq<Queued>, m: Mask, default: Coord, i: nat)
    requires i < |q| && KeysOf(g, q[i].event.coord) * m != {}
    ensures KeysOf(g, FirstMeeting(g, q, m, default)) * m != {}
    decreases |q|
  {
    if KeysOf(g, q[0].event.coord) * m == {} {
      FirstMeetingMeets(g, q[1..], m, default, i - 1);
    }
  }

  /// Each emitted action is on a coordinate that has a key of its chord.
  lemma EmittedOnOwnKey(g: Group, w: Clock, q: seq<Queued>, s: Segment)
    requires KeysOf(g, w.coord) != {} && IsChord(g, ReadAll(g, w, q).order, s.from, s.to)
    ensures var m := Union(ReadAll(g, w, q).order[s.from..s.to]);
            KeysOf(g, CoordFor(g, w, DefaultCoord(g, w, q), q, m)) * m != {}
  {
    var keys := KeysOf(g, w.coord);
    var order := ReadAll(g, w, q).order;
    assert q[0..] == q;
    assert Arrived(g, w, q, keys);
    OrderHasArrived(g, w, q, 0, Reading(0, keys, [keys], 0, None, false));
    var part := order[s.from..s.to];
    var m := Union(part);
    var last := part[|part| - 1];
    assert last == order[s.to - 1] && last <= m && last * m == last;
    assert Arrived(g, w, q, last);
    if last != keys {
      var i :| 0 <= i < |q| && last == KeysOf(g, q[i].event.coord);
      FirstMeetingMeets(g, q, m, DefaultCoord(g, w, q), i);
    }
  }

  // ---------------------------------------------------------------------------------------
  // The presses handled

  /// The events left when the first `n` presses that belong to the chord are taken.
  function Kept(g: Group, w: Clock, q: seq<Queued>, n: nat): (r: seq<Queued>)
  {
    if q == [] then []
    else if Takes(g, w, q[0]) && n > 0 then Kept(g, w, q[1..], n - 1)
    else [q[0]] + Kept(g, w, q[1..], n)
  }

  /// The coordinates of those presses.
  function TakenCoords(g: Group, w: Clock, q: seq<Queued>, n: nat): (r: seq<Coord>)
  {
    if q == [] then []
    else if Takes(g, w, q[0]) && n > 0 then [q[0].event.coord] + TakenCoords(g, w, q[1..], n - 1)
    else TakenCoords(g, w, q[1..], n)
  }

  ghost function Left(g: Group, w: Clock, q: seq<Queued>): (r: seq<Queued>)
  {
    if q == [] then [] else if Takes(g, w, q[0]) then Left(g, w, q[1..]) else [q[0]] + Left(g, w, q[1..])
  }

  ghost function Taking(g: Group, w: Clock, q: seq<Queued>): (n: nat)
  {
    if q == [] then 0 else Taking(g, w, q[1..]) + if Takes(g, w, q[0]) then 1 else 0
  }

  lemma {:induction false} KeptPart(g: Group, w: Clock, q: seq<Queued>, n: nat)
    requires n <= |q|
    ensures Kept(g, w, q, Taking(g, w, q[..n])) == Left(g, w, q[..n]) + q[n..]
    decreases |q|
  {
    if q != [] {
      assert q == [q[0]] + q[1..];
      if n == 0 {
        assert q[1..][..0] == [] && q[1..][0..] == q[1..];
        KeptPart(g, w, q[1..], 0);
      } else {
        assert q[..n][1..] == q[1..][..n - 1] && q[n..] == q[1..][n - 1..];
        KeptPart(g, w, q[1..], n - 1);
      }
    }
  }

  lemma {:induction false} ReadingCounts(g: Group, w: Clock, q: seq<Queued>, r: Reading)
    ensures var s := Read(g, w, q, r);
            s.handled == r.handled + Taking(g, w, q[..s.length - r.length])
    decreases |q|
  {
    if q != [] && !Ends(g, w, q[0]) {
      var next := if Takes(g, w, q[0]) then Took(g, r, q[0]) else r.(length := r.length + 1);
      ReadingCounts(g, w, q[1..], next);
      var n := Read(g, w, q, r).length - r.length;
      assert q[..n][1..] == q[1..][..n - 1];
    }
  }

  /// The presses counted while reading are the ones taken from the queue: all that belong to the
  /// chord up to where the reading ended, and none behind.
  lemma TakesWhatWasRead(g: Group, w: Clock, q: seq<Queued>)
    ensures var s := ReadAll(g, w, q);
            Kept(g, w, q, s.handled) == Left(g, w, q[..s.length]) + q[s.length..]
  {
    var keys := KeysOf(g, w.coord);
    ReadingCounts(g, w, q, Reading(0, keys, [keys], 0, None, false));
    KeptPart(g, w, q, ReadAll(g, w, q).length);
  }

  // ---------------------------------------------------------------------------------------
  // The waiting key

  /// The action to perform now, none when the combination was split instead, and the coordinates
  /// of the presses it stands for.
  datatype Resolved = Resolved(action: Option<nat>, presses: seq<Coord>)

  datatype Outcome = Outcome(resolved: Option<Resolved>, coord: Coord, queue: seq<Queued>, actions: seq<QueuedAction>)

  function FirstPresses(cs: seq<Coord>): (r: seq<Coord>)
  {
    if |cs| <= PRESSED_QUEUE_LEN then cs else cs[..PRESSED_QUEUE_LEN]
  }

  ghost function SplitInto(g: Group, w: Clock, ticks: u16, q: seq<Queued>): (r: seq<QueuedAction>)
  {
    var order := ReadAll(g, w, q).order;
    var segments := Greedy(ChordsIn(g, order), |order|, 0);
    GreedySplits(ChordsIn(g, order), |order|, 0);
    Emissions(g, w, ticks, q, segments)
  }

  /// The action emitted is that of the chord made of `m`, on a coordinate with a key of it.
  ghost predicate StandsFor(g: Group, w: Clock, a: QueuedAction, m: Mask)
  {
    GetChord(g, m) == Some(a.action) && (KeysOf(g, w.coord) != {} ==> KeysOf(g, a.coord) * m != {})
  }

  lemma EmissionStands(g: Group, w: Clock, ticks: u16, q: seq<Queued>, s: Segment)
    requires IsChord(g, ReadAll(g, w, q).order, s.from, s.to)
    ensures StandsFor(g, w, Emission(g, w, ticks, q, s), Union(ReadAll(g, w, q).order[s.from..s.to]))
  {
    if KeysOf(g, w.coord) != {} {
      EmittedOnOwnKey(g, w, q, s);
    }
  }

  lemma AllReadIsMask(g: Group, w: Clock, q: seq<Queued>)
    ensures Union(ReadAll(g, w, q).order) == ReadAll(g, w, q).mask
  {
    var keys := KeysOf(g, w.coord);
    UnionSnoc([], keys);
    assert [] + [keys] == [keys] && {} + keys == keys;
    OrderMakesMask(g, w, q, Reading(0, keys, [keys], 0, None, false));
  }

  /// A combination that is no chord is split into the longest chords, in order of arrival; no key is
  /// left out that could start one, and each chord is put on a coordinate of one of its keys.
  lemma SplitsIntoLongestChords(g: Group, w: Clock, ticks: u16, q: seq<Queued>) returns (segments: seq<Segment>)
    ensures var s := ReadAll(g, w, q);
            && Union(s.order) == s.mask
            && Splits(ChordsIn(g, s.order), |s.order|, 0, segments)
            && |SplitInto(g, w, ticks, q)| == |segments|
            && forall i :: 0 <= i < |segments| ==>
                 StandsFor(g, w, SplitInto(g, w, ticks, q)[i], Union(s.order[segments[i].from..segments[i].to]))
  {
    var order := ReadAll(g, w, q).order;
    AllReadIsMask(g, w, q);
    segments := Greedy(ChordsIn(g, order), |order|, 0);
    GreedySplits(ChordsIn(g, order), |order|, 0);
    forall i | 0 <= i < |segments|
      ensures StandsFor(g, w, Emission(g, w, ticks, q, segments[i]), Union(order[segments[i].from..segments[i].to]))
    {
      assert ChordsIn(g, order)(segments[i].from, segments[i].to);
      EmissionStands(g, w, ticks, q, segments[i]);
    }
  }

  /// `handle_chord`, when it does not skip its work.
  ghost function Handle(g: Group, w: Clock, ticks: u16, q: seq<Queued>, actions: seq<QueuedAction>): (r: Outcome)
  {
    var s := ReadAll(g, w, q);
    var (kept, presses) := (Kept(g, w, q, s.handled), FirstPresses([w.coord] + TakenCoords(g, w, q, s.handled)));
    if !s.ended && SatSub(w.timeout, w.delay) > 0 then
      var action := Unambiguous(g.chords, s.mask, None);
      Outcome(if action.None? then None else Some(Resolved(action, presses)), w.coord, if action.None? then q else kept, actions)
    else
      var action := GetChord(g, s.mask);
      if action.Some? then
        Outcome(Some(Resolved(action, presses)), if s.released.Some? then s.released.value else w.coord, kept, actions)
      else
        Outcome(Some(Resolved(None, presses)), w.coord, kept, LastActions(actions + SplitInto(g, w, ticks, q)))
  }
}
