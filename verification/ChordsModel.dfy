/// Chords v2 as a state machine: presses are held back while they may still form a chord, and an
/// activated chord lives until it has been read by the layout and released
/// (keyberon/src/chord.rs).

module ChordsModel {
  import opened Types

  datatype ReleaseBehaviour = OnFirstRelease | OnLastRelease

  datatype Chord = Chord(
    action: nat,
    keys: seq<nat>,
    pendingDuration: u16,
    disabledLayers: seq<nat>,
    releaseBehaviour: ReleaseBehaviour)

  datatype Status = Unread | UnreadReleased | Releasable | Released

  datatype ActiveChord = ActiveChord(
    coordinate: nat,
    remaining: seq<nat>,
    keys: seq<nat>,
    action: nat,
    status: Status,
    delay: u16)

  /// The chords of each key, and the ticks during which no chord may activate after a failure.
  datatype Config = Config(chords: map<nat, seq<Chord>>, ignoreTicks: u16)

  datatype ChordsValue = ChordsValue(
    queue: seq<Queued>,
    active: seq<ActiveChord>,
    ticksToIgnore: u16,
    ticksUntilChange: u16,
    prevLayer: nat,
    prevQueueLen: u8,
    nextCoord: nat)

  const KEY_MAX := 850
  const SMOL_Q_LEN := 16
  const MAX_ACTIVE := 10
  const TRIGGER := Coord(0, 0)

  /// Every chord listed for a key has that key among its participants, and the ignore period is
  /// the minimum that `new` insists on.
  ghost predicate ValidConfig(cfg: Config)
  {
    && 5 <= cfg.ignoreTicks
    && forall k, i :: k in cfg.chords && 0 <= i < |cfg.chords[k]| ==> k in cfg.chords[k][i].keys
  }

  function Initial(cfg: Config): ChordsValue
  {
    ChordsValue([], [], 0, 0, U16_MAX, 0xFF, KEY_MAX + 1)
  }

  function AdvanceCoord(c: nat): nat
  {
    if c + 1 > KEY_MAX + 50 then KEY_MAX + 1 else c + 1
  }

  // ---------------------------------------------------------------------------------------
  // Releasing active chords

  ghost function Except(ks: seq<nat>, j: nat): (r: seq<nat>)
    ensures forall k :: k in r <==> k in ks && k != j
  {
    if ks == [] then [] else
    var n := |ks| - 1;
    assert ks == ks[..n] + [ks[n]];
    if ks[n] == j then Except(ks[..n], j) else Except(ks[..n], j) + [ks[n]]
  }

  predicate IsReleased(s: Status)
  {
    s.UnreadReleased? || s.Released?
  }

  predicate IsUnread(s: Status)
  {
    s.Unread? || s.UnreadReleased?
  }

  function ReleasedStatus(s: Status): Status
  {
    if IsUnread(s) then UnreadReleased else Released
  }

  /// A release of key `j` reaches one active chord.
  ghost function ReleaseKey(a: ActiveChord, j: nat): (r: ActiveChord)
  {
    if j !in a.keys then a
    else
      var left := Except(a.remaining, j);
      a.(remaining := left, status := if left == [] then ReleasedStatus(a.status) else a.status)
  }

  ghost function ReleaseKeyAll(active: seq<ActiveChord>, j: nat): (r: seq<ActiveChord>)
    ensures |r| == |active|
    ensures forall i :: 0 <= i < |r| ==> r[i] == ReleaseKey(active[i], j)
  {
    seq(|active|, i requires 0 <= i < |active| => ReleaseKey(active[i], j))
  }

  /// The active chords after the events of `q` have been forwarded.
  ghost function Forward(active: seq<ActiveChord>, q: seq<Queued>): (r: seq<ActiveChord>)
    ensures |r| == |active|
  {
    if q == [] then active else
    var n := |q| - 1;
    var r := Forward(active, q[..n]);
    if q[n].event.Release? then ReleaseKeyAll(r, q[n].event.coord.col) else r
  }

  // ---------------------------------------------------------------------------------------
  // Which events leave the queue first

  predicate Real(e: Event)
  {
    e.coord.row == 0
  }

  ghost function RealOnly(q: seq<Queued>): (r: seq<Queued>)
    ensures |r| <= |q|
  {
    if q == [] then [] else
    var n := |q| - 1;
    if Real(q[n].event) then RealOnly(q[..n]) + [q[n]] else RealOnly(q[..n])
  }

  ghost function VirtualOnly(q: seq<Queued>): (r: seq<Queued>)
    ensures |r| + |RealOnly(q)| == |q|
  {
    if q == [] then [] else
    var n := |q| - 1;
    if Real(q[n].event) then VirtualOnly(q[..n]) else VirtualOnly(q[..n]) + [q[n]]
  }

  /// The number of releases in front of the first press.
  ghost function LeadingReleases(q: seq<Queued>): (n: nat)
    ensures n <= |q|
    ensures forall i :: 0 <= i < n ==> q[i].event.Release?
    ensures n < |q| ==> q[n].event.Press?
  {
    if q == [] || q[0].event.Press? then 0 else 1 + LeadingReleases(q[1..])
  }

  // ---------------------------------------------------------------------------------------
  // Presses that may form a chord

  datatype PressAt = PressAt(key: nat, since: u16)

  predicate Pressed(ps: seq<PressAt>, k: nat)
  {
    exists i :: 0 <= i < |ps| && ps[i].key == k
  }

  /// The presses up to the first release of one of them, and whether there is such a release.
  ghost function Presses(q: seq<Queued>, seen: seq<PressAt>): (r: (seq<PressAt>, bool))
    decreases |q|
  {
    if q == [] then (seen, false)
    else if q[0].event.Press? then
      Presses(q[1..], if |seen| < SMOL_Q_LEN then seen + [PressAt(q[0].event.coord.col, q[0].since)] else seen)
    else if Pressed(seen, q[0].event.coord.col) then (seen, true)
    else Presses(q[1..], seen)
  }

  predicate Enabled(c: Chord, layer: nat)
  {
    layer !in c.disabledLayers
  }

  /// The chord contains every press of `ps`, and the last came in time after the first.
  predicate Fits(c: Chord, ps: seq<PressAt>, layer: nat)
    requires ps != []
  {
    && Enabled(c, layer)
    && (forall i :: 0 <= i < |ps| ==> ps[i].key in c.keys)
    && ps[0].since - ps[|ps| - 1].since <= c.pendingDuration
  }

  predicate SameKeys(c: Chord, ps: seq<PressAt>)
  {
    && (forall i :: 0 <= i < |ps| ==> ps[i].key in c.keys)
    && (forall i :: 0 <= i < |c.keys| ==> Pressed(ps, c.keys[i]))
  }

  ghost function Fitting(cs: seq<Chord>, ps: seq<PressAt>, layer: nat): (r: seq<Chord>)
    requires ps != []
    ensures |r| <= |cs|
  {
    if cs == [] then [] else
    var n := |cs| - 1;
    if Fits(cs[n], ps, layer) then Fitting(cs[..n], ps, layer) + [cs[n]] else Fitting(cs[..n], ps, layer)
  }

  /// The earliest deadline among the chords that `since` has not passed yet.
  ghost function MinTimeout(cs: seq<Chord>, since: u16): (t: u16)
  {
    if cs == [] then U16_MAX else
    var n := |cs| - 1;
    var t := MinTimeout(cs[..n], since);
    if cs[n].pendingDuration > since && cs[n].pendingDuration < t then cs[n].pendingDuration else t
  }

  lemma {:induction false} FittingMembers(cs: seq<Chord>, ps: seq<PressAt>, layer: nat)
    requires ps != []
    ensures forall c :: c in Fitting(cs, ps, layer) <==> c in cs && Fits(c, ps, layer)
    decreases |cs|
  {
    if cs != [] {
      var n := |cs| - 1;
      assert cs == cs[..n] + [cs[n]];
      FittingMembers(cs[..n], ps, layer);
    }
  }

  /// The earliest deadline is still to come, it is the deadline of a chord, and no later one is sooner.
  lemma {:induction false} MinTimeoutIsADeadline(cs: seq<Chord>, since: u16)
    ensures var t := MinTimeout(cs, since);
            && (t == U16_MAX || (t > since && exists c :: c in cs && c.pendingDuration == t))
            && forall c :: c in cs && c.pendingDuration > since ==> t <= c.pendingDuration
    decreases |cs|
  {
    if cs != [] {
      var n := |cs| - 1;
      assert cs == cs[..n] + [cs[n]];
      MinTimeoutIsADeadline(cs[..n], since);
    }
  }

  predicate IsExact(c: Chord, ps: seq<PressAt>, layer: nat)
  {
    Enabled(c, layer) && SameKeys(c, ps)
  }

  /// The first enabled chord made of exactly the keys of `ps`.
  ghost function Exact(cs: seq<Chord>, ps: seq<PressAt>, layer: nat): (r: Option<Chord>)
    ensures r.Some? ==> r.value in cs && IsExact(r.value, ps, layer)
  {
    if cs == [] then None
    else if IsExact(cs[0], ps, layer) then Some(cs[0])
    else Exact(cs[1..], ps, layer)
  }

  /// It is found if there is one, and none before it is such a chord.
  lemma {:induction false} ExactIsFirst(cs: seq<Chord>, ps: seq<PressAt>, layer: nat) returns (i: nat)
    ensures i <= |cs| && forall j :: 0 <= j < i ==> !IsExact(cs[j], ps, layer)
    ensures if i < |cs| then IsExact(cs[i], ps, layer) && Exact(cs, ps, layer) == Some(cs[i]) else Exact(cs, ps, layer).None?
    decreases |cs|
  {
    if cs == [] || IsExact(cs[0], ps, layer) {
      i := 0;
    } else {
      i := ExactIsFirst(cs[1..], ps, layer);
      i := i + 1;
    }
  }

  function Activate(c: Chord, since: u16, coord: nat, released: bool): ActiveChord
  {
    ActiveChord(
      coord,
      if c.releaseBehaviour.OnLastRelease? then c.keys else [],
      c.keys,
      c.action,
      if released && c.releaseBehaviour.OnFirstRelease? then UnreadReleased else Unread,
      since)
  }

  // ---------------------------------------------------------------------------------------
  // Deciding what the presses mean

  /// Where the scan of the presses stands: the presses taken so far, the chords they fit, what was
  /// activated, whether chords are to be ignored, the wait computed last, the next coordinate.
  datatype Verdict = Verdict(
    taken: seq<PressAt>,
    candidates: seq<Chord>,
    activated: seq<ActiveChord>,
    ignore: bool,
    wait: u16,
    nextCoord: nat)

  function WaitFor(t: u16, since: u16): u16
  {
    if t == U16_MAX then 0 else SatSub(t, since)
  }

  /// Activates the first of `cs` that is made of exactly the presses taken; if there is none,
  /// chords are to be ignored.
  ghost function Complete(cs: seq<Chord>, v: Verdict, layer: nat, since: u16, released: bool): (r: Verdict)
  {
    match Exact(cs, v.taken, layer)
    case Some(c) => Started(v, c, since, released)
    case None => v.(ignore := true)
  }

  function Started(v: Verdict, c: Chord, since: u16, released: bool): (r: Verdict)
  {
    v.(activated := v.activated + [Activate(c, since, v.nextCoord, released)], nextCoord := AdvanceCoord(v.nextCoord))
  }

  /// Takes presses from `m` on until one chord is left and complete, or none is left.
  ghost function Scan(possible: seq<Chord>, ps: seq<PressAt>, m: nat, layer: nat, since: u16, released: bool,
                      v: Verdict): (r: Verdict)
    requires m <= |ps|
    decreases |ps| - m
  {
    if m == |ps| then v else
    var taken := ps[..m + 1];
    var fitting := Fitting(possible, taken, layer);
    var v1 := v.(taken := taken, candidates := fitting);
    var v2 := v1.(wait := WaitFor(MinTimeout(fitting, since), since));
    if |fitting| == 0 then
      Complete(possible, v1.(taken := ps[..m]), layer, since, released)
    else if |fitting| == 1 then
      if SameKeys(fitting[0], taken) then
        Started(v1, fitting[0], since, released)
      else
        Scan(possible, ps, m + 1, layer, since, released, v2.(nextCoord := AdvanceCoord(v.nextCoord)))
    else
      Scan(possible, ps, m + 1, layer, since, released, v2)
  }

  /// The verdict after a press that leaves chords possible and completes none.
  ghost function NextVerdict(v: Verdict, taken: seq<PressAt>, fitting: seq<Chord>, since: u16): (r: Verdict)
  {
    v.(taken := taken, candidates := fitting, wait := WaitFor(MinTimeout(fitting, since), since),
       nextCoord := if |fitting| == 1 then AdvanceCoord(v.nextCoord) else v.nextCoord)
  }

  lemma ScanFails(possible: seq<Chord>, ps: seq<PressAt>, m: nat, layer: nat, since: u16, released: bool, v: Verdict)
    requires m < |ps| && Fitting(possible, ps[..m + 1], layer) == []
    ensures Scan(possible, ps, m, layer, since, released, v)
         == Complete(possible, v.(taken := ps[..m], candidates := []), layer, since, released)
  {
  }

  lemma ScanSucceeds(possible: seq<Chord>, ps: seq<PressAt>, m: nat, layer: nat, since: u16, released: bool, v: Verdict)
    requires m < |ps|
    requires var fitting := Fitting(possible, ps[..m + 1], layer);
             |fitting| == 1 && SameKeys(fitting[0], ps[..m + 1])
    ensures var fitting := Fitting(possible, ps[..m + 1], layer);
            var done := Started(v.(taken := ps[..m + 1], candidates := fitting), fitting[0], since, released);
            Scan(possible, ps, m, layer, since, released, v) == done
  {
  }

  lemma ScanGoesOn(possible: seq<Chord>, ps: seq<PressAt>, m: nat, layer: nat, since: u16, released: bool, v: Verdict)
    requires m < |ps|
    requires var fitting := Fitting(possible, ps[..m + 1], layer);
             |fitting| > 0 && !(|fitting| == 1 && SameKeys(fitting[0], ps[..m + 1]))
    ensures Scan(possible, ps, m, layer, since, released, v)
         == Scan(possible, ps, m + 1, layer, since, released,
                 NextVerdict(v, ps[..m + 1], Fitting(possible, ps[..m + 1], layer), since))
  {
  }

  /// When nothing is worth waiting for, the presses are a chord now or never.
  ghost function Conclude(possible: seq<Chord>, layer: nat, since: u16, released: bool, v: Verdict): (r: Verdict)
  {
    if v.wait > 0 && !released then v else
    Complete(if |v.candidates| >= SMOL_Q_LEN then possible else v.candidates, v, layer, since, released)
  }

  ghost function Judge(possible: seq<Chord>, ps: seq<PressAt>, layer: nat, since: u16, released: bool, nextCoord: nat): (r: Verdict)
  {
    Conclude(possible, layer, since, released,
             Scan(possible, ps, 0, layer, since, released, Verdict([], [], [], false, 0, nextCoord)))
  }

  predicate Consumed(x: Queued, taken: seq<PressAt>)
  {
    x.event.Press? && Pressed(taken, x.event.coord.col)
  }

  ghost function Unconsumed(q: seq<Queued>, taken: seq<PressAt>): (r: seq<Queued>)
    ensures |r| <= |q|
  {
    if q == [] then [] else
    var n := |q| - 1;
    if Consumed(q[n], taken) then Unconsumed(q[..n], taken) else Unconsumed(q[..n], taken) + [q[n]]
  }

  ghost function Taken(q: seq<Queued>, taken: seq<PressAt>): (r: seq<Queued>)
  {
    if q == [] then [] else
    var n := |q| - 1;
    if Consumed(q[n], taken) then Taken(q[..n], taken) + [q[n]] else Taken(q[..n], taken)
  }

  /// The verdict on a queue of real events that is empty or starts with a press.
  ghost function JudgeQueue(cfg: Config, q: seq<Queued>, layer: nat, nextCoord: nat): (j: Verdict)
  {
    var (ps, released) := Presses(q, []);
    if q == [] || ps == [] then Verdict([], [], [], false, 0, nextCoord)
    else if ps[0].key !in cfg.chords then Verdict([], [], [], true, 0, nextCoord)
    else Judge(cfg.chords[ps[0].key], ps, layer, q[0].since, released, nextCoord)
  }

  // ---------------------------------------------------------------------------------------
  // Ticks

  /// What draining the inputs does: the new value, the events forwarded to the layout, those of
  /// them that the active chords have seen, the chords started and the presses they consumed.
  datatype Outcome = Outcome(
    value: ChordsValue,
    forwarded: seq<Queued>,
    seen: seq<Queued>,
    started: seq<ActiveChord>,
    consumed: seq<Queued>)

  /// `process_presses`.
  ghost function ProcessPresses(cfg: Config, v: ChordsValue, layer: nat, forwarded: seq<Queued>, seen: seq<Queued>): (r: Outcome)
  {
    var j := JudgeQueue(cfg, v.queue, layer, v.nextCoord);
    Outcome(
      v.(queue := if j.activated == [] then v.queue else Unconsumed(v.queue, j.taken),
         active := v.active + j.activated,
         ticksToIgnore := if j.ignore then cfg.ignoreTicks else v.ticksToIgnore,
         ticksUntilChange := j.wait,
         nextCoord := j.nextCoord),
      forwarded,
      seen,
      j.activated,
      if j.activated == [] then [] else Taken(v.queue, j.taken))
  }

  /// `drain_without_new_activations`.
  ghost function ForwardAll(v: ChordsValue): (r: Outcome)
  {
    Outcome(v.(active := Forward(v.active, v.queue), queue := []), v.queue, v.queue, [], [])
  }

  /// `drain_virtual_keys` and `drain_releases`: what remains starts with a press.
  ghost function ForwardLeading(v: ChordsValue, layer: nat): (r: (ChordsValue, seq<Queued>, seq<Queued>))
  {
    var reals := RealOnly(v.queue);
    var n := LeadingReleases(reals);
    (v.(ticksUntilChange := 0, prevLayer := layer, prevQueueLen := |v.queue| % 256,
        queue := reals[n..], active := Forward(v.active, reals[..n])),
     VirtualOnly(v.queue) + reals[..n],
     reals[..n])
  }

  /// Nothing arrived, the layer is the same and no deadline is due.
  predicate MaySkip(v: ChordsValue, layer: nat)
  {
    v.ticksUntilChange > 0 && v.prevLayer == layer && v.prevQueueLen == |v.queue|
  }

  ghost function DrainInputs(cfg: Config, v: ChordsValue, layer: nat): (r: Outcome)
  {
    if v.ticksToIgnore > 0 then ForwardAll(v)
    else if MaySkip(v, layer) then Outcome(v.(ticksUntilChange := v.ticksUntilChange - 1), [], [], [], [])
    else
      var (v1, forwarded, seen) := ForwardLeading(v, layer);
      ProcessPresses(cfg, v1, layer, forwarded, seen)
  }

  function Aged(active: seq<ActiveChord>): (r: seq<ActiveChord>)
    ensures |r| == |active|
    ensures forall i :: 0 <= i < |r| ==> r[i] == active[i].(delay := SatInc(active[i].delay))
  {
    seq(|active|, i requires 0 <= i < |active| => active[i].(delay := SatInc(active[i].delay)))
  }

  ghost function Unreleased(active: seq<ActiveChord>): (r: seq<ActiveChord>)
  {
    if active == [] then [] else
    var n := |active| - 1;
    if active[n].status.Released? then Unreleased(active[..n]) else Unreleased(active[..n]) + [active[n]]
  }

  /// The releases of the chords that are removed, in order.
  ghost function ChordReleases(active: seq<ActiveChord>): (r: seq<Queued>)
  {
    if active == [] then [] else
    var n := |active| - 1;
    if active[n].status.Released? then ChordReleases(active[..n]) + [Queued(Release(Coord(0, active[n].coordinate)), 0)]
    else ChordReleases(active[..n])
  }

  ghost function Triggers(before: seq<ActiveChord>, after: seq<ActiveChord>): (r: seq<Queued>)
  {
    (if |after| != |before| then [Queued(Press(TRIGGER), 0)] else []) +
    (if exists i :: 0 <= i < |after| && IsReleased(after[i].status) then [Queued(Release(TRIGGER), 0)] else [])
  }

  /// The last `SMOL_Q_LEN` elements, which is what a ring of that size retains.
  ghost function Ring(q: seq<Queued>): (r: seq<Queued>)
    ensures |q| <= SMOL_Q_LEN ==> r == q
  {
    if |q| <= SMOL_Q_LEN then q else q[|q| - SMOL_Q_LEN..]
  }

  /// What a tick does: as draining, and the events that chords add to the output.
  datatype TickResult = TickResult(drained: Outcome, value: ChordsValue, triggers: seq<Queued>, releases: seq<Queued>)
  {
    /// What `tick_chv2` hands to the layout.
    ghost function Output(): seq<Queued>
    {
      Ring(drained.forwarded + triggers + releases)
    }

    /// The assertions about room fail: too many chords are active, or a release of one is pushed
    /// on a full ring.
    ghost predicate Overflows()
    {
      || |drained.value.active| > MAX_ACTIVE
      || (releases != [] && |drained.forwarded + triggers + releases| > SMOL_Q_LEN)
    }
  }

  function Age(v: ChordsValue): ChordsValue
  {
    v.(queue := TickAll(v.queue), active := Aged(v.active))
  }

  /// The assertion about room for virtual keys fails.
  ghost predicate VirtualOverflow(v: ChordsValue, layer: nat)
  {
    v.ticksToIgnore == 0 && !MaySkip(v, layer) && |VirtualOnly(v.queue)| > SMOL_Q_LEN
  }

  ghost function Tick(cfg: Config, v: ChordsValue, layer: nat): (r: TickResult)
  {
    var d := DrainInputs(cfg, Age(v), layer);
    TickResult(
      d,
      d.value.(active := Unreleased(d.value.active), ticksToIgnore := SatSub(d.value.ticksToIgnore, 1)),
      Triggers(v.active, d.value.active),
      ChordReleases(d.value.active))
  }

  /// The oldest unread chord, or the number of chords.
  ghost function OldestUnread(active: seq<ActiveChord>): (i: nat)
    ensures i <= |active|
    ensures i < |active| ==> IsUnread(active[i].status)
    ensures forall k :: 0 <= k < i ==> !IsUnread(active[k].status)
  {
    if active == [] || IsUnread(active[0].status) then 0 else 1 + OldestUnread(active[1..])
  }

  function ReadStatus(s: Status): Status
  {
    if s.Unread? then Releasable else if s.UnreadReleased? then Released else s
  }

  /// `get_action_chv2`: the coordinate, delay and action handed out, if any.
  ghost function Read(v: ChordsValue): (r: (ChordsValue, Option<(nat, u16, nat)>))
  {
    var i := OldestUnread(v.active);
    if i == |v.active| then (v, None) else
    var a := v.active[i];
    (v.(active := v.active[i := a.(status := ReadStatus(a.status))]), Some((a.coordinate, a.delay, a.action)))
  }

  const QUEUE_SIZE := 32

  /// `push_back_chv2`: the oldest entry is returned when the queue is full.
  function PushBack(v: ChordsValue, x: Queued): (r: (ChordsValue, Option<Queued>))
  {
    if |v.queue| < QUEUE_SIZE then (v.(queue := v.queue + [x]), None)
    else (v.(queue := v.queue[1..] + [x]), if v.queue == [] then None else Some(v.queue[0]))
  }
}
