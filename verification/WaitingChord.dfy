/// The chord part of `WaitingState` in keyberon/src/layout.rs: the key that waits for a chord, its
/// loops over the event queue, and the splitting loop, each proved to do what `ChordGroups` says.

module WaitingChord {
  import opened Types
  import opened Segmentation
  import opened ChordGroups

  class WaitingChord {
    const group: Group
    var coord: Coord
    var delay: u16
    var timeout: u16
    var ticks: u16
    var prevQueueLen: u8

    ghost function Now(): Clock
      reads this
    {
      Clock(coord, delay, timeout)
    }

    constructor (group: Group, coord: Coord, delay: u16, timeout: u16)
      ensures this.group == group && Now() == Clock(coord, delay, timeout) && ticks == 0 && prevQueueLen == 0xFF
    {
      this.group, this.coord, this.delay, this.timeout := group, coord, delay, timeout;
      ticks, prevQueueLen := 0, 0xFF;
    }

    /// Nothing has arrived and there is time left.
    predicate Skips(queue: seq<Queued>)
      reads this
    {
      |queue| % 256 == prevQueueLen && SatSub(timeout, delay) > 0
    }

    method HandleChord(queue: seq<Queued>, actions: seq<QueuedAction>)
      returns (resolved: Option<Resolved>, q: seq<Queued>, a: seq<QueuedAction>)
      requires |actions| <= ACTION_QUEUE_LEN
      modifies this`coord, this`prevQueueLen
      ensures old(Skips(queue)) ==>
                resolved == None && q == queue && a == actions && coord == old(coord) && prevQueueLen == old(prevQueueLen)
      ensures !old(Skips(queue)) ==>
                Outcome(resolved, coord, q, a) == Handle(group, old(Now()), ticks, queue, actions)
                && prevQueueLen == |queue| % 256
    {
      resolved, q, a := None, queue, actions;
      if |queue| % 256 == prevQueueLen && SatSub(timeout, delay) > 0 {
        return;
      }
      prevQueueLen := |queue| % 256;
      var w := Clock(coord, delay, timeout);
      var mask, handled, released, ended := ReadMask(group, w, queue);
      var action;
      if !ended && SatSub(timeout, delay) > 0 {
        action := Unambiguous(group.chords, mask, None);
        if action.None? {
          return;
        }
      } else {
        action := GetChord(group, mask);
        if action.None? {
          a := Decompose(group, w, ticks, queue, actions);
        } else if released.Some? {
          coord := released.value;
        }
      }
      var presses;
      q, presses := RetainUnhandled(group, w, queue, handled);
      resolved := Some(Resolved(action, FirstPresses([w.coord] + presses)));
    }

    method TickChord(queue: seq<Queued>, actions: seq<QueuedAction>)
      returns (resolved: Option<Resolved>, q: seq<Queued>, a: seq<QueuedAction>)
      requires |actions| <= ACTION_QUEUE_LEN
      modifies this
      ensures timeout == SatSub(old(timeout), 1) && ticks == SatInc(old(ticks)) && delay == old(delay)
      ensures var w := Clock(old(coord), delay, timeout);
              if |queue| % 256 == old(prevQueueLen) && SatSub(timeout, delay) > 0 then
                resolved == None && q == queue && a == actions && coord == old(coord)
              else
                Outcome(resolved, coord, q, a) == Handle(group, w, ticks, queue, actions)
    {
      timeout, ticks := SatSub(timeout, 1), SatInc(ticks);
      resolved, q, a := HandleChord(queue, actions);
    }
  }

  /// The mask of the keys pressed, the number of presses behind it, and what ended the reading.
  method ReadMask(g: Group, w: Clock, queue: seq<Queued>)
    returns (mask: Mask, handled: nat, released: Option<Coord>, ended: bool)
    ensures var s := ReadAll(g, w, queue);
            mask == s.mask && handled == s.handled && released == s.released && ended == s.ended
  {
    mask, handled, released, ended := KeysOf(g, w.coord), 0, None, false;
    ghost var r := Reading(0, mask, [mask], 0, None, false);
    assert queue[0..] == queue;
    for i := 0 to |queue|
      invariant mask == r.mask && handled == r.handled && released == r.released == None && ended == r.ended == false
      invariant Read(g, w, queue[i..], r) == ReadAll(g, w, queue)
    {
      var x := queue[i];
      assert queue[i..][0] == x && queue[i..][1..] == queue[i + 1..];
      if Ends(g, w, x) {
        ended := true;
        if x.event.Release? {
          released := Some(x.event.coord);
        }
        return;
      }
      r := if Takes(g, w, x) then Took(g, r, x) else r.(length := r.length + 1);
      if Takes(g, w, x) {
        handled := handled + 1;
        mask := mask + KeysOf(g, x.event.coord);
      }
    }
  }

  /// The keys in order of arrival, and the coordinate to prefer.
  method ReadOrder(g: Group, w: Clock, queue: seq<Queued>) returns (order: seq<Mask>, default: Coord)
    ensures order == ReadAll(g, w, queue).order && default == DefaultCoord(g, w, queue)
  {
    var active := KeysOf(g, w.coord);
    order, default := [active], w.coord;
    ghost var r := Reading(0, active, [active], 0, None, false);
    assert queue[0..] == queue;
    for i := 0 to |queue|
      invariant active == r.mask && order == r.order && default == w.coord && r.released == None
      invariant Read(g, w, queue[i..], r) == ReadAll(g, w, queue)
    {
      var x := queue[i];
      assert queue[i..][0] == x && queue[i..][1..] == queue[i + 1..];
      if Ends(g, w, x) {
        if x.event.Release? {
          default := x.event.coord;
        }
        return;
      }
      r := if Takes(g, w, x) then Took(g, r, x) else r.(length := r.length + 1);
      if Takes(g, w, x) {
        var keys := KeysOf(g, x.event.coord);
        if active + keys != active {
          order := order + [keys];
        }
        active := active + keys;
      }
    }
  }

  method Mask(order: seq<Mask>) returns (m: Mask)
    ensures m == Union(order)
  {
    m := {};
    for i := 0 to |order|
      invariant m == Union(order[..i])
    {
      assert order[..i + 1][..i] == order[..i];
      m := m + order[i];
    }
    assert order[..|order|] == order;
  }

  method RetainUnhandled(g: Group, w: Clock, queue: seq<Queued>, handled: nat) returns (kept: seq<Queued>, taken: seq<Coord>)
    ensures kept == Kept(g, w, queue, handled) && taken == TakenCoords(g, w, queue, handled)
  {
    kept, taken := [], [];
    var left := handled;
    assert queue[0..] == queue;
    for i := 0 to |queue|
      invariant kept + Kept(g, w, queue[i..], left) == Kept(g, w, queue, handled)
      invariant taken + TakenCoords(g, w, queue[i..], left) == TakenCoords(g, w, queue, handled)
    {
      assert queue[i..][0] == queue[i] && queue[i..][1..] == queue[i + 1..];
      if Takes(g, w, queue[i]) && left > 0 {
        taken, left := taken + [queue[i].event.coord], left - 1;
      } else {
        kept := kept + [queue[i]];
      }
    }
    assert queue[|queue|..] == [];
  }

  function PushAction(q: seq<QueuedAction>, x: QueuedAction): (r: seq<QueuedAction>)
  {
    if |q| < ACTION_QUEUE_LEN then q + [x] else q[1..] + [x]
  }

  lemma OneMoreAction(actions: seq<QueuedAction>, emitted: seq<QueuedAction>, x: QueuedAction)
    ensures LastActions(actions + (emitted + [x])) == PushAction(LastActions(actions + emitted), x)
  {
    var all := actions + emitted;
    assert actions + (emitted + [x]) == all + [x];
  }

  /// The longest run from `start` that is a chord: the whole rest first, then ever shorter runs.
  method LongestChord(g: Group, order: seq<Mask>, start: nat) returns (end: nat, mask: Mask, action: Option<nat>)
    requires start < |order|
    ensures end == LongestEnd(ChordsIn(g, order), start, |order|)
    ensures end > start ==> mask == Union(order[start..end]) && action == GetChord(g, mask)
  {
    end := |order|;
    mask := Mask(order[start..end]);
    action := GetChord(g, mask);
    if action.None? {
      end := end - 1;
      while end > start
        invariant start <= end <= |order|
        invariant LongestEnd(ChordsIn(g, order), start, |order|) == LongestEnd(ChordsIn(g, order), start, end)
      {
        mask := Mask(order[start..end]);
        action := GetChord(g, mask);
        if action.Some? {
          return;
        }
        end := end - 1;
      }
    }
  }

  ghost predicate AllChords(g: Group, order: seq<Mask>, segments: seq<Segment>)
  {
    forall i :: 0 <= i < |segments| ==> IsChord(g, order, segments[i].from, segments[i].to)
  }

  /// Splits the keys pressed into chords and queues their actions; a full queue loses its oldest.
  method Decompose(g: Group, w: Clock, ticks: u16, queue: seq<Queued>, actions: seq<QueuedAction>) returns (a: seq<QueuedAction>)
    requires |actions| <= ACTION_QUEUE_LEN
    ensures a == LastActions(actions + SplitInto(g, w, ticks, queue))
  {
    var order, default := ReadOrder(g, w, queue);
    ghost var chord := ChordsIn(g, order);
    ghost var segments: seq<Segment> := [];
    ghost var emitted: seq<QueuedAction> := [];
    var start := 0;
    a := actions;
    assert actions + emitted == actions;
    while start < |order|
      invariant start <= |order| && AllChords(g, order, segments)
      invariant emitted == Emissions(g, w, ticks, queue, segments)
      invariant a == LastActions(actions + emitted)
      invariant segments + Greedy(chord, |order|, start) == Greedy(chord, |order|, 0)
      decreases |order| - start
    {
      var end, mask, action := LongestChord(g, order, start);
      GreedyTurn(chord, |order|, start, segments);
      if end > start {
        var x := QueuedAction(CoordFor(g, w, default, queue, mask), WrapAdd(w.delay, ticks), action.value);
        EmissionsSnoc(g, w, ticks, queue, segments, Segment(start, end));
        OneMoreAction(actions, emitted, x);
        a, segments, emitted := PushAction(a, x), segments + [Segment(start, end)], emitted + [x];
      }
      start := if end <= start then start + 1 else end;
    }
    assert segments == Greedy(chord, |order|, 0);
  }

  lemma GreedyTurn(chord: Chords, n: nat, start: nat, segments: seq<Segment>)
    requires start < n
    ensures var e := LongestEnd(chord, start, n);
            segments + Greedy(chord, n, start) ==
            if e > start then segments + [Segment(start, e)] + Greedy(chord, n, e) else segments + Greedy(chord, n, start + 1)
  {
  }

  lemma EmissionsSnoc(g: Group, w: Clock, ticks: u16, q: seq<Queued>, segments: seq<Segment>, s: Segment)
    requires AllChords(g, ReadAll(g, w, q).order, segments) && IsChord(g, ReadAll(g, w, q).order, s.from, s.to)
    ensures AllChords(g, ReadAll(g, w, q).order, segments + [s])
    ensures Emissions(g, w, ticks, q, segments + [s])
         == Emissions(g, w, ticks, q, segments) + [Emission(g, w, ticks, q, s)]
  {
  }
}
