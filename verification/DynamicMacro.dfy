/// The macro state of src/kanata/dynamic_macro.rs, changed in place, and the loop of `tick_ms` in
/// src/kanata/mod.rs that makes up for the time a replay takes.

module DynamicMacro {
  import opened Types
  import opened MacroModel

  /// The plays that the layout starts in one call of `tick_states`, each with the macros recorded
  /// at that moment.
  type Plays = seq<(u16, Macros)>

  ghost function PlayAll(s: Option<Replay>, plays: Plays): (r: Option<Replay>)
  {
    if plays == [] then s else
    var n := |plays| - 1;
    Play(PlayAll(s, plays[..n]), plays[n].0, plays[n].1)
  }

  // ---------------------------------------------------------------------------------------
  // `tick_ms`

  /// The first loop: the state and the extra ticks after `n` iterations.
  ghost function Catch(s: Option<Replay>, b: DelayBehaviour, env: nat -> Plays, n: nat): (r: (Option<Replay>, u16))
  {
    if n == 0 then (s, 0) else
    var (s1, extra) := Catch(s, b, env, n - 1);
    var (s2, event) := TickReplay(PlayAll(s1, env(n - 1)), b);
    (s2, if event.Some? then SatAdd(extra, event.value.delay) else extra)
  }

  /// The second loop: the state after `n` iterations, and whether one of them replayed an event.
  ghost function Extra(s: Option<Replay>, b: DelayBehaviour, env: nat -> Plays, start: nat, n: nat): (r: (Option<Replay>, bool))
  {
    if n == 0 then (s, false) else
    var (s1, overshot) := Extra(s, b, env, start, n - 1);
    if overshot then (s1, true) else
    var (s2, event) := TickReplay(PlayAll(s1, env(start + n - 1)), b);
    (s2, event.Some?)
  }

  /// `extra_ticks.saturating_sub(ms_elapsed as u16)`.
  function ExtraIterations(extra: u16, ms: nat): (n: u16)
  {
    SatSub(extra, ms % 0x1_0000)
  }

  ghost function CatchUp(s: Option<Replay>, b: DelayBehaviour, env: nat -> Plays, ms: nat): (r: (Option<Replay>, bool))
  {
    var (s1, extra) := Catch(s, b, env, ms);
    Extra(s1, b, env, ms, ExtraIterations(extra, ms))
  }

  class DynamicMacros {
    var record: Option<Record>
    var replay: Option<Replay>
    const behaviour: DelayBehaviour

    constructor (behaviour: DelayBehaviour)
      ensures this.behaviour == behaviour && record == None && replay == None
    {
      this.behaviour := behaviour;
      record, replay := None, None;
    }

    method TickReplayState() returns (event: Option<ReplayEvent>)
      modifies this`replay
      ensures (replay, event) == TickReplay(old(replay), behaviour)
    {
      event := None;
      if replay.Some? {
        var state := replay.value;
        state := state.(delayRemaining := SatSub(state.delayRemaining, 1));
        if state.delayRemaining == 0 {
          state := state.(delayRemaining := CONSTANT_DELAY);
          if state.items == [] {
            replay := None;
            return;
          }
          var item := state.items[0];
          state := state.(items := state.items[1..]);
          match item {
            case KeyItem(press, key, delay) =>
              var wait := 0;
              if behaviour.Recorded? {
                state, wait := state.(delayRemaining := delay), delay;
              }
              event := Some(ReplayEvent(EventOf(press, key), wait));
            case EndMacro(id) =>
              state := state.(active := state.active - {id});
          }
        }
        replay := Some(state);
      }
    }

    method PlayMacro(id: u16, recorded: Macros)
      modifies this`replay
      ensures replay == Play(old(replay), id, recorded)
    {
      match replay {
        case None =>
          if id in recorded {
            replay := Some(Replay({id}, 0, recorded[id]));
          }
        case Some(state) =>
          if id !in state.active && id in recorded {
            var items := PushFront(recorded[id], [EndMacro(id)] + state.items);
            replay := Some(Replay(state.active + {id}, state.delayRemaining, items));
          }
      }
    }

    /// The layout and everything else in `tick_states` touches the replay only by playing macros.
    method TickStates(plays: Plays)
      modifies this`replay
      ensures replay == PlayAll(old(replay), plays)
    {
      for i := 0 to |plays|
        invariant replay == PlayAll(old(replay), plays[..i])
      {
        assert plays[..i + 1][..i] == plays[..i];
        PlayMacro(plays[i].0, plays[i].1);
      }
      assert plays[..|plays|] == plays;
    }

    /// The first loop: one tick for each millisecond, adding up the delays of the events replayed.
    method TickElapsed(ms: nat, env: nat -> Plays) returns (extra: u16)
      modifies this`replay
      ensures (replay, extra) == Catch(old(replay), behaviour, env, ms)
    {
      extra := 0;
      for i := 0 to ms
        invariant (replay, extra) == Catch(old(replay), behaviour, env, i)
      {
        TickStates(env(i));
        var event := TickReplayState();
        if event.Some? {
          extra := SatAdd(extra, event.value.delay);
        }
      }
    }

    /// The second loop: up to `n` further ticks, which are not to reach an event.
    method TickExtra(ms: nat, n: nat, env: nat -> Plays) returns (overshot: bool)
      modifies this`replay
      ensures (replay, overshot) == Extra(old(replay), behaviour, env, ms, n)
    {
      overshot := false;
      for i := 0 to n
        invariant (replay, overshot) == Extra(old(replay), behaviour, env, ms, i)
        invariant !overshot
      {
        TickStates(env(ms + i));
        var event := TickReplayState();
        if event.Some? {
          overshot := true;
          OvershotStays(old(replay), behaviour, env, ms, i + 1, n);
          break;
        }
      }
    }

    /// Returns whether the branch that reports an overshoot was taken.
    method TickMs(ms: nat, env: nat -> Plays) returns (overshot: bool)
      modifies this`replay
      ensures (replay, overshot) == CatchUp(old(replay), behaviour, env, ms)
    {
      var extra := TickElapsed(ms, env);
      overshot := TickExtra(ms, ExtraIterations(extra, ms), env);
    }

    method TickRecordState()
      modifies this`record
      ensures record == TickRecord(old(record))
    {
      if record.Some? {
        record := Some(record.value.(currentDelay := SatInc(record.value.currentDelay)));
      }
    }

    method AddWaiting(w: Waiting)
      requires record.Some?
      modifies this`record
      ensures record == Some(AddEvent(old(record).value, w))
    {
      var state := record.value;
      if state.waiting.Some? {
        var pending := state.waiting.value;
        state := state.(items := state.items + [KeyItem(pending.press, pending.key, state.currentDelay)]);
      }
      record := Some(Record(state.startingId, Some(w), state.items, 0));
    }

    /// Saves and stops the recording when it has grown too long; the waiting event is lost.
    method RecordPress(key: nat, max: u16) returns (saved: Option<(u16, seq<Item>)>)
      modifies this`record
      ensures old(record).None? ==> record == None && saved == None
      ensures old(record).Some? ==>
                if LimitReached(old(record).value, max) then
                  && record == None && saved.Some?
                  && saved.value.0 == old(record).value.startingId && Closes(old(record).value.items, saved.value.1)
                else
                  && record == Some(AddEvent(old(record).value, Waiting(true, key))) && saved == None
    {
      saved := None;
      if record.Some? {
        if |record.value.items| > 2 * max {
          var items := CloseMacro(record.value.items);
          saved := Some((record.value.startingId, items));
          record := None;
        } else {
          AddWaiting(Waiting(true, key));
        }
      }
    }

    method RecordRelease(key: nat)
      modifies this`record
      ensures record == if old(record).None? then None else Some(AddEvent(old(record).value, Waiting(false, key)))
    {
      if record.Some? {
        AddWaiting(Waiting(false, key));
      }
    }

    /// Starts a recording; one that is running is saved first, and not followed by another when it
    /// is of the same macro.
    method BeginRecordMacro(id: u16) returns (panicked: bool, saved: Option<(u16, seq<Item>)>)
      modifies this`record
      ensures panicked <==> old(record).Some? && Panics(old(record).value)
      ensures old(record).None? ==> record == Some(NewRecord(id)) && saved == None
      ensures old(record).Some? && !panicked ==>
                && saved.Some? && saved.value.0 == old(record).value.startingId
                && Closes(Truncated(old(record).value, 0), saved.value.1)
                && record == if id == old(record).value.startingId then None else Some(NewRecord(id))
    {
      panicked, saved := false, None;
      if record.None? {
        record := Some(NewRecord(id));
        return;
      }
      var items := Flushed(record.value);
      if |items| == 0 {
        panicked := true;
        return;
      }
      items := items[..|items| - 1];
      assert items == Truncated(old(record).value, 0);
      items := CloseMacro(items);
      saved := Some((record.value.startingId, items));
      record := if record.value.startingId == id then None else Some(NewRecord(id));
    }

    method StopMacro(remove: u16) returns (panicked: bool, saved: Option<(u16, seq<Item>)>)
      modifies this`record
      ensures panicked <==> old(record).Some? && Panics(old(record).value)
      ensures old(record).None? ==> saved == None
      ensures !panicked ==> record == None
      ensures old(record).Some? && !panicked ==>
                && saved.Some? && saved.value.0 == old(record).value.startingId
                && Closes(Truncated(old(record).value, remove), saved.value.1)
    {
      panicked, saved := false, None;
      if record.Some? {
        var items := Flushed(record.value);
        if |items| == 0 {
          panicked := true;
          return;
        }
        items := items[..|items| - 1];
        items := items[..if remove <= |items| then |items| - remove else 0];
        assert items == Truncated(old(record).value, remove);
        items := CloseMacro(items);
        saved := Some((record.value.startingId, items));
        record := None;
      }
    }
  }

  /// Pushes the items in reverse, so that the first ends up in front.
  method PushFront(items: seq<Item>, q: seq<Item>) returns (r: seq<Item>)
    ensures r == items + q
  {
    r := q;
    var i := |items|;
    while i > 0
      invariant 0 <= i <= |items| && r == items[i..] + q
    {
      i := i - 1;
      r := [items[i]] + r;
    }
  }

  method KeysPressed(items: seq<Item>) returns (pressed: set<nat>)
    ensures pressed == PressedBy(items)
  {
    pressed := {};
    for i := 0 to |items|
      invariant pressed == PressedBy(items[..i])
    {
      assert items[..i + 1][..i] == items[..i];
      match items[i] {
        case KeyItem(press, key, _) => pressed := if press then pressed + {key} else pressed - {key};
        case EndMacro(_) =>
      }
    }
    assert items[..|items|] == items;
  }

  method CloseMacro(items: seq<Item>) returns (saved: seq<Item>)
    ensures Closes(items, saved)
  {
    var pressed := KeysPressed(items);
    saved := items;
    while pressed != {}
      invariant items <= saved && pressed <= PressedBy(items)
      invariant forall i :: |items| <= i < |saved| ==> saved[i].KeyItem? && !saved[i].press && saved[i].delay == 0
      invariant forall i, j :: |items| <= i < j < |saved| ==> saved[i].key != saved[j].key
      invariant KeysFrom(saved, |items|) == PressedBy(items) - pressed
      decreases |pressed|
    {
      var k :| k in pressed;
      KeysFromSnoc(saved, |items|, KeyItem(false, k, 0));
      pressed, saved := pressed - {k}, saved + [KeyItem(false, k, 0)];
    }
  }

  lemma KeysFromSnoc(items: seq<Item>, n: nat, x: Item)
    requires x.KeyItem? && n <= |items|
    ensures KeysFrom(items + [x], n) == KeysFrom(items, n) + {x.key}
    ensures forall i :: n <= i < |items| && items[i].KeyItem? ==> items[i].key in KeysFrom(items, n)
  {
    var r := items + [x];
    assert r[|items|] == x;
    assert forall i :: 0 <= i < |items| ==> r[i] == items[i];
  }

  lemma {:induction false} OvershotStays(s: Option<Replay>, b: DelayBehaviour, env: nat -> Plays, start: nat, i: nat, n: nat)
    requires i <= n && Extra(s, b, env, start, i).1
    ensures Extra(s, b, env, start, n) == Extra(s, b, env, start, i)
    decreases n
  {
    if i < n {
      OvershotStays(s, b, env, start, i, n - 1);
    }
  }
}
