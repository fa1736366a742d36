/// What a recording keeps of the keys typed, and that replaying it types them again
/// (src/kanata/dynamic_macro.rs).

module RecordReplay {
  import opened Types
  import opened MacroModel
  import opened NestedReplay

  /// What a recording sees: a tick passes, or a key event happens.
  datatype Seen = Pass | Happen(w: Waiting)

  ghost function Follow(r: Record, seen: seq<Seen>): (s: Record)
  {
    if seen == [] then r else
    var n := |seen| - 1;
    var s := Follow(r, seen[..n]);
    match seen[n]
    case Pass => TickRecord(Some(s)).value
    case Happen(w) => AddEvent(s, w)
  }

  /// The ticks up to the next event.
  ghost function Gap(seen: seq<Seen>): (n: nat)
  {
    if seen == [] || seen[0].Happen? then 0 else 1 + Gap(seen[1..])
  }

  function Clamp(n: nat): u16
  {
    if n < U16_MAX then n else U16_MAX
  }

  /// Every event with the ticks that pass after it.
  ghost function Itemised(seen: seq<Seen>): (items: seq<Item>)
  {
    if seen == [] then []
    else if seen[0].Pass? then Itemised(seen[1..])
    else [KeyItem(seen[0].w.press, seen[0].w.key, Clamp(Gap(seen[1..])))] + Itemised(seen[1..])
  }

  predicate Quiet(seen: seq<Seen>)
  {
    forall i :: 0 <= i < |seen| ==> seen[i].Pass?
  }

  function Lengthened(item: Item): Item
    requires item.KeyItem?
  {
    item.(delay := SatInc(item.delay))
  }

  lemma {:induction false} PassLengthensLast(seen: seq<Seen>)
    ensures Gap(seen + [Pass]) == if Quiet(seen) then Gap(seen) + 1 else Gap(seen)
    ensures var (a, c) := (Itemised(seen), Itemised(seen + [Pass]));
            |c| == |a| && (a == [] <==> Quiet(seen))
            && (a != [] ==> a[|a| - 1].KeyItem? && c == a[|a| - 1 := Lengthened(a[|a| - 1])])
    decreases |seen|
  {
    if seen == [] {
      assert [Pass][1..] == [];
    } else {
      PassLengthensLast(seen[1..]);
      assert (seen + [Pass])[1..] == seen[1..] + [Pass];
      assert Quiet(seen) <==> seen[0].Pass? && Quiet(seen[1..]) by {
        assert forall i :: 0 < i < |seen| ==> seen[i] == seen[1..][i - 1];
      }
    }
  }

  lemma {:induction false} HappenAddsOne(seen: seq<Seen>, w: Waiting)
    ensures Gap(seen + [Happen(w)]) == Gap(seen)
    ensures Itemised(seen + [Happen(w)]) == Itemised(seen) + [KeyItem(w.press, w.key, 0)]
    decreases |seen|
  {
    var last: seq<Seen> := [];
    if seen == [] {
      assert [Happen(w)][1..] == last;
      assert seen + [Happen(w)] == [Happen(w)];
    } else {
      HappenAddsOne(seen[1..], w);
      assert (seen + [Happen(w)])[1..] == seen[1..] + [Happen(w)];
    }
  }

  /// A recording holds every event, in order, with the clamped number of ticks up to the next.
  lemma {:induction false} RecordsWhatHappened(id: u16, seen: seq<Seen>)
    ensures var r := Follow(NewRecord(id), seen);
            && r.startingId == id && Flushed(r) == Itemised(seen)
            && (r.waiting.None? ==> r.items == [])
    decreases |seen|
  {
    if seen != [] {
      var n := |seen| - 1;
      RecordsWhatHappened(id, seen[..n]);
      assert seen == seen[..n] + [seen[n]];
      match seen[n] {
        case Pass => PassLengthensLast(seen[..n]);
        case Happen(w) => HappenAddsOne(seen[..n], w);
      }
    }
  }

  // ---------------------------------------------------------------------------------------
  // What is saved

  lemma {:induction false} ReleasesFree(items: seq<Item>, n: nat)
    requires n <= |items| && forall i :: n <= i < |items| ==> items[i].KeyItem? && !items[i].press
    ensures PressedBy(items) == PressedBy(items[..n]) - KeysFrom(items, n)
    decreases |items|
  {
    if n < |items| {
      var m := |items| - 1;
      ReleasesFree(items[..m], n);
      assert items[..m][..n] == items[..n];
      assert KeysFrom(items, n) == KeysFrom(items[..m], n) + {items[m].key} by {
        assert forall i :: 0 <= i < m ==> items[..m][i] == items[i];
      }
    } else {
      assert items[..n] == items;
      assert KeysFrom(items, n) == {};
    }
  }

  /// A saved macro leaves no key pressed and holds no end marker.
  lemma SavedMacroIsClosed(items: seq<Item>, saved: seq<Item>)
    requires Plain(items) && Closes(items, saved)
    ensures PressedBy(saved) == {} && Plain(saved)
  {
    ReleasesFree(saved, |items|);
    assert saved[..|items|] == items;
    forall i | 0 <= i < |saved| ensures saved[i].KeyItem? {
      if i < |items| {
        assert saved[i] == items[i];
      }
    }
  }

  lemma {:induction false} ItemisedIsPlain(seen: seq<Seen>)
    ensures Plain(Itemised(seen))
    decreases |seen|
  {
    if seen != [] {
      ItemisedIsPlain(seen[1..]);
    }
  }

  /// All three ways to save a recording close it: `begin_record_macro` and `stop_macro`, which
  /// remove items from the end, and the limit of `record_press`, which loses the waiting event.
  lemma EveryExitCloses(id: u16, seen: seq<Seen>, remove: u16, saved: seq<Item>)
    requires var r := Follow(NewRecord(id), seen);
             Closes(r.items, saved) || (!Panics(r) && Closes(Truncated(r, remove), saved))
    ensures PressedBy(saved) == {} && Plain(saved)
  {
    var r := Follow(NewRecord(id), seen);
    RecordsWhatHappened(id, seen);
    ItemisedIsPlain(seen);
    assert r.items <= Flushed(r);
    if Closes(r.items, saved) {
      SavedMacroIsClosed(r.items, saved);
    } else {
      SavedMacroIsClosed(Truncated(r, remove), saved);
    }
  }

  /// Saving panics exactly when nothing was typed since the recording began.
  lemma PanicsIffNothingTyped(id: u16, seen: seq<Seen>)
    ensures Panics(Follow(NewRecord(id), seen)) <==> Quiet(seen)
  {
    RecordsWhatHappened(id, seen);
    PassLengthensLast(seen);
  }

  // ---------------------------------------------------------------------------------------
  // Replaying

  /// The ticks from one replayed event to the next.
  function Pace(item: Item, b: DelayBehaviour): (n: nat)
    requires item.KeyItem?
    ensures n > 0
  {
    if b.Constant? then CONSTANT_DELAY else if item.delay == 0 then 1 else item.delay
  }

  function Silence(n: nat): (r: seq<Option<Event>>)
  {
    seq(n, i => None)
  }

  /// An item with `press` presses its key, any other releases it; both as a key of row 0.
  function KeyEvent(item: Item): (e: Event)
    requires item.KeyItem?
    ensures item.press ==> e == Press(Coord(0, item.key))
    ensures !item.press ==> e == Release(Coord(0, item.key))
  {
    var c := Coord(0, item.key);
    if item.press then Press(c) else Release(c)
  }

  function Sound(item: Item, b: DelayBehaviour): (r: seq<Option<Event>>)
    requires item.KeyItem?
  {
    [Some(KeyEvent(item))] + Silence(Pace(item, b) - 1)
  }

  /// The events of a macro, each followed by silence.
  ghost function Timeline(items: seq<Item>, b: DelayBehaviour): (r: seq<Option<Event>>)
    requires Plain(items)
  {
    if items == [] then []
    else Sound(items[0], b) + Timeline(items[1..], b)
  }

  /// The tick in which item `i` is heard: five ticks after the one before it, or as many as were recorded
  /// and one at least.
  ghost function Onset(items: seq<Item>, b: DelayBehaviour, i: nat): (t: nat)
    requires Plain(items) && i <= |items|
  {
    if i == 0 then 0
    else Onset(items, b, i - 1) + if b.Constant? then 5 else if items[i - 1].delay == 0 then 1 else items[i - 1].delay
  }

  ghost predicate IsOnset(items: seq<Item>, b: DelayBehaviour, t: nat)
    requires Plain(items)
  {
    exists i :: 0 <= i < |items| && Onset(items, b, i) == t
  }

  ghost predicate HeardAtOnset(items: seq<Item>, b: DelayBehaviour, heard: seq<Option<Event>>)
    requires Plain(items)
  {
    forall i :: 0 <= i < |items| ==>
      && Onset(items, b, i) < |heard|
      && heard[Onset(items, b, i)] ==
         Some(if items[i].press then Press(Coord(0, items[i].key)) else Release(Coord(0, items[i].key)))
  }

  ghost predicate SilentBetween(items: seq<Item>, b: DelayBehaviour, heard: seq<Option<Event>>)
    requires Plain(items)
  {
    forall t :: 0 <= t < |heard| && heard[t].Some? ==> IsOnset(items, b, t)
  }

  /// Each item is heard as the press or release of its key, at its onset, and nothing in between.
  ghost predicate Sounds(items: seq<Item>, b: DelayBehaviour, heard: seq<Option<Event>>)
    requires Plain(items)
  {
    |heard| == Onset(items, b, |items|) && HeardAtOnset(items, b, heard) && SilentBetween(items, b, heard)
  }

  lemma {:induction false} OnsetCons(items: seq<Item>, b: DelayBehaviour, i: nat)
    requires Plain(items) && i < |items|
    ensures Onset(items, b, i + 1) == Pace(items[0], b) + Onset(items[1..], b, i)
    decreases i
  {
    if i > 0 {
      OnsetCons(items, b, i - 1);
    }
  }

  lemma {:induction false} TimelineSounds(items: seq<Item>, b: DelayBehaviour)
    requires Plain(items)
    ensures Sounds(items, b, Timeline(items, b))
    decreases |items|
  {
    if items != [] {
      TimelineSounds(items[1..], b);
      assert OneSound(items[0], b, Sound(items[0], b));
      SoundsCons(items, b, Sound(items[0], b), Timeline(items[1..], b));
    }
  }

  lemma OnsetsCons(items: seq<Item>, b: DelayBehaviour)
    requires Plain(items) && items != []
    ensures LaterOnsets(items, b)
  {
    forall i | 0 < i <= |items| ensures Onset(items, b, i) == Pace(items[0], b) + Onset(items[1..], b, i - 1) {
      OnsetCons(items, b, i - 1);
    }
  }

  ghost predicate LaterOnsets(items: seq<Item>, b: DelayBehaviour)
    requires Plain(items) && items != []
  {
    forall i :: 0 < i <= |items| ==> Onset(items, b, i) == Pace(items[0], b) + Onset(items[1..], b, i - 1)
  }

  ghost predicate OneSound(item: Item, b: DelayBehaviour, sound: seq<Option<Event>>)
    requires item.KeyItem?
  {
    |sound| == Pace(item, b) && sound[0] == Some(KeyEvent(item)) && forall t :: 0 < t < |sound| ==> sound[t].None?
  }

  lemma HeardCons(items: seq<Item>, b: DelayBehaviour, sound: seq<Option<Event>>, rest: seq<Option<Event>>)
    requires Plain(items) && items != []
    requires OneSound(items[0], b, sound) && HeardAtOnset(items[1..], b, rest)
    ensures HeardAtOnset(items, b, sound + rest)
  {
    var heard := sound + rest;
    OnsetsCons(items, b);
    forall i | 0 <= i < |items|
      ensures Onset(items, b, i) < |heard| && heard[Onset(items, b, i)] == Some(KeyEvent(items[i]))
    {
      assert i > 0 ==> items[1..][i - 1] == items[i];
    }
  }

  lemma LastOnset(items: seq<Item>, b: DelayBehaviour)
    requires Plain(items) && items != []
    ensures Onset(items, b, |items|) == Pace(items[0], b) + Onset(items[1..], b, |items[1..]|)
  {
    OnsetCons(items, b, |items| - 1);
  }

  lemma SoundsCons(items: seq<Item>, b: DelayBehaviour, sound: seq<Option<Event>>, rest: seq<Option<Event>>)
    requires Plain(items) && items != [] && Sounds(items[1..], b, rest)
    requires OneSound(items[0], b, sound)
    ensures Sounds(items, b, sound + rest)
  {
    LastOnset(items, b);
    HeardCons(items, b, sound, rest);
    SilentCons(items, b, sound, rest);
  }

  lemma SilentCons(items: seq<Item>, b: DelayBehaviour, sound: seq<Option<Event>>, rest: seq<Option<Event>>)
    requires Plain(items) && items != []
    requires OneSound(items[0], b, sound) && SilentBetween(items[1..], b, rest)
    ensures SilentBetween(items, b, sound + rest)
  {
    var heard := sound + rest;
    OnsetsCons(items, b);
    assert Onset(items, b, 0) == 0;
    forall t | 0 <= t < |heard| && heard[t].Some? ensures IsOnset(items, b, t) {
      if t >= |sound| {
        assert heard[t] == rest[t - |sound|];
        var i :| 0 <= i < |items[1..]| && Onset(items[1..], b, i) == t - |sound|;
        assert Onset(items, b, i + 1) == t;
      }
    }
  }

  // ---------------------------------------------------------------------------------------
  // The keys that a replay leaves pressed

  /// The keys down after what is heard.
  ghost function DownAfter(down: set<nat>, heard: seq<Option<Event>>): (r: set<nat>)
  {
    if heard == [] then down else
    var n := |heard| - 1;
    match heard[n]
    case None => DownAfter(down, heard[..n])
    case Some(Press(c)) => DownAfter(down, heard[..n]) + {c.col}
    case Some(Release(c)) => DownAfter(down, heard[..n]) - {c.col}
  }

  lemma {:induction false} DownInTurn(down: set<nat>, a: seq<Option<Event>>, b: seq<Option<Event>>)
    ensures DownAfter(down, a + b) == DownAfter(DownAfter(down, a), b)
    decreases |b|
  {
    if b == [] {
      assert a + b == a;
    } else {
      var n := |b| - 1;
      assert (a + b)[..|a| + n] == a + b[..n];
      DownInTurn(down, a, b[..n]);
    }
  }

  lemma {:induction false} SilenceChangesNothing(down: set<nat>, n: nat)
    ensures DownAfter(down, Silence(n)) == down
    decreases n
  {
    if n > 0 {
      assert Silence(n)[..n - 1] == Silence(n - 1);
      SilenceChangesNothing(down, n - 1);
    }
  }

  lemma Regroup(a: seq<Option<Event>>, b: seq<Option<Event>>, c: seq<Option<Event>>)
    ensures (a + b) + c == a + (b + c)
  {
  }

  lemma {:induction false} TimelineInTurn(items: seq<Item>, b: DelayBehaviour, n: nat)
    requires Plain(items) && n < |items|
    ensures Timeline(items[..n + 1], b) == Timeline(items[..n], b) + Sound(items[n], b)
    decreases n
  {
    var more := items[..n + 1];
    if n == 0 {
      assert more[1..] == [] && [] + Sound(items[0], b) == Sound(items[0], b) == Sound(items[0], b) + [];
    } else {
      TimelineInTurn(items[1..], b, n - 1);
      assert more[1..] == items[1..][..n] && items[..n][1..] == items[1..][..n - 1];
      Regroup(Sound(items[0], b), Timeline(items[1..][..n - 1], b), Sound(items[n], b));
    }
  }

  /// The keys down after a replay are those that its items leave pressed.
  lemma {:induction false} ReplayLeavesDown(items: seq<Item>, b: DelayBehaviour)
    requires Plain(items)
    ensures DownAfter({}, Timeline(items, b)) == PressedBy(items)
    decreases |items|
  {
    if items != [] {
      var n := |items| - 1;
      ReplayLeavesDown(items[..n], b);
      TimelineInTurn(items, b, n);
      assert items[..n + 1] == items;
      var before := Timeline(items[..n], b);
      DownInTurn({}, before, Sound(items[n], b));
      SoundMoves(DownAfter({}, before), items[n], b);
    }
  }

  lemma SoundMoves(down: set<nat>, item: Item, b: DelayBehaviour)
    requires item.KeyItem?
    ensures DownAfter(down, Sound(item, b)) == if item.press then down + {item.key} else down - {item.key}
  {
    var first := [Some(KeyEvent(item))];
    DownInTurn(down, first, Silence(Pace(item, b) - 1));
    assert first[..0] == [];
    SilenceChangesNothing(DownAfter(down, first), Pace(item, b) - 1);
  }

  /// What `n` ticks of a replay produce.
  ghost function Heard(s: Option<Replay>, b: DelayBehaviour, n: nat): (r: (Option<Replay>, seq<Option<Event>>))
    decreases n
  {
    if n == 0 then (s, []) else
    var (s1, event) := TickReplay(s, b);
    var (s2, rest) := Heard(s1, b, n - 1);
    (s2, [if event.None? then None else Some(event.value.event)] + rest)
  }

  lemma {:induction false} HeardInTurn(s: Option<Replay>, b: DelayBehaviour, m: nat, n: nat)
    ensures var (s1, first) := Heard(s, b, m);
            var (s2, rest) := Heard(s1, b, n);
            Heard(s, b, m + n).0 == s2 && Heard(s, b, m + n).1 == first + rest
    decreases m
  {
    if m > 0 {
      var (s1, event) := TickReplay(s, b);
      HeardInTurn(s1, b, m - 1, n);
      var (s2, middle) := Heard(s1, b, m - 1);
      Regroup([if event.None? then None else Some(event.value.event)], middle, Heard(s2, b, n).1);
    }
  }

  lemma {:induction false} WaitIsSilent(s: Replay, b: DelayBehaviour, n: nat)
    requires n == 0 || n < s.delayRemaining
    ensures var (r, heard) := Heard(Some(s), b, n);
            r == Some(s.(delayRemaining := s.delayRemaining - n)) && heard == Silence(n)
    decreases n
  {
    if n > 0 {
      var s1 := s.(delayRemaining := s.delayRemaining - 1);
      WaitIsSilent(s1, b, n - 1);
      assert TickReplay(Some(s), b) == (Some(s1), None);
      var first: seq<Option<Event>> := [None];
      assert Silence(n) == first + Silence(n - 1);
    }
  }

  lemma OneItem(s: Replay, b: DelayBehaviour)
    requires Due(s) && Plain(s.items) && s.items != []
    ensures var (r, heard) := Heard(Some(s), b, Pace(s.items[0], b));
            && heard == Sound(s.items[0], b)
            && r.Some? && Due(r.value) && r.value.items == s.items[1..]
  {
    var next := TickReplay(Some(s), b).0.value;
    WaitIsSilent(next, b, Pace(s.items[0], b) - 1);
  }

  /// A replay that nothing interrupts plays its items: each is heard at its onset as the press or release
  /// of its key, nothing else is, and then it is over.
  lemma ReplayFollowsItems(s: Replay, b: DelayBehaviour)
    requires Due(s) && Plain(s.items)
    ensures var (r, heard) := Heard(Some(s), b, Onset(s.items, b, |s.items|));
            Sounds(s.items, b, heard) && DownAfter({}, heard) == PressedBy(s.items) && TickReplay(r, b) == (None, None)
  {
    TimelineSounds(s.items, b);
    ReplayFollowsTimeline(s, b);
    ReplayLeavesDown(s.items, b);
  }

  lemma {:induction false} ReplayFollowsTimeline(s: Replay, b: DelayBehaviour)
    requires Due(s) && Plain(s.items)
    ensures var line := Timeline(s.items, b);
            var (r, heard) := Heard(Some(s), b, |line|);
            heard == line && TickReplay(r, b) == (None, None)
    decreases |s.items|
  {
    if s.items != [] {
      OneItem(s, b);
      var pace := Pace(s.items[0], b);
      var r := Heard(Some(s), b, pace).0;
      ReplayFollowsTimeline(r.value, b);
      HeardInTurn(Some(s), b, pace, |Timeline(s.items[1..], b)|);
    }
  }

  /// Stopping a recording drops its last event, the press of the key that stops it, and `remove` more.
  lemma StoppingDropsLast(id: u16, seen: seq<Seen>, remove: u16)
    requires !Panics(Follow(NewRecord(id), seen))
    ensures var typed := |Itemised(seen)| - 1 - remove;
            Truncated(Follow(NewRecord(id), seen), remove) == Itemised(seen)[..if typed < 0 then 0 else typed]
  {
    RecordsWhatHappened(id, seen);
  }

  /// Recording and replaying: what was typed is typed again in the same order, followed by a
  /// release for each key left pressed, after which no key is.
  lemma RecordThenReplay(id: u16, seen: seq<Seen>, remove: u16, saved: seq<Item>, macros: Macros)
    requires var r := Follow(NewRecord(id), seen);
             !Panics(r) && Closes(Truncated(r, remove), saved)
    requires id in macros && macros[id] == saved
    ensures Plain(saved) && PressedBy(saved) == {}
    ensures var typed := |Itemised(seen)| - 1 - remove;
            Closes(Itemised(seen)[..if typed < 0 then 0 else typed], saved)
    ensures var (r, heard) := Heard(Play(None, id, macros), Recorded, Onset(saved, Recorded, |saved|));
            Sounds(saved, Recorded, heard) && DownAfter({}, heard) == {} && TickReplay(r, Recorded) == (None, None)
  {
    StoppingDropsLast(id, seen, remove);
    EveryExitCloses(id, seen, remove, saved);
    ReplayFollowsItems(Replay({id}, 0, saved), Recorded);
  }

  /// The key events seen.
  ghost function Happenings(seen: seq<Seen>): set<nat>
  {
    set i: nat | i < |seen| && seen[i].Happen?
  }

  lemma {:induction false} ItemForEach(seen: seq<Seen>)
    ensures |Itemised(seen)| == |Happenings(seen)|
    decreases |seen|
  {
    if seen == [] {
      assert Happenings(seen) == {};
    } else {
      var n := |seen| - 1;
      assert seen == seen[..n] + [seen[n]];
      ItemForEach(seen[..n]);
      assert Happenings(seen) == Happenings(seen[..n]) + (if seen[n].Happen? then {n} else {});
      match seen[n] {
        case Pass => PassLengthensLast(seen[..n]);
        case Happen(w) => HappenAddsOne(seen[..n], w);
      }
    }
  }

  /// A press saves the recording when two events for each of `max` keys and one more have been seen.
  lemma LimitReachedIff(id: u16, seen: seq<Seen>, max: u16)
    ensures LimitReached(Follow(NewRecord(id), seen), max) <==> |Happenings(seen)| > 2 * max + 1
  {
    RecordsWhatHappened(id, seen);
    ItemForEach(seen);
  }

  /// The ticks between events as they were typed.
  ghost function Gaps(seen: seq<Seen>): (r: seq<nat>)
    ensures |r| == |Itemised(seen)|
  {
    if seen == [] then []
    else if seen[0].Pass? then Gaps(seen[1..])
    else [Gap(seen[1..])] + Gaps(seen[1..])
  }

  /// A gap is replayed to the tick exactly when it is neither zero nor too long to be counted.
  lemma {:induction false} GapReplayedExactlyIff(seen: seq<Seen>, i: nat)
    requires i < |Itemised(seen)|
    ensures Itemised(seen)[i].KeyItem?
    ensures Pace(Itemised(seen)[i], Recorded) == Gaps(seen)[i] <==> 1 <= Gaps(seen)[i] <= U16_MAX
    decreases |seen|
  {
    ItemisedIsPlain(seen);
    if seen[0].Pass? {
      GapReplayedExactlyIff(seen[1..], i);
    } else if i > 0 {
      GapReplayedExactlyIff(seen[1..], i - 1);
    }
  }
}
