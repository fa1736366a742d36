/// The keys that the operating system is told of: the difference between the keys active now and
/// those active before is sent as releases and presses (src/kanata/mod.rs).

module OsKeys {
  import opened Picking

  datatype KeyEvent = PressKey(key: nat) | ReleaseKey(key: nat)

  function Set(ks: seq<nat>): (r: set<nat>)
  {
    set k | k in ks
  }

  // ---------------------------------------------------------------------------------------
  // What is sent

  function Reversed(ks: seq<nat>): (r: seq<nat>)
  {
    if ks == [] then [] else [ks[|ks| - 1]] + Reversed(ks[..|ks| - 1])
  }

  /// A release for every entry of `prev`, repeated ones too, that is not active any more.
  ghost function Releases(prev: seq<nat>, cur: seq<nat>): (out: seq<KeyEvent>)
  {
    if prev == [] then [] else
    var n := |prev| - 1;
    if prev[n] in cur then Releases(prev[..n], cur) else Releases(prev[..n], cur) + [ReleaseKey(prev[n])]
  }

  /// A press for each key that is newly active, once however often it is listed.
  ghost function Presses(prev: seq<nat>, cur: seq<nat>): (out: seq<KeyEvent>)
  {
    if cur == [] then [] else
    var n := |cur| - 1;
    if cur[n] in prev || cur[n] in cur[..n] then Presses(prev, cur[..n]) else Presses(prev, cur[..n]) + [PressKey(cur[n])]
  }

  ghost function Sent(prev: seq<nat>, cur: seq<nat>, reverse: bool): (out: seq<KeyEvent>)
  {
    Releases(if reverse then Reversed(prev) else prev, cur) + Presses(prev, cur)
  }

  class Keyboard {
    var prevKeys: seq<nat>
    var curKeys: seq<nat>
    var out: seq<KeyEvent>

    constructor ()
      ensures prevKeys == [] && curKeys == [] && out == []
    {
      prevKeys, curKeys, out := [], [], [];
    }

    /// `active` lists the keys of the layout, in which keys may occur more than once.
    method HandleKeystateChanges(active: seq<nat>, reverse: bool)
      requires curKeys == []
      modifies this
      ensures curKeys == active
      ensures out == old(out) + Sent(old(prevKeys), active, reverse)
    {
      curKeys := curKeys + active;
      var releases := SendReleases(if reverse then Reversed(prevKeys) else prevKeys, curKeys);
      var presses;
      presses, prevKeys := SendPresses(prevKeys, curKeys);
      out := out + releases + presses;
    }

    /// One tick: what is active now is what was active before the next.
    method TickStates(active: seq<nat>, reverse: bool)
      requires curKeys == []
      modifies this
      ensures prevKeys == active && curKeys == []
      ensures out == old(out) + Sent(old(prevKeys), active, reverse)
    {
      HandleKeystateChanges(active, reverse);
      prevKeys := [];
      prevKeys, curKeys := prevKeys + curKeys, [];
    }
  }

  method SendReleases(prev: seq<nat>, cur: seq<nat>) returns (out: seq<KeyEvent>)
    ensures out == Releases(prev, cur)
  {
    out := [];
    for i := 0 to |prev|
      invariant out == Releases(prev[..i], cur)
    {
      assert prev[..i + 1][..i] == prev[..i];
      if prev[i] !in cur {
        out := out + [ReleaseKey(prev[i])];
      }
    }
    assert prev[..|prev|] == prev;
  }

  /// Notes each key sent among the previous ones, so that it is not sent again.
  method SendPresses(prev: seq<nat>, cur: seq<nat>) returns (out: seq<KeyEvent>, noted: seq<nat>)
    ensures out == Presses(prev, cur)
  {
    out, noted := [], prev;
    for i := 0 to |cur|
      invariant out == Presses(prev, cur[..i])
      invariant forall k :: k in noted <==> k in prev || k in cur[..i]
    {
      assert cur[..i + 1][..i] == cur[..i] && cur[..i + 1] == cur[..i] + [cur[i]];
      if cur[i] !in noted {
        noted := noted + [cur[i]];
        out := out + [PressKey(cur[i])];
      }
    }
    assert cur[..|cur|] == cur;
  }

  // ---------------------------------------------------------------------------------------
  // What the operating system holds

  /// The keys down after events.
  ghost function DownAfter(down: set<nat>, out: seq<KeyEvent>): (r: set<nat>)
  {
    if out == [] then down else
    var n := |out| - 1;
    match out[n]
    case PressKey(k) => DownAfter(down, out[..n]) + {k}
    case ReleaseKey(k) => DownAfter(down, out[..n]) - {k}
  }

  /// Every press is of a key that is up.
  ghost predicate PressesUpKeys(down: set<nat>, out: seq<KeyEvent>)
  {
    out == [] ||
    var n := |out| - 1;
    PressesUpKeys(down, out[..n]) && (out[n].PressKey? ==> out[n].key !in DownAfter(down, out[..n]))
  }

  lemma {:induction false} DownInTurn(down: set<nat>, a: seq<KeyEvent>, b: seq<KeyEvent>)
    ensures DownAfter(down, a + b) == DownAfter(DownAfter(down, a), b)
    ensures PressesUpKeys(down, a + b) <==> PressesUpKeys(down, a) && PressesUpKeys(DownAfter(down, a), b)
    decreases |b|
  {
    if b == [] {
      assert a + b == a;
    } else {
      var n := |b| - 1;
      assert (a + b)[..|a + b| - 1] == a + b[..n];
      DownInTurn(down, a, b[..n]);
    }
  }

  lemma {:induction false} ReversedSame(ks: seq<nat>)
    ensures forall k :: k in Reversed(ks) <==> k in ks
    decreases |ks|
  {
    if ks != [] {
      var n := |ks| - 1;
      assert ks == ks[..n] + [ks[n]];
      ReversedSame(ks[..n]);
    }
  }

  lemma {:induction false} ReleasesLetGo(down: set<nat>, prev: seq<nat>, cur: seq<nat>)
    ensures PressesUpKeys(down, Releases(prev, cur))
    ensures DownAfter(down, Releases(prev, cur)) == down - (Set(prev) - Set(cur))
    decreases |prev|
  {
    if prev != [] {
      var n := |prev| - 1;
      var out := Releases(prev[..n], cur);
      assert prev == prev[..n] + [prev[n]];
      ReleasesLetGo(down, prev[..n], cur);
      assert (out + [ReleaseKey(prev[n])])[..|out|] == out;
      assert Set(prev) == Set(prev[..n]) + {prev[n]};
    }
  }

  lemma {:induction false} PressesHold(down: set<nat>, prev: seq<nat>, cur: seq<nat>)
    requires down <= Set(prev)
    ensures PressesUpKeys(down, Presses(prev, cur))
    ensures DownAfter(down, Presses(prev, cur)) == down + (Set(cur) - Set(prev))
    decreases |cur|
  {
    if cur != [] {
      var n := |cur| - 1;
      var out := Presses(prev, cur[..n]);
      assert cur == cur[..n] + [cur[n]];
      PressesHold(down, prev, cur[..n]);
      assert (out + [PressKey(cur[n])])[..|out|] == out;
      assert Set(cur) == Set(cur[..n]) + {cur[n]};
    }
  }

  /// One tick brings the operating system from the keys active before to those active now.
  lemma TickTracks(prev: seq<nat>, cur: seq<nat>, reverse: bool)
    ensures var out := Sent(prev, cur, reverse);
            PressesUpKeys(Set(prev), out) && DownAfter(Set(prev), out) == Set(cur)
  {
    var order := if reverse then Reversed(prev) else prev;
    ReversedSame(prev);
    assert Set(order) == Set(prev);
    var (rs, ps) := (Releases(order, cur), Presses(prev, cur));
    ReleasesLetGo(Set(prev), order, cur);
    var left := DownAfter(Set(prev), rs);
    PressesHold(left, prev, cur);
    DownInTurn(Set(prev), rs, ps);
    assert left + (Set(cur) - Set(prev)) == Set(cur);
  }

  // ---------------------------------------------------------------------------------------
  // Runs

  datatype Tick = Tick(active: seq<nat>, reverse: bool)

  function ActiveAfter(ticks: seq<Tick>): (r: seq<nat>)
  {
    if ticks == [] then [] else ticks[|ticks| - 1].active
  }

  /// Everything sent in a run from rest.
  ghost function SentIn(ticks: seq<Tick>): (out: seq<KeyEvent>)
  {
    if ticks == [] then [] else
    var n := |ticks| - 1;
    SentIn(ticks[..n]) + Sent(ActiveAfter(ticks[..n]), ticks[n].active, ticks[n].reverse)
  }

  /// After every run the operating system holds exactly the active keys, and no press was sent for
  /// a key that was already down.
  lemma {:induction false} OsTracksActiveKeys(ticks: seq<Tick>)
    ensures DownAfter({}, SentIn(ticks)) == Set(ActiveAfter(ticks)) && PressesUpKeys({}, SentIn(ticks))
    decreases |ticks|
  {
    if ticks != [] {
      var n := |ticks| - 1;
      OsTracksActiveKeys(ticks[..n]);
      var prev := ActiveAfter(ticks[..n]);
      TickTracks(prev, ticks[n].active, ticks[n].reverse);
      DownInTurn({}, SentIn(ticks[..n]), Sent(prev, ticks[n].active, ticks[n].reverse));
    }
  }

  // ---------------------------------------------------------------------------------------
  // Repeated releases

  ghost function Times(ks: seq<nat>, k: nat): (n: nat)
  {
    if ks == [] then 0 else Times(ks[..|ks| - 1], k) + if ks[|ks| - 1] == k then 1 else 0
  }

  ghost function TimesSent(out: seq<KeyEvent>, e: KeyEvent): (n: nat)
  {
    if out == [] then 0 else TimesSent(out[..|out| - 1], e) + if out[|out| - 1] == e then 1 else 0
  }

  lemma TimesSentSnoc(out: seq<KeyEvent>, x: KeyEvent, e: KeyEvent)
    ensures TimesSent(out + [x], e) == TimesSent(out, e) + if x == e then 1 else 0
  {
    assert (out + [x])[..|out|] == out;
  }

  lemma {:induction false} TimesSentInTurn(a: seq<KeyEvent>, b: seq<KeyEvent>, e: KeyEvent)
    ensures TimesSent(a + b, e) == TimesSent(a, e) + TimesSent(b, e)
    decreases |b|
  {
    if b == [] {
      assert a + b == a;
    } else {
      var n := |b| - 1;
      assert (a + b)[..|a + b| - 1] == a + b[..n];
      TimesSentInTurn(a, b[..n], e);
    }
  }

  lemma {:induction false} TimesReversed(ks: seq<nat>, k: nat)
    ensures Times(Reversed(ks), k) == Times(ks, k)
    decreases |ks|
  {
    if ks != [] {
      var n := |ks| - 1;
      TimesReversed(ks[..n], k);
      TimesInFront(Reversed(ks[..n]), ks[n], k);
    }
  }

  lemma {:induction false} TimesInFront(ks: seq<nat>, x: nat, k: nat)
    ensures Times([x] + ks, k) == Times(ks, k) + if x == k then 1 else 0
    decreases |ks|
  {
    var all := [x] + ks;
    if ks == [] {
      assert all[..0] == [];
    } else {
      var n := |ks| - 1;
      TimesInFront(ks[..n], x, k);
      assert all[..n + 1] == [x] + ks[..n];
    }
  }

  lemma {:induction false} ReleasesSent(prev: seq<nat>, cur: seq<nat>, k: nat)
    ensures TimesSent(Releases(prev, cur), ReleaseKey(k)) == if k in cur then 0 else Times(prev, k)
    ensures TimesSent(Releases(prev, cur), PressKey(k)) == 0
    decreases |prev|
  {
    if prev != [] {
      var n := |prev| - 1;
      ReleasesSent(prev[..n], cur, k);
      TimesSentSnoc(Releases(prev[..n], cur), ReleaseKey(prev[n]), ReleaseKey(k));
      TimesSentSnoc(Releases(prev[..n], cur), ReleaseKey(prev[n]), PressKey(k));
    }
  }

  lemma {:induction false} PressesSent(prev: seq<nat>, cur: seq<nat>, k: nat)
    ensures TimesSent(Presses(prev, cur), PressKey(k)) == if k in cur && k !in prev then 1 else 0
    ensures TimesSent(Presses(prev, cur), ReleaseKey(k)) == 0
    decreases |cur|
  {
    if cur != [] {
      var n := |cur| - 1;
      assert cur == cur[..n] + [cur[n]];
      PressesSent(prev, cur[..n], k);
      TimesSentSnoc(Presses(prev, cur[..n]), PressKey(cur[n]), PressKey(k));
      TimesSentSnoc(Presses(prev, cur[..n]), PressKey(cur[n]), ReleaseKey(k));
    }
  }

  /// A tick presses a key once if it is new, and releases one that is gone as often as it was
  /// listed: a release is repeated exactly when the key was listed twice.
  lemma TimesInTick(prev: seq<nat>, cur: seq<nat>, reverse: bool, k: nat)
    ensures var out := Sent(prev, cur, reverse);
            && TimesSent(out, PressKey(k)) == (if k in cur && k !in prev then 1 else 0)
            && TimesSent(out, ReleaseKey(k)) == (if k in cur then 0 else Times(prev, k))
            && (TimesSent(out, ReleaseKey(k)) > 1 <==> k !in cur && Times(prev, k) > 1)
  {
    var order := if reverse then Reversed(prev) else prev;
    TimesReversed(prev, k);
    ReleasesSent(order, cur, k);
    PressesSent(prev, cur, k);
    TimesSentInTurn(Releases(order, cur), Presses(prev, cur), PressKey(k));
    TimesSentInTurn(Releases(order, cur), Presses(prev, cur), ReleaseKey(k));
  }

  // ---------------------------------------------------------------------------------------
  // The order of the events

  lemma {:induction false} ReversedAt(ks: seq<nat>)
    ensures |Reversed(ks)| == |ks|
    ensures forall i :: 0 <= i < |ks| ==> Reversed(ks)[i] == ks[|ks| - 1 - i]
    decreases |ks|
  {
    if ks != [] {
      ReversedAt(ks[..|ks| - 1]);
    }
  }

  ghost function Gone(prev: seq<nat>, cur: seq<nat>, n: nat): set<nat>
  {
    set j: nat | j < n && j < |prev| && prev[j] !in cur
  }

  ghost function New(prev: seq<nat>, cur: seq<nat>, n: nat): set<nat>
  {
    set j: nat | j < n && j < |cur| && cur[j] !in prev && FirstAt(cur, j)
  }

  ghost predicate FirstAt(cur: seq<nat>, j: nat)
  {
    j < |cur| && forall i :: 0 <= i < j ==> cur[i] != cur[j]
  }

  ghost predicate AllReleases(ks: seq<nat>, out: seq<KeyEvent>)
  {
    |out| == |ks| && forall i :: 0 <= i < |ks| ==> out[i] == ReleaseKey(ks[i])
  }

  ghost predicate AllPresses(ks: seq<nat>, out: seq<KeyEvent>)
  {
    |out| == |ks| && forall i :: 0 <= i < |ks| ==> out[i] == PressKey(ks[i])
  }

  lemma GoneNext(prev: seq<nat>, cur: seq<nat>, m: nat)
    requires m < |prev|
    ensures Gone(prev, cur, m + 1) == Gone(prev, cur, m) + if prev[m] in cur then {} else {m}
  {
  }

  lemma NewNext(prev: seq<nat>, cur: seq<nat>, m: nat)
    requires m < |cur|
    ensures New(prev, cur, m + 1) == New(prev, cur, m) + if cur[m] in prev || cur[m] in cur[..m] then {} else {m}
  {
  }

  lemma {:induction false} ReleasesSoFar(prev: seq<nat>, cur: seq<nat>, n: nat) returns (ks: seq<nat>)
    requires n <= |prev|
    ensures Picks(prev, Gone(prev, cur, n), ks) && AllReleases(ks, Releases(prev[..n], cur))
    decreases n
  {
    ks := [];
    if n == 0 {
      PicksNone(prev);
      assert Gone(prev, cur, 0) == {};
    } else {
      var m := n - 1;
      ks := ReleasesSoFar(prev, cur, m);
      assert prev[..n][..m] == prev[..m] && prev[..n][m] == prev[m];
      GoneNext(prev, cur, m);
      PicksNext(prev, m, Gone(prev, cur, m), ks, prev[m] !in cur);
      if prev[m] !in cur {
        ks := ks + [prev[m]];
      }
    }
  }

  lemma {:induction false} PressesSoFar(prev: seq<nat>, cur: seq<nat>, n: nat) returns (ks: seq<nat>)
    requires n <= |cur|
    ensures Picks(cur, New(prev, cur, n), ks) && AllPresses(ks, Presses(prev, cur[..n]))
    decreases n
  {
    ks := [];
    if n == 0 {
      PicksNone(cur);
      assert New(prev, cur, 0) == {};
    } else {
      var m := n - 1;
      ks := PressesSoFar(prev, cur, m);
      assert cur[..n][..m] == cur[..m] && cur[..n][m] == cur[m];
      NewNext(prev, cur, m);
      var isNew := !(cur[m] in prev || cur[m] in cur[..m]);
      PicksNext(cur, m, New(prev, cur, m), ks, isNew);
      if isNew {
        ks := ks + [cur[m]];
      }
    }
  }

  /// First the keys that are gone are released, in the order in which they were listed or in the reverse order,
  /// then the new keys are pressed in the order in which they are listed first.
  lemma SentInOrder(prev: seq<nat>, cur: seq<nat>, reverse: bool)
    returns (listed: seq<nat>, gone: seq<nat>, added: seq<nat>, released: seq<KeyEvent>, pressed: seq<KeyEvent>)
    ensures Sent(prev, cur, reverse) == released + pressed
    ensures |listed| == |prev| && forall i :: 0 <= i < |prev| ==> listed[i] == prev[if reverse then |prev| - 1 - i else i]
    ensures Picks(listed, Gone(listed, cur, |listed|), gone) && AllReleases(gone, released)
    ensures Picks(cur, New(prev, cur, |cur|), added) && AllPresses(added, pressed)
  {
    listed := if reverse then Reversed(prev) else prev;
    ReversedAt(prev);
    gone := ReleasesSoFar(listed, cur, |listed|);
    added := PressesSoFar(prev, cur, |cur|);
    released, pressed := Releases(listed, cur), Presses(prev, cur);
    assert listed[..|listed|] == listed && cur[..|cur|] == cur;
  }
}
