/// `SequenceState` of src/kanata/sequences.rs with what it writes to and changes in the layout,
/// updated in place, and what its search achieves.

module Sequences {
  import opened Types
  import opened SequenceModel

  // ---------------------------------------------------------------------------------------
  // Backtracking

  lemma CleanFrom(s: Keys, i: nat, modcancel: bool)
    requires i < |s|
    ensures CleanedFrom(s, i, modcancel)
         == s[..i] + if s[i] == KEY_OVERLAP_MARKER then Clean(s[i + 1..], modcancel)
                     else [CleanKey(s[i], modcancel)] + Clean(s[i + 1..], modcancel)
  {
    assert s[i..][0] == s[i] && s[i..][1..] == s[i + 1..];
  }

  /// Cleans the key at `i`, those behind it being clean.
  method CleanAt(s: Keys, i: nat, modcancel: bool, ghost keys: Keys) returns (r: Keys)
    requires i < |keys| && s == CleanedFrom(keys, i + 1, modcancel)
    ensures r == CleanedFrom(keys, i, modcancel)
  {
    CleanFrom(keys, i, modcancel);
    ghost var behind := Clean(keys[i + 1..], modcancel);
    assert s == keys[..i] + [keys[i]] + behind;
    assert s[..i] == keys[..i] && s[i] == keys[i] && s[i + 1..] == behind;
    if s[i] == KEY_OVERLAP_MARKER {
      r := s[..i] + s[i + 1..];
    } else {
      r := s[i := CleanKey(s[i], modcancel)];
      assert r == s[..i] + [CleanKey(s[i], modcancel)] + s[i + 1..];
    }
  }

  /// Cleans keys from the end until the sequence is known: it keeps as many keys in front as
  /// possible.
  method Backtrack(trie: Trie, keys: Keys, modcancel: bool) returns (s: Keys, found: Lookup, failed: bool)
    requires !Known(trie, keys)
    ensures Tracked(s, failed) == Standard(trie, keys, modcancel)
    ensures found == Find(trie, s) && failed == found.NotInTrie?
  {
    s, found, failed := keys, NotInTrie, true;
    var i: nat := |keys|;
    assert CleanedFrom(keys, |keys|, modcancel) == keys;
    while i > 0
      invariant i <= |keys| && s == CleanedFrom(keys, i, modcancel) && found == NotInTrie == Find(trie, s)
      invariant LargestCut(trie, keys, |keys|, modcancel) == LargestCut(trie, keys, i, modcancel)
    {
      i := i - 1;
      s := CleanAt(s, i, modcancel, keys);
      found := Find(trie, s);
      if !found.NotInTrie? {
        failed := false;
        return;
      }
    }
    assert keys[0..] == keys && keys[..0] == [];
  }

  method TrackOverlap(trie: Trie, keys: Keys, k: Key) returns (s: Keys, found: Lookup, failed: bool)
    ensures Tracked(s, failed) == Overlap(trie, keys, k) && found == Find(trie, s)
  {
    s := keys + [Overlapping(k)];
    found := Find(trie, s);
    failed := false;
    if found.NotInTrie? {
      var last := |s| - 1;
      s := s[last := KEY_OVERLAP_MARKER] + [Overlapping(k)];
      assert s == keys + [KEY_OVERLAP_MARKER] + [Overlapping(k)];
      found := Find(trie, s);
      last := last + 1;
      if found.NotInTrie? {
        s := s[last := k];
        assert s == keys + [KEY_OVERLAP_MARKER] + [k];
        found := Find(trie, s);
        if found.NotInTrie? {
          if Bare(k) == k {
            failed := true;
          } else {
            s := s[last := Bare(k)];
            assert s == keys + [KEY_OVERLAP_MARKER] + [Bare(k)];
            found := Find(trie, s);
            failed := found.NotInTrie?;
          }
        }
      }
    }
  }

  method DropFront(trie: Trie, keys: Keys) returns (s: Keys, found: Lookup)
    requires !Known(trie, keys)
    ensures s == keys[DropUntilKnown(trie, keys)..] && found == Find(trie, s)
  {
    s, found := keys, NotInTrie;
    ghost var k := 0;
    while found.NotInTrie? && s != []
      invariant k <= |keys| && s == keys[k..] && found == Find(trie, s)
      invariant DropUntilKnown(trie, keys) == k + DropUntilKnown(trie, s)
      decreases |s|
    {
      s := s[1..];
      found := Find(trie, s);
      k := k + 1;
    }
  }

  /// Follows a key on both trackers; what it returns as looked up is what the trackers hold.
  method TrackBoth(trie: Trie, sequence: Keys, overlapped: Keys, k: Key, modcancel: bool)
    returns (s: Keys, o: Keys, res: Lookup, resOverlapped: Lookup, cancelled: bool)
    ensures Trackers(s, o, cancelled) == Track(trie, Trackers(sequence, overlapped, false), k, modcancel)
    ensures res == Find(trie, s) && resOverlapped == Find(trie, o)
  {
    s := sequence + [k];
    res := Find(trie, s);
    var failed, failedOverlapped := false, false;
    if res.NotInTrie? {
      s, res, failed := Backtrack(trie, s, modcancel);
    }
    o, resOverlapped, failedOverlapped := TrackOverlap(trie, overlapped, k);
    cancelled := false;
    if !failed && failedOverlapped {
      o := s;
      resOverlapped := Find(trie, o);
    } else if failed && !failedOverlapped {
      s := o;
      if s != [] && s[|s| - 1] != KEY_OVERLAP_MARKER && s[|s| - 1] >= KEY_OVERLAP_MARKER {
        s := s + [KEY_OVERLAP_MARKER];
      }
      res := Find(trie, s);
    } else if failed && failedOverlapped {
      s, res := DropFront(trie, s);
      cancelled := res.NotInTrie? || s == [];
    }
  }

  // ---------------------------------------------------------------------------------------
  // The state

  class SequenceState {
    const trie: Trie
    const modcancel: bool
    var raw: seq<KeyCode>
    var sequence: Keys
    var overlapped: Keys
    var mode: InputMode
    var ticksUntilTimeout: u16
    var timeout: u16
    var active: bool
    var noerase: u16
    var out: seq<Out>
    var held: seq<Held>
    var queue: seq<Event>
    var spilled: seq<Event>

    ghost function Val(): SeqValue
      reads this
    {
      SeqValue(raw, sequence, overlapped, mode, ticksUntilTimeout, timeout, active, noerase, out, held, queue, spilled)
    }

    constructor (trie: Trie, modcancel: bool)
      ensures this.trie == trie && this.modcancel == modcancel
      ensures Val() == SeqValue([], [], [], HiddenSuppressed, 0, 0, false, 0, [], [], [], [])
    {
      this.trie, this.modcancel := trie, modcancel;
      raw, sequence, overlapped, mode := [], [], [], HiddenSuppressed;
      ticksUntilTimeout, timeout, active, noerase := 0, 0, false, 0;
      out, held, queue, spilled := [], [], [], [];
    }

    method Activate(m: InputMode, t: u16)
      modifies this
      ensures Val() == Activated(old(Val()), m, t)
    {
      mode, timeout, ticksUntilTimeout := m, t, t;
      raw, sequence, overlapped := [], [], [];
      active, noerase := true, 0;
    }

    method CancelSequence()
      modifies this
      ensures Val() == Cancelled(old(Val()))
    {
      active := false;
      if mode.HiddenDelayType? {
        var taps := TapAll(raw);
        out := out + taps;
      }
    }

    /// `mods` is the mask of the modifiers among the keys held.
    method DoSequencePressLogic(k: KeyCode, mods: ModBits)
      modifies this
      ensures Val() == PressLogic(trie, old(Val()), k, mods, modcancel)
    {
      NoteKey(k);
      var res, resOverlapped := FollowKey(Pushed(k, mods));
      CheckCompletion(res, resOverlapped);
    }

    /// A key is newly active among those that are.
    method TypeKey(k: KeyCode, cur: seq<KeyCode>, alwaysOn: Option<(InputMode, u16)>)
      modifies this
      ensures Val() == KeyTyped(trie, old(Val()), k, cur, modcancel, alwaysOn)
    {
      if alwaysOn.Some? && !active {
        Activate(alwaysOn.value.0, alwaysOn.value.1);
      }
      if active {
        DoSequencePressLogic(k, ModMask(cur));
      } else {
        out := out + [PressKey(k)];
      }
    }

    method NoteKey(k: KeyCode)
      modifies this`ticksUntilTimeout, this`raw, this`out
      ensures Val() == Noted(old(Val()), k)
    {
      ticksUntilTimeout, raw := timeout, raw + [k];
      if mode.VisibleBackspaced? {
        out := out + [PressKey(k)];
      }
    }

    method FollowKey(pushed: Key) returns (res: Lookup, resOverlapped: Lookup)
      modifies this
      ensures Val() == Settled(old(Val()), Track(trie, Trackers(old(sequence), old(overlapped), false), pushed, modcancel))
      ensures res == Find(trie, sequence) && resOverlapped == Find(trie, overlapped)
    {
      var s, o, cancelled;
      s, o, res, resOverlapped, cancelled := TrackBoth(trie, sequence, overlapped, pushed, modcancel);
      sequence, overlapped := s, o;
      if cancelled {
        CancelSequence();
      }
    }

    /// What the press logic looked up is what the trackers hold.
    method CheckCompletion(res: Lookup, resOverlapped: Lookup)
      requires res == Find(trie, sequence) && resOverlapped == Find(trie, overlapped)
      modifies this
      ensures Val() == Complete(trie, old(Val()))
    {
      if resOverlapped.HasValue? {
        Terminate(overlapped, resOverlapped.value);
      } else if res.HasValue? {
        overlapped := overlapped + [KEY_OVERLAP_MARKER];
        var ended := Find(trie, overlapped);
        if ended.HasValue? {
          Terminate(overlapped, ended.value);
        } else {
          Terminate(sequence, res.value);
        }
      }
    }

    /// `do_successful_sequence_termination`.
    method Terminate(s: Keys, value: Value)
      modifies this
      ensures Val() == Finished(old(Val()), s, value)
    {
      active := false;
      if mode.VisibleBackspaced? {
        EraseTyped(s);
      }
      held := RetainHeld(held, s);
      TapInFront(Coord(value.row, value.col));
    }

    method EraseTyped(s: Keys)
      modifies this
      ensures Val() == Erased(old(Val()), s)
    {
      var released, backspaces;
      held, released := ReleaseMods(held);
      backspaces, noerase := Backspaces(s, noerase);
      out := out + released + backspaces;
    }

    /// What falls out of a full queue is handled by the layout at once.
    method EventToFront(e: Event)
      modifies this`queue, this`spilled
      ensures queue == PushFront(old(queue), e) && spilled == old(spilled) + FallsOut(old(queue))
    {
      if |queue| < QUEUE_SIZE {
        queue := [e] + queue;
      } else {
        spilled := spilled + [queue[|queue| - 1]];
        queue := [e] + queue[..|queue| - 1];
      }
    }

    method TapInFront(c: Coord)
      modifies this`queue, this`spilled
      ensures Val() == TappedInFront(old(Val()), c)
    {
      EventToFront(Release(c));
      EventToFront(Press(c));
    }

    method HandleAllReleased()
      modifies this
      ensures Val() == AllReleased(trie, old(Val()))
    {
      if active {
        overlapped := overlapped + [KEY_OVERLAP_MARKER];
        match Find(trie, overlapped) {
          case HasValue(value) => Terminate(overlapped, value);
          case NotInTrie => overlapped := sequence;
          case InTrie =>
        }
      }
    }

    method TickSequenceState()
      modifies this
      ensures Val() == Timed(old(Val()))
    {
      if active {
        ticksUntilTimeout := if ticksUntilTimeout == 0 then U16_MAX else ticksUntilTimeout - 1;
        if ticksUntilTimeout == 0 {
          CancelSequence();
        }
      }
    }
  }

  // ---------------------------------------------------------------------------------------
  // Output

  method TapAll(keys: seq<KeyCode>) returns (out: seq<Out>)
    ensures out == Taps(keys)
  {
    out := [];
    for i := 0 to |keys|
      invariant out == Taps(keys[..i])
    {
      assert keys[..i + 1][..i] == keys[..i];
      out := out + [PressKey(keys[i]), ReleaseKey(keys[i])];
    }
    assert keys[..|keys|] == keys;
  }

  method ReleaseMods(held: seq<Held>) returns (kept: seq<Held>, out: seq<Out>)
    ensures (kept, out) == WithoutMods(held)
  {
    kept, out := [], [];
    for i := 0 to |held|
      invariant (kept, out) == WithoutMods(held[..i])
    {
      assert held[..i + 1][..i] == held[..i];
      if held[i].NormalKey? && Disturbs(held[i].key) {
        out := out + [ReleaseKey(held[i].key)];
      } else {
        kept := kept + [held[i]];
      }
    }
    assert held[..|held|] == held;
  }

  method Backspaces(s: Keys, noerase: u16) returns (out: seq<Out>, left: u16)
    ensures var n := ErasableIn(s);
            && out == Taps(Repeat(BACKSPACE, if n < noerase then 0 else n - noerase))
            && left == if n < noerase then noerase - n else 0
  {
    out, left := [], noerase;
    for i := 0 to |s|
      invariant var n := ErasableIn(s[..i]);
                && out == Taps(Repeat(BACKSPACE, if n < noerase then 0 else n - noerase))
                && left == if n < noerase then noerase - n else 0
    {
      assert s[..i + 1][..i] == s[..i];
      ghost var n := ErasableIn(s[..i]);
      if Erasable(s[i]) {
        if left > 0 {
          left := left - 1;
        } else {
          OneMoreTap(n - noerase);
          out := out + [PressKey(BACKSPACE), ReleaseKey(BACKSPACE)];
        }
      }
    }
    assert s[..|s|] == s;
  }

  lemma OneMoreTap(n: nat)
    ensures Taps(Repeat(BACKSPACE, n + 1)) == Taps(Repeat(BACKSPACE, n)) + [PressKey(BACKSPACE), ReleaseKey(BACKSPACE)]
  {
    assert Repeat(BACKSPACE, n + 1)[..n] == Repeat(BACKSPACE, n);
  }

  method RetainHeld(held: seq<Held>, s: Keys) returns (kept: seq<Held>)
    ensures kept == LetGo(held, s)
  {
    kept := held;
    LetGoNothing(held);
    for i := 0 to |s|
      invariant kept == LetGo(held, s[..i])
    {
      assert s[..i + 1] == s[..i] + [s[i]];
      LetGoOneMore(held, s[..i], s[i]);
      if s[i] != KEY_OVERLAP_MARKER {
        kept := RetainOthers(kept, Bare(s[i]));
      }
    }
    assert s[..|s|] == s;
  }

  ghost function Others(held: seq<Held>, k: KeyCode): (r: seq<Held>)
  {
    if held == [] then [] else
    var n := |held| - 1;
    if held[n] == NormalKey(k) then Others(held[..n], k) else Others(held[..n], k) + [held[n]]
  }

  method RetainOthers(held: seq<Held>, k: KeyCode) returns (kept: seq<Held>)
    ensures kept == Others(held, k)
  {
    kept := [];
    for i := 0 to |held|
      invariant kept == Others(held[..i], k)
    {
      assert held[..i + 1][..i] == held[..i];
      if held[i] != NormalKey(k) {
        kept := kept + [held[i]];
      }
    }
    assert held[..|held|] == held;
  }

  lemma {:induction false} LetGoNothing(held: seq<Held>)
    ensures LetGo(held, []) == held
    decreases |held|
  {
    if held != [] {
      LetGoNothing(held[..|held| - 1]);
    }
  }

  lemma MatchesSnoc(h: Held, s: Keys, k: Key)
    ensures Matches(h, s + [k]) <==> Matches(h, s) || (k != KEY_OVERLAP_MARKER && h == NormalKey(Bare(k)))
  {
    var all := s + [k];
    assert all[|s|] == k;
    if Matches(h, s) {
      var i :| 0 <= i < |s| && s[i] != KEY_OVERLAP_MARKER && Bare(s[i]) == h.key;
      assert all[i] == s[i];
    }
  }

  lemma OthersSnoc(held: seq<Held>, h: Held, k: KeyCode)
    ensures Others(held + [h], k) == Others(held, k) + if h == NormalKey(k) then [] else [h]
  {
    assert (held + [h])[..|held|] == held;
  }

  lemma {:induction false} LetGoOneMore(held: seq<Held>, s: Keys, k: Key)
    ensures LetGo(held, s + [k]) == if k == KEY_OVERLAP_MARKER then LetGo(held, s) else Others(LetGo(held, s), Bare(k))
    decreases |held|
  {
    if held != [] {
      var n := |held| - 1;
      LetGoOneMore(held[..n], s, k);
      MatchesSnoc(held[n], s, k);
      OthersSnoc(LetGo(held[..n], s), held[n], Bare(k));
    }
  }

  // ---------------------------------------------------------------------------------------
  // What the search achieves

  /// Backtracking is optimal: it cleans the shortest tail that makes the sequence known, and fails
  /// only if none does.
  lemma BacktrackingKeepsMost(trie: Trie, s: Keys, modcancel: bool) returns (i: nat)
    requires !Known(trie, s)
    ensures var r := Standard(trie, s, modcancel);
            && (r.failed <==> forall j :: 0 <= j < |s| ==> !Known(trie, CleanedFrom(s, j, modcancel)))
            && (!r.failed ==>
                  && i < |s| && r.keys == CleanedFrom(s, i, modcancel) && Known(trie, r.keys)
                  && forall j :: i < j < |s| ==> !Known(trie, CleanedFrom(s, j, modcancel)))
            && (r.failed ==> r.keys == Clean(s, modcancel))
  {
    var cut := LargestCut(trie, s, |s|, modcancel);
    i := if cut.Some? then cut.value else 0;
    assert cut.Some? ==> Known(trie, CleanedFrom(s, i, modcancel));
  }

  /// When both trackers fail, the longest known suffix of the cleaned sequence is kept; the
  /// sequence is cancelled exactly when only the empty one is left.
  lemma LongestKnownSuffixSurvives(trie: Trie, t: Trackers, k: Key, modcancel: bool) returns (dropped: nat)
    requires Standard(trie, t.sequence + [k], modcancel).failed && Overlap(trie, t.overlapped, k).failed
    ensures var c := Clean(t.sequence + [k], modcancel);
            var r := Track(trie, t, k, modcancel);
            && dropped <= |c| && r.sequence == c[dropped..]
            && (forall j :: 0 <= j < dropped ==> !Known(trie, c[j..]))
            && (r.cancelled <==> forall j :: 0 <= j < |c| ==> !Known(trie, c[j..]))
            && (!r.cancelled ==> Known(trie, r.sequence))
  {
    var i := 0;
    if !Known(trie, t.sequence + [k]) {
      i := BacktrackingKeepsMost(trie, t.sequence + [k], modcancel);
    }
    dropped := DropUntilKnown(trie, Clean(t.sequence + [k], modcancel));
  }

  /// Some tracker is a proper prefix of a configured sequence.
  ghost predicate Alive(trie: Trie, v: SeqValue)
  {
    Find(trie, v.sequence).InTrie? || Find(trie, v.overlapped).InTrie?
  }

  lemma TrackersKnown(trie: Trie, t: Trackers, k: Key, modcancel: bool)
    ensures var r := Track(trie, t, k, modcancel);
            r.cancelled || Known(trie, r.sequence) || Known(trie, r.overlapped)
  {
    var s := t.sequence + [k];
    if !Known(trie, s) {
      var i := BacktrackingKeepsMost(trie, s, modcancel);
    }
    if Standard(trie, s, modcancel).failed && Overlap(trie, t.overlapped, k).failed {
      var n := LongestKnownSuffixSurvives(trie, t, k, modcancel);
    }
  }

  /// The matcher never idles in a dead state: whatever it held before, after a press it is inactive
  /// or can still be completed.
  lemma AliveAfterPress(trie: Trie, v: SeqValue, k: KeyCode, mods: ModBits, modcancel: bool)
    ensures var r := PressLogic(trie, v, k, mods, modcancel);
            r.active ==> Alive(trie, r)
  {
    TrackersKnown(trie, Trackers(v.sequence, v.overlapped, false), Pushed(k, mods), modcancel);
  }

  /// The sequence that the trackers complete, if any.
  ghost function Completed(trie: Trie, sequence: Keys, overlapped: Keys): (s: Option<Keys>)
    ensures s.Some? ==> s.value in trie
  {
    var ended := overlapped + [KEY_OVERLAP_MARKER];
    if overlapped in trie then Some(overlapped)
    else if sequence !in trie then None
    else if ended in trie then Some(ended)
    else Some(sequence)
  }

  /// The sequence that a press completes, if any.
  ghost function CompletedBy(trie: Trie, v: SeqValue, k: KeyCode, mods: ModBits, modcancel: bool): (s: Option<Keys>)
    ensures s.Some? ==> s.value in trie
  {
    var t := Tracking(trie, v, k, mods, modcancel);
    Completed(trie, t.sequence, t.overlapped)
  }

  lemma {:induction false} LetGoOf(held: seq<Held>, s: Keys, h: Held)
    ensures h in LetGo(held, s) <==> h in held && !Matches(h, s)
    decreases |held|
  {
    if held != [] {
      var n := |held| - 1;
      assert held == held[..n] + [held[n]];
      LetGoOf(held[..n], s, h);
    }
  }

  ghost predicate SameQueue(r: SeqValue, v: SeqValue)
  {
    r.queue == v.queue && r.spilled == v.spilled
  }

  /// The tap of `c` is in front of all that was queued. Only the last events of a full queue have
  /// fallen out, and no event is gone.
  ghost predicate TapsFirst(v: SeqValue, r: SeqValue, c: Coord)
  {
    && |r.queue| >= 2 && r.queue[0] == Press(c) && r.queue[1] == Release(c) && r.queue[2..] <= v.queue
    && multiset(r.queue) + multiset(r.spilled) == multiset(v.queue) + multiset(v.spilled) + multiset{Press(c), Release(c)}
    && (|v.queue| + 2 <= QUEUE_SIZE ==> r.queue == [Press(c), Release(c)] + v.queue && r.spilled == v.spilled)
  }

  lemma PushFrontKeepsAll(q: seq<Event>, e: Event)
    ensures multiset(PushFront(q, e)) + multiset(FallsOut(q)) == multiset(q) + multiset{e}
    ensures PushFront(q, e)[0] == e && PushFront(q, e)[1..] <= q
  {
    if |q| >= QUEUE_SIZE {
      assert q == q[..|q| - 1] + [q[|q| - 1]];
    }
  }

  lemma TapKeepsAll(q: seq<Event>, spilled: seq<Event>, a: Event, b: Event)
    ensures var q1 := PushFront(q, a);
            multiset(PushFront(q1, b)) + multiset(spilled + FallsOut(q) + FallsOut(q1))
            == multiset(q) + multiset(spilled) + multiset{b, a}
  {
    var q1 := PushFront(q, a);
    PushFrontKeepsAll(q, a);
    PushFrontKeepsAll(q1, b);
    TwoKept(multiset(q), multiset(q1), multiset(PushFront(q1, b)), multiset(FallsOut(q)), multiset(FallsOut(q1)), multiset(spilled), a, b);
  }

  lemma TwoKept(q: multiset<Event>, q1: multiset<Event>, q2: multiset<Event>, f: multiset<Event>, f1: multiset<Event>,
                spilled: multiset<Event>, a: Event, b: Event)
    requires q1 + f == q + multiset{a} && q2 + f1 == q1 + multiset{b}
    ensures q2 + (spilled + f + f1) == q + spilled + multiset{b, a}
  {
    calc {
      q2 + (spilled + f + f1);
      (q2 + f1) + (spilled + f);
      (q1 + multiset{b}) + (spilled + f);
      (q1 + f) + (spilled + multiset{b});
      (q + multiset{a}) + (spilled + multiset{b});
      q + spilled + multiset{b, a};
    }
  }

  lemma TapIsInFront(q: seq<Event>, a: Event, b: Event)
    ensures var r := PushFront(PushFront(q, a), b);
            && |r| >= 2 && r[0] == b && r[1] == a && r[2..] <= q
            && (|q| + 2 <= QUEUE_SIZE ==> r == [b, a] + q)
  {
    var q1 := PushFront(q, a);
    var r := PushFront(q1, b);
    PushFrontKeepsAll(q, a);
    PushFrontKeepsAll(q1, b);
    assert r[2..] == r[1..][1..];
  }

  lemma TapGoesFirst(v: SeqValue, r: SeqValue, c: Coord)
    requires SameQueue(r, TappedInFront(v, c))
    ensures TapsFirst(v, r, c)
  {
    TapKeepsAll(v.queue, v.spilled, Release(c), Press(c));
    TapIsInFront(v.queue, Release(c), Press(c));
  }

  lemma FinishedQueues(v: SeqValue, s: Keys, value: Value)
    ensures SameQueue(Finished(v, s, value), TappedInFront(v, Coord(value.row, value.col)))
  {
  }

  lemma CompletionQueues(trie: Trie, v: SeqValue, s: Keys) returns (r: SeqValue)
    requires Completed(trie, v.sequence, v.overlapped) == Some(s)
    ensures r == Complete(trie, v) && SameQueue(r, TappedInFront(v, Coord(trie[s].row, trie[s].col)))
  {
    var w := if v.overlapped in trie then v else v.(overlapped := v.overlapped + [KEY_OVERLAP_MARKER]);
    r := Finished(w, s, trie[s]);
    FinishedQueues(w, s, trie[s]);
  }

  lemma CompletionTapsFirst(trie: Trie, v: SeqValue, k: KeyCode, mods: ModBits, modcancel: bool, s: Keys)
    requires CompletedBy(trie, v, k, mods, modcancel) == Some(s)
    ensures TapsFirst(v, PressLogic(trie, v, k, mods, modcancel), Coord(trie[s].row, trie[s].col))
  {
    var tracked := Settled(Noted(v, k), Tracking(trie, v, k, mods, modcancel));
    assert SameQueue(tracked, v);
    var r := CompletionQueues(trie, tracked, s);
    TapGoesFirst(v, r, Coord(trie[s].row, trie[s].col));
  }

  /// The states that a completed sequence `s` leaves of those in `v`.
  function HeldAfter(v: SeqValue, s: Keys): seq<Held>
  {
    LetGo(if v.mode.VisibleBackspaced? then WithoutMods(v.held).0 else v.held, s)
  }

  lemma HeldAfterAre(v: SeqValue, s: Keys, h: Held)
    ensures h in HeldAfter(v, s) ==> h in v.held && !Matches(h, s)
    ensures v.mode.VisibleBackspaced? || (h in v.held && !Matches(h, s) ==> h in HeldAfter(v, s))
  {
    LetGoOf(if v.mode.VisibleBackspaced? then WithoutMods(v.held).0 else v.held, s, h);
    if v.mode.VisibleBackspaced? {
      WithoutModsOf(v.held, h);
    }
  }

  /// A completed sequence taps exactly its own virtual key, its press directly before its release
  /// and both before all else, and none of its keys stays held.
  lemma CompletionTaps(trie: Trie, v: SeqValue, k: KeyCode, mods: ModBits, modcancel: bool, h: Held)
    ensures var r := PressLogic(trie, v, k, mods, modcancel);
            match CompletedBy(trie, v, k, mods, modcancel)
            case None => SameQueue(r, v) && r.held == v.held && r.noerase == v.noerase
            case Some(s) =>
              && s in trie && !r.active
              && TapsFirst(v, r, Coord(trie[s].row, trie[s].col))
              && (h in r.held ==> h in v.held && !Matches(h, s))
              && (v.mode.VisibleBackspaced? || (h in v.held && !Matches(h, s) ==> h in r.held))
  {
    match CompletedBy(trie, v, k, mods, modcancel) {
      case None =>
      case Some(s) =>
        CompletionTapsFirst(trie, v, k, mods, modcancel, s);
        HeldAfterAre(v, s, h);
        assert PressLogic(trie, v, k, mods, modcancel).held == HeldAfter(v, s);
    }
  }

  lemma {:induction false} WithoutModsOf(held: seq<Held>, h: Held)
    ensures h in WithoutMods(held).0 <==> h in held && !(h.NormalKey? && Disturbs(h.key))
    decreases |held|
  {
    if held != [] {
      var n := |held| - 1;
      assert held == held[..n] + [held[n]];
      WithoutModsOf(held[..n], h);
    }
  }

  // ---------------------------------------------------------------------------------------
  // Releasing the last key

  /// Releasing the last key leaves an active matcher dead exactly when neither the keys of the
  /// standard tracker nor the overlap ended there begin a configured sequence.
  lemma DeadAfterReleaseIff(trie: Trie, v: SeqValue)
    requires v.active && v.sequence !in trie
    ensures var r := AllReleased(trie, v);
            r.active && !Alive(trie, r) <==>
              !HasExtension(trie, v.sequence) && !HasExtension(trie, v.overlapped + [KEY_OVERLAP_MARKER])
  {
    var ended := v.overlapped + [KEY_OVERLAP_MARKER];
    if ended in trie {
      assert ended <= ended;
    }
  }

  /// With the one sequence `O-(a b)`, pressing and releasing `a` alone gets there.
  lemma ReleasingOneKeyOfAnOverlapIsDead(v: SeqValue, value: Value)
    ensures var trie: Trie := map[[0x41E, 0x430, 0x400] := value, [0x430, 0x41E, 0x400] := value];
            var pressed := PressLogic(trie, Activated(v, HiddenSuppressed, 1000), 30, 0, true);
            var r := AllReleased(trie, pressed);
            pressed.active && Alive(trie, pressed) && r.active && !Alive(trie, r)
  {
    var trie: Trie := map[[0x41E, 0x430, 0x400] := value, [0x430, 0x41E, 0x400] := value];
    var a: Key := 0x41E;
    assert Pushed(30, 0) == 30 && Overlapping(30) == a && CleanKey(30, true) == 30;
    assert [] + [30] == [30] && [] + [a] == [a];
    assert HasExtension(trie, [a]) by {
      var key: Keys := [0x41E, 0x430, 0x400];
      assert key in trie && [a] <= key;
    }
    OnlyExtensions(trie, value, [30]);
    OnlyExtensions(trie, value, [a, 0x400]);
    var one: Keys := [30];
    assert one[0..] == one && one[..0] == [] && Clean(one[1..], true) == [];
    assert CleanedFrom(one, 0, true) == one;
    assert LargestCut(trie, one, 1, true) == LargestCut(trie, one, 0, true);
    assert Standard(trie, one, true) == Tracked(one, true);
    assert Overlap(trie, [], 30) == Tracked([a], false);
    assert EndOverlap([a]) == [a, 0x400];
  }

  lemma OnlyExtensions(trie: Trie, value: Value, s: Keys)
    requires trie == map[[0x41E, 0x430, 0x400] := value, [0x430, 0x41E, 0x400] := value]
    requires s == [30] || s == [0x41E, 0x400]
    ensures !Known(trie, s)
  {
    forall k | k in trie ensures !(s <= k) {
      assert |k| == 3 && (k[0] != s[0] || (|s| == 2 && k[1] != s[1]));
    }
  }

  // ---------------------------------------------------------------------------------------
  // Typing a configured sequence

  predicate Marked(k: Key)
  {
    k / 0x400 % 2 == 1
  }

  /// No configured sequence has overlapping keys.
  ghost predicate NoOverlaps(trie: Trie)
  {
    forall s, i :: s in trie && 0 <= i < |s| ==> !Marked(s[i])
  }

  lemma MarkedIsUnknown(trie: Trie, s: Keys, i: nat)
    requires NoOverlaps(trie) && i < |s| && Marked(s[i])
    ensures !Known(trie, s)
  {
  }

  lemma OverlapFails(trie: Trie, s: Keys, k: Key)
    requires NoOverlaps(trie)
    ensures Overlap(trie, s, k).failed
  {
    var again := s + [KEY_OVERLAP_MARKER];
    assert Marked(KEY_OVERLAP_MARKER) && Marked(Overlapping(k));
    MarkedIsUnknown(trie, s + [Overlapping(k)], |s|);
    MarkedIsUnknown(trie, again + [Overlapping(k)], |s|);
    MarkedIsUnknown(trie, again + [k], |s|);
    MarkedIsUnknown(trie, again + [Bare(k)], |s|);
  }

  /// Both trackers hold the first `i` keys of `s`.
  ghost predicate Following(v: SeqValue, s: Keys, i: nat)
  {
    i <= |s| && v.active && v.sequence == v.overlapped == s[..i]
  }

  /// The key code is looked up as `base`: the right shift, GUI and control keys count as the left ones.
  predicate CountsAs(k: KeyCode, base: nat)
  {
    || (k == 54 && base == 42)
    || (k == 126 && base == 125)
    || (k == 97 && base == 29)
    || (k !in {54, 126, 97} && base == k)
  }

  /// The press of a key with modifiers held is that of a sequence key: key code in the low ten bits,
  /// modifiers above.
  predicate IsPressOf(press: (KeyCode, ModBits), key: Key)
  {
    CountsAs(press.0, key % 0x400) && key - key % 0x400 == press.1
  }

  /// The press of an overlapping key, whatever modifiers are held.
  predicate IsOverlappingPressOf(press: (KeyCode, ModBits), key: Key)
  {
    CountsAs(press.0, key % 0x400) && key - key % 0x400 == 0x400
  }

  /// What is looked up is the key with its modifiers.
  lemma PushedIff(press: (KeyCode, ModBits), key: Key)
    ensures Pushed(press.0, press.1) == key <==> IsPressOf(press, key)
    ensures Overlapping(Pushed(press.0, press.1)) == key <==> IsOverlappingPressOf(press, key)
  {
    var k := Pushed(press.0, press.1);
    assert CountsAs(press.0, k % 0x400) && k - k % 0x400 == press.1;
  }

  lemma NextKeyFollows(trie: Trie, v: SeqValue, s: Keys, i: nat, k: KeyCode, mods: ModBits, modcancel: bool)
    requires NoOverlaps(trie) && s in trie && i < |s| && Following(v, s, i) && IsPressOf((k, mods), s[i])
    requires forall j :: 0 <= j < |s| ==> s[..j] !in trie
    ensures var r := PressLogic(trie, v, k, mods, modcancel);
            if i + 1 < |s| then Following(r, s, i + 1) && SameQueue(r, v)
            else !r.active && SameQueue(r, TappedInFront(v, Coord(trie[s].row, trie[s].col)))
  {
    PushedIff((k, mods), s[i]);
    assert s[..i] + [s[i]] == s[..i + 1];
    assert s[..i + 1] <= s && s[..|s|] == s;
    assert Known(trie, s[..i + 1]);
    OverlapFails(trie, s[..i], s[i]);
  }

  ghost function TypeAll(trie: Trie, v: SeqValue, presses: seq<(KeyCode, ModBits)>, modcancel: bool): (r: SeqValue)
  {
    if presses == [] then v else
    var n := |presses| - 1;
    PressLogic(trie, TypeAll(trie, v, presses[..n], modcancel), presses[n].0, presses[n].1, modcancel)
  }

  lemma {:induction false} TypingFollows(trie: Trie, v: SeqValue, s: Keys, presses: seq<(KeyCode, ModBits)>, modcancel: bool)
    requires NoOverlaps(trie) && s in trie && Following(v, s, 0)
    requires forall j :: 0 <= j < |s| ==> s[..j] !in trie
    requires |presses| < |s| && forall j :: 0 <= j < |presses| ==> IsPressOf(presses[j], s[j])
    ensures var r := TypeAll(trie, v, presses, modcancel);
            Following(r, s, |presses|) && SameQueue(r, v)
    decreases |presses|
  {
    if presses != [] {
      var n := |presses| - 1;
      TypingFollows(trie, v, s, presses[..n], modcancel);
      NextKeyFollows(trie, TypeAll(trie, v, presses[..n], modcancel), s, n, presses[n].0, presses[n].1, modcancel);
    }
  }

  /// Typing a configured sequence after activation taps its virtual key at the last press and not
  /// before, unless a shorter sequence is completed on the way.
  lemma TypingCompletes(trie: Trie, v: SeqValue, mode: InputMode, timeout: u16, s: Keys, presses: seq<(KeyCode, ModBits)>,
                        modcancel: bool)
    requires NoOverlaps(trie) && s in trie && forall j :: 0 <= j < |s| ==> s[..j] !in trie
    requires |presses| == |s| > 0 && forall j :: 0 <= j < |presses| ==> IsPressOf(presses[j], s[j])
    ensures var start := Activated(v, mode, timeout);
            var r := TypeAll(trie, start, presses, modcancel);
            && !r.active
            && TapsFirst(v, r, Coord(trie[s].row, trie[s].col))
            && SameQueue(TypeAll(trie, start, presses[..|presses| - 1], modcancel), v)
  {
    var start, n := Activated(v, mode, timeout), |presses| - 1;
    assert Following(start, s, 0);
    TypingFollows(trie, start, s, presses[..n], modcancel);
    NextKeyFollows(trie, TypeAll(trie, start, presses[..n], modcancel), s, n, presses[n].0, presses[n].1, modcancel);
    TapGoesFirst(v, TypeAll(trie, start, presses, modcancel), Coord(trie[s].row, trie[s].col));
  }

  // ---------------------------------------------------------------------------------------
  // Typing an overlapping sequence

  /// `s` consists of overlapping keys and the marker that ends them, and no shorter part of it is
  /// configured.
  ghost predicate OverlapOf(trie: Trie, s: Keys)
  {
    && s in trie && |s| >= 2 && s[|s| - 1] == KEY_OVERLAP_MARKER
    && forall j :: 0 <= j < |s| ==> s[..j] !in trie
  }

  /// The overlap tracker holds the first `i` keys of `s`.
  ghost predicate Overlaps(v: SeqValue, s: Keys, i: nat)
  {
    i <= |s| && v.active && v.overlapped == s[..i]
  }

  /// The overlap tracker follows the keys of a configured overlap, whatever else is configured.
  lemma OverlapTracks(trie: Trie, v: SeqValue, s: Keys, i: nat, k: KeyCode, mods: ModBits, modcancel: bool) returns (t: Trackers)
    requires OverlapOf(trie, s) && i + 1 < |s| && Overlaps(v, s, i) && IsOverlappingPressOf((k, mods), s[i])
    ensures t == Tracking(trie, v, k, mods, modcancel) && t.overlapped == s[..i + 1] && !t.cancelled
  {
    PushedIff((k, mods), s[i]);
    t := Tracking(trie, v, k, mods, modcancel);
    assert s[..i] + [s[i]] == s[..i + 1] && s[..i + 1] <= s;
    assert Known(trie, s[..i + 1]);
  }

  /// The last step of a press, when the overlap tracker holds the first `i` keys of `s`.
  lemma OverlapOrCompletion(trie: Trie, v: SeqValue, s: Keys, i: nat) returns (r: SeqValue)
    requires OverlapOf(trie, s) && 0 < i < |s| && Overlaps(v, s, i)
    ensures r == Complete(trie, v) && (r.active <==> v.sequence !in trie)
    ensures r.active ==> r == v
    ensures !r.active && i + 1 == |s| ==> TapsFirst(v, r, Coord(trie[s].row, trie[s].col))
  {
    if v.sequence !in trie {
      r := v;
    } else if i + 1 == |s| {
      assert s[..i] + [KEY_OVERLAP_MARKER] == s;
      r := CompletionQueues(trie, v, s);
      TapGoesFirst(v, r, Coord(trie[s].row, trie[s].col));
    } else {
      r := Complete(trie, v);
    }
  }

  /// A key of the overlap either goes on with it or, if the other tracker holds a configured sequence,
  /// completes a sequence: the overlap itself if this was its last key.
  lemma NextKeyOverlaps(trie: Trie, v: SeqValue, s: Keys, i: nat, k: KeyCode, mods: ModBits, modcancel: bool)
    returns (r: SeqValue, t: Trackers)
    requires OverlapOf(trie, s) && i + 1 < |s| && Overlaps(v, s, i) && IsOverlappingPressOf((k, mods), s[i])
    ensures r == PressLogic(trie, v, k, mods, modcancel) && t == Tracking(trie, v, k, mods, modcancel)
    ensures r.active <==> t.sequence !in trie
    ensures r.active ==> Overlaps(r, s, i + 1) && SameQueue(r, v)
    ensures !r.active && i + 2 == |s| ==> TapsFirst(v, r, Coord(trie[s].row, trie[s].col))
  {
    t := OverlapTracks(trie, v, s, i, k, mods, modcancel);
    var tracked := Settled(Noted(v, k), t);
    assert SameQueue(tracked, v) && tracked.sequence == t.sequence;
    r := OverlapOrCompletion(trie, tracked, s, i + 1);
  }

  lemma {:induction false} OverlapFollows(trie: Trie, v: SeqValue, s: Keys, presses: seq<(KeyCode, ModBits)>, modcancel: bool)
    returns (r: SeqValue)
    requires OverlapOf(trie, s) && Overlaps(v, s, 0)
    requires |presses| < |s| && forall j :: 0 <= j < |presses| ==> IsOverlappingPressOf(presses[j], s[j])
    ensures r == TypeAll(trie, v, presses, modcancel)
    ensures r.active ==> Overlaps(r, s, |presses|) && SameQueue(r, v)
    decreases |presses|
  {
    if presses == [] {
      r := v;
    } else {
      var n := |presses| - 1;
      var before := OverlapFollows(trie, v, s, presses[..n], modcancel);
      if before.active {
        var t;
        r, t := NextKeyOverlaps(trie, before, s, n, presses[n].0, presses[n].1, modcancel);
      } else {
        r := PressLogic(trie, before, presses[n].0, presses[n].1, modcancel);
        StaysInactive(trie, before, presses[n].0, presses[n].1, modcancel);
      }
    }
  }

  lemma StaysInactive(trie: Trie, v: SeqValue, k: KeyCode, mods: ModBits, modcancel: bool)
    requires !v.active
    ensures !PressLogic(trie, v, k, mods, modcancel).active
  {
  }

  lemma AllReleasedTaps(trie: Trie, v: SeqValue, s: Keys)
    requires OverlapOf(trie, s) && Overlaps(v, s, |s| - 1)
    ensures var r := AllReleased(trie, v);
            !r.active && TapsFirst(v, r, Coord(trie[s].row, trie[s].col))
  {
    assert s[..|s| - 1] + [KEY_OVERLAP_MARKER] == s;
    var ended := v.(overlapped := s);
    FinishedQueues(ended, s, trie[s]);
    TapGoesFirst(v, AllReleased(trie, v), Coord(trie[s].row, trie[s].col));
  }

  /// Pressing the keys of an overlap in a configured order and releasing them taps its virtual key, at
  /// the last press or when the last key is released, unless one of the earlier presses has completed
  /// another sequence.
  lemma OverlapCompletes(trie: Trie, v: SeqValue, mode: InputMode, timeout: u16, s: Keys, presses: seq<(KeyCode, ModBits)>,
                         modcancel: bool)
    requires OverlapOf(trie, s) && |presses| == |s| - 1
    requires forall j :: 0 <= j < |presses| ==> IsOverlappingPressOf(presses[j], s[j])
    ensures var start := Activated(v, mode, timeout);
            var pressed := TypeAll(trie, start, presses, modcancel);
            var r := AllReleased(trie, pressed);
            TypeAll(trie, start, presses[..|presses| - 1], modcancel).active ==>
              !r.active && TapsFirst(v, r, Coord(trie[s].row, trie[s].col)) && (pressed.active ==> SameQueue(pressed, v))
  {
    var start, n := Activated(v, mode, timeout), |presses| - 1;
    assert Overlaps(start, s, 0);
    var before := OverlapFollows(trie, start, s, presses[..n], modcancel);
    if before.active {
      var pressed, t := NextKeyOverlaps(trie, before, s, n, presses[n].0, presses[n].1, modcancel);
      if pressed.active {
        AllReleasedTaps(trie, pressed, s);
      }
    }
  }

  /// Every configured sequence consists of overlapping keys and markers.
  ghost predicate OnlyOverlaps(trie: Trie)
  {
    forall s, i :: s in trie && 0 <= i < |s| ==> Marked(s[i])
  }

  lemma UnmarkedIsUnknown(trie: Trie, s: Keys, i: nat)
    requires OnlyOverlaps(trie) && i < |s| && !Marked(s[i])
    ensures !Known(trie, s)
  {
  }

  lemma {:induction false} CleanKeepsLast(s: Keys, k: Key, modcancel: bool)
    requires !Marked(k)
    ensures var r := Clean(s + [k], modcancel);
            r != [] && !Marked(r[|r| - 1])
    decreases |s|
  {
    if s == [] {
      assert [] + [k] == [k] && [k][1..] == [];
      assert k != KEY_OVERLAP_MARKER;
    } else {
      assert (s + [k])[1..] == s[1..] + [k];
      CleanKeepsLast(s[1..], k, modcancel);
    }
  }

  /// The standard tracker fails at a key that does not overlap.
  lemma StandardFails(trie: Trie, s: Keys, k: Key, modcancel: bool)
    requires OnlyOverlaps(trie) && !Marked(k)
    ensures Standard(trie, s + [k], modcancel).failed
  {
    var all := s + [k];
    UnmarkedIsUnknown(trie, all, |s|);
    forall i | 0 <= i < |all| ensures !Known(trie, CleanedFrom(all, i, modcancel)) {
      assert all[i..] == s[i..] + [k];
      CleanKeepsLast(s[i..], k, modcancel);
      var r := CleanedFrom(all, i, modcancel);
      UnmarkedIsUnknown(trie, r, |r| - 1);
    }
  }

  /// No overlap of fewer of the keys is configured.
  ghost predicate NoShorterOverlap(trie: Trie, s: Keys)
  {
    forall j :: 0 <= j < |s| - 1 ==> s[..j] + [KEY_OVERLAP_MARKER] !in trie
  }

  /// The press is that of the overlapping key `k`.
  ghost predicate Presses(press: (KeyCode, ModBits), k: Key)
  {
    IsOverlappingPressOf(press, k) && k != KEY_OVERLAP_MARKER && press.1 / 0x400 % 2 == 0
  }

  lemma StandardEndsOverlap(trie: Trie, t: Trackers, s: Keys, i: nat, k: Key, modcancel: bool) returns (r: Trackers)
    requires OnlyOverlaps(trie) && OverlapOf(trie, s) && i + 1 < |s| && t.overlapped == s[..i]
    requires Overlapping(k) == s[i] != KEY_OVERLAP_MARKER && !Marked(k)
    ensures r == Track(trie, t, k, modcancel) && r.sequence == s[..i + 1] + [KEY_OVERLAP_MARKER]
  {
    StandardFails(trie, t.sequence, k, modcancel);
    assert s[..i] + [s[i]] == s[..i + 1] && s[..i + 1] <= s;
    assert Known(trie, s[..i + 1]);
    assert Overlap(trie, t.overlapped, k) == Tracked(s[..i + 1], false);
    assert s[..i + 1][i] == s[i];
    r := Track(trie, t, k, modcancel);
  }

  /// Where only overlaps are configured, the standard tracker holds the overlap as far as it is typed.
  lemma TracksTheOverlap(trie: Trie, v: SeqValue, s: Keys, i: nat, press: (KeyCode, ModBits), modcancel: bool) returns (w: SeqValue)
    requires OnlyOverlaps(trie) && OverlapOf(trie, s) && i + 1 < |s| && Overlaps(v, s, i) && Presses(press, s[i])
    ensures PressLogic(trie, v, press.0, press.1, modcancel) == Complete(trie, w)
    ensures Overlaps(w, s, i + 1) && w.sequence == s[..i + 1] + [KEY_OVERLAP_MARKER] && SameQueue(w, v)
  {
    var held := Trackers(v.sequence, v.overlapped, false);
    PushedIff(press, s[i]);
    assert !Marked(Pushed(press.0, press.1));
    var t := StandardEndsOverlap(trie, held, s, i, Pushed(press.0, press.1), modcancel);
    var u := OverlapTracks(trie, v, s, i, press.0, press.1, modcancel);
    w := Settled(Noted(v, press.0), t);
  }

  lemma OverlapPress(trie: Trie, v: SeqValue, s: Keys, i: nat, press: (KeyCode, ModBits), modcancel: bool) returns (r: SeqValue)
    requires OnlyOverlaps(trie) && OverlapOf(trie, s) && NoShorterOverlap(trie, s) && i + 1 < |s|
    requires Overlaps(v, s, i) && Presses(press, s[i])
    ensures r == PressLogic(trie, v, press.0, press.1, modcancel)
    ensures i + 2 < |s| ==> Overlaps(r, s, i + 1) && SameQueue(r, v)
    ensures i + 2 == |s| ==> !r.active && TapsFirst(v, r, Coord(trie[s].row, trie[s].col))
  {
    var w := TracksTheOverlap(trie, v, s, i, press, modcancel);
    r := OverlapTypes(trie, w, s, i);
  }

  lemma OverlapTypes(trie: Trie, w: SeqValue, s: Keys, i: nat) returns (r: SeqValue)
    requires OverlapOf(trie, s) && NoShorterOverlap(trie, s) && i + 1 < |s|
    requires Overlaps(w, s, i + 1) && w.sequence == s[..i + 1] + [KEY_OVERLAP_MARKER]
    ensures r == Complete(trie, w)
    ensures i + 2 < |s| ==> Overlaps(r, s, i + 1) && SameQueue(r, w)
    ensures i + 2 == |s| ==> !r.active && TapsFirst(w, r, Coord(trie[s].row, trie[s].col))
  {
    r := OverlapOrCompletion(trie, w, s, i + 1);
    if i + 2 == |s| {
      assert s[..i + 1] + [KEY_OVERLAP_MARKER] == s;
    }
  }

  lemma {:induction false} OverlapStays(trie: Trie, v: SeqValue, s: Keys, presses: seq<(KeyCode, ModBits)>, modcancel: bool)
    returns (r: SeqValue)
    requires OnlyOverlaps(trie) && OverlapOf(trie, s) && NoShorterOverlap(trie, s) && Overlaps(v, s, 0)
    requires |presses| + 1 < |s| && forall j :: 0 <= j < |presses| ==> Presses(presses[j], s[j])
    ensures r == TypeAll(trie, v, presses, modcancel) && Overlaps(r, s, |presses|) && SameQueue(r, v)
    decreases |presses|
  {
    if presses == [] {
      r := v;
    } else {
      var n := |presses| - 1;
      var before := OverlapStays(trie, v, s, presses[..n], modcancel);
      assert Presses(presses[n], s[n]);
      r := OverlapPress(trie, before, s, n, presses[n], modcancel);
    }
  }

  /// Where all configured sequences are overlaps and none is one of fewer of the keys, an overlap
  /// completes at the press of its last key.
  lemma OverlapCompletesAtLastPress(trie: Trie, v: SeqValue, mode: InputMode, timeout: u16, s: Keys,
                                    presses: seq<(KeyCode, ModBits)>, modcancel: bool)
    returns (before: SeqValue, r: SeqValue)
    requires OnlyOverlaps(trie) && OverlapOf(trie, s) && NoShorterOverlap(trie, s)
    requires |presses| == |s| - 1 && forall j :: 0 <= j < |presses| ==> Presses(presses[j], s[j])
    ensures before == TypeAll(trie, Activated(v, mode, timeout), presses[..|presses| - 1], modcancel)
    ensures r == TypeAll(trie, Activated(v, mode, timeout), presses, modcancel)
    ensures SameQueue(before, v) && !r.active && TapsFirst(v, r, Coord(trie[s].row, trie[s].col))
  {
    var start, n := Activated(v, mode, timeout), |presses| - 1;
    assert Overlaps(start, s, 0);
    before := OverlapStays(trie, start, s, presses[..n], modcancel);
    assert Presses(presses[n], s[n]);
    r := OverlapPress(trie, before, s, n, presses[n], modcancel);
  }
}
