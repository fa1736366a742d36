/// What a leader sequence types, erases and lets go of, and when it runs out of time, said by key codes
/// and positions (src/kanata/sequences.rs, parser/src/sequences.rs).

module SequenceEffects {
  import opened Types
  import opened Picking
  import opened SequenceModel
  import opened Sequences

  // ---------------------------------------------------------------------------------------
  // Which key a press is

  predicate HasBit(mods: nat, bit: nat)
    requires bit > 0
  {
    mods / bit % 2 == 1
  }

  predicate OneOfTwo(held: seq<KeyCode>, a: KeyCode, b: KeyCode)
  {
    a in held || b in held
  }

  /// Shift, control, left alt, right alt, GUI and the overlap key each have a bit of their own.
  lemma ModifierBits(held: seq<KeyCode>)
    ensures var mods := ModMask(held);
            && (HasBit(mods, 0x8000) <==> OneOfTwo(held, 42, 54))
            && (HasBit(mods, 0x4000) <==> OneOfTwo(held, 29, 97))
            && (HasBit(mods, 0x2000) <==> 56 in held)
            && (HasBit(mods, 0x1000) <==> 100 in held)
            && (HasBit(mods, 0x0800) <==> OneOfTwo(held, 125, 126))
            && (HasBit(mods, 0x0400) <==> 251 in held)
            && mods % 0x400 == 0 && mods < 0x1_0000
  {
    var (s, c) := (if OneOfTwo(held, 42, 54) then 1 else 0, if OneOfTwo(held, 29, 97) then 1 else 0);
    var (l, r) := (if 56 in held then 1 else 0, if 100 in held then 1 else 0);
    var (g, o) := (if OneOfTwo(held, 125, 126) then 1 else 0, if 251 in held then 1 else 0);
    assert ModMask(held) == 0x8000 * s + 0x4000 * c + 0x2000 * l + 0x1000 * r + 0x0800 * g + 0x0400 * o;
    SixBits(s, c, l, r, g, o);
  }

  lemma SixBits(s: nat, c: nat, l: nat, r: nat, g: nat, o: nat)
    requires s <= 1 && c <= 1 && l <= 1 && r <= 1 && g <= 1 && o <= 1
    ensures var m := 0x8000 * s + 0x4000 * c + 0x2000 * l + 0x1000 * r + 0x0800 * g + 0x0400 * o;
            && (HasBit(m, 0x8000) <==> s == 1) && (HasBit(m, 0x4000) <==> c == 1) && (HasBit(m, 0x2000) <==> l == 1)
            && (HasBit(m, 0x1000) <==> r == 1) && (HasBit(m, 0x0800) <==> g == 1) && (HasBit(m, 0x0400) <==> o == 1)
            && m % 0x400 == 0 && m < 0x1_0000
  {
  }

  /// The modifiers of a sequence key are those held.
  predicate HeldFor(held: seq<KeyCode>, key: Key)
  {
    && (HasBit(key, 0x8000) <==> OneOfTwo(held, 42, 54))
    && (HasBit(key, 0x4000) <==> OneOfTwo(held, 29, 97))
    && (HasBit(key, 0x2000) <==> 56 in held)
    && (HasBit(key, 0x1000) <==> 100 in held)
    && (HasBit(key, 0x0800) <==> OneOfTwo(held, 125, 126))
    && (HasBit(key, 0x0400) <==> 251 in held)
  }

  lemma Halves(m: nat)
    ensures m / 0x0800 == m / 0x0400 / 2 && m / 0x1000 == m / 0x0800 / 2 && m / 0x2000 == m / 0x1000 / 2
    ensures m / 0x4000 == m / 0x2000 / 2 && m / 0x8000 == m / 0x4000 / 2
  {
  }

  function Part(m: nat, bit: nat): nat
    requires bit > 0
  {
    if HasBit(m, bit) then bit else 0
  }

  lemma BitsAreAll(m: nat)
    requires m < 0x1_0000
    ensures m - m % 0x400 == Part(m, 0x8000) + Part(m, 0x4000) + Part(m, 0x2000) + Part(m, 0x1000) + Part(m, 0x0800) + Part(m, 0x0400)
  {
    Halves(m);
    var (a, b, c) := (m / 0x0400, m / 0x0800, m / 0x1000);
    var (d, e, f) := (m / 0x2000, m / 0x4000, m / 0x8000);
    SumOfBits(a, b, c, d, e, f);
  }

  lemma SumOfBits(a: nat, b: nat, c: nat, d: nat, e: nat, f: nat)
    requires b == a / 2 && c == b / 2 && d == c / 2 && e == d / 2 && f == e / 2 && f < 2
    ensures 0x400 * a == (if f % 2 == 1 then 0x8000 else 0) + (if e % 2 == 1 then 0x4000 else 0) + (if d % 2 == 1 then 0x2000 else 0)
                       + (if c % 2 == 1 then 0x1000 else 0) + (if b % 2 == 1 then 0x0800 else 0) + (if a % 2 == 1 then 0x0400 else 0)
  {
  }

  lemma SameBits(m: nat, n: nat)
    requires m < 0x1_0000 && n < 0x1_0000
    requires HasBit(m, 0x8000) == HasBit(n, 0x8000) && HasBit(m, 0x4000) == HasBit(n, 0x4000)
    requires HasBit(m, 0x2000) == HasBit(n, 0x2000) && HasBit(m, 0x1000) == HasBit(n, 0x1000)
    requires HasBit(m, 0x0800) == HasBit(n, 0x0800) && HasBit(m, 0x0400) == HasBit(n, 0x0400)
    ensures m - m % 0x400 == n - n % 0x400
  {
    BitsAreAll(m);
    BitsAreAll(n);
  }

  lemma HeldGivesModifiers(held: seq<KeyCode>, key: Key)
    requires HeldFor(held, key)
    ensures ModMask(held) == key - key % 0x400
  {
    ModifierBits(held);
    SameBits(key, ModMask(held));
  }

  /// Keys that are newly active, each with all that are.
  ghost function TypeKeys(trie: Trie, v: SeqValue, typed: seq<(KeyCode, seq<KeyCode>)>, modcancel: bool): (r: SeqValue)
  {
    if typed == [] then v else
    var n := |typed| - 1;
    KeyTyped(trie, TypeKeys(trie, v, typed[..n], modcancel), typed[n].0, typed[n].1, modcancel, None)
  }

  ghost predicate TypedAs(typed: seq<(KeyCode, seq<KeyCode>)>, s: Keys)
    requires |typed| <= |s|
  {
    forall j :: 0 <= j < |typed| ==> CountsAs(typed[j].0, s[j] % 0x400) && HeldFor(typed[j].1, s[j])
  }

  lemma {:induction false} KeysFollow(trie: Trie, v: SeqValue, s: Keys, typed: seq<(KeyCode, seq<KeyCode>)>, modcancel: bool)
    requires NoOverlaps(trie) && s in trie && Following(v, s, 0) && forall j :: 0 <= j < |s| ==> s[..j] !in trie
    requires |typed| < |s| && TypedAs(typed, s)
    ensures var r := TypeKeys(trie, v, typed, modcancel);
            Following(r, s, |typed|) && SameQueue(r, v)
    decreases |typed|
  {
    if typed != [] {
      var n := |typed| - 1;
      KeysFollow(trie, v, s, typed[..n], modcancel);
      HeldGivesModifiers(typed[n].1, s[n]);
      var before := TypeKeys(trie, v, typed[..n], modcancel);
      NextKeyFollows(trie, before, s, n, typed[n].0, ModMask(typed[n].1), modcancel);
    }
  }

  /// Typing a configured sequence key by key, with the modifiers of each key held, taps its virtual key.
  lemma TypingWithModifiersCompletes(trie: Trie, v: SeqValue, mode: InputMode, timeout: u16, s: Keys,
                                     typed: seq<(KeyCode, seq<KeyCode>)>, modcancel: bool)
    requires NoOverlaps(trie) && s in trie && forall j :: 0 <= j < |s| ==> s[..j] !in trie
    requires |typed| == |s| > 0 && TypedAs(typed, s)
    ensures var r := TypeKeys(trie, Activated(v, mode, timeout), typed, modcancel);
            !r.active && TapsFirst(v, r, Coord(trie[s].row, trie[s].col))
  {
    var start, n := Activated(v, mode, timeout), |typed| - 1;
    assert Following(start, s, 0);
    KeysFollow(trie, start, s, typed[..n], modcancel);
    var before := TypeKeys(trie, start, typed[..n], modcancel);
    HeldGivesModifiers(typed[n].1, s[n]);
    NextKeyFollows(trie, before, s, n, typed[n].0, ModMask(typed[n].1), modcancel);
    TapGoesFirst(v, TypeKeys(trie, start, typed, modcancel), Coord(trie[s].row, trie[s].col));
  }

  /// With a sequence for `a` and one for shift and `a`, the key `a` taps the one or the other as a shift key is
  /// held or not.
  lemma ShiftSelectsSequence(v: SeqValue, plain: Value, shifted: Value, held: seq<KeyCode>, modcancel: bool)
    requires v.active && v.sequence == v.overlapped == []
    requires forall k :: k in held ==> k !in {29, 97, 56, 100, 125, 126, 251}
    ensures var trie: Trie := map[[30] := plain, [0x801E] := shifted];
            var r := KeyTyped(trie, v, 30, held, modcancel, None);
            var value := if OneOfTwo(held, 42, 54) then shifted else plain;
            !r.active && TapsFirst(v, r, Coord(value.row, value.col))
  {
    var trie: Trie := map[[30] := plain, [0x801E] := shifted];
    var s: Keys := if OneOfTwo(held, 42, 54) then [0x801E] else [30];
    assert s in trie && s[0] % 0x400 == 30;
    assert HeldFor(held, s[0]);
    HeldGivesModifiers(held, s[0]);
    forall t, i | t in trie && 0 <= i < |t| ensures !Marked(t[i]) {
      assert t == [30] || t == [0x801E];
    }
    assert s[..0] == [] && Following(v, s, 0);
    NextKeyFollows(trie, v, s, 0, 30, ModMask(held), modcancel);
    TapGoesFirst(v, KeyTyped(trie, v, 30, held, modcancel, None), Coord(trie[s].row, trie[s].col));
  }

  /// A key is looked up in a sequence that is active or always on, and typed otherwise.
  lemma InactiveKeyIsTyped(trie: Trie, v: SeqValue, k: KeyCode, held: seq<KeyCode>, modcancel: bool, on: Option<(InputMode, u16)>)
    ensures v.active || on.Some? ==>
              KeyTyped(trie, v, k, held, modcancel, on) ==
              KeyTyped(trie, if v.active then v else Activated(v, on.value.0, on.value.1), k, held, modcancel, None)
    ensures !v.active && on.None? ==> KeyTyped(trie, v, k, held, modcancel, on) == v.(out := v.out + [PressKey(k)])
  {
  }

  // ---------------------------------------------------------------------------------------
  // What is typed and erased

  /// Each key is pressed and released before the next.
  lemma {:induction false} TapsInTurn(keys: seq<KeyCode>)
    ensures |Taps(keys)| == 2 * |keys|
    ensures forall i :: 0 <= i < |keys| ==> Taps(keys)[2 * i] == PressKey(keys[i]) && Taps(keys)[2 * i + 1] == ReleaseKey(keys[i])
    decreases |keys|
  {
    if keys != [] {
      TapsInTurn(keys[..|keys| - 1]);
    }
  }

  /// A key that has typed a character: no marker, no modifier and none of the codes that are ignored.
  predicate TypesCharacter(key: Key)
  {
    && key != 0x400
    && key % 0x400 !in {29, 42, 54, 56, 97, 100, 125, 126}
    && !(676 <= key % 0x400 <= 685)
  }

  ghost function Characters(s: Keys): set<nat>
  {
    set i: nat | i < |s| && TypesCharacter(s[i])
  }

  lemma {:induction false} ErasableAreCharacters(s: Keys)
    ensures ErasableIn(s) == |Characters(s)|
    decreases |s|
  {
    if s == [] {
      assert Characters(s) == {};
    } else {
      var n := |s| - 1;
      ErasableAreCharacters(s[..n]);
      assert s == s[..n] + [s[n]];
      assert Characters(s) == Characters(s[..n]) + if TypesCharacter(s[n]) then {n} else {};
      assert n !in Characters(s[..n]);
    }
  }

  ghost predicate Modifies(h: Held)
  {
    h.NormalKey? && h.key in {29, 97, 56, 100, 125, 126}
  }

  ghost function ModifiersAt(held: seq<Held>, n: nat): set<nat>
  {
    set j: nat | j < n && j < |held| && Modifies(held[j])
  }

  ghost function OthersAt(held: seq<Held>, n: nat): set<nat>
  {
    set j: nat | j < n && j < |held| && !Modifies(held[j])
  }

  ghost predicate Releases(out: seq<Out>, xs: seq<Held>)
  {
    |out| == |xs| && forall i :: 0 <= i < |xs| ==> xs[i].NormalKey? && out[i] == ReleaseKey(xs[i].key)
  }

  lemma ModifiersNext(held: seq<Held>, m: nat)
    requires m < |held|
    ensures ModifiersAt(held, m + 1) == ModifiersAt(held, m) + if Modifies(held[m]) then {m} else {}
    ensures OthersAt(held, m + 1) == OthersAt(held, m) + if Modifies(held[m]) then {} else {m}
  {
  }

  lemma {:induction false} ModsSoFar(held: seq<Held>, n: nat) returns (xs: seq<Held>)
    requires n <= |held|
    ensures Picks(held, ModifiersAt(held, n), xs) && Releases(WithoutMods(held[..n]).1, xs)
    decreases n
  {
    if n == 0 {
      xs := [];
      PicksNone(held);
      assert ModifiersAt(held, 0) == {};
    } else {
      var m := n - 1;
      xs := ModsSoFar(held, m);
      assert held[..n][..m] == held[..m] && held[..n][m] == held[m];
      PicksNext(held, m, ModifiersAt(held, m), xs, Modifies(held[m]));
      ModifiersNext(held, m);
      if Modifies(held[m]) {
        xs := xs + [held[m]];
      }
    }
  }

  lemma {:induction false} OthersSoFar(held: seq<Held>, n: nat)
    requires n <= |held|
    ensures Picks(held, OthersAt(held, n), WithoutMods(held[..n]).0)
    decreases n
  {
    if n == 0 {
      PicksNone(held);
      assert OthersAt(held, 0) == {};
    } else {
      var m := n - 1;
      OthersSoFar(held, m);
      assert held[..n][..m] == held[..m] && held[..n][m] == held[m];
      PicksNext(held, m, OthersAt(held, m), WithoutMods(held[..m]).0, !Modifies(held[m]));
      ModifiersNext(held, m);
    }
  }

  /// Before erasing, the modifiers that would change a backspace are released, in order, and no longer held.
  lemma ModifiersAreReleased(held: seq<Held>) returns (xs: seq<Held>)
    ensures Picks(held, ModifiersAt(held, |held|), xs) && Releases(WithoutMods(held).1, xs)
    ensures Picks(held, OthersAt(held, |held|), WithoutMods(held).0)
  {
    assert held[..|held|] == held;
    xs := ModsSoFar(held, |held|);
    OthersSoFar(held, |held|);
  }

  /// A key of the sequence.
  ghost predicate KeyOf(h: Held, s: Keys)
  {
    h.NormalKey? && exists i :: 0 <= i < |s| && s[i] != 0x400 && s[i] % 0x400 == h.key
  }

  ghost function NotOf(held: seq<Held>, s: Keys, n: nat): set<nat>
  {
    set j: nat | j < n && j < |held| && !KeyOf(held[j], s)
  }

  lemma NotOfNext(held: seq<Held>, s: Keys, m: nat)
    requires m < |held|
    ensures NotOf(held, s, m + 1) == NotOf(held, s, m) + if Matches(held[m], s) then {} else {m}
  {
    assert Matches(held[m], s) <==> KeyOf(held[m], s);
  }

  lemma {:induction false} LetGoSoFar(held: seq<Held>, s: Keys, n: nat)
    requires n <= |held|
    ensures Picks(held, NotOf(held, s, n), LetGo(held[..n], s))
    decreases n
  {
    if n == 0 {
      PicksNone(held);
      assert NotOf(held, s, 0) == {};
    } else {
      var m := n - 1;
      LetGoSoFar(held, s, m);
      assert held[..n][..m] == held[..m] && held[..n][m] == held[m];
      PicksNext(held, m, NotOf(held, s, m), LetGo(held[..m], s), !Matches(held[m], s));
      NotOfNext(held, s, m);
    }
  }

  /// The keys of a completed sequence are let go of, and nothing else.
  lemma KeysAreLetGo(held: seq<Held>, s: Keys)
    ensures Picks(held, NotOf(held, s, |held|), LetGo(held, s))
  {
    LetGoSoFar(held, s, |held|);
    assert held[..|held|] == held;
  }

  /// The presses as they are shown.
  function Shown(presses: seq<(KeyCode, ModBits)>): (r: seq<Out>)
    ensures |r| == |presses|
    ensures forall i :: 0 <= i < |r| ==> r[i] == PressKey(presses[i].0)
  {
    seq(|presses|, i requires 0 <= i < |presses| => PressKey(presses[i].0))
  }

  lemma NextKeyShows(trie: Trie, v: SeqValue, s: Keys, i: nat, press: (KeyCode, ModBits), modcancel: bool)
    requires NoOverlaps(trie) && s in trie && i < |s| && Following(v, s, i) && IsPressOf(press, s[i])
    requires forall j :: 0 <= j < |s| ==> s[..j] !in trie
    ensures var r := PressLogic(trie, v, press.0, press.1, modcancel);
            var shown := if v.mode.VisibleBackspaced? then v.out + [PressKey(press.0)] else v.out;
            && r.mode == v.mode && r.raw == v.raw + [press.0]
            && (i + 1 < |s| ==> r.out == shown && r.held == v.held && r.noerase == v.noerase)
            && (i + 1 == |s| ==>
                  var held := if v.mode.VisibleBackspaced? then WithoutMods(v.held).0 else v.held;
                  && r.held == LetGo(held, s)
                  && r.out == if v.mode.VisibleBackspaced? then Erased(v.(out := shown), s).out else v.out)
  {
    PushedIff(press, s[i]);
    assert s[..i] + [s[i]] == s[..i + 1];
    assert s[..i + 1] <= s && s[..|s|] == s;
    assert Known(trie, s[..i + 1]);
    OverlapFails(trie, s[..i], s[i]);
  }

  lemma ShownNext(out: seq<Out>, presses: seq<(KeyCode, ModBits)>, n: nat)
    requires n + 1 == |presses|
    ensures (out + Shown(presses[..n])) + [PressKey(presses[n].0)] == out + Shown(presses)
  {
  }

  /// The presses have been followed, and shown where typing is visible.
  ghost predicate ShownSoFar(v: SeqValue, r: SeqValue, s: Keys, presses: seq<(KeyCode, ModBits)>)
  {
    && Following(r, s, |presses|) && r.mode == v.mode && r.held == v.held && r.noerase == v.noerase
    && r.out == if v.mode.VisibleBackspaced? then v.out + Shown(presses) else v.out
  }

  lemma ShowsNext(trie: Trie, v: SeqValue, before: SeqValue, s: Keys, presses: seq<(KeyCode, ModBits)>, n: nat, modcancel: bool)
    returns (r: SeqValue)
    requires NoOverlaps(trie) && s in trie && NoShorter(trie, s)
    requires n + 1 == |presses| < |s| && IsPressOf(presses[n], s[n]) && ShownSoFar(v, before, s, presses[..n])
    ensures r == PressLogic(trie, before, presses[n].0, presses[n].1, modcancel) && ShownSoFar(v, r, s, presses)
  {
    r := PressLogic(trie, before, presses[n].0, presses[n].1, modcancel);
    NextKeyFollows(trie, before, s, n, presses[n].0, presses[n].1, modcancel);
    NextKeyShows(trie, before, s, n, presses[n], modcancel);
    ShownNext(v.out, presses, n);
  }

  ghost predicate NoShorter(trie: Trie, s: Keys)
  {
    forall j :: 0 <= j < |s| ==> s[..j] !in trie
  }

  ghost predicate ArePressesOf(presses: seq<(KeyCode, ModBits)>, s: Keys)
  {
    |presses| <= |s| && forall j :: 0 <= j < |presses| ==> IsPressOf(presses[j], s[j])
  }

  lemma TypeOneMore(trie: Trie, v: SeqValue, presses: seq<(KeyCode, ModBits)>, n: nat, modcancel: bool)
    requires n + 1 == |presses|
    ensures TypeAll(trie, v, presses, modcancel) ==
            PressLogic(trie, TypeAll(trie, v, presses[..n], modcancel), presses[n].0, presses[n].1, modcancel)
  {
  }

  lemma {:induction false} TypingShows(trie: Trie, v: SeqValue, s: Keys, presses: seq<(KeyCode, ModBits)>, modcancel: bool)
    returns (r: SeqValue)
    requires NoOverlaps(trie) && s in trie && Following(v, s, 0) && NoShorter(trie, s)
    requires |presses| < |s| && ArePressesOf(presses, s)
    ensures r == TypeAll(trie, v, presses, modcancel) && ShownSoFar(v, r, s, presses)
    decreases |presses|
  {
    if presses == [] {
      assert v.out + Shown(presses) == v.out;
      r := v;
    } else {
      var n := |presses| - 1;
      assert ArePressesOf(presses[..n], s);
      var before := TypingShows(trie, v, s, presses[..n], modcancel);
      r := ShowsNext(trie, v, before, s, presses, n, modcancel);
      TypeOneMore(trie, v, presses, n, modcancel);
    }
  }

  /// What typing a configured sequence leaves in the output: nothing where it is hidden; where it is visible,
  /// the keys typed, then the releases of the modifiers that would disturb, then a backspace for each
  /// character typed.
  lemma VisibleTypingIsErased(trie: Trie, v: SeqValue, mode: InputMode, timeout: u16, s: Keys, presses: seq<(KeyCode, ModBits)>,
                              modcancel: bool)
    returns (released: seq<Out>, xs: seq<Held>)
    requires NoOverlaps(trie) && s in trie && forall j :: 0 <= j < |s| ==> s[..j] !in trie
    requires |presses| == |s| > 0 && forall j :: 0 <= j < |presses| ==> IsPressOf(presses[j], s[j])
    ensures Picks(v.held, ModifiersAt(v.held, |v.held|), xs) && Releases(released, xs)
    ensures var r := TypeAll(trie, Activated(v, mode, timeout), presses, modcancel);
            r.out == if mode.VisibleBackspaced? then
                       v.out + Shown(presses) + released + Taps(Repeat(14, |Characters(s)|))
                     else v.out
  {
    var start, n := Activated(v, mode, timeout), |presses| - 1;
    assert Following(start, s, 0);
    var before := TypingShows(trie, start, s, presses[..n], modcancel);
    NextKeyShows(trie, before, s, n, presses[n], modcancel);
    ShownNext(v.out, presses, n);
    xs := ModifiersAreReleased(v.held);
    released := WithoutMods(v.held).1;
    ErasedOutput(before.(out := v.out + Shown(presses)), s);
  }

  lemma ErasedOutput(v: SeqValue, s: Keys)
    requires v.noerase == 0
    ensures Erased(v, s).out == v.out + WithoutMods(v.held).1 + Taps(Repeat(14, |Characters(s)|))
  {
    ErasableAreCharacters(s);
  }

  /// Where typing is visible, the press that completes a sequence is shown, and each character of the sequence
  /// is either erased or exempt; characters are erased only when no exemption is left.
  lemma CompletionErases(trie: Trie, v: SeqValue, k: KeyCode, mods: ModBits, modcancel: bool, s: Keys)
    returns (erased: nat, released: seq<Out>, xs: seq<Held>)
    requires v.mode.VisibleBackspaced? && CompletedBy(trie, v, k, mods, modcancel) == Some(s)
    ensures Picks(v.held, ModifiersAt(v.held, |v.held|), xs) && Releases(released, xs)
    ensures var r := PressLogic(trie, v, k, mods, modcancel);
            && r.out == v.out + [PressKey(k)] + released + Taps(Repeat(14, erased))
            && r.noerase <= v.noerase && erased + (v.noerase - r.noerase) == |Characters(s)|
            && (erased > 0 ==> r.noerase == 0)
  {
    xs := ModifiersAreReleased(v.held);
    released := WithoutMods(v.held).1;
    ErasableAreCharacters(s);
    var n := ErasableIn(s);
    erased := if n < v.noerase then 0 else n - v.noerase;
    var tracked := Settled(Noted(v, k), Tracking(trie, v, k, mods, modcancel));
    CompletingErases(trie, tracked, s);
  }

  lemma FinishingErases(v: SeqValue, ended: Keys, s: Keys, value: Value)
    requires v.mode.VisibleBackspaced?
    ensures Finished(v, s, value).out == Erased(v, s).out && Finished(v, s, value).noerase == Erased(v, s).noerase
    ensures Erased(v.(overlapped := ended), s) == Erased(v, s).(overlapped := ended)
  {
  }

  lemma CompletingErases(trie: Trie, v: SeqValue, s: Keys)
    requires v.mode.VisibleBackspaced? && Completed(trie, v.sequence, v.overlapped) == Some(s)
    ensures var r := Complete(trie, v);
            r.out == Erased(v, s).out && r.noerase == Erased(v, s).noerase
  {
    var ended := v.overlapped + [KEY_OVERLAP_MARKER];
    var w := if v.overlapped in trie then v else v.(overlapped := ended);
    FinishingErases(v, ended, s, trie[s]);
    FinishingErases(w, ended, s, trie[s]);
    assert Complete(trie, v) == Finished(w, s, trie[s]);
  }

  /// The tap goes in front of all that is queued; the last events of a full queue fall out, the very last first.
  lemma TapPushesOutLast(v: SeqValue, c: Coord)
    requires |v.queue| <= 32
    ensures var (r, n) := (TappedInFront(v, c), |v.queue|);
            && r.queue == [Press(c), Release(c)] + v.queue[..if n > 30 then 30 else n]
            && r.spilled == v.spilled + (if n == 32 then [v.queue[31], v.queue[30]] else if n == 31 then [v.queue[30]] else [])
  {
    var q := PushFront(v.queue, Release(c));
    assert PushFront(q, Press(c)) == [Press(c), Release(c)] + v.queue[..if |v.queue| > 30 then 30 else |v.queue|];
  }

  // ---------------------------------------------------------------------------------------
  // Running out of time

  ghost function Ticks(v: SeqValue, n: nat): (r: SeqValue)
  {
    if n == 0 then v else Timed(Ticks(v, n - 1))
  }

  /// The ticks up to the end: a counter of zero wraps first.
  function TimeLeft(v: SeqValue): nat
  {
    if v.ticksUntilTimeout == 0 then 0x1_0000 else v.ticksUntilTimeout
  }

  /// A sequence that nothing happens to stays active for exactly the ticks left, and then types the keys
  /// pressed if it has kept them back.
  lemma {:induction false} EndsInTime(v: SeqValue, n: nat)
    requires v.active
    ensures var r := Ticks(v, n);
            if n < TimeLeft(v) then r == v.(ticksUntilTimeout := (TimeLeft(v) - n) % 0x1_0000)
            else r == v.(ticksUntilTimeout := 0, active := false,
                         out := if v.mode.HiddenDelayType? then v.out + Taps(v.raw) else v.out)
    decreases n
  {
    if n > 0 {
      EndsInTime(v, n - 1);
    }
  }

  lemma CompletingKeepsTime(trie: Trie, v: SeqValue)
    ensures var r := Complete(trie, v);
            r.ticksUntilTimeout == v.ticksUntilTimeout && r.timeout == v.timeout && r.raw == v.raw && r.mode == v.mode
  {
  }

  lemma TrackingKeepsTime(v: SeqValue, t: Trackers)
    ensures var r := Settled(v, t);
            r.ticksUntilTimeout == v.ticksUntilTimeout && r.timeout == v.timeout && r.raw == v.raw && r.mode == v.mode
  {
  }

  /// Each press starts the time over and is noted.
  lemma PressesRestartTime(trie: Trie, v: SeqValue, k: KeyCode, mods: ModBits, modcancel: bool)
    ensures var r := PressLogic(trie, v, k, mods, modcancel);
            r.ticksUntilTimeout == v.timeout == r.timeout && r.raw == v.raw + [k] && r.mode == v.mode
  {
    var t := Tracking(trie, v, k, mods, modcancel);
    TrackingKeepsTime(Noted(v, k), t);
    CompletingKeepsTime(trie, Settled(Noted(v, k), t));
  }

  /// A sequence begins without keys and with the whole timeout.
  lemma BeginsWithWholeTime(v: SeqValue, mode: InputMode, timeout: u16)
    ensures var a := Activated(v, mode, timeout);
            a.active && a.raw == [] && TimeLeft(a) == (if timeout == 0 then 0x1_0000 else timeout) && a.mode == mode && a.out == v.out
  {
  }

  // ---------------------------------------------------------------------------------------
  // The trackers

  /// What the overlap tracker tries, in turn: to go on with the overlap, to start another, to end it with the
  /// key as it is, and to end it with the key without modifiers.
  function Attempts(s: Keys, k: Key): (r: seq<Keys>)
    ensures |r| == 4
  {
    [s + [0x400 + k % 0x400], s + [0x400, 0x400 + k % 0x400], s + [0x400, k], s + [0x400, k % 0x400]]
  }

  /// The first attempt that is known is kept; if none is, the tracker fails with the last.
  lemma OverlapKeepsFirstKnown(trie: Trie, s: Keys, k: Key) returns (i: nat)
    ensures var (r, tries) := (Overlap(trie, s, k), Attempts(s, k));
            && i <= 4 && (r.failed <==> i == 4)
            && (forall j :: 0 <= j < i ==> !Known(trie, tries[j]))
            && (i < 4 ==> Known(trie, tries[i]))
            && r.keys == tries[if i < 4 then i else 3]
  {
    assert s + [KEY_OVERLAP_MARKER] + [Overlapping(k)] == s + [0x400, 0x400 + k % 0x400];
    assert s + [KEY_OVERLAP_MARKER] + [k] == s + [0x400, k];
    assert s + [KEY_OVERLAP_MARKER] + [Bare(k)] == s + [0x400, k % 0x400];
    var tries := Attempts(s, k);
    i := if Known(trie, tries[0]) then 0 else if Known(trie, tries[1]) then 1 else if Known(trie, tries[2]) then 2
         else if Known(trie, tries[3]) then 3 else 4;
  }

  /// Both trackers follow their own keys unless one of them has failed, which then takes over those of the
  /// other; an overlap taken over is ended.
  lemma TrackersSettle(trie: Trie, t: Trackers, k: Key, modcancel: bool)
    ensures var (a, b) := (Standard(trie, t.sequence + [k], modcancel), Overlap(trie, t.overlapped, k));
            var r := Track(trie, t, k, modcancel);
            && (!a.failed ==> r.sequence == a.keys && !r.cancelled)
            && (!b.failed ==> r.overlapped == b.keys && !r.cancelled)
            && (!a.failed && b.failed ==> r.overlapped == a.keys)
            && (a.failed && !b.failed ==>
                  r.sequence == if b.keys != [] && b.keys[|b.keys| - 1] > 0x400 then b.keys + [0x400] else b.keys)
            && (a.failed && b.failed ==> r.overlapped == b.keys)
  {
  }

  ghost function NoMarkers(s: Keys): set<nat>
  {
    set i: nat | i < |s| && s[i] != 0x400
  }

  lemma {:induction false} CleanSnoc(s: Keys, k: Key, modcancel: bool)
    ensures Clean(s + [k], modcancel) == Clean(s, modcancel) + if k == 0x400 then [] else [CleanKey(k, modcancel)]
    decreases |s|
  {
    if s == [] {
      assert [] + [k] == [k] && [k][1..] == [] && [] + [CleanKey(k, modcancel)] == [CleanKey(k, modcancel)];
    } else {
      assert (s + [k])[0] == s[0] && (s + [k])[1..] == s[1..] + [k];
      CleanSnoc(s[1..], k, modcancel);
    }
  }

  ghost predicate AllCleaned(xs: Keys, r: Keys, modcancel: bool)
  {
    |xs| == |r| && forall i :: 0 <= i < |r| ==>
      r[i] == if modcancel then xs[i] % 0x400 else xs[i] - if xs[i] / 0x400 % 2 == 1 then 0x400 else 0
  }

  /// Cleaning leaves out the markers that stand alone, and takes marker or modifiers off each other key.
  lemma {:induction false} CleanedKeys(s: Keys, modcancel: bool) returns (xs: Keys)
    ensures Picks(s, NoMarkers(s), xs) && AllCleaned(xs, Clean(s, modcancel), modcancel)
    decreases |s|
  {
    if s == [] {
      xs := [];
      PicksNone(s);
      assert NoMarkers(s) == {};
    } else {
      var n := |s| - 1;
      xs := CleanedKeys(s[..n], modcancel);
      CleanSnoc(s[..n], s[n], modcancel);
      assert s == s[..n] + [s[n]];
      MarkersNext(s, n, xs);
      if s[n] != 0x400 {
        xs := xs + [s[n]];
      }
    }
  }

  lemma MarkersNext(s: Keys, n: nat, xs: Keys)
    requires n + 1 == |s| && Picks(s[..n], NoMarkers(s[..n]), xs)
    ensures Picks(s, NoMarkers(s), if s[n] != 0x400 then xs + [s[n]] else xs)
  {
    assert NoMarkers(s) == NoMarkers(s[..n]) + if s[n] != 0x400 then {n} else {};
    PicksWithin(s[..n], s, NoMarkers(s[..n]), xs);
    PicksNext(s, n, NoMarkers(s[..n]), xs, s[n] != 0x400);
  }

  // ---------------------------------------------------------------------------------------
  // Releasing the last key

  /// Without a completion the overlap is ended if that begins a configured sequence, and otherwise its keys
  /// are given up for those of the other tracker; nothing else changes.
  lemma ReleaseEndsOverlap(trie: Trie, v: SeqValue)
    requires v.active && v.overlapped + [0x400] !in trie
    ensures AllReleased(trie, v) ==
            v.(overlapped := if HasExtension(trie, v.overlapped + [0x400]) then v.overlapped + [0x400] else v.sequence)
  {
  }

  lemma InactiveIgnoresRelease(trie: Trie, v: SeqValue)
    requires !v.active
    ensures AllReleased(trie, v) == v && Timed(v) == v
  {
  }
}
