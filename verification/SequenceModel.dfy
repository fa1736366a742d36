/// Leader sequences: two trackers follow the keys pressed through the configured sequences, and
/// give up part of what they hold rather than fail (src/kanata/sequences.rs,
/// parser/src/sequences.rs).

module SequenceModel {
  import opened Types

  /// A key of a sequence: the key code in the low ten bits, the overlap marker above them, then the
  /// bits of the modifiers.
  type Key = u16
  type Keys = seq<Key>

  type KeyCode = n: nat | n < 0x400
  type ModBits = n: u16 | n % 0x400 == 0

  /// The virtual key that a sequence taps.
  datatype Value = Value(row: nat, col: nat)

  type Trie = map<Keys, Value>

  datatype Lookup = NotInTrie | InTrie | HasValue(value: Value)

  const KEY_OVERLAP_MARKER: Key := 0x0400

  const LCTRL: KeyCode := 29
  const LSHIFT: KeyCode := 42
  const RSHIFT: KeyCode := 54
  const LALT: KeyCode := 56
  const RCTRL: KeyCode := 97
  const RALT: KeyCode := 100
  const LGUI: KeyCode := 125
  const RGUI: KeyCode := 126
  const ERROR_ROLL_OVER: KeyCode := 251
  const BACKSPACE: KeyCode := 14
  const KEY_IGNORE_MIN: KeyCode := 0x2a4
  const KEY_IGNORE_MAX: KeyCode := 0x2ad

  function Bit(on: bool, bit: ModBits): ModBits
  {
    if on then bit else 0
  }

  /// The bits that `mod_mask_for_keycode` gives for the keys held, together.
  function ModMask(held: seq<KeyCode>): (mods: ModBits)
  {
    Bit(LSHIFT in held || RSHIFT in held, 0x8000) + Bit(LCTRL in held || RCTRL in held, 0x4000)
    + Bit(LALT in held, 0x2000) + Bit(RALT in held, 0x1000) + Bit(LGUI in held || RGUI in held, 0x0800)
    + Bit(ERROR_ROLL_OVER in held, KEY_OVERLAP_MARKER)
  }

  /// The right-hand modifiers count as the left-hand ones, but for the right alt key.
  function BaseKey(k: KeyCode): KeyCode
  {
    if k == RSHIFT then LSHIFT else if k == RGUI then LGUI else if k == RCTRL then LCTRL else k
  }

  /// The key code, without marker and modifiers.
  function Bare(k: Key): KeyCode
  {
    k % 0x400
  }

  function WithoutMarker(k: Key): Key
  {
    if k / 0x400 % 2 == 1 then k - 0x400 else k
  }

  predicate HasExtension(trie: Trie, s: Keys)
  {
    exists k :: k in trie && s <= k
  }

  /// `get_or_descendant_exists`.
  function Find(trie: Trie, s: Keys): (r: Lookup)
  {
    if s in trie then HasValue(trie[s]) else if HasExtension(trie, s) then InTrie else NotInTrie
  }

  predicate Known(trie: Trie, s: Keys)
  {
    !Find(trie, s).NotInTrie?
  }

  // ---------------------------------------------------------------------------------------
  // The standard tracker

  /// What cleaning makes of one key.
  function CleanKey(k: Key, modcancel: bool): Key
  {
    if modcancel then Bare(k) else WithoutMarker(k)
  }

  /// Bare markers are dropped, bits are masked.
  function Clean(s: Keys, modcancel: bool): (r: Keys)
  {
    if s == [] then []
    else if s[0] == KEY_OVERLAP_MARKER then Clean(s[1..], modcancel)
    else [CleanKey(s[0], modcancel)] + Clean(s[1..], modcancel)
  }

  /// The keys before `i` as they are, the rest cleaned.
  function CleanedFrom(s: Keys, i: nat, modcancel: bool): (r: Keys)
    requires i <= |s|
  {
    s[..i] + Clean(s[i..], modcancel)
  }

  /// The largest `i` below `n` that makes a known sequence.
  ghost function LargestCut(trie: Trie, s: Keys, n: nat, modcancel: bool): (r: Option<nat>)
    requires n <= |s|
    ensures r.Some? ==> r.value < n && Known(trie, CleanedFrom(s, r.value, modcancel))
    ensures r.Some? ==> forall j :: r.value < j < n ==> !Known(trie, CleanedFrom(s, j, modcancel))
    ensures r.None? ==> forall j :: 0 <= j < n ==> !Known(trie, CleanedFrom(s, j, modcancel))
  {
    if n == 0 then None
    else if Known(trie, CleanedFrom(s, n - 1, modcancel)) then Some(n - 1)
    else LargestCut(trie, s, n - 1, modcancel)
  }

  /// The number of keys to drop in front until what is left is known or empty.
  ghost function DropUntilKnown(trie: Trie, s: Keys): (k: nat)
    ensures k <= |s|
    ensures k < |s| ==> Known(trie, s[k..])
    ensures forall j :: 0 <= j < k ==> !Known(trie, s[j..])
    decreases |s|
  {
    if s == [] || Known(trie, s) then 0
    else
      var k := 1 + DropUntilKnown(trie, s[1..]);
      assert forall j :: 1 <= j <= |s| ==> s[j..] == s[1..][j - 1..];
      k
  }

  /// A tracker after a key, and whether it failed.
  datatype Tracked = Tracked(keys: Keys, failed: bool)

  ghost function Standard(trie: Trie, s: Keys, modcancel: bool): (r: Tracked)
  {
    if Known(trie, s) then Tracked(s, false) else
    match LargestCut(trie, s, |s|, modcancel)
    case Some(i) => Tracked(CleanedFrom(s, i, modcancel), false)
    case None => Tracked(Clean(s, modcancel), true)
  }

  // ---------------------------------------------------------------------------------------
  // The overlap tracker

  function Overlapping(k: Key): Key
  {
    Bare(k) + KEY_OVERLAP_MARKER
  }

  /// Tries to go on overlapping, to start another overlap, to end it, and to ignore the modifiers.
  ghost function Overlap(trie: Trie, s: Keys, k: Key): (r: Tracked)
    ensures !r.failed <==> Known(trie, r.keys)
  {
    var again := s + [KEY_OVERLAP_MARKER];
    var bare := Bare(k);
    if Known(trie, s + [Overlapping(k)]) then Tracked(s + [Overlapping(k)], false)
    else if Known(trie, again + [Overlapping(k)]) then Tracked(again + [Overlapping(k)], false)
    else if Known(trie, again + [k]) then Tracked(again + [k], false)
    else if bare == k then Tracked(again + [k], true)
    else Tracked(again + [bare], !Known(trie, again + [bare]))
  }

  // ---------------------------------------------------------------------------------------
  // Both trackers

  datatype Trackers = Trackers(sequence: Keys, overlapped: Keys, cancelled: bool)

  function EndOverlap(s: Keys): Keys
  {
    if s != [] && s[|s| - 1] != KEY_OVERLAP_MARKER && s[|s| - 1] >= KEY_OVERLAP_MARKER then s + [KEY_OVERLAP_MARKER] else s
  }

  /// A tracker that failed takes over from the other; when both failed, keys are dropped in front.
  ghost function Settle(trie: Trie, standard: Tracked, overlap: Tracked): (r: Trackers)
  {
    if !standard.failed && !overlap.failed then Trackers(standard.keys, overlap.keys, false)
    else if !standard.failed then Trackers(standard.keys, standard.keys, false)
    else if !overlap.failed then Trackers(EndOverlap(overlap.keys), overlap.keys, false)
    else
      var left := standard.keys[DropUntilKnown(trie, standard.keys)..];
      Trackers(left, overlap.keys, left == [])
  }

  ghost function Track(trie: Trie, t: Trackers, k: Key, modcancel: bool): (r: Trackers)
  {
    Settle(trie, Standard(trie, t.sequence + [k], modcancel), Overlap(trie, t.overlapped, k))
  }

  // ---------------------------------------------------------------------------------------
  // Effects

  datatype InputMode = HiddenSuppressed | HiddenDelayType | VisibleBackspaced

  datatype Out = PressKey(key: KeyCode) | ReleaseKey(key: KeyCode)

  /// The states of the layout that matter here.
  datatype Held = NormalKey(key: KeyCode) | OtherState(id: nat)

  function Taps(keys: seq<KeyCode>): (r: seq<Out>)
  {
    if keys == [] then [] else Taps(keys[..|keys| - 1]) + [PressKey(keys[|keys| - 1]), ReleaseKey(keys[|keys| - 1])]
  }

  function Repeat(k: KeyCode, n: nat): seq<KeyCode>
  {
    seq(n, i => k)
  }

  predicate Erasable(k: Key)
  {
    var bare := Bare(k);
    && k != KEY_OVERLAP_MARKER
    && bare !in [LSHIFT, RSHIFT, LGUI, RGUI, LCTRL, RCTRL, LALT, RALT]
    && !(KEY_IGNORE_MIN <= bare <= KEY_IGNORE_MAX)
  }

  /// The number of characters a sequence has typed.
  function ErasableIn(s: Keys): (n: nat)
  {
    if s == [] then 0 else ErasableIn(s[..|s| - 1]) + if Erasable(s[|s| - 1]) then 1 else 0
  }

  /// Modifiers that backspacing must not meet.
  predicate Disturbs(k: KeyCode)
  {
    k in [LCTRL, RCTRL, LALT, RALT, LGUI, RGUI]
  }

  function WithoutMods(held: seq<Held>): (r: (seq<Held>, seq<Out>))
  {
    if held == [] then ([], []) else
    var n := |held| - 1;
    var (kept, out) := WithoutMods(held[..n]);
    if held[n].NormalKey? && Disturbs(held[n].key) then (kept, out + [ReleaseKey(held[n].key)])
    else (kept + [held[n]], out)
  }

  predicate Matches(h: Held, s: Keys)
  {
    h.NormalKey? && exists i :: 0 <= i < |s| && s[i] != KEY_OVERLAP_MARKER && Bare(s[i]) == h.key
  }

  /// The states left when the keys of a sequence are let go of.
  function LetGo(held: seq<Held>, s: Keys): (r: seq<Held>)
  {
    if held == [] then [] else
    var n := |held| - 1;
    if Matches(held[n], s) then LetGo(held[..n], s) else LetGo(held[..n], s) + [held[n]]
  }

  const QUEUE_SIZE := 32

  /// An event is put in front of the layout's queue, and the last one falls out of a full queue.
  function PushFront(q: seq<Event>, e: Event): (r: seq<Event>)
  {
    if |q| < QUEUE_SIZE then [e] + q else [e] + q[..|q| - 1]
  }

  function FallsOut(q: seq<Event>): (r: seq<Event>)
  {
    if |q| < QUEUE_SIZE then [] else [q[|q| - 1]]
  }

  // ---------------------------------------------------------------------------------------
  // The whole state

  datatype SeqValue = SeqValue(
    raw: seq<KeyCode>,
    sequence: Keys,
    overlapped: Keys,
    mode: InputMode,
    ticksUntilTimeout: u16,
    timeout: u16,
    active: bool,
    noerase: u16,
    out: seq<Out>,
    held: seq<Held>,
    queue: seq<Event>,
    spilled: seq<Event>)

  /// `activate`.
  function Activated(v: SeqValue, mode: InputMode, timeout: u16): SeqValue
  {
    v.(raw := [], sequence := [], overlapped := [], mode := mode, ticksUntilTimeout := timeout, timeout := timeout,
       active := true, noerase := 0)
  }

  /// `cancel_sequence`.
  function Cancelled(v: SeqValue): SeqValue
  {
    v.(active := false, out := if v.mode.HiddenDelayType? then v.out + Taps(v.raw) else v.out)
  }

  /// Erases what the keys of a sequence have typed, but for what is exempt.
  function Erased(v: SeqValue, s: Keys): SeqValue
  {
    var (held, released) := WithoutMods(v.held);
    var n := ErasableIn(s);
    v.(held := held,
       out := v.out + released + Taps(Repeat(BACKSPACE, if n < v.noerase then 0 else n - v.noerase)),
       noerase := if n < v.noerase then v.noerase - n else 0)
  }

  /// The release and then the press go to the front of the queue; what falls out is `spilled`.
  function TappedInFront(v: SeqValue, c: Coord): (r: SeqValue)
  {
    var q := PushFront(v.queue, Release(c));
    v.(queue := PushFront(q, Press(c)), spilled := v.spilled + FallsOut(v.queue) + FallsOut(q))
  }

  /// `do_successful_sequence_termination`: the keys are let go of and the virtual key is tapped
  /// before anything else that is queued.
  function Finished(v: SeqValue, s: Keys, value: Value): SeqValue
  {
    var v1 := if v.mode.VisibleBackspaced? then Erased(v, s) else v;
    var c := Coord(value.row, value.col);
    TappedInFront(v1.(active := false, held := LetGo(v1.held, s)), c)
  }

  function Pushed(k: KeyCode, mods: ModBits): Key
  {
    BaseKey(k) + mods
  }

  ghost function Tracking(trie: Trie, v: SeqValue, k: KeyCode, mods: ModBits, modcancel: bool): (t: Trackers)
  {
    Track(trie, Trackers(v.sequence, v.overlapped, false), Pushed(k, mods), modcancel)
  }

  /// `do_sequence_press_logic`.
  ghost function PressLogic(trie: Trie, v: SeqValue, k: KeyCode, mods: ModBits, modcancel: bool): (r: SeqValue)
  {
    Complete(trie, Settled(Noted(v, k), Tracking(trie, v, k, mods, modcancel)))
  }

  /// What `handle_keystate_changes` does with a key that is newly active among `cur`; a sequence may be
  /// begun by any key.
  ghost function KeyTyped(trie: Trie, v: SeqValue, k: KeyCode, cur: seq<KeyCode>, modcancel: bool,
                          alwaysOn: Option<(InputMode, u16)>): (r: SeqValue)
  {
    var begun := if alwaysOn.Some? && !v.active then Activated(v, alwaysOn.value.0, alwaysOn.value.1) else v;
    if begun.active then PressLogic(trie, begun, k, ModMask(cur), modcancel)
    else begun.(out := begun.out + [PressKey(k)])
  }

  function Noted(v: SeqValue, k: KeyCode): (r: SeqValue)
  {
    v.(ticksUntilTimeout := v.timeout, raw := v.raw + [k],
       out := if v.mode.VisibleBackspaced? then v.out + [PressKey(k)] else v.out)
  }

  function Settled(v: SeqValue, t: Trackers): (r: SeqValue)
  {
    var v1 := v.(sequence := t.sequence, overlapped := t.overlapped);
    if t.cancelled then Cancelled(v1) else v1
  }

  function Complete(trie: Trie, v: SeqValue): (r: SeqValue)
  {
    var ended := v.overlapped + [KEY_OVERLAP_MARKER];
    if v.overlapped in trie then Finished(v, v.overlapped, trie[v.overlapped])
    else if v.sequence !in trie then v
    else if ended in trie then Finished(v.(overlapped := ended), ended, trie[ended])
    else Finished(v.(overlapped := ended), v.sequence, trie[v.sequence])
  }

  /// What `handle_keystate_changes` does when the last key has been released.
  function AllReleased(trie: Trie, v: SeqValue): (r: SeqValue)
  {
    if !v.active then v else
    var ended := v.overlapped + [KEY_OVERLAP_MARKER];
    match Find(trie, ended)
    case HasValue(value) => Finished(v.(overlapped := ended), ended, value)
    case NotInTrie => v.(overlapped := v.sequence)
    case InTrie => v.(overlapped := ended)
  }

  /// `tick_sequence_state`: an active sequence ends when its time runs out; a timeout of zero wraps.
  function Timed(v: SeqValue): (r: SeqValue)
  {
    if !v.active then v
    else if v.ticksUntilTimeout == 1 then Cancelled(v.(ticksUntilTimeout := 0))
    else v.(ticksUntilTimeout := if v.ticksUntilTimeout == 0 then U16_MAX else v.ticksUntilTimeout - 1)
  }
}
