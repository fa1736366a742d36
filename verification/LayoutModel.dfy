/// The keyberon layout as a state machine: what one key event, one action and one tick do to the
/// held states, the waiting hold-taps, the one-shot keys and the event queue
/// (`Layout` and `OneShotState` of keyberon/src/layout.rs).

module LayoutModel {
  import opened Types
  import opened HoldTap

  datatype OneShotEndConfig =
    | EndOnFirstPress
    | EndOnFirstPressOrRepress
    | EndOnFirstRelease
    | EndOnFirstReleaseOrRepress

  datatype Action =
    | NoOp
    | Trans
    | KeyCode(keycode: nat)
    | MultipleKeyCodes(keycodes: seq<nat>)
    | Layer(layer: nat)
    | MultipleActions(actions: seq<Action>)
    | HoldTapAction(timeout: u16, hold: Action, tap: Action, timeoutAction: Action,
                    config: HoldTapConfig, tapHoldInterval: u16)
    | OneShot(action: Action, oneshotTimeout: u16, endConfig: OneShotEndConfig)
    | OneShotIgnoreEventsTicks(ignoreTicks: u16)

  /// The actions of the physical source keys.
  type SourceAction = a: Action | a.NoOp? || a.KeyCode? witness NoOp

  datatype Config = Config(
    layers: seq<Coord -> Action>,
    sourceKeys: nat -> SourceAction,
    defaultLayer: nat,
    transResolutionV2: bool,
    delegateToFirstLayer: bool,
    quickTapHoldTimeout: bool,
    pauseDelay: u16)

  /// What a key currently contributes to the output.
  datatype KeyState =
    | NormalKey(keycode: nat, coord: Coord, clearOnNextAction: bool)
    | LayerModifier(layer: nat, coord: Coord)
    | NoOpInput(coord: Coord)

  datatype Waiting = Waiting(timer: Timer, hold: Action, tap: Action, timeoutAction: Action, layerStack: seq<nat>)

  /// The states that a one-shot keeps after its key is released.
  datatype Retainable = RetainKey(coord: Coord, keycode: nat) | RetainLayer(coord: Coord, layer: nat)

  datatype OneShotValue = OneShotValue(
    keys: seq<Coord>,
    released: seq<Coord>,
    retained: seq<Retainable>,
    otherPressed: seq<Coord>,
    timeout: u16,
    endConfig: OneShotEndConfig,
    releaseOnNextTick: bool,
    pauseTicks: u16,
    ignoreTicks: u16)

  /// Only real keys are remembered as the last one pressed.
  type RealCoord = c: Coord | c.row == 0 witness Coord(0, 0)

  datatype LayoutValue = LayoutValue(
    states: seq<KeyState>,
    waiting: Option<Waiting>,
    extra: seq<Waiting>,
    queue: seq<Queued>,
    oneshot: OneShotValue,
    lastPress: RealCoord,
    tapHoldTimeout: u16)

  const MAX_STATES := 64
  const QUEUE_SIZE := 32
  const EXTRA_WAITING_LEN := 8
  const ONE_SHOT_MAX_ACTIVE := 16
  const MAX_ACTIVE_LAYERS := 12
  const TRIGGER_TAPHOLD_COORD := Coord(0, 0)

  const INITIAL_ONE_SHOT := OneShotValue([], [], [], [], 0, EndOnFirstPress, false, 0, 0)
  const INITIAL := LayoutValue([], None, [], [], INITIAL_ONE_SHOT, Coord(0, 0), 0)

  // ---------------------------------------------------------------------------------------
  // Bounded collections

  /// The elements of `s` that satisfy `keep`, in order.
  ghost function Retain<T(!new)>(s: seq<T>, keep: T -> bool): (r: seq<T>)
    ensures |r| <= |s|
    ensures forall x :: x in r <==> x in s && keep(x)
  {
    if s == [] then [] else
    var n := |s| - 1;
    assert s == s[..n] + [s[n]];
    Retain(s[..n], keep) + if keep(s[n]) then [s[n]] else []
  }

  /// A push onto a ring that drops its oldest element when it holds `cap` already.
  ghost function PushRing<T(!new)>(s: seq<T>, x: T, cap: nat): (r: seq<T>)
    ensures x in r
    ensures forall y :: y in r ==> y in s || y == x
    ensures forall y :: y in s ==> y in r || (|s| >= cap && |s| > 0 && y == s[0])
  {
    if |s| >= cap && |s| > 0 then s[1..] + [x] else s + [x]
  }

  function RemoveAt<T>(s: seq<T>, i: nat): (r: seq<T>)
    requires i < |s|
    ensures |r| == |s| - 1
    ensures forall k :: 0 <= k < |r| ==> r[k] == s[if k < i then k else k + 1]
  {
    s[..i] + s[i + 1..]
  }

  /// A push onto a vector that ignores the element when it is full.
  function PushState(states: seq<KeyState>, x: KeyState): (r: seq<KeyState>)
  {
    if |states| < MAX_STATES then states + [x] else states
  }

  // ---------------------------------------------------------------------------------------
  // One-shot keys

  ghost function HandleOtherPress(o: OneShotValue, c: Coord, pauseDelay: u16): (r: OneShotValue)
  {
    if o.keys == [] || o.ignoreTicks > 0 then o
    else if o.endConfig.EndOnFirstPress? || o.endConfig.EndOnFirstPressOrRepress? then
      o.(timeout := if pauseDelay <= o.timeout then pauseDelay else o.timeout, pauseTicks := pauseDelay)
    else o.(otherPressed := PushRing(o.otherPressed, c, ONE_SHOT_MAX_ACTIVE))
  }

  ghost function Without(cs: seq<Coord>, c: Coord): seq<Coord>
  {
    Retain(cs, x => x != c)
  }

  ghost function HandleOneShotPress(o: OneShotValue, c: Coord): (r: OneShotValue)
  {
    if o.keys == [] || o.ignoreTicks > 0 then o
    else
      var repress := o.endConfig.EndOnFirstReleaseOrRepress? || o.endConfig.EndOnFirstPressOrRepress?;
      o.(releaseOnNextTick := o.releaseOnNextTick || (repress && c in o.keys),
         released := Without(o.released, c))
  }

  ghost function AddRetained(o: OneShotValue, r: Retainable): OneShotValue
  {
    if r in o.retained then o else o.(retained := PushRing(o.retained, r, ONE_SHOT_MAX_ACTIVE))
  }

  ghost function AddRetainedKeys(o: OneShotValue, c: Coord, keycodes: seq<nat>): OneShotValue
    decreases |keycodes|
  {
    if keycodes == [] then o
    else AddRetainedKeys(AddRetained(o, RetainKey(c, keycodes[0])), c, keycodes[1..])
  }

  /// A tick of the one-shot timer and, when it ends, the keys whose release was held back.
  ghost function TickOneShot(o: OneShotValue): (r: (OneShotValue, seq<Coord>))
  {
    if o.keys == [] then (o, []) else
    var o1 := o.(ignoreTicks := SatSub(o.ignoreTicks, 1), timeout := SatSub(o.timeout, 1));
    if o1.releaseOnNextTick || o1.timeout == 0 then
      (o1.(releaseOnNextTick := false, timeout := 0, pauseTicks := 0, ignoreTicks := 0,
           keys := [], otherPressed := [], retained := [], released := []), o1.released)
    else (o1, [])
  }

  // ---------------------------------------------------------------------------------------
  // Layers

  ghost function HeldLayers(states: seq<KeyState>): (r: seq<nat>)
    ensures |r| <= |states|
  {
    if states == [] then []
    else (if states[|states| - 1].LayerModifier? then [states[|states| - 1].layer] else []) +
         HeldLayers(states[..|states| - 1])
  }

  ghost function CurrentLayer(cfg: Config, states: seq<KeyState>): nat
  {
    var held := HeldLayers(states);
    if held == [] then cfg.defaultLayer else held[0]
  }

  /// A push onto a layer stack, ignored when it is full.
  function PushLayer(stack: seq<nat>, layer: nat): (r: seq<nat>)
  {
    if |stack| < MAX_ACTIVE_LAYERS then stack + [layer] else stack
  }

  /// The layers that are held, latest first. The original panics when there are more than twelve.
  ghost function HeldStack(states: seq<KeyState>): (r: seq<nat>)
    ensures |r| <= MAX_ACTIVE_LAYERS
  {
    var held := HeldLayers(states);
    if |held| <= MAX_ACTIVE_LAYERS then held else held[..MAX_ACTIVE_LAYERS]
  }

  /// The layers in which a transparent action is looked up, first to last.
  ghost function LayerOrder(cfg: Config, states: seq<KeyState>): (r: seq<nat>)
    ensures |r| <= MAX_ACTIVE_LAYERS
  {
    var current := CurrentLayer(cfg, states);
    if cfg.transResolutionV2 then
      var stack := PushLayer(HeldStack(states), cfg.defaultLayer);
      if cfg.delegateToFirstLayer && current != 0 && cfg.defaultLayer != 0 then PushLayer(stack, 0) else stack
    else [current] + if cfg.delegateToFirstLayer && current != 0 then [0] else []
  }

  function ActionAt(cfg: Config, layer: nat, c: Coord): Action
  {
    if layer < |cfg.layers| then cfg.layers[layer](c) else NoOp
  }

  /// The first action of the stack that is not transparent, with the layers below it.
  function ResolveCoord(cfg: Config, c: Coord, stack: seq<nat>): (r: (Action, seq<nat>))
    ensures !r.0.Trans?
    ensures |r.1| < |stack| || (r.1 == [] && (r.0.NoOp? || r.0.KeyCode?))
  {
    if stack == [] then (if c.row == 0 then cfg.sourceKeys(c.col) else NoOp, [])
    else if ActionAt(cfg, stack[0], c).Trans? then ResolveCoord(cfg, c, stack[1..])
    else (ActionAt(cfg, stack[0], c), stack[1..])
  }

  // ---------------------------------------------------------------------------------------
  // Actions

  ghost function Flagged(states: seq<KeyState>): (n: nat)
    ensures n <= |states|
  {
    if states == [] then 0
    else Flagged(states[..|states| - 1]) + if Clears(states[|states| - 1]) then 1 else 0
  }

  predicate Clears(s: KeyState)
  {
    s.NormalKey? && s.clearOnNextAction
  }

  /// What happens before any action: the tap-hold interval ends when another real key acts, and
  /// output chords are cleared, each pausing input for two ticks.
  ghost function BeforeAction(s: LayoutValue, c: Coord): (r: LayoutValue)
  {
    s.(tapHoldTimeout := if s.lastPress != c && c.row == 0 then 0 else s.tapHoldTimeout,
       oneshot := s.oneshot.(pauseTicks := WrapAdd(s.oneshot.pauseTicks, 2 * Flagged(s.states))),
       states := Unflagged(s.states))
  }

  ghost function Unflagged(states: seq<KeyState>): seq<KeyState>
  {
    Retain(states, x => !Clears(x))
  }

  ghost function UpdateLastPress(s: LayoutValue, c: Coord): LayoutValue
  {
    if c.row == 0 then s.(lastPress := c) else s
  }

  ghost function OtherPress(cfg: Config, s: LayoutValue, c: Coord): LayoutValue
  {
    s.(oneshot := HandleOtherPress(s.oneshot, c, cfg.pauseDelay))
  }

  ghost function PushKeys(states: seq<KeyState>, keycodes: seq<nat>, c: Coord, clear: bool): seq<KeyState>
    decreases |keycodes|
  {
    if keycodes == [] then states
    else PushKeys(PushState(states, NormalKey(keycodes[0], c, clear)), keycodes[1..], c, clear)
  }

  /// An event joins the queue. The release that an action may send joins it whether or not it is
  /// full; `OneShotRoom` says when it does not come to that.
  function Enqueue(s: LayoutValue, e: Event): LayoutValue
  {
    s.(queue := s.queue + [Queued(e, 0)])
  }

  /// The actions that contain no other action.
  ghost function PlainAction(cfg: Config, s: LayoutValue, a: Action, c: Coord, isOneShot: bool): (r: LayoutValue)
  {
    match a
    case NoOp =>
      var s1 := if !isOneShot && c != TRIGGER_TAPHOLD_COORD then OtherPress(cfg, s, c) else s;
      s1.(states := PushState(s1.states, NoOpInput(c)))
    case KeyCode(kc) =>
      var s1 := UpdateLastPress(s, c);
      var s2 := s1.(states := PushState(s1.states, NormalKey(kc, c, false)));
      if isOneShot then s2.(oneshot := AddRetained(s2.oneshot, RetainKey(c, kc))) else OtherPress(cfg, s2, c)
    case MultipleKeyCodes(kcs) =>
      var s1 := UpdateLastPress(s, c);
      var s2 := s1.(states := PushKeys(s1.states, kcs, c, !isOneShot));
      if isOneShot then s2.(oneshot := AddRetainedKeys(s2.oneshot, c, kcs)) else OtherPress(cfg, s2, c)
    case Layer(l) =>
      var s1 := UpdateLastPress(s, c);
      var s2 := s1.(states := PushState(s1.states, LayerModifier(l, c)));
      if isOneShot then s2.(oneshot := AddRetained(s2.oneshot, RetainLayer(c, l))) else OtherPress(cfg, s2, c)
    case OneShotIgnoreEventsTicks(n) =>
      var s1 := UpdateLastPress(s, c);
      s1.(oneshot := s1.oneshot.(ignoreTicks := n))
    case _ => s
  }

  /// `action` performed for the key at `c`; a transparent one is first resolved in `stack`.
  ghost function DoAction(cfg: Config, s: LayoutValue, action: Action, c: Coord, delay: u16,
                          isOneShot: bool, stack: seq<nat>): (r: LayoutValue)
    decreases |stack|, action, 1
  {
    var (a, rest) := if action.Trans? then ResolveCoord(cfg, c, stack) else (action, stack);
    var s1 := BeforeAction(s, c);
    match a
    case MultipleActions(acts) =>
      DoActions(cfg, UpdateLastPress(s1, c), acts, c, delay, isOneShot, rest)
    case HoldTapAction(_, _, _, _, _, _) => HoldTapBody(cfg, s1, a, c, delay, isOneShot, rest)
    case OneShot(inner, t, endConfig) =>
      ActivateOneShot(DoAction(cfg, UpdateLastPress(s1, c), inner, c, delay, true, []), c, t, endConfig)
    case _ => PlainAction(cfg, s1, a, c, isOneShot)
  }

  /// A hold-tap starts a wait, or taps at once when it is pressed again within its interval.
  ghost function HoldTapBody(cfg: Config, s: LayoutValue, a: Action, c: Coord, delay: u16,
                             isOneShot: bool, stack: seq<nat>): (r: LayoutValue)
    requires a.HoldTapAction?
    decreases |stack|, a, 0
  {
    if a.tapHoldInterval == 0 || c != s.lastPress || s.tapHoldTimeout == 0 then
      StartWaiting(s, NewWait(cfg, a, c, delay, stack), a.tapHoldInterval)
    else
      UpdateLastPress(DoAction(cfg, s.(tapHoldTimeout := 0), a.tap, c, delay, isOneShot, stack), c)
  }

  function NewWait(cfg: Config, a: Action, c: Coord, delay: u16, stack: seq<nat>): (w: Waiting)
    requires a.HoldTapAction?
  {
    Waiting(StartTimer(c, a.timeout, delay, cfg.quickTapHoldTimeout, a.config), a.hold, a.tap, a.timeoutAction, stack)
  }

  ghost function DoActions(cfg: Config, s: LayoutValue, acts: seq<Action>, c: Coord, delay: u16,
                           isOneShot: bool, stack: seq<nat>): (r: LayoutValue)
    decreases |stack|, acts, 0
  {
    if acts == [] then s
    else DoActions(cfg, DoAction(cfg, s, acts[0], c, delay, isOneShot, stack), acts[1..], c, delay, isOneShot, stack)
  }

  ghost function StartWaiting(s: LayoutValue, w: Waiting, interval: u16): LayoutValue
  {
    var s1 := UpdateLastPress(s.(tapHoldTimeout := interval), w.timer.coord);
    if s.waiting.Some? then s1.(extra := PushRing(s.extra, w, EXTRA_WAITING_LEN)) else s1.(waiting := Some(w))
  }

  ghost function ActivateOneShot(s: LayoutValue, c: Coord, t: u16, endConfig: OneShotEndConfig): LayoutValue
  {
    var o := HandleOneShotPress(s.oneshot, c).(timeout := t, endConfig := endConfig);
    var s1 := s.(oneshot := o.(keys := PushRing(o.keys, c, ONE_SHOT_MAX_ACTIVE)));
    if |o.keys| >= ONE_SHOT_MAX_ACTIVE then Enqueue(s1, Release(o.keys[0])) else s1
  }

  // ---------------------------------------------------------------------------------------
  // Events leaving the queue

  predicate SurvivesRelease(x: KeyState, c: Coord, retained: seq<Retainable>)
  {
    || x.coord != c
    || (x.NormalKey? && RetainKey(c, x.keycode) in retained)
    || (x.LayerModifier? && RetainLayer(c, x.layer) in retained)
  }

  ghost function Survivors(states: seq<KeyState>, c: Coord, retained: seq<Retainable>): seq<KeyState>
  {
    Retain(states, x => SurvivesRelease(x, c, retained))
  }

  ghost function DropCoord(states: seq<KeyState>, c: Coord): seq<KeyState>
  {
    Retain(states, (x: KeyState) => x.coord != c)
  }

  ghost function HandleRelease(s: LayoutValue, c: Coord): (r: LayoutValue)
  {
    var o := s.oneshot;
    if c !in o.keys then
      var ends := o.keys != [] && (o.endConfig.EndOnFirstRelease? || o.endConfig.EndOnFirstReleaseOrRepress?) &&
                  c in o.otherPressed;
      s.(oneshot := o.(releaseOnNextTick := o.releaseOnNextTick || ends), states := DropCoord(s.states, c))
    else
      var kept := Survivors(s.states, c, o.retained);
      s.(oneshot := o.(released := PushRing(o.released, c, ONE_SHOT_MAX_ACTIVE)),
         states := if |o.released| >= ONE_SHOT_MAX_ACTIVE then DropCoord(kept, o.released[0]) else kept)
  }

  ghost function Dequeue(cfg: Config, s: LayoutValue, e: Event, since: u16): (r: LayoutValue)
  {
    match e
    case Release(c) => HandleRelease(s, c)
    case Press(c) => DoAction(cfg, s, Trans, c, since, false, LayerOrder(cfg, s.states))
  }

  ghost function ReleaseAll(s: LayoutValue, cs: seq<Coord>): (r: LayoutValue)
    decreases |cs|
  {
    if cs == [] then s else ReleaseAll(HandleRelease(s, cs[0]), cs[1..])
  }

  // ---------------------------------------------------------------------------------------
  // Resolved waits and ticks

  /// `waiting_into_hold`, `waiting_into_tap` and `waiting_into_timeout`: the wait `w` has left the
  /// layout and its action is performed. Only a tap leaves the tap-hold interval running, and only
  /// a timeout does not pause input; a tap pauses it after acting, a hold before.
  ghost function WaitingInto(cfg: Config, s: LayoutValue, w: Waiting, a: WaitingAction): (r: LayoutValue)
  {
    var r := DoAction(cfg, ResolvedFrom(cfg, s, w, a), ResolvedAction(w, a), w.timer.coord, ResolvedDelay(w), false, w.layerStack);
    if a.Tap? then PauseInput(cfg, r) else r
  }

  function ResolvedAction(w: Waiting, a: WaitingAction): Action
  {
    match a case Hold => w.hold case Tap => w.tap case Timeout => w.timeoutAction
  }

  function ResolvedDelay(w: Waiting): u16
  {
    WrapAdd(w.timer.delay, w.timer.ticks)
  }

  ghost function ResolvedFrom(cfg: Config, s: LayoutValue, w: Waiting, a: WaitingAction): LayoutValue
  {
    var s1 := if !a.Tap? && w.timer.coord == s.lastPress then s.(tapHoldTimeout := 0) else s;
    if a.Hold? then PauseInput(cfg, s1) else s1
  }

  ghost function PauseInput(cfg: Config, s: LayoutValue): LayoutValue
  {
    s.(oneshot := s.oneshot.(pauseTicks := cfg.pauseDelay))
  }

  /// The primary wait, or else the next queued event unless input is paused.
  ghost function TickPrimary(cfg: Config, s: LayoutValue): (r: LayoutValue)
  {
    match s.waiting
    case Some(w) =>
      var (t, a) := WaitingTick(w.timer, s.queue);
      if a.None? then s.(waiting := Some(w.(timer := t)))
      else WaitingInto(cfg, s.(waiting := None), w.(timer := t), a.value)
    case None =>
      if s.extra != [] then s
      else if s.oneshot.pauseTicks > 0 then
        s.(oneshot := s.oneshot.(pauseTicks := s.oneshot.pauseTicks - 1))
      else if s.queue == [] then s
      else Dequeue(cfg, s.(queue := s.queue[1..]), s.queue[0].event, s.queue[0].since)
  }

  /// The first extra wait that resolves in this tick, or their number.
  ghost function FirstResolved(extra: seq<Waiting>, q: seq<Queued>): (n: nat)
    ensures n <= |extra|
    ensures n < |extra| ==> WaitingTick(extra[n].timer, q).1.Some?
    ensures forall i :: 0 <= i < n ==> WaitingTick(extra[i].timer, q).1.None?
  {
    if extra == [] || WaitingTick(extra[0].timer, q).1.Some? then 0 else 1 + FirstResolved(extra[1..], q)
  }

  /// The first `n` waits have been ticked.
  ghost function TickWaits(extra: seq<Waiting>, q: seq<Queued>, n: nat): (r: seq<Waiting>)
    ensures |r| == |extra|
    ensures forall i :: 0 <= i < |r| ==>
      r[i] == if i < n then extra[i].(timer := WaitingTick(extra[i].timer, q).0) else extra[i]
  {
    seq(|extra|, i requires 0 <= i < |extra| =>
      if i < n then extra[i].(timer := WaitingTick(extra[i].timer, q).0) else extra[i])
  }

  /// The extra waits as a tick leaves them, up to the first that resolves.
  ghost function Ticked(s: LayoutValue): (r: seq<Waiting>)
    ensures |r| == |s.extra|
  {
    TickWaits(s.extra, s.queue, FirstResolved(s.extra, s.queue) + 1)
  }

  ghost predicate OneResolves(s: LayoutValue)
  {
    FirstResolved(s.extra, s.queue) < |s.extra|
  }

  /// The first extra wait that resolves, its action, and the layout without it.
  ghost function ResolvedWait(s: LayoutValue): Waiting
    requires OneResolves(s)
  {
    Ticked(s)[FirstResolved(s.extra, s.queue)]
  }

  ghost function FirstAction(s: LayoutValue): WaitingAction
    requires OneResolves(s)
  {
    WaitingTick(s.extra[FirstResolved(s.extra, s.queue)].timer, s.queue).1.value
  }

  ghost function WithoutResolved(s: LayoutValue): LayoutValue
    requires OneResolves(s)
  {
    s.(extra := RemoveAt(Ticked(s), FirstResolved(s.extra, s.queue)))
  }

  /// The extra waits are ticked up to the first that resolves, which becomes its action.
  ghost function TickExtra(cfg: Config, s: LayoutValue): (r: LayoutValue)
  {
    if OneResolves(s) then WaitingInto(cfg, WithoutResolved(s), ResolvedWait(s), FirstAction(s))
    else s.(extra := Ticked(s))
  }

  ghost function TickTimers(s: LayoutValue): (r: LayoutValue)
  {
    var (o, released) := TickOneShot(s.oneshot);
    ReleaseAll(s.(queue := TickAll(s.queue), tapHoldTimeout := SatSub(s.tapHoldTimeout, 1), oneshot := o), released)
  }

  ghost function Tick(cfg: Config, s: LayoutValue): (r: LayoutValue)
  {
    TickExtra(cfg, TickPrimary(cfg, TickTimers(s)))
  }

  // ---------------------------------------------------------------------------------------
  // Key events

  /// `waiting_into_hold`: the primary wait becomes a hold.
  ghost function HoldPrimary(cfg: Config, s: LayoutValue): (r: LayoutValue)
  {
    if s.waiting.None? then s else WaitingInto(cfg, s.(waiting := None), s.waiting.value, Hold)
  }

  /// The extra wait at position `i`, if there is one, becomes a hold and leaves its place to the next.
  ghost function HoldExtra(cfg: Config, s: LayoutValue, i: nat): (r: LayoutValue)
  {
    if i >= |s.extra| then s
    else WaitingInto(cfg, s.(extra := RemoveAt(s.extra, i)), s.extra[i], Hold)
  }

  /// The primary wait and then the positions below `n` are made to hold, in turn.
  ghost function HoldWaits(cfg: Config, s: LayoutValue, n: nat): (r: LayoutValue)
    decreases n
  {
    if n == 0 then HoldPrimary(cfg, s) else HoldExtra(cfg, HoldWaits(cfg, s, n - 1), n - 1)
  }

  /// The oldest event has left the queue and another has joined it.
  function Joined(s: LayoutValue, e: Event): LayoutValue
    requires s.queue != []
  {
    s.(queue := s.queue[1..] + [Queued(e, 0)])
  }

  /// `event`: a key event joins the queue; the oldest event falls out of a full queue and is handled
  /// at once, after the waits have been made to hold. It may be the release of a key that waits
  /// still: see `HeldWaits`.
  ghost function Receive(cfg: Config, s: LayoutValue, e: Event): (r: LayoutValue)
  {
    if |s.queue| < QUEUE_SIZE then Enqueue(s, e) else
    var held := HoldWaits(cfg, Joined(s, e), EXTRA_WAITING_LEN);
    Dequeue(cfg, held, s.queue[0].event, s.queue[0].since)
  }
}
