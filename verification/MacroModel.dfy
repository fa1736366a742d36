/// Dynamic macros: what recording and replaying do, as functions on values
/// (src/kanata/dynamic_macro.rs).

module MacroModel {
  import opened Types

  /// A recorded key event carries the ticks up to the next one.
  datatype Item = KeyItem(press: bool, key: nat, delay: u16) | EndMacro(id: u16)

  datatype Replay = Replay(active: set<u16>, delayRemaining: u16, items: seq<Item>)

  datatype DelayBehaviour = Constant | Recorded

  datatype ReplayEvent = ReplayEvent(event: Event, delay: u16)

  type Macros = map<u16, seq<Item>>

  const CONSTANT_DELAY: u16 := 5

  function EventOf(press: bool, key: nat): Event
  {
    if press then Press(Coord(0, key)) else Release(Coord(0, key))
  }

  // ---------------------------------------------------------------------------------------
  // Replaying

  /// `tick_replay_state`.
  function TickReplay(s: Option<Replay>, b: DelayBehaviour): (r: (Option<Replay>, Option<ReplayEvent>))
  {
    if s.None? then (None, None) else
    var left := SatSub(s.value.delayRemaining, 1);
    if left > 0 then (Some(s.value.(delayRemaining := left)), None)
    else if s.value.items == [] then (None, None)
    else
      var rest := s.value.(delayRemaining := CONSTANT_DELAY, items := s.value.items[1..]);
      match s.value.items[0]
      case KeyItem(press, key, delay) =>
        if b.Constant? then (Some(rest), Some(ReplayEvent(EventOf(press, key), 0)))
        else (Some(rest.(delayRemaining := delay)), Some(ReplayEvent(EventOf(press, key), delay)))
      case EndMacro(id) =>
        (Some(rest.(active := rest.active - {id})), None)
  }

  /// `play_macro`.
  function Play(s: Option<Replay>, id: u16, macros: Macros): (r: Option<Replay>)
  {
    if id !in macros || (s.Some? && id in s.value.active) then s
    else if s.None? then Some(Replay({id}, 0, macros[id]))
    else Some(s.value.(active := s.value.active + {id}, items := macros[id] + ([EndMacro(id)] + s.value.items)))
  }

  // ---------------------------------------------------------------------------------------
  // Recording

  datatype Waiting = Waiting(press: bool, key: nat)

  datatype Record = Record(startingId: u16, waiting: Option<Waiting>, items: seq<Item>, currentDelay: u16)

  function NewRecord(id: u16): Record
  {
    Record(id, None, [], 0)
  }

  function TickRecord(r: Option<Record>): Option<Record>
  {
    if r.None? then None else Some(r.value.(currentDelay := SatInc(r.value.currentDelay)))
  }

  /// The items, the waiting event among them.
  function Flushed(r: Record): seq<Item>
  {
    match r.waiting
    case None => r.items
    case Some(w) => r.items + [KeyItem(w.press, w.key, r.currentDelay)]
  }

  function AddEvent(r: Record, w: Waiting): Record
  {
    Record(r.startingId, Some(w), Flushed(r), 0)
  }

  /// The keys that a macro leaves pressed.
  ghost function PressedBy(items: seq<Item>): (r: set<nat>)
  {
    if items == [] then {} else
    var n := |items| - 1;
    match items[n]
    case KeyItem(press, key, _) => if press then PressedBy(items[..n]) + {key} else PressedBy(items[..n]) - {key}
    case EndMacro(_) => PressedBy(items[..n])
  }

  ghost function KeysFrom(items: seq<Item>, n: nat): (r: set<nat>)
  {
    set i | n <= i < |items| && items[i].KeyItem? :: items[i].key
  }

  /// `add_release_for_all_unreleased_presses`: one release for each key left pressed, in any order.
  ghost predicate Closes(items: seq<Item>, saved: seq<Item>)
  {
    && items <= saved
    && (forall i :: |items| <= i < |saved| ==> saved[i].KeyItem? && !saved[i].press && saved[i].delay == 0)
    && (forall i, j :: |items| <= i < j < |saved| ==> saved[i].key != saved[j].key)
    && KeysFrom(saved, |items|) == PressedBy(items)
  }

  /// `begin_record_macro` and `stop_macro` remove the last item, and panic when there is none.
  predicate Panics(r: Record)
  {
    Flushed(r) == []
  }

  /// What remains of a recording when the last item and `n` more are removed.
  function Truncated(r: Record, n: u16): (items: seq<Item>)
    requires !Panics(r)
  {
    var items := Flushed(r);
    items[..if n < |items| then |items| - 1 - n else 0]
  }

  /// More items than `max` keys, each with a press and a release.
  predicate LimitReached(r: Record, max: u16)
  {
    |r.items| > 2 * max
  }
}
