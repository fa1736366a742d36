/// Values shared by the components of the keyberon engine: coordinates, key events,
/// the queue entries that carry them, and the fixed-width counters.

module Types {

  type u8 = n: nat | n < 0x100
  type u16 = n: nat | n < 0x1_0000
  const U16_MAX: u16 := 0xFFFF

  datatype Option<+T> = None | Some(value: T)

  /// Row 0 holds real keys, row 1 virtual keys.
  datatype Coord = Coord(row: nat, col: nat)

  datatype Event = Press(coord: Coord) | Release(coord: Coord)

  /// An event together with the number of ticks it has been queued.
  datatype Queued = Queued(event: Event, since: u16)

  function SatSub(a: u16, b: u16): (r: u16)
  {
    if a < b then 0 else a - b
  }

  function SatInc(a: u16): (r: u16)
  {
    if a < U16_MAX then a + 1 else a
  }

  /// 16-bit addition as an optimised build performs it.
  function WrapAdd(a: u16, b: nat): (r: u16)
    ensures r <= a + b
  {
    (a + b) % 0x1_0000
  }

  function SatAdd(a: u16, b: u16): (r: u16)
  {
    if a + b <= U16_MAX then a + b else U16_MAX
  }

  /// `tick_qd` applied to every entry of a queue.
  function TickAll(q: seq<Queued>): (r: seq<Queued>)
    ensures |r| == |q|
    ensures forall i :: 0 <= i < |q| ==> r[i] == Queued(q[i].event, SatInc(q[i].since))
  {
    seq(|q|, i requires 0 <= i < |q| => Queued(q[i].event, SatInc(q[i].since)))
  }

  /// Queue entries for events that have just arrived.
  function Fresh(es: seq<Event>): (r: seq<Queued>)
    ensures |r| == |es|
    ensures forall i :: 0 <= i < |es| ==> r[i] == Queued(es[i], 0)
  {
    seq(|es|, i requires 0 <= i < |es| => Queued(es[i], 0))
  }

  ghost predicate HasRelease(q: seq<Queued>, c: Coord)
  {
    exists i :: 0 <= i < |q| && q[i].event == Release(c)
  }
}
