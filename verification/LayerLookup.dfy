/// Which layer answers a key press: the latest held layer first, then the default layer and the first
/// one, and the source key where all of them are transparent (keyberon/src/layout.rs).

module LayerLookup {
  import opened Types
  import opened LayoutModel
  import opened TapHoldKey

  // ---------------------------------------------------------------------------------------
  // The order of the layers

  ghost predicate AllHeld(states: seq<KeyState>, ps: seq<nat>)
  {
    forall i :: 0 <= i < |ps| ==> ps[i] < |states| && states[ps[i]].LayerModifier?
  }

  ghost predicate Descending(ps: seq<nat>)
  {
    forall i, j :: 0 <= i < j < |ps| ==> ps[i] > ps[j]
  }

  ghost predicate ListsAll(states: seq<KeyState>, ps: seq<nat>)
  {
    forall k :: 0 <= k < |states| && states[k].LayerModifier? ==> k in ps
  }

  /// `ps` lists the positions of all held layers, the latest first.
  ghost predicate LatestFirst(states: seq<KeyState>, ps: seq<nat>)
  {
    AllHeld(states, ps) && Descending(ps) && ListsAll(states, ps)
  }

  ghost function LayersAt(states: seq<KeyState>, ps: seq<nat>): (r: seq<nat>)
    requires AllHeld(states, ps)
    ensures |r| == |ps|
    ensures forall i :: 0 <= i < |ps| ==> r[i] == states[ps[i]].layer
  {
    seq(|ps|, i requires 0 <= i < |ps| => states[ps[i]].layer)
  }

  /// The layers to search, given the positions of those held: all of them or only the latest, then the
  /// default layer, then the first.
  ghost function Searched(cfg: Config, states: seq<KeyState>, ps: seq<nat>): (r: seq<nat>)
    requires LatestFirst(states, ps)
  {
    var first := if ps == [] then cfg.defaultLayer else states[ps[0]].layer;
    if cfg.transResolutionV2 then
      LayersAt(states, ps) + [cfg.defaultLayer]
      + if cfg.delegateToFirstLayer && first != 0 && cfg.defaultLayer != 0 then [0] else []
    else if cfg.delegateToFirstLayer && first != 0 then [first, 0]
    else [first]
  }

  lemma StillHeld(states: seq<KeyState>, n: nat, ps: seq<nat>)
    requires n + 1 == |states| && AllHeld(states[..n], ps)
    ensures AllHeld(states, ps) && LayersAt(states, ps) == LayersAt(states[..n], ps)
  {
  }

  lemma NoneMoreHeld(states: seq<KeyState>, n: nat, ps: seq<nat>)
    requires n + 1 == |states| && ListsAll(states[..n], ps) && !states[n].LayerModifier?
    ensures ListsAll(states, ps)
  {
    forall k | 0 <= k < |states| && states[k].LayerModifier? ensures k in ps {
      assert states[..n][k].LayerModifier?;
    }
  }

  lemma OneMoreHeld(states: seq<KeyState>, n: nat, ps: seq<nat>)
    requires n + 1 == |states| && LatestFirst(states[..n], ps) && states[n].LayerModifier?
    ensures LatestFirst(states, [n] + ps)
  {
    assert Descending([n] + ps);
    forall k | 0 <= k < |states| && states[k].LayerModifier? ensures k in [n] + ps {
      if k < n {
        assert states[..n][k].LayerModifier?;
      }
    }
  }

  lemma HeldSnoc(states: seq<KeyState>, n: nat)
    requires n + 1 == |states|
    ensures HeldLayers(states)
         == if states[n].LayerModifier? then [states[n].layer] + HeldLayers(states[..n]) else HeldLayers(states[..n])
  {
    assert [] + HeldLayers(states[..n]) == HeldLayers(states[..n]);
  }

  lemma {:induction false} HeldPositions(states: seq<KeyState>) returns (ps: seq<nat>)
    ensures LatestFirst(states, ps) && HeldLayers(states) == LayersAt(states, ps)
    decreases |states|
  {
    ps := [];
    if states != [] {
      var n := |states| - 1;
      ps := HeldPositions(states[..n]);
      HeldSnoc(states, n);
      StillHeld(states, n, ps);
      if states[n].LayerModifier? {
        OneMoreHeld(states, n, ps);
        ps := [n] + ps;
      } else {
        NoneMoreHeld(states, n, ps);
      }
    }
  }

  /// The layers are searched in the order in which they were held, latest first, however many there
  /// are; a stack takes twelve.
  lemma LatestLayerFirst(cfg: Config, states: seq<KeyState>) returns (ps: seq<nat>)
    ensures LatestFirst(states, ps)
    ensures var all := Searched(cfg, states, ps);
            LayerOrder(cfg, states) == if |all| <= MAX_ACTIVE_LAYERS then all else all[..MAX_ACTIVE_LAYERS]
  {
    ps := HeldPositions(states);
  }

  lemma {:induction false} PositionsAreUnique(states: seq<KeyState>, ps: seq<nat>, qs: seq<nat>)
    requires LatestFirst(states, ps) && LatestFirst(states, qs)
    ensures ps == qs
    decreases |ps|
  {
    if qs != [] {
      assert qs[0] in ps;
    }
    if ps != [] {
      assert ps[0] in qs && qs[0] in ps;
      assert ps[0] == qs[0];
      var k := ps[0];
      var rest := states[..k];
      forall i | 0 <= i < k && rest[i].LayerModifier? ensures i in ps[1..] && i in qs[1..] {
        assert states[i].LayerModifier?;
      }
      PositionsAreUnique(rest, ps[1..], qs[1..]);
    }
  }

  ghost predicate HeldLast(states: seq<KeyState>, i: nat)
  {
    i < |states| && states[i].LayerModifier? && forall j :: i < j < |states| ==> !states[j].LayerModifier?
  }

  /// The current layer is that of the latest layer key held, or the default one where none is.
  lemma CurrentIsLatest(cfg: Config, states: seq<KeyState>, i: nat)
    ensures LayerOrder(cfg, states) != []
    ensures HeldLast(states, i) ==> LayerOrder(cfg, states)[0] == states[i].layer
    ensures (forall x :: x in states ==> !x.LayerModifier?) ==> LayerOrder(cfg, states)[0] == cfg.defaultLayer
  {
    var ps := LatestLayerFirst(cfg, states);
    if HeldLast(states, i) {
      assert i in ps && ps[0] == i;
    }
    if ps != [] {
      assert states[ps[0]] in states;
    }
  }

  // ---------------------------------------------------------------------------------------
  // The action found

  /// The action of a key on a layer is to look further below.
  predicate TransparentOn(cfg: Config, layer: nat, d: Coord)
  {
    layer < |cfg.layers| && cfg.layers[layer](d) == Trans
  }

  /// The first layer of a stack that is not transparent answers.
  lemma {:induction false} FirstOpaqueAnswers(cfg: Config, d: Coord, stack: seq<nat>, n: nat)
    requires n < |stack| && stack[n] < |cfg.layers| && cfg.layers[stack[n]](d) != Trans
    requires forall i :: 0 <= i < n ==> TransparentOn(cfg, stack[i], d)
    ensures ResolveCoord(cfg, d, stack) == (cfg.layers[stack[n]](d), stack[n + 1..])
    decreases n
  {
    if n > 0 {
      assert TransparentOn(cfg, stack[0], d);
      assert stack[1..][n - 1] == stack[n] && stack[1..][n..] == stack[n + 1..];
      FirstOpaqueAnswers(cfg, d, stack[1..], n - 1);
    }
  }

  /// Where all layers are transparent the source key answers, and nothing does for a virtual key.
  lemma {:induction false} SourceKeyAnswers(cfg: Config, d: Coord, stack: seq<nat>)
    requires forall i :: 0 <= i < |stack| ==> TransparentOn(cfg, stack[i], d)
    ensures ResolveCoord(cfg, d, stack) == (if d.row == 0 then cfg.sourceKeys(d.col) else NoOp, [])
    decreases |stack|
  {
    if stack != [] {
      assert TransparentOn(cfg, stack[0], d);
      SourceKeyAnswers(cfg, d, stack[1..]);
    }
  }

  // ---------------------------------------------------------------------------------------
  // What a press outputs

  /// Nothing is pending, and there is room for another key.
  ghost predicate Ready(s: LayoutValue)
  {
    && s.waiting.None? && s.extra == [] && s.queue == []
    && s.oneshot.keys == [] && s.oneshot.pauseTicks == 0
    && |s.states| < MAX_STATES && forall x :: x in s.states ==> !Clears(x)
  }

  lemma PressOfKeyCode(cfg: Config, s: LayoutValue, d: Coord, kc: nat, rest: seq<nat>)
    requires Ready(s) && ResolveCoord(cfg, d, LayerOrder(cfg, s.states)) == (KeyCode(kc), rest)
    ensures Batch(cfg, s, [Press(d)]).states == s.states + [NormalKey(kc, d, false)]
  {
    ReceiveAllIs(cfg, s, [Press(d)]);
    var popped := s.(tapHoldTimeout := SatSub(s.tapHoldTimeout, 1));
    var s1 := TickTimers(ReceiveAll(cfg, s, [Press(d)]));
    assert s1 == popped.(queue := [Queued(Press(d), 1)]);
    assert s1.queue[1..] == [];
    KeyCodeAction(cfg, popped, kc, d, 1, rest);
    var stack := LayerOrder(cfg, s.states);
    TransActsAsResolved(cfg, popped, KeyCode(kc), d, 1, stack, rest);
    NoExtraWaits(cfg, TickPrimary(cfg, s1));
  }

  lemma TransActsAsResolved(cfg: Config, s: LayoutValue, a: Action, d: Coord, delay: u16, stack: seq<nat>, rest: seq<nat>)
    requires ResolveCoord(cfg, d, stack) == (a, rest)
    ensures DoAction(cfg, s, Trans, d, delay, false, stack) == DoAction(cfg, s, a, d, delay, false, rest)
  {
  }

  /// Of the layers that are held, the default one and the first, searched in this order, the first
  /// that is not transparent at a key says what a press of it outputs.
  lemma PressAnsweredByLayer(cfg: Config, s: LayoutValue, d: Coord, ps: seq<nat>, n: nat, kc: nat)
    requires Ready(s) && LatestFirst(s.states, ps)
    requires n < |Searched(cfg, s.states, ps)| && n < MAX_ACTIVE_LAYERS
    requires forall i :: 0 <= i < n ==> TransparentOn(cfg, Searched(cfg, s.states, ps)[i], d)
    requires var l := Searched(cfg, s.states, ps)[n]; l < |cfg.layers| && cfg.layers[l](d) == KeyCode(kc)
    ensures Batch(cfg, s, [Press(d)]).states == s.states + [NormalKey(kc, d, false)]
  {
    var qs := LatestLayerFirst(cfg, s.states);
    PositionsAreUnique(s.states, ps, qs);
    var (all, stack) := (Searched(cfg, s.states, ps), LayerOrder(cfg, s.states));
    assert forall i :: 0 <= i <= n ==> stack[i] == all[i];
    FirstOpaqueAnswers(cfg, d, stack, n);
    PressOfKeyCode(cfg, s, d, kc, stack[n + 1..]);
  }

  /// The positions of the layers held since the one at `i`.
  ghost function HeldSince(states: seq<KeyState>, i: nat): set<nat>
  {
    set j: nat | i < j < |states| && states[j].LayerModifier?
  }

  /// Where a layer key is held, the layer of the latest one that is not transparent at `d` says what a
  /// press of `d` outputs, unless twelve have been held since.
  lemma PressAnsweredByHeldLayer(cfg: Config, s: LayoutValue, d: Coord, i: nat, kc: nat)
    requires Ready(s) && i < |s.states| && s.states[i].LayerModifier?
    requires forall j :: j in HeldSince(s.states, i) ==> cfg.transResolutionV2 && TransparentOn(cfg, s.states[j].layer, d)
    requires |HeldSince(s.states, i)| < MAX_ACTIVE_LAYERS
    requires var l := s.states[i].layer; l < |cfg.layers| && cfg.layers[l](d) == KeyCode(kc)
    ensures Batch(cfg, s, [Press(d)]).states == s.states + [NormalKey(kc, d, false)]
  {
    var ps := LatestLayerFirst(cfg, s.states);
    assert i in ps;
    var n: nat :| n < |ps| && ps[n] == i;
    PositionsBefore(s.states, ps, n);
    forall j | 0 <= j < n ensures cfg.transResolutionV2 && TransparentOn(cfg, Searched(cfg, s.states, ps)[j], d) {
      assert ps[j] in HeldSince(s.states, i);
    }
    PressAnsweredByLayer(cfg, s, d, ps, n, kc);
  }

  lemma {:induction false} PositionsBefore(states: seq<KeyState>, ps: seq<nat>, n: nat)
    requires n < |ps| && AllHeld(states, ps) && Descending(ps)
    ensures n <= |HeldSince(states, ps[n])|
    decreases n
  {
    if n > 0 {
      PositionsBefore(states, ps, n - 1);
      var (after, more) := (HeldSince(states, ps[n - 1]), HeldSince(states, ps[n]));
      assert after + {ps[n - 1]} <= more;
      SubsetSize(after + {ps[n - 1]}, more);
    }
  }

  lemma {:induction false} SubsetSize(a: set<nat>, b: set<nat>)
    requires a <= b
    ensures |a| <= |b|
    decreases |a|
  {
    if x :| x in a {
      SubsetSize(a - {x}, b - {x});
    }
  }

  /// Where everything is transparent the key types itself.
  lemma PressAnsweredBySource(cfg: Config, s: LayoutValue, d: Coord, ps: seq<nat>, kc: nat)
    requires Ready(s) && LatestFirst(s.states, ps)
    requires forall i :: 0 <= i < |Searched(cfg, s.states, ps)| ==> TransparentOn(cfg, Searched(cfg, s.states, ps)[i], d)
    requires d.row == 0 && cfg.sourceKeys(d.col) == KeyCode(kc)
    ensures Batch(cfg, s, [Press(d)]).states == s.states + [NormalKey(kc, d, false)]
  {
    var qs := LatestLayerFirst(cfg, s.states);
    PositionsAreUnique(s.states, ps, qs);
    SourceKeyAnswers(cfg, d, LayerOrder(cfg, s.states));
    PressOfKeyCode(cfg, s, d, kc, []);
  }

  // ---------------------------------------------------------------------------------------
  // A layer key, seen from outside

  lemma LayerKeyActs(cfg: Config, c: Coord, l: nat, rest: seq<nat>)
    requires ResolveCoord(cfg, c, LayerOrder(cfg, [])) == (Layer(l), rest)
    ensures var s := Batch(cfg, INITIAL, [Press(c)]);
            Ready(s) && s.states == [LayerModifier(l, c)]
  {
    ReceiveAllIs(cfg, INITIAL, [Press(c)]);
    var s1 := TickTimers(ReceiveAll(cfg, INITIAL, [Press(c)]));
    assert s1 == INITIAL.(queue := [Queued(Press(c), 1)]);
    assert s1.queue[1..] == [];
    var popped := s1.(queue := []);
    TransActsAsResolved(cfg, popped, Layer(l), c, 1, LayerOrder(cfg, []), rest);
    NothingFlagged([]);
    assert BeforeAction(popped, c).states == [];
    assert [] + [LayerModifier(l, c)] == [LayerModifier(l, c)];
    NoExtraWaits(cfg, TickPrimary(cfg, s1));
  }

  lemma DefaultLayerAnswers(cfg: Config, c: Coord)
    requires cfg.defaultLayer < |cfg.layers| && cfg.layers[cfg.defaultLayer](c) != Trans
    ensures LayerOrder(cfg, []) != []
    ensures ResolveCoord(cfg, c, LayerOrder(cfg, [])) == (cfg.layers[cfg.defaultLayer](c), LayerOrder(cfg, [])[1..])
  {
    CurrentIsLatest(cfg, [], 0);
    FirstOpaqueAnswers(cfg, c, LayerOrder(cfg, []), 0);
  }

  lemma SecondKeyAnswered(cfg: Config, s: LayoutValue, c: Coord, d: Coord, l: nat, kc: nat)
    requires Ready(s) && s.states == [LayerModifier(l, c)] && l < |cfg.layers|
    requires || cfg.layers[l](d) == KeyCode(kc)
             || (cfg.layers[l](d) == Trans && cfg.transResolutionV2 && cfg.defaultLayer < |cfg.layers|
                 && cfg.layers[cfg.defaultLayer](d) == KeyCode(kc))
    ensures Batch(cfg, s, [Press(d)]).states == [LayerModifier(l, c), NormalKey(kc, d, false)]
  {
    var ps := [0];
    assert LatestFirst(s.states, ps);
    assert LayersAt(s.states, ps)[0] == l;
    PressAnsweredByLayer(cfg, s, d, ps, if cfg.layers[l](d) == Trans then 1 else 0, kc);
  }

  /// A layer key of the default layer is pressed on an empty layout, and then another key: the layout
  /// outputs what that layer has for it, and the default layer's key only where that layer is
  /// transparent and transparent keys are looked up in all layers.
  lemma LayerKeyThenKey(cfg: Config, c: Coord, d: Coord, l: nat, kc: nat)
    requires cfg.defaultLayer < |cfg.layers| && cfg.layers[cfg.defaultLayer](c) == Layer(l)
    requires l < |cfg.layers|
    requires || cfg.layers[l](d) == KeyCode(kc)
             || (cfg.layers[l](d) == Trans && cfg.transResolutionV2 && cfg.layers[cfg.defaultLayer](d) == KeyCode(kc))
    ensures var s := Batch(cfg, INITIAL, [Press(c)]);
            Batch(cfg, s, [Press(d)]).states == [LayerModifier(l, c), NormalKey(kc, d, false)]
  {
    DefaultLayerAnswers(cfg, c);
    LayerKeyActs(cfg, c, l, LayerOrder(cfg, [])[1..]);
    SecondKeyAnswered(cfg, Batch(cfg, INITIAL, [Press(c)]), c, d, l, kc);
  }
}
