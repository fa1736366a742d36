/// Splitting a row of keys into the longest runs that mean something, from the left.

module Segmentation {

  /// The keys at positions `from` to `to`, exclusive.
  datatype Segment = Segment(from: nat, to: nat)

  /// Says which runs are chords.
  type Chords = (nat, nat) -> bool

  /// The end of the longest chord that starts at `from` and ends at `to` at the latest.
  ghost function LongestEnd(chord: Chords, from: nat, to: nat): (e: nat)
    requires from <= to
    ensures from <= e <= to
    ensures e > from ==> chord(from, e)
    ensures forall k :: e < k <= to ==> !chord(from, k)
  {
    if to == from then from
    else if chord(from, to) then to
    else LongestEnd(chord, from, to - 1)
  }

  /// Takes the longest chord again and again; a key that starts none is left out.
  ghost function Greedy(chord: Chords, n: nat, from: nat): (segments: seq<Segment>)
    requires from <= n
    decreases n - from
  {
    if from == n then [] else
    var e := LongestEnd(chord, from, n);
    if e == from then Greedy(chord, n, from + 1) else [Segment(from, e)] + Greedy(chord, n, e)
  }

  ghost predicate Covers(segments: seq<Segment>, k: nat)
  {
    exists i :: 0 <= i < |segments| && segments[i].from <= k < segments[i].to
  }

  /// The segments lie in order between `from` and `n`, and each is a chord that none exceeds.
  ghost predicate LongestInOrder(chord: Chords, n: nat, from: nat, segments: seq<Segment>)
  {
    && (forall i :: 0 <= i < |segments| ==> from <= segments[i].from < segments[i].to <= n)
    && (forall i :: 0 <= i < |segments| ==> chord(segments[i].from, segments[i].to))
    && (forall i, j :: 0 <= i < j < |segments| ==> segments[i].to <= segments[j].from)
    && (forall i, e :: 0 <= i < |segments| && segments[i].to < e <= n ==> !chord(segments[i].from, e))
  }

  /// No chord starts at a key that is left out.
  ghost predicate NoneLeftOut(chord: Chords, n: nat, from: nat, segments: seq<Segment>)
  {
    forall k, e {:trigger Covers(segments, k), chord(k, e)} :: from <= k < e <= n && !Covers(segments, k) ==> !chord(k, e)
  }

  /// Segments of the keys from `from` on, in order and disjoint, each a chord that no chord with
  /// the same start exceeds; no chord starts at a key left out.
  ghost predicate Splits(chord: Chords, n: nat, from: nat, segments: seq<Segment>)
  {
    LongestInOrder(chord, n, from, segments) && NoneLeftOut(chord, n, from, segments)
  }

  lemma CoversCons(s: Segment, rest: seq<Segment>, k: nat)
    ensures Covers([s] + rest, k) <==> s.from <= k < s.to || Covers(rest, k)
  {
    var all := [s] + rest;
    assert all[0] == s;
    assert forall i :: 0 <= i < |rest| ==> all[i + 1] == rest[i];
    if Covers(rest, k) {
      var i :| 0 <= i < |rest| && rest[i].from <= k < rest[i].to;
      assert all[i + 1].from <= k < all[i + 1].to;
    }
  }

  lemma LongestCons(chord: Chords, n: nat, s: Segment, rest: seq<Segment>)
    requires s.from < s.to <= n && chord(s.from, s.to) && forall e :: s.to < e <= n ==> !chord(s.from, e)
    requires LongestInOrder(chord, n, s.to, rest)
    ensures LongestInOrder(chord, n, s.from, [s] + rest)
  {
    var all := [s] + rest;
    assert all[0] == s;
    forall i | 0 < i < |all|
      ensures s.to <= all[i].from < all[i].to <= n && chord(all[i].from, all[i].to)
    {
      assert all[i] == rest[i - 1];
    }
    forall i, e | 0 < i < |all| && all[i].to < e <= n ensures !chord(all[i].from, e) {
      assert all[i] == rest[i - 1];
    }
    forall i, j | 0 < i < j < |all| ensures all[i].to <= all[j].from {
      assert all[i] == rest[i - 1] && all[j] == rest[j - 1];
    }
  }

  lemma NoneLeftOutCons(chord: Chords, n: nat, s: Segment, rest: seq<Segment>)
    requires NoneLeftOut(chord, n, s.to, rest)
    ensures NoneLeftOut(chord, n, s.from, [s] + rest)
  {
    forall k, e | s.from <= k < e <= n && !Covers([s] + rest, k) ensures !chord(k, e) {
      CoversCons(s, rest, k);
    }
  }

  lemma {:induction false} GreedySplits(chord: Chords, n: nat, from: nat)
    requires from <= n
    ensures Splits(chord, n, from, Greedy(chord, n, from))
    decreases n - from
  {
    if from < n {
      var e := LongestEnd(chord, from, n);
      if e == from {
        GreedySplits(chord, n, from + 1);
      } else {
        GreedySplits(chord, n, e);
        LongestCons(chord, n, Segment(from, e), Greedy(chord, n, e));
        NoneLeftOutCons(chord, n, Segment(from, e), Greedy(chord, n, e));
      }
    }
  }

  lemma SplitsBehind(chord: Chords, n: nat, from: nat, segments: seq<Segment>)
    requires segments != [] && Splits(chord, n, from, segments) && segments[0].from == from
    ensures Splits(chord, n, segments[0].to, segments[1..])
    ensures LongestEnd(chord, from, n) == segments[0].to
  {
    var rest := segments[1..];
    assert segments == [segments[0]] + rest;
    assert forall i :: 0 <= i < |rest| ==> rest[i] == segments[i + 1];
    forall k, e | segments[0].to <= k < e <= n && !Covers(rest, k) ensures !chord(k, e) {
      CoversCons(segments[0], rest, k);
    }
  }

  lemma SplitsLater(chord: Chords, n: nat, from: nat, segments: seq<Segment>)
    requires from < n && Splits(chord, n, from, segments) && (segments != [] ==> segments[0].from > from)
    ensures Splits(chord, n, from + 1, segments) && LongestEnd(chord, from, n) == from
  {
    assert forall i :: 0 < i < |segments| ==> segments[0].to <= segments[i].from;
    assert !Covers(segments, from);
  }

  /// There is only one way to split: the greedy one.
  lemma {:induction false} OnlyGreedySplits(chord: Chords, n: nat, from: nat, segments: seq<Segment>)
    requires from <= n && Splits(chord, n, from, segments)
    ensures segments == Greedy(chord, n, from)
    decreases n - from
  {
    if from < n {
      if segments != [] && segments[0].from == from {
        SplitsBehind(chord, n, from, segments);
        OnlyGreedySplits(chord, n, segments[0].to, segments[1..]);
      } else {
        SplitsLater(chord, n, from, segments);
        OnlyGreedySplits(chord, n, from + 1, segments);
      }
    }
  }
}
