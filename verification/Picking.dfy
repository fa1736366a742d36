/// What it means that a list keeps some elements of another: said by positions, not by a recursion.

module Picking {

  ghost predicate Ascending(js: seq<nat>)
  {
    forall i, j :: 0 <= i < j < |js| ==> js[i] < js[j]
  }

  ghost function Elements(js: seq<nat>): set<nat>
  {
    set j | j in js
  }

  ghost predicate TakenAt<T>(q: seq<T>, js: seq<nat>, r: seq<T>)
  {
    |js| == |r| && forall i :: 0 <= i < |r| ==> js[i] < |q| && r[i] == q[js[i]]
  }

  /// `r` consists of the elements of `q` at the positions `keep`, in order.
  ghost predicate Picks<T>(q: seq<T>, keep: set<nat>, r: seq<T>)
  {
    exists js :: Ascending(js) && Elements(js) == keep && TakenAt(q, js, r)
  }

  lemma PicksNone<T>(q: seq<T>)
    ensures Picks(q, {}, [])
  {
    var js: seq<nat> := [];
    assert Ascending(js) && Elements(js) == {};
    assert TakenAt(q, js, []);
  }

  /// Another element behind those looked at so far is kept or left out.
  lemma PicksNext<T>(q: seq<T>, n: nat, keep: set<nat>, r: seq<T>, kept: bool)
    requires n < |q| && Picks(q, keep, r) && forall j :: j in keep ==> j < n
    ensures if kept then Picks(q, keep + {n}, r + [q[n]]) else Picks(q, keep, r)
  {
    if kept {
      var js :| Ascending(js) && Elements(js) == keep && TakenAt(q, js, r);
      forall i | 0 <= i < |js| ensures js[i] < n {
        assert js[i] in keep;
      }
      var more := js + [n];
      assert Ascending(more) && Elements(more) == keep + {n};
      assert TakenAt(q, more, r + [q[n]]);
    }
  }

  /// An element more or less behind the positions kept makes no difference.
  lemma PicksWithin<T>(q: seq<T>, p: seq<T>, keep: set<nat>, r: seq<T>)
    requires Picks(q, keep, r) && forall j :: j in keep ==> j < |p| && (j < |q| ==> p[j] == q[j])
    ensures Picks(p, keep, r)
  {
    var js :| Ascending(js) && Elements(js) == keep && TakenAt(q, js, r);
    forall i | 0 <= i < |r| ensures js[i] < |p| && r[i] == p[js[i]] {
      assert js[i] in keep;
    }
    assert TakenAt(p, js, r);
  }

  /// There is only one such list.
  lemma {:induction false} PicksOnce<T>(q: seq<T>, keep: set<nat>, a: seq<T>, b: seq<T>)
    requires Picks(q, keep, a) && Picks(q, keep, b)
    ensures a == b
  {
    var js :| Ascending(js) && Elements(js) == keep && TakenAt(q, js, a);
    var ks :| Ascending(ks) && Elements(ks) == keep && TakenAt(q, ks, b);
    AscendingOnce(js, ks);
  }

  lemma LastIsGreatest(js: seq<nat>, j: nat)
    requires Ascending(js) && j in js
    ensures j <= js[|js| - 1]
  {
  }

  lemma LastLeft(js: seq<nat>)
    requires Ascending(js) && js != []
    ensures var m := |js| - 1;
            js == js[..m] + [js[m]] && Elements(js[..m]) == Elements(js) - {js[m]}
  {
  }

  lemma SameLast(js: seq<nat>, ks: seq<nat>)
    requires Ascending(js) && Ascending(ks) && Elements(js) == Elements(ks) && js != []
    ensures ks != [] && js[|js| - 1] == ks[|ks| - 1]
  {
    assert js[|js| - 1] in Elements(ks);
    LastIsGreatest(ks, js[|js| - 1]);
    assert ks[|ks| - 1] in Elements(js);
    LastIsGreatest(js, ks[|ks| - 1]);
  }

  lemma NoElements(js: seq<nat>)
    ensures js == [] <==> Elements(js) == {}
  {
    if js != [] {
      assert js[0] in Elements(js);
    }
  }

  lemma {:induction false} AscendingOnce(js: seq<nat>, ks: seq<nat>)
    requires Ascending(js) && Ascending(ks) && Elements(js) == Elements(ks)
    ensures js == ks
    decreases |js|
  {
    if js == [] {
      NoElements(ks);
    } else {
      SameLast(js, ks);
      LastLeft(js);
      LastLeft(ks);
      AscendingOnce(js[..|js| - 1], ks[..|ks| - 1]);
    }
  }

  ghost predicate OneOf<T>(q: seq<T>, keep: set<nat>, x: T)
  {
    exists j :: j in keep && j < |q| && q[j] == x
  }

  lemma PicksMembers<T>(q: seq<T>, keep: set<nat>, r: seq<T>)
    requires Picks(q, keep, r)
    ensures forall i :: 0 <= i < |r| ==> OneOf(q, keep, r[i])
    ensures forall j :: j in keep ==> j < |q| && q[j] in r
  {
    var js :| Ascending(js) && Elements(js) == keep && TakenAt(q, js, r);
    forall i | 0 <= i < |r| ensures OneOf(q, keep, r[i]) {
      assert js[i] in keep;
    }
    forall j | j in keep ensures j < |q| && q[j] in r {
      var i :| 0 <= i < |js| && js[i] == j;
      assert r[i] == q[j];
    }
  }

  lemma PicksSize<T>(q: seq<T>, keep: set<nat>, r: seq<T>)
    requires Picks(q, keep, r)
    ensures |r| == |keep|
  {
    var js :| Ascending(js) && Elements(js) == keep && TakenAt(q, js, r);
    AscendingSize(js);
  }

  lemma {:induction false} AscendingSize(js: seq<nat>)
    requires Ascending(js)
    ensures |Elements(js)| == |js|
    decreases |js|
  {
    NoElements(js);
    if js != [] {
      LastLeft(js);
      assert js[|js| - 1] in Elements(js);
      AscendingSize(js[..|js| - 1]);
    }
  }

  lemma PicksAll<T>(q: seq<T>, keep: set<nat>)
    requires forall j: nat :: j in keep <==> j < |q|
    ensures Picks(q, keep, q)
  {
    var js := seq(|q|, i => i);
    assert Ascending(js) && TakenAt(q, js, q);
    forall j: nat ensures j in Elements(js) <==> j in keep {
      assert j < |q| ==> js[j] == j;
    }
    assert Elements(js) == keep;
  }
}
