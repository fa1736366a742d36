/// The inverted index of parser/src/subset.rs: for each element, the keys that contain it. It
/// answers as a plain map from keys to values would.

module SubsetMap {

  type Key = seq<nat>

  datatype KeyValue<V> = KeyValue(key: Key, value: V)

  datatype Answer<V> = HasValue(value: V) | IsSubset | Neither

  type Buckets<V> = map<nat, seq<KeyValue<V>>>

  // ---------------------------------------------------------------------------------------
  // The order of keys

  predicate Less(a: Key, b: Key)
  {
    b != [] && (a == [] || a[0] < b[0] || (a[0] == b[0] && Less(a[1..], b[1..])))
  }

  lemma {:induction false} LessTransitive(a: Key, b: Key, c: Key)
    requires Less(a, b) && Less(b, c)
    ensures Less(a, c)
    decreases |a|
  {
    if a != [] && a[0] == b[0] == c[0] {
      LessTransitive(a[1..], b[1..], c[1..]);
    }
  }

  lemma {:induction false} LessTotal(a: Key, b: Key)
    ensures Less(a, b) || a == b || Less(b, a)
    ensures !(Less(a, b) && Less(b, a)) && !Less(a, a)
    decreases |a|
  {
    if a != [] {
      LessTotal(a[1..], a[1..]);
      if b != [] && a[0] == b[0] {
        LessTotal(a[1..], b[1..]);
        assert a == [a[0]] + a[1..] && b == [b[0]] + b[1..];
      }
    }
  }

  // ---------------------------------------------------------------------------------------
  // Sorting keys

  ghost predicate AtLeast(key: Key, lo: nat)
  {
    forall x :: x in key ==> lo <= x
  }

  ghost predicate Ascending(key: Key)
  {
    key == [] || (AtLeast(key[1..], key[0]) && Ascending(key[1..]))
  }

  function InsertElement(key: Key, x: nat): (r: Key)
  {
    if key == [] || x <= key[0] then [x] + key else [key[0]] + InsertElement(key[1..], x)
  }

  function Sort(key: Key): (r: Key)
  {
    if key == [] then [] else InsertElement(Sort(key[1..]), key[0])
  }

  lemma {:induction false} InsertElementAdds(key: Key, x: nat)
    ensures multiset(InsertElement(key, x)) == multiset(key) + multiset{x}
    decreases |key|
  {
    if key != [] && x > key[0] {
      assert key == [key[0]] + key[1..];
      InsertElementAdds(key[1..], x);
    }
  }

  lemma {:induction false} InsertElementSorts(key: Key, x: nat)
    requires Ascending(key)
    ensures Ascending(InsertElement(key, x))
    decreases |key|
  {
    if key == [] || x <= key[0] {
      var r := [x] + key;
      assert r[1..] == key;
      assert forall y :: y in key ==> y == key[0] || y in key[1..];
    } else {
      var rest := InsertElement(key[1..], x);
      var r := [key[0]] + rest;
      assert r[1..] == rest;
      InsertElementSorts(key[1..], x);
      InsertElementAdds(key[1..], x);
      forall y | y in rest ensures key[0] <= y {
        assert y in multiset(rest);
        assert y in multiset(key[1..]) || y == x;
        assert y in key[1..] || y == x;
      }
    }
  }

  lemma {:induction false} SortSorts(key: Key)
    ensures Ascending(Sort(key)) && multiset(Sort(key)) == multiset(key)
    decreases |key|
  {
    if key != [] {
      assert key == [key[0]] + key[1..];
      SortSorts(key[1..]);
      InsertElementAdds(Sort(key[1..]), key[0]);
      InsertElementSorts(Sort(key[1..]), key[0]);
    }
  }

  lemma SortLength(key: Key)
    ensures Sort(key) == [] <==> key == []
  {
    SortSorts(key);
    assert |multiset(Sort(key))| == |Sort(key)| && |multiset(key)| == |key|;
  }

  /// There is one ascending order.
  lemma {:induction false} AscendingUnique(a: Key, b: Key)
    requires Ascending(a) && Ascending(b) && multiset(a) == multiset(b)
    ensures a == b
    decreases |a|
  {
    if a == [] || b == [] {
      assert |multiset(a)| == |a| && |multiset(b)| == |b|;
    } else {
      LeastFirst(a, b);
      LeastFirst(b, a);
      assert a == [a[0]] + a[1..] && b == [b[0]] + b[1..];
      assert multiset(a[1..]) == multiset(a) - multiset{a[0]};
      assert multiset(b[1..]) == multiset(b) - multiset{b[0]};
      AscendingUnique(a[1..], b[1..]);
    }
  }

  lemma LeastFirst(a: Key, b: Key)
    requires a != [] && b != [] && Ascending(a) && multiset(a) == multiset(b)
    ensures a[0] <= b[0]
  {
    assert b[0] in multiset(a);
    assert b[0] == a[0] || b[0] in a[1..];
  }

  /// The order in which the elements of a key are given makes no difference.
  lemma OrderDoesNotMatter<V>(m: map<Key, V>, a: Key, b: Key)
    requires multiset(a) == multiset(b)
    ensures Sort(a) == Sort(b) && Lookup(m, Sort(a)) == Lookup(m, Sort(b))
  {
    SortSorts(a);
    SortSorts(b);
    AscendingUnique(Sort(a), Sort(b));
  }

  // ---------------------------------------------------------------------------------------
  // Buckets

  ghost predicate Sorted<V>(bucket: seq<KeyValue<V>>)
  {
    forall i, j :: 0 <= i < j < |bucket| ==> Less(bucket[i].key, bucket[j].key)
  }

  ghost predicate HasKey<V>(bucket: seq<KeyValue<V>>, key: Key)
  {
    exists i :: 0 <= i < |bucket| && bucket[i].key == key
  }

  /// Where a key is, or where it belongs.
  datatype Position = Found(at: nat) | Missing(at: nat)

  ghost predicate Located<V>(bucket: seq<KeyValue<V>>, key: Key, p: Position)
  {
    && p.at <= |bucket|
    && (forall i :: 0 <= i < p.at ==> Less(bucket[i].key, key))
    && (p.Found? ==> p.at < |bucket| && bucket[p.at].key == key)
    && (p.Missing? ==> forall i :: p.at <= i < |bucket| ==> Less(key, bucket[i].key))
  }

  method BinarySearch<V>(bucket: seq<KeyValue<V>>, key: Key) returns (p: Position)
    requires Sorted(bucket)
    ensures Located(bucket, key, p)
  {
    var lo, hi := 0, |bucket|;
    while lo < hi
      invariant 0 <= lo <= hi <= |bucket|
      invariant forall i :: 0 <= i < lo ==> Less(bucket[i].key, key)
      invariant forall i :: hi <= i < |bucket| ==> Less(key, bucket[i].key)
    {
      var mid := (lo + hi) / 2;
      LessTotal(bucket[mid].key, key);
      if Less(bucket[mid].key, key) {
        AllBefore(bucket, mid, key);
        lo := mid + 1;
      } else if bucket[mid].key == key {
        return Found(mid);
      } else {
        AllBehind(bucket, mid, key);
        hi := mid;
      }
    }
    p := Missing(lo);
  }

  lemma AllBefore<V>(bucket: seq<KeyValue<V>>, m: nat, key: Key)
    requires Sorted(bucket) && m < |bucket| && Less(bucket[m].key, key)
    ensures forall i :: 0 <= i <= m ==> Less(bucket[i].key, key)
  {
    forall i | 0 <= i < m ensures Less(bucket[i].key, key) {
      LessTransitive(bucket[i].key, bucket[m].key, key);
    }
  }

  lemma AllBehind<V>(bucket: seq<KeyValue<V>>, m: nat, key: Key)
    requires Sorted(bucket) && m < |bucket| && Less(key, bucket[m].key)
    ensures forall i :: m <= i < |bucket| ==> Less(key, bucket[i].key)
  {
    forall i | m < i < |bucket| ensures Less(key, bucket[i].key) {
      LessTransitive(key, bucket[m].key, bucket[i].key);
    }
  }

  /// A bucket with the key set to a value, in its place.
  ghost predicate IsPut<V>(bucket: seq<KeyValue<V>>, key: Key, value: V, r: seq<KeyValue<V>>)
  {
    && Sorted(r)
    && (forall k :: HasKey(r, k) <==> HasKey(bucket, k) || k == key)
    && (forall i :: 0 <= i < |r| ==> if r[i].key == key then r[i].value == value else r[i] in bucket)
  }

  lemma ReplacedIsPut<V>(bucket: seq<KeyValue<V>>, key: Key, value: V, at: nat)
    requires Sorted(bucket) && Located(bucket, key, Found(at))
    ensures IsPut(bucket, key, value, bucket[at := KeyValue(key, value)])
  {
    var r := bucket[at := KeyValue(key, value)];
    assert forall i :: 0 <= i < |r| ==> r[i].key == bucket[i].key;
    LessTotal(key, key);
    assert forall i :: at < i < |bucket| ==> Less(bucket[at].key, bucket[i].key);
    assert forall i :: 0 <= i < |r| && i != at ==> r[i] == bucket[i] && r[i].key != key;
    forall k ensures HasKey(r, k) <==> HasKey(bucket, k) {
      if HasKey(bucket, k) {
        var i :| 0 <= i < |bucket| && bucket[i].key == k;
        assert r[i].key == k;
      }
    }
  }

  lemma InsertedIsPut<V>(bucket: seq<KeyValue<V>>, key: Key, value: V, at: nat)
    requires Sorted(bucket) && Located(bucket, key, Missing(at))
    ensures IsPut(bucket, key, value, bucket[..at] + [KeyValue(key, value)] + bucket[at..]) && !HasKey(bucket, key)
  {
    var r := bucket[..at] + [KeyValue(key, value)] + bucket[at..];
    assert forall i :: 0 <= i < at ==> r[i] == bucket[i];
    assert r[at] == KeyValue(key, value);
    assert forall i :: at < i < |r| ==> r[i] == bucket[i - 1];
    forall i, j | 0 <= i < j < |r| ensures Less(r[i].key, r[j].key) {
      if i < at < j {
        LessTransitive(bucket[i].key, key, bucket[j - 1].key);
      }
    }
    forall k ensures HasKey(r, k) <==> HasKey(bucket, k) || k == key {
      if HasKey(bucket, k) {
        var i :| 0 <= i < |bucket| && bucket[i].key == k;
        assert r[if i < at then i else i + 1].key == k;
      }
    }
    forall i | 0 <= i < |bucket| ensures bucket[i].key != key {
      LessTotal(key, key);
    }
  }

  // ---------------------------------------------------------------------------------------
  // The plain map

  /// The index holds exactly the keys of `m`, each in the bucket of every element it contains.
  ghost predicate Represents<V>(b: Buckets<V>, m: map<Key, V>)
  {
    && (forall key :: key in m ==> key != [])
    && (forall k :: k in b ==> Sorted(b[k]) && b[k] != [])
    && (forall k, key :: InBucket(b, k, key) <==> key in m && k in key)
    && (forall k, i :: k in b && 0 <= i < |b[k]| && b[k][i].key in m ==> b[k][i].value == m[b[k][i].key])
  }

  ghost predicate InBucket<V>(b: Buckets<V>, k: nat, key: Key)
  {
    k in b && HasKey(b[k], key)
  }

  function BucketOf<V>(b: Buckets<V>, k: nat): seq<KeyValue<V>>
  {
    if k in b then b[k] else []
  }

  ghost predicate Covers(key: Key, part: Key)
  {
    forall k :: k in part ==> k in key
  }

  /// What a plain map says of a key.
  ghost function Lookup<V>(m: map<Key, V>, key: Key): (r: Answer<V>)
  {
    if key in m then HasValue(m[key])
    else if exists k :: k in m && Covers(k, key) then IsSubset
    else Neither
  }

  ghost predicate HasDuplicates(key: Key)
  {
    exists i, j :: 0 <= i < j < |key| && key[i] == key[j]
  }

  /// The buckets after the elements of `done` have been seen to.
  ghost predicate PartlyPut<V>(before: Buckets<V>, key: Key, value: V, done: Key, b: Buckets<V>)
  {
    && (forall k :: k in b <==> k in before || k in done)
    && (forall k :: k in done ==> k in b && b[k] != [] && IsPut(BucketOf(before, k), key, value, b[k]))
    && (forall k :: k in before && k !in done ==> b[k] == before[k])
  }

  /// One bucket with the key set to a value, and whether the key was there.
  method PutInBucket<V>(bucket: seq<KeyValue<V>>, key: Key, value: V) returns (met: bool, r: seq<KeyValue<V>>)
    requires Sorted(bucket)
    ensures met <==> HasKey(bucket, key)
    ensures IsPut(bucket, key, value, r)
  {
    var p := BinarySearch(bucket, key);
    LocatedIff(bucket, key, p);
    match p {
      case Found(at) =>
        met, r := true, bucket[at := KeyValue(key, value)];
        ReplacedIsPut(bucket, key, value, at);
      case Missing(at) =>
        met, r := false, bucket[..at] + [KeyValue(key, value)] + bucket[at..];
        InsertedIsPut(bucket, key, value, at);
    }
  }

  class SubsetMap<V> {
    var buckets: Buckets<V>
    ghost var contents: map<Key, V>

    ghost predicate Valid()
      reads this
    {
      Represents(buckets, contents)
    }

    constructor ()
      ensures Valid() && contents == map[]
    {
      buckets, contents := map[], map[];
    }

    /// Returns whether the key existed; a key that repeats an element meets itself.
    method InsertKSorted(key: Key, value: V) returns (existed: bool)
      requires Valid()
      modifies this
      ensures Valid() && contents == if key == [] then old(contents) else old(contents)[key := value]
      ensures existed <==> key in old(contents) || HasDuplicates(key)
    {
      existed := false;
      for i := 0 to |key|
        invariant contents == old(contents)
        invariant PartlyPut(old(buckets), key, value, key[..i], buckets)
        invariant existed <==> (i > 0 && key in contents) || HasDuplicates(key[..i])
      {
        PartlySorted(old(buckets), contents, key, value, key[..i], buckets, key[i]);
        var met, bucket := PutInBucket(BucketOf(buckets, key[i]), key, value);
        MetIff(old(buckets), contents, key, value, i, buckets);
        existed := existed || met;
        OnePut(old(buckets), key, value, i, buckets, bucket);
        buckets := buckets[key[i] := bucket];
      }
      assert key[..|key|] == key;
      if key == [] {
        assert buckets == old(buckets);
      } else {
        PutRepresents(old(buckets), contents, key, value, buckets);
        contents := contents[key := value];
      }
    }

    method Insert(key: Key, value: V) returns (existed: bool)
      requires Valid()
      modifies this
      ensures Valid() && contents == if key == [] then old(contents) else old(contents)[Sort(key) := value]
      ensures existed <==> Sort(key) in old(contents) || HasDuplicates(Sort(key))
    {
      SortLength(key);
      existed := InsertKSorted(Sort(key), value);
    }

    method Get(key: Key) returns (r: Answer<V>)
      requires Valid()
      ensures r == Lookup(contents, Sort(key))
    {
      r := GetKSorted(Sort(key));
    }

    method GetKSorted(key: Key) returns (r: Answer<V>)
      requires Valid()
      ensures r == Lookup(contents, key)
    {
      if key == [] {
        EmptyIff(buckets, contents);
        if buckets == map[] {
          return Neither;
        }
        NonemptyCovers(buckets, contents);
        return IsSubset;
      }
      var k := key[0];
      if k !in buckets {
        NotListed(buckets, contents, key);
        return Neither;
      }
      var bucket := buckets[k];
      var p := BinarySearch(bucket, key);
      LocatedIff(bucket, key, p);
      assert InBucket(buckets, k, key) <==> key in contents;
      if p.Found? {
        return HasValue(bucket[p.at].value);
      }
      for i := 0 to |bucket|
        invariant forall j :: 0 <= j < i ==> !Covers(bucket[j].key, key)
      {
        if forall e :: e in key ==> e in bucket[i].key {
          assert InBucket(buckets, k, bucket[i].key) && Covers(bucket[i].key, key);
          return IsSubset;
        }
      }
      NoneCovers(buckets, contents, key);
      r := Neither;
    }
  }

  // ---------------------------------------------------------------------------------------
  // Steps of the insertion

  lemma LocatedIff<V>(bucket: seq<KeyValue<V>>, key: Key, p: Position)
    requires Sorted(bucket) && Located(bucket, key, p)
    ensures p.Found? <==> HasKey(bucket, key)
  {
    if p.Missing? {
      InsertedIsPutMissing(bucket, key, p.at);
    }
  }

  lemma InsertedIsPutMissing<V>(bucket: seq<KeyValue<V>>, key: Key, at: nat)
    requires Located(bucket, key, Missing(at))
    ensures !HasKey(bucket, key)
  {
    LessTotal(key, key);
  }

  lemma PartlySorted<V>(before: Buckets<V>, m: map<Key, V>, key: Key, value: V, done: Key, b: Buckets<V>, k: nat)
    requires Represents(before, m) && PartlyPut(before, key, value, done, b)
    ensures Sorted(BucketOf(b, k))
  {
  }

  /// The bucket of the next element has the key if the map has it, or if the element was seen to.
  lemma MetIff<V>(before: Buckets<V>, m: map<Key, V>, key: Key, value: V, i: nat, b: Buckets<V>)
    requires i < |key| && Represents(before, m) && PartlyPut(before, key, value, key[..i], b)
    ensures HasKey(BucketOf(b, key[i]), key) <==> key in m || key[i] in key[..i]
    ensures HasDuplicates(key[..i + 1]) <==> HasDuplicates(key[..i]) || key[i] in key[..i]
  {
    var k := key[i];
    assert InBucket(before, k, key) <==> key in m;
    assert HasKey(BucketOf(before, k), key) <==> InBucket(before, k, key);
    if key[i] in key[..i] {
      var j :| 0 <= j < i && key[j] == key[i];
      assert key[..i + 1][j] == key[..i + 1][i];
    }
    if HasDuplicates(key[..i]) {
      var x, y :| 0 <= x < y < i && key[..i][x] == key[..i][y];
      assert key[..i + 1][x] == key[..i + 1][y];
    }
  }

  lemma OnePut<V>(before: Buckets<V>, key: Key, value: V, i: nat, b: Buckets<V>, bucket: seq<KeyValue<V>>)
    requires i < |key| && PartlyPut(before, key, value, key[..i], b)
    requires IsPut(BucketOf(b, key[i]), key, value, bucket)
    ensures PartlyPut(before, key, value, key[..i + 1], b[key[i] := bucket])
  {
    var (k, r) := (key[i], b[key[i] := bucket]);
    assert key[..i + 1] == key[..i] + [k];
    assert HasKey(bucket, key);
    if k in key[..i] {
      PutTwice(BucketOf(before, k), key, value, b[k], bucket);
    }
    forall j | j in key[..i + 1] ensures j in r && r[j] != [] && IsPut(BucketOf(before, j), key, value, r[j]) {
      if j != k {
        assert j in key[..i] && r[j] == b[j];
      }
    }
  }

  lemma PutTwice<V>(bucket: seq<KeyValue<V>>, key: Key, value: V, once: seq<KeyValue<V>>, twice: seq<KeyValue<V>>)
    requires IsPut(bucket, key, value, once) && IsPut(once, key, value, twice)
    ensures IsPut(bucket, key, value, twice)
  {
  }

  lemma PutRepresents<V>(before: Buckets<V>, m: map<Key, V>, key: Key, value: V, b: Buckets<V>)
    requires key != [] && Represents(before, m) && PartlyPut(before, key, value, key, b)
    ensures Represents(b, m[key := value])
  {
    var n := m[key := value];
    forall k, x ensures InBucket(b, k, x) <==> x in n && k in x {
      assert InBucket(before, k, x) <==> x in m && k in x;
      if k in key {
        assert HasKey(BucketOf(before, k), x) <==> InBucket(before, k, x);
      }
    }
    forall k, i | k in b && 0 <= i < |b[k]| ensures b[k][i].key in n && b[k][i].value == n[b[k][i].key] {
      assert InBucket(b, k, b[k][i].key);
      if k in key && b[k][i].key != key {
        var j :| 0 <= j < |BucketOf(before, k)| && BucketOf(before, k)[j] == b[k][i];
      }
    }
  }

  // ---------------------------------------------------------------------------------------
  // Steps of the lookup

  lemma EmptyIff<V>(b: Buckets<V>, m: map<Key, V>)
    requires Represents(b, m)
    ensures b == map[] <==> m == map[]
  {
    if m != map[] {
      var key :| key in m;
      assert key[0] in key && InBucket(b, key[0], key);
    }
    if b != map[] {
      var k :| k in b;
      assert InBucket(b, k, b[k][0].key);
    }
  }

  lemma NonemptyCovers<V>(b: Buckets<V>, m: map<Key, V>)
    requires Represents(b, m) && m != map[]
    ensures [] !in m && Lookup(m, []) == IsSubset
  {
    var key :| key in m;
    assert Covers(key, []);
  }

  lemma NotListed<V>(b: Buckets<V>, m: map<Key, V>, key: Key)
    requires Represents(b, m) && key != [] && key[0] !in b
    ensures Lookup(m, key) == Neither
  {
    forall x | x in m ensures !Covers(x, key) {
      assert !InBucket(b, key[0], x);
      assert key[0] in key;
    }
    assert !InBucket(b, key[0], key);
  }

  lemma NoneCovers<V>(b: Buckets<V>, m: map<Key, V>, key: Key)
    requires Represents(b, m) && key != [] && key[0] in b && key !in m
    requires forall j :: 0 <= j < |b[key[0]]| ==> !Covers(b[key[0]][j].key, key)
    ensures Lookup(m, key) == Neither
  {
    forall x | x in m ensures !Covers(x, key) {
      assert key[0] in key && (InBucket(b, key[0], x) <==> key[0] in x);
    }
  }

  // ---------------------------------------------------------------------------------------
  // What the answers mean

  /// A key that is not even part of a known key has no known superset either.
  lemma NeitherForSupersets<V>(m: map<Key, V>, key: Key, larger: Key)
    requires Lookup(m, key) == Neither && Covers(larger, key)
    ensures Lookup(m, larger) == Neither
  {
    forall x | x in m ensures !Covers(x, larger) {
      assert !Covers(x, key);
    }
  }
}
