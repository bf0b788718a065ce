/**
  `Array.prototype.filter`, and the view of a list of records as an object store
  keyed by one of their fields (what repeated `put`s into an IndexedDB store build).
 */
module Collections {

  /** `s.filter(p)`. */
  function Filter<T>(s: seq<T>, p: T -> bool): (r: seq<T>)
    ensures |r| <= |s|
    ensures forall k :: 0 <= k < |r| ==> p(r[k])
    decreases |s|
  {
    if s == [] then [] else (if p(s[0]) then [s[0]] else []) + Filter(s[1..], p)
  }

  /** `filter` keeps exactly the elements that pass the test. */
  lemma {:induction false} FilterMembers<T>(s: seq<T>, p: T -> bool)
    ensures forall x :: x in Filter(s, p) ==> x in s && p(x)
    ensures forall x :: x in s && p(x) ==> x in Filter(s, p)
    decreases |s|
  {
    if s != [] {
      FilterMembers(s[1..], p);
      assert s == [s[0]] + s[1..];
    }
  }

  /** `filter` keeps the input's order: whatever order relation the input respects, the output respects. */
  lemma {:induction false} FilterOrdered<T>(s: seq<T>, p: T -> bool, before: (T, T) -> bool)
    requires forall i, j :: 0 <= i < j < |s| ==> before(s[i], s[j])
    ensures forall i, j :: 0 <= i < j < |Filter(s, p)| ==> before(Filter(s, p)[i], Filter(s, p)[j])
    decreases |s|
  {
    if s != [] {
      FilterOrdered(s[1..], p, before);
      FilterMembers(s[1..], p);
      var rest := Filter(s[1..], p);
      forall j | 0 <= j < |rest| ensures before(s[0], rest[j]) {
        assert rest[j] in rest;
        assert rest[j] in s[1..];
        var k :| 0 <= k < |s[1..]| && s[1..][k] == rest[j];
        assert s[k + 1] == rest[j];
      }
      var r := Filter(s, p);
      if p(s[0]) {
        assert r == [s[0]] + rest;
        forall i, j | 0 <= i < j < |r| ensures before(r[i], r[j]) {
          assert r[j] == rest[j - 1];
          if i > 0 {
            assert r[i] == rest[i - 1];
          } else {
            assert r[i] == s[0];
          }
        }
      } else {
        assert r == rest;
      }
    }
  }

  /** `filter` with a test every element passes changes nothing. */
  lemma {:induction false} FilterAll<T>(s: seq<T>, p: T -> bool)
    requires forall k :: 0 <= k < |s| ==> p(s[k])
    ensures Filter(s, p) == s
    decreases |s|
  {
    if s != [] {
      FilterAll(s[1..], p);
    }
  }

  /** Filtering a concatenation filters each part. */
  lemma {:induction false} FilterConcat<T>(a: seq<T>, b: seq<T>, p: T -> bool)
    ensures Filter(a + b, p) == Filter(a, p) + Filter(b, p)
    decreases |a|
  {
    if a == [] {
      assert a + b == b;
    } else {
      assert (a + b)[0] == a[0];
      assert (a + b)[1..] == a[1..] + b;
      FilterConcat(a[1..], b, p);
    }
  }

  /** No two elements share a key. */
  predicate DistinctKeys<T>(s: seq<T>, key: T -> string) {
    forall i, j :: 0 <= i < j < |s| ==> key(s[i]) != key(s[j])
  }

  /** Every record of the map is stored under its own key (an IndexedDB `keyPath`). */
  predicate Keyed<T>(m: map<string, T>, key: T -> string) {
    forall k :: k in m ==> key(m[k]) == k
  }

  /** The store that putting the records of `s` one by one, in order, into an empty store leaves: a later record replaces an earlier one with the same key. */
  function ToMap<T>(s: seq<T>, key: T -> string): map<string, T>
    decreases |s|
  {
    if s == [] then map[] else map[key(s[0]) := s[0]] + ToMap(s[1..], key)
  }

  /** A key is in `ToMap(s)` exactly when some record carries it, and the last such record is the one kept. */
  lemma {:induction false} ToMapLastWins<T>(s: seq<T>, key: T -> string)
    ensures forall k :: k in ToMap(s, key) <==> exists i :: 0 <= i < |s| && key(s[i]) == k
    ensures forall i :: 0 <= i < |s| && (forall j :: i < j < |s| ==> key(s[j]) != key(s[i]))
              ==> ToMap(s, key)[key(s[i])] == s[i]
    decreases |s|
  {
    if s != [] {
      ToMapLastWins(s[1..], key);
      var m := ToMap(s, key);
      forall k ensures k in m <==> exists i :: 0 <= i < |s| && key(s[i]) == k {
        if k in ToMap(s[1..], key) {
          var i :| 0 <= i < |s[1..]| && key(s[1..][i]) == k;
          assert key(s[i + 1]) == k;
        }
        if exists i :: 0 <= i < |s| && key(s[i]) == k {
          var i :| 0 <= i < |s| && key(s[i]) == k;
          if i > 0 {
            assert key(s[1..][i - 1]) == k;
          }
        }
      }
      forall i | 0 <= i < |s| && (forall j :: i < j < |s| ==> key(s[j]) != key(s[i]))
        ensures m[key(s[i])] == s[i]
      {
        if i > 0 {
          assert s[i] == s[1..][i - 1];
          assert forall j :: i - 1 < j < |s[1..]| ==> key(s[1..][j]) != key(s[1..][i - 1]) by {
            forall j | i - 1 < j < |s[1..]| ensures key(s[1..][j]) != key(s[1..][i - 1]) {
              assert s[1..][j] == s[j + 1];
            }
          }
        } else {
          forall k | 0 <= k < |s[1..]| ensures key(s[1..][k]) != key(s[0]) {
            assert s[1..][k] == s[k + 1];
          }
          assert key(s[0]) !in ToMap(s[1..], key);
        }
      }
    }
  }

  /**
    A listing of a keyed store (every stored record exactly once) put back one by
    one into an empty store rebuilds that store.
   */
  lemma {:induction false} ListingRebuilds<T>(s: seq<T>, m: map<string, T>, key: T -> string)
    requires Keyed(m, key) && DistinctKeys(s, key)
    requires forall x :: x in s <==> x in m.Values
    ensures ToMap(s, key) == m
  {
    ToMapLastWins(s, key);
    var r := ToMap(s, key);
    forall k ensures k in r <==> k in m {
      if k in m {
        assert m[k] in m.Values;
        var i :| 0 <= i < |s| && s[i] == m[k];
        assert key(s[i]) == k;
      }
      if k in r {
        var i :| 0 <= i < |s| && key(s[i]) == k;
        assert s[i] in s;
        var k' :| k' in m && m[k'] == s[i];
      }
    }
    forall k | k in m ensures r[k] == m[k] {
      assert m[k] in m.Values;
      var i :| 0 <= i < |s| && s[i] == m[k];
      assert key(s[i]) == k;
    }
  }
}
