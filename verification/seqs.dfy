/** Generic sequence operations used by the queries: Array.prototype.filter,
    reversal (for "order by created_at descending") and Array.prototype.find. */
module Seqs {
  import opened Wrappers

  function Filter<T(!new)>(s: seq<T>, p: T -> bool): (r: seq<T>)
    ensures |r| <= |s|
    ensures forall x :: x in r <==> x in s && p(x)
    ensures forall i :: 0 <= i < |r| ==> p(r[i])
    decreases |s|
  {
    if s == [] then []
    else
      assert s == [s[0]] + s[1..];
      (if p(s[0]) then [s[0]] else []) + Filter(s[1..], p)
  }

  /** Filtering distributes over concatenation: the kept elements stay in
      the order they had. */
  lemma {:induction false} FilterConcat<T(!new)>(a: seq<T>, b: seq<T>, p: T -> bool)
    ensures Filter(a + b, p) == Filter(a, p) + Filter(b, p)
    decreases |a|
  {
    if a == [] {
      assert a + b == b;
    } else {
      assert (a + b)[1..] == a[1..] + b;
      FilterConcat(a[1..], b, p);
    }
  }

  lemma {:induction false} FilterKeepsAll<T(!new)>(s: seq<T>, p: T -> bool)
    requires forall i :: 0 <= i < |s| ==> p(s[i])
    ensures Filter(s, p) == s
    decreases |s|
  {
    if s != [] {
      FilterKeepsAll(s[1..], p);
    }
  }

  lemma FilterDropsAll<T(!new)>(s: seq<T>, p: T -> bool)
    requires forall i :: 0 <= i < |s| ==> !p(s[i])
    ensures Filter(s, p) == []
  {
  }

  function Reverse<T(!new)>(s: seq<T>): (r: seq<T>)
    ensures |r| == |s|
    ensures forall i :: 0 <= i < |s| ==> r[i] == s[|s| - 1 - i]
    ensures forall x :: x in r <==> x in s
    decreases |s|
  {
    if s == [] then [] else Reverse(s[1..]) + [s[0]]
  }

  lemma {:induction false} ReverseConcat<T(!new)>(a: seq<T>, b: seq<T>)
    ensures Reverse(a + b) == Reverse(b) + Reverse(a)
  {
    var l, r := Reverse(a + b), Reverse(b) + Reverse(a);
    assert |l| == |r|;
    forall i | 0 <= i < |l| ensures l[i] == r[i] {
      if i < |b| {
        assert l[i] == (a + b)[|a| + |b| - 1 - i];
      } else {
        assert l[i] == (a + b)[|a| + |b| - 1 - i];
      }
    }
  }

  /** Filtering a reversed sequence is reversing the filtered one. */
  lemma {:induction false} FilterReverse<T(!new)>(s: seq<T>, p: T -> bool)
    ensures Filter(Reverse(s), p) == Reverse(Filter(s, p))
    decreases |s|
  {
    if s != [] {
      calc {
        Filter(Reverse(s), p);
        Filter(Reverse(s[1..]) + [s[0]], p);
        { FilterConcat(Reverse(s[1..]), [s[0]], p); }
        Filter(Reverse(s[1..]), p) + Filter([s[0]], p);
        { FilterReverse(s[1..], p); }
        Reverse(Filter(s[1..], p)) + Filter([s[0]], p);
        { assert Filter([s[0]], p) == if p(s[0]) then [s[0]] else [];
          assert Reverse(Filter([s[0]], p)) == Filter([s[0]], p);
          ReverseConcat(Filter([s[0]], p), Filter(s[1..], p)); }
        Reverse(Filter([s[0]], p) + Filter(s[1..], p));
        { assert s == [s[0]] + s[1..]; FilterConcat([s[0]], s[1..], p); }
        Reverse(Filter(s, p));
      }
    }
  }

  /** Entries i and j of r occur in s at positions in the same order. */
  ghost predicate PairInOrder<T>(r: seq<T>, s: seq<T>, i: int, j: int)
    requires 0 <= i < |r| && 0 <= j < |r|
  {
    exists a, b :: 0 <= a < b < |s| && s[a] == r[i] && s[b] == r[j]
  }

  /** r lists elements of s in the order s has them. */
  ghost predicate InOrderOf<T>(r: seq<T>, s: seq<T>)
  {
    forall i, j :: 0 <= i < j < |r| ==> PairInOrder(r, s, i, j)
  }

  /** r lists elements of s in the reverse of the order s has them. */
  ghost predicate InReverseOrderOf<T>(r: seq<T>, s: seq<T>)
  {
    forall i, j :: 0 <= i < j < |r| ==> PairInOrder(r, s, j, i)
  }

  /** Putting an element in front of s keeps a list in the order of s. */
  lemma InOrderShift<T>(x: T, r: seq<T>, s: seq<T>)
    requires InOrderOf(r, s)
    ensures InOrderOf(r, [x] + s)
  {
    var t := [x] + s;
    forall i, j | 0 <= i < j < |r|
      ensures PairInOrder(r, t, i, j)
    {
      assert PairInOrder(r, s, i, j);
      var a, b :| 0 <= a < b < |s| && s[a] == r[i] && s[b] == r[j];
      assert t[a + 1] == r[i] && t[b + 1] == r[j];
    }
  }

  /** Putting the same element in front of both keeps the order. */
  lemma InOrderCons<T>(x: T, r: seq<T>, s: seq<T>)
    requires InOrderOf(r, s)
    requires forall k :: 0 <= k < |r| ==> r[k] in s
    ensures InOrderOf([x] + r, [x] + s)
  {
    var u, t := [x] + r, [x] + s;
    forall i, j | 0 <= i < j < |u|
      ensures PairInOrder(u, t, i, j)
    {
      if i == 0 {
        assert u[j] == r[j - 1] && r[j - 1] in s;
        var k :| 0 <= k < |s| && s[k] == r[j - 1];
        assert t[0] == u[i] && t[k + 1] == u[j];
      } else {
        assert u[i] == r[i - 1] && u[j] == r[j - 1];
        assert PairInOrder(r, s, i - 1, j - 1);
        var a, b :| 0 <= a < b < |s| && s[a] == r[i - 1] && s[b] == r[j - 1];
        assert t[a + 1] == u[i] && t[b + 1] == u[j];
      }
    }
  }

  /** Filtering keeps the relative order of the elements it keeps. */
  lemma {:induction false} FilterInOrder<T(!new)>(s: seq<T>, p: T -> bool)
    ensures InOrderOf(Filter(s, p), s)
    decreases |s|
  {
    if s != [] {
      var rest := Filter(s[1..], p);
      FilterInOrder(s[1..], p);
      assert s == [s[0]] + s[1..];
      if p(s[0]) {
        assert Filter(s, p) == [s[0]] + rest;
        assert forall k :: 0 <= k < |rest| ==> rest[k] in s[1..];
        InOrderCons(s[0], rest, s[1..]);
      } else {
        assert Filter(s, p) == rest;
        InOrderShift(s[0], rest, s[1..]);
      }
    }
  }

  /** Reversing a list in the order of s lists it in the reverse order. */
  lemma ReverseInReverseOrder<T(!new)>(r: seq<T>, s: seq<T>)
    requires InOrderOf(r, s)
    ensures InReverseOrderOf(Reverse(r), s)
  {
    var v := Reverse(r);
    forall i, j | 0 <= i < j < |v|
      ensures PairInOrder(v, s, j, i)
    {
      assert v[i] == r[|r| - 1 - i] && v[j] == r[|r| - 1 - j];
      assert PairInOrder(r, s, |r| - 1 - j, |r| - 1 - i);
      var b, a :| 0 <= b < a < |s| && s[b] == r[|r| - 1 - j] && s[a] == r[|r| - 1 - i];
    }
  }

  /** Reversal lists s in the reverse of its own order. */
  lemma ReverseOfInReverseOrder<T(!new)>(s: seq<T>)
    ensures InReverseOrderOf(Reverse(s), s)
  {
    var v := Reverse(s);
    forall i, j | 0 <= i < j < |v|
      ensures PairInOrder(v, s, j, i)
    {
      assert s[|s| - 1 - j] == v[j] && s[|s| - 1 - i] == v[i];
    }
  }

  /** Array.prototype.find: the first element satisfying p. */
  function FindFirst<T(!new)>(s: seq<T>, p: T -> bool): (r: Option<T>)
    ensures r.Some? <==> exists i :: 0 <= i < |s| && p(s[i])
    ensures r.Some? ==> r.value in s && p(r.value)
    decreases |s|
  {
    if s == [] then None
    else if p(s[0]) then Some(s[0])
    else
      var r := FindFirst(s[1..], p);
      assert forall i :: 1 <= i < |s| ==> s[i] == s[1..][i - 1];
      r
  }

  /** No two elements of s share a key. */
  predicate DistinctKeys<T(!new)>(s: seq<T>, key: T -> string)
  {
    forall i, j :: 0 <= i < j < |s| ==> key(s[i]) != key(s[j])
  }

  /** With distinct keys, an element is determined by its key. */
  lemma KeyDetermines<T(!new)>(s: seq<T>, key: T -> string, x: T, y: T)
    requires DistinctKeys(s, key)
    requires x in s && y in s && key(x) == key(y)
    ensures x == y
  {
    var i :| 0 <= i < |s| && s[i] == x;
    var j :| 0 <= j < |s| && s[j] == y;
    assert !(i < j) && !(j < i);
  }

  lemma {:induction false} FilterDistinct<T(!new)>(s: seq<T>, p: T -> bool, key: T -> string)
    requires DistinctKeys(s, key)
    ensures DistinctKeys(Filter(s, p), key)
    decreases |s|
  {
    if s != [] {
      FilterDistinct(s[1..], p, key);
      var f := Filter(s, p);
      var rest := Filter(s[1..], p);
      if p(s[0]) {
        assert f == [s[0]] + rest;
        forall i, j | 0 <= i < j < |f| ensures key(f[i]) != key(f[j]) {
          if i == 0 {
            assert f[j] in s[1..];
            var k :| 0 <= k < |s[1..]| && s[1..][k] == f[j];
            assert s[k + 1] == f[j];
          } else {
            assert f[i] == rest[i - 1] && f[j] == rest[j - 1];
          }
        }
      }
    }
  }

  lemma ReverseDistinct<T(!new)>(s: seq<T>, key: T -> string)
    requires DistinctKeys(s, key)
    ensures DistinctKeys(Reverse(s), key)
  {
    var r := Reverse(s);
    forall i, j | 0 <= i < j < |r| ensures key(r[i]) != key(r[j]) {
      assert r[i] == s[|s| - 1 - i] && r[j] == s[|s| - 1 - j];
    }
  }

  /** Two lists with distinct keys whose keys never meet concatenate to a
      list with distinct keys. */
  lemma DistinctConcat<T(!new)>(a: seq<T>, b: seq<T>, key: T -> string)
    requires DistinctKeys(a, key) && DistinctKeys(b, key)
    requires forall x, y :: x in a && y in b ==> key(x) != key(y)
    ensures DistinctKeys(a + b, key)
  {
    var r := a + b;
    forall i, j | 0 <= i < j < |r| ensures key(r[i]) != key(r[j]) {
      if j < |a| {
        assert r[i] == a[i] && r[j] == a[j];
      } else if |a| <= i {
        assert r[i] == b[i - |a|] && r[j] == b[j - |a|];
      } else {
        assert r[i] == a[i] && r[j] == b[j - |a|];
      }
    }
  }

  /** The position of the first element with key k, or |s| when none has it. */
  function KeyIndex<T(!new)>(s: seq<T>, k: string, key: T -> string): (i: nat)
    ensures i <= |s|
    ensures i < |s| ==> key(s[i]) == k
    ensures forall j :: 0 <= j < i ==> key(s[j]) != k
    decreases |s|
  {
    if s == [] || key(s[0]) == k then 0
    else
      var i := 1 + KeyIndex(s[1..], k, key);
      assert forall j :: 1 <= j < i ==> s[j] == s[1..][j - 1];
      i
  }

  /** Appending a row whose key is new keeps the keys distinct. */
  lemma UpsertAppend<T(!new)>(s: seq<T>, x: T, key: T -> string)
    requires DistinctKeys(s, key)
    requires forall j :: 0 <= j < |s| ==> key(s[j]) != key(x)
    ensures DistinctKeys(s + [x], key)
    ensures forall y :: y in s + [x] ==> y == x || (y in s && key(y) != key(x))
  {
    var r := s + [x];
    forall a, b | 0 <= a < b < |r| ensures key(r[a]) != key(r[b]) {
      assert r[a] == s[a];
    }
  }

  /** Replacing the row at the position of x's key keeps the keys distinct
      and drops only that row. */
  lemma UpsertReplace<T(!new)>(s: seq<T>, i: nat, x: T, key: T -> string)
    requires DistinctKeys(s, key) && i < |s| && key(s[i]) == key(x)
    ensures DistinctKeys(s[i := x], key)
    ensures forall y :: y in s[i := x] ==> y == x || (y in s && key(y) != key(x))
    ensures forall y :: y in s && key(y) != key(x) ==> y in s[i := x]
  {
    var r := s[i := x];
    forall a, b | 0 <= a < b < |r| ensures key(r[a]) != key(r[b]) {
      assert key(r[a]) == key(s[a]) && key(r[b]) == key(s[b]);
    }
    forall y | y in r ensures y == x || (y in s && key(y) != key(x)) {
      var k :| 0 <= k < |r| && r[k] == y;
      if k != i {
        assert y == s[k] && key(s[k]) != key(s[i]);
      }
    }
    forall y | y in s && key(y) != key(x) ensures y in r {
      var k :| 0 <= k < |s| && s[k] == y;
      assert r[k] == y;
    }
  }

  /** Upsert of one row into a table kept in creation order: a row with the
      same key is replaced where it stands, otherwise the row is appended. */
  function Upsert<T(!new)>(s: seq<T>, x: T, key: T -> string): (r: seq<T>)
    requires DistinctKeys(s, key)
    ensures x in r
    ensures forall y :: y in r ==> y == x || (y in s && key(y) != key(x))
    ensures forall y :: y in s && key(y) != key(x) ==> y in r
    ensures DistinctKeys(r, key)
  {
    var i := KeyIndex(s, key(x), key);
    if i == |s| then
      UpsertAppend(s, x, key);
      s + [x]
    else
      UpsertReplace(s, i, x, key);
      assert s[i := x][i] == x;
      s[i := x]
  }

  /** Filtering twice is filtering once by the conjunction. */
  lemma {:induction false} FilterFilter<T(!new)>(s: seq<T>, p: T -> bool, q: T -> bool, both: T -> bool)
    requires forall x :: both(x) == (p(x) && q(x))
    ensures Filter(Filter(s, p), q) == Filter(s, both)
    decreases |s|
  {
    if s != [] {
      FilterFilter(s[1..], p, q, both);
      var head := if p(s[0]) then [s[0]] else [];
      FilterConcat(head, Filter(s[1..], p), q);
    }
  }
}
