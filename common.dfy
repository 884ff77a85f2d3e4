/** Small shared vocabulary: an optional value, Java's narrowing cast from
    double to int, and the stable sort that `Collections.sort` performs with
    a comparator on one integer key. */
module Common {

  datatype Option<+T> = None | Some(value: T)

  function Max(a: int, b: int): int { if a >= b then a else b }

  function Min(a: int, b: int): int { if a <= b then a else b }

  /** Java's `(int)` cast of a double: truncation toward zero (overflow and
      NaN are not modelled). */
  function Trunc(x: real): (r: int)
    ensures x >= 0.0 ==> 0 <= r && r as real <= x < r as real + 1.0
    ensures x < 0.0 ==> r <= 0 && r as real - 1.0 < x <= r as real
  {
    if x >= 0.0 then x.Floor else -((-x).Floor)
  }

  /** No element occurs twice. */
  ghost predicate NoRepeats<T>(s: seq<T>)
  {
    forall i, j :: 0 <= i < j < |s| ==> s[i] != s[j]
  }

  /** The order a comparator `(a, b) -> key(b) - key(a)` asks for: non-increasing key. */
  ghost predicate SortedDesc<T>(s: seq<T>, key: T -> int)
  {
    forall i, j :: 0 <= i < j < |s| ==> key(s[i]) >= key(s[j])
  }

  /** A sorted sequence stays sorted under a head with the largest key. */
  lemma ConsSorted<T>(y: T, t: seq<T>, key: T -> int)
    requires SortedDesc(t, key)
    requires t != [] ==> key(y) >= key(t[0])
    ensures SortedDesc([y] + t, key)
  {
    var u := [y] + t;
    forall i, j | 0 <= i < j < |u| ensures key(u[i]) >= key(u[j]) {
      assert u[j] == t[j - 1];
      if i == 0 {
        assert key(t[0]) >= key(t[j - 1]) || j - 1 == 0;
      } else {
        assert u[i] == t[i - 1];
      }
    }
  }

  /** Places `x` after every element whose key is at least its own. */
  function InsertDesc<T>(x: T, s: seq<T>, key: T -> int): (r: seq<T>)
    ensures |r| == |s| + 1
  {
    if s == [] then [x]
    else if key(s[0]) >= key(x) then [s[0]] + InsertDesc(x, s[1..], key)
    else [x] + s
  }

  /** Inserting into a sorted sequence keeps it sorted; the head is the
      larger of the old head and `x`. */
  lemma {:induction false} InsertDescSorted<T>(x: T, s: seq<T>, key: T -> int)
    requires SortedDesc(s, key)
    ensures var r := InsertDesc(x, s, key);
      && key(r[0]) == (if s == [] then key(x) else Max(key(s[0]), key(x)))
      && SortedDesc(r, key)
  {
    if s != [] {
      if key(s[0]) >= key(x) {
        var rest := InsertDesc(x, s[1..], key);
        InsertDescSorted(x, s[1..], key);
        assert s[1..] != [] ==> key(s[0]) >= key(s[1..][0]);
        ConsSorted(s[0], rest, key);
      } else {
        ConsSorted(x, s, key);
      }
    }
  }

  /** Inserting adds `x` and loses nothing. */
  lemma {:induction false} InsertDescPerm<T>(x: T, s: seq<T>, key: T -> int)
    ensures multiset(InsertDesc(x, s, key)) == multiset(s) + multiset{x}
  {
    if s != [] {
      assert s == [s[0]] + s[1..];
      if key(s[0]) >= key(x) {
        InsertDescPerm(x, s[1..], key);
      }
    }
  }

  /** `Collections.sort` with a descending comparator: a stable insertion sort
      (elements are inserted left to right, each after its equals). */
  function SortDesc<T>(s: seq<T>, key: T -> int): (r: seq<T>)
    ensures SortedDesc(r, key)
    ensures multiset(r) == multiset(s)
    ensures |r| == |s|
  {
    if s == [] then []
    else
      var init := s[..|s| - 1];
      assert s == init + [s[|s| - 1]];
      InsertDescSorted(s[|s| - 1], SortDesc(init, key), key);
      InsertDescPerm(s[|s| - 1], SortDesc(init, key), key);
      InsertDesc(s[|s| - 1], SortDesc(init, key), key)
  }

  /** In a descending order the head carries the largest key. */
  lemma {:induction false} SortedHeadIsMax<T>(s: seq<T>, key: T -> int, x: T)
    requires SortedDesc(s, key) && x in s
    ensures key(s[0]) >= key(x)
  {
    var i :| 0 <= i < |s| && s[i] == x;
    if i > 0 {
      assert key(s[0]) >= key(s[i]);
    }
  }

  /** Inserting with two keys that agree on everything involved gives the same result. */
  lemma {:induction false} InsertDescAgree<T>(x: T, s: seq<T>, k1: T -> int, k2: T -> int)
    requires SortedDesc(s, k1) && SortedDesc(s, k2)
    requires k1(x) == k2(x)
    requires forall y :: y in s ==> k1(y) == k2(y)
    ensures InsertDesc(x, s, k1) == InsertDesc(x, s, k2)
  {
    if s != [] {
      assert s[0] in s;
      if k1(s[0]) >= k1(x) {
        InsertDescAgree(x, s[1..], k1, k2);
      }
    }
  }

  /** The sort only looks at the keys of the elements it sorts. */
  lemma {:induction false} SortDescAgree<T>(s: seq<T>, k1: T -> int, k2: T -> int)
    requires forall y :: y in s ==> k1(y) == k2(y)
    ensures SortDesc(s, k1) == SortDesc(s, k2)
  {
    if s != [] {
      var init := s[..|s| - 1];
      var last := s[|s| - 1];
      assert forall y :: y in init ==> y in s;
      SortDescAgree(init, k1, k2);
      var t := SortDesc(init, k1);
      forall y | y in t ensures k1(y) == k2(y) {
        assert y in multiset(t);
        assert y in multiset(init);
      }
      InsertDescAgree(last, t, k1, k2);
    }
  }

  /** Concatenation is associative. */
  lemma SeqAssoc<T>(a: seq<T>, b: seq<T>, c: seq<T>)
    ensures a + b + c == a + (b + c)
  {
  }

  /** The elements satisfying `p`, in their original order. */
  function Filter<T>(s: seq<T>, p: T -> bool): (r: seq<T>)
    ensures |r| <= |s|
  {
    if s == [] then []
    else Filter(s[..|s| - 1], p) + (if p(s[|s| - 1]) then [s[|s| - 1]] else [])
  }

  /** The filter keeps exactly the elements satisfying `p`. */
  lemma {:induction false} FilterMembers<T>(s: seq<T>, p: T -> bool)
    ensures forall k :: 0 <= k < |Filter(s, p)| ==> Filter(s, p)[k] in s && p(Filter(s, p)[k])
    ensures forall k :: 0 <= k < |s| && p(s[k]) ==> s[k] in Filter(s, p)
  {
    if s != [] {
      var init := s[..|s| - 1];
      FilterMembers(init, p);
      var rest := Filter(init, p);
      var r := Filter(s, p);
      forall k | 0 <= k < |r| ensures r[k] in s && p(r[k]) {
        if k < |rest| {
          assert r[k] == rest[k];
          var j :| 0 <= j < |init| && init[j] == rest[k];
          assert s[j] == init[j];
        }
      }
      forall k | 0 <= k < |s| && p(s[k]) ensures s[k] in r {
        if k < |init| {
          assert s[k] == init[k];
          assert init[k] in rest;
        }
      }
    }
  }

  /** Filtering distributes over concatenation. */
  lemma {:induction false} FilterAppend<T>(a: seq<T>, b: seq<T>, p: T -> bool)
    ensures Filter(a + b, p) == Filter(a, p) + Filter(b, p)
  {
    if b != [] {
      var init := b[..|b| - 1];
      var x := b[|b| - 1];
      FilterAppend(a, init, p);
      assert (a + b)[..|a + b| - 1] == a + init;
      assert (a + b)[|a + b| - 1] == x;
    } else {
      assert a + b == a;
    }
  }

  /** No element satisfies `p`, so the filter keeps nothing. */
  lemma {:induction false} FilterNone<T>(s: seq<T>, p: T -> bool)
    requires forall k :: 0 <= k < |s| ==> !p(s[k])
    ensures Filter(s, p) == []
  {
    if s != [] {
      var init := s[..|s| - 1];
      assert forall k :: 0 <= k < |init| ==> init[k] == s[k];
      FilterNone(init, p);
    }
  }

  /** The elements whose key is `v`. */
  function KeyIs<T>(key: T -> int, v: int): T -> bool
  {
    x => key(x) == v
  }

  /** A head with a key above all others precedes nothing of its own key. */
  lemma FrontStable<T>(x: T, s: seq<T>, key: T -> int, v: int)
    requires SortedDesc(s, key) && (s != [] ==> key(x) > key(s[0]))
    ensures Filter([x] + s, KeyIs(key, v)) == Filter(s, KeyIs(key, v)) + Filter([x], KeyIs(key, v))
  {
    var p := KeyIs(key, v);
    FilterAppend([x], s, p);
    assert Filter([x], p) == if key(x) == v then [x] else [];
    if key(x) == v {
      forall k | 0 <= k < |s| ensures !p(s[k]) {
        assert k == 0 || key(s[0]) >= key(s[k]);
      }
      FilterNone(s, p);
    }
  }

  /** Inserting `x` puts it after every element of its own key. */
  lemma {:induction false} InsertDescStable<T>(x: T, s: seq<T>, key: T -> int, v: int)
    requires SortedDesc(s, key)
    ensures Filter(InsertDesc(x, s, key), KeyIs(key, v)) == Filter(s, KeyIs(key, v)) + Filter([x], KeyIs(key, v))
  {
    var p := KeyIs(key, v);
    if s != [] && key(s[0]) >= key(x) {
      var rest := InsertDesc(x, s[1..], key);
      assert InsertDesc(x, s, key) == [s[0]] + rest;
      assert s == [s[0]] + s[1..];
      InsertDescStable(x, s[1..], key, v);
      FilterAppend([s[0]], rest, p);
      FilterAppend([s[0]], s[1..], p);
      SeqAssoc(Filter([s[0]], p), Filter(s[1..], p), Filter([x], p));
    } else {
      assert InsertDesc(x, s, key) == [x] + s;
      FrontStable(x, s, key, v);
    }
  }

  /** The sort is stable: the elements of each key keep their input order. */
  lemma {:induction false} SortDescStable<T>(s: seq<T>, key: T -> int, v: int)
    ensures Filter(SortDesc(s, key), KeyIs(key, v)) == Filter(s, KeyIs(key, v))
  {
    if s != [] {
      var init := s[..|s| - 1];
      var x := s[|s| - 1];
      SortDescStable(init, key, v);
      InsertDescStable(x, SortDesc(init, key), key, v);
      assert Filter([x], KeyIs(key, v)) == if key(x) == v then [x] else [];
    }
  }

  /** The complement of a predicate. */
  function Not<T>(p: T -> bool): T -> bool
  {
    x => !p(x)
  }

  /** A predicate and its complement split a sequence without loss or duplication. */
  lemma {:induction false} FilterSplit<T>(s: seq<T>, p: T -> bool)
    ensures multiset(Filter(s, p)) + multiset(Filter(s, Not(p))) == multiset(s)
    ensures |Filter(s, p)| + |Filter(s, Not(p))| == |s|
  {
    if s != [] {
      var init := s[..|s| - 1];
      var x := s[|s| - 1];
      FilterSplit(init, p);
      assert s == init + [x];
      var a := Filter(init, p);
      var b := Filter(init, Not(p));
      assert Filter(s, p) == a + (if p(x) then [x] else []);
      assert Filter(s, Not(p)) == b + (if Not(p)(x) then [x] else []);
      assert Not(p)(x) == !p(x);
      if p(x) {
        assert multiset(Filter(s, p)) == multiset(a) + multiset{x};
        assert multiset(Filter(s, Not(p))) == multiset(b);
      } else {
        assert multiset(Filter(s, p)) == multiset(a);
        assert multiset(Filter(s, Not(p))) == multiset(b) + multiset{x};
      }
    }
  }
}
