/** Ordering of strings and the stable sort by key the viewer uses for
    attribute children. Rust orders `String`s by their UTF-8 bytes, which is
    the same order as comparing them character by character by code point. */
module Sorting {
  /** Lexicographic `a <= b`. */
  predicate LexLe(a: string, b: string) {
    a == [] || (b != [] && (a[0] < b[0] || (a[0] == b[0] && LexLe(a[1..], b[1..]))))
  }

  predicate LexLt(a: string, b: string) {
    LexLe(a, b) && a != b
  }

  lemma {:induction false} LexLeTotal(a: string, b: string)
    ensures LexLe(a, b) || LexLe(b, a)
  {
    if a != [] && b != [] && a[0] == b[0] {
      LexLeTotal(a[1..], b[1..]);
    }
  }

  lemma {:induction false} LexLeAntisym(a: string, b: string)
    requires LexLe(a, b) && LexLe(b, a)
    ensures a == b
  {
    if a != [] && b != [] {
      LexLeAntisym(a[1..], b[1..]);
      assert a == [a[0]] + a[1..] && b == [b[0]] + b[1..];
    }
  }

  lemma {:induction false} LexLeTrans(a: string, b: string, c: string)
    requires LexLe(a, b) && LexLe(b, c)
    ensures LexLe(a, c)
  {
    if a != [] && b != [] && c != [] && a[0] == b[0] && b[0] == c[0] {
      LexLeTrans(a[1..], b[1..], c[1..]);
    }
  }

  lemma LexLeRefl(a: string)
    ensures LexLe(a, a)
  {
  }

  /** The elements are in non-decreasing key order. */
  predicate SortedBy<T>(xs: seq<T>, key: T -> string) {
    forall i, j :: 0 <= i < j < |xs| ==> LexLe(key(xs[i]), key(xs[j]))
  }

  /** The elements whose key is `k`, in their order. */
  function WithKey<T>(xs: seq<T>, key: T -> string, k: string): (r: seq<T>)
    ensures |r| <= |xs|
  {
    if xs == [] then []
    else (if key(xs[0]) == k then [xs[0]] else []) + WithKey(xs[1..], key, k)
  }

  /** Inserts `x` into sorted `ys` after every element whose key is not
      greater than its own. */
  function Insert<T>(x: T, ys: seq<T>, key: T -> string): (r: seq<T>)
    ensures |r| == |ys| + 1
    ensures multiset(r) == multiset(ys) + multiset{x}
  {
    if ys == [] then [x]
    else if LexLt(key(x), key(ys[0])) then [x] + ys
    else
      assert ys == [ys[0]] + ys[1..];
      [ys[0]] + Insert(x, ys[1..], key)
  }

  /** `sort_by(|a, b| key(a).cmp(key(b)))`: a stable sort on the key. */
  function SortBy<T>(xs: seq<T>, key: T -> string): (r: seq<T>)
    ensures |r| == |xs|
    ensures multiset(r) == multiset(xs)
  {
    if xs == [] then []
    else
      assert xs == xs[..|xs| - 1] + [xs[|xs| - 1]];
      Insert(xs[|xs| - 1], SortBy(xs[..|xs| - 1], key), key)
  }

  lemma {:induction false} InsertSorted<T>(x: T, ys: seq<T>, key: T -> string)
    requires SortedBy(ys, key)
    ensures SortedBy(Insert(x, ys, key), key)
  {
    if ys != [] && !LexLt(key(x), key(ys[0])) {
      InsertSorted(x, ys[1..], key);
      var r := Insert(x, ys, key);
      LexLeTotal(key(x), key(ys[0]));
      forall j | 0 < j < |r| ensures LexLe(key(ys[0]), key(r[j])) {
        assert r[j] in multiset(ys[1..]) + multiset{x} by {
          assert r[j] in multiset(r[1..]);
        }
        if r[j] == x {
        } else {
          var m :| 0 <= m < |ys[1..]| && ys[1..][m] == r[j];
          assert ys[m + 1] == r[j];
        }
      }
    } else if ys != [] {
      var r := Insert(x, ys, key);
      forall j | 1 < j < |r| ensures LexLe(key(x), key(r[j])) {
        LexLeTrans(key(x), key(ys[0]), key(r[j]));
      }
    }
  }

  lemma {:induction false} InsertWithKey<T>(x: T, ys: seq<T>, key: T -> string, k: string)
    requires SortedBy(ys, key)
    ensures WithKey(Insert(x, ys, key), key, k) == WithKey(ys, key, k) + (if key(x) == k then [x] else [])
  {
    if ys == [] {
    } else if LexLt(key(x), key(ys[0])) {
      InsertAtFrontWithKey(x, ys, key, k);
    } else {
      var h, t := ys[0], ys[1..];
      var last := if key(x) == k then [x] else [];
      SortedTail(ys, key);
      calc {
        WithKey(Insert(x, ys, key), key, k);
        == { InsertPastFirst(x, ys, key); }
        WithKey([h] + Insert(x, t, key), key, k);
        == { WithKeyCons(h, Insert(x, t, key), key, k); }
        (if key(h) == k then [h] else []) + WithKey(Insert(x, t, key), key, k);
        == { InsertWithKey(x, t, key, k); }
        (if key(h) == k then [h] else []) + (WithKey(t, key, k) + last);
        ((if key(h) == k then [h] else []) + WithKey(t, key, k)) + last;
        == { WithKeyCons(h, t, key, k); assert ys == [h] + t; }
        WithKey(ys, key, k) + last;
      }
    }
  }

  /** A sorted sequence's tail is sorted. */
  lemma SortedTail<T>(ys: seq<T>, key: T -> string)
    requires ys != [] && SortedBy(ys, key)
    ensures SortedBy(ys[1..], key)
  {
    forall i, j | 0 <= i < j < |ys| - 1 ensures LexLe(key(ys[1..][i]), key(ys[1..][j])) {
      assert ys[1..][i] == ys[i + 1] && ys[1..][j] == ys[j + 1];
    }
  }

  /** `x` not smaller than the first key goes after it. */
  lemma InsertPastFirst<T>(x: T, ys: seq<T>, key: T -> string)
    requires ys != [] && !LexLt(key(x), key(ys[0]))
    ensures Insert(x, ys, key) == [ys[0]] + Insert(x, ys[1..], key)
  {
  }

  lemma WithKeyCons<T>(h: T, t: seq<T>, key: T -> string, k: string)
    ensures WithKey([h] + t, key, k) == (if key(h) == k then [h] else []) + WithKey(t, key, k)
  {
    assert ([h] + t)[0] == h && ([h] + t)[1..] == t;
  }

  lemma InsertAtFrontWithKey<T>(x: T, ys: seq<T>, key: T -> string, k: string)
    requires SortedBy(ys, key) && ys != [] && LexLt(key(x), key(ys[0]))
    ensures WithKey([x] + ys, key, k) == WithKey(ys, key, k) + (if key(x) == k then [x] else [])
  {
    var r := [x] + ys;
    assert r[0] == x && r[1..] == ys;
    if key(x) == k {
      NoneWithSmallerKey(ys, key, k);
    }
  }

  /** In a sorted sequence whose first key is greater than `k`, nothing has key `k`. */
  lemma {:induction false} NoneWithSmallerKey<T>(ys: seq<T>, key: T -> string, k: string)
    requires SortedBy(ys, key) && ys != [] && LexLt(k, key(ys[0]))
    ensures WithKey(ys, key, k) == []
  {
    if |ys| > 1 {
      LexLeTrans(k, key(ys[0]), key(ys[1]));
      if key(ys[1]) == k {
        LexLeAntisym(k, key(ys[0]));
      }
      NoneWithSmallerKey(ys[1..], key, k);
    }
  }

  lemma {:induction false} WithKeyAppend<T>(xs: seq<T>, ys: seq<T>, key: T -> string, k: string)
    ensures WithKey(xs + ys, key, k) == WithKey(xs, key, k) + WithKey(ys, key, k)
  {
    if xs != [] {
      assert (xs + ys)[1..] == xs[1..] + ys;
      WithKeyAppend(xs[1..], ys, key, k);
    } else {
      assert xs + ys == ys;
    }
  }

  /** The sort is sorted, a permutation (its `ensures`), and stable: the
      elements sharing a key keep their relative order. */
  lemma {:induction false} SortBySpec<T>(xs: seq<T>, key: T -> string)
    ensures SortedBy(SortBy(xs, key), key)
    ensures forall k :: WithKey(SortBy(xs, key), key, k) == WithKey(xs, key, k)
  {
    if xs != [] {
      var init, x := xs[..|xs| - 1], xs[|xs| - 1];
      SortBySpec(init, key);
      InsertSorted(x, SortBy(init, key), key);
      SnocSplit(xs);
      forall k ensures WithKey(SortBy(xs, key), key, k) == WithKey(xs, key, k) {
        SortByKeyStep(init, x, key, k);
      }
    }
  }

  /** One more element keeps the elements of key `k` in their order. */
  lemma SortByKeyStep<T>(init: seq<T>, x: T, key: T -> string, k: string)
    requires SortedBy(SortBy(init, key), key)
    requires WithKey(SortBy(init, key), key, k) == WithKey(init, key, k)
    ensures WithKey(SortBy(init + [x], key), key, k) == WithKey(init + [x], key, k)
  {
    var s0 := SortBy(init, key);
    var last := if key(x) == k then [x] else [];
    calc {
      WithKey(SortBy(init + [x], key), key, k);
      == { SortBySnoc(init + [x], key); assert (init + [x])[..|init|] == init; }
      WithKey(Insert(x, s0, key), key, k);
      == { InsertWithKey(x, s0, key, k); }
      WithKey(s0, key, k) + last;
      WithKey(init, key, k) + last;
      == { WithKeyAppend(init, [x], key, k); WithKeyCons(x, [], key, k); assert [x] + [] == [x]; }
      WithKey(init + [x], key, k);
    }
  }

  lemma SnocSplit<T>(xs: seq<T>)
    requires xs != []
    ensures xs == xs[..|xs| - 1] + [xs[|xs| - 1]]
  {
  }

  lemma SortBySnoc<T>(xs: seq<T>, key: T -> string)
    requires xs != []
    ensures SortBy(xs, key) == Insert(xs[|xs| - 1], SortBy(xs[..|xs| - 1], key), key)
  {
  }
}
