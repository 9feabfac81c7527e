/** The attributes of one LDIF record as both builders in
    src/parser/ldif.rs lay them out under the record's `@attributes` node:
    grouped by key with `dn` bound to the record's DN, keys in sorted
    order, one leaf per value, `key [i]` captions for multi-valued keys. */
module LdifRecords {
  import opened Wrappers
  import opened Text
  import opened Sorting
  import opened Node

  /** `LdifEntry`: a DN and its attribute pairs in file order. */
  datatype Record = Record(dn: string, attributes: seq<(string, string)>)

  /** The values the pairs give to key `k`, in file order. */
  function Matching(attrs: seq<(string, string)>, k: string): (vs: seq<string>)
    ensures |vs| <= |attrs|
  {
    if attrs == [] then []
    else Matching(attrs[..|attrs| - 1], k) + (if attrs[|attrs| - 1].0 == k then [attrs[|attrs| - 1].1] else [])
  }

  /** The values of key `k` in a record: the DN first when `k` is `dn`. */
  function ValuesOf(dn: string, attrs: seq<(string, string)>, k: string): seq<string> {
    (if k == "dn" then [dn] else []) + Matching(attrs, k)
  }

  function KeySet(attrs: seq<(string, string)>): set<string> {
    set p | p in attrs :: p.0
  }

  /** `attr_map`: `dn` bound to the DN, then each pair pushed onto the list
      of its key. */
  function Group(dn: string, attrs: seq<(string, string)>): (m: map<string, seq<string>>)
  {
    if attrs == [] then map["dn" := [dn]]
    else
      var m := Group(dn, attrs[..|attrs| - 1]);
      var p := attrs[|attrs| - 1];
      m[p.0 := (if p.0 in m then m[p.0] else []) + [p.1]]
  }

  /** The map holds exactly `dn` and the keys of the pairs, each bound to its
      values in file order, so no value is lost and none is reordered. */
  lemma {:induction false} GroupSpec(dn: string, attrs: seq<(string, string)>)
    ensures Group(dn, attrs).Keys == {"dn"} + KeySet(attrs)
    ensures forall k :: k in Group(dn, attrs) ==> Group(dn, attrs)[k] == ValuesOf(dn, attrs, k)
  {
    if attrs != [] {
      var init, p := attrs[..|attrs| - 1], attrs[|attrs| - 1];
      GroupSpec(dn, init);
      KeySetSnoc(attrs);
      var m0, m := Group(dn, init), Group(dn, attrs);
      assert m == m0[p.0 := (if p.0 in m0 then m0[p.0] else []) + [p.1]];
      forall k | k in m ensures m[k] == ValuesOf(dn, attrs, k) {
        GroupValueStep(dn, attrs, k);
      }
    }
  }

  lemma KeySetSnoc(attrs: seq<(string, string)>)
    requires attrs != []
    ensures KeySet(attrs) == KeySet(attrs[..|attrs| - 1]) + {attrs[|attrs| - 1].0}
  {
    var init, p := attrs[..|attrs| - 1], attrs[|attrs| - 1];
    assert attrs == init + [p];
    forall q | q in attrs ensures q in init || q == p {
    }
  }

  /** One more pair: key `k`'s list gains the pair's value when the pair
      has key `k`. */
  lemma GroupValueStep(dn: string, attrs: seq<(string, string)>, k: string)
    requires attrs != []
    requires var m0 := Group(dn, attrs[..|attrs| - 1]);
      m0.Keys == {"dn"} + KeySet(attrs[..|attrs| - 1]) && forall j :: j in m0 ==> m0[j] == ValuesOf(dn, attrs[..|attrs| - 1], j)
    requires k in Group(dn, attrs)
    ensures Group(dn, attrs)[k] == ValuesOf(dn, attrs, k)
  {
    var init, p := attrs[..|attrs| - 1], attrs[|attrs| - 1];
    var m0, m := Group(dn, init), Group(dn, attrs);
    var d := if k == "dn" then [dn] else [];
    assert m == m0[p.0 := (if p.0 in m0 then m0[p.0] else []) + [p.1]];
    assert ValuesOf(dn, attrs, k) == d + Matching(attrs, k);
    if k != p.0 {
      assert Matching(attrs, k) == Matching(init, k) + [];
      assert m[k] == m0[k] == d + Matching(init, k);
    } else if k in m0 {
      assert Matching(attrs, k) == Matching(init, k) + [p.1];
      assert m[k] == m0[k] + [p.1] == (d + Matching(init, k)) + [p.1];
    } else {
      assert k !in KeySet(init) && d == [];
      MatchingNone(init, k);
      assert Matching(attrs, k) == [] + [p.1];
    }
  }

  lemma {:induction false} MatchingNone(attrs: seq<(string, string)>, k: string)
    requires k !in KeySet(attrs)
    ensures Matching(attrs, k) == []
  {
    if attrs != [] {
      var init := attrs[..|attrs| - 1];
      assert KeySet(init) <= KeySet(attrs) by {
        forall q | q in init ensures q in attrs {
        }
      }
      assert attrs[|attrs| - 1] in attrs;
      MatchingNone(init, k);
    }
  }

  /** The DN is the first value of `dn`, followed by the values of any
      `dn:` attribute lines. */
  lemma DnFirst(dn: string, attrs: seq<(string, string)>)
    ensures "dn" in Group(dn, attrs) && Group(dn, attrs)["dn"] == [dn] + Matching(attrs, "dn")
  {
    GroupSpec(dn, attrs);
  }

  /** Every key has at least one value. */
  lemma GroupNonEmpty(dn: string, attrs: seq<(string, string)>, k: string)
    requires k in Group(dn, attrs)
    ensures Group(dn, attrs)[k] != []
  {
    GroupSpec(dn, attrs);
    if k != "dn" {
      assert k in KeySet(attrs);
      var p :| p in attrs && p.0 == k;
      MatchingHas(attrs, p);
    }
  }

  lemma {:induction false} MatchingHas(attrs: seq<(string, string)>, p: (string, string))
    requires p in attrs
    ensures Matching(attrs, p.0) != []
  {
    if attrs[|attrs| - 1] != p {
      var init := attrs[..|attrs| - 1];
      assert attrs == init + [attrs[|attrs| - 1]];
      MatchingHas(init, p);
    }
  }

  // ---------------------------------------------------------------------
  // Key order
  // ---------------------------------------------------------------------

  predicate Distinct(ks: seq<string>) {
    forall i, j :: 0 <= i < j < |ks| ==> ks[i] != ks[j]
  }

  /** The keys of the map in the order they were first inserted. */
  function KeyOrder(dn: string, attrs: seq<(string, string)>): seq<string> {
    if attrs == [] then ["dn"]
    else
      var ks := KeyOrder(dn, attrs[..|attrs| - 1]);
      if attrs[|attrs| - 1].0 in ks then ks else ks + [attrs[|attrs| - 1].0]
  }

  lemma {:induction false} KeyOrderSpec(dn: string, attrs: seq<(string, string)>)
    ensures Distinct(KeyOrder(dn, attrs))
    ensures (set k | k in KeyOrder(dn, attrs)) == Group(dn, attrs).Keys
  {
    if attrs != [] {
      KeyOrderSpec(dn, attrs[..|attrs| - 1]);
    }
  }

  function Id(s: string): string {
    s
  }

  predicate StrictlySorted(ks: seq<string>) {
    forall i, j :: 0 <= i < j < |ks| ==> LexLt(ks[i], ks[j])
  }

  /** `sorted_keys`: the keys of the map, sorted. */
  function SortedKeys(dn: string, attrs: seq<(string, string)>): seq<string> {
    SortBy(KeyOrder(dn, attrs), Id)
  }

  /** The sorted keys are exactly the keys of the map, each once, in
      strictly increasing order. */
  lemma SortedKeysSpec(dn: string, attrs: seq<(string, string)>)
    ensures StrictlySorted(SortedKeys(dn, attrs))
    ensures (set k | k in SortedKeys(dn, attrs)) == Group(dn, attrs).Keys
  {
    var order := KeyOrder(dn, attrs);
    var ks := SortedKeys(dn, attrs);
    KeyOrderSpec(dn, attrs);
    SortBySpec(order, Id);
    assert multiset(ks) == multiset(order);
    forall k ensures k in ks <==> k in order {
      assert k in ks <==> k in multiset(ks);
      assert k in order <==> k in multiset(order);
    }
    forall i, j | 0 <= i < j < |ks| ensures LexLt(ks[i], ks[j]) {
      assert LexLe(Id(ks[i]), Id(ks[j]));
      if ks[i] == ks[j] {
        DistinctCount(order, ks[i]);
        assert multiset(ks)[ks[i]] >= 2 by {
          PairCount(ks, i, j);
        }
      }
    }
  }

  /** A value occurs at most once in a sequence without repetitions. */
  lemma {:induction false} DistinctCount(ks: seq<string>, k: string)
    requires Distinct(ks)
    ensures multiset(ks)[k] <= 1
  {
    if ks != [] {
      var init := ks[..|ks| - 1];
      assert ks == init + [ks[|ks| - 1]];
      DistinctCount(init, k);
      if ks[|ks| - 1] == k {
        assert k !in init;
      }
    }
  }

  /** Equal elements at two positions are counted twice. */
  lemma PairCount(ks: seq<string>, i: nat, j: nat)
    requires i < j < |ks| && ks[i] == ks[j]
    ensures multiset(ks)[ks[i]] >= 2
  {
    assert ks == ks[..j] + ks[j..];
    assert ks[i] in ks[..j];
    assert ks[j] in ks[j..] by {
      assert ks[j..][0] == ks[j];
    }
  }

  /** Two strictly sorted sequences of the same elements are equal: the
      order the map yields its keys in does not matter. */
  lemma {:induction false} SortedUnique(xs: seq<string>, ys: seq<string>)
    requires StrictlySorted(xs) && StrictlySorted(ys)
    requires forall k :: k in xs <==> k in ys
    ensures xs == ys
  {
    if xs != [] {
      assert xs[0] in ys;
    }
    if ys != [] {
      assert ys[0] in xs;
    }
    if xs != [] && ys != [] {
      var x, y := xs[0], ys[0];
      assert x in xs && y in ys;
      assert LexLe(x, y) by {
        var j :| 0 <= j < |xs| && xs[j] == y;
        if j > 0 {
          assert LexLt(xs[0], xs[j]);
        } else {
          LexLeRefl(x);
        }
      }
      assert LexLe(y, x) by {
        var j :| 0 <= j < |ys| && ys[j] == x;
        if j > 0 {
          assert LexLt(ys[0], ys[j]);
        } else {
          LexLeRefl(y);
        }
      }
      LexLeAntisym(x, y);
      forall k ensures k in xs[1..] <==> k in ys[1..] {
        if k in xs[1..] {
          var i :| 0 <= i < |xs[1..]| && xs[1..][i] == k;
          assert LexLt(xs[0], xs[i + 1]);
          assert k in ys;
        }
        if k in ys[1..] {
          var i :| 0 <= i < |ys[1..]| && ys[1..][i] == k;
          assert LexLt(ys[0], ys[i + 1]);
          assert k in xs;
        }
      }
      SortedUnique(xs[1..], ys[1..]);
      assert xs == [x] + xs[1..] && ys == [y] + ys[1..];
    }
  }

  // ---------------------------------------------------------------------
  // Leaves
  // ---------------------------------------------------------------------

  /** The leaves of one key: a single value is captioned by the key, the
      values of a multi-valued key by `key [i]`. */
  function KeyLeaves(k: string, vs: seq<string>): (items: seq<Attribute>)
    ensures |items| == |vs|
    ensures forall i :: 0 <= i < |vs| ==> items[i].value == vs[i]
  {
    if |vs| == 1 then [Attribute(k, vs[0])]
    else seq(|vs|, i requires 0 <= i < |vs| => Attribute(k + " " + IndexLabel(i), vs[i]))
  }

  /** The captions of one key's leaves are pairwise distinct. */
  lemma KeyLeavesDistinct(k: string, vs: seq<string>, i: nat, j: nat)
    requires i < j < |vs|
    ensures KeyLeaves(k, vs)[i].key != KeyLeaves(k, vs)[j].key
  {
    var a, b := KeyLeaves(k, vs)[i].key, KeyLeaves(k, vs)[j].key;
    if a == b {
      assert a[|k| + 1..] == IndexLabel(i) && b[|k| + 1..] == IndexLabel(j);
      IndexLabelInjective(i, j);
    }
  }

  /** The leaves of the keys `ks`, key by key. */
  function Items(ks: seq<string>, m: map<string, seq<string>>): seq<Attribute>
    requires forall k :: k in ks ==> k in m
  {
    if ks == [] then []
    else Items(ks[..|ks| - 1], m) + KeyLeaves(ks[|ks| - 1], m[ks[|ks| - 1]])
  }

  /** The children of a record's `@attributes` node, as caption and value. */
  function AttrItems(r: Record): seq<Attribute> {
    var m := Group(r.dn, r.attributes);
    var ks := SortedKeys(r.dn, r.attributes);
    assert forall k :: k in ks ==> k in m by {
      SortedKeysSpec(r.dn, r.attributes);
      assert forall k :: k in ks ==> k in (set k | k in ks);
    }
    Items(ks, m)
  }

  // ---------------------------------------------------------------------
  // Counting: one leaf per value
  // ---------------------------------------------------------------------

  function Count(m: map<string, seq<string>>, k: string): nat {
    if k in m then |m[k]| else 0
  }

  /** The number of values the keys `ks` hold in `m`. */
  function Total(ks: seq<string>, m: map<string, seq<string>>): nat {
    if ks == [] then 0 else Total(ks[..|ks| - 1], m) + Count(m, ks[|ks| - 1])
  }

  lemma {:induction false} ItemsTotal(ks: seq<string>, m: map<string, seq<string>>)
    requires forall k :: k in ks ==> k in m
    ensures |Items(ks, m)| == Total(ks, m)
  {
    if ks != [] {
      ItemsTotal(ks[..|ks| - 1], m);
    }
  }

  lemma {:induction false} TotalAppend(xs: seq<string>, ys: seq<string>, m: map<string, seq<string>>)
    ensures Total(xs + ys, m) == Total(xs, m) + Total(ys, m)
    decreases |ys|
  {
    if ys == [] {
      assert xs + ys == xs;
    } else {
      assert (xs + ys)[..|xs + ys| - 1] == xs + ys[..|ys| - 1];
      TotalAppend(xs, ys[..|ys| - 1], m);
    }
  }

  /** The total does not depend on the order of the keys. */
  lemma {:induction false} TotalPermutation(xs: seq<string>, ys: seq<string>, m: map<string, seq<string>>)
    requires multiset(xs) == multiset(ys)
    ensures Total(xs, m) == Total(ys, m)
    decreases |xs|
  {
    if xs != [] {
      var init := xs[..|xs| - 1];
      var i := RemoveMatch(xs, ys);
      TotalPermutation(init, ys[..i] + ys[i + 1..], m);
      TotalRemove(ys, i, m);
      assert Total(xs, m) == Total(init, m) + Count(m, ys[i]);
    }
  }

  /** The last element of `xs` occurs in `ys`, and removing it there leaves
      a permutation of the rest of `xs`. */
  lemma RemoveMatch(xs: seq<string>, ys: seq<string>) returns (i: nat)
    requires xs != [] && multiset(xs) == multiset(ys)
    ensures i < |ys| && ys[i] == xs[|xs| - 1]
    ensures multiset(ys[..i] + ys[i + 1..]) == multiset(xs[..|xs| - 1])
  {
    var x, init := xs[|xs| - 1], xs[..|xs| - 1];
    assert xs == init + [x];
    assert x in multiset(ys);
    i :| 0 <= i < |ys| && ys[i] == x;
    var rest := ys[..i] + ys[i + 1..];
    assert ys == ys[..i] + [x] + ys[i + 1..];
    calc {
      multiset(ys);
      multiset(ys[..i] + [x] + ys[i + 1..]);
      multiset(ys[..i]) + multiset([x]) + multiset(ys[i + 1..]);
      multiset(rest) + multiset{x};
    }
    assert multiset(xs) == multiset(init) + multiset{x};
    forall e ensures multiset(rest)[e] == multiset(init)[e] {
      assert multiset(ys)[e] == multiset(rest)[e] + multiset{x}[e];
      assert multiset(xs)[e] == multiset(init)[e] + multiset{x}[e];
    }
  }

  /** Removing one key takes its count off the total. */
  lemma TotalRemove(ys: seq<string>, i: nat, m: map<string, seq<string>>)
    requires i < |ys|
    ensures Total(ys, m) == Total(ys[..i] + ys[i + 1..], m) + Count(m, ys[i])
  {
    var x := ys[i];
    assert ys == ys[..i] + [x] + ys[i + 1..];
    TotalAppend(ys[..i] + [x], ys[i + 1..], m);
    TotalAppend(ys[..i], ys[i + 1..], m);
    assert Total(ys[..i] + [x], m) == Total(ys[..i], m) + Count(m, x) by {
      assert (ys[..i] + [x])[..i] == ys[..i];
    }
  }

  /** Binding a key that is not among `ks` leaves their total alone. */
  lemma {:induction false} TotalOther(ks: seq<string>, m: map<string, seq<string>>, k: string, vs: seq<string>)
    requires k !in ks
    ensures Total(ks, m[k := vs]) == Total(ks, m)
  {
    if ks != [] {
      TotalOther(ks[..|ks| - 1], m, k, vs);
    }
  }

  /** Growing the list of a key that occurs once in `ks` grows the total by as much. */
  lemma {:induction false} TotalBump(ks: seq<string>, m: map<string, seq<string>>, k: string, v: string)
    requires Distinct(ks) && k in ks && k in m
    ensures Total(ks, m[k := m[k] + [v]]) == Total(ks, m) + 1
  {
    var init, last := ks[..|ks| - 1], ks[|ks| - 1];
    if last == k {
      TotalOther(init, m, k, m[k] + [v]);
    } else {
      TotalBump(init, m, k, v);
    }
  }

  lemma {:induction false} KeyOrderTotal(dn: string, attrs: seq<(string, string)>)
    ensures Total(KeyOrder(dn, attrs), Group(dn, attrs)) == 1 + |attrs|
  {
    if attrs != [] {
      var init, p := attrs[..|attrs| - 1], attrs[|attrs| - 1];
      var ks0, m0 := KeyOrder(dn, init), Group(dn, init);
      KeyOrderTotal(dn, init);
      KeyOrderSpec(dn, init);
      assert p.0 in ks0 <==> p.0 in m0 by {
        assert p.0 in ks0 <==> p.0 in (set k | k in ks0);
      }
      if p.0 in ks0 {
        TotalBump(ks0, m0, p.0, p.1);
      } else {
        TotalOther(ks0, m0, p.0, [p.1]);
        assert KeyOrder(dn, attrs) == ks0 + [p.0];
        assert [] + [p.1] == [p.1];
        assert Group(dn, attrs) == m0[p.0 := [p.1]];
        assert (ks0 + [p.0])[..|ks0|] == ks0;
      }
    }
  }

  /** Every value of the record, the DN included, becomes exactly one leaf. */
  lemma AttrItemsCount(r: Record)
    ensures |AttrItems(r)| == 1 + |r.attributes|
  {
    var m := Group(r.dn, r.attributes);
    var order := KeyOrder(r.dn, r.attributes);
    var ks := SortedKeys(r.dn, r.attributes);
    SortedKeysSpec(r.dn, r.attributes);
    assert forall k :: k in ks ==> k in m by {
      assert forall k :: k in ks ==> k in (set k | k in ks);
    }
    ItemsTotal(ks, m);
    TotalPermutation(ks, order, m);
    KeyOrderTotal(r.dn, r.attributes);
  }
}
