/** Distinguished-name helpers shared by both LDIF builders
    (src/parser/ldif.rs:288-335): the parent of a DN is what follows its
    first separating comma, and an entry's label is its DN with the parent
    suffix cut off. A comma separates unless it is escaped by a backslash
    (section 2.4 of RFC 4514) or sits inside double quotes (RFC 1779 style).
    Positions are counted in characters, which matches the source's byte
    offsets only on DNs made of single-byte characters: the model covers
    those DNs. */
module Dn {
  import opened Wrappers
  import opened Text

  /** The two flags of the scan in `get_parent_dn`. */
  datatype Scan = Scan(inQuotes: bool, escapeNext: bool)

  const Rest := Scan(false, false)

  /** One step of the scan: an escaped character is skipped, a backslash
      escapes the next one, a quote toggles quoting. */
  function Next(s: Scan, c: char): Scan {
    if s.escapeNext then Scan(s.inQuotes, false)
    else if c == '\\' then Scan(s.inQuotes, true)
    else if c == '"' then Scan(!s.inQuotes, false)
    else s
  }

  /** The flags after the scan has read `dn[..i]`, separators included. */
  function ScanAt(dn: string, i: nat): Scan
    requires i <= |dn|
  {
    if i == 0 then Rest else Next(ScanAt(dn, i - 1), dn[i - 1])
  }

  /** A comma the scan reaches neither escaped nor inside quotes. */
  predicate IsSeparator(dn: string, i: nat) {
    i < |dn| && dn[i] == ',' && ScanAt(dn, i) == Rest
  }

  /** The first separator at or after `i`. */
  function SeparatorFrom(dn: string, i: nat): (r: Option<nat>)
    requires i <= |dn|
    ensures r.Some? ==> i <= r.value < |dn|
    decreases |dn| - i
  {
    if i == |dn| then None
    else if IsSeparator(dn, i) then Some(i)
    else SeparatorFrom(dn, i + 1)
  }

  /** The search finds the first separator at or after `i`, and None means
      there is none. */
  lemma {:induction false} SeparatorFromSpec(dn: string, i: nat)
    requires i <= |dn|
    ensures var r := SeparatorFrom(dn, i);
      && (r.Some? ==> IsSeparator(dn, r.value) && forall j :: i <= j < r.value ==> !IsSeparator(dn, j))
      && (r.None? ==> forall j :: i <= j < |dn| ==> !IsSeparator(dn, j))
    decreases |dn| - i
  {
    if i < |dn| && !IsSeparator(dn, i) {
      SeparatorFromSpec(dn, i + 1);
    }
  }

  /** The parent DN: the trimmed text after the first separator, or None when
      there is no separator or nothing but whitespace follows it. */
  function GetParentDn(dn: string): (r: Option<string>)
    ensures r.Some? ==> r.value != []
  {
    match SeparatorFrom(dn, 0)
    case None => None
    case Some(i) => NonBlank(dn[i + 1..])
  }

  /** The trimmed text, or None when nothing is left of it. */
  function NonBlank(s: string): (r: Option<string>)
    ensures r.Some? ==> r.value != []
  {
    var p := Trim(s);
    if p == [] then None else Some(p)
  }

  /** `get_parent_dn`: the scanning loop with its two flags. */
  method GetParentDnScan(dn: string) returns (r: Option<string>)
    ensures r == GetParentDn(dn)
  {
    var inQuotes, escapeNext := false, false;
    var i := 0;
    while i < |dn|
      invariant i <= |dn|
      invariant ScanAt(dn, i) == Scan(inQuotes, escapeNext)
      invariant SeparatorFrom(dn, i) == SeparatorFrom(dn, 0)
    {
      if !escapeNext && dn[i] == ',' && !inQuotes {
        assert IsSeparator(dn, i);
        ParentAt(dn, i);
        var parent := Trim(dn[i + 1..]);
        if parent == [] {
          return None;
        }
        return Some(parent);
      }
      assert !IsSeparator(dn, i);
      assert ScanAt(dn, i + 1) == Next(Scan(inQuotes, escapeNext), dn[i]);
      if escapeNext {
        escapeNext := false;
      } else if dn[i] == '\\' {
        escapeNext := true;
      } else if dn[i] == '"' {
        inQuotes := !inQuotes;
      }
      i := i + 1;
    }
    NoParentAt(dn);
    return None;
  }

  /** A piece of DN the scan leaves with both flags clear and in which it
      finds no separator. */
  predicate Clean(s: string) {
    ScanAt(s, |s|) == Rest && forall i :: 0 <= i < |s| ==> !IsSeparator(s, i)
  }

  lemma {:induction false} ScanPrefix(a: string, b: string, i: nat)
    requires i <= |a|
    ensures ScanAt(a + b, i) == ScanAt(a, i)
  {
    if i > 0 {
      ScanPrefix(a, b, i - 1);
      assert (a + b)[i - 1] == a[i - 1];
    }
  }

  lemma {:induction false} ScanAfter(a: string, b: string, j: nat)
    requires ScanAt(a, |a|) == Rest && j <= |b|
    ensures ScanAt(a + b, |a| + j) == ScanAt(b, j)
  {
    if j == 0 {
      ScanPrefix(a, b, |a|);
    } else {
      ScanAfter(a, b, j - 1);
      assert (a + b)[|a| + j - 1] == b[j - 1];
    }
  }

  lemma SeparatorPrefix(a: string, b: string, i: nat)
    requires i < |a|
    ensures IsSeparator(a + b, i) == IsSeparator(a, i)
  {
    ScanPrefix(a, b, i);
  }

  lemma SeparatorAfter(a: string, b: string, j: nat)
    requires ScanAt(a, |a|) == Rest && j < |b|
    ensures IsSeparator(a + b, |a| + j) == IsSeparator(b, j)
  {
    ScanAfter(a, b, j);
  }

  function Shift(r: Option<nat>, k: nat): Option<nat> {
    match r
    case None => None
    case Some(j) => Some(j + k)
  }

  lemma {:induction false} SeparatorFromAfter(a: string, b: string, j: nat)
    requires ScanAt(a, |a|) == Rest && j <= |b|
    ensures SeparatorFrom(a + b, |a| + j) == Shift(SeparatorFrom(b, j), |a|)
    decreases |b| - j
  {
    if j < |b| {
      SeparatorAfter(a, b, j);
      SeparatorFromAfter(a, b, j + 1);
    }
  }

  lemma {:induction false} SeparatorFromClean(a: string, b: string, i: nat)
    requires Clean(a) && i <= |a|
    ensures SeparatorFrom(a + b, i) == SeparatorFrom(a + b, |a|)
    decreases |a| - i
  {
    if i < |a| {
      SeparatorPrefix(a, b, i);
      SeparatorFromClean(a, b, i + 1);
    }
  }

  /** Behind a clean piece, the first separator is the first separator of
      what follows it, moved by the piece's length. */
  lemma SeparatorShift(a: string, b: string)
    requires Clean(a)
    ensures SeparatorFrom(a + b, 0) == Shift(SeparatorFrom(b, 0), |a|)
  {
    SeparatorFromClean(a, b, 0);
    SeparatorFromAfter(a, b, 0);
  }

  /** A clean piece in front of a DN changes nothing about its parent. */
  lemma ParentSkipsClean(a: string, b: string)
    requires Clean(a)
    ensures GetParentDn(a + b) == GetParentDn(b)
  {
    SeparatorShift(a, b);
    var r := SeparatorFrom(b, 0);
    if r.Some? {
      assert r.value < |b|;
      SameParent(a, b, r.value);
    } else {
      NoParentAt(a + b);
      NoParentAt(b);
    }
  }

  lemma SameParent(a: string, b: string, j: nat)
    requires j < |b| && SeparatorFrom(a + b, 0) == Some(|a| + j) && SeparatorFrom(b, 0) == Some(j)
    ensures GetParentDn(a + b) == GetParentDn(b)
  {
    ParentAt(a + b, |a| + j);
    ParentAt(b, j);
    SliceAfter(a, b, j);
  }

  lemma ParentAt(dn: string, i: nat)
    requires SeparatorFrom(dn, 0) == Some(i)
    ensures i < |dn| && GetParentDn(dn) == NonBlank(dn[i + 1..])
  {
  }

  lemma NoParentAt(dn: string)
    requires SeparatorFrom(dn, 0) == None
    ensures GetParentDn(dn) == None
  {
  }

  lemma SliceAfter(a: string, b: string, j: nat)
    requires j < |b|
    ensures (a + b)[|a| + j + 1..] == b[j + 1..]
  {
  }

  lemma CleanConcat(a: string, b: string)
    requires Clean(a) && Clean(b)
    ensures Clean(a + b)
  {
    ScanAfter(a, b, |b|);
    forall i | 0 <= i < |a + b| ensures !IsSeparator(a + b, i) {
      if i < |a| {
        SeparatorPrefix(a, b, i);
      } else {
        SeparatorAfter(a, b, i - |a|);
      }
    }
  }

  /** Text without commas, backslashes or quotes is clean. */
  lemma {:induction false} PlainClean(x: string)
    requires ',' !in x && '\\' !in x && '"' !in x
    ensures Clean(x)
  {
    forall i | 0 <= i <= |x| ensures ScanAt(x, i) == Rest {
      PlainRests(x, i);
    }
  }

  lemma {:induction false} PlainRests(x: string, i: nat)
    requires ',' !in x && '\\' !in x && '"' !in x && i <= |x|
    ensures ScanAt(x, i) == Rest
  {
    if i > 0 {
      PlainRests(x, i - 1);
      assert x[i - 1] in x;
    }
  }

  /** A backslash and the character it escapes are clean, comma included. */
  lemma EscapeClean(c: char)
    ensures Clean(['\\', c])
  {
    assert ScanAt(['\\', c], 1) == Scan(false, true);
  }

  /** A double-quoted run without quotes or backslashes inside is clean,
      commas included. */
  lemma QuotedClean(q: string)
    requires '"' !in q && '\\' !in q
    ensures Clean("\"" + q + "\"")
  {
    var s := "\"" + q + "\"";
    forall i | 0 <= i < |s| ensures !IsSeparator(s, i) {
      if 0 < i <= |q| {
        QuotedRests(q, i - 1);
      }
    }
    QuotedRests(q, |q|);
    assert s[1 + |q|] == '"';
    assert ScanAt(s, |s|) == Next(ScanAt(s, 1 + |q|), '"');
  }

  lemma {:induction false} QuotedRests(q: string, j: nat)
    requires '"' !in q && '\\' !in q && j <= |q|
    ensures ScanAt("\"" + q + "\"", 1 + j) == Scan(true, false)
  {
    var s := "\"" + q + "\"";
    if j == 0 {
      assert ScanAt(s, 1) == Scan(true, false);
    } else {
      QuotedRests(q, j - 1);
      assert s[j] == q[j - 1] && q[j - 1] in q;
    }
  }

  /** A DN that starts with a separator has the rest as its parent. */
  lemma CommaParent(p: string)
    ensures GetParentDn("," + p) == NonBlank(p)
  {
    var d := "," + p;
    assert IsSeparator(d, 0);
    assert SeparatorFrom(d, 0) == Some(0);
    ParentAt(d, 0);
    assert d[1..] == p;
  }

  /** A clean DN has no parent. */
  lemma CleanHasNoParent(x: string)
    requires Clean(x)
    ensures GetParentDn(x) == None
  {
    SeparatorFromSpec(x, 0);
    NoParentAt(x);
  }

  /** The parent is what follows the first separator: a clean piece, a
      comma, then the parent text. */
  lemma ParentAfterClean(x: string, p: string)
    requires Clean(x)
    ensures GetParentDn(x + "," + p) == NonBlank(p)
  {
    var c := "," + p;
    ParentSkipsClean(x, c);
    CommaParent(p);
    assert GetParentDn(x + c) == NonBlank(p);
    assert x + "," + p == x + c;
  }

  /** `compute_rdn`: the DN without the `,parent` suffix, trimmed, when the DN
      ends with the parent preceded by a comma; otherwise the trimmed DN. */
  function ComputeRdn(dn: string, parent: Option<string>): (r: string)
    ensures parent.None? ==> r == Trim(dn)
  {
    if parent.Some? && EndsWith(dn, parent.value) && |dn| - |parent.value| > 0
      && dn[|dn| - |parent.value| - 1] == ','
    then Trim(dn[..|dn| - |parent.value| - 1])
    else Trim(dn)
  }

  /** The suffix `,p` is cut off exactly when it is there. */
  lemma RdnStripsParent(x: string, p: string)
    ensures ComputeRdn(x + "," + p, Some(p)) == Trim(x)
  {
    var dn := x + "," + p;
    assert dn[|dn| - |p|..] == p;
    assert dn[..|dn| - |p| - 1] == x;
  }

  lemma SplitAt(dn: string, p: string, k: nat)
    requires k < |dn| && dn[k] == ',' && dn[k + 1..] == p
    ensures dn == dn[..k] + "," + p
  {
    assert dn == dn[..k] + [dn[k]] + dn[k + 1..];
  }

  lemma RdnKeepsDn(dn: string, p: string)
    requires ComputeRdn(dn, Some(p)) != Trim(dn)
    ensures exists x :: dn == x + "," + p && ComputeRdn(dn, Some(p)) == Trim(x)
  {
    var k := |dn| - |p| - 1;
    assert EndsWith(dn, p) && k >= 0 && dn[k] == ',';
    SplitAt(dn, p, k);
  }

  /** With a clean first component directly followed by its parent, the
      label both builders compute from the DN's own parent is that first
      component. */
  lemma RdnOfOwnParent(x: string, p: string)
    requires Clean(x) && p != [] && Trim(p) == p
    ensures GetParentDn(x + "," + p) == Some(p)
    ensures ComputeRdn(x + "," + p, GetParentDn(x + "," + p)) == Trim(x)
  {
    ParentAfterClean(x, p);
    RdnStripsParent(x, p);
  }

  /** A comma escaped by a backslash does not separate
      (`cn=Doe\, John,ou=People` has parent `ou=People`). */
  lemma EscapedComma(x: string, y: string, p: string)
    requires ',' !in x && '\\' !in x && '"' !in x
    requires ',' !in y && '\\' !in y && '"' !in y
    ensures GetParentDn(x + "\\," + y + "," + p) == NonBlank(p)
  {
    PlainClean(x);
    EscapeClean(',');
    PlainClean(y);
    CleanConcat(x, "\\,");
    CleanConcat(x + "\\,", y);
    ParentAfterClean(x + "\\," + y, p);
  }

  /** A comma inside double quotes does not separate. */
  lemma QuotedComma(x: string, q: string, p: string)
    requires ',' !in x && '\\' !in x && '"' !in x
    requires '"' !in q && '\\' !in q
    ensures GetParentDn(x + "\"" + q + "\"," + p) == NonBlank(p)
  {
    PlainClean(x);
    QuotedClean(q);
    CleanConcat(x, "\"" + q + "\"");
    assert x + "\"" + q + "\"," + p == (x + ("\"" + q + "\"")) + "," + p;
    ParentAfterClean(x + ("\"" + q + "\""), p);
  }

  /** A space after the separating comma is trimmed off the parent but stays
      in front of it inside the DN, so the DN does not end with `,parent`
      and the label is the whole DN (`cn=a, dc=com` keeps its full text
      even under `dc=com`). */
  lemma SpaceAfterComma(x: string, p: string)
    requires Clean(x) && p != [] && Trim(p) == p
    ensures GetParentDn(x + ", " + p) == Some(p)
    ensures ComputeRdn(x + ", " + p, Some(p)) == Trim(x + ", " + p)
  {
    SpaceParent(x, p);
    TrimLeadingSpace(p);
    SpaceBeforeSuffix(x, p);
  }

  lemma SpaceParent(x: string, p: string)
    requires Clean(x)
    ensures GetParentDn(x + ", " + p) == NonBlank(" " + p)
  {
    Regroup(x, p);
    ParentAfterClean(x, " " + p);
  }

  lemma Regroup(x: string, p: string)
    ensures x + ", " + p == x + "," + (" " + p)
  {
    assert ", " + p == "," + (" " + p);
  }

  lemma SpaceBeforeSuffix(x: string, p: string)
    ensures ComputeRdn(x + ", " + p, Some(p)) == Trim(x + ", " + p)
  {
    var dn := x + ", " + p;
    var k := |dn| - |p| - 1;
    assert dn[k] == ' ';
  }
}
