/** String helpers standing in for the parts of Rust's `str` API the viewer
    relies on: whitespace trimming, prefix/suffix tests, substring search,
    decimal rendering, UTF-8 byte length and `split_whitespace`. */
module Text {
  import opened Wrappers

  /** Unicode White_Space, the set `char::is_whitespace` (and so `trim`) uses. */
  predicate IsWhite(c: char) {
    || c == ' '
    || ('\t' <= c <= '\r')
    || c == '\U{85}' || c == '\U{A0}' || c == '\U{1680}'
    || ('\U{2000}' <= c <= '\U{200A}')
    || c == '\U{2028}' || c == '\U{2029}' || c == '\U{202F}' || c == '\U{205F}' || c == '\U{3000}'
  }

  predicate AllWhite(s: string) {
    forall i :: 0 <= i < |s| ==> IsWhite(s[i])
  }

  /** `trim_start`: drops the leading whitespace and nothing else. */
  function TrimStart(s: string): (r: string)
    ensures |r| <= |s| && r == s[|s| - |r|..]
    ensures r == [] || !IsWhite(r[0])
  {
    if s != [] && IsWhite(s[0]) then TrimStart(s[1..]) else s
  }

  /** What `trim_start` cuts off is all whitespace. */
  lemma {:induction false} TrimStartCuts(s: string)
    ensures AllWhite(s[..|s| - |TrimStart(s)|])
  {
    if s != [] && IsWhite(s[0]) {
      TrimStartCuts(s[1..]);
      var k := |s| - |TrimStart(s)|;
      assert s[..k] == [s[0]] + s[1..][..k - 1];
    }
  }

  /** `trim_end`: drops the trailing whitespace and nothing else. */
  function TrimEnd(s: string): (r: string)
    ensures |r| <= |s| && r == s[..|r|]
    ensures r == [] || !IsWhite(r[|r| - 1])
  {
    if s != [] && IsWhite(s[|s| - 1]) then TrimEnd(s[..|s| - 1]) else s
  }

  /** What `trim_end` cuts off is all whitespace. */
  lemma {:induction false} TrimEndCuts(s: string)
    ensures AllWhite(s[|TrimEnd(s)|..])
  {
    if s != [] && IsWhite(s[|s| - 1]) {
      var init := s[..|s| - 1];
      TrimEndCuts(init);
      var k := |TrimEnd(s)|;
      assert s[k..] == init[k..] + [s[|s| - 1]];
    }
  }

  /** `trim`. */
  function Trim(s: string): (r: string)
    ensures |r| <= |s|
  {
    TrimEnd(TrimStart(s))
  }

  /** `r` is the slice of `s` at `k`, with only whitespace before and after it. */
  predicate SliceBetweenWhite(s: string, r: string, k: int) {
    0 <= k && k + |r| <= |s| && r == s[k..k + |r|] && AllWhite(s[..k]) && AllWhite(s[k + |r|..])
  }

  /** `trim` cuts only whitespace, from both ends, and leaves no whitespace
      at either end of what it keeps. */
  lemma TrimSpec(s: string)
    ensures var r := Trim(s);
      && (exists k :: SliceBetweenWhite(s, r, k))
      && (r == [] || (!IsWhite(r[0]) && !IsWhite(r[|r| - 1])))
  {
    var t := TrimStart(s);
    var r := TrimEnd(t);
    TrimStartCuts(s);
    TrimEndCuts(t);
    assert Trim(s) == r;
    CutParts(s, t, r, |s| - |t|);
    assert r != [] ==> r[0] == t[0];
  }

  /** A prefix `r` of the suffix `t` of `s`, whitespace cut on either side,
      is a slice of `s` with whitespace on either side. */
  lemma CutParts(s: string, t: string, r: string, k: nat)
    requires k == |s| - |t| && |t| <= |s| && t == s[k..] && |r| <= |t| && r == t[..|r|]
    requires AllWhite(s[..k]) && AllWhite(t[|r|..])
    ensures SliceBetweenWhite(s, r, k)
  {
    assert s[k + |r|..] == t[|r|..];
  }

  /** Text without whitespace at either end is its own trim. */
  lemma TrimIdentity(s: string)
    requires s == [] || (!IsWhite(s[0]) && !IsWhite(s[|s| - 1]))
    ensures Trim(s) == s
  {
  }

  lemma TrimLeadingSpace(s: string)
    ensures Trim(" " + s) == Trim(s)
  {
    assert (" " + s)[1..] == s;
  }

  /** A line is blank (`line.trim().is_empty()`) exactly when all of it is whitespace. */
  lemma TrimEmptyIffAllWhite(s: string)
    ensures Trim(s) == [] <==> AllWhite(s)
  {
    var t := TrimStart(s);
    var k := |s| - |t|;
    TrimStartCuts(s);
    if t == [] {
      assert s == s[..k];
    } else {
      TrimEndKeepsFirst(t);
      assert !IsWhite(s[k]);
    }
  }

  /** `trim_end` never removes a non-whitespace first character. */
  lemma {:induction false} TrimEndKeepsFirst(t: string)
    requires t != [] && !IsWhite(t[0])
    ensures TrimEnd(t) != []
  {
    if |t| > 1 && IsWhite(t[|t| - 1]) {
      TrimEndKeepsFirst(t[..|t| - 1]);
    }
  }

  predicate StartsWith(s: string, prefix: string) {
    |prefix| <= |s| && s[..|prefix|] == prefix
  }

  predicate EndsWith(s: string, suffix: string) {
    |suffix| <= |s| && s[|s| - |suffix|..] == suffix
  }

  /** `p` occurs in `s` at position `j`. */
  predicate OccursAt(s: string, p: string, j: nat) {
    j + |p| <= |s| && s[j..j + |p|] == p
  }

  /** The first occurrence of `p` in `s` at or after `i` (`str::find`, counted in characters). */
  function FindFrom(s: string, p: string, i: nat): (r: Option<nat>)
    requires i <= |s|
    ensures r.Some? ==> i <= r.value && OccursAt(s, p, r.value)
    ensures r.Some? ==> forall j: nat :: i <= j < r.value ==> !OccursAt(s, p, j)
    ensures r.None? ==> forall j: nat :: i <= j ==> !OccursAt(s, p, j)
    decreases |s| - i
  {
    if i + |p| > |s| then None
    else if s[i..i + |p|] == p then Some(i)
    else FindFrom(s, p, i + 1)
  }

  function Find(s: string, p: string): (r: Option<nat>)
    ensures r.Some? ==> OccursAt(s, p, r.value) && forall j: nat :: j < r.value ==> !OccursAt(s, p, j)
    ensures r.None? <==> forall j: nat :: !OccursAt(s, p, j)
  {
    FindFrom(s, p, 0)
  }

  predicate Contains(s: string, p: string) {
    Find(s, p).Some?
  }

  function DigitChar(d: nat): (c: char)
    requires d < 10
    ensures '0' <= c <= '9' && c as int - '0' as int == d
  {
    (d + '0' as int) as char
  }

  predicate AllDigits(s: string) {
    forall i :: 0 <= i < |s| ==> '0' <= s[i] <= '9'
  }

  /** Decimal rendering of a natural number (`to_string`, `format!("{}")`). */
  function NatToString(n: nat): (r: string)
    ensures |r| >= 1 && AllDigits(r)
    ensures r[0] == '0' ==> n == 0
  {
    if n < 10 then [DigitChar(n)] else NatToString(n / 10) + [DigitChar(n % 10)]
  }

  /** The value a string of decimal digits denotes. */
  function DigitsValue(s: string): nat
    requires AllDigits(s)
  {
    if s == [] then 0 else DigitsValue(s[..|s| - 1]) * 10 + (s[|s| - 1] as int - '0' as int)
  }

  /** Reading the rendering back gives the number: the rendering loses nothing. */
  lemma {:induction false} NatToStringRoundTrip(n: nat)
    ensures DigitsValue(NatToString(n)) == n
  {
    if n >= 10 {
      NatToStringRoundTrip(n / 10);
      var r := NatToString(n);
      assert r[..|r| - 1] == NatToString(n / 10);
    }
  }

  lemma NatToStringInjective(m: nat, n: nat)
    requires NatToString(m) == NatToString(n)
    ensures m == n
  {
    NatToStringRoundTrip(m);
    NatToStringRoundTrip(n);
  }

  /** Decimal rendering of an integer, with a leading `-` when negative. */
  function IntToString(i: int): (r: string)
    ensures i >= 0 ==> r == NatToString(i)
    ensures i < 0 ==> r == "-" + NatToString(-i)
  {
    if i < 0 then "-" + NatToString(-i) else NatToString(i)
  }

  /** `format!("[{}]", i)`: the label of the i-th element of an array. */
  function IndexLabel(i: nat): (r: string)
    ensures r == "[" + NatToString(i) + "]"
  {
    "[" + NatToString(i) + "]"
  }

  lemma IndexLabelInjective(i: nat, j: nat)
    requires IndexLabel(i) == IndexLabel(j)
    ensures i == j
  {
    var a, b := NatToString(i), NatToString(j);
    assert |a| == |b|;
    assert a == IndexLabel(i)[1..|a| + 1] == IndexLabel(j)[1..|b| + 1] == b;
    NatToStringInjective(i, j);
  }

  /** Number of bytes the UTF-8 encoding of `c` takes. */
  function Utf8Width(c: char): (w: nat)
    ensures 1 <= w <= 4
  {
    if c as int < 0x80 then 1
    else if c as int < 0x800 then 2
    else if c as int < 0x10000 then 3
    else 4
  }

  /** `str::len`: the length of a string in UTF-8 bytes. */
  function ByteLen(s: string): (n: nat)
    ensures |s| <= n <= 4 * |s|
  {
    if s == [] then 0 else ByteLen(s[..|s| - 1]) + Utf8Width(s[|s| - 1])
  }

  lemma {:induction false} ByteLenAppend(s: string, t: string)
    ensures ByteLen(s + t) == ByteLen(s) + ByteLen(t)
    decreases |t|
  {
    if t != [] {
      assert (s + t)[..|s + t| - 1] == s + t[..|t| - 1];
      ByteLenAppend(s, t[..|t| - 1]);
    } else {
      assert s + t == s;
    }
  }

  /** ASCII lower-casing (the case mapping matters here only on ASCII letters). */
  function AsciiLower(s: string): (r: string)
    ensures |r| == |s|
    ensures forall i :: 0 <= i < |s| ==> r[i] == (if 'A' <= s[i] <= 'Z' then (s[i] as int + 32) as char else s[i])
  {
    if s == [] then []
    else [if 'A' <= s[0] <= 'Z' then (s[0] as int + 32) as char else s[0]] + AsciiLower(s[1..])
  }

  /** `parts.join(sep)`. */
  function Join(parts: seq<string>, sep: string): string {
    if parts == [] then []
    else if |parts| == 1 then parts[0]
    else Join(parts[..|parts| - 1], sep) + sep + parts[|parts| - 1]
  }

  lemma JoinAppend(parts: seq<string>, p: string, sep: string)
    requires parts != []
    ensures Join(parts + [p], sep) == Join(parts, sep) + sep + p
  {
    assert (parts + [p])[..|parts|] == parts;
  }

  predicate NoWhite(w: string) {
    forall i :: 0 <= i < |w| ==> !IsWhite(w[i])
  }

  /** Length of the leading run of non-whitespace characters. */
  function RunLength(s: string): (n: nat)
    ensures n <= |s| && NoWhite(s[..n]) && (n == |s| || IsWhite(s[n]))
  {
    if s == [] || IsWhite(s[0]) then 0
    else
      var n := 1 + RunLength(s[1..]);
      assert s[..n] == [s[0]] + s[1..][..n - 1];
      n
  }

  /** `split_whitespace`: the maximal runs of non-whitespace characters, in order. */
  function Words(s: string): (ws: seq<string>)
    decreases |s|
  {
    var t := TrimStart(s);
    if t == [] then []
    else
      var n := RunLength(t);
      [t[..n]] + Words(t[n..])
  }

  /** Every word is a non-empty run without whitespace. */
  lemma {:induction false} WordsAreWords(s: string)
    ensures forall k :: 0 <= k < |Words(s)| ==> Words(s)[k] != [] && NoWhite(Words(s)[k])
    decreases |s|
  {
    var t := TrimStart(s);
    if t != [] {
      var n := RunLength(t);
      WordsAreWords(t[n..]);
      var ws := Words(s);
      assert ws == [t[..n]] + Words(t[n..]);
      forall k | 0 <= k < |ws| ensures ws[k] != [] && NoWhite(ws[k]) {
        if k > 0 {
          assert ws[k] == Words(t[n..])[k - 1];
        }
      }
    }
  }

  lemma WordsEmptyIffAllWhite(s: string)
    ensures Words(s) == [] <==> AllWhite(s)
  {
    var t := TrimStart(s);
    if t == [] {
      TrimStartCuts(s);
      assert s == s[..|s| - |t|];
    } else {
      assert !IsWhite(s[|s| - |t|]);
    }
  }

  /** Position of the first occurrence of character `c`. */
  function IndexOf(s: string, c: char): (r: Option<nat>)
    ensures r.None? ==> c !in s
    ensures r.Some? ==> r.value < |s| && s[r.value] == c && c !in s[..r.value]
  {
    if s == [] then None
    else if s[0] == c then Some(0)
    else match IndexOf(s[1..], c)
      case None => None
      case Some(i) =>
        assert s[..i + 1] == [s[0]] + s[1..][..i];
        Some(i + 1)
  }

  /** A piece that a line feed ended, as `str::lines` yields it: the
      carriage return of a `\r\n` terminator removed. */
  function StripCr(l: string): (r: string)
    ensures r == l || (l == r + "\r")
  {
    if l != [] && l[|l| - 1] == '\r' then l[..|l| - 1] else l
  }

  /** `str::lines`: the text split at each line feed, a final line feed not
      starting an extra empty line, a carriage return removed only where it
      comes just before a line feed. */
  function Lines(s: string): (ls: seq<string>)
    ensures forall k :: 0 <= k < |ls| ==> '\n' !in ls[k]
    decreases |s|
  {
    if s == [] then []
    else
      match IndexOf(s, '\n')
      case None => [s]
      case Some(i) => [StripCr(s[..i])] + Lines(s[i + 1..])
  }

  /** The line endings `str::lines` knows are `\n` and `\r\n`; a last line
      without a line feed is kept whole, a bare carriage return included. */
  lemma LinesSplit(l: string, rest: string)
    requires '\n' !in l
    ensures Lines(l + "\n" + rest) == [StripCr(l)] + Lines(rest)
    ensures Lines(l + "\r\n" + rest) == [l] + Lines(rest)
    ensures l != [] ==> Lines(l) == [l]
  {
    LinesAtFeed(l, rest);
    var u := l + "\r";
    assert '\n' !in u;
    assert l + "\r\n" == u + "\n";
    LinesAtFeed(u, rest);
    assert StripCr(u) == l by {
      assert u[..|u| - 1] == l;
    }
    if l != [] {
      assert IndexOf(l, '\n') == None;
    }
  }

  /** The piece before the first line feed is the first line. */
  lemma LinesAtFeed(l: string, rest: string)
    requires '\n' !in l
    ensures Lines(l + "\n" + rest) == [StripCr(l)] + Lines(rest)
  {
    var s := l + "\n" + rest;
    assert s[..|l|] == l && s[|l| + 1..] == rest && s[|l|] == '\n';
    IndexOfFirst(s, '\n', |l|);
  }

  /** The first position of `c` is the one with no `c` before it. */
  lemma IndexOfFirst(s: string, c: char, i: nat)
    requires i < |s| && s[i] == c && c !in s[..i]
    ensures IndexOf(s, c) == Some(i)
  {
  }

  /** Each line followed by a line feed. */
  function Unlines(ls: seq<string>): string {
    if ls == [] then [] else ls[0] + "\n" + Unlines(ls[1..])
  }

  /** One line more in front: the round trip of the rest carries over. */
  lemma UnlinesStep(l: string, ls: seq<string>, rest: string)
    requires Unlines(ls) == if rest == [] || rest[|rest| - 1] == '\n' then rest else rest + "\n"
    ensures var s := l + "\n" + rest;
      Unlines([l] + ls) == if s[|s| - 1] == '\n' then s else s + "\n"
  {
    assert ([l] + ls)[1..] == ls;
    if rest != [] {
      assert (l + "\n" + rest)[|l + "\n" + rest| - 1] == rest[|rest| - 1];
    }
  }

  /** Without carriage returns, splitting into lines loses nothing but a
      missing final line feed. */
  lemma {:induction false} LinesRoundTrip(s: string)
    requires '\r' !in s
    ensures Unlines(Lines(s)) == if s == [] || s[|s| - 1] == '\n' then s else s + "\n"
    decreases |s|
  {
    if s != [] {
      match IndexOf(s, '\n')
      case None =>
        assert Unlines([s]) == s + "\n" + Unlines([]);
      case Some(i) =>
        var l, rest := s[..i], s[i + 1..];
        assert s == l + "\n" + rest;
        assert StripCr(l) == l by {
          assert l == [] || l[|l| - 1] == s[i - 1];
        }
        LinesRoundTrip(rest);
        UnlinesStep(l, Lines(rest), rest);
    }
  }
}
