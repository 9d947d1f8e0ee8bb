/**
 The parts of the C string library that the modelled code uses.  A C `char` is a
 Dafny `char` whose value is below 256; a C string is a `string` without NUL, and a
 C buffer is an array or a `string` that may hold NULs.
 */
module CStrings {
  import opened Wrappers

  const NUL := '\0'

  // Character classes of the C locale.
  predicate IsDigit(c: char) { '0' <= c <= '9' }
  predicate IsLower(c: char) { 'a' <= c <= 'z' }
  predicate IsUpper(c: char) { 'A' <= c <= 'Z' }
  predicate IsAlnum(c: char) { IsDigit(c) || IsLower(c) || IsUpper(c) }
  predicate IsXDigit(c: char) { IsDigit(c) || 'a' <= c <= 'f' || 'A' <= c <= 'F' }
  predicate IsPrint(c: char) { 32 <= c as int < 127 }
  predicate IsSpace(c: char) { c == ' ' || 9 <= c as int <= 13 }

  // h is a hexadecimal digit of value v, in upper or lower case, by its ASCII code.
  ghost predicate HexOf(h: char, v: int) {
    (0 <= v < 10 && h as int == 48 + v) || (10 <= v < 16 && (h as int == 55 + v || h as int == 87 + v))
  }

  ghost predicate IsHex(h: char) {
    exists v: int :: HexOf(h, v)
  }

  // t starts with a percent sign and the two digits of c (section 2.1 of RFC 3986).
  ghost predicate EscapeOf(t: string, c: char) {
    |t| > 2 && t[0] == '%' && exists hi: int, lo: int :: HexOf(t[1], hi) && HexOf(t[2], lo) && c as int == 16 * hi + lo
  }

  ghost predicate StartsEscape(t: string) {
    |t| > 2 && t[0] == '%' && IsHex(t[1]) && IsHex(t[2])
  }

  lemma HexIsUnique(h: char, v: int, w: int)
    requires HexOf(h, v) && HexOf(h, w)
    ensures v == w
  {
  }

  // Every character is white space: a blank, a tab, a line break or one of the other controls
  // from 9 to 13.
  ghost predicate WhiteSpace(s: string) {
    forall i :: 0 <= i < |s| ==> IsBlankCode(s[i] as int)
  }

  ghost predicate IsBlankCode(n: int) { n == 32 || 8 < n < 14 }

  // Every element is an octet.
  ghost predicate Octets(s: string) {
    forall i :: 0 <= i < |s| ==> s[i] as int < 256
  }

  // s holds no NUL, so it can be the contents of a C string.
  ghost predicate NoNul(s: string) {
    NUL !in s
  }

  // strcspn: the first position at or after `from` whose character is a stop, or |s|.
  function Span(s: string, from: nat, stop: char -> bool): (e: nat)
    requires from <= |s|
    ensures from <= e <= |s|
    decreases |s| - from
  {
    if from == |s| || stop(s[from]) then from else Span(s, from + 1, stop)
  }

  lemma {:induction false} SpanStops(s: string, from: nat, stop: char -> bool)
    requires from <= |s|
    ensures var e := Span(s, from, stop);
      && (forall k :: from <= k < e ==> !stop(s[k]))
      && (e < |s| ==> stop(s[e]))
    decreases |s| - from
  {
    if from < |s| && !stop(s[from]) {
      SpanStops(s, from + 1, stop);
    }
  }

  lemma {:induction false} SpanAtMost(s: string, from: nat, stop: char -> bool, k: nat)
    requires from <= k < |s| && stop(s[k])
    ensures Span(s, from, stop) <= k
    decreases k - from
  {
    if from < k && !stop(s[from]) {
      SpanAtMost(s, from + 1, stop, k);
    }
  }

  // A span is determined by what stops it.
  lemma {:induction false} SpanIs(s: string, from: nat, stop: char -> bool, e: nat)
    requires from <= e <= |s|
    requires forall k :: from <= k < e ==> !stop(s[k])
    requires e < |s| ==> stop(s[e])
    ensures Span(s, from, stop) == e
    decreases |s| - from
  {
    if from < e {
      SpanIs(s, from + 1, stop, e);
    }
  }

  function IsNul(): char -> bool { c => c == NUL }

  // The C string at offset `off` of a buffer.
  function CStr(s: string, off: nat): string
    requires off <= |s|
  {
    s[off..Span(s, off, IsNul())]
  }

  // The C string w is at offset b of the buffer s.
  ghost predicate HoldsAt(s: string, b: nat, w: string) {
    b + |w| < |s| && s[b..b + |w|] == w && NoNul(w) && s[b + |w|] == NUL
  }

  lemma HoldsEmpty(s: string, b: nat, w: string)
    requires HoldsAt(s, b, w)
    ensures s[b] == NUL <==> w == ""
  {
    if w != "" {
      assert s[b..b + |w|][0] == w[0];
    }
  }

  lemma HoldsIsCStr(s: string, b: nat, w: string)
    requires HoldsAt(s, b, w)
    ensures CStr(s, b) == w
  {
    assert forall k :: b <= k < b + |w| ==> s[k] == w[k - b];
    SpanIs(s, b, IsNul(), b + |w|);
  }

  // e is d with t copied to position `off`: what memcpy and recv leave behind.
  ghost predicate Copied(d: string, e: string, off: nat, t: string) {
    && off + |t| <= |d| && |e| == |d|
    && (forall i :: off <= i < off + |t| ==> e[i] == t[i - off])
    && (forall i :: 0 <= i < off || off + |t| <= i < |d| ==> e[i] == d[i])
  }

  lemma CopiedTwice(d: string, e: string, f: string, off: nat, t: string, next: nat, u: string)
    requires Copied(d, e, off, t) && Copied(e, f, next, u) && next == off + |t|
    ensures Copied(d, f, off, t + u)
  {
  }

  lemma CopiedIs(d: string, e: string, off: nat, t: string)
    requires Copied(d, e, off, t)
    ensures e == d[..off] + t + d[off + |t|..]
  {
  }

  // The text at off..off+|t| of a buffer.
  ghost predicate TextAt(b: string, off: nat, t: string) {
    off + |t| <= |b| && forall k :: off <= k < off + |t| ==> b[k] == t[k - off]
  }

  lemma TextIsHeld(b: string, off: nat, t: string)
    requires TextAt(b, off, t) && off + |t| < |b| && b[off + |t|] == NUL && NoNul(t)
    ensures HoldsAt(b, off, t)
  {
    assert b[off..off + |t|] == t;
  }

  // t is s with some characters left out.
  predicate Subsequence(t: string, s: string)
    decreases |s|
  {
    t == "" || (s != "" && ((t[0] == s[0] && Subsequence(t[1..], s[1..])) || Subsequence(t, s[1..])))
  }

  lemma {:induction false} SubsequenceOfMore(t: string, s: string, n: nat)
    requires n <= |s| && Subsequence(t, s[n..])
    ensures Subsequence(t, s)
    decreases n
  {
    if n > 0 {
      assert s[n..] == s[1..][n - 1..];
      SubsequenceOfMore(t, s[1..], n - 1);
    }
  }

  lemma SubsequenceCons(t: string, s: string, n: nat)
    requires 1 <= n <= |s| && Subsequence(t, s[n..])
    ensures Subsequence([s[0]] + t, s)
  {
    assert s[1..][n - 1..] == s[n..];
    SubsequenceOfMore(t, s[1..], n - 1);
    assert ([s[0]] + t)[1..] == t;
  }

  lemma {:induction false} SubsequenceLacks(t: string, s: string, c: char)
    requires Subsequence(t, s) && c !in s
    ensures c !in t
    decreases |s|
  {
    if t != "" {
      if t[0] == s[0] && Subsequence(t[1..], s[1..]) {
        SubsequenceLacks(t[1..], s[1..], c);
      } else {
        SubsequenceLacks(t, s[1..], c);
      }
    }
  }

  // One text per character of s, in order.
  function Flat(f: char -> string, s: string): string {
    if s == "" then "" else f(s[0]) + Flat(f, s[1..])
  }

  lemma {:induction false} FlatAppend(f: char -> string, s: string, t: string)
    ensures Flat(f, s + t) == Flat(f, s) + Flat(f, t)
  {
    if s == "" {
      assert s + t == t;
    } else {
      assert (s + t)[1..] == s[1..] + t;
      FlatAppend(f, s[1..], t);
    }
  }

  lemma FlatSnoc(f: char -> string, s: string, c: char)
    ensures Flat(f, s + [c]) == Flat(f, s) + f(c)
  {
    FlatAppend(f, s, [c]);
    assert [c][1..] == "" && Flat(f, [c]) == f(c) + "";
  }

  // strchr and strrchr: a position, or none.
  function First(s: string, c: char): (r: Option<nat>)
    ensures match r
      case None => c !in s
      case Some(i) => i < |s| && s[i] == c && forall k :: 0 <= k < i ==> s[k] != c
  {
    if s == "" then None
    else if s[0] == c then Some(0)
    else
      var r := First(s[1..], c);
      assert s == [s[0]] + s[1..];
      if r.None? then None else
        assert forall k :: 1 <= k <= r.value ==> s[k] == s[1..][k - 1];
        Some(r.value + 1)
  }

  function Last(s: string, c: char): (r: Option<nat>)
    ensures match r
      case None => c !in s
      case Some(i) => i < |s| && s[i] == c && forall k :: i < k < |s| ==> s[k] != c
  {
    if s == "" then None
    else if s[|s| - 1] == c then Some(|s| - 1)
    else
      var t := s[..|s| - 1];
      assert s == t + [s[|s| - 1]];
      Last(t, c)
  }

  lemma LastIs(s: string, c: char, i: nat)
    requires i < |s| && s[i] == c && forall k :: i < k < |s| ==> s[k] != c
    ensures Last(s, c) == Some(i)
  {
  }

  // The first position at which w occurs in s (strstr).
  function IndexOf(s: string, w: string): Option<nat> {
    if w <= s then Some(0)
    else if s == "" then None
    else match IndexOf(s[1..], w)
      case None => None
      case Some(i) => Some(i + 1)
  }

  lemma {:induction false} IndexOfIs(s: string, w: string, i: nat)
    requires i <= |s| && w <= s[i..]
    requires forall k :: 0 <= k < i ==> !(w <= s[k..])
    ensures IndexOf(s, w) == Some(i)
  {
    assert s[0..] == s;
    if i > 0 {
      forall k | 0 <= k < i - 1 ensures !(w <= s[1..][k..]) {
        assert s[1..][k..] == s[k + 1..];
      }
      assert s[1..][i - 1..] == s[i..];
      IndexOfIs(s[1..], w, i - 1);
    }
  }

  lemma {:induction false} IndexOfFinds(s: string, w: string)
    ensures match IndexOf(s, w)
      case None => forall k :: 0 <= k <= |s| ==> !(w <= s[k..])
      case Some(i) => i <= |s| && w <= s[i..] && forall k :: 0 <= k < i ==> !(w <= s[k..])
  {
    assert s[0..] == s;
    if !(w <= s) && s != "" {
      IndexOfFinds(s[1..], w);
      assert forall k :: 1 <= k <= |s| ==> s[k..] == s[1..][k - 1..];
    }
  }

  // w occurs in s at position k.
  ghost predicate OccursAt(s: string, w: string, k: nat) {
    k + |w| <= |s| && s[k..k + |w|] == w
  }

  lemma OccursIsPrefix(s: string, w: string, k: nat)
    requires k <= |s|
    ensures w <= s[k..] <==> OccursAt(s, w, k)
  {
    if k + |w| <= |s| {
      assert s[k..][..|w|] == s[k..k + |w|];
    }
  }

  lemma OccursChar(s: string, w: string, k: nat, j: nat)
    requires j < |w|
    ensures OccursAt(s, w, k) ==> k + j < |s| && s[k + j] == w[j]
  {
    if k + |w| <= |s| {
      assert s[k..k + |w|][j] == s[k + j];
    }
  }

  // An occurrence inside a part t of s is one in t.
  lemma OccursInside(s: string, t: string, a: nat, w: string, i: nat)
    requires a + |t| <= |s| && s[a..a + |t|] == t && i + |w| <= |t|
    ensures OccursAt(s, w, a + i) <==> OccursAt(t, w, i)
  {
    var b := a + i;
    assert t[i..] == s[b..a + |t|];
    assert t[i..][..|w|] == t[i..i + |w|];
    assert s[b..a + |t|][..|w|] == s[b..b + |w|];
  }
}
