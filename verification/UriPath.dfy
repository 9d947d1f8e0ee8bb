/**
 What the HTTP engine does to a request URI before the handler sees it (url_decode,
 remove_double_dots_and_double_slashes and handle_request in server/mongoose.c), all
 of it in the request buffer itself.
 */
module UriPath {
  import opened Wrappers
  import opened CStrings
  import opened Collecting

  // ------------------------------------------------------------ percent-decoding

  function HexValue(c: char): (v: int)
    ensures IsXDigit(c) ==> 0 <= v < 16
  {
    if IsDigit(c) then c as int - '0' as int
    else if IsUpper(c) then c as int - 'A' as int + 10
    else c as int - 'a' as int + 10
  }

  // A percent-encoded octet at the start of s (section 2.1 of RFC 3986).
  predicate StartsEncoded(s: string) {
    |s| > 2 && s[0] == '%' && IsXDigit(s[1]) && IsXDigit(s[2])
  }

  // The first decoded character and the text after it.
  function DecodeOne(s: string, form: bool): (char, string)
    requires s != ""
  {
    if StartsEncoded(s) then ((16 * HexValue(s[1]) + HexValue(s[2])) as char, s[3..])
    else if form && s[0] == '+' then (' ', s[1..])
    else (s[0], s[1..])
  }

  function Decode(s: string, form: bool): string
    decreases |s|
  {
    if s == "" then "" else
      var (c, rest) := DecodeOne(s, form);
      [c] + Decode(rest, form)
  }

  function HexDigit(n: int): char
    requires 0 <= n < 16
  {
    if n < 10 then ('0' as int + n) as char else ('A' as int + n - 10) as char
  }

  // Every octet of s percent-encoded.
  function EncodeAll(s: string): string
    requires Octets(s)
  {
    if s == "" then "" else
      ['%', HexDigit(s[0] as int / 16), HexDigit(s[0] as int % 16)] + EncodeAll(s[1..])
  }

  /** Decoding undoes percent-encoding, for every string of octets. */
  lemma {:induction false} DecodeInvertsEncodeAll(s: string, form: bool)
    requires Octets(s)
    ensures Decode(EncodeAll(s), form) == s
  {
    if s != "" {
      var e := EncodeAll(s);
      assert e[3..] == EncodeAll(s[1..]);
      assert DecodeOne(e, form) == (s[0], EncodeAll(s[1..]));
      DecodeInvertsEncodeAll(s[1..], form);
    }
  }

  /** A text without '%' (and without '+' in form data) decodes to itself. */
  lemma {:induction false} DecodeIsIdentity(s: string, form: bool)
    requires '%' !in s && (form ==> '+' !in s)
    ensures Decode(s, form) == s
  {
    if s != "" {
      DecodeIsIdentity(s[1..], form);
    }
  }

  // s is what a reader makes of t: an escape, with its digits in either case, stands for its
  // octet, a '+' in form data for a space, and every other character, also a '%' without two
  // digits, for itself.
  ghost predicate Reads(t: string, s: string, form: bool)
    decreases |t|
  {
    if t == "" then s == ""
    else if StartsEscape(t) then s != "" && EscapeOf(t, s[0]) && Reads(t[3..], s[1..], form)
    else s != "" && s[0] == (if form && t[0] == '+' then ' ' else t[0]) && Reads(t[1..], s[1..], form)
  }

  lemma HexValueIs(h: char)
    ensures IsXDigit(h) <==> IsHex(h)
    ensures IsXDigit(h) ==> HexOf(h, HexValue(h))
  {
    if IsXDigit(h) {
      assert HexOf(h, HexValue(h));
    }
  }

  lemma DecodedIsRead(t: string, form: bool, c: char)
    requires t != ""
    ensures StartsEncoded(t) <==> StartsEscape(t)
    ensures StartsEncoded(t) ==> (EscapeOf(t, c) <==> c == DecodeOne(t, form).0) && DecodeOne(t, form).1 == t[3..]
  {
    if |t| > 2 && t[0] == '%' {
      HexValueIs(t[1]);
      HexValueIs(t[2]);
      if EscapeOf(t, c) {
        var hi: int, lo: int :| HexOf(t[1], hi) && HexOf(t[2], lo) && c as int == 16 * hi + lo;
        HexIsUnique(t[1], hi, HexValue(t[1]));
        HexIsUnique(t[2], lo, HexValue(t[2]));
      }
    }
  }

  /** The decoder gives what a reader of RFC 3986 makes of the text, and nothing else. */
  lemma {:induction false} DecodeIsReading(t: string, s: string, form: bool)
    ensures Reads(t, s, form) <==> Decode(t, form) == s
    decreases |t|
  {
    hide StartsEscape, EscapeOf, HexValue, IsXDigit;
    if t != "" {
      var (c, rest) := DecodeOne(t, form);
      if s != "" {
        DecodedIsRead(t, form, s[0]);
        DecodeIsReading(rest, s[1..], form);
        assert [c] + Decode(rest, form) == s <==> c == s[0] && Decode(rest, form) == s[1..];
      } else {
        DecodedIsRead(t, form, 'x');
      }
    }
  }

  // Every octet of s percent-encoded, each digit in upper or lower case.
  ghost predicate PercentEncoded(t: string, s: string) {
    if s == "" then t == "" else EscapeOf(t, s[0]) && PercentEncoded(t[3..], s[1..])
  }

  /** Decoding undoes percent-encoding, in whatever case the digits are written. */
  lemma {:induction false} DecodeInvertsAnyCase(t: string, s: string, form: bool)
    requires PercentEncoded(t, s)
    ensures Decode(t, form) == s
  {
    hide StartsEncoded, HexValue;
    if s != "" {
      EscapeStarts(t, s[0]);
      DecodedIsRead(t, form, s[0]);
      DecodeInvertsAnyCase(t[3..], s[1..], form);
    }
  }

  lemma EscapeStarts(t: string, c: char)
    requires EscapeOf(t, c)
    ensures StartsEscape(t)
  {
  }

  // Decoding s gives `out` and then whatever `rest` gives.
  ghost predicate DecodesThen(s: string, form: bool, out: string, rest: string) {
    Decode(s, form) == out + Decode(rest, form)
  }

  lemma DecodesFirst(s: string, form: bool)
    ensures DecodesThen(s, form, "", s)
  {
    assert "" + Decode(s, form) == Decode(s, form);
  }

  lemma DecodesMore(s: string, form: bool, out: string, t: string, c: char, rest: string)
    requires t != "" && DecodesThen(s, form, out, t) && (c, rest) == DecodeOne(t, form)
    ensures DecodesThen(s, form, out + [c], rest)
  {
    assert out + ([c] + Decode(rest, form)) == out + [c] + Decode(rest, form);
  }

  lemma DecodedPrefix(s: string, form: bool, out: string, rest: string)
    requires DecodesThen(s, form, out, rest)
    ensures |out| <= |Decode(s, form)| && Decode(s, form)[..|out|] == out
    ensures rest != "" <==> |out| < |Decode(s, form)|
  {
  }

  // One turn of the decoder on src[at..end]: the character to store, and where to go on.
  method ReadOne(src: array<char>, at: nat, end: nat, form: bool) returns (c: char, next: nat)
    requires at < end <= src.Length
    ensures at < next <= end
    ensures (c, src[next..end]) == DecodeOne(src[at..end], form)
  {
    ghost var s := src[at..end];
    assert forall k :: 0 <= k < |s| ==> s[k] == src[at + k];
    if src[at] == '%' && at + 2 < end && IsXDigit(src[at + 1]) && IsXDigit(src[at + 2]) {
      assert s[3..] == src[at + 3..end];
      return (16 * HexValue(src[at + 1]) + HexValue(src[at + 2])) as char, at + 3;
    }
    assert s[1..] == src[at + 1..end];
    return if form && src[at] == '+' then ' ' else src[at], at + 1;
  }

  /** url_decode: when source and destination are the same buffer, the result is the same
      as when they are different ones, because the write index never passes the read index. */
  method UrlDecode(src: array<char>, srcOff: nat, srcLen: nat, dst: array<char>, dstOff: nat, dstLen: nat, form: bool)
    returns (j: nat)
    requires srcOff + srcLen <= src.Length
    requires 0 < dstLen && dstOff + dstLen <= dst.Length
    requires src == dst ==> srcOff == dstOff
    modifies dst
    ensures var d := Decode(old(src[srcOff..srcOff + srcLen]), form);
      && j == (if |d| < dstLen then |d| else dstLen - 1)
      && TextAt(dst[..], dstOff, d[..j])
    ensures dst[dstOff + j] == NUL
    ensures forall k :: 0 <= k < dstOff || dstOff + j < k < dst.Length ==> dst[k] == old(dst[k])
  {
    hide DecodeOne, Decode, DecodesThen;
    ghost var s, out := src[srcOff..srcOff + srcLen], "";
    ghost var rest := s;
    var i, end := srcOff, srcOff + srcLen;
    j := 0;
    DecodesFirst(s, form);
    while i < end && j < dstLen - 1
      invariant srcOff + j <= i <= end && j <= dstLen - 1 && |out| == j
      invariant src[i..end] == rest
      invariant DecodesThen(s, form, out, rest)
      invariant TextAt(dst[..], dstOff, out)
      invariant forall k :: 0 <= k < dstOff || dstOff + j <= k < dst.Length ==> dst[k] == old(dst[k])
    {
      var c, next := ReadOne(src, i, end, form);
      ghost var more := src[next..end];
      DecodesMore(s, form, out, rest, c, more);
      dst[dstOff + j] := c;
      assert src[next..end] == more;
      rest, out := more, out + [c];
      i := next;
      j := j + 1;
    }
    dst[dstOff + j] := NUL;
    DecodedPrefix(s, form, out, rest);
  }

  // ----------------------------------------------------------------- cleaning

  predicate IsSep(c: char) { c == '/' || c == '\\' }

  function SkipSeps(s: string): (r: string)
    ensures |r| <= |s|
    ensures r != "" ==> !IsSep(r[0])
  {
    if s != "" && IsSep(s[0]) then SkipSeps(s[1..]) else s
  }

  predicate DotsAhead(s: string) { |s| >= 2 && s[0] == '.' && s[1] == '.' }

  function SkipDots(s: string): (r: string)
    ensures |r| <= |s|
    ensures !DotsAhead(r)
  {
    if DotsAhead(s) then SkipDots(s[2..]) else s
  }

  // remove_double_dots_and_double_slashes on the C string s.
  function Clean(s: string): string
    decreases |s|
  {
    if s == "" then ""
    else [s[0]] + Clean(CleanRest(s))
  }

  // Where the cleaner goes on after copying the first character of s.
  function CleanRest(s: string): (r: string)
    requires s != ""
    ensures |r| < |s|
  {
    if IsSep(s[0]) then SkipDots(SkipSeps(s[1..])) else s[1..]
  }

  // t is what is left of s after its first characters.
  ghost predicate IsTail(t: string, s: string) {
    |t| <= |s| && t == s[|s| - |t|..]
  }

  lemma {:induction false} SkipSepsIsTail(s: string)
    ensures IsTail(SkipSeps(s), s)
  {
    if s != "" && IsSep(s[0]) {
      SkipSepsIsTail(s[1..]);
    }
  }

  lemma {:induction false} SkipDotsIsTail(s: string)
    ensures IsTail(SkipDots(s), s)
  {
    if DotsAhead(s) {
      SkipDotsIsTail(s[2..]);
    }
  }

  lemma CleanRestIsTail(s: string)
    requires s != ""
    ensures IsTail(CleanRest(s), s)
  {
    SkipSepsIsTail(s[1..]);
    SkipDotsIsTail(SkipSeps(s[1..]));
  }

  // Some separator is directly followed by two dots; by another separator.
  ghost predicate SepThenDots(s: string) {
    exists i :: 0 <= i < |s| && IsSep(s[i]) && DotsAhead(s[i + 1..])
  }

  ghost predicate DoubleSep(s: string) {
    exists i :: 0 <= i < |s| - 1 && IsSep(s[i]) && IsSep(s[i + 1])
  }

  lemma SepThenDotsStep(c: char, s: string)
    ensures SepThenDots([c] + s) <==> (IsSep(c) && DotsAhead(s)) || SepThenDots(s)
  {
    var t := [c] + s;
    assert t[1..] == s;
    assert forall i :: 0 <= i < |s| ==> s[i] == t[i + 1] && s[i + 1..] == t[i + 2..];
    if SepThenDots(s) {
      var i :| 0 <= i < |s| && IsSep(s[i]) && DotsAhead(s[i + 1..]);
      assert IsSep(t[i + 1]) && DotsAhead(t[i + 2..]);
    }
    if IsSep(c) && DotsAhead(s) {
      assert IsSep(t[0]) && DotsAhead(t[1..]);
    }
    if SepThenDots(t) {
      var i :| 0 <= i < |t| && IsSep(t[i]) && DotsAhead(t[i + 1..]);
      if i > 0 {
        assert IsSep(s[i - 1]) && DotsAhead(s[i..]);
      }
    }
  }

  lemma DoubleSepStep(c: char, s: string)
    ensures DoubleSep([c] + s) <==> (IsSep(c) && s != "" && IsSep(s[0])) || DoubleSep(s)
  {
    var t := [c] + s;
    if DoubleSep(s) {
      var i :| 0 <= i < |s| - 1 && IsSep(s[i]) && IsSep(s[i + 1]);
      assert IsSep(t[i + 1]) && IsSep(t[i + 2]);
    }
    if IsSep(c) && s != "" && IsSep(s[0]) {
      assert IsSep(t[0]) && IsSep(t[1]);
    }
    if DoubleSep(t) {
      var i :| 0 <= i < |t| - 1 && IsSep(t[i]) && IsSep(t[i + 1]);
      if i > 0 {
        assert IsSep(s[i - 1]) && IsSep(s[i]);
      }
    }
  }

  // The first two characters of a cleaned text come from the text.
  lemma CleanStart(s: string)
    ensures Clean(s) == "" <==> s == ""
    ensures s != "" ==> Clean(s)[0] == s[0]
    ensures DotsAhead(Clean(s)) <==> DotsAhead(s)
  {
    if s != "" {
      var r := CleanRest(s);
      assert Clean(s) == [s[0]] + Clean(r);
      if r != "" {
        assert Clean(r) == [r[0]] + Clean(CleanRest(r));
        assert Clean(s)[1] == r[0];
      } else {
        assert Clean(s) == [s[0]];
      }
    }
  }

  /** No separator of the cleaned path is directly followed by two dots. */
  lemma {:induction false} CleanRemovesDoubleDots(s: string)
    ensures !SepThenDots(Clean(s))
    decreases |s|
  {
    if s != "" {
      var r := CleanRest(s);
      CleanRemovesDoubleDots(r);
      CleanStart(r);
      SepThenDotsStep(s[0], Clean(r));
    }
  }

  lemma StepUpIsFound(t: string, w: string, k: nat)
    requires w == "/.." || w == "\\.."
    ensures OccursAt(t, w, k) ==> SepThenDots(t)
  {
    if OccursAt(t, w, k) {
      assert t[k] == w[0] && t[k + 1..][0] == w[1] && t[k + 1..][1] == w[2];
      assert IsSep(t[k]) && DotsAhead(t[k + 1..]);
    }
  }

  /** So it holds neither "/.." nor "\..". */
  lemma CleanHasNoStepUp(s: string, k: nat)
    ensures !OccursAt(Clean(s), "/..", k) && !OccursAt(Clean(s), "\\..", k)
  {
    CleanRemovesDoubleDots(s);
    StepUpIsFound(Clean(s), "/..", k);
    StepUpIsFound(Clean(s), "\\..", k);
  }

  /** The cleaner only leaves characters out. */
  lemma {:induction false} CleanLeavesOut(s: string)
    ensures Subsequence(Clean(s), s)
    decreases |s|
  {
    if s != "" {
      var r := CleanRest(s);
      CleanLeavesOut(r);
      CleanRestIsTail(s);
      SubsequenceCons(Clean(r), s, |s| - |r|);
    }
  }

  /** The cleaner changes exactly the paths in which a separator is directly followed by
      another separator or by two dots. */
  lemma {:induction false} CleanIsIdentity(s: string)
    ensures Clean(s) == s <==> !SepThenDots(s) && !DoubleSep(s)
    decreases |s|
  {
    if s != "" {
      var t, r := s[1..], CleanRest(s);
      assert s == [s[0]] + t;
      SepThenDotsStep(s[0], t);
      DoubleSepStep(s[0], t);
      CleanShrinks(r);
      if r == t {
        CleanIsIdentity(t);
        assert Clean(s) == s <==> Clean(t) == t;
        assert IsSep(s[0]) ==> !DotsAhead(t) && (t != "" ==> !IsSep(t[0]));
      } else {
        assert |r| < |t|;
        assert IsSep(s[0]) && t != "" && (IsSep(t[0]) || DotsAhead(t));
      }
    }
  }

  lemma {:induction false} CleanShrinks(s: string)
    ensures |Clean(s)| <= |s|
    decreases |s|
  {
    if s != "" {
      CleanShrinks(CleanRest(s));
    }
  }

  // A path that is changed gets shorter.
  lemma {:induction false} CleanChangesLength(s: string)
    ensures |Clean(s)| == |s| ==> Clean(s) == s
    decreases |s|
  {
    if s != "" {
      var r := CleanRest(s);
      CleanShrinks(r);
      CleanRestIsTail(s);
      CleanChangesLength(r);
    }
  }

  // The characters that are no separators and no dots, and the number of dots.
  ghost function Others(s: string): string {
    if s == "" then "" else if IsSep(s[0]) || s[0] == '.' then Others(s[1..]) else [s[0]] + Others(s[1..])
  }

  ghost function Dots(s: string): nat {
    if s == "" then 0 else (if s[0] == '.' then 1 else 0) + Dots(s[1..])
  }

  lemma {:induction false} SkippingKeepsOthers(s: string)
    ensures Others(SkipSeps(s)) == Others(s) && Dots(SkipSeps(s)) == Dots(s)
    ensures Others(SkipDots(s)) == Others(s) && Dots(SkipDots(s)) % 2 == Dots(s) % 2
    decreases |s|
  {
    if s != "" && IsSep(s[0]) {
      SkippingKeepsOthers(s[1..]);
    }
    if DotsAhead(s) {
      assert s[1..][1..] == s[2..];
      SkippingKeepsOthers(s[2..]);
    }
  }

  /** The cleaner keeps all characters but separators and dots, and drops dots in pairs only. */
  lemma {:induction false} CleanKeepsOthers(s: string)
    ensures Others(Clean(s)) == Others(s)
    ensures Dots(Clean(s)) % 2 == Dots(s) % 2
    decreases |s|
  {
    if s != "" {
      var r := CleanRest(s);
      SkippingKeepsOthers(s[1..]);
      SkippingKeepsOthers(SkipSeps(s[1..]));
      CleanKeepsOthers(r);
      assert ([s[0]] + Clean(r))[1..] == Clean(r);
    }
  }

  // Past the separators and the double dots that follow, s goes on with a separator.
  ghost predicate DotsThenSep(s: string) {
    var v := SkipDots(SkipSeps(s));
    v != SkipSeps(s) && v != "" && IsSep(v[0])
  }

  // Somewhere in s, a separator is followed by separators, at least one "..", and a separator.
  ghost predicate LeavesDouble(s: string) {
    s != "" && ((IsSep(s[0]) && DotsThenSep(s[1..])) || LeavesDouble(s[1..]))
  }

  lemma {:induction false} LeavesDoublePastSeps(s: string)
    ensures LeavesDouble(s) || DotsThenSep(s) <==> LeavesDouble(SkipSeps(s)) || DotsThenSep(s)
  {
    if s != "" && IsSep(s[0]) {
      LeavesDoublePastSeps(s[1..]);
    }
  }

  lemma {:induction false} LeavesDoublePastDots(s: string)
    ensures LeavesDouble(s) <==> LeavesDouble(SkipDots(s))
  {
    if DotsAhead(s) {
      assert s[1..][1..] == s[2..];
      LeavesDoublePastDots(s[2..]);
    }
  }

  /** The cleaned path still has two separators in a row exactly when, in the path, some
      separator is followed by double dots and then by another separator. */
  lemma {:induction false} CleanLeavesDoubleSep(s: string)
    ensures DoubleSep(Clean(s)) <==> LeavesDouble(s)
    decreases |s|
  {
    if s != "" {
      var t, r := s[1..], CleanRest(s);
      DoubleSepStep(s[0], Clean(r));
      CleanStart(r);
      CleanLeavesDoubleSep(r);
      if IsSep(s[0]) {
        LeavesDoublePastSeps(t);
        LeavesDoublePastDots(SkipSeps(t));
      }
    }
  }

  /** So cleaning twice is cleaning once exactly for the paths without that pattern. */
  lemma CleanIsIdempotent(s: string)
    ensures Clean(Clean(s)) == Clean(s) <==> !LeavesDouble(s)
  {
    CleanRemovesDoubleDots(s);
    CleanLeavesDoubleSep(s);
    CleanIsIdentity(Clean(s));
  }

  // One path that takes two rounds.
  lemma CleanNotIdempotent() returns (p: string)
    ensures p == "/../b" && Clean(Clean(p)) != Clean(p)
  {
    p := "/../b";
    assert LeavesDouble(p) by {
      assert p[1..] == "../b" && p[1..][2..] == "/b";
      assert SkipDots("../b") == SkipDots("/b");
    }
    CleanIsIdempotent(p);
  }

  // ------------------------------------------------------------ in the buffer

  // One turn of the cleaner: the character it keeps and where it goes on.
  function CleanOne(s: string): Option<(char, string)> {
    if s == "" then None else Some((s[0], CleanRest(s)))
  }

  lemma {:induction false} CleanIsUnfold(s: string)
    ensures Shrinks(CleanOne) && Unfold(CleanOne, s) == Clean(s)
    decreases |s|
  {
    assert Shrinks(CleanOne);
    if s != "" {
      CleanIsUnfold(CleanRest(s));
    }
  }

  lemma {:induction false} SkipSepsIs(s: string, n: nat)
    requires n <= |s| && forall i :: 0 <= i < n ==> IsSep(s[i])
    requires n == |s| || !IsSep(s[n])
    ensures SkipSeps(s) == s[n..]
  {
    if n > 0 {
      SkipSepsIs(s[1..], n - 1);
      assert s[1..][n - 1..] == s[n..];
    }
  }

  lemma {:induction false} SkipDotsIs(s: string, n: nat)
    requires n <= |s| && n % 2 == 0 && forall i :: 0 <= i < n ==> s[i] == '.'
    requires !DotsAhead(s[n..])
    ensures SkipDots(s) == s[n..]
    decreases n
  {
    if n > 0 {
      assert s[2..][n - 2..] == s[n..];
      SkipDotsIs(s[2..], n - 2);
    }
  }

  method SkipSepsAt(buf: array<char>, p: nat, ghost z: nat) returns (next: nat)
    requires p <= z < buf.Length && buf[z] == NUL
    ensures p <= next <= z && buf[next..z] == SkipSeps(buf[p..z])
  {
    next := p;
    while IsSep(buf[next])
      invariant p <= next <= z
      invariant forall k :: p <= k < next ==> IsSep(buf[k])
      decreases z - next
    {
      next := next + 1;
    }
    SkipSepsIs(buf[p..z], next - p);
    assert buf[p..z][next - p..] == buf[next..z];
  }

  method SkipDotsAt(buf: array<char>, p: nat, ghost z: nat) returns (next: nat)
    requires p <= z < buf.Length && buf[z] == NUL
    ensures p <= next <= z && buf[next..z] == SkipDots(buf[p..z])
  {
    next := p;
    while buf[next] == '.' && buf[next + 1] == '.'
      invariant p <= next <= z && (next - p) % 2 == 0
      invariant forall k :: p <= k < next ==> buf[k] == '.'
      decreases z - next
    {
      next := next + 2;
    }
    assert buf[p..z][next - p..] == buf[next..z];
    SkipDotsIs(buf[p..z], next - p);
  }

  // Where the cleaner goes on after the character at r.
  method SkipAhead(buf: array<char>, r: nat, ghost z: nat) returns (next: nat)
    requires r < z < buf.Length && buf[z] == NUL
    ensures r < next <= z && buf[next..z] == CleanRest(buf[r..z])
  {
    next := r + 1;
    assert buf[r..z][1..] == buf[next..z];
    if IsSep(buf[r]) {
      next := SkipSepsAt(buf, next, z);
      next := SkipDotsAt(buf, next, z);
    }
  }

  lemma {:induction false} CleanKeepsNoNul(s: string)
    requires NoNul(s)
    ensures NoNul(Clean(s))
    decreases |s|
  {
    if s != "" {
      CleanRestIsTail(s);
      CleanKeepsNoNul(CleanRest(s));
    }
  }

  // The cleaner's loop, which copies what it keeps to the front.
  method CleanLoop(buf: array<char>, off: nat, ghost z: nat) returns (w: nat, ghost out: string)
    requires off <= z < buf.Length && buf[z] == NUL && forall k :: off <= k < z ==> buf[k] != NUL
    modifies buf
    ensures out == Clean(old(buf[off..z])) && TextAt(buf[..], off, out) && w == off + |out| <= z
    ensures forall k :: 0 <= k < off || z <= k < buf.Length ==> buf[k] == old(buf[k])
  {
    hide CleanRest, Clean, UnfoldsThen;
    ghost var s, rest := buf[off..z], buf[off..z];
    var r := off;
    out, w := "", off;
    CleanIsUnfold(s);
    UnfoldsFirst(CleanOne, s);
    while buf[r] != NUL
      invariant w == off + |out| <= r <= z && buf[z] == NUL
      invariant forall k :: r <= k < z ==> buf[k] != NUL
      invariant buf[r..z] == rest && UnfoldsThen(CleanOne, s, out, rest)
      invariant TextAt(buf[..], off, out)
      invariant forall k :: 0 <= k < off || z <= k < buf.Length ==> buf[k] == old(buf[k])
      decreases z - r
    {
      var next := SkipAhead(buf, r, z);
      ghost var c, more := buf[r], buf[next..z];
      UnfoldsMore(CleanOne, s, out, rest);
      buf[w] := buf[r];
      assert buf[next..z] == more;
      out, rest := out + [c], more;
      w := w + 1;
      r := next;
    }
    assert rest == "";
    UnfoldsMore(CleanOne, s, out, rest);
  }

  /** remove_double_dots_and_double_slashes on the C string at `off`, in place. */
  method CleanInPlace(buf: array<char>, off: nat, ghost z: nat)
    requires off <= z < buf.Length && buf[z] == NUL && NoNul(buf[off..z])
    modifies buf
    ensures HoldsAt(buf[..], off, Clean(old(buf[off..z])))
    ensures forall k :: 0 <= k < off || z <= k < buf.Length ==> buf[k] == old(buf[k])
  {
    CleanKeepsNoNul(buf[off..z]);
    assert forall k :: off <= k < z ==> buf[k] == buf[off..z][k - off];
    var w;
    ghost var out;
    w, out := CleanLoop(buf, off, z);
    buf[w] := NUL;
    TextIsHeld(buf[..], off, out);
  }

  // ------------------------------------------------------------ the whole URI

  function IsQuestionMark(): char -> bool { c => c == '?' }

  // The part before the first '?', and the part after it.
  function RawPath(uri: string): string { uri[..Span(uri, 0, IsQuestionMark())] }

  function RawQuery(uri: string): Option<string> {
    var q := Span(uri, 0, IsQuestionMark());
    if q < |uri| then Some(uri[q + 1..]) else None
  }

  // The path the request handler sees: decoded, cut at a decoded NUL, and cleaned.
  function HandledPath(uri: string): string {
    Clean(CStr(Decode(RawPath(uri), false), 0))
  }

  lemma {:induction false} DecodeShrinks(s: string, form: bool)
    ensures |Decode(s, form)| <= |s|
    decreases |s|
  {
    if s != "" {
      DecodeShrinks(DecodeOne(s, form).1, form);
    }
  }

  // The first '?' of the C string that ends at z, or z.
  method FindQuery(buf: array<char>, off: nat, ghost z: nat) returns (q: nat)
    requires off <= z < buf.Length && buf[z] == NUL && NoNul(buf[off..z])
    ensures off <= q <= z && q - off == Span(buf[off..z], 0, IsQuestionMark())
    ensures q < z <==> buf[q] == '?'
  {
    q := off;
    ghost var s := buf[off..z];
    assert forall k :: off <= k < z ==> buf[k] == s[k - off];
    while buf[q] != NUL && buf[q] != '?'
      invariant off <= q <= z
      invariant forall k :: off <= k < q ==> buf[k] != '?'
      decreases z - q
    {
      q := q + 1;
    }
    SpanIs(s, 0, IsQuestionMark(), q - off);
  }

  // Decoding in place, seen from the C string it leaves.
  method DecodeInPlace(buf: array<char>, off: nat, len: nat) returns (ghost z: nat)
    requires off + len < buf.Length
    modifies buf
    ensures off <= z <= off + len && buf[z] == NUL && NoNul(buf[off..z])
    ensures buf[off..z] == CStr(Decode(old(buf[off..off + len]), false), 0)
    ensures forall k :: 0 <= k < off || off + len < k < buf.Length ==> buf[k] == old(buf[k])
    ensures old(buf[off + len]) == NUL ==> buf[off + len] == NUL
  {
    ghost var d := Decode(buf[off..off + len], false);
    DecodeShrinks(buf[off..off + len], false);
    var j := UrlDecode(buf, off, len, buf, off, len + 1, false);
    assert d[..j] == d;
    ghost var e := Span(d, 0, IsNul());
    SpanStops(d, 0, IsNul());
    z := off + e;
    assert buf[off..z] == d[0..e];
  }

  // Splits off the query by writing a NUL over the first '?'.
  method CutQuery(buf: array<char>, off: nat, ghost z: nat) returns (q: nat, query: Option<nat>)
    requires off <= z < buf.Length && buf[z] == NUL && NoNul(buf[off..z])
    modifies buf
    ensures off <= q <= z && q - off == Span(old(buf[off..z]), 0, IsQuestionMark())
    ensures query == if q < z then Some(q + 1) else None
    ensures buf[q] == NUL && buf[off..q] == RawPath(old(buf[off..z]))
    ensures forall k :: 0 <= k < buf.Length && k != q ==> buf[k] == old(buf[k])
  {
    q := FindQuery(buf, off, z);
    query := None;
    if buf[q] == '?' {
      query := Some(q + 1);
      buf[q] := NUL;
    }
    assert buf[off..q] == old(buf[off..z])[..q - off];
  }

  /** The URI part of handle_request, all in the request buffer: it leaves the handled path
      at the URI's offset and the query, untouched, after its '?'; it writes nothing else. */
  method HandleUri(buf: array<char>, off: nat, ghost z: nat) returns (query: Option<nat>)
    requires off <= z < buf.Length && buf[z] == NUL && NoNul(buf[off..z])
    modifies buf
    ensures HoldsAt(buf[..], off, HandledPath(old(buf[off..z])))
    ensures query.Some? <==> RawQuery(old(buf[off..z])).Some?
    ensures query.Some? ==> HoldsAt(buf[..], query.value, RawQuery(old(buf[off..z])).value)
    ensures forall k :: 0 <= k < off || z <= k < buf.Length ==> buf[k] == old(buf[k])
  {
    hide Clean, Decode, Span, RawPath;
    ghost var uri := buf[off..z];
    var q;
    q, query := CutQuery(buf, off, z);
    ghost var end := DecodeInPlace(buf, off, q - off);
    ghost var decoded := buf[off..end];
    assert HandledPath(uri) == Clean(decoded);
    assert buf[q] == NUL && forall k :: 0 <= k < off || q < k < buf.Length ==> buf[k] == old(buf[k]);
    CleanInPlace(buf, off, end);
    assert buf[q] == NUL && forall k :: 0 <= k < off || q < k < buf.Length ==> buf[k] == old(buf[k]);
    if query.Some? {
      QueryStays(old(buf[..]), buf[..], off, q, z);
      assert old(buf[..])[off..z] == old(buf[off..z]);
    }
  }

  lemma QueryStays(s: string, t: string, off: nat, q: nat, z: nat)
    requires off <= q < z < |s| && |t| == |s| && s[z] == NUL && NoNul(s[off..z])
    requires q - off == Span(s[off..z], 0, IsQuestionMark())
    requires forall k :: q < k < |s| ==> t[k] == s[k]
    ensures HoldsAt(t, q + 1, RawQuery(s[off..z]).value)
  {
    var query := RawQuery(s[off..z]).value;
    assert query == s[q + 1..z];
    assert t[q + 1..z] == s[q + 1..z];
    assert forall k :: q < k < z ==> s[k] == s[off..z][k - off];
  }
}
