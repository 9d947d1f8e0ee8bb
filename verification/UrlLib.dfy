/**
 The URL helpers of the DIAL server (server/url_lib.c): url_encode and urldecode, and the
 two functions that pick one piece out of a query string or a path.
 */
module UrlLib {
  import opened Wrappers
  import opened CStrings

  // ---------------------------------------------------------------- encoding

  // to_hex
  function ToHex(code: int): char {
    "0123456789abcdef"[code % 16]
  }

  function EncodeChar(): char -> string {
    c =>
      if IsAlnum(c) || c == '-' || c == '_' || c == '.' || c == '~' then [c]
      else if c == ' ' then "+"
      else ['%', ToHex(c as int / 16), ToHex(c as int)]
  }

  function Encode(s: string): string {
    Flat(EncodeChar(), s)
  }

  // The value of a hexadecimal digit, as append_char_from_hex reads it.
  function FromHex(c: char): Option<int> {
    if 'a' <= c <= 'f' then Some(10 + c as int - 'a' as int)
    else if 'A' <= c <= 'F' then Some(10 + c as int - 'A' as int)
    else if '0' <= c <= '9' then Some(c as int - '0' as int)
    else None
  }

  // The first decoded character and the text after it; None for a malformed escape.
  function DecodeOne(t: string): Option<(char, string)>
    requires t != ""
  {
    if t[0] == '+' then Some((' ', t[1..]))
    else if t[0] != '%' then Some((t[0], t[1..]))
    else if |t| < 3 || FromHex(t[1]).None? || FromHex(t[2]).None? then None
    else Some(((16 * FromHex(t[1]).value + FromHex(t[2]).value) as char, t[3..]))
  }

  // What urldecode stores, and whether it met no malformed escape.
  datatype Decoded = Decoded(text: string, ok: bool)

  function Decode(t: string, maxSize: nat): Decoded
    decreases maxSize
  {
    if t == "" || maxSize == 0 then Decoded("", true)
    else match DecodeOne(t)
      case None => Decoded("", false)
      case Some((c, rest)) => var d := Decode(rest, maxSize - 1); Decoded([c] + d.text, d.ok)
  }

  lemma DecodeEncodedChar(c: char, rest: string)
    requires c as int < 256
    ensures var e := EncodeChar()(c);
      1 <= |e| <= 3 && DecodeOne(e + rest) == Some((c, rest))
  {
    var e := EncodeChar()(c);
    assert (e + rest)[|e|..] == rest;
    if |e| == 3 {
      HexDigits(c as int);
    }
  }

  lemma HexDigits(n: int)
    requires 0 <= n < 256
    ensures FromHex(ToHex(n / 16)) == Some(n / 16) && FromHex(ToHex(n)) == Some(n % 16)
  {
    HexDigit(n / 16);
    HexDigit(n % 16);
  }

  lemma HexDigit(n: int)
    requires 0 <= n < 16
    ensures FromHex(ToHex(n)) == Some(n)
  {
    assert n == 0 || n == 1 || n == 2 || n == 3 || n == 4 || n == 5 || n == 6 || n == 7
        || n == 8 || n == 9 || n == 10 || n == 11 || n == 12 || n == 13 || n == 14 || n == 15;
  }

  /** urldecode undoes url_encode: it gives the first max_size characters of the original
      string, all of them when they fit. */
  lemma {:induction false} DecodeInvertsEncode(s: string, maxSize: nat)
    requires Octets(s)
    ensures Decode(Encode(s), maxSize) == Decoded(if |s| <= maxSize then s else s[..maxSize], true)
    decreases |s|
  {
    hide EncodeChar, DecodeOne;
    if s != "" && maxSize > 0 {
      DecodeEncodedChar(s[0], Encode(s[1..]));
      DecodeInvertsEncode(s[1..], maxSize - 1);
      var d := if |s| - 1 <= maxSize - 1 then s[1..] else s[1..][..maxSize - 1];
      assert [s[0]] + d == if |s| <= maxSize then s else s[..maxSize];
    }
  }

  // Characters that url_encode lets through or produces.
  predicate UrlSafe(c: char) {
    IsAlnum(c) || c == '-' || c == '_' || c == '.' || c == '~' || c == '+' || c == '%'
  }

  lemma EncodedCharIsSafe(c: char)
    ensures var e := EncodeChar()(c); 1 <= |e| <= 3 && forall i :: 0 <= i < |e| ==> UrlSafe(e[i])
  {
  }

  /** An encoded string has no character that ends a query parameter, and at most three
      characters for each one of the original. */
  lemma {:induction false} EncodeIsSafe(s: string)
    ensures |s| <= |Encode(s)| <= 3 * |s|
    ensures forall i :: 0 <= i < |Encode(s)| ==> UrlSafe(Encode(s)[i])
  {
    hide UrlSafe, EncodeChar;
    if s != "" {
      EncodeIsSafe(s[1..]);
      EncodedCharIsSafe(s[0]);
    }
  }

  lemma SafeHasNoNul(s: string)
    requires forall i :: 0 <= i < |s| ==> UrlSafe(s[i])
    ensures NoNul(s)
  {
  }

  // s is what a reader makes of the first characters of t, at most n of them: a '+' stands for a
  // space, an escape, with its digits in either case, for its octet; `ok` says that no '%' without
  // two digits was met.
  ghost predicate Reads(t: string, n: nat, s: string, ok: bool)
    decreases |t|
  {
    if t == "" || n == 0 then s == "" && ok
    else if t[0] == '%' && !StartsEscape(t) then s == "" && !ok
    else if t[0] == '%' then s != "" && EscapeOf(t, s[0]) && Reads(t[3..], n - 1, s[1..], ok)
    else s != "" && s[0] == (if t[0] == '+' then ' ' else t[0]) && Reads(t[1..], n - 1, s[1..], ok)
  }

  lemma {:induction false} ReadsBoth(t: string, s: string, u: string, v: string, n: nat)
    requires n >= |s| + |v| && Reads(t, n, s, true) && Reads(u, n - |s|, v, true)
    ensures Reads(t + u, n, s + v, true)
    decreases |t|
  {
    hide EscapeOf;
    if s == "" {
      assert t == "" || n == 0;
      assert s + v == v;
      if t == "" {
        assert t + u == u;
      }
    } else if t[0] == '%' {
      assert (t + u)[3..] == t[3..] + u && (s + v)[1..] == s[1..] + v;
      EscapeGoesOn(t, u, s[0]);
      ReadsBoth(t[3..], s[1..], u, v, n - 1);
    } else {
      assert (t + u)[1..] == t[1..] + u && (s + v)[1..] == s[1..] + v;
      ReadsBoth(t[1..], s[1..], u, v, n - 1);
    }
  }

  lemma EscapeGoesOn(t: string, u: string, c: char)
    requires StartsEscape(t)
    ensures StartsEscape(t + u) && (EscapeOf(t, c) ==> EscapeOf(t + u, c))
  {
  }

  // t spells s, for a reader with enough room.
  ghost predicate Spells(t: string, s: string) {
    forall n: nat :: n >= |s| ==> Reads(t, n, s, true)
  }

  lemma SpellsBoth(t: string, s: string, u: string, v: string)
    requires Spells(t, s) && Spells(u, v)
    ensures Spells(t + u, s + v)
  {
    hide Reads;
    forall n: nat | n >= |s + v|
      ensures Reads(t + u, n, s + v, true)
    {
      ReadsBoth(t, s, u, v, n);
    }
  }

  lemma {:induction false} SpellsItself(s: string)
    requires '%' !in s && '+' !in s
    ensures Spells(s, s)
  {
    forall n: nat | n >= |s|
      ensures Reads(s, n, s, true)
    {
      ReadsItself(s, n);
    }
  }

  lemma {:induction false} ReadsItself(s: string, n: nat)
    requires '%' !in s && '+' !in s && n >= |s|
    ensures Reads(s, n, s, true)
  {
    if s != "" {
      ReadsItself(s[1..], n - 1);
    }
  }

  lemma SpellsEscape(e: string, c: char)
    requires |e| == 3 && EscapeOf(e, c)
    ensures Spells(e, [c])
  {
    assert IsHex(e[1]) && IsHex(e[2]) && e[3..] == "" && [c][1..] == "";
  }

  /** A text that is spelled is decoded to what it spells. */
  lemma SpelledIsDecoded(t: string, s: string, n: nat)
    requires Spells(t, s) && n >= |s|
    ensures Decode(t, n) == Decoded(s, true)
  {
    DecodeIsReading(t, n, s, true);
  }

  lemma FromHexIs(h: char)
    ensures FromHex(h).Some? <==> IsHex(h)
    ensures FromHex(h).Some? ==> HexOf(h, FromHex(h).value)
  {
    if FromHex(h).Some? {
      assert HexOf(h, FromHex(h).value);
    }
  }

  lemma DecodedIsRead(t: string, c: char)
    requires t != "" && t[0] == '%'
    ensures DecodeOne(t).Some? <==> StartsEscape(t)
    ensures DecodeOne(t).Some? ==> (EscapeOf(t, c) <==> c == DecodeOne(t).value.0) && DecodeOne(t).value.1 == t[3..]
  {
    if |t| > 2 {
      FromHexIs(t[1]);
      FromHexIs(t[2]);
      if EscapeOf(t, c) {
        var hi: int, lo: int :| HexOf(t[1], hi) && HexOf(t[2], lo) && c as int == 16 * hi + lo;
        HexIsUnique(t[1], hi, FromHex(t[1]).value);
        HexIsUnique(t[2], lo, FromHex(t[2]).value);
      }
    }
  }

  /** urldecode gives what a reader of form data makes of the text, and says whether it is well
      formed. */
  lemma {:induction false} DecodeIsReading(t: string, n: nat, s: string, ok: bool)
    ensures Reads(t, n, s, ok) <==> Decode(t, n) == Decoded(s, ok)
    decreases |t|
  {
    hide StartsEscape, EscapeOf, FromHex;
    if t != "" && n > 0 {
      if t[0] == '%' {
        DecodedIsRead(t, if s == "" then 'x' else s[0]);
      }
      if DecodeOne(t).Some? && s != "" {
        var (c, rest) := DecodeOne(t).value;
        DecodeIsReading(rest, n - 1, s[1..], ok);
        var d := Decode(rest, n - 1);
        assert [c] + d.text == s <==> c == s[0] && d.text == s[1..];
      }
    }
  }

  /** What url_encode makes of an octet: unreserved characters (section 2.3 of RFC 3986) stay, a
      space becomes '+', and every other one its escape with lower-case digits. */
  lemma EncodedCharIs(c: char)
    requires c as int < 256
    ensures var e := EncodeChar()(c);
      if 48 <= c as int <= 57 || 65 <= c as int <= 90 || 97 <= c as int <= 122 || c in "-._~" then e == [c]
      else if c as int == 32 then e == "+"
      else |e| == 3 && EscapeOf(e, c) && !IsUpper(e[1]) && !IsUpper(e[2])
  {
    var e, hi, lo := EncodeChar()(c), c as int / 16, c as int % 16;
    LowerHex(hi);
    LowerHex(lo);
    hide ToHex;
    if |e| == 3 {
      assert e[1] == ToHex(hi) && e[2] == ToHex(c as int);
      assert HexOf(e[1], hi) && HexOf(e[2], lo);
    }
  }

  lemma LowerHex(n: int)
    requires 0 <= n < 16
    ensures HexOf(ToHex(n), n) && !IsUpper(ToHex(n)) && forall m: int :: m % 16 == n ==> ToHex(m) == ToHex(n)
  {
    assert n == 0 || n == 1 || n == 2 || n == 3 || n == 4 || n == 5 || n == 6 || n == 7
        || n == 8 || n == 9 || n == 10 || n == 11 || n == 12 || n == 13 || n == 14 || n == 15;
  }

  // ------------------------------------------------------------- the buffers

  // The character class test and the three stores in the loop of url_encode.
  method PutEncoded(buf: array<char>, w: nat, c: char, ghost out: string) returns (next: nat, ghost both: string)
    requires w + 3 < buf.Length && w == |out| && TextAt(buf[..], 0, out)
    modifies buf
    ensures both == out + EncodeChar()(c) && next == |both| <= w + 3 && TextAt(buf[..], 0, both)
  {
    both := out + EncodeChar()(c);
    if IsAlnum(c) || c == '-' || c == '_' || c == '.' || c == '~' {
      buf[w] := c;
      next := w + 1;
    } else if c == ' ' {
      buf[w] := '+';
      next := w + 1;
    } else {
      buf[w] := '%';
      buf[w + 1] := ToHex(c as int / 16);
      buf[w + 2] := ToHex(c as int);
      next := w + 3;
    }
  }

  // strlen
  method StrLen(str: array<char>, p: nat, ghost text: string) returns (n: nat)
    requires HoldsAt(str[..], p, text)
    ensures n == |text|
  {
    n := 0;
    while str[p + n] != NUL
      invariant n <= |text|
      decreases |text| - n
    {
      HeldChar(str[..], p, text, n);
      n := n + 1;
    }
    HeldChar(str[..], p, text, n);
  }

  // A C string, character by character.
  lemma HeldChar(s: string, p: nat, text: string, i: nat)
    requires HoldsAt(s, p, text) && i <= |text|
    ensures i < |text| ==> s[p + i] == text[i] && text[i] != NUL
    ensures i == |text| ==> s[p + i] == NUL
  {
    if i < |text| {
      assert s[p..p + |text|][i] == text[i];
    }
  }

  /** url_encode: the buffer of three bytes per character and one more is always enough. */
  method UrlEncode(str: array<char>, p: nat, ghost text: string) returns (buf: array<char>)
    requires HoldsAt(str[..], p, text)
    ensures fresh(buf) && buf.Length == 3 * |text| + 1
    ensures HoldsAt(buf[..], 0, Encode(text))
  {
    hide EncodeChar;
    var n := StrLen(str, p, text);
    buf := new char[3 * n + 1];
    var i, w := 0, 0;
    ghost var out := "";
    HeldChar(str[..], p, text, 0);
    while str[p + i] != NUL
      invariant i <= n && HoldsAt(str[..], p, text)
      invariant w == |out| <= 3 * i && out == Flat(EncodeChar(), text[..i]) && TextAt(buf[..], 0, out)
      decreases n - i
    {
      HeldChar(str[..], p, text, i);
      FlatSnoc(EncodeChar(), text[..i], text[i]);
      assert text[..i + 1] == text[..i] + [text[i]];
      w, out := PutEncoded(buf, w, str[p + i], out);
      i := i + 1;
    }
    HeldChar(str[..], p, text, i);
    assert text[..i] == text;
    buf[w] := NUL;
    EncodeIsSafe(text);
    SafeHasNoNul(out);
    TextIsHeld(buf[..], 0, out);
  }

  // Decoding t gives `out` and then what decoding `rest` gives.
  ghost predicate DecodesThen(t: string, maxSize: nat, out: string, rest: string) {
    && |out| <= maxSize
    && var d := Decode(rest, maxSize - |out|);
    Decode(t, maxSize) == Decoded(out + d.text, d.ok)
  }

  lemma DecodesFirst(t: string, maxSize: nat)
    ensures DecodesThen(t, maxSize, "", t)
  {
    assert "" + Decode(t, maxSize).text == Decode(t, maxSize).text;
  }

  lemma DecodesMore(t: string, maxSize: nat, out: string, rest: string)
    requires rest != "" && |out| < maxSize && DecodesThen(t, maxSize, out, rest)
    ensures match DecodeOne(rest)
      case None => Decode(t, maxSize) == Decoded(out, false)
      case Some((c, more)) => DecodesThen(t, maxSize, out + [c], more)
  {
    match DecodeOne(rest)
    case None =>
      assert out + "" == out;
    case Some((c, more)) =>
      var d := Decode(more, maxSize - |out| - 1);
      assert out + ([c] + d.text) == out + [c] + d.text;
      assert maxSize - |out + [c]| == maxSize - |out| - 1;
  }

  lemma DecodesAll(t: string, maxSize: nat, out: string, rest: string)
    requires DecodesThen(t, maxSize, out, rest) && (rest == "" || |out| == maxSize)
    ensures Decode(t, maxSize) == Decoded(out, true)
  {
    assert out + "" == out;
  }

  // The C string `rest` at p goes on after its first n characters.
  lemma HeldTail(s: string, p: nat, rest: string, n: nat)
    requires HoldsAt(s, p, rest) && n <= |rest|
    ensures HoldsAt(s, p + n, rest[n..])
  {
    assert s[p + n..p + |rest|] == s[p..p + |rest|][n..];
  }

  // One turn of urldecode's loop on the C string at p: the character, and where to go on.
  method ReadOne(src: array<char>, p: nat, ghost rest: string) returns (one: Option<char>, next: nat)
    requires HoldsAt(src[..], p, rest) && rest != ""
    ensures match DecodeOne(rest)
      case None => one == None
      case Some((c, more)) => one == Some(c) && p < next && HoldsAt(src[..], next, more)
  {
    HeldChar(src[..], p, rest, 0);
    HeldChar(src[..], p, rest, 1);
    one, next := None, p;
    if src[p] == '+' {
      HeldTail(src[..], p, rest, 1);
      return Some(' '), p + 1;
    }
    if src[p] != '%' {
      HeldTail(src[..], p, rest, 1);
      return Some(src[p]), p + 1;
    }
    if src[p + 1] == NUL {
      return;
    }
    HeldChar(src[..], p, rest, 2);
    if src[p + 2] == NUL {
      return;
    }
    HeldTail(src[..], p, rest, 3);
    var a, b := FromHex(src[p + 1]), FromHex(src[p + 2]);
    if a.None? || b.None? {
      return;
    }
    return Some((16 * a.value + b.value) as char), p + 3;
  }

  /** urldecode: stores at most max_size characters and a NUL; on a malformed escape it
      returns 0 but leaves what it has decoded so far in the buffer. */
  method UrlDecode(dst: array<char>, src: array<char>, p: nat, maxSize: nat, ghost text: string) returns (r: nat)
    requires dst != src && HoldsAt(src[..], p, text) && maxSize < dst.Length
    modifies dst
    ensures var d := Decode(text, maxSize);
      && r == (if d.ok then |d.text| else 0)
      && |d.text| <= maxSize && TextAt(dst[..], 0, d.text) && dst[|d.text|] == NUL
  {
    hide Decode, DecodeOne;
    var len, i := 0, p;
    ghost var out, rest := "", text;
    DecodesFirst(text, maxSize);
    HeldChar(src[..], i, rest, 0);
    while len < maxSize && src[i] != NUL
      invariant len == |out| <= maxSize && HoldsAt(src[..], i, rest) && (src[i] != NUL <==> rest != "")
      invariant TextAt(dst[..], 0, out) && DecodesThen(text, maxSize, out, rest)
      decreases maxSize - len
    {
      DecodesMore(text, maxSize, out, rest);
      var one, next := ReadOne(src, i, rest);
      if one.None? {
        dst[len] := NUL;
        return 0;
      }
      dst[len] := one.value;
      out, rest := out + [one.value], DecodeOne(rest).value.1;
      i, len := next, len + 1;
      HeldChar(src[..], i, rest, 0);
    }
    DecodesAll(text, maxSize, out, rest);
    dst[len] := NUL;
    return len;
  }

  // ------------------------------------------------------------- parse_param

  function IsEquals(): char -> bool { c => c == '=' }
  function IsAmp(): char -> bool { c => c == '&' }

  // Where the value starts whose name is at i: after the next '=', or at the end.
  function ValueStart(q: string, i: nat): nat
    requires i <= |q|
  {
    var e := Span(q, i, IsEquals());
    if e < |q| then e + 1 else e
  }

  // parse_param on a query string that is not null.
  function ParseParam(q: string, name: string): Option<string> {
    match IndexOf(q, name)
    case None => None
    case Some(i) =>
      IndexOfFinds(q, name);
      var v := ValueStart(q, i);
      Some(q[v..Span(q, v, IsAmp())])
  }

  /** parse_param gives the value of a parameter when its name does not occur earlier in
      the query, whatever follows the value's '&'. */
  lemma ParamFound(pre: string, name: string, value: string, rest: string)
    requires '=' !in name && '&' !in value && (rest == "" || rest[0] == '&')
    requires var q := pre + (name + ("=" + (value + rest)));
      forall k :: 0 <= k < |pre| ==> !(name <= q[k..])
    ensures ParseParam(pre + (name + ("=" + (value + rest))), name) == Some(value)
  {
    hide IndexOf, Span;
    var q := pre + (name + ("=" + (value + rest)));
    assert q[|pre|..] == name + ("=" + (value + rest));
    IndexOfIs(q, name, |pre|);
    var e := |pre| + |name|;
    SpanIs(q, |pre|, IsEquals(), e);
    SpanIs(q, e + 1, IsAmp(), e + 1 + |value|);
    assert q[e + 1..e + 1 + |value|] == value;
  }

  // Goes on from `from` to the next stop character, or to the end of the C string.
  method SkipTo(str: array<char>, p: nat, from: nat, c: char, ghost stop: char -> bool, ghost text: string)
    returns (i: nat)
    requires HoldsAt(str[..], p, text) && from <= |text| && forall d :: stop(d) <==> d == c
    ensures i == Span(text, from, stop)
  {
    i := from;
    HeldChar(str[..], p, text, i);
    while str[p + i] != NUL && str[p + i] != c
      invariant from <= i <= |text| && HoldsAt(str[..], p, text)
      invariant forall k :: from <= k < i ==> text[k] != c
      decreases |text| - i
    {
      HeldChar(str[..], p, text, i);
      i := i + 1;
    }
    HeldChar(str[..], p, text, i);
    SpanIs(text, from, stop, i);
  }

  /** parse_param: the loop after strstr goes past the next '=', the last one to the '&'. */
  method ParseParamIn(query: array<char>, p: nat, name: string, ghost q: string) returns (value: Option<string>)
    requires HoldsAt(query[..], p, q)
    ensures value == ParseParam(q, name)
  {
    hide HoldsAt, IndexOf;
    HoldsIsCStr(query[..], p, q);
    IndexOfFinds(q, name);
    var text := CStr(query[..], p);
    var found := IndexOf(text, name);
    if found.None? {
      return None;
    }
    var start := SkipTo(query, p, found.value, '=', IsEquals(), q);
    if start < |text| {
      start := start + 1;
    }
    var end := SkipTo(query, p, start, '&', IsAmp(), q);
    return Some(text[start..end]);
  }

  // ---------------------------------------------------------- parse_app_name

  const UNKNOWN := "unknown"

  // Where the segment starts that ends at `slash`.
  function SegmentStart(uri: string, slash: nat): (b: nat)
    requires slash <= |uri|
    ensures b <= slash
  {
    match Last(uri[..slash], '/')
    case None => 0
    case Some(i) => i + 1
  }

  // The segment before the last slash, if something precedes that slash.
  function AppNameOf(uri: string): string {
    match Last(uri, '/')
    case None => UNKNOWN
    case Some(slash) => if slash == 0 then UNKNOWN else uri[SegmentStart(uri, slash)..slash]
  }

  /** parse_app_name, with its backward loop. */
  method ParseAppName(nullableUri: Option<string>) returns (name: string)
    ensures name == if nullableUri.None? then UNKNOWN else AppNameOf(nullableUri.value)
  {
    if nullableUri.None? {
      return UNKNOWN;
    }
    var uri := nullableUri.value;
    var found := Last(uri, '/');
    if found.None? || found.value == 0 {
      return UNKNOWN;
    }
    var slash := found.value;
    var begin, atSlash := slash, false;
    while begin != 0 && !atSlash
      invariant 0 <= begin <= slash && (atSlash ==> begin < slash && uri[begin] == '/')
      invariant forall k :: (if atSlash then begin + 1 else begin) <= k < slash ==> uri[k] != '/'
      decreases begin
    {
      begin := begin - 1;
      atSlash := uri[begin] == '/';
    }
    if uri[begin] == '/' {
      LastIs(uri[..slash], '/', begin);
      begin := begin + 1;
    }
    return uri[begin..slash];
  }

  /** Without a slash, or with one at the start only, there is no segment and the name is
      "unknown". */
  lemma NoSegmentIsUnknown(uri: string)
    requires forall k :: 1 <= k < |uri| ==> uri[k] != '/'
    ensures AppNameOf(uri) == "unknown"
  {
  }

  /** An application name before a last segment is found, whatever precedes it. */
  lemma AppNameBeforeLastSegment(pre: string, name: string, tail: string)
    requires '/' !in name && '/' !in tail && name != "" && (pre == "" || pre[|pre| - 1] == '/')
    ensures AppNameOf(pre + (name + ("/" + tail))) == name
  {
    var uri := pre + (name + ("/" + tail));
    var slash := |pre| + |name|;
    assert forall k :: slash < k < |uri| ==> uri[k] == tail[k - slash - 1];
    LastIs(uri, '/', slash);
    assert forall k :: |pre| <= k < slash ==> uri[..slash][k] == name[k - |pre|];
    if pre != "" {
      assert uri[..slash][|pre| - 1] == '/';
      LastIs(uri[..slash], '/', |pre| - 1);
    }
    assert uri[|pre|..slash] == name;
  }
}
