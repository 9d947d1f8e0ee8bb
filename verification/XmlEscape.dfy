/**
 XML escaping into a buffer of bounded size (xmlencode in server/url_lib.c, and
 url_decode_xml_encode in server/dial_server.c, which chooses the bound).
 */
module XmlEscape {
  import opened CStrings
  import opened Numbers
  import UrlLib

  // The five characters that xmlencode escapes.
  predicate Special(c: char) {
    c == '&' || c == '"' || c == '\'' || c == '<' || c == '>'
  }

  // What a character becomes (section 4.6 of XML 1.0).
  function Entity(): char -> string {
    c =>
      if c == '&' then "&amp;"
      else if c == '"' then "&quot;"
      else if c == '\'' then "&apos;"
      else if c == '<' then "&lt;"
      else if c == '>' then "&gt;"
      else [c]
  }

  // All of s, escaped.
  function Escape(s: string): string {
    Flat(Entity(), s)
  }

  // xmlencode drops this character when only `room` characters of the budget are left.
  predicate Dropped(c: char, room: nat) {
    Special(c) && |Entity()(c)| >= room
  }

  // The characters of s that xmlencode keeps.
  function Kept(s: string, room: nat): string {
    if s == "" || room == 0 then ""
    else if Dropped(s[0], room) then Kept(s[1..], room)
    else [s[0]] + Kept(s[1..], room - |Entity()(s[0])|)
  }

  // xmlencode(dst, s, maxSize)
  function XmlEncode(s: string, maxSize: nat): string {
    Escape(Kept(s, maxSize))
  }

  // ------------------------------------------------------------ the reader's side

  // The character that an entity or any other text starts with, for an XML reader.
  function UnescapeOne(t: string): (char, string)
    requires t != ""
  {
    if "&amp;" <= t then ('&', t[5..])
    else if "&quot;" <= t then ('"', t[6..])
    else if "&apos;" <= t then ('\'', t[6..])
    else if "&lt;" <= t then ('<', t[4..])
    else if "&gt;" <= t then ('>', t[4..])
    else (t[0], t[1..])
  }

  function Unescape(t: string): string
    decreases |t|
  {
    if t == "" then "" else
      var (c, rest) := UnescapeOne(t);
      [c] + Unescape(rest)
  }

  lemma UnescapeEntity(c: char, rest: string)
    ensures var e := Entity()(c); e != "" && UnescapeOne(e + rest) == (c, rest)
  {
    var e := Entity()(c);
    assert (e + rest)[|e|..] == rest;
    assert (e + rest)[0] == e[0];
    if Special(c) {
      assert (e + rest)[1] == e[1] && (e + rest)[2] == e[2];
    }
  }

  lemma {:induction false} UnescapeInvertsEscape(s: string)
    ensures Unescape(Escape(s)) == s
  {
    hide UnescapeOne, Entity;
    if s != "" {
      UnescapeEntity(s[0], Escape(s[1..]));
      UnescapeInvertsEscape(s[1..]);
    }
  }

  // Text that can stand in XML as it is: no raw markup or quotes, and every ampersand
  // starts one of the five predefined entities.
  ghost predicate IsEntity(e: string) {
    e == "&amp;" || e == "&quot;" || e == "&apos;" || e == "&lt;" || e == "&gt;"
  }

  ghost predicate CleanText(t: string) {
    && (forall i :: 0 <= i < |t| ==> t[i] != '<' && t[i] != '>' && t[i] != '"' && t[i] != '\'')
    && (forall i :: 0 <= i < |t| && t[i] == '&' ==> exists e :: IsEntity(e) && e <= t[i..])
  }

  lemma EntityIsClean(c: char)
    ensures var e := Entity()(c);
      && (forall i :: 0 <= i < |e| ==> e[i] != '<' && e[i] != '>' && e[i] != '"' && e[i] != '\'')
      && (forall i :: 1 <= i < |e| ==> e[i] != '&')
      && e != "" && (e[0] == '&' ==> IsEntity(e))
  {
  }

  lemma {:induction false} EscapeIsClean(s: string)
    ensures CleanText(Escape(s))
  {
    if s != "" {
      EntityIsClean(s[0]);
      EscapeIsClean(s[1..]);
      PrependClean(Entity()(s[0]), Escape(s[1..]));
    }
  }

  lemma PrependClean(e: string, t: string)
    requires CleanText(t) && e != "" && (e[0] == '&' ==> IsEntity(e))
    requires forall i :: 0 <= i < |e| ==> e[i] != '<' && e[i] != '>' && e[i] != '"' && e[i] != '\''
    requires forall i :: 1 <= i < |e| ==> e[i] != '&'
    ensures CleanText(e + t)
  {
    var u := e + t;
    forall i | 0 <= i < |u| && u[i] == '&'
      ensures exists f :: IsEntity(f) && f <= u[i..]
    {
      if i < |e| {
        assert u[0..] == u && e <= u;
      } else {
        assert u[i..] == t[i - |e|..] && t[i - |e|] == '&';
      }
    }
  }

  // -------------------------------------------------------------- the budget

  lemma {:induction false} KeptFits(s: string, room: nat)
    ensures |Escape(Kept(s, room))| <= room
  {
    hide Entity;
    if s != "" && room > 0 {
      EntitySize(s[0]);
      if Dropped(s[0], room) {
        KeptFits(s[1..], room);
      } else {
        KeptFits(s[1..], room - |Entity()(s[0])|);
        EscapeCons(s[0], Kept(s[1..], room - |Entity()(s[0])|));
      }
    }
  }

  lemma EntitySize(c: char)
    ensures 1 <= |Entity()(c)| <= 6 && (|Entity()(c)| > 1 <==> Special(c))
  {
  }

  lemma EscapeCons(c: char, s: string)
    ensures Escape([c] + s) == Entity()(c) + Escape(s)
  {
    assert ([c] + s)[1..] == s;
  }

  lemma {:induction false} KeptLeavesOut(s: string, room: nat)
    ensures Subsequence(Kept(s, room), s)
    decreases |s|
  {
    hide Entity;
    if s != "" && room > 0 {
      assert s[1..] == s[1..][0..];
      if Dropped(s[0], room) {
        KeptLeavesOut(s[1..], room);
        SubsequenceOfMore(Kept(s, room), s, 1);
      } else {
        EntitySize(s[0]);
        KeptLeavesOut(s[1..], room - |Entity()(s[0])|);
        SubsequenceCons(Kept(s[1..], room - |Entity()(s[0])|), s, 1);
      }
    }
  }

  /** For every source and every budget: the output keeps the budget, can stand in XML, and
      reads back as the source with some characters left out. */
  lemma XmlEncodeIsSafe(s: string, maxSize: nat)
    ensures |XmlEncode(s, maxSize)| <= maxSize
    ensures CleanText(XmlEncode(s, maxSize))
    ensures Subsequence(Unescape(XmlEncode(s, maxSize)), s)
  {
    KeptFits(s, maxSize);
    EscapeIsClean(Kept(s, maxSize));
    UnescapeInvertsEscape(Kept(s, maxSize));
    KeptLeavesOut(s, maxSize);
  }

  // The whole escaped text fits; its last entity must leave one character of the budget.
  predicate Fits(s: string, room: nat) {
    |Escape(s)| <= room && (s != "" && Special(s[|s| - 1]) ==> |Escape(s)| < room)
  }

  lemma {:induction false} KeptAll(s: string, room: nat)
    ensures |Kept(s, room)| <= |s|
    ensures Kept(s, room) == s <==> Fits(s, room)
  {
    hide Entity;
    if s != "" {
      EntitySize(s[0]);
      EscapeLonger(s);
      EscapeLonger(s[1..]);
      if room > 0 {
        var next := if Dropped(s[0], room) then room else room - |Entity()(s[0])|;
        KeptAll(s[1..], next);
        assert s == [s[0]] + s[1..];
      }
    }
  }

  lemma {:induction false} EscapeLonger(s: string)
    ensures |s| <= |Escape(s)| <= 6 * |s|
    ensures s != "" ==> Escape(s) == Entity()(s[0]) + Escape(s[1..])
  {
    hide Entity;
    if s != "" {
      EntitySize(s[0]);
      EscapeLonger(s[1..]);
    }
  }

  /** Nothing is lost exactly when the escaped text fits the budget, with one character to
      spare if the source ends with an escaped character. */
  lemma XmlEncodeIsLossless(s: string, maxSize: nat)
    ensures Unescape(XmlEncode(s, maxSize)) == s <==> Fits(s, maxSize)
    ensures 6 * |s| < maxSize ==> Unescape(XmlEncode(s, maxSize)) == s
  {
    UnescapeInvertsEscape(Kept(s, maxSize));
    KeptAll(s, maxSize);
    EscapeLonger(s);
  }

  /** Which characters are kept: after any text, the next one is if and only if what is left of
      the budget has room for it, with one character to spare for an escaped one. */
  lemma {:induction false} KeptWhileItFits(s: string, c: char, room: nat)
    ensures var k := Kept(s, room);
      && |Escape(k)| <= room
      && Kept(s + [c], room) ==
           if |Entity()(c)| + (if Special(c) then 1 else 0) <= room - |Escape(k)| then k + [c] else k
  {
    hide Entity;
    EntitySize(c);
    KeptFits(s, room);
    if s == "" {
      assert s + [c] == [c] && [c][1..] == "" && [c] + "" == [c];
    } else if room > 0 {
      var e := Entity()(s[0]);
      EntitySize(s[0]);
      assert (s + [c])[1..] == s[1..] + [c];
      if Dropped(s[0], room) {
        KeptWhileItFits(s[1..], c, room);
      } else {
        KeptWhileItFits(s[1..], c, room - |e|);
        EscapeCons(s[0], Kept(s[1..], room - |e|));
      }
    }
  }

  // --------------------------------------- the budget of url_decode_xml_encode

  // url_decode_xml_encode on a C string: the decoded text, up to a decoded NUL, escaped
  // into twice the size of the source.
  function Shown(src: string): string {
    XmlEncode(CStr(UrlLib.Decode(src, |src|).text + [NUL], 0), 2 * |src|)
  }

  predicate IsQuote(c: char) { c == '"' || c == '\'' }

  // A quote takes three characters in the URL and six in XML, so it uses up the doubled
  // budget; every other character leaves something.
  lemma CharBudget(c: char)
    ensures var e, x := |UrlLib.EncodeChar()(c)|, |Entity()(c)|;
      && x <= 2 * e && (x == 2 * e <==> IsQuote(c)) && e > 0
  {
  }

  lemma {:induction false} TextBudget(s: string)
    ensures |Escape(s)| <= 2 * |UrlLib.Encode(s)|
    ensures |Escape(s)| == 2 * |UrlLib.Encode(s)| <==> forall i :: 0 <= i < |s| ==> IsQuote(s[i])
    ensures s != "" ==> UrlLib.Encode(s) != ""
  {
    hide Entity, UrlLib.EncodeChar;
    if s != "" {
      CharBudget(s[0]);
      TextBudget(s[1..]);
      assert forall i :: 1 <= i < |s| ==> s[i] == s[1..][i - 1];
      assert |Escape(s)| == |Entity()(s[0])| + |Escape(s[1..])|;
      assert |UrlLib.Encode(s)| == |UrlLib.EncodeChar()(s[0])| + |UrlLib.Encode(s[1..])|;
    }
  }

  lemma WholeCStr(s: string)
    requires NoNul(s)
    ensures CStr(s + [NUL], 0) == s
  {
    SpanIs(s + [NUL], 0, IsNul(), |s|);
    assert (s + [NUL])[..|s|] == s;
  }

  /** What an application encodes in its data URL is shown to clients unchanged, except for
      a text that consists of quotes and apostrophes only: that one loses its end. */
  lemma ShownTextIsLossless(s: string)
    requires Octets(s) && NoNul(s)
    ensures Unescape(Shown(UrlLib.Encode(s))) == s <==> s == "" || exists i :: 0 <= i < |s| && !IsQuote(s[i])
  {
    var src := UrlLib.Encode(s);
    UrlLib.EncodeIsSafe(s);
    UrlLib.DecodeInvertsEncode(s, |src|);
    WholeCStr(s);
    XmlEncodeIsLossless(s, 2 * |src|);
    TextBudget(s);
  }

  lemma EntityNoNul(c: char)
    requires c != NUL
    ensures NoNul(Entity()(c)) && (!Special(c) ==> Entity()(c) == [c])
  {
  }

  lemma {:induction false} EscapeNoNul(s: string)
    requires NoNul(s)
    ensures NoNul(Escape(s))
  {
    hide Entity;
    if s != "" {
      EntityNoNul(s[0]);
      EscapeNoNul(s[1..]);
    }
  }

  // What is shown is a C string.
  lemma ShownNoNul(src: string)
    ensures NoNul(Shown(src))
  {
    hide Kept, Entity, UrlLib.Decode;
    var t := UrlLib.Decode(src, |src|).text + [NUL];
    var c := CStr(t, 0);
    SpanStops(t, 0, IsNul());
    assert NoNul(c);
    KeptLeavesOut(c, 2 * |src|);
    SubsequenceLacks(Kept(c, 2 * |src|), c, NUL);
    EscapeNoNul(Kept(c, 2 * |src|));
  }

  // ------------------------------------------------------------- the buffers

  // smartstrncpy from a string constant: copies at most maxChars characters, and a NUL.
  method SmartStrNCpy(dest: array<char>, d: nat, src: string, maxChars: nat) returns (end: nat)
    requires NoNul(src) && d + Min(|src|, maxChars) < dest.Length
    modifies dest
    ensures end == d + Min(|src|, maxChars)
    ensures Copied(old(dest[..]), dest[..], d, src[..end - d] + [NUL])
  {
    end := d;
    var copied := 0;
    while copied < maxChars
      invariant copied <= |src| && copied <= maxChars && end == d + copied
      invariant Copied(old(dest[..]), dest[..], d, src[..copied])
    {
      dest[end] := if copied < |src| then src[copied] else NUL;
      if dest[end] == NUL {
        break;
      }
      copied, end := copied + 1, end + 1;
    }
    dest[end] := NUL;
  }

  // xmlencode has kept `out` of the text and goes on at `rest`.
  ghost predicate KeepsThen(text: string, maxSize: nat, out: string, rest: string) {
    && |Escape(out)| <= maxSize
    && Kept(text, maxSize) == out + Kept(rest, maxSize - |Escape(out)|)
  }

  lemma KeepsFirst(text: string, maxSize: nat)
    ensures KeepsThen(text, maxSize, "", text)
  {
    assert "" + Kept(text, maxSize) == Kept(text, maxSize);
  }

  lemma KeepsMore(text: string, maxSize: nat, out: string, rest: string)
    requires KeepsThen(text, maxSize, out, rest) && rest != "" && |Escape(out)| < maxSize
    ensures var e, both := Entity()(rest[0]), out + [rest[0]];
      && Escape(both) == Escape(out) + e
      && if Dropped(rest[0], maxSize - |Escape(out)|)
         then KeepsThen(text, maxSize, out, rest[1..])
         else KeepsThen(text, maxSize, both, rest[1..])
  {
    hide Entity;
    var e, both := Entity()(rest[0]), out + [rest[0]];
    FlatSnoc(Entity(), out, rest[0]);
    EntitySize(rest[0]);
    var room := maxSize - |Escape(out)|;
    if !Dropped(rest[0], room) {
      assert maxSize - |Escape(both)| == room - |e|;
      assert out + ([rest[0]] + Kept(rest[1..], room - |e|)) == both + Kept(rest[1..], room - |e|);
    }
  }

  lemma KeepsAll(text: string, maxSize: nat, out: string, rest: string)
    requires KeepsThen(text, maxSize, out, rest) && (rest == "" || |Escape(out)| == maxSize)
    ensures XmlEncode(text, maxSize) == Escape(out)
  {
    assert out + "" == out;
  }

  lemma TextMore(d: string, e: string, out: string, t: string)
    requires TextAt(d, 0, out) && Copied(d, e, |out|, t)
    ensures TextAt(e, 0, out + t)
  {
  }

  lemma TextLess(s: string, t: string, u: string)
    requires TextAt(s, 0, t + u)
    ensures TextAt(s, 0, t)
  {
    assert forall k :: 0 <= k < |t| ==> t[k] == (t + u)[k];
  }

  // The switch in xmlencode: stores one character, or its entity, or nothing.
  method PutEntity(dst: array<char>, size: nat, c: char, maxSize: nat, ghost out: string)
    returns (next: nat, ghost both: string)
    requires size == |out| < maxSize < dst.Length && TextAt(dst[..], 0, out) && c != NUL
    modifies dst
    ensures both == (if Dropped(c, maxSize - size) then out else out + Entity()(c))
    ensures next == |both| <= maxSize && TextAt(dst[..], 0, both)
  {
    hide Entity;
    var e := Entity()(c);
    EntitySize(c);
    EntityNoNul(c);
    next, both := size, out;
    if Special(c) {
      if size + |e| < maxSize {
        ghost var d := dst[..];
        next := SmartStrNCpy(dst, size, e, maxSize - size);
        assert e[..|e|] == e;
        TextMore(d, dst[..], out, e + [NUL]);
        assert out + (e + [NUL]) == (out + e) + [NUL];
        TextLess(dst[..], out + e, [NUL]);
        both := out + e;
      }
    } else {
      dst[size] := c;
      next, both := size + 1, out + e;
    }
  }

  /** xmlencode never writes past max_size characters and a NUL. */
  method XmlEncodeInto(dst: array<char>, src: array<char>, p: nat, maxSize: nat, ghost text: string)
    requires dst != src && HoldsAt(src[..], p, text) && maxSize < dst.Length
    modifies dst
    ensures HoldsAt(dst[..], 0, XmlEncode(text, maxSize))
  {
    hide Entity, Kept, KeepsThen, Escape;
    var i, size := p, 0;
    ghost var out, written, rest := "", "", text;
    KeepsFirst(text, maxSize);
    EscapeLonger("");
    UrlLib.HeldChar(src[..], i, rest, 0);
    while src[i] != NUL && size < maxSize
      invariant p <= i && HoldsAt(src[..], i, rest) && (src[i] != NUL <==> rest != "") && NoNul(out)
      invariant KeepsThen(text, maxSize, out, rest) && written == Escape(out)
      invariant size == |written| <= maxSize && TextAt(dst[..], 0, written)
      decreases |rest|
    {
      UrlLib.HeldChar(src[..], i, rest, 0);
      KeepsMore(text, maxSize, out, rest);
      ghost var dropped := Dropped(rest[0], maxSize - size);
      size, written := PutEntity(dst, size, src[i], maxSize, written);
      out := if dropped then out else out + [rest[0]];
      UrlLib.HeldTail(src[..], i, rest, 1);
      rest, i := rest[1..], i + 1;
      UrlLib.HeldChar(src[..], i, rest, 0);
    }
    KeepsAll(text, maxSize, out, rest);
    dst[size] := NUL;
    EscapeNoNul(out);
    TextIsHeld(dst[..], 0, written);
  }

  lemma DecodedCStr(s: string, d: string)
    requires TextAt(s, 0, d) && |d| < |s| && s[|d|] == NUL
    ensures HoldsAt(s, 0, CStr(d + [NUL], 0))
  {
    var z := d + [NUL];
    SpanStops(z, 0, IsNul());
    var e := Span(z, 0, IsNul());
    SpanAtMost(z, 0, IsNul(), |d|);
    assert forall k :: 0 <= k <= |d| ==> s[k] == z[k];
    assert s[0..e] == z[0..e];
  }

  /** url_decode_xml_encode into a buffer of 2 * src_size + 1 bytes. */
  method UrlDecodeXmlEncode(dst: array<char>, src: array<char>, p: nat, srcSize: nat, ghost text: string)
    requires dst != src && HoldsAt(src[..], p, text) && srcSize == |text| && 2 * srcSize < dst.Length
    modifies dst
    ensures HoldsAt(dst[..], 0, Shown(text))
  {
    var decoded := new char[srcSize + 1];
    var r := UrlLib.UrlDecode(decoded, src, p, srcSize, text);
    DecodedCStr(decoded[..], UrlLib.Decode(text, srcSize).text);
    XmlEncodeInto(dst, decoded, 0, 2 * srcSize, CStr(UrlLib.Decode(text, srcSize).text + [NUL], 0));
  }
}
