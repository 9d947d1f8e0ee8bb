/**
 The in-place HTTP request parser (skip_quoted, parse_http_headers and
 parse_http_request in server/mongoose.c).  The parser cuts the buffer into C strings
 by writing NULs into it and hands out offsets; `ParseHead` is what it computes, as a
 function of the buffer's contents before the first write.
 */
module RequestParser {
  import opened Wrappers
  import opened CStrings
  import opened Collecting

  const MAX_HEADERS := 16
  const CRLF := "\r\n"

  datatype Header = Header(name: string, value: string)
  datatype RequestInfo = RequestInfo(requestMethod: string, uri: string, httpVersion: string, headers: seq<Header>)

  function StopAt(delimiters: string): char -> bool { c => c == NUL || c in delimiters }
  function NotIn(whitespace: string): char -> bool { c => c !in whitespace }
  function NotSpace(): char -> bool { c => !IsSpace(c) }

  datatype Piece = Piece(word: string, rest: string)

  // skip_quoted on the text t that the cursor points at: the word and the text after it.
  function Cut(t: string, delimiters: string, whitespace: string): Piece {
    var e := Span(t, 0, StopAt(delimiters));
    if e == |t| || t[e] == NUL then Piece(t[..e], t[e..])
    else Piece(t[..e], t[Span(t, e + 1, NotIn(whitespace))..])
  }

  // One turn of the header loop: the header at the start of t and the text after it.
  function CutHeader(t: string): Option<(Header, string)> {
    var name := Cut(t, ":", " ");
    var value := Cut(name.rest, CRLF, CRLF);
    if name.word == "" then None else Some((Header(name.word, value.word), value.rest))
  }

  // parse_http_headers: what it stores from the text after the request line.
  function StoredHeaders(t: string): seq<Header> {
    Collect(CutHeader, t, MAX_HEADERS)
  }

  predicate IsValidHttpMethod(m: string) {
    m == "GET" || m == "POST" || m == "DELETE" || m == "OPTIONS"
  }

  // The three words of the request line, and the text after it.
  datatype RequestLine = RequestLine(requestMethod: string, uri: string, version: string, rest: string)

  function CutRequestLine(t: string): RequestLine {
    var m := Cut(t[Span(t, 0, NotSpace())..], " ", " ");
    var uri := Cut(m.rest, " ", " ");
    var version := Cut(uri.rest, CRLF, CRLF);
    RequestLine(m.word, uri.word, version.word, version.rest)
  }

  predicate Acceptable(line: RequestLine) {
    IsValidHttpMethod(line.requestMethod) && "HTTP/" <= line.version
  }

  // parse_http_request on the text of the buffer.
  function ParseHead(t: string): Option<RequestInfo> {
    var line := CutRequestLine(t);
    if Acceptable(line) then
      Some(RequestInfo(line.requestMethod, line.uri, line.version[5..], StoredHeaders(line.rest)))
    else None
  }

  // ------------------------------------------------------------- round trip

  function RenderHeaders(hs: seq<Header>, rest: string): string {
    if hs == [] then rest
    else hs[0].name + (": " + (hs[0].value + (CRLF + RenderHeaders(hs[1..], rest))))
  }

  // A request head as a client writes it, up to the CR of the final blank line, and
  // what the buffer holds after it.  The LF of the blank line is the byte that
  // process_new_connection replaces by NUL.
  function RenderHead(r: RequestInfo, rest: string): string {
    r.requestMethod + (" " + (r.uri +
    (" " + (("HTTP/" + r.httpVersion) + (CRLF + RenderHeaders(r.headers, "\r" + rest))))))
  }

  // No character of s ends a word that is cut at one of the delimiters.
  ghost predicate Free(s: string, delimiters: string) {
    forall i :: 0 <= i < |s| ==> s[i] != NUL && s[i] !in delimiters
  }

  ghost predicate WellFormedHeader(h: Header) {
    && h.name != "" && Free(h.name, ":\r\n")
    && Free(h.value, CRLF) && (h.value != "" ==> h.value[0] != ' ')
  }

  ghost predicate AllWellFormed(hs: seq<Header>) {
    forall i :: 0 <= i < |hs| ==> WellFormedHeader(hs[i])
  }

  ghost predicate WellFormed(r: RequestInfo) {
    && IsValidHttpMethod(r.requestMethod)
    && r.uri != "" && Free(r.uri, " ")
    && Free(r.httpVersion, CRLF)
    && AllWellFormed(r.headers)
  }

  // Cutting finds a word that is followed by a delimiter and a run of whitespace.
  lemma CutWord(w: string, sep: string, rest: string, delimiters: string, whitespace: string)
    requires Free(w, delimiters)
    requires sep != "" && sep[0] in delimiters && sep[0] != NUL
    requires forall i :: 1 <= i < |sep| ==> sep[i] in whitespace
    requires rest != "" && rest[0] !in whitespace
    ensures Cut(w + (sep + rest), delimiters, whitespace) == Piece(w, rest)
  {
    var t := w + (sep + rest);
    SpanIs(t, 0, StopAt(delimiters), |w|);
    SpanIs(t, |w| + 1, NotIn(whitespace), |w| + |sep|);
    assert t[..|w|] == w;
    assert t[|w| + |sep|..] == rest;
  }

  // The text after a line's CRLF and all CR and LF that follow it.
  function NextLine(hs: seq<Header>, rest: string): string {
    if hs == [] then rest else RenderHeaders(hs, "\r" + rest)
  }

  // A line ends with its CRLF, or with the blank line's CR as well when it is the last.
  lemma CutLine(w: string, hs: seq<Header>, rest: string)
    requires Free(w, CRLF)
    requires hs == [] || WellFormedHeader(hs[0])
    requires rest != "" && rest[0] == NUL
    ensures Cut(w + (CRLF + RenderHeaders(hs, "\r" + rest)), CRLF, CRLF) == Piece(w, NextLine(hs, rest))
  {
    if hs == [] {
      assert CRLF + ("\r" + rest) == "\r\n\r" + rest;
      CutWord(w, "\r\n\r", rest, CRLF, CRLF);
    } else {
      var next := RenderHeaders(hs, "\r" + rest);
      assert next[0] == hs[0].name[0];
      CutWord(w, CRLF, next, CRLF, CRLF);
    }
  }

  lemma FreeVersion(v: string)
    requires Free(v, CRLF)
    ensures Free("HTTP/" + v, CRLF)
  {
    assert forall i :: 5 <= i < 5 + |v| ==> ("HTTP/" + v)[i] == v[i - 5];
  }

  lemma CutRenderedHeader(hs: seq<Header>, rest: string)
    requires hs != [] && WellFormedHeader(hs[0]) && (|hs| > 1 ==> WellFormedHeader(hs[1]))
    requires rest != "" && rest[0] == NUL
    ensures CutHeader(NextLine(hs, rest)) == Some((hs[0], NextLine(hs[1..], rest)))
  {
    var afterName := hs[0].value + (CRLF + RenderHeaders(hs[1..], "\r" + rest));
    assert NextLine(hs, rest) == hs[0].name + (": " + afterName);
    assert afterName[0] == if hs[0].value == "" then '\r' else hs[0].value[0];
    CutWord(hs[0].name, ": ", afterName, ":", " ");
    CutLine(hs[0].value, hs[1..], rest);
    assert Header(hs[0].name, hs[0].value) == hs[0];
  }

  lemma CutNoHeader(rest: string)
    requires rest != "" && rest[0] == NUL
    ensures CutHeader(NextLine([], rest)) == None
  {
    SpanIs(rest, 0, StopAt(":"), 0);
    assert Cut(rest, ":", " ").word == "";
  }

  lemma StoresRenderedHeaders(hs: seq<Header>, rest: string)
    requires AllWellFormed(hs) && rest != "" && rest[0] == NUL
    ensures StoredHeaders(NextLine(hs, rest)) == FirstOf(hs, MAX_HEADERS)
  {
    var texts := seq(|hs| + 1, i requires 0 <= i <= |hs| => NextLine(hs[i..], rest));
    forall i | 0 <= i < |hs|
      ensures CutHeader(texts[i]) == Some((hs[i], texts[i + 1]))
    {
      assert hs[i..][1..] == hs[i + 1..];
      CutRenderedHeader(hs[i..], rest);
    }
    assert hs[|hs|..] == [] && hs[0..] == hs;
    CutNoHeader(rest);
    CollectsInOrder(CutHeader, texts, hs, MAX_HEADERS);
  }

  /** Parsing a rendered head gives the request back: its method, URI and version, and
      its headers up to the sixteenth, whatever follows the head in the buffer. */
  lemma ParseInvertsRender(r: RequestInfo, rest: string)
    requires WellFormed(r) && rest != "" && rest[0] == NUL
    ensures ParseHead(RenderHead(r, rest))
         == Some(r.(headers := FirstOf(r.headers, MAX_HEADERS)))
  {
    var t := RenderHead(r, rest);
    SpanIs(t, 0, NotSpace(), 0);
    assert t[0..] == t;
    var version := "HTTP/" + r.httpVersion;
    var afterUri := version + (CRLF + RenderHeaders(r.headers, "\r" + rest));
    CutWord(r.requestMethod, " ", r.uri + (" " + afterUri), " ", " ");
    CutWord(r.uri, " ", afterUri, " ", " ");
    FreeVersion(r.httpVersion);
    CutLine(version, r.headers, rest);
    StoresRenderedHeaders(r.headers, rest);
    assert version[5..] == r.httpVersion;
  }

  // ---------------------------------------------------------------- in place

  // Offsets into the buffer, as the C code hands them out.
  datatype HeaderRef = HeaderRef(name: nat, value: nat)

  // t is s after parsing from p to z: nothing before p has changed, nothing from z on,
  // and no NUL has been overwritten.
  ghost predicate Kept(s: string, t: string, p: nat, z: nat) {
    && p <= z < |s| && |t| == |s|
    && (forall k :: 0 <= k < p || z <= k < |s| ==> t[k] == s[k])
    && (forall k :: p <= k < z && s[k] == NUL ==> t[k] == NUL)
  }

  lemma KeptTwice(s: string, t: string, u: string, p: nat, q: nat, z: nat)
    requires Kept(s, t, p, z) && Kept(t, u, q, z) && p <= q
    ensures Kept(s, u, p, z)
  {
  }

  // Strings that end at or before the cursor survive everything the parser does from there on.
  lemma HeldStays(s: string, t: string, b: nat, w: string, p: nat, z: nat)
    requires HoldsAt(s, b, w) && b + |w| <= p && Kept(s, t, p, z)
    ensures HoldsAt(t, b, w)
  {
    assert t[b..b + |w|] == s[b..b + |w|];
  }

  // What Cut returns, from the positions where the word and the whitespace end.
  lemma CutIs(t: string, delimiters: string, whitespace: string, e: nat, f: nat)
    requires e <= f <= |t| && e < |t|
    requires forall k :: 0 <= k < e ==> t[k] != NUL && t[k] !in delimiters
    requires t[e] == NUL || t[e] in delimiters
    requires t[e] == NUL ==> f == e
    requires t[e] != NUL ==>
      e < f < |t| && t[f] !in whitespace && forall k :: e < k < f ==> t[k] in whitespace
    ensures Cut(t, delimiters, whitespace) == Piece(t[..e], t[f..])
  {
    SpanIs(t, 0, StopAt(delimiters), e);
    if t[e] != NUL {
      SpanIs(t, e + 1, NotIn(whitespace), f);
    }
  }

  // The same for a word that starts at p in a buffer.
  lemma CutAt(s: string, p: nat, delimiters: string, whitespace: string, e: nat, f: nat)
    requires p <= e <= f <= |s| && e < |s|
    requires forall k :: p <= k < e ==> s[k] != NUL && s[k] !in delimiters
    requires s[e] == NUL || s[e] in delimiters
    requires s[e] == NUL ==> f == e
    requires s[e] != NUL ==>
      e < f < |s| && s[f] !in whitespace && forall k :: e < k < f ==> s[k] in whitespace
    ensures Cut(s[p..], delimiters, whitespace) == Piece(s[p..e], s[f..])
  {
    hide Cut;
    var t := s[p..];
    assert forall k :: 0 <= k < |t| ==> t[k] == s[p + k];
    CutIs(t, delimiters, whitespace, e - p, f - p);
    assert t[..e - p] == s[p..e] && t[f - p..] == s[f..];
  }

  // strcspn, then strspn from the character after the word.
  method FindWord(buf: array<char>, p: nat, ghost z: nat, delimiters: string, whitespace: string)
    returns (endWord: nat, next: nat)
    requires p <= z < buf.Length && buf[z] == NUL && NUL !in whitespace
    ensures p <= endWord <= next <= z
    ensures Cut(buf[p..], delimiters, whitespace) == Piece(buf[p..endWord], buf[next..])
    ensures forall k :: p <= k < endWord ==> buf[k] != NUL
    ensures endWord == next ==> buf[endWord] == NUL
  {
    endWord := p;
    while buf[endWord] != NUL && buf[endWord] !in delimiters
      invariant p <= endWord <= z
      invariant forall k :: p <= k < endWord ==> buf[k] != NUL && buf[k] !in delimiters
      decreases z - endWord
    {
      endWord := endWord + 1;
    }
    next := endWord;
    if buf[endWord] != NUL {
      next := endWord + 1;
      while buf[next] in whitespace
        invariant endWord < next <= z
        invariant forall k :: endWord < k < next ==> buf[k] in whitespace
        decreases z - next
      {
        next := next + 1;
      }
    }
    CutAt(buf[..], p, delimiters, whitespace, endWord, next);
    assert buf[..][p..] == buf[p..] && buf[..][p..endWord] == buf[p..endWord] && buf[..][next..] == buf[next..];
  }

  method SkipQuoted(buf: array<char>, p: nat, ghost z: nat, delimiters: string, whitespace: string)
    returns (begin: nat, next: nat)
    requires p <= z < buf.Length && buf[z] == NUL && NUL !in whitespace
    modifies buf
    ensures begin == p <= next <= z
    ensures Kept(old(buf[..]), buf[..], p, z)
    ensures var c := Cut(old(buf[p..]), delimiters, whitespace);
      && buf[next..] == c.rest
      && HoldsAt(buf[..], begin, c.word) && begin + |c.word| <= next
      && (begin + |c.word| == next ==> buf[next] == NUL)
  {
    hide Cut;
    begin := p;
    var endWord;
    endWord, next := FindWord(buf, p, z, delimiters, whitespace);
    forall k | endWord <= k < next {
      buf[k] := NUL;
    }
    assert buf[next..] == old(buf[next..]);
    assert buf[p..endWord] == old(buf[p..endWord]);
  }

  // The strings of the headers hs lie in the buffer at the offsets refs, before p.
  ghost predicate HeadersAt(s: string, refs: seq<HeaderRef>, hs: seq<Header>, p: nat) {
    && |refs| == |hs|
    && forall i :: 0 <= i < |hs| ==> HeaderAt(s, refs[i], hs[i], p)
  }

  ghost predicate HeaderAt(s: string, r: HeaderRef, h: Header, p: nat) {
    && HoldsAt(s, r.name, h.name) && r.name + |h.name| <= p
    && HoldsAt(s, r.value, h.value) && r.value + |h.value| <= p
  }

  // The strings of the headers lie at or after p.
  ghost predicate HeadersFrom(refs: seq<HeaderRef>, p: nat) {
    forall i :: 0 <= i < |refs| ==> p <= refs[i].name && p <= refs[i].value
  }

  lemma FromMore(refs: seq<HeaderRef>, r: HeaderRef, p: nat)
    requires HeadersFrom(refs, p) && p <= r.name && p <= r.value
    ensures HeadersFrom(refs + [r], p)
  {
  }

  lemma HeadersStay(s: string, t: string, refs: seq<HeaderRef>, hs: seq<Header>, p: nat, q: nat, z: nat)
    requires HeadersAt(s, refs, hs, p) && Kept(s, t, p, z) && p <= q
    ensures HeadersAt(t, refs, hs, q)
  {
    forall i | 0 <= i < |hs|
      ensures HeaderAt(t, refs[i], hs[i], q)
    {
      assert HeaderAt(s, refs[i], hs[i], p);
      HeldStays(s, t, refs[i].name, hs[i].name, p, z);
      HeldStays(s, t, refs[i].value, hs[i].value, p, z);
    }
  }

  method ParseHeader(buf: array<char>, p: nat, ghost z: nat) returns (r: HeaderRef, next: nat)
    requires p <= z < buf.Length && buf[z] == NUL
    modifies buf
    ensures p <= next <= z && Kept(old(buf[..]), buf[..], p, z)
    ensures r.name < buf.Length && p <= r.name && p <= r.value
    ensures match CutHeader(old(buf[p..]))
      case None => buf[r.name] == NUL
      case Some((h, rest)) => buf[r.name] != NUL && HeaderAt(buf[..], r, h, next) && buf[next..] == rest
  {
    ghost var s, t, word := buf[..], buf[p..], Cut(buf[p..], ":", " ").word;
    var name, value, middle;
    name, middle := SkipQuoted(buf, p, z, ":", " ");
    ghost var u := buf[..];
    value, next := SkipQuoted(buf, middle, z, CRLF, CRLF);
    HeldStays(u, buf[..], name, word, middle, z);
    HoldsEmpty(buf[..], name, word);
    KeptTwice(s, u, buf[..], p, middle, z);
    r := HeaderRef(name, value);
  }

  // The header loop, started at p on the buffer s0, has stored `found` at refs and goes
  // on at `next`; the buffer now holds s.
  ghost predicate Stored(s0: string, s: string, p: nat, z: nat, refs: seq<HeaderRef>, found: seq<Header>, next: nat)
    requires |found| <= MAX_HEADERS
  {
    && Kept(s0, s, p, z) && p <= next <= z
    && HeadersAt(s, refs, found, next)
    && CollectsThen(CutHeader, s0[p..], found, s[next..], MAX_HEADERS)
  }

  lemma StoresOne(s0: string, s: string, p: nat, z: nat, refs: seq<HeaderRef>, found: seq<Header>, c: nat,
                  t: string, r: HeaderRef, next: nat)
    requires |found| < MAX_HEADERS && Stored(s0, s, p, z, refs, found, c)
    requires Kept(s, t, c, z) && c <= next <= z
    requires CutHeader(s[c..]).Some? ==>
      HeaderAt(t, r, CutHeader(s[c..]).value.0, next) && t[next..] == CutHeader(s[c..]).value.1
    ensures Kept(s0, t, p, z) && HeadersAt(t, refs, found, next)
    ensures match CutHeader(s[c..])
      case None => StoredHeaders(s0[p..]) == found
      case Some((h, _)) => Stored(s0, t, p, z, refs + [r], found + [h], next)
  {
    KeptTwice(s0, s, t, p, c, z);
    HeadersStay(s, t, refs, found, c, next, z);
    CollectsMore(CutHeader, s0[p..], found, s[c..], MAX_HEADERS);
  }

  method ParseHttpHeaders(buf: array<char>, p: nat, ghost z: nat)
    returns (refs: seq<HeaderRef>, next: nat)
    requires p <= z < buf.Length && buf[z] == NUL
    modifies buf
    ensures p <= next <= z && Kept(old(buf[..]), buf[..], p, z)
    ensures HeadersAt(buf[..], refs, StoredHeaders(old(buf[p..])), next) && HeadersFrom(refs, p)
  {
    hide CutHeader, Cut, CollectsThen, HeaderAt, Collect;
    refs := [];
    next := p;
    ghost var s0 := buf[..];
    ghost var found: seq<Header> := [];
    assert buf[p..] == s0[p..];
    CollectsFirst(CutHeader, s0[p..], MAX_HEADERS);
    var i := 0;
    while i < MAX_HEADERS
      invariant i == |found| <= MAX_HEADERS && next <= z
      invariant Stored(s0, buf[..], p, z, refs, found, next) && HeadersFrom(refs, p)
    {
      ghost var s, c := buf[..], next;
      assert buf[c..] == s[c..];
      var r;
      r, next := ParseHeader(buf, next, z);
      assert buf[next..] == buf[..][next..];
      StoresOne(s0, s, p, z, refs, found, c, buf[..], r, next);
      if buf[r.name] == NUL {
        return;
      }
      FromMore(refs, r, p);
      refs := refs + [r];
      found := found + [CutHeader(s[c..]).value.0];
      i := i + 1;
    }
    CollectsAll(CutHeader, s0[p..], found, buf[..][next..], MAX_HEADERS);
  }

  datatype InfoRef = InfoRef(requestMethod: nat, uri: nat, httpVersion: nat, headers: seq<HeaderRef>)

  // The strings of a parsed request lie in the buffer at the offsets handed out, before z: the
  // method before the URI, the version and the headers behind it.
  ghost predicate InfoAt(s: string, r: InfoRef, info: RequestInfo, z: nat) {
    && HoldsAt(s, r.requestMethod, info.requestMethod) && r.requestMethod + |info.requestMethod| < r.uri
    && HoldsAt(s, r.uri, info.uri) && r.uri + |info.uri| <= z
    && r.uri + |info.uri| < r.httpVersion && HeadersFrom(r.headers, r.uri + |info.uri| + 1)
    && HoldsAt(s, r.httpVersion, info.httpVersion)
    && HeadersAt(s, r.headers, info.headers, z)
  }

  ghost predicate LineAt(s: string, requestMethod: nat, uri: nat, version: nat, line: RequestLine, p: nat) {
    && HoldsAt(s, requestMethod, line.requestMethod) && requestMethod + |line.requestMethod| <= p
    && HoldsAt(s, uri, line.uri) && uri + |line.uri| <= p
    && HoldsAt(s, version, line.version) && version + |line.version| <= p
  }

  lemma LineStays(s: string, t: string, requestMethod: nat, uri: nat, version: nat, line: RequestLine, p: nat, z: nat)
    requires LineAt(s, requestMethod, uri, version, line, p) && Kept(s, t, p, z)
    ensures LineAt(t, requestMethod, uri, version, line, p)
  {
    HeldStays(s, t, requestMethod, line.requestMethod, p, z);
    HeldStays(s, t, uri, line.uri, p, z);
    HeldStays(s, t, version, line.version, p, z);
  }

  // The words behind a cursor on a NUL are empty.
  lemma NothingBehindNul(t: string, u: string)
    requires t != "" && u != "" && u == Cut(t, " ", " ").rest
    ensures t[0] == NUL ==> Cut(u, CRLF, CRLF).word == ""
    ensures u[0] == NUL ==> Cut(u, CRLF, CRLF).word == ""
  {
  }

  method SkipLeadingSpace(buf: array<char>, ghost z: nat) returns (start: nat)
    requires z < buf.Length && buf[z] == NUL
    ensures start <= z && start == Span(buf[..], 0, NotSpace())
  {
    start := 0;
    while buf[start] != NUL && IsSpace(buf[start])
      invariant start <= z
      invariant forall k :: 0 <= k < start ==> IsSpace(buf[k])
      decreases z - start
    {
      start := start + 1;
    }
    SpanIs(buf[..], 0, NotSpace(), start);
  }

  method ParseRequestLine(buf: array<char>, ghost z: nat)
    returns (requestMethod: nat, uri: nat, version: nat, next: nat)
    requires z < buf.Length && buf[z] == NUL
    modifies buf
    ensures next <= z && Kept(old(buf[..]), buf[..], 0, z)
    ensures var line := CutRequestLine(old(buf[..]));
      && LineAt(buf[..], requestMethod, uri, version, line, next) && buf[next..] == line.rest
      && (line.version != "" ==> requestMethod + |line.requestMethod| < uri && uri + |line.uri| < version <= next)
  {
    hide Cut, Span;
    ghost var s0, line := buf[..], CutRequestLine(buf[..]);
    var start := SkipLeadingSpace(buf, z);
    assert s0[start..] == buf[start..];
    var afterMethod, afterUri;
    requestMethod, afterMethod := SkipQuoted(buf, start, z, " ", " ");
    ghost var s1 := buf[..];
    uri, afterUri := SkipQuoted(buf, afterMethod, z, " ", " ");
    ghost var s2 := buf[..];
    HeldStays(s1, s2, requestMethod, line.requestMethod, afterMethod, z);
    KeptTwice(s0, s1, s2, 0, afterMethod, z);
    NothingBehindNul(s1[afterMethod..], s2[afterUri..]);
    version, next := SkipQuoted(buf, afterUri, z, CRLF, CRLF);
    HeldStays(s2, buf[..], requestMethod, line.requestMethod, afterUri, z);
    HeldStays(s2, buf[..], uri, line.uri, afterUri, z);
    KeptTwice(s0, s2, buf[..], 0, afterUri, z);
  }

  /** parse_http_request on a buffer whose byte z is NUL: it computes ParseHead of what the
      buffer held, leaves every string it found intact, and writes no byte from z on. */
  method ParseHttpRequest(buf: array<char>, ghost z: nat) returns (status: bool, ri: InfoRef)
    requires z < buf.Length && buf[z] == NUL
    modifies buf
    ensures status <==> ParseHead(old(buf[..])).Some?
    ensures status ==> InfoAt(buf[..], ri, ParseHead(old(buf[..])).value, z)
    ensures Kept(old(buf[..]), buf[..], 0, z)
  {
    ghost var t, line := buf[..], CutRequestLine(buf[..]);
    var requestMethod, uri, version, next := ParseRequestLine(buf, z);
    ri := InfoRef(requestMethod, uri, version, []);
    ghost var s := buf[..];
    HoldsIsCStr(s, requestMethod, line.requestMethod);
    HoldsIsCStr(s, version, line.version);
    status := IsValidHttpMethod(CStr(buf[..], requestMethod)) && "HTTP/" <= CStr(buf[..], version);
    assert status == Acceptable(line);
    if status {
      var headers, end := ParseHttpHeaders(buf, next, z);
      assert buf.Length == |s|;
      RequestFound(t, s, buf[..], requestMethod, uri, version, next, headers, end, z);
      ri := InfoRef(requestMethod, uri, version + 5, headers);
    }
  }

  lemma RequestFound(t: string, s: string, u: string, requestMethod: nat, uri: nat, version: nat, next: nat,
                     headers: seq<HeaderRef>, end: nat, z: nat)
    requires Kept(t, s, 0, z) && Kept(s, u, next, z) && end <= z
    requires LineAt(s, requestMethod, uri, version, CutRequestLine(t), next) && Acceptable(CutRequestLine(t))
    requires HeadersAt(u, headers, StoredHeaders(CutRequestLine(t).rest), end) && HeadersFrom(headers, next)
    requires requestMethod + |CutRequestLine(t).requestMethod| < uri
    requires uri + |CutRequestLine(t).uri| < version <= next
    ensures Kept(t, u, 0, z)
    ensures InfoAt(u, InfoRef(requestMethod, uri, version + 5, headers), ParseHead(t).value, z)
  {
    hide CutRequestLine, StoredHeaders;
    var line := CutRequestLine(t);
    LineStays(s, u, requestMethod, uri, version, line, next, z);
    KeptTwice(t, s, u, 0, next, z);
    HoldsSuffix(u, version, line.version, 5);
    HeadersBetween(u, headers, StoredHeaders(line.rest), next, end, uri + |line.uri| + 1, z);
  }

  lemma HeadersBetween(s: string, refs: seq<HeaderRef>, hs: seq<Header>, p: nat, end: nat, q: nat, z: nat)
    requires HeadersAt(s, refs, hs, end) && HeadersFrom(refs, p) && q <= p && end <= z
    ensures HeadersAt(s, refs, hs, z) && HeadersFrom(refs, q)
  {
    forall i | 0 <= i < |hs|
      ensures HeaderAt(s, refs[i], hs[i], z)
    {
      assert HeaderAt(s, refs[i], hs[i], end);
    }
  }

  lemma HoldsSuffix(s: string, b: nat, w: string, n: nat)
    requires HoldsAt(s, b, w) && n <= |w|
    ensures HoldsAt(s, b + n, w[n..])
  {
    assert s[b + n..b + |w|] == s[b..b + |w|][n..];
  }
}
