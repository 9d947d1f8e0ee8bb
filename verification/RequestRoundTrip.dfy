/**
 A whole HTTP request, from the client that writes it to the callback that reads its body:
 the head is found, however the network cuts the stream, and parsed back, and the body is
 handed out (process_new_connection in server/mongoose.c).
 */
module RequestRoundTrip {
  import opened Wrappers
  import opened CStrings
  import opened Collecting
  import opened RequestHead
  import opened Connection
  import opened RequestParser
  import opened UriPath
  import opened HttpEngine

  // The bytes that a client sends: the head up to its blank line, and the body.
  function Sent(r: RequestInfo, body: string): string {
    RenderHead(r, "\n" + body)
  }

  function HeadLen(r: RequestInfo): nat {
    |RenderHead(r, "")| + 1
  }

  // A request that can be written: the URI is one word, and holds no blank line.
  ghost predicate Writable(r: RequestInfo) {
    WellFormed(r) && !HasHead(r.uri)
  }

  // What the parser keeps of it.
  function Kept16(r: RequestInfo): RequestInfo {
    r.(headers := FirstOf(r.headers, MAX_HEADERS))
  }

  // ------------------------------------------------------------------ the blank line

  // No line feed of p starts a blank line, whatever follows p.
  ghost predicate NoBlankInside(p: string) {
    forall j: nat :: j < |p| && p[j] == '\n' ==>
      j + 1 < |p| && (p[j + 1] == '\r' ==> j + 2 < |p|) && !BlankLineAt(p, j)
  }

  lemma BlankLineBehind(p: string, t: string, k: nat)
    requires NoBlankInside(p) && FirstBlankLine(t, k)
    ensures FirstBlankLine(p + t, |p| + k) && BlankLineEnd(p + t, |p| + k) == |p| + BlankLineEnd(t, k)
  {
    var s := p + t;
    forall j: nat | j < |p| + k
      ensures !BlankLineAt(s, j)
    {
      if j < |p| {
        assert s[j] == p[j] && (p[j] == '\n' ==> !BlankLineAt(p, j) && s[j + 1] == p[j + 1]);
      } else {
        assert !BlankLineAt(t, j - |p|);
      }
    }
  }

  lemma HeaderLine(h: Header)
    requires WellFormedHeader(h)
    ensures NoBlankInside("\n" + (h.name + (": " + (h.value + "\r"))))
  {
    var p := "\n" + (h.name + (": " + (h.value + "\r")));
    var a := 1 + |h.name|;
    assert p[1] == h.name[0];
    assert forall j :: 1 <= j < a ==> p[j] == h.name[j - 1];
    assert p[a] == ':' && p[a + 1] == ' ';
    assert forall j :: a + 2 <= j < a + 2 + |h.value| ==> p[j] == h.value[j - a - 2];
    assert p[|p| - 1] == '\r';
  }

  // The headers, from the line break of the line before them.
  lemma {:induction false} BlankAfterHeaders(hs: seq<Header>, body: string)
    requires AllWellFormed(hs)
    ensures var t, k := "\n" + RenderHeaders(hs, "\r" + ("\n" + body)), |RenderHeaders(hs, "")|;
      FirstBlankLine(t, k) && BlankLineEnd(t, k) == k + 3
  {
    hide FirstBlankLine, BlankLineEnd, NoBlankInside, WellFormedHeader;
    if hs == [] {
      BlankAtOnce(body);
    } else {
      var h, rest := hs[0], RenderHeaders(hs[1..], "\r" + ("\n" + body));
      var p := "\n" + (h.name + (": " + (h.value + "\r")));
      BlankAfterHeaders(hs[1..], body);
      HeaderLine(h);
      BlankLineBehind(p, "\n" + rest, |RenderHeaders(hs[1..], "")|);
      HeaderRegroup(h.name, h.value, rest);
    }
  }

  lemma BlankAtOnce(body: string)
    ensures var t := "\n" + RenderHeaders([], "\r" + ("\n" + body)); FirstBlankLine(t, 0) && BlankLineEnd(t, 0) == 3
  {
  }

  lemma HeaderRegroup(name: string, value: string, rest: string)
    ensures "\n" + (name + (": " + (value + (CRLF + rest))))
            == ("\n" + (name + (": " + (value + "\r")))) + ("\n" + rest)
  {
    assert CRLF + rest == "\r" + ("\n" + rest);
    assert value + (CRLF + rest) == (value + "\r") + ("\n" + rest);
    assert ": " + (value + (CRLF + rest)) == (": " + (value + "\r")) + ("\n" + rest);
    assert name + (": " + (value + (CRLF + rest))) == (name + (": " + (value + "\r"))) + ("\n" + rest);
  }

  // The request line without its line break.
  function FirstLine(r: RequestInfo): string {
    r.requestMethod + (" " + (r.uri + (" " + (("HTTP/" + r.httpVersion) + "\r"))))
  }

  // A blank line of the request line is one of the URI.
  lemma FirstLineHasNoBlank(r: RequestInfo)
    requires Writable(r)
    ensures NoBlankInside(FirstLine(r))
  {
    var p, off := FirstLine(r), |r.requestMethod| + 1;
    var end := off + |r.uri|;
    FirstLineParts(r);
    forall j: nat | j < |p| && p[j] == '\n'
      ensures j + 1 < |p| && (p[j + 1] == '\r' ==> j + 2 < |p|) && !BlankLineAt(p, j)
    {
      assert off <= j < end;
      assert !BlankLineAt(r.uri, j - off);
    }
  }

  lemma FirstLineParts(r: RequestInfo)
    requires Writable(r)
    ensures var p, off := FirstLine(r), |r.requestMethod| + 1;
      && off + |r.uri| + 7 <= |p| && p[off + |r.uri|] == ' ' && p[off + |r.uri| + 1] == 'H'
      && (forall j :: 0 <= j < |r.uri| ==> p[off + j] == r.uri[j])
      && (forall j :: 0 <= j < off || off + |r.uri| <= j < |p| ==> p[j] != '\n')
  {
    var v := ("HTTP/" + r.httpVersion) + "\r";
    var tail := " " + v;
    assert '\n' !in r.requestMethod && '\n' !in r.httpVersion && '\n' !in "HTTP/";
    assert '\n' !in tail;
    var p, off := FirstLine(r), |r.requestMethod| + 1;
    assert p == (r.requestMethod + " ") + (r.uri + tail);
    assert forall j :: off + |r.uri| <= j < |p| ==> p[j] == tail[j - off - |r.uri|];
  }

  lemma SentIs(r: RequestInfo, rest: string)
    ensures RenderHead(r, rest) == FirstLine(r) + ("\n" + RenderHeaders(r.headers, "\r" + rest))
  {
    var tail := RenderHeaders(r.headers, "\r" + rest);
    var v := "HTTP/" + r.httpVersion;
    assert v + (CRLF + tail) == (v + "\r") + ("\n" + tail);
    assert r.uri + (" " + (v + (CRLF + tail))) == (r.uri + (" " + (v + "\r"))) + ("\n" + tail);
  }

  lemma {:induction false} HeadersThenRest(hs: seq<Header>, a: string, b: string)
    ensures RenderHeaders(hs, a + b) == RenderHeaders(hs, a) + b
  {
    if hs != [] {
      HeadersThenRest(hs[1..], a, b);
      var x := RenderHeaders(hs[1..], a);
      assert CRLF + (x + b) == (CRLF + x) + b;
      assert hs[0].value + ((CRLF + x) + b) == (hs[0].value + (CRLF + x)) + b;
      assert ": " + ((hs[0].value + (CRLF + x)) + b) == (": " + (hs[0].value + (CRLF + x))) + b;
    }
  }

  lemma HeadThenRest(r: RequestInfo, rest: string)
    ensures RenderHead(r, rest) == RenderHead(r, "") + rest
  {
    hide RenderHead;
    SentIs(r, rest);
    SentIs(r, "");
    assert "\r" + "" == "\r";
    HeadersThenRest(r.headers, "\r", rest);
    var x := RenderHeaders(r.headers, "\r");
    assert FirstLine(r) + ("\n" + (x + rest)) == (FirstLine(r) + ("\n" + x)) + rest;
  }

  /** The end of a rendered head is where the server looks for it. */
  lemma RenderedHeadEnds(r: RequestInfo, body: string)
    requires Writable(r)
    ensures IsHead(Sent(r, body), HeadLen(r))
  {
    hide FirstBlankLine, BlankLineEnd, RenderHead, NoBlankInside;
    FirstLineHasNoBlank(r);
    BlankAfterHeaders(r.headers, body);
    var k := |RenderHeaders(r.headers, "")|;
    BlankLineBehind(FirstLine(r), "\n" + RenderHeaders(r.headers, "\r" + ("\n" + body)), k);
    SentIs(r, "\n" + body);
    SentIs(r, "");
    HeadersThenRest(r.headers, "", "\r");
    assert "" + "\r" == "\r" + "" == "\r";
  }

  /** The server's parser, on the head with its last byte overwritten, gives the request
      back, with its first sixteen headers. */
  lemma SentIsParsedBack(r: RequestInfo, body: string, info: Option<RequestInfo>)
    requires WellFormed(r) && HeadLen(r) <= |Sent(r, body)|
    requires ParsedFrom(Sent(r, body), HeadLen(r), info)
    ensures info == Some(Kept16(r))
  {
    hide ParseHead, RenderHead, WellFormed, FirstOf;
    HeadThenRest(r, "\n" + body);
    var data, n := Sent(r, body), HeadLen(r);
    assert data[..n - 1] == RenderHead(r, "");
    var rest :| rest != "" && rest[0] == NUL && info == ParseHead(data[..n - 1] + rest);
    HeadThenRest(r, rest);
    ParseInvertsRender(r, rest);
  }

  lemma BodyFollows(r: RequestInfo, body: string)
    ensures HeadLen(r) <= |Sent(r, body)| && Sent(r, body)[HeadLen(r)..] == body
  {
    hide RenderHead;
    HeadThenRest(r, "\n" + body);
    var h := RenderHead(r, "");
    assert h + ("\n" + body) == (h + "\n") + body;
  }

  // A head without control characters that fits the buffer.
  ghost predicate Receivable(r: RequestInfo, body: string, bufsiz: nat) {
    HeadLen(r) <= bufsiz && !Spoiled(Sent(r, body), HeadLen(r) - 1)
  }

  /** It is found for every way in which the network cuts the stream. */
  lemma HeadIsAlwaysFound(r: RequestInfo, body: string, feed: Feed, bufsiz: nat)
    requires Writable(r) && Receivable(r, body, bufsiz) && feed.data == Sent(r, body)
    ensures ReadLoop("", feed, bufsiz).requestLen > 0
  {
    hide IsHead, RenderHead, ReadLoop, RequestLen, Spoiled;
    var data, n := feed.data, HeadLen(r);
    RenderedHeadEnds(r, body);
    FoundIfUnspoiled(data, n, feed, bufsiz);
  }

  // A head that fits the buffer is that of the window.
  lemma HeadInWindow(data: string, n: nat, bufsiz: nat)
    requires IsHead(data, n) && n <= bufsiz
    ensures RequestLen(Window(data, bufsiz)) == n
  {
    hide Scan;
    HeadBounds(data, n);
    var w := Window(data, bufsiz);
    HeadOfPrefix(data, |w|, n);
    RequestLenMeaning(w);
    WindowHasHead(w, n);
    HeadIsUnique(w, n, RequestLen(w));
  }

  lemma FoundIfUnspoiled(data: string, n: nat, feed: Feed, bufsiz: nat)
    requires IsHead(data, n) && n <= bufsiz && !Spoiled(data, n - 1) && feed.data == data
    ensures ReadLoop("", feed, bufsiz).requestLen > 0
  {
    hide ReadLoop, RequestLen, IsHead;
    HeadInWindow(data, n, bufsiz);
    LastIsLineFeed(data, n);
    SegmentationTheorem(data, feed.broken, bufsiz);
    WholeDelivery(data, feed.broken, bufsiz);
    assert HeadFound(data, feed.sizes, feed.broken, bufsiz) == HeadFound(data, [], feed.broken, bufsiz);
    assert feed == Feed(data, feed.sizes, feed.broken);
  }

  // The last byte of a head does not spoil it.
  lemma LastIsLineFeed(data: string, n: nat)
    requires IsHead(data, n)
    ensures 0 < n && (Spoiled(data, n) <==> Spoiled(data, n - 1))
  {
    HeadBounds(data, n);
    assert data[n - 1] == '\n';
  }

  lemma WindowHasHead(w: string, n: nat)
    requires IsHead(w, n)
    ensures HasHead(w)
  {
  }

  // ------------------------------------------------------------------ the answers

  /** What is answered to a request that is parsed: 505 exactly for a version other than 1.0 and
      1.1; else 400 exactly when its first Content-Length header says a negative number; else it
      is accepted. */
  lemma AnswerMeans(r: RequestInfo, minus: bool, n: nat)
    ensures var verdict := Judge(Some(Kept16(r))); var known := r.httpVersion == "1.0" || r.httpVersion == "1.1";
      && (verdict == Version505 <==> !known)
      && (SaysLength(Kept16(r).headers, minus, n) ==>
           && (verdict == Bad400 <==> known && minus && n > 0)
           && (verdict == Accepted <==> known && !(minus && n > 0)))
      && ((forall k: nat :: !FirstNamed(Kept16(r).headers, "Content-Length", k)) ==> (verdict == Accepted <==> known))
  {
    hide Kept16, BadContentLength, SaysLength, FirstNamed;
    var hs := Kept16(r).headers;
    assert Kept16(r).httpVersion == r.httpVersion by { KeptVersion(r); }
    if SaysLength(hs, minus, n) {
      ContentLengthMeans(hs, minus, n);
    }
    if forall k: nat :: !FirstNamed(hs, "Content-Length", k) {
      NoContentLength(hs);
    }
  }

  lemma KeptVersion(r: RequestInfo)
    ensures Kept16(r).httpVersion == r.httpVersion
  {
  }

  /** And one whose method is not GET, POST, DELETE or OPTIONS, or whose version does not start
      with HTTP/, is not parsed: 400. */
  lemma UnknownMethodIsRefused(requestMethod: string, uri: string, version: string, rest: string)
    requires requestMethod != "" && Free(requestMethod, " ") && !IsSpace(requestMethod[0])
    requires uri != "" && Free(uri, " ") && uri[0] != ' ' && version != "" && version[0] != ' ' && Free(version, CRLF)
    requires rest != "" && rest[0] == '\r'
    requires requestMethod !in {"GET", "POST", "DELETE", "OPTIONS"} || !("HTTP/" <= version)
    ensures ParseHead(requestMethod + (" " + (uri + (" " + (version + rest))))) == None
    ensures Judge(None) == Bad400
  {
    hide StoredHeaders, Cut, IsValidHttpMethod;
    var u := version + rest;
    var t := requestMethod + (" " + (uri + (" " + u)));
    assert t[0] == requestMethod[0] && u[0] == version[0];
    SpanIs(t, 0, NotSpace(), 0);
    assert t[0..] == t;
    CutWord(requestMethod, " ", uri + (" " + u), " ", " ");
    CutWord(uri, " ", u, " ", " ");
    WordBeforeBreak(version, rest);
    MethodsAre(requestMethod);
  }

  lemma WordBeforeBreak(version: string, rest: string)
    requires Free(version, CRLF) && rest != "" && rest[0] == '\r'
    ensures Cut(version + rest, CRLF, CRLF).word == version
  {
    var u := version + rest;
    SpanIs(u, 0, StopAt(CRLF), |version|);
    assert u[..|version|] == version;
  }

  lemma MethodsAre(m: string)
    ensures IsValidHttpMethod(m) <==> m in {"GET", "POST", "DELETE", "OPTIONS"}
  {
  }

  // The body that the server delivers of the text sent after the head.
  function BodySent(r: RequestInfo, sent: string): string {
    Prefix(sent, ContentLength(Kept16(r).headers))
  }

  /** Up to the call of the callback, the server answers by the request that was sent, and
      has in place for its callback the strings of that request, with the URI decoded and
      cleaned, and its body. */
  method PrepareSent(conn: HttpConnection, ghost r: RequestInfo, ghost sent: string)
    returns (verdict: Verdict, ri: InfoRef, query: Option<nat>)
    requires conn.Valid() && Writable(r) && Receivable(r, sent, conn.buf.Length)
    requires conn.sock.feed.data == Sent(r, sent)
    modifies conn, conn.buf, conn.sock
    ensures verdict == Judge(Some(Kept16(r)))
    ensures verdict == Accepted ==>
      && conn.Valid() && SeesRequest(conn.buf[..], ri, query, Kept16(r), HeadLen(r) - 1)
      && conn.ToDeliver().Unread() == sent && conn.ToDeliver().Pending() == BodySent(r, sent)
  {
    hide IsHead, RenderHead, ReadLoop, ParsedFrom, WellFormed, Free, Receivable, ContentLength, Prefix, FirstOf;
    hide Sent, HeadLen, Judge, HandledPath;
    HeadIsAlwaysFound(r, sent, conn.sock.feed, conn.buf.Length);
    RenderedHeadEnds(r, sent);
    BodyFollows(r, sent);
    ghost var info;
    verdict, ri, query, info := Prepare(conn);
    HeadIsUnique(Sent(r, sent), HeadLen(r), conn.requestLen);
    SentIsParsedBack(r, sent, info);
  }

  /** End to end: its callback reads the body that was sent, as far as Content-Length and its
      own reads go, and what was sent behind the body is left. */
  method ServeSent(conn: HttpConnection, sizes: seq<nat>, ghost r: RequestInfo, ghost sent: string)
    returns (verdict: Verdict, ri: InfoRef, query: Option<nat>, body: string)
    requires conn.Valid() && forall i :: 0 <= i < |sizes| ==> sizes[i] <= INT_MAX
    requires Writable(r) && Receivable(r, sent, conn.buf.Length) && conn.sock.feed.data == Sent(r, sent)
    modifies conn, conn.buf, conn.sock
    ensures verdict == Judge(Some(Kept16(r)))
    ensures verdict == Accepted ==>
      && conn.Valid() && SeesRequest(conn.buf[..], ri, query, Kept16(r), HeadLen(r) - 1)
      && body == Prefix(BodySent(r, sent), Sum(sizes))
      && conn.ToDeliver().Unread() == sent[|BodySent(r, sent)|..]
  {
    hide Prefix, Kept16, Judge, SeesRequest, HeadLen, Body.Pending, Body.Unread, BodySent;
    body := "";
    verdict, ri, query := PrepareSent(conn, r, sent);
    if verdict == Accepted {
      body := ServeBody(conn, sizes);
    }
  }
}
