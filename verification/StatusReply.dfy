/**
 The text of the reply to a status request, with the DIAL data of the application
 (handle_app_status in server/dial_server.c).
 */
module StatusReply {
  import opened Wrappers
  import opened CStrings
  import opened Numbers
  import opened Connection
  import opened DialApps
  import opened DialData
  import UrlLib
  import XmlEscape

  const HREF := "href="

  function StateText(s: Status): string {
    match s
    case Hide => "hidden"
    case Running => "running"
    case Stopped | ErrorNotImplemented | ErrorForbidden | ErrorUnauth | Error => "stopped"
  }

  function AllowStopText(canStop: bool): string {
    if canStop then "true" else "false"
  }

  function LinkText(s: Status): string {
    if s == Stopped then "" else LinkStart() + (HREF + ("\"run\"" + "/>\r\n"))
  }

  function LinkStart(): string { "  <link rel=\"run\" " }

  function ReplyStart(): string {
    "<?xml version=\"1.0\" " + ("encoding=\"UTF-8\"?>\r\n"
    + ("<service xmlns=\"urn:dial-" + ("multiscreen-org:schemas:dial\" "
    + ("dialVer=\"2.2\">\r\n" + "  <name>"))))
  }

  function ReplyMiddle(canStop: bool, s: Status): string {
    "</name>\r\n  <options allowStop=\""
    + (AllowStopText(canStop) + ("\"/>\r\n  <state>" + (StateText(s) + "</state>\r\n")))
  }

  function ReplyEnd(additionalData: string): string {
    "  <additionalData>\n" + (additionalData + "\n  </additionalData>\n</service>\r\n")
  }

  // The body of the reply to a status request; s is the state shown to this client.
  function StatusBody(name: string, canStop: bool, s: Status, additionalData: string): string {
    ReplyStart() + (name + (ReplyMiddle(canStop, s) + (LinkText(s) + ReplyEnd(additionalData))))
  }

  // --------------------------------------------------------------- what is sent

  // BUFSIZ of the GNU C library.
  const BUFSIZ := 8192

  // mg_printf sends what fits its buffer.
  function Printed(text: string): string {
    Prefix(text, BUFSIZ - 1)
  }

  // What printf shows for "%s"; "(null)" is the GNU C library's text for a null pointer.
  function OriginText(text: Option<string>): string {
    if text.Some? then text.value else "(null)"
  }

  // The status line and the headers of the reply.
  function StatusHead(origin: Option<string>): string {
    "HTTP/1.1 200 OK\r\nContent-Type: " + ("text/xml\r\n" + ("Access-Control-Allow-Origin: "
    + (OriginText(origin) + "\r\n\r\n")))
  }

  // The body that the client receives.
  function BodyReceived(sent: string, origin: Option<string>): string {
    if |StatusHead(origin)| <= |sent| then sent[|StatusHead(origin)|..] else ""
  }

  // The body up to its link, for an application that is not stopped.
  function UpToLink(name: string, canStop: bool, s: Status): string {
    ReplyStart() + (name + ((ReplyMiddle(canStop, s) + LinkStart()) + (HREF + "\"run\"")))
  }

  /** The whole reply arrives if and only if it is shorter than mg_printf's buffer. */
  lemma WholeReplyArrives(origin: Option<string>, body: string)
    ensures BodyReceived(Printed(StatusHead(origin) + body), origin) == body <==>
      |StatusHead(origin)| + |body| < BUFSIZ || body == ""
  {
    hide StatusHead;
    var head := StatusHead(origin);
    assert (head + body)[|head|..] == body;
  }

  lemma BodyIsLinked(name: string, canStop: bool, s: Status, data: string)
    requires s != Stopped
    ensures UpToLink(name, canStop, s) <= StatusBody(name, canStop, s, data)
  {
    hide ReplyStart, ReplyMiddle, ReplyEnd, LinkStart;
    var tail, end := "/>\r\n", ReplyEnd(data);
    LinkParts(ReplyStart(), name, ReplyMiddle(canStop, s), LinkStart(), HREF, "\"run\"", tail, end);
  }

  lemma LinkParts(a: string, n: string, m: string, l: string, h: string, r: string, t: string, e: string)
    ensures a + (n + (m + ((l + (h + (r + t))) + e))) == (a + (n + ((m + l) + (h + r)))) + (t + e)
  {
    assert (l + (h + (r + t))) + e == (l + (h + r)) + (t + e);
    assert m + ((l + (h + r)) + (t + e)) == ((m + l) + (h + r)) + (t + e);
    assert n + (((m + l) + (h + r)) + (t + e)) == (n + ((m + l) + (h + r))) + (t + e);
  }

  // What remains of a body that is cut off behind its link still has it.
  lemma LinkArrives(name: string, canStop: bool, s: Status, data: string, origin: Option<string>)
    requires s != Stopped && |StatusHead(origin)| + |UpToLink(name, canStop, s)| < BUFSIZ
    ensures UpToLink(name, canStop, s) <=
      BodyReceived(Printed(StatusHead(origin) + StatusBody(name, canStop, s, data)), origin)
  {
    hide StatusHead, UpToLink, StatusBody;
    BodyIsLinked(name, canStop, s, data);
    var head, u, body := StatusHead(origin), UpToLink(name, canStop, s), StatusBody(name, canStop, s, data);
    var sent := Printed(head + body);
    assert sent == (head + body)[..|sent|];
    assert sent[|head|..] == body[..|sent| - |head|];
  }

  lemma StartSizes()
    ensures |ReplyStart()| < 150 && |LinkStart()| < 20 && |HREF + "\"run\""| < 20
  {
  }

  lemma MiddleSize(canStop: bool, s: Status)
    ensures |ReplyMiddle(canStop, s)| < 150
  {
  }

  lemma HeadSize(origin: Option<string>)
    ensures |StatusHead(origin)| < 100 + |OriginText(origin)|
  {
    hide OriginText;
  }

  /** The link arrives whenever origin and name come from one request head of the server's
      size. */
  lemma LinkFits(name: string, canStop: bool, s: Status, origin: Option<string>)
    requires |OriginText(origin)| + |name| <= MAX_REQUEST_SIZE
    ensures |StatusHead(origin)| + |UpToLink(name, canStop, s)| < BUFSIZ
  {
    hide StatusHead, ReplyStart, ReplyMiddle, LinkStart, OriginText;
    StartSizes();
    MiddleSize(canStop, s);
    HeadSize(origin);
  }

  // --------------------------------------------------------------- the DIAL data

  const DIAL_DATA_SIZE := 8 * 1024

  function DataEntry(p: Param): string {
    var key, value := XmlEscape.Shown(p.key), XmlEscape.Shown(p.value);
    "    <" + (key + (">" + (value + ("</" + (key + ">")))))
  }

  function DataText(data: seq<Param>): string {
    if data == [] then "" else DataEntry(data[0]) + DataText(data[1..])
  }

  // What handle_app_status sends.
  function ReplySent(name: string, canStop: bool, s: Status, data: seq<Param>, origin: Option<string>): string {
    Printed(StatusHead(origin) + StatusBody(name, canStop, s, Capped(DataText(data))))
  }

  // What fits the buffer for the data.
  function Capped(text: string): string {
    Prefix(text, DIAL_DATA_SIZE)
  }

  lemma CappedMore(text: string, piece: string)
    ensures Capped(Capped(text) + piece) == Capped(text + piece)
  {
    if |text| >= DIAL_DATA_SIZE {
      assert (text[..DIAL_DATA_SIZE] + piece)[..DIAL_DATA_SIZE] == text[..DIAL_DATA_SIZE];
    }
  }

  lemma CappedSize(text: string)
    ensures |Capped(text)| == (if |text| < DIAL_DATA_SIZE then |text| else DIAL_DATA_SIZE)
  {
  }

  // The buffer, with the byte behind it, has stored this text.
  ghost predicate Stores(buf: string, text: string) {
    |buf| == DIAL_DATA_SIZE + 1 && HoldsAt(buf, 0, Capped(text)) && NoNul(text)
  }

  lemma StoresMore(d: string, e: string, text: string, piece: string, n: nat)
    requires Stores(d, text) && NoNul(piece) && n == Min(|piece|, DIAL_DATA_SIZE - |Capped(text)|)
    requires Copied(d, e, |Capped(text)|, piece[..n] + [NUL])
    ensures Stores(e, text + piece) && |Capped(text + piece)| == |Capped(text)| + n
  {
    hide Capped;
    var c, all := Capped(text), text + piece;
    CappedMore(text, piece);
    CappedSize(text);
    CappedSize(all);
    assert Capped(all) == c + piece[..n] by { CappedPiece(c, piece, n); }
    assert e[0..|c| + n] == c + piece[..n] by {
      assert forall k :: 0 <= k < |c| ==> d[k] == d[0..|c|][k];
    }
    assert e[|c| + n] == (piece[..n] + [NUL])[n];
  }

  lemma CappedPiece(c: string, piece: string, n: nat)
    requires |c| <= DIAL_DATA_SIZE && n == Min(|piece|, DIAL_DATA_SIZE - |c|)
    ensures Capped(c + piece) == c + piece[..n]
  {
  }

  // smartstrncpy(p, piece, end - p), where the text stored so far ends at p.  The last store
  // goes to index `next`, and is inside the array dial_data only if that is below its size.
  method Append(dialData: array<char>, p: nat, piece: string, ghost text: string)
    returns (next: nat, ghost all: string)
    requires Stores(dialData[..], text) && p == |Capped(text)| && NoNul(piece)
    modifies dialData
    ensures all == text + piece && Stores(dialData[..], all) && p <= next == |Capped(all)|
    ensures forall k :: 0 <= k < p || next < k < dialData.Length ==> dialData[k] == old(dialData[k])
  {
    CappedSize(text);
    ghost var d := dialData[..];
    next := XmlEscape.SmartStrNCpy(dialData, p, piece, DIAL_DATA_SIZE - p);
    all := text + piece;
    StoresMore(d, dialData[..], text, piece, next - p);
  }

  // One turn of the loop over the DIAL data.
  method AppendEntry(dialData: array<char>, p: nat, d: Param, ghost text: string)
    returns (next: nat, ghost all: string)
    requires Stores(dialData[..], text) && p == |Capped(text)|
    modifies dialData
    ensures all == text + DataEntry(d) && Stores(dialData[..], all) && next == |Capped(all)|
    ensures forall k :: next < k < dialData.Length ==> dialData[k] == old(dialData[k])
  {
    hide Capped, XmlEscape.Shown, Stores;
    var key, value := XmlEscape.Shown(d.key), XmlEscape.Shown(d.value);
    XmlEscape.ShownNoNul(d.key);
    XmlEscape.ShownNoNul(d.value);
    next, all := Append(dialData, p, "    <", text);
    next, all := Append(dialData, next, key, all);
    next, all := Append(dialData, next, ">", all);
    next, all := Append(dialData, next, value, all);
    next, all := Append(dialData, next, "</", all);
    next, all := Append(dialData, next, key, all);
    next, all := Append(dialData, next, ">", all);
    EntryParts(text, key, value);
  }

  lemma EntryParts(t: string, key: string, value: string)
    ensures t + "    <" + key + ">" + value + "</" + key + ">"
         == t + ("    <" + (key + (">" + (value + ("</" + (key + ">"))))))
  {
  }

  /** The loop over the DIAL data: the entries one after another, cut off at the buffer's end.
      All its stores are inside the array, which is one element shorter than `dialData`, if and
      only if the whole text is shorter than the array; else the last NUL is stored behind it. */
  method BuildDataText(data: seq<Param>) returns (buffered: string, inside: bool)
    ensures buffered == Capped(DataText(data))
    ensures inside <==> |DataText(data)| < DIAL_DATA_SIZE
  {
    hide Capped, DataEntry, Stores;
    var dialData, p := new char[DIAL_DATA_SIZE + 1](_ => NUL), 0;
    ghost var text := "";
    NothingStored(dialData[..]);
    assert data[0..] == data && "" + DataText(data) == DataText(data);
    var i := 0;
    inside := true;
    while i < |data|
      invariant i <= |data| && Stores(dialData[..], text) && p == |Capped(text)|
      invariant DataText(data) == text + DataText(data[i..])
      invariant inside <==> |text| < DIAL_DATA_SIZE
    {
      ghost var rest := DataText(data[i + 1..]);
      assert data[i..][0] == data[i] && data[i..][1..] == data[i + 1..];
      assert text + (DataEntry(data[i]) + rest) == (text + DataEntry(data[i])) + rest;
      p, text := AppendEntry(dialData, p, data[i], text);
      CappedSize(text);
      inside := inside && p < DIAL_DATA_SIZE;
      i := i + 1;
    }
    assert text + "" == text;
    buffered := TextStored(dialData, text);
  }

  method TextStored(dialData: array<char>, ghost text: string) returns (buffered: string)
    requires Stores(dialData[..], text)
    ensures buffered == Capped(text)
  {
    HoldsIsCStr(dialData[..], 0, Capped(text));
    buffered := CStr(dialData[..], 0);
  }

  lemma NothingStored(buf: string)
    requires |buf| == DIAL_DATA_SIZE + 1 && buf[0] == NUL
    ensures Stores(buf, "") && |Capped("")| == 0
  {
  }

  // ------------------------------------------------------- a text that is too long

  // The pair a=b, n times, as a list and as a query.
  function ShortPairs(n: nat): seq<Param> { seq(n, _ => Param("a", "b")) }

  lemma ShortEntry()
    ensures |DataEntry(Param("a", "b"))| >= 12
  {
    ShownIsNotEmpty("a");
    ShownIsNotEmpty("b");
  }

  lemma ShownIsNotEmpty(c: string)
    requires c == "a" || c == "b"
    ensures XmlEscape.Shown(c) != ""
  {
    hide XmlEscape.Shown;
    assert c[1..] == "" && UrlLib.Encode(c) == c + "" by { LetterIsEncoded(c); }
    XmlEscape.ShownTextIsLossless(c);
    assert !XmlEscape.IsQuote(c[0]);
    assert XmlEscape.Unescape("") == "";
  }

  lemma LetterIsEncoded(c: string)
    requires c == "a" || c == "b"
    ensures c[1..] == "" && UrlLib.Encode(c) == c + ""
  {
    assert UrlLib.EncodeChar()(c[0]) == c;
    assert UrlLib.Encode(c) == c + UrlLib.Encode(c[1..]);
  }

  lemma {:induction false} ShortPairsText(n: nat)
    ensures |DataText(ShortPairs(n))| >= 12 * n
  {
    hide DataEntry;
    if n > 0 {
      assert ShortPairs(n)[1..] == ShortPairs(n - 1);
      ShortEntry();
      ShortPairsText(n - 1);
    }
  }

  lemma {:induction false} ShortPairsQuery(n: nat)
    requires n > 0
    ensures |Render(ShortPairs(n))| == 4 * n - 1
  {
    if n > 1 {
      assert ShortPairs(n)[1..] == ShortPairs(n - 1);
      ShortPairsQuery(n - 1);
    }
  }

  lemma {:induction false} ShortPairsReversed(n: nat)
    ensures Reversed(ShortPairs(n)) == ShortPairs(n)
  {
    if n > 0 {
      assert ShortPairs(n)[1..] == ShortPairs(n - 1);
      ShortPairsReversed(n - 1);
      assert ShortPairs(n - 1) + [Param("a", "b")] == ShortPairs(n);
    }
  }

  /** DIAL data that the server accepts can be too long for the array. */
  lemma TooLongIsAccepted() returns (q: string)
    ensures |q| <= DIAL_DATA_MAX_PAYLOAD && |DataText(Parsed(Some(q)))| >= DIAL_DATA_SIZE
  {
    hide Render, DataText, ShortPairs;
    var ps := ShortPairs(1024);
    q := Render(ps);
    ShortPairsQuery(1024);
    assert AllPlain(ps) && ps != [] && ps[0].key[0] != '?' by { ShortPairsPlain(1024); }
    ParsesRendered(ps, false);
    ShortPairsReversed(1024);
    ShortPairsText(1024);
  }

  lemma ShortPairsPlain(n: nat)
    requires n > 0
    ensures var ps := ShortPairs(n); AllPlain(ps) && ps != [] && ps[0] == Param("a", "b")
  {
  }
}
