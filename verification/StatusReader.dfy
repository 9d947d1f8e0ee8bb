/**
 What a client reads from the reply to a status request (handle_app_status in
 server/dial_server.c): a reader that looks for tags only, and knows nothing of how the reply
 is put together.
 */
module StatusReader {
  import opened Wrappers
  import opened CStrings
  import opened Connection
  import opened DialApps
  import opened DialData
  import opened StatusReply
  import Registry
  import XmlEscape

  // --------------------------------------------------------------- the reader

  // The text between the first `open` and the next `close`.
  function Between(s: string, open: string, close: string): Option<string> {
    match IndexOf(s, open)
    case None => None
    case Some(i) =>
      IndexOfFinds(s, open);
      var rest := s[i + |open|..];
      match IndexOf(rest, close)
      case None => None
      case Some(j) =>
        IndexOfFinds(rest, close);
        Some(rest[..j])
  }

  function NameRead(body: string): Option<string> { Between(body, "<name>", "</name>") }

  function StopRead(body: string): Option<string> { Between(body, "<options allowStop=\"", "\"") }

  function StateRead(body: string): Option<string> { Between(body, "<state>", "</state>") }

  const DATA_OPEN := "<additionalData>\n"
  const DATA_CLOSE := "\n  </additionalData>\n</service>\r\n"

  // There is a link before the additional data.
  ghost predicate LinkRead(body: string) {
    match IndexOf(body, DATA_OPEN)
    case None => false
    case Some(n) => n <= |body| && IndexOf(body[..n], "<link").Some?
  }

  // One element and the text behind it.
  function ElementRead(t: string): Option<((string, string), string)> {
    if !("    <" <= t) then None else
      match First(t[5..], '>')
      case None => None
      case Some(k) =>
        var key, rest := t[5..5 + k], t[6 + k..];
        match First(rest, '<')
        case None => None
        case Some(v) =>
          var end := "</" + (key + ">");
          if end <= rest[v..] then Some(((key, rest[..v]), rest[v + |end|..])) else None
  }

  function ElementsRead(t: string): seq<(string, string)>
    decreases |t|
  {
    match ElementRead(t)
    case None => []
    case Some((e, rest)) => if |rest| < |t| then [e] + ElementsRead(rest) else []
  }

  // The elements between the additionalData tags.
  function DataRead(body: string): seq<(string, string)> {
    match IndexOf(body, DATA_OPEN)
    case None => []
    case Some(n) =>
      if n + |DATA_OPEN| + |DATA_CLOSE| <= |body| && body[|body| - |DATA_CLOSE|..] == DATA_CLOSE
      then ElementsRead(body[n + |DATA_OPEN|..|body| - |DATA_CLOSE|]) else []
  }

  // --------------------------------------------------------------- first tags

  // No tag of s starts with these two characters, nor does one go on behind its end.
  ghost predicate NoTag(s: string, a: char, b: char) {
    forall j :: 0 <= j < |s| && s[j] == '<' ==> j + 2 < |s| && !(s[j + 1] == a && s[j + 2] == b)
  }

  lemma NoTagConcat(s: string, t: string, a: char, b: char)
    requires NoTag(s, a, b) && NoTag(t, a, b)
    ensures NoTag(s + t, a, b)
  {
    var u := s + t;
    forall j | 0 <= j < |u| && u[j] == '<'
      ensures j + 2 < |u| && !(u[j + 1] == a && u[j + 2] == b)
    {
      if j < |s| {
        assert s[j] == '<' && u[j + 1] == s[j + 1] && u[j + 2] == s[j + 2];
      } else {
        assert t[j - |s|] == '<';
      }
    }
  }

  lemma NoTagAtAll(s: string, a: char, b: char)
    requires '<' !in s
    ensures NoTag(s, a, b)
  {
  }

  lemma OpenAt(s: string, open: string, k: nat)
    requires k <= |s| && |open| > 2 && open <= s[k..]
    ensures k + 2 < |s| && s[k] == open[0] && s[k + 1] == open[1] && s[k + 2] == open[2]
  {
    var t := s[k..];
    assert t[0] == s[k] && t[1] == s[k + 1] && t[2] == s[k + 2];
  }

  lemma TagFirst(p: string, open: string, rest: string)
    requires |open| > 2 && open[0] == '<' && NoTag(p, open[1], open[2])
    ensures IndexOf(p + (open + rest), open) == Some(|p|)
  {
    var s := p + (open + rest);
    assert s[|p|..] == open + rest;
    forall k | 0 <= k < |p|
      ensures !(open <= s[k..])
    {
      if open <= s[k..] {
        OpenAt(s, open, k);
        assert false;
      }
    }
    IndexOfIs(s, open, |p|);
  }

  lemma NoTagNoOpen(p: string, open: string)
    requires |open| > 2 && open[0] == '<' && NoTag(p, open[1], open[2])
    ensures IndexOf(p, open) == None
  {
    hide IndexOf;
    IndexOfFinds(p, open);
    if IndexOf(p, open).Some? {
      OpenAt(p, open, IndexOf(p, open).value);
      assert false;
    }
  }

  lemma TagRead(p: string, open: string, x: string, close: string, rest: string)
    requires |open| > 2 && open[0] == '<' && NoTag(p, open[1], open[2]) && close != "" && close[0] !in x
    ensures Between(p + (open + (x + (close + rest))), open, close) == Some(x)
  {
    hide IndexOf, NoTag;
    var s, t := p + (open + (x + (close + rest))), x + (close + rest);
    TagFirst(p, open, t);
    assert s[|p| + |open|..] == t;
    assert t[|x|..] == close + rest;
    forall k | 0 <= k < |x|
      ensures !(close <= t[k..])
    {
      assert t[k..][0] == x[k];
    }
    IndexOfIs(t, close, |x|);
    assert t[..|x|] == x;
  }

  // --------------------------------------------------------------- the parts of the reply

  function BeforeName(): string {
    "<?xml version=\"1.0\" " + ("encoding=\"UTF-8\"?>\r\n"
    + ("<service xmlns=\"urn:dial-" + ("multiscreen-org:schemas:dial\" " + "dialVer=\"2.2\">\r\n  ")))
  }

  lemma StartIsName()
    ensures ReplyStart() == BeforeName() + "<name>"
  {
    var a, b := "<?xml version=\"1.0\" ", "encoding=\"UTF-8\"?>\r\n";
    var c, d := "<service xmlns=\"urn:dial-", "multiscreen-org:schemas:dial\" ";
    assert "dialVer=\"2.2\">\r\n" + "  <name>" == "dialVer=\"2.2\">\r\n  " + "<name>";
    var e := "dialVer=\"2.2\">\r\n  ";
    assert d + (e + "<name>") == (d + e) + "<name>";
    assert c + ((d + e) + "<name>") == (c + (d + e)) + "<name>";
    assert b + ((c + (d + e)) + "<name>") == (b + (c + (d + e))) + "<name>";
  }

  // What stands before the state, from the name on.
  function BeforeState(name: string, canStop: bool): string {
    name + ("</name>\r\n  " + ("<options allowStop=\"" + (AllowStopText(canStop) + "\"/>\r\n  ")))
  }

  // The body up to the end of the state.
  function UpToState(name: string, canStop: bool, s: Status): string {
    (ReplyStart() + BeforeState(name, canStop)) + ("<state>" + (StateText(s) + "</state>"))
  }

  function BehindState(s: Status, data: string): string {
    "\r\n" + (LinkText(s) + ReplyEnd(data))
  }

  lemma MiddleIs(name: string, canStop: bool, s: Status)
    ensures name + ReplyMiddle(canStop, s)
      == BeforeState(name, canStop) + ("<state>" + (StateText(s) + ("</state>" + "\r\n")))
  {
    var a, st := AllowStopText(canStop), StateText(s);
    assert "</name>\r\n  <options allowStop=\"" == "</name>\r\n  " + "<options allowStop=\"";
    assert "\"/>\r\n  <state>" == "\"/>\r\n  " + "<state>";
    assert "</state>\r\n" == "</state>" + "\r\n";
    hide AllowStopText, StateText;
    Regroup6(name, "</name>\r\n  ", "<options allowStop=\"", a, "\"/>\r\n  ", "<state>" + (st + ("</state>" + "\r\n")));
    assert ("\"/>\r\n  " + "<state>") + (st + ("</state>" + "\r\n"))
      == "\"/>\r\n  " + ("<state>" + (st + ("</state>" + "\r\n")));
  }

  lemma Regroup6(n: string, b: string, c: string, d: string, e: string, f: string)
    ensures n + ((b + c) + (d + (e + f))) == (n + (b + (c + (d + e)))) + f
  {
    assert (b + c) + (d + (e + f)) == (b + (c + (d + e))) + f;
  }

  lemma BodyIs(name: string, canStop: bool, s: Status, data: string)
    ensures StatusBody(name, canStop, s, data) == UpToState(name, canStop, s) + BehindState(s, data)
  {
    hide ReplyStart, ReplyMiddle, ReplyEnd, LinkText, StateText, BeforeState;
    MiddleIs(name, canStop, s);
    var a, b, st, l := ReplyStart(), BeforeState(name, canStop), StateText(s), LinkText(s) + ReplyEnd(data);
    assert name + (ReplyMiddle(canStop, s) + l) == (name + ReplyMiddle(canStop, s)) + l;
    assert (b + ("<state>" + (st + ("</state>" + "\r\n")))) + l == b + (("<state>" + (st + "</state>")) + ("\r\n" + l));
    assert a + (b + (("<state>" + (st + "</state>")) + ("\r\n" + l)))
      == ((a + b) + ("<state>" + (st + "</state>"))) + ("\r\n" + l);
  }

  lemma StartTags(a: char, b: char)
    requires (a == 's' && b == 't') || (a == 'n' && b == 'a') || (a == 'o' && b == 'p') || (a == 'a' && b == 'd')
          || (a == 'l' && b == 'i')
    ensures NoTag(BeforeName(), a, b)
    ensures !(a == 'n' && b == 'a') ==> NoTag(ReplyStart(), a, b)
  {
    hide NoTag;
    var x, y, z := "<?xml version=\"1.0\" ", "<service xmlns=\"urn:dial-", "dialVer=\"2.2\">\r\n  ";
    assert NoTag(x, a, b) && NoTag(y, a, b) by { StartPieceTags(a, b); }
    NoTagAtAll(z, a, b);
    NoTagAtAll("multiscreen-org:schemas:dial\" ", a, b);
    NoTagAtAll("encoding=\"UTF-8\"?>\r\n", a, b);
    NoTagConcat("multiscreen-org:schemas:dial\" ", z, a, b);
    NoTagConcat(y, "multiscreen-org:schemas:dial\" " + z, a, b);
    NoTagConcat("encoding=\"UTF-8\"?>\r\n", y + ("multiscreen-org:schemas:dial\" " + z), a, b);
    NoTagConcat(x, "encoding=\"UTF-8\"?>\r\n" + (y + ("multiscreen-org:schemas:dial\" " + z)), a, b);
    if !(a == 'n' && b == 'a') {
      StartIsName();
      assert NoTag("<name>", a, b) by { NameTag(a, b); }
      NoTagConcat(BeforeName(), "<name>", a, b);
    }
  }

  lemma StartPieceTags(a: char, b: char)
    requires !(a == '?' && b == 'x') && !(a == 's' && b == 'e')
    ensures NoTag("<?xml version=\"1.0\" ", a, b) && NoTag("<service xmlns=\"urn:dial-", a, b)
  {
  }

  lemma NameTag(a: char, b: char)
    requires !(a == 'n' && b == 'a')
    ensures NoTag("<name>", a, b)
  {
  }

  lemma MiddleTags(name: string, canStop: bool, a: char, b: char)
    requires '<' !in name && a != '/' && !(a == 'o' && b == 'p')
    ensures NoTag(BeforeState(name, canStop), a, b)
  {
    hide NoTag;
    assert NoTag("</name>\r\n  ", a, b) && NoTag("<options allowStop=\"", a, b) by { MiddlePieceTags(a, b); }
    assert '<' !in AllowStopText(canStop);
    NoTagAtAll(name, a, b);
    NoTagAtAll(AllowStopText(canStop), a, b);
    NoTagAtAll("\"/>\r\n  ", a, b);
    var x := AllowStopText(canStop) + "\"/>\r\n  ";
    NoTagConcat(AllowStopText(canStop), "\"/>\r\n  ", a, b);
    NoTagConcat("<options allowStop=\"", x, a, b);
    NoTagConcat("</name>\r\n  ", "<options allowStop=\"" + x, a, b);
    NoTagConcat(name, "</name>\r\n  " + ("<options allowStop=\"" + x), a, b);
  }

  lemma MiddlePieceTags(a: char, b: char)
    requires a != '/' && !(a == 'o' && b == 'p')
    ensures NoTag("</name>\r\n  ", a, b) && NoTag("<options allowStop=\"", a, b)
  {
  }

  // --------------------------------------------------------------- name, options and state

  lemma StateTexts(s: Status)
    ensures StateText(s) == ToldAs(s) && '<' !in StateText(s)
  {
  }

  // What the client is told of a state.
  ghost function ToldAs(s: Status): string {
    if s == Running then "running" else if s == Hide then "hidden" else "stopped"
  }

  /** From a reply that goes on in any way behind the state: the text between the state tags is
      "running", "hidden" or "stopped", exactly for the state that is shown. */
  lemma StateIsRead(name: string, canStop: bool, s: Status, rest: string)
    requires '<' !in name
    ensures StateRead(UpToState(name, canStop, s) + rest) == Some(ToldAs(s))
  {
    hide Between, NoTag, ReplyStart, BeforeState, StateText, ToldAs;
    var p := ReplyStart() + BeforeState(name, canStop);
    StartTags('s', 't');
    MiddleTags(name, canStop, 's', 't');
    NoTagConcat(ReplyStart(), BeforeState(name, canStop), 's', 't');
    StateTexts(s);
    TagRead(p, "<state>", StateText(s), "</state>", rest);
    assert UpToState(name, canStop, s) + rest == p + ("<state>" + (StateText(s) + ("</state>" + rest)));
  }

  /** So are the name and whether the application can be stopped. */
  lemma NameIsRead(name: string, canStop: bool, s: Status, rest: string)
    requires '<' !in name
    ensures NameRead(UpToState(name, canStop, s) + rest) == Some(name)
  {
    hide Between, NoTag, BeforeName, ReplyStart, StateText, AllowStopText;
    StartTags('n', 'a');
    StartIsName();
    var st := "<state>" + (StateText(s) + "</state>");
    BodyFromName(BeforeName(), name, "<options allowStop=\"", AllowStopText(canStop), st, rest);
    var more := "\r\n  " + ("<options allowStop=\"" + (AllowStopText(canStop) + ("\"/>\r\n  " + (st + rest))));
    TagRead(BeforeName(), "<name>", name, "</name>", more);
  }

  lemma OptionTags(name: string)
    requires '<' !in name
    ensures NoTag(ReplyStart() + (name + "</name>\r\n  "), 'o', 'p')
  {
    NameEndTag();
    hide NoTag, ReplyStart;
    StartTags('o', 'p');
    NoTagAtAll(name, 'o', 'p');
    NoTagConcat(name, "</name>\r\n  ", 'o', 'p');
    NoTagConcat(ReplyStart(), name + "</name>\r\n  ", 'o', 'p');
  }

  lemma OptionIsRead(name: string, canStop: bool, s: Status, rest: string)
    requires '<' !in name
    ensures StopRead(UpToState(name, canStop, s) + rest) == Some(if canStop then "true" else "false")
  {
    OptionTexts(canStop);
    hide Between, NoTag, ReplyStart, StateText, AllowStopText, BeforeName;
    StartIsName();
    var a, st := AllowStopText(canStop), "<state>" + (StateText(s) + "</state>");
    BodyFromName(BeforeName(), name, "<options allowStop=\"", a, st, rest);
    OptionTags(name);
    TagRead(ReplyStart() + (name + "</name>\r\n  "), "<options allowStop=\"", a, "\"", "/>\r\n  " + (st + rest));
  }

  lemma OptionTexts(canStop: bool)
    ensures AllowStopText(canStop) == if canStop then "true" else "false"
  {
  }

  lemma NameEndTag()
    ensures NoTag("</name>\r\n  ", 'o', 'p')
  {
  }

  lemma BodyFromName(p: string, name: string, o: string, a: string, st: string, rest: string)
    ensures var body := ((p + "<name>") + (name + ("</name>\r\n  " + (o + (a + "\"/>\r\n  "))))) + st + rest;
      && body == p + ("<name>" + (name + ("</name>" + ("\r\n  " + (o + (a + ("\"/>\r\n  " + (st + rest))))))))
      && body == ((p + "<name>") + (name + "</name>\r\n  ")) + (o + (a + ("\"" + ("/>\r\n  " + (st + rest)))))
  {
    var q := "\"/>\r\n  ";
    assert "</name>\r\n  " == "</name>" + "\r\n  " && q == "\"" + "/>\r\n  ";
    assert (o + (a + q)) + (st + rest) == o + (a + (q + (st + rest)));
  }

  // --------------------------------------------------------------- link and data

  // What stands before the additional data.
  function BeforeData(name: string, canStop: bool, s: Status): string {
    UpToState(name, canStop, s) + ("\r\n" + (LinkText(s) + "  "))
  }

  lemma BodyHasData(name: string, canStop: bool, s: Status, data: string)
    ensures StatusBody(name, canStop, s, data) == BeforeData(name, canStop, s) + (DATA_OPEN + (data + DATA_CLOSE))
  {
    hide UpToState, LinkText, StatusBody;
    BodyIs(name, canStop, s, data);
    var u, l := UpToState(name, canStop, s), LinkText(s);
    assert "  <additionalData>\n" == "  " + DATA_OPEN && "\n  </additionalData>\n</service>\r\n" == DATA_CLOSE;
    assert ReplyEnd(data) == "  " + (DATA_OPEN + (data + DATA_CLOSE));
    assert l + ("  " + (DATA_OPEN + (data + DATA_CLOSE))) == (l + "  ") + (DATA_OPEN + (data + DATA_CLOSE));
    assert "\r\n" + ((l + "  ") + (DATA_OPEN + (data + DATA_CLOSE)))
      == ("\r\n" + (l + "  ")) + (DATA_OPEN + (data + DATA_CLOSE));
  }

  lemma StateTags(name: string, canStop: bool, s: Status, a: char, b: char)
    requires '<' !in name && ((a == 'a' && b == 'd') || (a == 'l' && b == 'i'))
    ensures NoTag(UpToState(name, canStop, s), a, b)
  {
    hide NoTag, ReplyStart, BeforeState, StateText, ToldAs;
    StartTags(a, b);
    MiddleTags(name, canStop, a, b);
    NoTagConcat(ReplyStart(), BeforeState(name, canStop), a, b);
    StateTexts(s);
    NoTagAtAll(StateText(s), a, b);
    assert NoTag("<state>", a, b) && NoTag("</state>", a, b) by { StatePieceTags(a, b); }
    NoTagConcat(StateText(s), "</state>", a, b);
    NoTagConcat("<state>", StateText(s) + "</state>", a, b);
    NoTagConcat(ReplyStart() + BeforeState(name, canStop), "<state>" + (StateText(s) + "</state>"), a, b);
  }

  lemma StatePieceTags(a: char, b: char)
    requires a != 's' && a != '/'
    ensures NoTag("<state>", a, b) && NoTag("</state>", a, b)
  {
  }

  // The link behind its first characters.
  function LinkRest(): string { " rel=\"run\" " + LinkEnd() }

  function LinkEnd(): string { HREF + ("\"run\"" + "/>\r\n") }

  lemma LinkIs(s: Status)
    ensures s == Stopped ==> LinkText(s) == ""
    ensures s != Stopped ==> LinkText(s) == "  " + ("<link" + LinkRest())
  {
    if s != Stopped {
      LinkStartIs();
      LinkGroup("  ", "<link", " rel=\"run\" ", LinkEnd());
    }
  }

  lemma LinkStartIs()
    ensures LinkStart() == "  " + ("<link" + " rel=\"run\" ")
  {
  }

  lemma LinkGroup(a: string, b: string, c: string, d: string)
    ensures (a + (b + c)) + d == a + (b + (c + d))
  {
  }

  lemma LinkRestHasNoTag()
    ensures '<' !in LinkRest()
  {
    assert '<' !in " rel=\"run\" " && '<' !in HREF && '<' !in "\"run\"" && '<' !in "/>\r\n";
    assert '<' !in LinkEnd();
  }

  lemma LinkTag()
    ensures NoTag("<link", 'a', 'd')
  {
  }

  lemma LinkPieceTags(s: Status)
    ensures NoTag("\r\n" + (LinkText(s) + "  "), 'a', 'd')
    ensures s == Stopped ==> '<' !in "\r\n" + (LinkText(s) + "  ")
  {
    hide NoTag, LinkText, LinkRest;
    LinkIs(s);
    NoTagAtAll("\r\n", 'a', 'd');
    NoTagAtAll("  ", 'a', 'd');
    if s == Stopped {
      assert LinkText(s) + "  " == "  " && '<' !in "  ";
    } else {
      LinkTag();
      LinkRestHasNoTag();
      NoTagAtAll(LinkRest(), 'a', 'd');
      NoTagConcat("<link", LinkRest(), 'a', 'd');
      NoTagConcat("  ", "<link" + LinkRest(), 'a', 'd');
      NoTagConcat(LinkText(s), "  ", 'a', 'd');
    }
    NoTagConcat("\r\n", LinkText(s) + "  ", 'a', 'd');
  }

  lemma DataTags(name: string, canStop: bool, s: Status)
    requires '<' !in name
    ensures NoTag(BeforeData(name, canStop, s), 'a', 'd')
    ensures s == Stopped ==> NoTag(BeforeData(name, canStop, s), 'l', 'i')
  {
    hide NoTag, UpToState, LinkText;
    var l := "\r\n" + (LinkText(s) + "  ");
    LinkPieceTags(s);
    StateTags(name, canStop, s, 'a', 'd');
    NoTagConcat(UpToState(name, canStop, s), l, 'a', 'd');
    if s == Stopped {
      StateTags(name, canStop, s, 'l', 'i');
      NoTagAtAll(l, 'l', 'i');
      NoTagConcat(UpToState(name, canStop, s), l, 'l', 'i');
    }
  }

  /** A body that arrives whole has a link exactly when the application is not shown as stopped. */
  lemma LinkIsRead(name: string, canStop: bool, s: Status, data: string)
    requires '<' !in name
    ensures LinkRead(StatusBody(name, canStop, s, data)) <==> s != Stopped
  {
    hide NoTag, IndexOf, UpToState, LinkText, LinkRest, StatusBody;
    var p, rest := BeforeData(name, canStop, s), data + DATA_CLOSE;
    BodyHasData(name, canStop, s, data);
    DataTags(name, canStop, s);
    TagFirst(p, DATA_OPEN, rest);
    assert (p + (DATA_OPEN + rest))[..|p|] == p;
    if s == Stopped {
      NoTagNoOpen(p, "<link");
    } else {
      LinkIs(s);
      StateTags(name, canStop, s, 'l', 'i');
      var u, more := UpToState(name, canStop, s) + "\r\n  ", LinkRest() + "  ";
      NoTagAtAll("\r\n  ", 'l', 'i');
      NoTagConcat(UpToState(name, canStop, s), "\r\n  ", 'l', 'i');
      LinkGroups(UpToState(name, canStop, s), LinkRest());
      TagFirst(u, "<link", more);
    }
  }

  lemma LinkGroups(u: string, l: string)
    ensures u + ("\r\n" + (("  " + ("<link" + l)) + "  ")) == (u + "\r\n  ") + ("<link" + (l + "  "))
  {
    assert "\r\n" + "  " == "\r\n  ";
    assert "\r\n" + (("  " + ("<link" + l)) + "  ") == ("\r\n" + "  ") + ("<link" + (l + "  "));
  }

  // Keys and values as they are shown.
  function ShownPairs(data: seq<Param>): seq<(string, string)> {
    seq(|data|, i requires 0 <= i < |data| => (XmlEscape.Shown(data[i].key), XmlEscape.Shown(data[i].value)))
  }

  lemma ShownIsText(t: string)
    ensures '<' !in XmlEscape.Shown(t) && '>' !in XmlEscape.Shown(t)
  {
    hide XmlEscape.XmlEncode;
    XmlEscape.XmlEncodeIsSafe(CStr(UrlLib.Decode(t, |t|).text + [NUL], 0), 2 * |t|);
  }

  lemma ElementIsRead(key: string, value: string, rest: string)
    requires '>' !in key && '<' !in value
    ensures ElementRead("    <" + (key + (">" + (value + ("</" + (key + ">"))))) + rest) == Some(((key, value), rest))
  {
    var t := "    <" + (key + (">" + (value + ("</" + (key + ">"))))) + rest;
    var end := "</" + (key + ">");
    ElementParts(key, value, end, rest);
    FirstIs(t[5..], '>', |key|);
    FirstIs(t[6 + |key|..], '<', |value|);
  }

  lemma ElementParts(key: string, value: string, end: string, rest: string)
    requires end == "</" + (key + ">")
    ensures var t := "    <" + (key + (">" + (value + end))) + rest;
      && "    <" <= t && t[5..] == key + (">" + (value + (end + rest))) && t[5..5 + |key|] == key
      && t[6 + |key|..] == value + (end + rest)
      && (value + (end + rest))[..|value|] == value && (value + (end + rest))[|value|..] == end + rest
      && (end + rest)[|end|..] == rest && (value + (end + rest))[|value| + |end|..] == rest
  {
    var t := "    <" + (key + (">" + (value + end))) + rest;
    assert t == "    <" + (key + (">" + (value + (end + rest))));
    assert t[5..] == key + (">" + (value + (end + rest)));
    assert t == ("    <" + (key + ">")) + (value + (end + rest));
  }

  lemma FirstIs(s: string, c: char, k: nat)
    requires k < |s| && s[k] == c && forall j :: 0 <= j < k ==> s[j] != c
    ensures First(s, c) == Some(k)
  {
  }

  lemma {:induction false} ElementsAreRead(data: seq<Param>)
    ensures ElementsRead(DataText(data)) == ShownPairs(data)
  {
    hide XmlEscape.Shown, ElementRead;
    if data == [] {
      assert ElementRead("") == None by { NothingIsRead(); }
    } else {
      var key, value := XmlEscape.Shown(data[0].key), XmlEscape.Shown(data[0].value);
      ShownIsText(data[0].key);
      ShownIsText(data[0].value);
      ElementIsRead(key, value, DataText(data[1..]));
      ElementsAreRead(data[1..]);
      assert ShownPairs(data) == [(key, value)] + ShownPairs(data[1..]);
    }
  }

  lemma NothingIsRead()
    ensures ElementRead("") == None
  {
  }

  /** The elements between the additionalData tags are the key and value of each node, in the
      order of the list, when the text for them is within its buffer and the body arrives whole. */
  lemma DataIsRead(name: string, canStop: bool, s: Status, data: seq<Param>)
    requires '<' !in name && |DataText(data)| <= DIAL_DATA_SIZE
    ensures DataRead(StatusBody(name, canStop, s, Capped(DataText(data)))) == ShownPairs(data)
  {
    hide NoTag, IndexOf, StatusBody, DataText, ElementsRead, BeforeData;
    assert Capped(DataText(data)) == DataText(data) by { CappedWhole(DataText(data)); }
    var p, text := BeforeData(name, canStop, s), DataText(data);
    BodyHasData(name, canStop, s, text);
    DataTags(name, canStop, s);
    TagFirst(p, DATA_OPEN, text + DATA_CLOSE);
    var body := p + (DATA_OPEN + (text + DATA_CLOSE));
    assert body == (p + (DATA_OPEN + text)) + DATA_CLOSE;
    assert body[|p| + |DATA_OPEN|..|body| - |DATA_CLOSE|] == text;
    assert body[|body| - |DATA_CLOSE|..] == DATA_CLOSE;
    ElementsAreRead(data);
  }

  lemma CappedWhole(text: string)
    requires |text| <= DIAL_DATA_SIZE
    ensures Capped(text) == text
  {
  }

  // --------------------------------------------------------------- from the request

  // The state's text arrives whenever origin and name come from one request head.
  lemma StateArrives(name: string, canStop: bool, s: Status, data: string, origin: Option<string>)
    requires |OriginText(origin)| + |name| <= MAX_REQUEST_SIZE
    ensures UpToState(name, canStop, s)
         <= BodyReceived(Printed(StatusHead(origin) + StatusBody(name, canStop, s, data)), origin)
  {
    hide StatusHead, UpToState, StatusBody, OriginText;
    BodyIs(name, canStop, s, data);
    HeadSize(origin);
    StateSize(name, canStop, s);
    var head, u, body := StatusHead(origin), UpToState(name, canStop, s), StatusBody(name, canStop, s, data);
    var sent := Printed(head + body);
    assert sent == (head + body)[..|sent|];
    assert sent[|head|..] == body[..|sent| - |head|];
  }

  lemma StateSize(name: string, canStop: bool, s: Status)
    ensures |UpToState(name, canStop, s)| < 350 + |name|
  {
    hide ReplyStart, ReplyMiddle, LinkStart, StateText;
    StartSizes();
    MiddleSize(canStop, s);
    MiddleIs(name, canStop, s);
  }

  /** A status request: the client reads the application's name, whether it can be stopped, and
      as its state "running" exactly when status_cb says Running, "hidden" exactly when it says
      Hide and the client is not below version 2.1, and "stopped" else. */
  lemma ClientReadsState(apps: seq<App>, name: string, oldClient: bool, statusCb: Status, canStop: bool,
                         origin: Option<string>)
    requires Registry.Index(apps, name) < |apps| && '<' !in name && |OriginText(origin)| + |name| <= MAX_REQUEST_SIZE
    ensures var reply := Registry.ServeList(apps, GetStatus(name, oldClient), Results(statusCb, Stopped)).1;
      var body := BodyReceived(Registry.SentTo(apps, name, canStop, origin, reply), origin);
      && NameRead(body) == Some(name) && StopRead(body) == Some(if canStop then "true" else "false")
      && StateRead(body) == Some(if statusCb == Running then "running"
                                 else if statusCb == Hide && !oldClient then "hidden" else "stopped")
  {
    hide NameRead, StopRead, StateRead, UpToState, StatusBody, DataText, Capped, StatusHead, Printed, BodyReceived;
    var reply := Registry.ServeList(apps, GetStatus(name, oldClient), Results(statusCb, Stopped)).1;
    var s, data := reply.shown.value, Capped(DataText(apps[Registry.Index(apps, name)].dialData));
    StateArrives(name, canStop, s, data, origin);
    var body := BodyReceived(Registry.SentTo(apps, name, canStop, origin, reply), origin);
    var u := UpToState(name, canStop, s);
    assert body == u + body[|u|..];
    NameIsRead(name, canStop, s, body[|u|..]);
    OptionIsRead(name, canStop, s, body[|u|..]);
    StateIsRead(name, canStop, s, body[|u|..]);
  }

  // The whole reply fits, and so does the text for the data.
  ghost predicate ReplyFits(apps: seq<App>, name: string, canStop: bool, origin: Option<string>, s: Status)
    requires Registry.Index(apps, name) < |apps|
  {
    var text := DataText(apps[Registry.Index(apps, name)].dialData);
    |text| <= DIAL_DATA_SIZE && |StatusHead(origin)| + |StatusBody(name, canStop, s, Capped(text))| < BUFSIZ
  }

  /** And from a reply that fits, a link exactly when the state that is shown is not "stopped" for
      an application that status_cb says is stopped or that is hidden from an old client; and the
      DIAL data, key and value of each pair in the order of the list. */
  lemma ClientReadsData(apps: seq<App>, name: string, oldClient: bool, statusCb: Status, canStop: bool,
                        origin: Option<string>)
    requires Registry.Index(apps, name) < |apps| && '<' !in name
    requires ReplyFits(apps, name, canStop, origin, if oldClient && statusCb == Hide then Stopped else statusCb)
    ensures var reply := Registry.ServeList(apps, GetStatus(name, oldClient), Results(statusCb, Stopped)).1;
      var body := BodyReceived(Registry.SentTo(apps, name, canStop, origin, reply), origin);
      && (LinkRead(body) <==> statusCb != Stopped && !(oldClient && statusCb == Hide))
      && DataRead(body) == ShownPairs(apps[Registry.Index(apps, name)].dialData)
  {
    hide LinkRead, DataRead, StatusBody, DataText, Capped, StatusHead, Printed, BodyReceived;
    var reply := Registry.ServeList(apps, GetStatus(name, oldClient), Results(statusCb, Stopped)).1;
    var s, data := reply.shown.value, apps[Registry.Index(apps, name)].dialData;
    WholeReplyArrives(origin, StatusBody(name, canStop, s, Capped(DataText(data))));
    LinkIsRead(name, canStop, s, Capped(DataText(data)));
    DataIsRead(name, canStop, s, data);
  }
}
