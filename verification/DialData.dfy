/**
 DIAL data on its way from a query to a file and back: parse_params (server/url_lib.c),
 store_dial_data and retrieve_dial_data (server/dial_data.c).  A file is the sequence of
 its characters, and a DIALData list the sequence of its nodes.
 */
module DialData {
  import opened Wrappers
  import opened CStrings
  import opened Collecting
  import opened UrlLib

  const DIAL_KEY_OR_VALUE_MAX_LEN := 255

  datatype Param = Param(key: string, value: string)

  function Reversed(ps: seq<Param>): (r: seq<Param>)
    ensures |r| == |ps|
  {
    if ps == [] then [] else Reversed(ps[1..]) + [ps[0]]
  }

  lemma {:induction false} ReversedAppend(a: seq<Param>, b: seq<Param>)
    ensures Reversed(a + b) == Reversed(b) + Reversed(a)
  {
    if a == [] {
      assert a + b == b;
    } else {
      assert (a + b)[1..] == a[1..] + b;
      ReversedAppend(a[1..], b);
    }
  }

  lemma {:induction false} ReversedTwice(ps: seq<Param>)
    ensures Reversed(Reversed(ps)) == ps
  {
    if ps != [] {
      ReversedTwice(ps[1..]);
      ReversedAppend(Reversed(ps[1..]), [ps[0]]);
      assert [ps[0]][1..] == [];
      assert Reversed([ps[0]]) == [ps[0]];
    }
  }

  // -------------------------------------------------------------- parse_params

  function NotAmp(): char -> bool { c => c != '&' }
  function IsBlank(): char -> bool { c => IsSpace(c) }
  function NotBlank(): char -> bool { c => !IsSpace(c) }

  // strtok(s, "&"): the next token and the text after its separator.
  function NextToken(t: string): Option<(string, string)> {
    var b := Span(t, 0, NotAmp());
    if b == |t| then None else
      var e := Span(t, b, IsAmp());
      Some((t[b..e], if e < |t| then t[e + 1..] else ""))
  }

  lemma TokenShrinks()
    ensures Shrinks(NextToken)
  {
    forall t: string | NextToken(t).Some?
      ensures |NextToken(t).value.1| < |t|
    {
      var b := Span(t, 0, NotAmp());
      SpanStops(t, 0, NotAmp());
      SpanStops(t, b, IsAmp());
      assert Span(t, b, IsAmp()) > b;
    }
  }

  // All tokens of a query.
  ghost function Tokens(t: string): seq<string> {
    TokenShrinks();
    Unfold(NextToken, t)
  }

  // sscanf(token, "%[^=]=%s", key, value) with both conversions made.
  function Scan(token: string): Option<Param> {
    var e := Span(token, 0, IsEquals());
    if e == 0 || e == |token| then None else
      var b := Span(token, e + 1, NotBlank());
      var v := Span(token, b, IsBlank());
      if v == b then None else Some(Param(token[..e], token[b..v]))
  }

  ghost predicate AllScan(tokens: seq<string>) {
    forall i :: 0 <= i < |tokens| ==> Scan(tokens[i]).Some?
  }

  function Scanned(tokens: seq<string>): seq<Param>
    requires forall i :: 0 <= i < |tokens| ==> Scan(tokens[i]).Some?
  {
    seq(|tokens|, i requires 0 <= i < |tokens| => Scan(tokens[i]).value)
  }

  function WithoutMark(q: string): string {
    if q != "" && q[0] == '?' then q[1..] else q
  }

  // The list parse_params returns, head first.
  ghost function Parsed(query: Option<string>): seq<Param> {
    if query == None || |query.value| <= 2 then [] else
      var tokens := Tokens(WithoutMark(query.value));
      if AllScan(tokens) then Reversed(Scanned(tokens)) else []
  }

  lemma ScannedMore(found: seq<string>, token: string)
    requires AllScan(found) && Scan(token).Some?
    ensures AllScan(found + [token])
    ensures Reversed(Scanned(found + [token])) == [Scan(token).value] + Reversed(Scanned(found))
  {
    hide Scan;
    var p := Scan(token).value;
    assert Scanned(found + [token]) == Scanned(found) + [p];
    ReversedAppend(Scanned(found), [p]);
    assert [p][1..] == [] && Reversed([p]) == [p];
  }

  lemma NothingScanned()
    ensures Scanned([]) == []
  {
  }

  lemma FoundIsPrefix(t0: string, found: seq<string>, t: string)
    requires Shrinks(NextToken) && UnfoldsThen(NextToken, t0, found, t)
    ensures |found| <= |Tokens(t0)| && Tokens(t0)[..|found|] == found
  {
  }

  /** parse_params: one node per token, each prepended; a malformed token empties the list. */
  method ParseParams(queryString: Option<string>) returns (result: seq<Param>)
    ensures result == Parsed(queryString)
  {
    hide NextToken, Scan, UnfoldsThen, Scanned;
    if queryString.None? || |queryString.value| <= 2 {
      return [];
    }
    var query := WithoutMark(queryString.value);
    var t, err := query, false;
    result := [];
    ghost var found: seq<string> := [];
    TokenShrinks();
    UnfoldsFirst(NextToken, query);
    assert Scanned(found) == [] by { NothingScanned(); }
    while !err && NextToken(t).Some?
      invariant Shrinks(NextToken)
      invariant !err ==> AllScan(found) && UnfoldsThen(NextToken, query, found, t)
      invariant !err ==> result == Reversed(Scanned(found))
      invariant err ==> !AllScan(Tokens(query))
      decreases |t|, !err
    {
      var (token, rest) := NextToken(t).value;
      UnfoldsMore(NextToken, query, found, t);
      var scanned := Scan(token);
      FoundIsPrefix(query, found + [token], rest);
      if scanned.None? {
        assert Tokens(query)[..|found + [token]|][|found|] == token;
        err := true;
      } else {
        ScannedMore(found, token);
        result := [scanned.value] + result;
        found, t := found + [token], rest;
      }
    }
    if err {
      return [];
    }
    UnfoldsMore(NextToken, query, found, t);
  }

  lemma TokensStep(t: string)
    ensures match NextToken(t)
      case None => Tokens(t) == []
      case Some((w, rest)) => Tokens(t) == [w] + Tokens(rest)
  {
    hide NextToken;
    TokenShrinks();
  }

  // w is a text between '&'s, not an empty one.
  ghost predicate IsToken(t: string, w: string, at: nat) {
    && at + |w| <= |t| && t[at..at + |w|] == w && w != "" && '&' !in w
    && (at == 0 || t[at - 1] == '&')
    && (at + |w| == |t| || t[at + |w|] == '&')
  }

  lemma TokenStart(t: string, w: string, at: nat)
    ensures IsToken(t, w, at) ==> at < |t| && t[at] == w[0] && t[at] != '&'
  {
  }

  // Where strtok finds its first token.
  lemma FirstToken(t: string)
    ensures match NextToken(t)
      case None => forall w: string, at: nat :: !IsToken(t, w, at)
      case Some((w, rest)) => exists b: nat :: TokenThen(t, b, w, rest)
  {
    var b := Span(t, 0, NotAmp());
    SpanStops(t, 0, NotAmp());
    if b == |t| {
      forall w: string, at: nat
        ensures IsToken(t, w, at) ==> at < |t| && t[at] != '&'
      {
        TokenStart(t, w, at);
      }
    } else {
      SpanStops(t, b, IsAmp());
      var (w, rest) := NextToken(t).value;
      assert TokenThen(t, b, w, rest);
    }
  }

  // The first token w starts at b, and `rest` is what follows its separator.
  ghost predicate TokenThen(t: string, b: nat, w: string, rest: string) {
    && IsToken(t, w, b) && (forall k :: 0 <= k < b ==> t[k] == '&')
    && rest == (if b + |w| < |t| then t[b + |w| + 1..] else "")
  }

  // Two tokens of a text are the same one, or the later one lies behind the other's separator.
  lemma LaterToken(t: string, b: nat, w: string, rest: string, v: string, at: nat)
    requires TokenThen(t, b, w, rest) && IsToken(t, v, at)
    ensures (v == w && at == b) || (at > b + |w| && IsToken(rest, v, at - b - |w| - 1))
  {
    var e := b + |w|;
    TokenChars(t, w, b);
    TokenChars(t, v, at);
    assert at < |t| && t[at] != '&' && (at > 0 ==> t[at - 1] == '&');
    assert e < |t| ==> t[e] == '&';
    if at <= e {
      assert at == b;
      assert at + |v| < |t| ==> t[at + |v|] == '&';
      assert |v| == |w|;
    } else {
      SliceBehind(t, rest, e + 1, at, v);
    }
  }

  lemma TokenChars(t: string, w: string, at: nat)
    requires IsToken(t, w, at)
    ensures w != "" && forall k :: at <= k < at + |w| ==> t[k] == w[k - at] && t[k] != '&'
  {
    assert forall k :: at <= k < at + |w| ==> t[at..at + |w|][k - at] == t[k];
  }

  lemma SliceBehind(t: string, rest: string, c: nat, at: nat, v: string)
    requires c <= at && at + |v| <= |t| && rest == t[c..]
    ensures rest[at - c..at - c + |v|] == t[at..at + |v|]
  {
  }

  lemma TokenOfRest(t: string, b: nat, w: string, rest: string, v: string, at: nat)
    requires TokenThen(t, b, w, rest) && IsToken(rest, v, at)
    ensures IsToken(t, v, b + |w| + 1 + at)
  {
    var c := b + |w| + 1;
    assert t[c + at..c + at + |v|] == rest[at..at + |v|];
  }

  /** strtok goes through exactly the non-empty texts between the '&'s. */
  lemma {:induction false} TokensAre(t: string, w: string)
    ensures w in Tokens(t) <==> exists at: nat :: IsToken(t, w, at)
    decreases |t|
  {
    hide NextToken, IsToken, Tokens;
    TokensStep(t);
    FirstToken(t);
    if NextToken(t).Some? {
      TokenShrinks();
      var (v, rest) := NextToken(t).value;
      var b: nat :| TokenThen(t, b, v, rest);
      TokensAre(rest, w);
      forall at: nat | IsToken(t, w, at)
        ensures w == v || exists i: nat :: IsToken(rest, w, i)
      {
        LaterToken(t, b, v, rest, w, at);
      }
      forall at: nat | IsToken(rest, w, at)
        ensures exists i: nat :: IsToken(t, w, i)
      {
        TokenOfRest(t, b, v, rest, w, at);
      }
      assert IsToken(t, v, b);
    }
  }

  // No key, no '=', or nothing but blanks for a value.
  ghost predicate Malformed(token: string) {
    '=' !in token || token[0] == '=' || forall k :: First(token, '=').value < k < |token| ==> IsSpace(token[k])
  }

  lemma ScanFails(token: string)
    ensures Scan(token).None? <==> Malformed(token)
  {
    var e := Span(token, 0, IsEquals());
    SpanStops(token, 0, IsEquals());
    if e < |token| {
      SpanStops(token, e + 1, NotBlank());
      var b := Span(token, e + 1, NotBlank());
      SpanStops(token, b, IsBlank());
    }
  }

  /** What a text gives: the key is all before its first '=', and the value is the text without
      white space that follows, with white space around it left out and the rest after it. */
  lemma ScanMeans(key: string, ws: string, value: string, rest: string)
    requires key != "" && '=' !in key && WhiteSpace(ws)
    requires value != "" && forall i :: 0 <= i < |value| ==> !IsBlankCode(value[i] as int)
    requires rest == "" || IsBlankCode(rest[0] as int)
    ensures Scan(key + ("=" + (ws + (value + rest)))) == Some(Param(key, value))
  {
    var token, e := key + ("=" + (ws + (value + rest))), |key|;
    var b := e + 1 + |ws|;
    var v := b + |value|;
    assert token[..e] == key && token[e] == '=';
    SpanIs(token, 0, IsEquals(), e);
    assert token[e + 1..b] == ws && token[b..v] == value && token[v..] == rest;
    assert forall k :: e + 1 <= k < b ==> token[k] == ws[k - e - 1];
    assert forall k :: b <= k < v ==> token[k] == value[k - b];
    SpanIs(token, e + 1, NotBlank(), b);
    assert v < |token| ==> token[v] == rest[0];
    SpanIs(token, b, IsBlank(), v);
  }

  /** Nothing of a query is kept exactly when one of the texts between its '&'s is malformed
      or there is none; else there is one node per text. */
  lemma MalformedEmptiesAll(q: string)
    requires |q| > 2
    ensures var t := WithoutMark(q);
      Parsed(Some(q)) == [] <==>
        (forall w: string, at: nat :: !IsToken(t, w, at)) ||
        exists w: string, at: nat :: IsToken(t, w, at) && Malformed(w)
    ensures Parsed(Some(q)) != [] ==> |Parsed(Some(q))| == |Tokens(WithoutMark(q))|
  {
    hide Tokens, Scan, IsToken, Malformed;
    var t := WithoutMark(q);
    var tokens := Tokens(t);
    forall w: string
      ensures w in tokens <==> exists at: nat :: IsToken(t, w, at)
      ensures Scan(w).None? <==> Malformed(w)
    {
      TokensAre(t, w);
      ScanFails(w);
    }
    if tokens != [] {
      assert tokens[0] in tokens;
    }
  }

  // A query as an application writes it.
  function Pair(p: Param): string { p.key + ("=" + p.value) }

  function Render(ps: seq<Param>): string {
    if ps == [] then "" else if |ps| == 1 then Pair(ps[0]) else Pair(ps[0]) + ("&" + Render(ps[1..]))
  }

  ghost predicate Plain(p: Param) {
    && p.key != "" && '=' !in p.key && '&' !in p.key
    && p.value != "" && '&' !in p.value && forall i :: 0 <= i < |p.value| ==> !IsSpace(p.value[i])
  }

  ghost predicate AllPlain(ps: seq<Param>) {
    forall i :: 0 <= i < |ps| ==> Plain(ps[i])
  }

  lemma ScanPair(p: Param)
    requires Plain(p)
    ensures Scan(Pair(p)) == Some(p)
  {
    var t, e := Pair(p), |p.key|;
    SpanIs(t, 0, IsEquals(), e);
    SpanIs(t, e + 1, NotBlank(), e + 1);
    SpanIs(t, e + 1, IsBlank(), |t|);
    assert t[..e] == p.key && t[e + 1..|t|] == p.value;
  }

  lemma NextPair(p: Param, rest: string)
    requires Plain(p)
    ensures NextToken(Pair(p) + ("&" + rest)) == Some((Pair(p), rest))
    ensures NextToken(Pair(p)) == Some((Pair(p), ""))
  {
    var t, n := Pair(p), |Pair(p)|;
    var u := t + ("&" + rest);
    assert forall i :: 0 <= i < n ==> t[i] != '&';
    SpanIs(t, 0, NotAmp(), 0);
    SpanIs(t, 0, IsAmp(), n);
    SpanIs(u, 0, NotAmp(), 0);
    SpanIs(u, 0, IsAmp(), n);
    assert t[0..n] == t && u[0..n] == t && u[n + 1..] == rest;
  }

  function PairTexts(ps: seq<Param>): seq<string> {
    seq(|ps|, i requires 0 <= i < |ps| => Pair(ps[i]))
  }

  lemma PairTextsStep(ps: seq<Param>)
    requires ps != []
    ensures PairTexts(ps) == [Pair(ps[0])] + PairTexts(ps[1..])
  {
    hide Pair;
  }

  lemma {:induction false} TokensOfRendered(ps: seq<Param>)
    requires AllPlain(ps)
    ensures Tokens(Render(ps)) == PairTexts(ps)
  {
    hide NextToken, Plain, Pair, Tokens, PairTexts;
    EmptyHasNoToken();
    TokensStep(Render(ps));
    if ps == [] {
      assert PairTexts([]) == [] by { NoPairTexts(); }
    } else {
      PairTextsStep(ps);
      TokensOfRendered(ps[1..]);
      NextPair(ps[0], Render(ps[1..]));
    }
  }

  lemma NoPairTexts()
    ensures PairTexts([]) == []
  {
  }

  lemma EmptyHasNoToken()
    ensures NextToken("") == None
  {
  }

  lemma RenderedStart(ps: seq<Param>)
    requires ps != [] && Plain(ps[0])
    ensures |Render(ps)| >= 3 && Render(ps)[0] == ps[0].key[0]
  {
  }

  /** A query of plain pairs, with or without a question mark before it, gives one node per
      pair, the last one first; '=' may occur in values. */
  lemma ParsesRendered(ps: seq<Param>, mark: bool)
    requires ps != [] && AllPlain(ps) && (!mark ==> ps[0].key[0] != '?')
    ensures Parsed(Some(if mark then "?" + Render(ps) else Render(ps))) == Reversed(ps)
  {
    hide Plain, Scan, Render, Tokens, Pair;
    assert Plain(ps[0]);
    RenderedStart(ps);
    var q := if mark then "?" + Render(ps) else Render(ps);
    assert WithoutMark(q) == Render(ps);
    TokensOfRendered(ps);
    var tokens := Tokens(Render(ps));
    forall i | 0 <= i < |ps|
      ensures Scan(tokens[i]) == Some(ps[i])
    {
      ScanPair(ps[i]);
    }
    assert Scanned(tokens) == ps;
  }

  // ------------------------------------------------------------------ the file

  // %.255s
  function Cut(s: string): string {
    if |s| <= DIAL_KEY_OR_VALUE_MAX_LEN then s else s[..DIAL_KEY_OR_VALUE_MAX_LEN]
  }

  function CutParam(p: Param): Param { Param(Cut(p.key), Cut(p.value)) }

  function CutAll(ps: seq<Param>): seq<Param> {
    seq(|ps|, i requires 0 <= i < |ps| => CutParam(ps[i]))
  }

  function Line(p: Param): string {
    Cut(p.key) + (" " + (Cut(p.value) + "\n"))
  }

  function Stored(ps: seq<Param>): string {
    if ps == [] then "" else Line(ps[0]) + Stored(ps[1..])
  }

  lemma {:induction false} StoredSnoc(ps: seq<Param>, p: Param)
    ensures Stored(ps + [p]) == Stored(ps) + Line(p)
  {
    if ps == [] {
      assert [p][1..] == [] && ps + [p] == [p];
      assert Line(p) + "" == Line(p);
    } else {
      assert (ps + [p])[1..] == ps[1..] + [p];
      StoredSnoc(ps[1..], p);
    }
  }

  method StoreDialData(data: seq<Param>) returns (file: string)
    ensures file == Stored(data)
  {
    file := "";
    var i := 0;
    while i < |data|
      invariant i <= |data| && file == Stored(data[..i])
    {
      StoredSnoc(data[..i], data[i]);
      assert data[..i + 1] == data[..i] + [data[i]];
      file := file + Line(data[i]);
      i := i + 1;
    }
    assert data[..i] == data;
  }

  function SkipSpace(t: string): string {
    t[Span(t, 0, NotBlank())..]
  }

  // %255s: the next word of the file, at most 255 characters of it, and the text after it.
  function ReadWord(t: string): Option<(string, string)> {
    var u := SkipSpace(t);
    if u == "" then None else
      var e := Span(u, 0, IsBlank());
      var n := if e <= DIAL_KEY_OR_VALUE_MAX_LEN then e else DIAL_KEY_OR_VALUE_MAX_LEN;
      Some((u[..n], u[n..]))
  }

  lemma WordShrinks()
    ensures Shrinks(ReadWord)
    ensures forall t: string :: ReadWord(t).Some? ==> GoodWord(ReadWord(t).value.0)
  {
    forall t: string | ReadWord(t).Some?
      ensures |ReadWord(t).value.1| < |t| && GoodWord(ReadWord(t).value.0)
    {
      var u := SkipSpace(t);
      SpanStops(t, 0, NotBlank());
      assert u[0] == t[|t| - |u|];
      SpanStops(u, 0, IsBlank());
      assert Span(u, 0, IsBlank()) > 0;
    }
  }

  // A word that a file can hold: not empty, without white space, short enough.
  ghost predicate GoodWord(w: string) {
    0 < |w| <= DIAL_KEY_OR_VALUE_MAX_LEN && forall i :: 0 <= i < |w| ==> !IsSpace(w[i])
  }

  ghost predicate Good(p: Param) { GoodWord(p.key) && GoodWord(p.value) }

  ghost predicate AllGood(ps: seq<Param>) { forall i :: 0 <= i < |ps| ==> Good(ps[i]) }

  // All words of a file.
  ghost function Words(t: string): seq<string> {
    WordShrinks();
    Unfold(ReadWord, t)
  }

  // The pairs that the loop of retrieve_dial_data sees: a missing last value is the value
  // that the buffer still holds from the turn before.
  function Pairs(ws: seq<string>, stale: string): seq<Param> {
    if ws == [] then []
    else if |ws| == 1 then [Param(ws[0], stale)]
    else [Param(ws[0], ws[1])] + Pairs(ws[2..], ws[1])
  }

  // The list retrieve_dial_data returns, head first.
  ghost function Retrieved(file: string): seq<Param> {
    Reversed(Pairs(Words(file), ""))
  }

  // The loop has collected `read`, the last value is `stale`, and it goes on at t.
  ghost predicate ReadsThen(file: string, read: seq<Param>, stale: string, t: string) {
    Pairs(Words(file), "") == read + Pairs(Words(t), stale)
  }

  lemma ReadsFirst(file: string)
    ensures ReadsThen(file, [], "", file)
  {
    assert [] + Pairs(Words(file), "") == Pairs(Words(file), "");
  }

  lemma WordsStep(t: string)
    ensures match ReadWord(t)
      case None => Words(t) == []
      case Some((w, rest)) => Words(t) == [w] + Words(rest)
  {
    hide ReadWord;
    WordShrinks();
  }

  // fscanf(f, "%255s %255s\n", key, value), where `value` still holds `stale`: None for EOF,
  // else what the two buffers hold and the text after the pair.
  function ScanLine(t: string, stale: string): Option<(Param, string)> {
    match ReadWord(t)
    case None => None
    case Some((key, u)) =>
      match ReadWord(u)
      case None => Some((Param(key, stale), ""))
      case Some((value, v)) => Some((Param(key, value), SkipSpace(v)))
  }

  lemma WordsAfterSpace(t: string)
    ensures Words(SkipSpace(t)) == Words(t)
  {
    SkipTwice(t);
    assert ReadWord(SkipSpace(t)) == ReadWord(t);
    WordsStep(t);
    WordsStep(SkipSpace(t));
  }

  lemma SkipTwice(t: string)
    ensures SkipSpace(SkipSpace(t)) == SkipSpace(t)
  {
    var u := SkipSpace(t);
    SpanStops(t, 0, NotBlank());
    SpanIs(u, 0, NotBlank(), 0);
  }

  lemma LineShrinks(t: string, stale: string)
    requires ScanLine(t, stale).Some?
    ensures |ScanLine(t, stale).value.1| < |t|
  {
    hide ReadWord;
    WordShrinks();
    var u := ReadWord(t).value.1;
    if ReadWord(u).Some? {
      assert |ReadWord(u).value.1| < |u|;
    }
  }

  lemma ReadsMore(file: string, read: seq<Param>, stale: string, t: string)
    requires ReadsThen(file, read, stale, t)
    ensures match ScanLine(t, stale)
      case None => Pairs(Words(file), "") == read
      case Some((p, rest)) => ReadsThen(file, read + [p], p.value, rest)
  {
    hide ReadWord, SkipSpace, Words;
    WordsStep(t);
    WordsStep("");
    match ReadWord(t)
    case None =>
      assert read + [] == read;
    case Some((key, u)) =>
      WordsStep(u);
      match ReadWord(u)
      case None =>
        assert ReadWord("") == None by { NoWord(); }
        assert [key] + [] == [key];
        assert read + [Param(key, stale)] + [] == read + [Param(key, stale)];
      case Some((value, v)) =>
        WordsAfterSpace(v);
        var ws := [key] + ([value] + Words(v));
        assert ws[2..] == Words(v);
        assert read + ([Param(key, value)] + Pairs(Words(v), value))
           == read + [Param(key, value)] + Pairs(Words(v), value);
  }

  lemma NoWord()
    ensures ReadWord("") == None
  {
  }

  /** retrieve_dial_data: reads pairs until the end of the file, each prepended. */
  method RetrieveDialData(file: string) returns (result: seq<Param>)
    ensures result == Retrieved(file)
  {
    hide ReadsThen, ScanLine, Pairs, Words;
    var value := "";
    result := [];
    ghost var read: seq<Param> := [];
    ReadsFirst(file);
    ReadsMore(file, read, value, file);
    var t, line := file, ScanLine(file, value);
    while line.Some?
      invariant line == ScanLine(t, value) && ReadsThen(file, read, value, t)
      invariant result == Reversed(read)
      invariant line == None ==> Pairs(Words(file), "") == read
      decreases |t|
    {
      LineShrinks(t, value);
      ReadsMore(file, read, value, t);
      var p := line.value.0;
      PrependReverses(read, p);
      result := [p] + result;
      read := read + [p];
      t, value := line.value.1, p.value;
      ReadsMore(file, read, value, t);
      line := ScanLine(t, value);
    }
  }

  lemma PrependReverses(ps: seq<Param>, p: Param)
    ensures Reversed(ps + [p]) == [p] + Reversed(ps)
  {
    ReversedAppend(ps, [p]);
    assert [p][1..] == [] && Reversed([p]) == [p];
  }

  // ----------------------------------------------------------- store, then retrieve

  lemma WordAt(w: string, rest: string)
    requires GoodWord(w) && (rest == "" || IsSpace(rest[0]))
    ensures ReadWord(w + rest) == Some((w, rest))
  {
    var t := w + rest;
    SpanIs(t, 0, NotBlank(), 0);
    assert t[0..] == t;
    SpanIs(t, 0, IsBlank(), |w|);
    assert t[..|w|] == w && t[|w|..] == rest;
  }

  lemma SkipOne(c: char, t: string)
    requires IsSpace(c) && (t == "" || !IsSpace(t[0]))
    ensures SkipSpace([c] + t) == t && SkipSpace(t) == t
  {
    SpanIs([c] + t, 0, NotBlank(), 1);
    SpanIs(t, 0, NotBlank(), 0);
  }

  lemma WordsOfSpace(c: char, t: string)
    requires IsSpace(c) && (t == "" || !IsSpace(t[0]))
    ensures Words([c] + t) == Words(t)
  {
    hide SkipSpace, Words;
    SkipOne(c, t);
    WordsAfterSpace([c] + t);
  }

  lemma WordsOfWord(w: string, c: char, t: string)
    requires GoodWord(w) && IsSpace(c) && (t == "" || !IsSpace(t[0]))
    ensures Words(w + ([c] + t)) == [w] + Words(t)
  {
    hide Words, ReadWord;
    WordAt(w, [c] + t);
    WordsStep(w + ([c] + t));
    WordsOfSpace(c, t);
  }

  lemma StoredStart(ps: seq<Param>)
    requires AllGood(CutAll(ps))
    ensures Stored(ps) == "" || !IsSpace(Stored(ps)[0])
  {
    if ps != [] {
      assert Good(CutAll(ps)[0]);
      assert Stored(ps)[0] == Cut(ps[0].key)[0];
    }
  }

  lemma WordsOfLine(p: Param, rest: string)
    requires Good(CutParam(p)) && (rest == "" || !IsSpace(rest[0]))
    ensures Words(Line(p) + rest) == [Cut(p.key)] + ([Cut(p.value)] + Words(rest))
  {
    hide Words, Cut;
    var v := Cut(p.value) + (['\n'] + rest);
    assert Line(p) + rest == Cut(p.key) + ([' '] + v);
    assert v[0] == Cut(p.value)[0];
    WordsOfWord(Cut(p.key), ' ', v);
    WordsOfWord(Cut(p.value), '\n', rest);
  }

  lemma {:induction false} ReadsStored(ps: seq<Param>, stale: string)
    requires AllGood(CutAll(ps))
    ensures Pairs(Words(Stored(ps)), stale) == CutAll(ps)
  {
    hide Words, Line;
    if ps == [] {
      NoWord();
      WordsStep("");
    } else {
      var rest := Stored(ps[1..]);
      assert CutAll(ps)[1..] == CutAll(ps[1..]);
      assert AllGood(CutAll(ps[1..])) by {
        forall i | 0 <= i < |ps| - 1 ensures Good(CutAll(ps[1..])[i]) { assert Good(CutAll(ps)[i + 1]); }
      }
      assert Good(CutAll(ps)[0]);
      StoredStart(ps[1..]);
      WordsOfLine(ps[0], rest);
      ReadsStored(ps[1..], Cut(ps[0].value));
      var ws := [Cut(ps[0].key)] + ([Cut(ps[0].value)] + Words(rest));
      assert ws[2..] == Words(rest);
    }
  }

  // The one list with a missing value that comes back unchanged.
  lemma ReadsSingle(p: Param)
    requires GoodWord(Cut(p.key)) && p.value == ""
    ensures Pairs(Words(Stored([p])), "") == [CutParam(p)]
  {
    hide Words, ReadWord;
    var t := Cut(p.key) + ([' '] + ['\n']);
    assert Stored([p]) == t;
    WordAt(Cut(p.key), [' '] + ['\n']);
    WordsStep(t);
    OnlySpace();
    WordsStep([' '] + ['\n']);
  }

  lemma OnlySpace()
    ensures ReadWord([' '] + ['\n']) == None
  {
    SpanIs([' '] + ['\n'], 0, NotBlank(), 2);
  }

  lemma {:induction false} WordsAreGood(t: string)
    ensures forall i :: 0 <= i < |Words(t)| ==> GoodWord(Words(t)[i])
    decreases |t|
  {
    hide ReadWord, GoodWord;
    WordShrinks();
    WordsStep(t);
    if ReadWord(t).Some? {
      WordsAreGood(ReadWord(t).value.1);
    }
  }

  lemma {:induction false} PairsAreGood(ws: seq<string>, stale: string)
    requires forall i :: 0 <= i < |ws| ==> GoodWord(ws[i])
    requires |ws| != 1 || GoodWord(stale)
    ensures AllGood(Pairs(ws, stale))
    decreases |ws|
  {
    hide GoodWord;
    if |ws| > 1 {
      PairsAreGood(ws[2..], ws[1]);
    }
  }

  // The lists that survive being stored and read.
  ghost predicate Survives(ps: seq<Param>) {
    AllGood(CutAll(ps)) || (|ps| == 1 && GoodWord(Cut(ps[0].key)) && ps[0].value == "")
  }

  lemma OnlySurvivorsComeBack(ps: seq<Param>, ws: seq<string>)
    requires forall i :: 0 <= i < |ws| ==> GoodWord(ws[i])
    requires Pairs(ws, "") == CutAll(ps)
    ensures Survives(ps)
  {
    if |ws| == 1 {
      assert |ps| == |CutAll(ps)| == 1;
      assert CutAll(ps)[0] == CutParam(ps[0]) == Param(ws[0], "");
    } else {
      PairsAreGood(ws, "");
    }
  }

  lemma SurvivorsComeBack(ps: seq<Param>)
    requires Survives(ps)
    ensures Pairs(Words(Stored(ps)), "") == CutAll(ps)
  {
    hide Words, Stored, GoodWord, Pairs;
    if AllGood(CutAll(ps)) {
      ReadsStored(ps, "");
    } else {
      ReadsSingle(ps[0]);
      assert ps == [ps[0]] && CutAll(ps) == [CutParam(ps[0])];
    }
  }

  /** What is stored and retrieved again comes back reversed, with every key and value cut
      to 255 characters, exactly when every cut key and value is a word; or when there is
      one pair only and its value is empty. */
  lemma StoreThenRetrieve(ps: seq<Param>)
    ensures Retrieved(Stored(ps)) == Reversed(CutAll(ps)) <==> Survives(ps)
  {
    hide Words, Stored, GoodWord, Survives, Pairs, Reversed, CutAll;
    var ws := Words(Stored(ps));
    ReversedTwice(Pairs(ws, ""));
    ReversedTwice(CutAll(ps));
    WordsAreGood(Stored(ps));
    if Survives(ps) {
      SurvivorsComeBack(ps);
    }
    if Pairs(ws, "") == CutAll(ps) {
      OnlySurvivorsComeBack(ps, ws);
    }
  }

  // --------------------------------------------------------------- the pipeline

  lemma CutReversed(ps: seq<Param>)
    ensures CutAll(Reversed(ps)) == Reversed(CutAll(ps))
  {
    if ps != [] {
      CutReversed(ps[1..]);
      assert CutAll(ps)[1..] == CutAll(ps[1..]);
    }
  }

  lemma {:induction false} ReversedGood(ps: seq<Param>)
    requires AllGood(ps)
    ensures AllGood(Reversed(ps))
  {
    if ps != [] {
      assert forall i :: 0 <= i < |ps| - 1 ==> ps[1..][i] == ps[i + 1];
      ReversedGood(ps[1..]);
    }
  }

  lemma CutPlainIsGood(ps: seq<Param>)
    requires AllPlain(ps) && forall i :: 0 <= i < |ps| ==> NoBlank(ps[i].key)
    ensures AllGood(CutAll(ps))
  {
    forall i | 0 <= i < |ps|
      ensures Good(CutAll(ps)[i])
    {
      assert Plain(ps[i]) && NoBlank(ps[i].key);
    }
  }

  ghost predicate NoBlank(s: string) {
    forall i :: 0 <= i < |s| ==> !IsSpace(s[i])
  }

  /** From the query through the file to an application that registers again: it sees the
      pairs in the order in which they were submitted, cut to 255 characters. */
  lemma ReregisteredSeesSubmissionOrder(ps: seq<Param>, mark: bool)
    requires ps != [] && AllPlain(ps) && (!mark ==> ps[0].key[0] != '?')
    requires forall i :: 0 <= i < |ps| ==> NoBlank(ps[i].key)
    ensures var list := Parsed(Some(if mark then "?" + Render(ps) else Render(ps)));
      Retrieved(Stored(list)) == CutAll(ps)
  {
    hide Stored, Retrieved, Parsed, Render, Good, Plain, NoBlank;
    ParsesRendered(ps, mark);
    CutPlainIsGood(ps);
    CutReversed(ps);
    ReversedGood(CutAll(ps));
    StoreThenRetrieve(Reversed(ps));
    ReversedTwice(CutAll(ps));
  }
}
