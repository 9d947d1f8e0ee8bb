/**
 Cross-origin checks (host_matches, origin_matches and is_uri_in_list in
 server/dial_server.c): the comparisons as the code makes them, and what they accept.
 */
module Origins {
  import opened Wrappers
  import opened CStrings

  const HTTPS_PROTO := "https://"

  // -------------------------------------------------------------- host_matches

  // How much of each host is compared, after the rules for port numbers.
  function ComparedLengths(originHost: string, host: string): (r: (nat, nat))
    ensures r.0 <= |originHost| && r.1 <= |host|
  {
    match Last(host, ':')
    case Some(colon) =>
      if |host| - colon == 4 && ":443" <= host[colon..] && Last(originHost, ':').None?
      then (|originHost|, colon)
      else (|originHost|, |host|)
    case None =>
      match Last(originHost, ':')
      case Some(colon) => (colon, |host|)
      case None => (|originHost|, |host|)
  }

  // The comparison of the first originLen and hostLen characters.
  predicate SameHost(originHost: string, host: string, originLen: nat, hostLen: nat)
    requires originLen <= |originHost| && hostLen <= |host|
  {
    if originLen == 0 || hostLen == 0 then false
    else if hostLen > 2 && "*." <= host then
      if originLen < hostLen then false
      else
        match First(originHost, '.')
        case None => false
        case Some(dot) =>
          // a length that underflows is never the other one
          originLen - dot == hostLen - 1 && originHost[dot..originLen] == host[1..hostLen]
    else
      originLen == hostLen && originHost[..originLen] == host[..hostLen]
  }

  // host_matches on two strings.
  predicate HostMatches(origin: string, candidate: string) {
    if !(HTTPS_PROTO <= origin) || !(HTTPS_PROTO <= candidate) then false
    else
      var originHost, host := origin[|HTTPS_PROTO|..], candidate[|HTTPS_PROTO|..];
      var (originLen, hostLen) := ComparedLengths(originHost, host);
      SameHost(originHost, host, originLen, hostLen)
  }

  // The port rules, said once more: port 443 of a candidate counts as no port when the
  // origin has none, and the origin's port counts only when the candidate has one.
  ghost predicate Compared(originHost: string, host: string, o: string, h: string) {
    if ':' in host then
      o == originHost &&
      (if ':' !in originHost && |host| >= 4 && host[|host| - 4..] == ":443" then h == host[..|host| - 4] else h == host)
    else
      h == host && o == (if ':' in originHost then originHost[..Last(originHost, ':').value] else originHost)
  }

  // o is one label, without dots and not empty, followed by h without its star.
  ghost predicate OneLabelThen(o: string, h: string)
    requires h != ""
  {
    exists sub: string :: sub != "" && '.' !in sub && o == sub + h[1..]
  }

  // What host_matches accepts.
  ghost predicate HostAllowed(origin: string, candidate: string) {
    && HTTPS_PROTO <= origin && HTTPS_PROTO <= candidate
    && exists o: string, h: string ::
         Compared(origin[|HTTPS_PROTO|..], candidate[|HTTPS_PROTO|..], o, h) && SameOrSub(o, h)
  }

  lemma PortRules(originHost: string, host: string)
    ensures var (n, m) := ComparedLengths(originHost, host);
      n <= |originHost| && m <= |host| && Compared(originHost, host, originHost[..n], host[..m])
  {
    if ':' in host {
      var colon := Last(host, ':').value;
      if |host| >= 4 && host[|host| - 4..] == ":443" {
        LastColonIs(host);
      }
      if |host| - colon == 4 {
        assert host[colon..] == host[|host| - 4..];
      }
    }
    assert originHost[..|originHost|] == originHost && host[..|host|] == host;
  }

  lemma LastColonIs(host: string)
    requires |host| >= 4 && host[|host| - 4..] == ":443"
    ensures Last(host, ':') == Some(|host| - 4)
  {
    var n := |host| - 4;
    var tail := host[n..];
    assert host[n] == tail[0] && host[n + 1] == tail[1] && host[n + 2] == tail[2] && host[n + 3] == tail[3];
  }

  lemma ComparedIsUnique(originHost: string, host: string, o: string, h: string, p: string, k: string)
    requires Compared(originHost, host, o, h) && Compared(originHost, host, p, k)
    ensures o == p && h == k
  {
  }

  // What the wildcard branch tests, on the hosts o and h that are compared; t is o with its port.
  ghost predicate DotAndRest(t: string, o: string, h: string)
    requires o <= t && h != ""
  {
    match First(t, '.')
    case None => false
    case Some(dot) => |o| >= |h| && |o| - dot == |h| - 1 && t[dot..|o|] == h[1..]
  }

  lemma WildcardBranch(t: string, o: string, h: string)
    requires o <= t && |h| > 2 && "*." <= h
    ensures DotAndRest(t, o, h) <==> OneLabelThen(o, h)
  {
    hide OneLabelThen, DotAndRest;
    if OneLabelThen(o, h) {
      LabelHasDot(t, o, h);
    }
    if DotAndRest(t, o, h) {
      DotEndsLabel(t, o, h);
    }
  }

  lemma LabelHasDot(t: string, o: string, h: string)
    requires o <= t && |h| > 2 && h[1] == '.' && OneLabelThen(o, h)
    ensures DotAndRest(t, o, h)
  {
    var sub :| sub != "" && '.' !in sub && o == sub + h[1..];
    FirstDot(t, sub, h[1..]);
    assert t[..|o|] == o && t[|sub|..|o|] == o[|sub|..] == h[1..];
  }

  lemma DotEndsLabel(t: string, o: string, h: string)
    requires o <= t && |h| > 2 && DotAndRest(t, o, h)
    ensures OneLabelThen(o, h)
  {
    var dot := First(t, '.').value;
    assert o == t[..dot] + t[dot..|o|];
    assert t[..dot] != "" && '.' !in t[..dot];
  }

  lemma FirstDot(t: string, sub: string, rest: string)
    requires sub + rest <= t && '.' !in sub && rest != "" && rest[0] == '.'
    ensures First(t, '.') == Some(|sub|)
  {
    assert t[|sub|] == rest[0];
    assert forall k :: 0 <= k < |sub| ==> t[k] == sub[k];
  }

  // Hosts that are compared: o the origin's, h the candidate's.
  ghost predicate SameOrSub(o: string, h: string) {
    o != "" && h != "" && if |h| > 2 && "*." <= h then OneLabelThen(o, h) else o == h
  }

  lemma SameHostIs(t: string, host: string, n: nat, m: nat)
    requires n <= |t| && m <= |host|
    ensures SameHost(t, host, n, m) <==> SameOrSub(t[..n], host[..m])
  {
    hide OneLabelThen;
    var o, h := t[..n], host[..m];
    if m > 2 {
      assert "*." <= host <==> "*." <= h;
      assert h[1..] == host[1..m];
      if "*." <= h {
        WildcardBranch(t, o, h);
      }
    }
  }

  /** host_matches accepts exactly the origins whose host is the candidate's, where one star
      at the candidate's start stands for exactly one non-empty label without dots. */
  lemma HostMatchesIsAllowed(origin: string, candidate: string)
    ensures HostMatches(origin, candidate) <==> HostAllowed(origin, candidate)
  {
    hide ComparedLengths, Compared, SameOrSub, SameHost;
    if HTTPS_PROTO <= origin && HTTPS_PROTO <= candidate {
      var t, host := origin[|HTTPS_PROTO|..], candidate[|HTTPS_PROTO|..];
      PortRules(t, host);
      var (n, m) := ComparedLengths(t, host);
      SameHostIs(t, host, n, m);
      forall p: string, k: string | Compared(t, host, p, k)
        ensures p == t[..n] && k == host[..m]
      {
        ComparedIsUnique(t, host, t[..n], host[..m], p, k);
      }
    }
  }

  /** So a star stands for one label only: a second level below the domain is refused. */
  lemma NoSecondLevel(domain: string, a: string, b: string)
    requires domain != "" && ':' !in domain && ':' !in a && ':' !in b && '.' !in a && a != ""
    ensures !HostMatches(HTTPS_PROTO + (a + ("." + (b + ("." + domain)))), HTTPS_PROTO + ("*." + domain))
  {
    var t, host := a + ("." + (b + ("." + domain))), "*." + domain;
    assert (HTTPS_PROTO + t)[|HTTPS_PROTO|..] == t && (HTTPS_PROTO + host)[|HTTPS_PROTO|..] == host;
    assert Last(host, ':') == None && Last(t, ':') == None;
    FirstDot(t, a, "." + (b + ("." + domain)));
  }

  // ------------------------------------------------------------ origin_matches

  predicate OriginMatches(origin: string, candidate: string) {
    if |candidate| > 1 && candidate[|candidate| - 1] == '*' then
      |origin| >= |candidate| && origin[..|candidate| - 1] == candidate[..|candidate| - 1]
    else
      |origin| == |candidate| && origin[..|origin|] == candidate
  }

  // s is pre followed by at least one character.
  ghost predicate GoesOn(s: string, pre: string) {
    exists more: string :: more != "" && s == pre + more
  }

  /** origin_matches: equality, or the candidate's text before its final star and at least
      one character more. */
  lemma OriginMatchesIsAllowed(origin: string, candidate: string)
    ensures OriginMatches(origin, candidate) <==>
      if |candidate| > 1 && candidate[|candidate| - 1] == '*'
      then GoesOn(origin, candidate[..|candidate| - 1])
      else origin == candidate
  {
    assert origin[..|origin|] == origin;
    if |candidate| > 1 && |origin| >= |candidate| {
      assert origin == origin[..|candidate| - 1] + origin[|candidate| - 1..];
    }
  }

  // --------------------------------------------------------------- is_uri_in_list

  function IsBlank(): char -> bool { c => c == ' ' }

  // The candidates of a list: the texts between its spaces, empty ones included.
  function Split(list: string): seq<string>
    decreases |list|
  {
    var e := Span(list, 0, IsBlank());
    if e == |list| then [list] else [list[..e]] + Split(list[e + 1..])
  }

  // c is a candidate of the list: it has no space, and nothing or a space on each side.
  ghost predicate IsCandidate(list: string, c: string, at: nat) {
    && at + |c| <= |list| && list[at..at + |c|] == c && ' ' !in c
    && (at == 0 || list[at - 1] == ' ')
    && (at + |c| == |list| || list[at + |c|] == ' ')
  }

  lemma LaterCandidate(list: string, n: nat, c: string, at: nat)
    requires n < |list| && list[n] == ' ' && IsCandidate(list[n + 1..], c, at)
    ensures IsCandidate(list, c, n + 1 + at)
  {
    var rest, b := list[n + 1..], n + 1 + at;
    assert list[b..b + |c|] == rest[at..at + |c|];
  }

  lemma {:induction false} SplitGivesCandidates(list: string, c: string)
    requires c in Split(list)
    ensures exists at: nat :: IsCandidate(list, c, at)
    decreases |list|
  {
    var e := Span(list, 0, IsBlank());
    SpanStops(list, 0, IsBlank());
    if c == list[..e] {
      assert list[0..e] == list[..e];
      assert IsCandidate(list, c, 0);
    } else {
      hide IsCandidate;
      SplitGivesCandidates(list[e + 1..], c);
      var at: nat :| IsCandidate(list[e + 1..], c, at);
      LaterCandidate(list, e, c, at);
    }
  }

  lemma {:induction false} CandidatesAreSplit(list: string, c: string, at: nat)
    requires IsCandidate(list, c, at)
    ensures c in Split(list)
    decreases |list|
  {
    var e := Span(list, 0, IsBlank());
    SpanStops(list, 0, IsBlank());
    if at == 0 {
      assert list[0..|c|] == list[..|c|] == c;
      assert forall k :: 0 <= k < |c| ==> list[k] == c[k];
      SpanIs(list, 0, IsBlank(), |c|);
      assert e == |list| ==> list[..e] == list;
    } else {
      assert e < at by { SpanAtMost(list, 0, IsBlank(), at - 1); }
      var rest := list[e + 1..];
      var b := at - (e + 1);
      assert rest[b..b + |c|] == c;
      assert IsCandidate(rest, c, b);
      CandidatesAreSplit(rest, c, b);
    }
  }

  /** The candidates of a list are exactly its maximal runs of characters between spaces. */
  lemma SplitIsCandidates(list: string, c: string)
    ensures c in Split(list) <==> exists at: nat :: IsCandidate(list, c, at)
  {
    if c in Split(list) {
      SplitGivesCandidates(list, c);
    }
    forall at: nat | IsCandidate(list, c, at)
      ensures c in Split(list)
    {
      CandidatesAreSplit(list, c, at);
    }
  }

  // The comparison that the origin calls for.
  predicate Matches(origin: string, candidate: string) {
    if HTTPS_PROTO <= origin then HostMatches(origin, candidate) else OriginMatches(origin, candidate)
  }

  ghost predicate SomeMatches(origin: string, candidates: seq<string>) {
    exists c :: c in candidates && Matches(origin, c)
  }

  lemma SomeMatchesFirst(origin: string, c: string, rest: seq<string>)
    ensures SomeMatches(origin, [c] + rest) <==> Matches(origin, c) || SomeMatches(origin, rest)
  {
    hide Matches;
    var all := [c] + rest;
    assert c in all && forall d :: d in rest ==> d in all;
  }

  lemma SplitStep(origin: string, list: string)
    ensures var e := Span(list, 0, IsBlank());
      SomeMatches(origin, Split(list)) <==>
        Matches(origin, list[..e]) || (e < |list| && SomeMatches(origin, Split(list[e + 1..])))
  {
    hide Matches, SomeMatches;
    var e := Span(list, 0, IsBlank());
    if e == |list| {
      assert list[..e] == list;
      assert Split(list) == [list] + [];
      SomeMatchesFirst(origin, list, []);
      NoneMatches(origin);
    } else {
      SomeMatchesFirst(origin, list[..e], Split(list[e + 1..]));
    }
  }

  lemma NoneMatches(origin: string)
    ensures !SomeMatches(origin, [])
  {
  }

  // memcpy to the start of the scratch buffer, and a NUL.
  method CopyCandidate(candidate: array<char>, text: string)
    requires |text| < candidate.Length && NoNul(text)
    modifies candidate
    ensures HoldsAt(candidate[..], 0, text)
  {
    forall i | 0 <= i < |text| {
      candidate[i] := text[i];
    }
    candidate[|text|] := NUL;
    assert candidate[..][0..|text|] == text;
  }

  // The comparison with the candidate in the scratch buffer.
  method MatchesBuffer(origin: string, candidate: array<char>, ghost text: string) returns (r: bool)
    requires HoldsAt(candidate[..], 0, text)
    ensures r == Matches(origin, text)
  {
    HoldsIsCStr(candidate[..], 0, text);
    var isHttps := HTTPS_PROTO <= origin;
    var c := CStr(candidate[..], 0);
    r := (isHttps && HostMatches(origin, c)) || (!isHttps && OriginMatches(origin, c));
  }

  /** is_uri_in_list: true exactly when some candidate of the list matches, however long
      the candidates are. */
  method IsUriInList(origin: Option<string>, list: Option<string>) returns (found: bool)
    requires list.Some? ==> NoNul(list.value)
    ensures found <==> origin.Some? && list.Some? && SomeMatches(origin.value, Split(list.value))
  {
    hide Matches, Split, SomeMatches, HoldsAt;
    if origin.None? || list.None? {
      return false;
    }
    var o, text := origin.value, list.value;
    var substringSize := 257;
    var candidate := new char[substringSize];
    var scan := 0;
    var copyLength := Span(text, 0, IsBlank());
    assert text[0..] == text;
    while scan + copyLength < |text|
      invariant scan <= |text| && copyLength == Span(text[scan..], 0, IsBlank())
      invariant candidate.Length == substringSize && fresh(candidate)
      invariant SomeMatches(o, Split(text)) <==> SomeMatches(o, Split(text[scan..]))
      decreases |text| - scan
    {
      if copyLength >= substringSize {
        substringSize := copyLength + 1;
        candidate := new char[substringSize];
      }
      SplitStep(o, text[scan..]);
      assert text[scan..][..copyLength] == text[scan..scan + copyLength];
      CopyCandidate(candidate, text[scan..scan + copyLength]);
      var matched := MatchesBuffer(o, candidate, text[scan..scan + copyLength]);
      if matched {
        return true;
      }
      assert text[scan..][copyLength + 1..] == text[scan + copyLength + 1..];
      scan := scan + copyLength + 1;
      copyLength := Span(text[scan..], 0, IsBlank());
    }
    SplitStep(o, text[scan..]);
    assert text[scan..][..copyLength] == text[scan..];
    found := if HTTPS_PROTO <= o then HostMatches(o, text[scan..]) else OriginMatches(o, text[scan..]);
    assert found == Matches(o, text[scan..]) by { MatchesIs(o, text[scan..]); }
  }

  lemma MatchesIs(origin: string, candidate: string)
    ensures Matches(origin, candidate)
         == if HTTPS_PROTO <= origin then HostMatches(origin, candidate) else OriginMatches(origin, candidate)
  {
  }
}
