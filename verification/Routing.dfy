/**
 From a URL to a handler and back: request_handler (server/dial_server.c), and the URLs
 that the client builds from a status reply (client/DialServer.cpp).
 */
module Routing {
  import opened Wrappers
  import opened CStrings
  import opened UriPath
  import UrlLib

  const APPS_URI := "/apps/"
  const RUN_URI := "/run"
  const HIDE_URI := "/hide"
  const DIAL_DATA_URI := "/dial_data"

  predicate EndsWith(s: string, t: string) {
    |t| <= |s| && s[|s| - |t|..] == t
  }

  // The branch of request_handler, with the application name it extracts.
  datatype Branch = RunBranch(name: string) | AppBranch(name: string) | HideBranch(name: string)
                  | DataBranch(name: string) | NoBranch

  // strncpy of the name behind "/apps/" into 256 zeroed bytes.
  function NameOf(uri: string, size: nat): string
    requires |APPS_URI| + size <= |uri|
  {
    var n := if size > 255 then 255 else size;
    uri[|APPS_URI|..|APPS_URI| + n]
  }

  function BranchOf(uri: string): Branch {
    if |uri| > |RUN_URI| + |APPS_URI| && EndsWith(uri, RUN_URI) then
      RunBranch(NameOf(uri, |uri| - |RUN_URI| - |APPS_URI|))
    else if |uri| > |APPS_URI| && APPS_URI <= uri && '/' !in uri[|APPS_URI|..] then
      AppBranch(uri[|APPS_URI|..])
    else if |uri| > |HIDE_URI| + |RUN_URI| + |APPS_URI| && EndsWith(uri, HIDE_URI) then
      HideBranch(NameOf(uri, |uri| - |RUN_URI| - |HIDE_URI| - |APPS_URI|))
    else if IndexOf(uri, DIAL_DATA_URI).Some? then
      DataBranch(UrlLib.AppNameOf(uri))
    else
      NoBranch
  }

  // What request_handler does with a request.
  datatype Action =
    | CallStart(app: string)
    | CallStatus(app: string)
    | CallStop(app: string)
    | CallHide(app: string)
    | CallData(app: string, usePayload: bool)
    | OptionsReply(methods: string)
    | ErrorReply(code: nat)

  // `allowed` is the outcome of the origin check for a name, `local` says whether the peer's
  // address is that of the local host.
  function Dispatch(uri: string, requestMethod: string, local: bool, allowed: string -> bool): Action {
    match BranchOf(uri)
    case RunBranch(n) =>
      if !allowed(n) then ErrorReply(403)
      else if requestMethod == "OPTIONS" then OptionsReply("DELETE, OPTIONS")
      else if n != "" && requestMethod == "DELETE" then CallStop(n)
      else ErrorReply(501)
    case AppBranch(n) =>
      if !allowed(n) then ErrorReply(403)
      else if requestMethod == "OPTIONS" then OptionsReply("GET, POST, OPTIONS")
      else if requestMethod == "POST" then CallStart(n)
      else if requestMethod == "GET" then CallStatus(n)
      else ErrorReply(501)
    case HideBranch(n) =>
      if !allowed(n) then ErrorReply(403)
      else if requestMethod == "OPTIONS" then OptionsReply("POST, OPTIONS")
      else if n != "" && requestMethod == "POST" then CallHide(n)
      else ErrorReply(501)
    case DataBranch(n) =>
      if !local then ErrorReply(403)
      else if !allowed(n) then ErrorReply(403)
      else if requestMethod == "OPTIONS" then OptionsReply("POST, OPTIONS")
      else CallData(n, requestMethod == "POST")
    case NoBranch => ErrorReply(404)
  }

  // ------------------------------------------------------- what survives the URL decoder

  // A name without characters that the URI rewriting or the routing treats specially.
  ghost predicate PlainName(name: string) {
    0 < |name| <= 255 && forall i :: 0 <= i < |name| ==> PlainChar(name[i])
  }

  predicate PlainChar(c: char) {
    !IsSep(c) && c != '%' && c != '?' && c != NUL
  }

  // Text that the engine neither decodes nor cuts at a query.
  ghost predicate Undecoded(s: string) {
    forall i :: 0 <= i < |s| ==> s[i] != '%' && s[i] != '?' && s[i] != NUL
  }

  // The client's URLs carry a query; the path before it is all that is routed.
  function WithQuery(path: string, query: Option<string>): string {
    if query.None? then path else path + ("?" + query.value)
  }

  lemma HandledIsCleaned(path: string, query: Option<string>)
    requires Undecoded(path)
    ensures HandledPath(WithQuery(path, query)) == Clean(path)
  {
    hide Clean;
    var uri := WithQuery(path, query);
    SpanIs(uri, 0, IsQuestionMark(), |path|);
    assert RawPath(uri) == uri[..|path|] == path;
    DecodeIsIdentity(path, false);
    SpanIs(path, 0, IsNul(), |path|);
    assert path[0..|path|] == path;
  }

  // A path with one segment in front: it stays clean exactly when the segment does not
  // start with two dots.
  lemma SegmentStaysClean(segment: string, rest: string)
    requires segment != "" && forall i :: 0 <= i < |segment| ==> !IsSep(segment[i])
    requires rest == "" || rest[0] == '/'
    requires !SepThenDots(rest) && !DoubleSep(rest)
    ensures var t := "/" + (segment + rest);
      t[0] == '/' && (!SepThenDots(t) && !DoubleSep(t) <==> !DotsAhead(segment))
  {
    hide IsSep;
    var u := segment + rest;
    assert IsSep('/') by { SlashIsSep(); }
    NoSepInFront(segment, rest);
    SepThenDotsStep('/', u);
    DoubleSepStep('/', u);
    assert u[0] == segment[0];
    assert DotsAhead(u) <==> DotsAhead(segment);
  }

  lemma SlashIsSep()
    ensures IsSep('/')
  {
  }

  lemma {:induction false} NoSepInFront(segment: string, rest: string)
    requires forall i :: 0 <= i < |segment| ==> !IsSep(segment[i])
    ensures SepThenDots(segment + rest) <==> SepThenDots(rest)
    ensures DoubleSep(segment + rest) <==> DoubleSep(rest)
  {
    hide SepThenDots, DoubleSep;
    if segment == "" {
      assert segment + rest == rest;
    } else {
      NoSepInFront(segment[1..], rest);
      assert segment + rest == [segment[0]] + (segment[1..] + rest);
      SepThenDotsStep(segment[0], segment[1..] + rest);
      DoubleSepStep(segment[0], segment[1..] + rest);
    }
  }

  // What follows the name in the four kinds of URL.
  datatype Tail = NoTail | RunTail | HideTail | DataTail

  function TailText(t: Tail): string {
    match t
    case NoTail => ""
    case RunTail => RUN_URI
    case HideTail => RUN_URI + HIDE_URI
    case DataTail => DIAL_DATA_URI
  }

  function AppPath(name: string, t: Tail): string {
    APPS_URI + (name + TailText(t))
  }

  lemma TailsUndecoded(t: Tail)
    ensures Undecoded(TailText(t))
  {
  }

  lemma OneSegment(segment: string)
    requires segment != "" && forall i :: 0 <= i < |segment| ==> !IsSep(segment[i])
    requires !DotsAhead(segment)
    ensures !SepThenDots("/" + segment) && !DoubleSep("/" + segment)
  {
    assert !SepThenDots("") && !DoubleSep("");
    hide SepThenDots, DoubleSep, DotsAhead;
    assert segment + "" == segment;
    SegmentStaysClean(segment, "");
  }

  lemma TailsAreClean(t: Tail)
    ensures var s := TailText(t);
      (s == "" || s[0] == '/') && !SepThenDots(s) && !DoubleSep(s)
  {
    match t
    case NoTail =>
    case RunTail =>
      OneSegment("run");
      assert RUN_URI == "/" + "run";
    case HideTail =>
      OneSegment("hide");
      assert HIDE_URI == "/" + "hide";
      SegmentStaysClean("run", HIDE_URI);
      assert RUN_URI + HIDE_URI == "/" + ("run" + HIDE_URI);
    case DataTail =>
      OneSegment("dial_data");
      assert DIAL_DATA_URI == "/" + "dial_data";
  }

  /** The paths of an application survive decoding and cleaning exactly when its name does
      not start with two dots. */
  lemma PathSurvives(name: string, t: Tail, query: Option<string>)
    requires PlainName(name)
    ensures HandledPath(WithQuery(AppPath(name, t), query)) == AppPath(name, t) <==> !(".." <= name)
  {
    hide SepThenDots, DoubleSep, Clean, HandledPath, TailText;
    TailsAreClean(t);
    TailsUndecoded(t);
    var path, rest := AppPath(name, t), "/" + (name + TailText(t));
    assert path == "/" + ("apps" + rest);
    assert Undecoded(path);
    HandledIsCleaned(path, query);
    CleanIsIdentity(path);
    SegmentStaysClean(name, TailText(t));
    AppsInFront(rest);
    assert DotsAhead(name) <==> ".." <= name;
  }

  lemma AppsInFront(rest: string)
    requires rest != "" && rest[0] == '/'
    ensures var t := "/" + ("apps" + rest);
      !SepThenDots(t) && !DoubleSep(t) <==> !SepThenDots(rest) && !DoubleSep(rest)
  {
    hide SepThenDots, DoubleSep;
    NoSepInFront("apps", rest);
    SepThenDotsStep('/', "apps" + rest);
    DoubleSepStep('/', "apps" + rest);
    assert ("apps" + rest)[0] == 'a';
  }

  // ------------------------------------------------------------------ what is routed

  lemma RunSuffix(pre: string, name: string, tail: string)
    ensures var s := pre + (name + tail);
      s[|pre|..] == name + tail && s[..|pre|] == pre && s[|pre|..|pre| + |name|] == name && s[|pre| + |name|..] == tail
  {
  }

  // A name of its own is never taken for a suffix: it has no slash.
  lemma NotASuffix(name: string, suffix: string)
    requires PlainName(name) && suffix != "" && suffix[0] == '/' && |name| >= |suffix|
    ensures !EndsWith(APPS_URI + name, suffix)
  {
    var s := APPS_URI + name;
    var at := |s| - |suffix|;
    assert s[at..][0] == s[at] == name[at - |APPS_URI|];
    assert PlainChar(name[at - |APPS_URI|]);
  }

  lemma AppRoutes(name: string)
    requires PlainName(name)
    ensures BranchOf(AppPath(name, NoTail)) == AppBranch(name)
  {
    var s := APPS_URI + name;
    assert AppPath(name, NoTail) == s;
    assert s[|APPS_URI|..] == name;
    NoSlash(name);
    if |name| >= |RUN_URI| {
      NotASuffix(name, RUN_URI);
    }
  }

  /** A URL that ends with /run names the application behind its first six characters,
      whatever these are. */
  lemma RunIgnoresPrefix(pre: string, name: string)
    requires |pre| == |APPS_URI| && 0 < |name| <= 255
    ensures BranchOf(pre + (name + RUN_URI)) == RunBranch(name)
  {
    var s := pre + (name + RUN_URI);
    RunSuffix(pre, name, RUN_URI);
    assert s[|s| - |RUN_URI|..] == RUN_URI;
  }

  lemma RunRoutes(name: string)
    requires PlainName(name)
    ensures BranchOf(AppPath(name, RunTail)) == RunBranch(name)
  {
    RunIgnoresPrefix(APPS_URI, name);
  }

  // A text with another last character has another suffix.
  lemma EndsDiffer(s: string, suffix: string)
    requires s != "" && suffix != "" && s[|s| - 1] != suffix[|suffix| - 1]
    ensures !EndsWith(s, suffix)
  {
    if |suffix| <= |s| {
      assert s[|s| - |suffix|..][|suffix| - 1] == s[|s| - 1];
    }
  }

  lemma EndsWithTail(pre: string, suffix: string)
    ensures EndsWith(pre + suffix, suffix)
  {
  }

  lemma NotApp(name: string, tail: string)
    requires tail != "" && tail[0] == '/'
    ensures '/' in (APPS_URI + (name + tail))[|APPS_URI|..]
  {
    assert (APPS_URI + (name + tail))[|APPS_URI|..][|name|] == '/';
  }

  lemma HidePathParts(name: string)
    ensures var s, inner := AppPath(name, HideTail), |HIDE_URI| + |RUN_URI| + |APPS_URI|;
      && s == APPS_URI + (name + (RUN_URI + HIDE_URI)) == (APPS_URI + (name + RUN_URI)) + HIDE_URI
      && s[|s| - 1] == 'e' && |s| == |name| + inner && s[|APPS_URI|..|APPS_URI| + |name|] == name
  {
  }

  lemma HideRoutes(name: string)
    requires PlainName(name)
    ensures BranchOf(AppPath(name, HideTail)) == HideBranch(name)
  {
    hide EndsWith, IndexOf, UrlLib.AppNameOf, PlainName, AppPath;
    NoSlash(name);
    HidePathParts(name);
    NotApp(name, RUN_URI + HIDE_URI);
    EndsWithTail(APPS_URI + (name + RUN_URI), HIDE_URI);
    EndsDiffer(AppPath(name, HideTail), RUN_URI);
  }

  lemma Occurs(pre: string, w: string)
    ensures IndexOf(pre + w, w).Some?
  {
    IndexOfFinds(pre + w, w);
    assert w <= (pre + w)[|pre|..];
  }

  lemma DataPathParts(name: string)
    ensures var s := AppPath(name, DataTail);
      && s == (APPS_URI + name) + DIAL_DATA_URI && s == APPS_URI + (name + ("/" + "dial_data"))
      && s[|s| - 1] == 'a'
  {
    assert DIAL_DATA_URI == "/" + "dial_data";
  }

  lemma DataRoutes(name: string)
    requires PlainName(name)
    ensures BranchOf(AppPath(name, DataTail)) == DataBranch(name)
  {
    hide EndsWith, IndexOf, UrlLib.AppNameOf;
    var s := AppPath(name, DataTail);
    NotApp(name, DIAL_DATA_URI);
    DataPathParts(name);
    EndsDiffer(s, RUN_URI);
    EndsDiffer(s, HIDE_URI);
    Occurs(APPS_URI + name, DIAL_DATA_URI);
    NoSlash(name);
    UrlLib.AppNameBeforeLastSegment(APPS_URI, name, "dial_data");
  }

  lemma NoSlash(name: string)
    requires PlainName(name)
    ensures '/' !in name && 0 < |name| <= 255
  {
    assert forall i :: 0 <= i < |name| ==> PlainChar(name[i]);
  }

  // The handler that the documentation promises for a URL of an application.
  function Intended(name: string, t: Tail, requestMethod: string): Option<Action> {
    match t
    case NoTail =>
      if requestMethod == "POST" then Some(CallStart(name))
      else if requestMethod == "GET" then Some(CallStatus(name))
      else None
    case RunTail => if requestMethod == "DELETE" then Some(CallStop(name)) else None
    case HideTail => if requestMethod == "POST" then Some(CallHide(name)) else None
    case DataTail =>
      if requestMethod == "POST" || requestMethod == "GET" then Some(CallData(name, requestMethod == "POST")) else None
  }

  function TailBranch(name: string, t: Tail): Branch {
    match t
    case NoTail => AppBranch(name)
    case RunTail => RunBranch(name)
    case HideTail => HideBranch(name)
    case DataTail => DataBranch(name)
  }

  lemma TailRoutes(name: string, t: Tail)
    requires PlainName(name)
    ensures BranchOf(AppPath(name, t)) == TailBranch(name, t)
  {
    hide PlainName, BranchOf, AppPath;
    match t
    case NoTail => AppRoutes(name);
    case RunTail => RunRoutes(name);
    case HideTail => HideRoutes(name);
    case DataTail => DataRoutes(name);
  }

  // DIAL data is for the local host; the origin has to be allowed.
  predicate Permits(name: string, t: Tail, local: bool, allowed: string -> bool) {
    allowed(name) && (t == DataTail ==> local)
  }

  // The handler of an application is called from its own branch only.
  lemma IntendedBranch(uri: string, name: string, t: Tail, requestMethod: string, local: bool, allowed: string -> bool)
    requires name != "" && Intended(name, t, requestMethod).Some?
    ensures Dispatch(uri, requestMethod, local, allowed) == Intended(name, t, requestMethod).value <==>
      BranchOf(uri) == TailBranch(name, t) && Permits(name, t, local, allowed)
    ensures BranchOf(uri) == TailBranch(name, t) && !Permits(name, t, local, allowed) ==>
      Dispatch(uri, requestMethod, local, allowed) == ErrorReply(403)
  {
    hide BranchOf;
  }

  // A path that is too short for the name does not lead to it.
  lemma TooShort(uri: string, name: string, t: Tail)
    requires |name| <= 255 && |uri| < |AppPath(name, t)| && t != DataTail
    ensures BranchOf(uri) != TailBranch(name, t)
  {
    hide EndsWith, IndexOf, UrlLib.AppNameOf;
  }

  lemma TailLength(name: string, t: Tail)
    ensures |AppPath(name, t)| == |APPS_URI| + |name| + |TailText(t)|
  {
  }

  // The segment that parse_app_name takes from a path without ' ', or from a cleaned one.
  lemma SegmentOf(uri: string)
    requires uri != "" && uri[0] == '/'
    ensures ' ' !in uri ==> ' ' !in UrlLib.AppNameOf(uri)
    ensures !SepThenDots(uri) ==> !(".." <= UrlLib.AppNameOf(uri))
  {
    var name := UrlLib.AppNameOf(uri);
    var slash := Last(uri, '/').value;
    if slash == 0 {
      assert name[0] == 'u';
    } else {
      var b := UrlLib.SegmentStart(uri, slash);
      assert uri[..slash][0] == '/';
      assert b > 0 && uri[b - 1] == '/';
      assert forall i :: 0 <= i < |name| ==> name[i] == uri[b + i];
      if ".." <= name {
        assert DotsAhead(uri[b..]);
      }
    }
  }

  // A shortened path whose data segment cannot be the name either.
  lemma ElsewhereIfShorter(uri: string, name: string, t: Tail)
    requires |name| <= 255 && |uri| < |AppPath(name, t)| && uri != "" && uri[0] == '/'
    requires (' ' !in uri && ' ' in name) || (!SepThenDots(uri) && ".." <= name)
    ensures BranchOf(uri) != TailBranch(name, t)
  {
    hide EndsWith, IndexOf, UrlLib.AppNameOf, SepThenDots, AppPath;
    SegmentOf(uri);
    if t != DataTail {
      TooShort(uri, name, t);
    }
  }

  /** Every plain name, also one like "run" or "dial_data", is reached by its own URLs, as
      request_handler gets them, exactly when it does not start with two dots and the checks
      pass; when only the checks fail, the answer is 403. */
  lemma EveryNameIsReached(name: string, t: Tail, query: Option<string>, requestMethod: string, local: bool,
                           allowed: string -> bool)
    requires PlainName(name) && Intended(name, t, requestMethod).Some?
    ensures var uri := HandledPath(WithQuery(AppPath(name, t), query));
      && (Dispatch(uri, requestMethod, local, allowed) == Intended(name, t, requestMethod).value <==>
          !(".." <= name) && Permits(name, t, local, allowed))
      && (!(".." <= name) && !Permits(name, t, local, allowed) ==>
          Dispatch(uri, requestMethod, local, allowed) == ErrorReply(403))
  {
    hide HandledPath, AppPath, BranchOf, PlainName, Clean, SepThenDots, TailBranch, Intended, Dispatch, Permits;
    var path := AppPath(name, t);
    PathSurvives(name, t, query);
    NoSlash(name);
    TailRoutes(name, t);
    IntendedBranch(HandledPath(WithQuery(path, query)), name, t, requestMethod, local, allowed);
    if ".." <= name {
      PathUndecoded(name, t);
      HandledIsCleaned(path, query);
      CleanShrinks(path);
      CleanChangesLength(path);
      CleanRemovesDoubleDots(path);
      CleanStart(path);
      ElsewhereIfShorter(Clean(path), name, t);
    }
  }

  lemma PathUndecoded(name: string, t: Tail)
    requires PlainName(name)
    ensures Undecoded(AppPath(name, t)) && AppPath(name, t) != "" && AppPath(name, t)[0] == '/'
  {
    hide TailText;
    TailsUndecoded(t);
  }

  /** A URL that is cut at the first space of the name does not lead to it. */
  lemma CutNameIsNotReached(name: string, t: Tail, j: nat, requestMethod: string, local: bool, allowed: string -> bool)
    requires PlainName(name) && Intended(name, t, requestMethod).Some?
    requires j < |name| && name[j] == ' ' && ' ' !in name[..j]
    ensures Dispatch(HandledPath(APPS_URI + name[..j]), requestMethod, local, allowed)
         != Intended(name, t, requestMethod).value
  {
    hide HandledPath, AppPath, BranchOf, Clean, SepThenDots, TailBranch, Intended, Dispatch, Permits;
    var cut := APPS_URI + name[..j];
    assert Undecoded(cut) && ' ' !in cut && cut[0] == '/';
    HandledIsCleaned(cut, None);
    CleanShrinks(cut);
    CleanStart(cut);
    CleanLeavesOut(cut);
    SubsequenceLacks(Clean(cut), cut, ' ');
    TailLength(name, t);
    ElsewhereIfShorter(Clean(cut), name, t);
    IntendedBranch(Clean(cut), name, t, requestMethod, local, allowed);
  }

  // --------------------------------------------------------------- methods and codes

  // The methods that a branch's answer to OPTIONS lists.
  function Listed(b: Branch): seq<string> {
    match b
    case RunBranch(_) => ["DELETE", "OPTIONS"]
    case AppBranch(_) => ["GET", "POST", "OPTIONS"]
    case HideBranch(_) => ["POST", "OPTIONS"]
    case DataBranch(_) => ["POST", "OPTIONS"]
    case NoBranch => []
  }

  function Joined(words: seq<string>): string {
    if words == [] then "" else if |words| == 1 then words[0] else words[0] + (", " + Joined(words[1..]))
  }

  // Which check refuses a request, or none.
  function Refused(b: Branch, local: bool, allowed: string -> bool): Option<nat> {
    if b.NoBranch? then Some(404)
    else if (b.DataBranch? && !local) || !allowed(b.name) then Some(403)
    else None
  }

  /** The codes: 404 exactly for a URL of no kind, 403 exactly when a check fails, 501 exactly for a
      method that is not among those the branch lists, but for DIAL data, where every other method
      is served as well, and for an empty name, where only OPTIONS is; no other code is sent before
      a handler runs. */
  lemma CodesAre(uri: string, requestMethod: string, local: bool, allowed: string -> bool)
    ensures var b, a := BranchOf(uri), Dispatch(uri, requestMethod, local, allowed);
      && (Refused(b, local, allowed).Some? <==> a == ErrorReply(404) || a == ErrorReply(403))
      && (Refused(b, local, allowed).Some? ==> a == ErrorReply(Refused(b, local, allowed).value))
      && (a == ErrorReply(501) <==>
          && Refused(b, local, allowed) == None && !b.DataBranch?
          && (requestMethod !in Listed(b) || (b.name == "" && !b.AppBranch? && requestMethod != "OPTIONS")))
      && (a.ErrorReply? ==> a.code in {403, 404, 501})
  {
    hide BranchOf;
  }

  /** OPTIONS is answered with the methods that are listed, wherever the checks pass; and a method
      that is listed is served by its own handler. */
  lemma OptionsListsMethods(uri: string, local: bool, allowed: string -> bool)
    requires Refused(BranchOf(uri), local, allowed) == None
    ensures Dispatch(uri, "OPTIONS", local, allowed) == OptionsReply(Joined(Listed(BranchOf(uri))))
  {
    JoinedTexts();
    hide BranchOf, Joined;
  }

  lemma JoinedTexts()
    ensures Joined(["DELETE", "OPTIONS"]) == "DELETE, OPTIONS" && Joined(["POST", "OPTIONS"]) == "POST, OPTIONS"
    ensures Joined(["GET", "POST", "OPTIONS"]) == "GET, POST, OPTIONS"
  {
    assert ["DELETE", "OPTIONS"][1..] == ["OPTIONS"] && ["POST", "OPTIONS"][1..] == ["OPTIONS"];
    assert ["GET", "POST", "OPTIONS"][1..] == ["POST", "OPTIONS"];
  }

  // --------------------------------------------------------------- percent-encoded paths

  /** Whatever is encoded in a URL: in the path that is routed no separator is followed by two
      dots. */
  lemma HandledPathIsClean(uri: string)
    ensures !SepThenDots(HandledPath(uri))
  {
    hide Clean;
    CleanRemovesDoubleDots(CStr(Decode(RawPath(uri), false), 0));
  }

  // A name that can be in a path at all.
  ghost predicate SegmentName(name: string) {
    0 < |name| <= 255 && forall i :: 0 <= i < |name| ==> !IsSep(name[i]) && name[i] != NUL
  }

  lemma SegmentPathIsClean(name: string, t: Tail)
    requires SegmentName(name)
    ensures Clean(AppPath(name, t)) == AppPath(name, t) <==> !(".." <= name)
  {
    hide SepThenDots, DoubleSep, Clean, TailText;
    TailsAreClean(t);
    var path, rest := AppPath(name, t), "/" + (name + TailText(t));
    assert path == "/" + ("apps" + rest);
    CleanIsIdentity(path);
    SegmentStaysClean(name, TailText(t));
    AppsInFront(rest);
    assert DotsAhead(name) <==> ".." <= name;
  }

  lemma SegmentPathHasNoNul(name: string, t: Tail)
    requires SegmentName(name)
    ensures NUL !in AppPath(name, t)
  {
    TailsUndecoded(t);
    hide TailText;
    assert NUL !in TailText(t) && NUL !in APPS_URI && NUL !in name;
  }

  /** A path may be written with escapes, in any way that reads as the application's path: also a
      name with a space, a percent sign or a question mark then survives, exactly when it does not
      start with two dots. */
  lemma EncodedPathSurvives(name: string, t: Tail, written: string, query: Option<string>)
    requires SegmentName(name) && Reads(written, AppPath(name, t), false) && '?' !in written
    ensures HandledPath(WithQuery(written, query)) == AppPath(name, t) <==> !(".." <= name)
  {
    hide Clean, AppPath, Decode, Reads;
    var uri, path := WithQuery(written, query), AppPath(name, t);
    SegmentPathIsClean(name, t);
    SegmentPathHasNoNul(name, t);
    DecodeIsReading(written, path, false);
    SpanIs(uri, 0, IsQuestionMark(), |written|);
    assert RawPath(uri) == uri[..|written|] == written;
    SpanIs(path, 0, IsNul(), |path|);
    assert path[0..|path|] == path;
  }
}
