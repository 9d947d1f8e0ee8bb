/**
 How a launch payload reaches the application: the checks of handle_app_start
 (server/dial_server.c) and the query that netflix_start builds (server/nf_callbacks.c).
 */
module LaunchQuery {
  import opened Wrappers
  import opened CStrings
  import opened Numbers
  import UrlLib

  const DIAL_MAX_PAYLOAD := 4096
  const DIAL_MAX_ADDITIONALURL := 1024
  const QUERY_SIZE := 3 * DIAL_MAX_PAYLOAD + DIAL_MAX_ADDITIONALURL + 40
  const DEFAULT_PARAM := "source_type=12"

  // --------------------------------------------------- what handle_app_start checks

  /** isBadPayload: true exactly when some byte is not printable ASCII. */
  method IsBadPayload(body: array<char>, numBytes: nat) returns (bad: bool)
    requires numBytes <= body.Length
    ensures bad <==> exists i :: 0 <= i < numBytes && !IsPrint(body[i])
  {
    var i := 0;
    while i < numBytes
      invariant i <= numBytes
      invariant forall k :: 0 <= k < i ==> IsPrint(body[k])
    {
      if body[i] as int >= 0x80 || body[i] as int == 0x7F || body[i] as int <= 0x1F {
        return true;
      }
      i := i + 1;
    }
    return false;
  }

  // A payload that handle_app_start passes on.
  ghost predicate Accepted(payload: string) {
    |payload| <= DIAL_MAX_PAYLOAD && forall i :: 0 <= i < |payload| ==> IsPrint(payload[i])
  }

  // additional_data_param: formatted into DIAL_MAX_ADDITIONALURL bytes by snprintf.
  function AdditionalDataParam(useAdditionalData: bool, port: nat, appName: string): (s: string)
    ensures |s| < DIAL_MAX_ADDITIONALURL
  {
    if !useAdditionalData then "" else
      var s :=
        "additionalDataUrl=http%3A%2F%2Flocalhost%3A"
        + (Decimal(port) + ("%2Fapps%2F" + (appName + "%2Fdial_data%3F")));
      if |s| < DIAL_MAX_ADDITIONALURL then s else s[..DIAL_MAX_ADDITIONALURL - 1]
  }

  // ------------------------------------------------------------- the built query

  // The query, as netflix_start builds it step by step.
  function WithDial(payload: string): string {
    if payload == "" then DEFAULT_PARAM else DEFAULT_PARAM + ("&dial=" + UrlLib.Encode(payload))
  }

  function Query(payload: string, url: string): string {
    if url == "" then WithDial(payload) else WithDial(payload) + ("&" + url)
  }

  // The two size checks, with the sizes of the literals including their NULs.
  predicate DialFits(payload: string) {
    payload == "" || |DEFAULT_PARAM| + 7 + |UrlLib.Encode(payload)| < QUERY_SIZE
  }

  predicate UrlFits(payload: string, url: string) {
    url == "" || |WithDial(payload)| + 2 + |url| < QUERY_SIZE
  }

  // strcat
  method StrCat(dst: array<char>, src: array<char>, p: nat, ghost d: string, ghost s: string)
    requires dst != src && HoldsAt(dst[..], 0, d) && HoldsAt(src[..], p, s) && |d| + |s| < dst.Length
    modifies dst
    ensures HoldsAt(dst[..], 0, d + s)
  {
    var n := UrlLib.StrLen(dst, 0, d);
    var m := UrlLib.StrLen(src, p, s);
    ghost var before := dst[..];
    forall i | 0 <= i < m {
      dst[n + i] := src[p + i];
    }
    dst[n + m] := NUL;
    Joined(before, dst[..], src[..], p, d, s);
  }

  lemma Joined(before: string, after: string, src: string, p: nat, d: string, s: string)
    requires HoldsAt(before, 0, d) && HoldsAt(src, p, s) && |d| + |s| < |before| == |after|
    requires forall i :: 0 <= i < |d| ==> after[i] == before[i]
    requires forall i :: |d| <= i < |d| + |s| ==> after[i] == src[p + (i - |d|)]
    requires after[|d| + |s|] == NUL
    ensures HoldsAt(after, 0, d + s)
  {
    assert forall i :: 0 <= i < |d| ==> before[0..|d|][i] == before[i];
    assert src[p..p + |s|] == s;
    forall i | |d| <= i < |d| + |s|
      ensures after[i] == s[i - |d|]
    {
      assert src[p..p + |s|][i - |d|] == src[p + (i - |d|)];
    }
    assert after[0..|d| + |s|] == d + s;
  }

  // strcat from a string constant.
  method StrCatLiteral(dst: array<char>, src: string, ghost d: string)
    requires HoldsAt(dst[..], 0, d) && NoNul(src) && |d| + |src| < dst.Length
    modifies dst
    ensures HoldsAt(dst[..], 0, d + src)
  {
    var n := UrlLib.StrLen(dst, 0, d);
    forall i | 0 <= i < |src| {
      dst[n + i] := src[i];
    }
    dst[n + |src|] := NUL;
    assert dst[0..n] == old(dst[0..n]) == d;
    assert dst[..][0..n + |src|] == d + src;
  }

  // memset and strncpy at the start of netflix_start.
  method InitQuery(q: array<char>)
    requires q.Length == QUERY_SIZE
    modifies q
    ensures HoldsAt(q[..], 0, DEFAULT_PARAM)
  {
    forall i | 0 <= i < q.Length {
      q[i] := NUL;
    }
    forall i | 0 <= i < |DEFAULT_PARAM| {
      q[i] := DEFAULT_PARAM[i];
    }
    assert q[..][0..|DEFAULT_PARAM|] == DEFAULT_PARAM;
  }

  lemma WithDialIs(text: string)
    ensures WithDial("") == DEFAULT_PARAM && NoNul("&dial=")
    ensures text != "" ==> (DEFAULT_PARAM + "&dial=") + UrlLib.Encode(text) == WithDial(text)
  {
    hide UrlLib.Encode;
  }

  // The payload's turn.
  method AppendDial(q: array<char>, payload: array<char>, p: nat, ghost text: string) returns (ok: bool)
    requires q.Length == QUERY_SIZE && q != payload
    requires HoldsAt(q[..], 0, DEFAULT_PARAM) && HoldsAt(payload[..], p, text)
    modifies q
    ensures ok <==> DialFits(text)
    ensures ok ==> HoldsAt(q[..], 0, WithDial(text))
  {
    hide UrlLib.Encode, WithDial, HoldsAt;
    WithDialIs(text);
    var n := UrlLib.StrLen(payload, p, text);
    if n == 0 {
      return true;
    }
    var encoded := UrlLib.UrlEncode(payload, p, text);
    var have := UrlLib.StrLen(q, 0, DEFAULT_PARAM);
    var more := UrlLib.StrLen(encoded, 0, UrlLib.Encode(text));
    if have + 7 + more < QUERY_SIZE {
      StrCatLiteral(q, "&dial=", DEFAULT_PARAM);
      StrCat(q, encoded, 0, DEFAULT_PARAM + "&dial=", UrlLib.Encode(text));
      return true;
    }
    return false;
  }

  // The additional data URL's turn.
  method AppendUrl(q: array<char>, url: array<char>, u: nat, ghost d: string, ghost text: string) returns (ok: bool)
    requires q.Length == QUERY_SIZE && q != url
    requires HoldsAt(q[..], 0, d) && HoldsAt(url[..], u, text)
    modifies q
    ensures ok <==> text == "" || |d| + 2 + |text| < QUERY_SIZE
    ensures ok ==> HoldsAt(q[..], 0, if text == "" then d else d + ("&" + text))
  {
    var n := UrlLib.StrLen(url, u, text);
    if n == 0 {
      return true;
    }
    var have := UrlLib.StrLen(q, 0, d);
    if have + 2 + n < QUERY_SIZE {
      StrCatLiteral(q, "&", d);
      StrCat(q, url, u, d + "&", text);
      assert (d + "&") + text == d + ("&" + text);
      return true;
    }
    return false;
  }

  /** The part of netflix_start that fills sQueryParam: never past its end, and with the
      whole query unless one of the two size checks fails. */
  method BuildQuery(q: array<char>, payload: array<char>, p: nat, url: array<char>, u: nat,
                    ghost payloadText: string, ghost urlText: string)
    returns (ok: bool)
    requires q.Length == QUERY_SIZE && q != payload && q != url
    requires HoldsAt(payload[..], p, payloadText) && HoldsAt(url[..], u, urlText)
    modifies q
    ensures ok <==> DialFits(payloadText) && UrlFits(payloadText, urlText)
    ensures ok ==> HoldsAt(q[..], 0, Query(payloadText, urlText))
  {
    hide HoldsAt, WithDial;
    InitQuery(q);
    ok := AppendDial(q, payload, p, payloadText);
    if ok {
      ok := AppendUrl(q, url, u, WithDial(payloadText), urlText);
    }
  }

  // ----------------------------------------------------------------- the claims

  /** Neither size check can fail for a payload and a URL that handle_app_start passes on. */
  lemma SizeChecksNeverFail(payload: string, url: string)
    requires |payload| <= DIAL_MAX_PAYLOAD && |url| < DIAL_MAX_ADDITIONALURL
    ensures DialFits(payload) && UrlFits(payload, url)
  {
    UrlLib.EncodeIsSafe(payload);
  }

  lemma DialNotEarlier(rest: string)
    ensures forall k :: 0 <= k < |DEFAULT_PARAM + "&"| ==> !("dial" <= ((DEFAULT_PARAM + "&") + rest)[k..])
  {
    var pre := DEFAULT_PARAM + "&";
    forall k | 0 <= k < |pre|
      ensures !("dial" <= (pre + rest)[k..])
    {
      assert (pre + rest)[k..][0] == pre[k];
      assert pre[k] != 'd';
    }
  }

  /** The application gets back exactly the payload the client sent: parameter "dial" of the
      query, URL-decoded, whatever additional data URL follows it. */
  lemma LaunchRoundTrip(payload: string, url: string, maxSize: nat)
    requires payload != "" && Octets(payload) && |payload| <= maxSize
    ensures UrlLib.ParseParam(Query(payload, url), "dial") == Some(UrlLib.Encode(payload))
    ensures UrlLib.Decode(UrlLib.Encode(payload), maxSize) == UrlLib.Decoded(payload, true)
  {
    hide Query, UrlLib.Encode, UrlLib.ParseParam, UrlLib.Decode;
    var value, rest := UrlLib.Encode(payload), AfterDial(url);
    EncodedHasNoAmp(payload);
    UrlLib.DecodeInvertsEncode(payload, maxSize);
    QueryParts(payload, url);
    DialNotEarlier("dial" + ("=" + (value + rest)));
    UrlLib.ParamFound(DEFAULT_PARAM + "&", "dial", value, rest);
  }

  lemma EncodedHasNoAmp(payload: string)
    ensures '&' !in UrlLib.Encode(payload)
  {
    UrlLib.EncodeIsSafe(payload);
  }

  function AfterDial(url: string): string {
    if url == "" then "" else "&" + url
  }

  lemma QueryParts(payload: string, url: string)
    requires payload != ""
    ensures Query(payload, url)
         == (DEFAULT_PARAM + "&") + ("dial" + ("=" + (UrlLib.Encode(payload) + AfterDial(url))))
  {
    hide UrlLib.Encode;
    var value := UrlLib.Encode(payload);
    Regroup(DEFAULT_PARAM, "&", "dial", "=", "&dial=", value, AfterDial(url));
    assert url == "" ==> WithDial(payload) + AfterDial(url) == WithDial(payload);
  }

  lemma Regroup(a: string, b: string, c: string, d: string, bcd: string, v: string, rest: string)
    requires bcd == b + (c + d)
    ensures (a + (bcd + v)) + rest == (a + b) + (c + (d + (v + rest)))
  {
    assert bcd + v == b + (c + (d + v));
    assert (c + (d + v)) + rest == c + (d + (v + rest));
  }

  /** For every launch the server accepts: the query is built, and it carries the payload. */
  lemma AcceptedPayloadArrives(payload: string, useAdditionalData: bool, port: nat, appName: string)
    requires Accepted(payload) && payload != ""
    ensures var url := AdditionalDataParam(useAdditionalData, port, appName);
      && DialFits(payload) && UrlFits(payload, url)
      && UrlLib.ParseParam(Query(payload, url), "dial") == Some(UrlLib.Encode(payload))
      && UrlLib.Decode(UrlLib.Encode(payload), DIAL_MAX_PAYLOAD) == UrlLib.Decoded(payload, true)
  {
    var url := AdditionalDataParam(useAdditionalData, port, appName);
    SizeChecksNeverFail(payload, url);
    LaunchRoundTrip(payload, url, DIAL_MAX_PAYLOAD);
  }

  // ------------------------------------------------------- the additional data URL

  // Where the application is told to send its DIAL data.
  function DataUrl(port: nat, appName: string): string {
    "http://" + ("localhost:" + (Decimal(port) + ("/apps/" + (appName + "/dial_data?"))))
  }

  // The text that follows the parameter's name, cut up.
  function EncodedDataUrl(port: nat, appName: string): string {
    "http%3A%2F%2F" + ("localhost%3A" + (Decimal(port) + ("%2Fapps%2F" + (appName + "%2Fdial_data%3F"))))
  }

  lemma ParamIs(port: nat, appName: string)
    requires |EncodedDataUrl(port, appName)| + 18 < DIAL_MAX_ADDITIONALURL
    ensures AdditionalDataParam(true, port, appName) == "additionalDataUrl" + ("=" + EncodedDataUrl(port, appName))
  {
    hide Decimal;
    ParamLiterals();
    JoinedParam("additionalDataUrl", "=", "http%3A%2F%2F", "localhost%3A",
                Decimal(port) + ("%2Fapps%2F" + (appName + "%2Fdial_data%3F")));
  }

  lemma ParamLiterals()
    ensures "additionalDataUrl=http%3A%2F%2Flocalhost%3A"
      == "additionalDataUrl" + ("=" + ("http%3A%2F%2F" + "localhost%3A"))
  {
  }

  lemma JoinedParam(a: string, b: string, c: string, d: string, rest: string)
    ensures (a + (b + (c + d))) + rest == a + (b + (c + (d + rest)))
  {
    assert (b + (c + d)) + rest == b + (c + (d + rest));
  }

  // An application name that a URL takes as it is.
  ghost predicate UrlName(name: string) {
    forall i :: 0 <= i < |name| ==> name[i] != '%' && name[i] != '+' && name[i] != '&' && name[i] != NUL
  }

  lemma EscapeIs(e: string, c: char, hi: int, lo: int)
    requires |e| == 3 && e[0] == '%' && HexOf(e[1], hi) && HexOf(e[2], lo) && c as int == 16 * hi + lo
    ensures EscapeOf(e, c)
  {
  }

  lemma Escapes()
    ensures UrlLib.Spells("%3A", ":") && UrlLib.Spells("%2F", "/") && UrlLib.Spells("%3F", "?")
  {
    EscapeIs("%3A", ':', 3, 10);
    EscapeIs("%2F", '/', 2, 15);
    EscapeIs("%3F", '?', 3, 15);
    UrlLib.SpellsEscape("%3A", ':');
    UrlLib.SpellsEscape("%2F", '/');
    UrlLib.SpellsEscape("%3F", '?');
  }

  lemma Words()
    ensures UrlLib.Spells("http", "http") && UrlLib.Spells("localhost", "localhost")
    ensures UrlLib.Spells("apps", "apps") && UrlLib.Spells("dial_data", "dial_data")
  {
    UrlLib.SpellsItself("http");
    UrlLib.SpellsItself("localhost");
    UrlLib.SpellsItself("apps");
    UrlLib.SpellsItself("dial_data");
  }

  lemma UrlPieces()
    ensures UrlLib.Spells("http%3A%2F%2F", "http://") && UrlLib.Spells("localhost%3A", "localhost:")
    ensures UrlLib.Spells("%2Fapps%2F", "/apps/") && UrlLib.Spells("%2Fdial_data%3F", "/dial_data?")
  {
    hide UrlLib.Spells;
    Escapes();
    Words();
    UrlLib.SpellsBoth("http", "http", "%3A", ":");
    UrlLib.SpellsBoth("http" + "%3A", "http" + ":", "%2F", "/");
    UrlLib.SpellsBoth("http" + "%3A" + "%2F", "http" + ":" + "/", "%2F", "/");
    assert "http" + "%3A" + "%2F" + "%2F" == "http%3A%2F%2F" && "http" + ":" + "/" + "/" == "http://";
    UrlLib.SpellsBoth("localhost", "localhost", "%3A", ":");
    assert "localhost" + "%3A" == "localhost%3A" && "localhost" + ":" == "localhost:";
    UrlLib.SpellsBoth("%2F", "/", "apps", "apps");
    UrlLib.SpellsBoth("%2F" + "apps", "/" + "apps", "%2F", "/");
    assert "%2F" + "apps" + "%2F" == "%2Fapps%2F" && "/" + "apps" + "/" == "/apps/";
    UrlLib.SpellsBoth("%2F", "/", "dial_data", "dial_data");
    UrlLib.SpellsBoth("%2F" + "dial_data", "/" + "dial_data", "%3F", "?");
    assert "%2F" + "dial_data" + "%3F" == "%2Fdial_data%3F" && "/" + "dial_data" + "?" == "/dial_data?";
  }

  lemma DataUrlIsSpelled(port: nat, appName: string)
    requires UrlName(appName)
    ensures UrlLib.Spells(EncodedDataUrl(port, appName), DataUrl(port, appName))
  {
    hide UrlLib.Spells, Decimal;
    UrlPieces();
    var p := Decimal(port);
    DecimalIsDigits(port);
    UrlLib.SpellsItself(p);
    UrlLib.SpellsItself(appName);
    UrlLib.SpellsBoth(appName, appName, "%2Fdial_data%3F", "/dial_data?");
    UrlLib.SpellsBoth("%2Fapps%2F", "/apps/", appName + "%2Fdial_data%3F", appName + "/dial_data?");
    var t, s := "%2Fapps%2F" + (appName + "%2Fdial_data%3F"), "/apps/" + (appName + "/dial_data?");
    UrlLib.SpellsBoth(p, p, t, s);
    UrlLib.SpellsBoth("localhost%3A", "localhost:", p + t, p + s);
    UrlLib.SpellsBoth("http%3A%2F%2F", "http://", "localhost%3A" + (p + t), "localhost:" + (p + s));
  }

  const URL_PARAM := "additionalDataUrl"

  // Where a character stands that is not one of the parameter's name, in front of `|pre|`.
  ghost predicate BlockedAt(pre: string, k: nat, j: nat) {
    k <= j < k + 17 && j < |pre| && (pre[j] == '=' || pre[j] == '&')
  }

  lemma NotAt(s: string, pre: string, rest: string, k: nat, j: nat)
    requires s == pre + rest && BlockedAt(pre, k, j)
    ensures !(URL_PARAM <= s[k..])
  {
    if URL_PARAM <= s[k..] {
      NameAt(s, k, j);
      assert false;
    }
  }

  lemma NameAt(s: string, k: nat, j: nat)
    requires k <= |s| && URL_PARAM <= s[k..] && k <= j < k + 17
    ensures j < |s| && s[j] != '=' && s[j] != '&'
  {
    assert s[k..][j - k] == s[j];
    assert URL_PARAM[j - k] != '=' && URL_PARAM[j - k] != '&';
  }

  lemma NotInPart(s: string, part: string, off: nat, w: string, k: nat)
    requires off + |part| <= |s| && s[off..off + |part|] == part && off <= k && k + |w| <= off + |part|
    requires !(w <= part[k - off..])
    ensures !(w <= s[k..])
  {
    OccursIsPrefix(part, w, k - off);
    OccursIsPrefix(s, w, k);
    OccursInside(s, part, off, w, k - off);
  }

  // No text with the parameter's name comes before it, unless the encoded payload holds one.
  lemma UrlNotEarlier(payload: string, rest: string)
    requires payload != "" ==>
      forall k :: 0 <= k <= |UrlLib.Encode(payload)| ==> !(URL_PARAM <= UrlLib.Encode(payload)[k..])
    ensures var pre := WithDial(payload) + "&";
      forall k :: 0 <= k < |pre| ==> !(URL_PARAM <= (pre + rest)[k..])
  {
    hide UrlLib.Encode;
    var pre, e := WithDial(payload) + "&", UrlLib.Encode(payload);
    assert pre[11] == '=' && pre[14] == '&';
    if payload != "" {
      PreParts(payload);
    }
    forall k | 0 <= k < |pre|
      ensures !(URL_PARAM <= (pre + rest)[k..])
    {
      if k <= 11 {
        NotAt(pre + rest, pre, rest, k, 11);
      } else if k <= 14 {
        NotAt(pre + rest, pre, rest, k, 14);
      } else if k <= 19 {
        NotAt(pre + rest, pre, rest, k, 19);
      } else if k + 17 > 20 + |e| {
        NotAt(pre + rest, pre, rest, k, 20 + |e|);
      } else {
        assert (pre + rest)[20..20 + |e|] == e;
        NotInPart(pre + rest, e, 20, URL_PARAM, k);
      }
    }
  }

  lemma PreParts(payload: string)
    requires payload != ""
    ensures var pre, e := WithDial(payload) + "&", UrlLib.Encode(payload);
      && |pre| == 21 + |e| && pre[19] == '=' && pre[20 + |e|] == '&'
      && forall i :: 0 <= i < |e| ==> pre[20 + i] == e[i]
  {
    hide UrlLib.Encode;
    assert DEFAULT_PARAM + "&dial=" == "source_type=12&dial=";
    assert DEFAULT_PARAM + ("&dial=" + UrlLib.Encode(payload)) == (DEFAULT_PARAM + "&dial=") + UrlLib.Encode(payload);
  }

  /** The application is told where to send its DIAL data: parameter additionalDataUrl of the
      query, URL-decoded, is the URL of its own data on this server, when the name is one that a
      URL takes as it is, there is room for it, and the encoded payload does not hold the
      parameter's name. */
  lemma DataUrlArrives(payload: string, port: nat, appName: string, maxSize: nat)
    requires UrlName(appName) && |EncodedDataUrl(port, appName)| + 18 < DIAL_MAX_ADDITIONALURL
    requires payload != "" ==>
      forall k :: 0 <= k <= |UrlLib.Encode(payload)| ==> !(URL_PARAM <= UrlLib.Encode(payload)[k..])
    requires maxSize >= |DataUrl(port, appName)|
    ensures var query := Query(payload, AdditionalDataParam(true, port, appName));
      UrlLib.ParseParam(query, URL_PARAM) == Some(EncodedDataUrl(port, appName))
    ensures UrlLib.Decode(EncodedDataUrl(port, appName), maxSize) == UrlLib.Decoded(DataUrl(port, appName), true)
  {
    DataUrlIsSpelled(port, appName);
    UrlLib.SpelledIsDecoded(EncodedDataUrl(port, appName), DataUrl(port, appName), maxSize);
    UrlHasNoAmp(port, appName);
    ParamIs(port, appName);
    hide UrlLib.Encode, UrlLib.ParseParam, UrlLib.Decode, UrlLib.Spells, EncodedDataUrl, DataUrl, WithDial;
    hide AdditionalDataParam, Query;
    var value := EncodedDataUrl(port, appName);
    UrlNotEarlier(payload, URL_PARAM + ("=" + (value + "")));
    QueryWithParam(payload, URL_PARAM, value);
    assert '=' !in URL_PARAM;
    UrlLib.ParamFound(WithDial(payload) + "&", URL_PARAM, value, "");
  }

  lemma QueryWithParam(payload: string, name: string, value: string)
    ensures Query(payload, name + ("=" + value)) == (WithDial(payload) + "&") + (name + ("=" + (value + "")))
  {
    hide WithDial;
    assert value + "" == value;
    assert name + ("=" + value) != "";
  }

  lemma UrlHasNoAmp(port: nat, appName: string)
    requires UrlName(appName)
    ensures '&' !in EncodedDataUrl(port, appName)
  {
    DecimalIsDigits(port);
    hide Decimal;
    assert '&' !in Decimal(port) && '&' !in appName;
    assert '&' !in "http%3A%2F%2F" && '&' !in "localhost%3A" && '&' !in "%2Fapps%2F" && '&' !in "%2Fdial_data%3F";
  }
}
