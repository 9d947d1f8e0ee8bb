/**
 The client's table of servers (client/DialDiscovery.cpp): each discovery round marks the
 servers that respond and sweeps the others out.
 */
module Discovery {
  import opened CStrings
  import opened Numbers
  import opened DialClient
  import opened Ssdp

  // A response of the network, and the Application-URL that its server gives when asked.
  datatype Response = Response(text: string, appsUrl: string)

  // processServer looks at responses of DIAL servers only.
  predicate FromDialServer(response: string) {
    IndexOf(response, SearchTarget()).Some?
  }

  // The locations that responded in a round.
  ghost function Responding(responses: seq<Response>): set<string> {
    set i | 0 <= i < |responses| && FromDialServer(responses[i].text) :: LocationIn(responses[i].text)
  }

  // The i-th response is the first one of a DIAL server with this location.
  ghost predicate FirstFrom(responses: seq<Response>, location: string, i: nat) {
    && i < |responses| && IsFrom(responses[i], location)
    && forall j :: 0 <= j < i ==> !IsFrom(responses[j], location)
  }

  ghost predicate IsFrom(r: Response, location: string) {
    FromDialServer(r.text) && LocationIn(r.text) == location
  }

  // The server is known as the response describes it.
  ghost predicate Describes(r: Response, s: DialServer) {
    && s.location == LocationIn(r.text) && s.appsUrl == r.appsUrl
    && s.macAddr == GetMac(r.text) && s.wakeUpTimeout == GetTimeout(r.text)
  }

  // The server is known as the first of these responses with its location describes it.
  ghost predicate DescribedFirst(responses: seq<Response>, s: DialServer) {
    exists i: nat :: FirstFrom(responses, s.location, i) && Describes(responses[i], s)
  }

  lemma DescribedLater(responses: seq<Response>, n: nat, s: DialServer)
    requires n < |responses|
    ensures DescribedFirst(responses[..n], s) ==> DescribedFirst(responses[..n + 1], s)
    ensures s.location !in Responding(responses[..n]) && Describes(responses[n], s) && FromDialServer(responses[n].text)
        ==> DescribedFirst(responses[..n + 1], s)
  {
    hide IsFrom, Describes, Responding;
    var less, more := responses[..n], responses[..n + 1];
    assert forall j :: 0 <= j < n ==> more[j] == less[j] == responses[j];
    if DescribedFirst(less, s) {
      var i: nat :| FirstFrom(less, s.location, i) && Describes(less[i], s);
      assert FirstFrom(more, s.location, i) && more[i] == less[i];
    }
    if s.location !in Responding(less) && Describes(responses[n], s) && FromDialServer(responses[n].text) {
      NoneFrom(less, s.location);
      DescribedIsFrom(responses[n], s);
      assert FirstFrom(more, s.location, n) && more[n] == responses[n];
    }
  }

  lemma NoneFrom(responses: seq<Response>, location: string)
    requires location !in Responding(responses)
    ensures forall j :: 0 <= j < |responses| ==> !IsFrom(responses[j], location)
  {
    hide FromDialServer, LocationIn;
  }

  lemma DescribedIsFrom(r: Response, s: DialServer)
    requires Describes(r, s) && FromDialServer(r.text)
    ensures IsFrom(r, s.location)
  {
  }

  class DialDiscovery {
    var mServerMap: map<string, DialServer>

    // Every server is kept under its own location.
    ghost predicate Valid()
      reads this
    {
      forall k :: k in mServerMap ==> mServerMap[k].location == k
    }

    constructor ()
      ensures Valid() && mServerMap == map[]
    {
      mServerMap := map[];
    }

    /** updateServerList: a new location gets a new server, a known one is marked. */
    method UpdateServerList(server: string, appsUrl: string, mac: string, timeOut: int)
      requires Valid()
      modifies this, mServerMap.Values
      ensures Valid() && mServerMap.Keys == old(mServerMap.Keys) + {server}
      ensures forall k :: k in old(mServerMap) ==> mServerMap[k] == old(mServerMap[k])
      ensures mServerMap[server].found
      ensures forall k :: k in old(mServerMap) && k != server ==> mServerMap[k].found == old(mServerMap[k].found)
      ensures server !in old(mServerMap) ==>
        var s := mServerMap[server];
        fresh(s) && s.appsUrl == appsUrl && s.macAddr == mac && s.wakeUpTimeout == timeOut
    {
      if server !in mServerMap {
        var s := new DialServer(server, appsUrl, mac, timeOut);
        mServerMap := mServerMap[server := s];
      } else {
        mServerMap[server].found := true;
      }
    }

    // processServer
    method ProcessServer(response: Response)
      requires Valid()
      modifies this, mServerMap.Values
      ensures Valid() && mServerMap.Keys == old(mServerMap.Keys) + Responding([response])
      ensures forall k :: k in old(mServerMap) ==> mServerMap[k] == old(mServerMap[k])
      ensures forall k :: k in mServerMap && k !in old(mServerMap) ==>
        fresh(mServerMap[k]) && FromDialServer(response.text) && Describes(response, mServerMap[k])
      ensures forall k :: k in Responding([response]) ==> mServerMap[k].found
      ensures forall k :: k in old(mServerMap) && k !in Responding([response]) ==>
        mServerMap[k].found == old(mServerMap[k].found)
    {
      hide FromDialServer, LocationIn, GetMac, GetTimeout;
      OneResponse(response);
      if FromDialServer(response.text) {
        var server := GetLocation(response.text);
        UpdateServerList(server, response.appsUrl, GetMac(response.text), GetTimeout(response.text));
      }
    }

    // The mark of every server.
    method ResetDiscovery()
      requires Valid()
      modifies mServerMap.Values
      ensures Valid() && forall k :: k in mServerMap ==> !mServerMap[k].found
    {
      var left := mServerMap.Keys;
      while left != {}
        invariant left <= mServerMap.Keys
        invariant forall k :: k in mServerMap && k !in left ==> !mServerMap[k].found
        decreases left
      {
        var k :| k in left;
        mServerMap[k].found := false;
        left := left - {k};
      }
    }

    // The first loop of cleanServerList: the locations to remove.
    method NotFound() returns (removal: seq<string>)
      requires Valid()
      ensures forall k :: k in removal <==> k in mServerMap && !mServerMap[k].found
    {
      var left := mServerMap.Keys;
      removal := [];
      while left != {}
        invariant left <= mServerMap.Keys
        invariant forall k :: k in removal <==> k in mServerMap && k !in left && !mServerMap[k].found
        decreases left
      {
        var k :| k in left;
        if !mServerMap[k].found {
          removal := removal + [mServerMap[k].location];
        }
        left := left - {k};
      }
    }

    /** cleanServerList: exactly the unmarked servers go; looking one up by its own location
        always finds it. */
    method CleanServerList()
      requires Valid()
      modifies this
      ensures Valid()
      ensures forall k :: k in mServerMap <==> k in old(mServerMap) && old(mServerMap)[k].found
      ensures forall k :: k in mServerMap ==> mServerMap[k] == old(mServerMap)[k]
    {
      var removal := NotFound();
      var i := 0;
      while i < |removal|
        invariant i <= |removal|
        invariant forall k :: k in mServerMap <==> k in old(mServerMap) && k !in removal[..i]
        invariant forall k :: k in mServerMap ==> mServerMap[k] == old(mServerMap)[k]
      {
        mServerMap := mServerMap - {removal[i]};
        assert removal[..i + 1] == removal[..i] + [removal[i]];
        i := i + 1;
      }
      assert removal[..i] == removal;
    }

    // The responses of a round, one after the other.
    method ReceiveResponses(responses: seq<Response>)
      requires Valid()
      modifies this, mServerMap.Values
      ensures Valid() && mServerMap.Keys == old(mServerMap.Keys) + Responding(responses)
      ensures forall k :: k in old(mServerMap) ==> mServerMap[k] == old(mServerMap[k])
      ensures forall k :: k in Responding(responses) ==> mServerMap[k].found
      ensures forall k :: k in old(mServerMap) && k !in Responding(responses) ==>
        mServerMap[k].found == old(mServerMap[k].found)
      ensures forall k :: k in mServerMap && k !in old(mServerMap) ==> DescribedFirst(responses, mServerMap[k])
    {
      hide Responding, DescribedFirst, Describes, FromDialServer;
      var i := 0;
      NoResponse();
      assert responses[..0] == [];
      while i < |responses|
        invariant i <= |responses| && Valid()
        invariant mServerMap.Keys == old(mServerMap.Keys) + Responding(responses[..i])
        invariant forall k :: k in old(mServerMap) ==> mServerMap[k] == old(mServerMap[k])
        invariant forall k :: k in mServerMap && k !in old(mServerMap) ==> fresh(mServerMap[k])
        invariant forall k :: k in Responding(responses[..i]) ==> mServerMap[k].found
        invariant forall k :: k in old(mServerMap) && k !in Responding(responses[..i]) ==>
          mServerMap[k].found == old(mServerMap[k].found)
        invariant forall k :: k in mServerMap && k !in old(mServerMap) ==> DescribedFirst(responses[..i], mServerMap[k])
      {
        OneMoreResponse(responses, i);
        ghost var known := mServerMap;
        ProcessServer(responses[i]);
        forall k | k in mServerMap && k !in old(mServerMap)
          ensures DescribedFirst(responses[..i + 1], mServerMap[k])
        {
          DescribedLater(responses, i, mServerMap[k]);
          assert k in known ==> mServerMap[k] == known[k];
        }
        i := i + 1;
      }
      assert responses[..i] == responses;
    }

    /** One discovery round (send_mcast): afterwards the table holds exactly the locations
        that responded in it; the servers already known are still the same objects, and the new
        ones have the apps URL, hardware address and timeout of the first response in the round
        with their location. */
    method Round(responses: seq<Response>)
      requires Valid()
      modifies this, mServerMap.Values
      ensures Valid() && mServerMap.Keys == Responding(responses)
      ensures forall k :: k in mServerMap && k in old(mServerMap) ==> mServerMap[k] == old(mServerMap[k])
      ensures forall k :: k in mServerMap ==> mServerMap[k].found
      ensures forall k :: k in mServerMap && k !in old(mServerMap) ==> DescribedFirst(responses, mServerMap[k])
    {
      hide Responding, DescribedFirst;
      ResetDiscovery();
      ReceiveResponses(responses);
      CleanServerList();
    }
  }

  lemma NoResponse()
    ensures Responding([]) == {}
  {
  }

  lemma OneResponse(r: Response)
    ensures Responding([r]) == if FromDialServer(r.text) then {LocationIn(r.text)} else {}
  {
    hide FromDialServer, LocationIn;
    assert [r][0] == r;
  }

  lemma OneMoreResponse(responses: seq<Response>, i: nat)
    requires i < |responses|
    ensures Responding(responses[..i + 1]) == Responding(responses[..i]) + Responding([responses[i]])
  {
    hide FromDialServer, LocationIn;
    OneResponse(responses[i]);
    assert responses[..i + 1] == responses[..i] + [responses[i]];
    assert forall j :: 0 <= j < i ==> responses[..i + 1][j] == responses[..i][j];
    assert responses[..i + 1][i] == responses[i];
  }

  // ------------------------------------------------ the reply of this server is a response

  ghost predicate Contains(s: string, w: string) {
    exists k: nat :: OccursAt(s, w, k)
  }

  lemma ContainsBehind(s: string, t: string, w: string)
    requires Contains(t, w)
    ensures Contains(s + t, w)
  {
    var k: nat :| OccursAt(t, w, k);
    assert (s + t)[|s|..|s| + |t|] == t;
    OccursInside(s + t, t, |s|, w, k);
  }

  lemma ContainsBefore(s: string, t: string, w: string)
    requires Contains(s, w)
    ensures Contains(s + t, w)
  {
    var k: nat :| OccursAt(s, w, k);
    assert (s + t)[0..|s|] == s;
    OccursInside(s + t, s, 0, w, k);
  }

  lemma ContainsItself(w: string)
    ensures Contains(w, w)
  {
    assert OccursAt(w, w, 0);
  }

  lemma TargetInLines()
    ensures Contains(BetweenLines(), SearchTarget())
  {
    hide SearchTarget, Contains;
    var w := SearchTarget();
    var a := w + "\r\nUSN: uuid:";
    ContainsItself(w);
    ContainsBefore(w, "\r\nUSN: uuid:", w);
    ContainsBehind("quick_ssdp/1.1\r\n", a, w);
    var b := "quick_ssdp/1.1\r\n" + a;
    ContainsBehind("SERVER: Linux/2.6 UPnP/1.1 ", b, w);
    var c := "SERVER: Linux/2.6 UPnP/1.1 " + b;
    ContainsBehind("BOOTID.UPNP.ORG: 1\r\n", c, w);
    ContainsBehind("EXT:\r\n", "BOOTID.UPNP.ORG: 1\r\n" + c, w);
    ContainsBehind("CACHE-CONTROL: max-age=1800\r\n", "EXT:\r\n" + ("BOOTID.UPNP.ORG: 1\r\n" + c), w);
  }

  lemma TargetInReply(ip: string, port: string, uuid: string, wakeup: string)
    ensures Contains(ReplyText(ip, port, uuid, wakeup), SearchTarget())
  {
    hide SearchTarget, Contains, BetweenLines, AfterUuid, LocationOf;
    var w, url := SearchTarget(), LocationOf(ip, port);
    TargetInLines();
    ContainsBehind(EOL, BetweenLines(), w);
    ContainsBehind(url, EOL + BetweenLines(), w);
    ContainsBehind(LOCATION, url + (EOL + BetweenLines()), w);
    ContainsBehind(EOL, LOCATION + (url + (EOL + BetweenLines())), w);
    ContainsBehind("HTTP/1.1 200 OK", EOL + (LOCATION + (url + (EOL + BetweenLines()))), w);
    StartIs(ip, port);
    ContainsBefore(BeforeUuid(ip, port), uuid + (AfterUuid() + (wakeup + EOL)), w);
  }

  /** The server's reply is taken for that of a DIAL server, so a round in which it arrives
      leaves the server's location in the table. */
  lemma ServerIsDiscovered(ip: string, port: nat, uuid: string, mac: string, timeout: nat,
                          responses: seq<Response>, i: nat)
    requires DottedText(ip) && |ip| < INET_ADDRSTRLEN && port < 65536 && |uuid| <= 255
    requires MacText(mac) && timeout <= 32767
    requires i < |responses| && responses[i].text == SentReply(ip, port, uuid, true, mac, timeout)
    ensures LocationOf(ip, Decimal(port)) in Responding(responses)
  {
    hide SentReply, ReplyText, LocationIn, LocationOf, IndexOf, SearchTarget, WakeupText, Contains, MacText, DottedText;
    var reply := responses[i].text;
    ReplyRoundTrip(ip, port, uuid, mac, timeout);
    MacLength(mac);
    NeverTruncated(ip, port, uuid, mac, timeout);
    TargetInReply(ip, Decimal(port), uuid, WakeupText(mac, Decimal(timeout)));
    ContainsIsFound(reply, SearchTarget());
    assert FromDialServer(reply);
  }

  /** The entry of this server then holds what it printed: its location, and, for a uuid that does
      not mislead the client, its hardware address and its timeout. */
  lemma EntryIsAsPrinted(ip: string, port: nat, uuid: string, mac: string, timeout: nat, r: Response, s: DialServer)
    requires DottedText(ip) && |ip| < INET_ADDRSTRLEN && port < 65536 && |uuid| <= 255
    requires MacText(mac) && timeout <= 32767
    requires r.text == SentReply(ip, port, uuid, true, mac, timeout) && Describes(r, s)
    ensures s.location == LocationOf(ip, Decimal(port)) && s.appsUrl == r.appsUrl
    ensures MacComesBack(uuid, mac) ==> s.macAddr == mac
    ensures TimeoutComesBack(uuid, timeout) ==> s.wakeUpTimeout == timeout
  {
    hide SentReply, LocationIn, LocationOf, GetMac, GetTimeout, MacText, DottedText, MacComesBack, TimeoutComesBack;
    ReplyRoundTrip(ip, port, uuid, mac, timeout);
  }

  /** A round in which the reply of a server that was not known arrives, before any other response
      with its location: the client knows it as it printed itself. */
  method DiscoverServer(d: DialDiscovery, ip: string, port: nat, uuid: string, mac: string, timeout: nat,
                        responses: seq<Response>, i: nat)
    returns (s: DialServer)
    requires d.Valid() && DottedText(ip) && |ip| < INET_ADDRSTRLEN && port < 65536 && |uuid| <= 255
    requires MacText(mac) && timeout <= 32767 && LocationOf(ip, Decimal(port)) !in d.mServerMap
    requires i < |responses| && responses[i].text == SentReply(ip, port, uuid, true, mac, timeout)
    requires forall j :: 0 <= j < i ==> !IsFrom(responses[j], LocationOf(ip, Decimal(port)))
    modifies d, d.mServerMap.Values
    ensures d.Valid() && LocationOf(ip, Decimal(port)) in d.mServerMap
    ensures s == d.mServerMap[LocationOf(ip, Decimal(port))]
    ensures s.location == LocationOf(ip, Decimal(port)) && s.appsUrl == responses[i].appsUrl && s.found
    ensures MacComesBack(uuid, mac) ==> s.macAddr == mac
    ensures TimeoutComesBack(uuid, timeout) ==> s.wakeUpTimeout == timeout
  {
    hide SentReply, LocationOf, MacText, DottedText, MacComesBack, TimeoutComesBack, Describes, Responding, IsFrom;
    ghost var known := d.mServerMap;
    d.Round(responses);
    ServerIsDiscovered(ip, port, uuid, mac, timeout, responses, i);
    var location := LocationOf(ip, Decimal(port));
    s := d.mServerMap[location];
    assert location !in known;
    ghost var k: nat :| FirstFrom(responses, location, k) && Describes(responses[k], s);
    ReplyIsFrom(ip, port, uuid, mac, timeout, responses[i]);
    assert k == i;
    EntryIsAsPrinted(ip, port, uuid, mac, timeout, responses[i], s);
  }

  lemma ReplyIsFrom(ip: string, port: nat, uuid: string, mac: string, timeout: nat, r: Response)
    requires DottedText(ip) && |ip| < INET_ADDRSTRLEN && port < 65536 && |uuid| <= 255
    requires MacText(mac) && timeout <= 32767 && r.text == SentReply(ip, port, uuid, true, mac, timeout)
    ensures IsFrom(r, LocationOf(ip, Decimal(port)))
  {
    hide SentReply, ReplyText, LocationIn, LocationOf, IndexOf, SearchTarget, WakeupText, Contains, MacText, DottedText;
    ReplyRoundTrip(ip, port, uuid, mac, timeout);
    MacLength(mac);
    NeverTruncated(ip, port, uuid, mac, timeout);
    TargetInReply(ip, Decimal(port), uuid, WakeupText(mac, Decimal(timeout)));
    ContainsIsFound(r.text, SearchTarget());
  }

  lemma ContainsIsFound(s: string, w: string)
    requires Contains(s, w)
    ensures IndexOf(s, w).Some?
  {
    hide IndexOf;
    IndexOfFinds(s, w);
    var k: nat :| OccursAt(s, w, k);
    OccursIsPrefix(s, w, k);
  }
}
