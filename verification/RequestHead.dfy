/**
 Finding the end of an HTTP head in a byte stream that arrives in pieces
 (get_request_len and read_request in server/mongoose.c).
 */
module RequestHead {
  import opened CStrings
  import opened Numbers

  // ------------------------------------------------------------- the socket

  // The bytes a peer will still send and the sizes of the pieces in which recv
  // will hand them over; `broken` says whether the stream ends with an error.
  datatype Feed = Feed(data: string, sizes: seq<nat>, broken: bool)

  // How many bytes recv(want) returns: at least one while there is data.
  function PullSize(f: Feed, want: nat): (n: nat)
    ensures n <= want && n <= |f.data|
    ensures n == 0 <==> want == 0 || f.data == []
  {
    var most := Min(want, |f.data|);
    if f.sizes == [] || f.sizes[0] > most then most
    else if f.sizes[0] == 0 then Min(1, most)
    else f.sizes[0]
  }

  function Pulled(f: Feed, want: nat): Feed {
    Feed(f.data[PullSize(f, want)..], if f.sizes == [] then [] else f.sizes[1..], f.broken)
  }

  class Socket {
    var feed: Feed

    constructor (feed: Feed)
      ensures this.feed == feed
    {
      this.feed := feed;
    }

    // recv into buf[off..off+len]; zero or less at the end of the stream.
    method Pull(buf: array<char>, off: nat, len: nat) returns (n: int)
      requires off + len <= buf.Length
      modifies this, buf
      ensures feed == Pulled(old(feed), len)
      ensures var k := PullSize(old(feed), len);
        && (k > 0 ==> n == k)
        && (k == 0 ==> n <= 0)
        && Copied(old(buf[..]), buf[..], off, old(feed.data)[..k])
    {
      var k := PullSize(feed, len);
      var chunk := feed.data[..k];
      forall i | 0 <= i < k {
        buf[off + i] := chunk[i];
      }
      n := if k == 0 && feed.broken then -1 else k;
      feed := Pulled(feed, len);
    }
  }

  // ------------------------------------------------------- the end of a head

  // Control characters are refused; bytes from 128 up are not.
  predicate Disallowed(c: char) {
    !IsPrint(c) && c != '\r' && c != '\n' && c as int < 128
  }

  /** By their codes: all below 32 but line feed and carriage return, and 127. */
  lemma DisallowedCodes(c: char)
    ensures Disallowed(c) <==> (c as int < 32 && c as int != 10 && c as int != 13) || c as int == 127
  {
  }

  // The scan of get_request_len from position i, with the length found so far.
  function Scan(s: string, i: nat, len: int): (r: int)
    decreases |s| - i
  {
    if i + 1 >= |s| then len
    else if Disallowed(s[i]) then Scan(s, i + 1, -1)
    else if s[i] == '\n' && s[i + 1] == '\n' then i + 2
    else if s[i] == '\n' && i + 2 < |s| && s[i + 1] == '\r' && s[i + 2] == '\n' then i + 3
    else Scan(s, i + 1, len)
  }

  function RequestLen(s: string): int { Scan(s, 0, 0) }

  method GetRequestLen(buf: array<char>, buflen: nat) returns (len: int)
    requires buflen <= buf.Length
    ensures len == RequestLen(buf[..buflen])
  {
    len := 0;
    var s := 0;
    ghost var b := buf[..buflen];
    while len <= 0 && s + 1 < buflen
      invariant len > 0 ==> RequestLen(b) == len
      invariant len <= 0 ==> RequestLen(b) == Scan(b, s, len)
      decreases buflen - s
    {
      if Disallowed(buf[s]) {
        len := -1;
      } else if buf[s] == '\n' && buf[s + 1] == '\n' {
        len := s + 2;
      } else if buf[s] == '\n' && s + 2 < buflen && buf[s + 1] == '\r' && buf[s + 2] == '\n' {
        len := s + 3;
      }
      s := s + 1;
    }
  }

  // A blank line starts right after position i: "\n\n" or "\n\r\n".
  ghost predicate BlankLineAt(s: string, i: nat) {
    || (i + 1 < |s| && s[i] == '\n' && s[i + 1] == '\n')
    || (i + 2 < |s| && s[i] == '\n' && s[i + 1] == '\r' && s[i + 2] == '\n')
  }

  ghost function BlankLineEnd(s: string, i: nat): nat
    requires BlankLineAt(s, i)
  {
    if s[i + 1] == '\n' then i + 2 else i + 3
  }

  // The head of s is its first n bytes: they end with the first blank line of s.
  ghost predicate IsHead(s: string, n: nat) {
    exists i: nat :: FirstBlankLine(s, i) && n == BlankLineEnd(s, i)
  }

  ghost predicate FirstBlankLine(s: string, i: nat) {
    BlankLineAt(s, i) && forall j: nat :: j < i ==> !BlankLineAt(s, j)
  }

  ghost predicate HasHead(s: string) {
    exists i: nat :: BlankLineAt(s, i)
  }

  // Some byte of s[..n] is a disallowed control character.
  ghost predicate Spoiled(s: string, n: int) {
    exists i :: 0 <= i < n && i < |s| && Disallowed(s[i])
  }

  lemma {:induction false} ScanFinds(s: string, i: nat, len: int)
    requires len == 0 || len == -1
    requires forall j: nat :: j < i ==> !BlankLineAt(s, j)
    requires len == -1 <==> Spoiled(s, Min(i, |s| - 1))
    ensures var r := Scan(s, i, len);
      && (r > 0 <==> HasHead(s)) && (r > 0 ==> IsHead(s, r))
      && (r <= 0 ==> r == if Spoiled(s, |s| - 1) then -1 else 0)
    decreases |s| - i
  {
    if i + 1 >= |s| {
      assert !HasHead(s);
    } else if Disallowed(s[i]) {
      ScanFinds(s, i + 1, -1);
    } else if BlankLineAt(s, i) {
      assert FirstBlankLine(s, i);
    } else {
      assert Spoiled(s, i + 1) ==> Spoiled(s, i);
      ScanFinds(s, i + 1, len);
    }
  }

  /** What get_request_len returns, on every buffer: the length of the head if there is
      one; else -1 if a byte before the last is disallowed; else 0. */
  lemma RequestLenMeaning(s: string)
    ensures RequestLen(s) > 0 <==> HasHead(s)
    ensures RequestLen(s) > 0 ==> IsHead(s, RequestLen(s))
    ensures RequestLen(s) <= 0 ==> RequestLen(s) == if Spoiled(s, |s| - 1) then -1 else 0
  {
    ScanFinds(s, 0, 0);
  }

  lemma HeadIsUnique(s: string, m: nat, n: nat)
    requires IsHead(s, m) && IsHead(s, n)
    ensures m == n
  {
  }

  // s has the head of length n exactly when each prefix that is long enough has it.
  lemma HeadOfPrefix(s: string, k: nat, n: nat)
    requires k <= |s|
    ensures IsHead(s[..k], n) <==> IsHead(s, n) && n <= k
  {
    assert forall i: nat :: BlankLineAt(s[..k], i) <==> BlankLineAt(s, i) && BlankLineEnd(s, i) <= k;
    if IsHead(s, n) && n <= k {
      var i: nat :| FirstBlankLine(s, i) && n == BlankLineEnd(s, i);
      assert FirstBlankLine(s[..k], i);
    }
    if IsHead(s[..k], n) {
      var i: nat :| FirstBlankLine(s[..k], i) && n == BlankLineEnd(s[..k], i);
      assert FirstBlankLine(s, i);
    }
  }

  lemma HeadBounds(s: string, n: nat)
    requires IsHead(s, n)
    ensures 2 <= n <= |s|
  {
  }

  /** A length once found is never revised: it is found again on every longer buffer. */
  lemma RequestLenIsStable(s: string, k: nat)
    requires k <= |s|
    ensures RequestLen(s[..k]) > 0 ==> RequestLen(s) == RequestLen(s[..k])
    ensures 0 < RequestLen(s) <= k ==> RequestLen(s[..k]) == RequestLen(s)
    ensures RequestLen(s) > k ==> RequestLen(s[..k]) <= 0
  {
    RequestLenMeaning(s);
    RequestLenMeaning(s[..k]);
    if RequestLen(s[..k]) > 0 {
      HeadOfPrefix(s, k, RequestLen(s[..k]));
      HeadIsUnique(s, RequestLen(s[..k]), RequestLen(s));
    }
    if 0 < RequestLen(s) <= k {
      HeadOfPrefix(s, k, RequestLen(s));
      HeadIsUnique(s[..k], RequestLen(s[..k]), RequestLen(s));
    }
  }

  // --------------------------------------------------- reading from a socket

  datatype Reading = Reading(requestLen: int, buf: string, feed: Feed)

  // read_request with `buf` already in the buffer: what it returns, what the buffer
  // then holds, and what the socket still has.
  function ReadLoop(buf: string, feed: Feed, bufsiz: nat): Reading
    requires |buf| <= bufsiz
    decreases bufsiz - |buf|
  {
    var n := PullSize(feed, bufsiz - |buf|);
    if |buf| == bufsiz || n == 0 then
      Reading(0, buf, if |buf| == bufsiz then feed else Pulled(feed, bufsiz - |buf|))
    else
      var more := buf + feed.data[..n];
      var rest := Pulled(feed, bufsiz - |buf|);
      if RequestLen(more) != 0 then Reading(RequestLen(more), more, rest)
      else ReadLoop(more, rest, bufsiz)
  }

  method ReadRequest(sock: Socket, buf: array<char>, bufsiz: nat, nread0: nat)
    returns (requestLen: int, nread: nat)
    requires nread0 <= bufsiz <= buf.Length
    modifies sock, buf
    ensures nread <= bufsiz
    ensures Reading(requestLen, buf[..nread], sock.feed) == ReadLoop(old(buf[..nread0]), old(sock.feed), bufsiz)
  {
    requestLen, nread := 0, nread0;
    while nread < bufsiz && requestLen == 0
      invariant nread <= bufsiz
      invariant requestLen == 0 ==>
        ReadLoop(buf[..nread], sock.feed, bufsiz) == ReadLoop(old(buf[..nread0]), old(sock.feed), bufsiz)
      invariant requestLen != 0 ==>
        Reading(requestLen, buf[..nread], sock.feed) == ReadLoop(old(buf[..nread0]), old(sock.feed), bufsiz)
      decreases bufsiz - nread
    {
      ghost var was, had, feed := buf[..], buf[..nread], sock.feed;
      var n := sock.Pull(buf, nread, bufsiz - nread);
      ghost var k := PullSize(feed, bufsiz - nread);
      CopiedIs(was, buf[..], nread, feed.data[..k]);
      assert buf[..nread + k] == had + feed.data[..k];
      if n <= 0 {
        break;
      }
      nread := nread + n;
      requestLen := GetRequestLen(buf, nread);
    }
  }

  // The bytes read_request can ever see: the stream, cut to the buffer.
  function Window(data: string, bufsiz: nat): string {
    data[..Min(bufsiz, |data|)]
  }

  /** Nothing is lost and nothing is read twice: buffer and socket together are the stream. */
  lemma {:induction false} ReadLoopConserves(buf: string, feed: Feed, bufsiz: nat)
    requires |buf| <= bufsiz
    ensures var r := ReadLoop(buf, feed, bufsiz);
      && r.buf + r.feed.data == buf + feed.data
      && |r.buf| <= bufsiz
      && (RequestLen(buf) == 0 ==> r.requestLen == RequestLen(r.buf))
    decreases bufsiz - |buf|
  {
    var n := PullSize(feed, bufsiz - |buf|);
    if |buf| < bufsiz && n > 0 {
      var more := buf + feed.data[..n];
      var rest := Pulled(feed, bufsiz - |buf|);
      assert more + rest.data == buf + feed.data;
      if RequestLen(more) == 0 {
        ReadLoopConserves(more, rest, bufsiz);
      }
    }
  }

  // read_request gives up for a full buffer or for the end of the stream.
  lemma {:induction false} ReadLoopEnds(buf: string, feed: Feed, bufsiz: nat)
    requires |buf| <= bufsiz && RequestLen(buf) == 0
    ensures var r := ReadLoop(buf, feed, bufsiz);
      r.requestLen == 0 ==> |r.buf| == bufsiz || r.feed.data == ""
    decreases bufsiz - |buf|
  {
    var n := PullSize(feed, bufsiz - |buf|);
    if |buf| < bufsiz && n > 0 {
      var more := buf + feed.data[..n];
      if RequestLen(more) == 0 {
        ReadLoopEnds(more, Pulled(feed, bufsiz - |buf|), bufsiz);
      }
    }
  }

  // Once started on a stream, read_request returns the length of the window's head,
  // or, if the window has none, what get_request_len says of the whole window.
  lemma {:induction false} ReadLoopOnWindow(data: string, buf: string, feed: Feed, bufsiz: nat)
    requires |buf| <= bufsiz && buf + feed.data == data && RequestLen(buf) == 0
    ensures var r := ReadLoop(buf, feed, bufsiz).requestLen;
      var w := RequestLen(Window(data, bufsiz));
      && (w <= 0 ==> r == w)
      && (w > 0 ==> r == w || (r == -1 && Spoiled(data, w)))
    decreases bufsiz - |buf|
  {
    var w := Window(data, bufsiz);
    var n := PullSize(feed, bufsiz - |buf|);
    if |buf| == bufsiz || n == 0 {
      assert w == buf;
    } else {
      var more := buf + feed.data[..n];
      assert more == w[..|more|];
      RequestLenIsStable(w, |more|);
      if RequestLen(more) == 0 {
        ReadLoopOnWindow(data, more, Pulled(feed, bufsiz - |buf|), bufsiz);
      } else if RequestLen(more) < 0 {
        RequestLenMeaning(more);
        SpoiledPrefix(w, |more|);
        assert RequestLen(w) > 0 ==> Spoiled(data, RequestLen(w)) by {
          assert forall i :: 0 <= i < |w| ==> w[i] == data[i];
        }
      }
    }
  }

  // A refused prefix: the whole buffer is refused too, or a disallowed byte is in its head.
  lemma SpoiledPrefix(w: string, k: nat)
    requires k <= |w| && RequestLen(w[..k]) == -1
    ensures RequestLen(w) <= 0 ==> RequestLen(w) == -1
    ensures RequestLen(w) > 0 ==> Spoiled(w, RequestLen(w))
  {
    RequestLenMeaning(w[..k]);
    RequestLenMeaning(w);
    RequestLenIsStable(w, k);
    var i :| 0 <= i < k - 1 && Disallowed(w[..k][i]);
    assert Disallowed(w[i]);
  }

  // ------------------------------------------------------------ segmentation

  // What read_request returns for a fresh connection whose peer sends `data`.
  function HeadFound(data: string, sizes: seq<nat>, broken: bool, bufsiz: nat): int {
    ReadLoop("", Feed(data, sizes, broken), bufsiz).requestLen
  }

  // The answer is the same however the network cuts the stream.
  ghost predicate SegmentationFree(data: string, broken: bool, bufsiz: nat) {
    forall a: seq<nat>, b: seq<nat> :: HeadFound(data, a, broken, bufsiz) == HeadFound(data, b, broken, bufsiz)
  }

  // One piece per recv, and one byte per recv.
  lemma WholeDelivery(data: string, broken: bool, bufsiz: nat)
    ensures HeadFound(data, [], broken, bufsiz) == RequestLen(Window(data, bufsiz))
  {
    var more := Window(data, bufsiz);
    if more != [] {
      assert data[..PullSize(Feed(data, [], broken), bufsiz)] == more;
      assert "" + more == more;
      if RequestLen(more) == 0 {
        ReadLoopOnWindow(data, "", Feed(data, [], broken), bufsiz);
      }
    }
  }

  function Ones(n: nat): seq<nat> { seq(n, _ => 1) }

  lemma {:induction false} BytewiseDelivery(data: string, broken: bool, bufsiz: nat, k: nat, d: nat)
    requires k <= d + 2 <= |data| && d + 2 <= bufsiz
    requires RequestLen(data[..k]) == 0 && RequestLen(data[..d + 2]) == -1
    requires forall j :: k <= j < d + 2 ==> RequestLen(data[..j]) == 0
    ensures ReadLoop(data[..k], Feed(data[k..], Ones(d + 2 - k), broken), bufsiz).requestLen == -1
    decreases d - k
  {
    if k < d + 2 {
      var feed := Feed(data[k..], Ones(d + 2 - k), broken);
      assert PullSize(feed, bufsiz - k) == 1;
      assert data[..k] + feed.data[..1] == data[..k + 1];
      assert Pulled(feed, bufsiz - k) == Feed(data[k + 1..], Ones(d + 2 - (k + 1)), broken);
      if k + 1 < d + 2 {
        BytewiseDelivery(data, broken, bufsiz, k + 1, d);
      }
    }
  }

  lemma FirstSpoiler(data: string, n: int) returns (d: nat)
    requires Spoiled(data, n)
    ensures d < n && d < |data| && Disallowed(data[d])
    ensures forall j :: 0 <= j < d ==> !Disallowed(data[j])
  {
    var i :| 0 <= i < n && i < |data| && Disallowed(data[i]);
    d := 0;
    while !Disallowed(data[d])
      invariant d <= i
      invariant forall j :: 0 <= j < d ==> !Disallowed(data[j])
      decreases i - d
    {
      d := d + 1;
    }
  }

  // Before the blank line is complete, a prefix is refused as soon as it goes past d.
  lemma SpoiledPrefixLens(w: string, d: nat, k: nat)
    requires 0 < RequestLen(w) && d + 2 < RequestLen(w) <= |w| && Disallowed(w[d])
    requires forall j :: 0 <= j < d ==> !Disallowed(w[j])
    requires k <= d + 2
    ensures RequestLen(w[..k]) == if k == d + 2 then -1 else 0
  {
    RequestLenIsStable(w, k);
    RequestLenMeaning(w[..k]);
    if k == d + 2 {
      assert Disallowed(w[..k][d]);
    }
  }

  // The first disallowed byte of a spoiled head stands well before its end.
  lemma FirstSpoilerOfHead(w: string) returns (d: nat)
    requires RequestLen(w) > 0 && Spoiled(w, RequestLen(w))
    ensures d + 2 < RequestLen(w) <= |w| && Disallowed(w[d])
    ensures forall j :: 0 <= j < d ==> !Disallowed(w[j])
  {
    RequestLenMeaning(w);
    HeadBounds(w, RequestLen(w));
    d := FirstSpoiler(w, RequestLen(w));
    var i: nat :| FirstBlankLine(w, i) && RequestLen(w) == BlankLineEnd(w, i);
  }

  lemma SpoiledHeadDepends(data: string, broken: bool, bufsiz: nat)
    requires var w := RequestLen(Window(data, bufsiz)); w > 0 && Spoiled(data, w)
    ensures !SegmentationFree(data, broken, bufsiz)
  {
    var w := Window(data, bufsiz);
    RequestLenMeaning(w);
    HeadBounds(w, RequestLen(w));
    assert forall i :: 0 <= i < |w| ==> w[i] == data[i];
    var d := FirstSpoilerOfHead(w);
    forall k: nat | k <= d + 2
      ensures RequestLen(data[..k]) == if k == d + 2 then -1 else 0
    {
      assert data[..k] == w[..k];
      SpoiledPrefixLens(w, d, k);
    }
    BytewiseDelivery(data, broken, bufsiz, 0, d);
    assert data[..0] == "" && data[0..] == data;
    WholeDelivery(data, broken, bufsiz);
    assert HeadFound(data, Ones(d + 2), broken, bufsiz) != HeadFound(data, [], broken, bufsiz);
  }

  /** Head detection is independent of TCP segmentation exactly when the part of the
      stream that fits the buffer has no head, or no disallowed byte inside its head. */
  lemma SegmentationTheorem(data: string, broken: bool, bufsiz: nat)
    ensures var w := RequestLen(Window(data, bufsiz));
      SegmentationFree(data, broken, bufsiz) <==> w <= 0 || !Spoiled(data, w)
  {
    var w := RequestLen(Window(data, bufsiz));
    if w > 0 && Spoiled(data, w) {
      SpoiledHeadDepends(data, broken, bufsiz);
    } else {
      forall a: seq<nat>, b: seq<nat>
        ensures HeadFound(data, a, broken, bufsiz) == HeadFound(data, b, broken, bufsiz)
      {
        ReadLoopOnWindow(data, "", Feed(data, a, broken), bufsiz);
        ReadLoopOnWindow(data, "", Feed(data, b, broken), bufsiz);
      }
    }
  }

  lemma DropOfConcat(a: string, b: string, n: nat)
    requires n <= |a|
    ensures (a + b)[n..] == a[n..] + b && (a + b)[..n] == a[..n]
  {
  }

  /** What a successful read_request leaves: the head of the stream, found where it is,
      and every byte after it either in the buffer or still in the socket. */
  lemma HeadReceived(feed: Feed, bufsiz: nat)
    requires ReadLoop("", feed, bufsiz).requestLen > 0
    ensures var r := ReadLoop("", feed, bufsiz);
      && r.requestLen <= |r.buf| <= bufsiz
      && IsHead(feed.data, r.requestLen)
      && r.requestLen <= |feed.data|
      && r.buf[..r.requestLen] == feed.data[..r.requestLen]
      && r.buf[r.requestLen..] + r.feed.data == feed.data[r.requestLen..]
  {
    var r := ReadLoop("", feed, bufsiz);
    ReadLoopConserves("", feed, bufsiz);
    assert r.buf + r.feed.data == feed.data;
    RequestLenMeaning(r.buf);
    HeadBounds(r.buf, r.requestLen);
    assert r.buf == feed.data[..|r.buf|];
    HeadOfPrefix(feed.data, |r.buf|, r.requestLen);
    DropOfConcat(r.buf, r.feed.data, r.requestLen);
  }

  lemma NoHeadInWindow(data: string, bufsiz: nat, n: nat)
    requires IsHead(data, n) && n > bufsiz && !Spoiled(data, bufsiz - 1)
    ensures bufsiz < |data| && RequestLen(Window(data, bufsiz)) == 0
  {
    hide Scan;
    HeadBounds(data, n);
    var w := data[..bufsiz];
    RequestLenMeaning(w);
    if RequestLen(w) > 0 {
      HeadOfPrefix(data, bufsiz, RequestLen(w));
      HeadIsUnique(data, n, RequestLen(w));
      assert false;
    }
    assert forall i :: 0 <= i < |w| ==> w[i] == data[i];
  }

  /** A head that does not fit the buffer, and has no disallowed byte in the part that does, is
      too large: the buffer is full and no head was found, however the stream is cut. */
  lemma LongHeadIsTooLarge(feed: Feed, bufsiz: nat, n: nat)
    requires IsHead(feed.data, n) && n > bufsiz && !Spoiled(feed.data, bufsiz - 1)
    ensures var r := ReadLoop("", feed, bufsiz); r.requestLen == 0 && |r.buf| == bufsiz
  {
    hide IsHead, Spoiled, ReadLoop, RequestLen;
    var r := ReadLoop("", feed, bufsiz);
    NoHeadInWindow(feed.data, bufsiz, n);
    assert "" + feed.data == feed.data && RequestLen("") == 0 by { NothingFound(); }
    ReadLoopOnWindow(feed.data, "", feed, bufsiz);
    ReadLoopEnds("", feed, bufsiz);
    ReadLoopConserves("", feed, bufsiz);
    assert r.feed.data == "" ==> r.buf == feed.data;
  }

  lemma NothingFound()
    ensures RequestLen("") == 0
  {
  }
}
