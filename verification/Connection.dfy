/**
 One HTTP connection (struct mg_connection in server/mongoose.c): receiving the head
 into the connection's buffer, and delivering the body, whose first bytes may already
 sit in that buffer and whose other bytes are still in the socket.
 */
module Connection {
  import opened CStrings
  import opened Numbers
  import opened RequestHead

  const MAX_REQUEST_SIZE := 4096
  const DISCARD_SIZE := 16384
  const INT_MAX := 0x7FFF_FFFF

  // The first `n` characters of s, or all of them.
  function Prefix(s: string, n: int): string {
    s[..Max(0, Min(n, |s|))]
  }

  // --------------------------------------------------------- the body, as a value

  // What is left to hand out: the bytes that came in with the head, the bytes still in
  // the socket, and how many of them Content-Length still allows (-1 when there is none).
  datatype Body = Body(inBuffer: string, inSocket: string, left: int) {
    // All bytes after the head that nobody has been given yet.
    function Unread(): string { inBuffer + inSocket }

    // Those that still belong to this request.
    function Pending(): (r: string)
      ensures |r| == Max(0, Min(left, |inBuffer| + |inSocket|))
    {
      Prefix(Unread(), left)
    }

    // What is left when n more bytes have been handed out: the buffer goes first.
    function After(n: nat): Body
      requires n <= |Unread()|
    {
      Body(inBuffer[Min(n, |inBuffer|)..], inSocket[Max(0, n - |inBuffer|)..], left - n)
    }
  }

  // The first bytes of two strings in a row, when all of the first is used up first.
  lemma Gather(a: string, b: string, m: nat, n: nat)
    requires m <= |a| && n <= |b| && (m == |a| || n == 0)
    ensures a[..m] + b[..n] == (a + b)[..m + n]
    ensures a[m..] + b[n..] == (a + b)[m + n..]
  {
  }

  lemma SliceSplit(s: string, lo: nat, n: nat, hi: nat)
    requires lo + n <= hi <= |s|
    ensures s[lo..hi][..n] == s[lo..lo + n] && s[lo..hi][n..] == s[lo + n..hi]
  {
  }

  lemma PrefixSplit(s: string, n: int, k: nat)
    requires k <= |Prefix(s, n)|
    ensures k <= |s| && Prefix(s, n)[..k] == s[..k]
    ensures Prefix(s[k..], n - k) == Prefix(s, n)[k..]
  {
  }

  // A read that takes `copied` bytes from the buffer and `pulled` from the socket.
  lemma ReadCounts(b: Body, len: nat, copied: nat, pulled: nat)
    requires b.left > 0 && copied == Min(Min(len, b.left), |b.inBuffer|)
    requires pulled == Min(Min(len, b.left) - copied, |b.inSocket|)
    ensures copied + pulled == Min(len, |b.Pending()|) <= |b.Unread()|
    ensures b.inBuffer[..copied] + b.inSocket[..pulled] == b.Pending()[..copied + pulled]
    ensures b.After(copied + pulled) == Body(b.inBuffer[copied..], b.inSocket[pulled..], b.left - copied - pulled)
  {
    Gather(b.inBuffer, b.inSocket, copied, pulled);
    PrefixSplit(b.Unread(), b.left, copied + pulled);
  }

  // The same with the destination: d0 before, d1 after the buffered bytes, d2 at the end.
  lemma ReadDone(b: Body, d0: string, d1: string, d2: string, off: nat, len: nat, copied: nat, pulled: nat)
    requires b.left > 0 && copied == Min(Min(len, b.left), |b.inBuffer|)
    requires pulled == Min(Min(len, b.left) - copied, |b.inSocket|)
    requires Copied(d0, d1, off, b.inBuffer[..copied]) && Copied(d1, d2, off + copied, b.inSocket[..pulled])
    ensures copied + pulled == Min(len, |b.Pending()|) <= |b.Unread()|
    ensures Copied(d0, d2, off, b.Pending()[..copied + pulled])
    ensures b.After(copied + pulled) == Body(b.inBuffer[copied..], b.inSocket[pulled..], b.left - copied - pulled)
  {
    ReadCounts(b, len, copied, pulled);
    CopiedTwice(d0, d1, d2, off, b.inBuffer[..copied], off + copied, b.inSocket[..pulled]);
  }

  /** Handing out n bytes of the body leaves exactly the rest of it, and the rest of the
      stream, and takes no byte from the socket while the buffer has one. */
  lemma AfterLeavesRest(b: Body, n: nat)
    requires n <= |b.Pending()|
    ensures n <= |b.Unread()|
    ensures b.After(n).Pending() == b.Pending()[n..]
    ensures b.After(n).Unread() == b.Unread()[n..]
    ensures |b.inSocket| - |b.After(n).inSocket| == Max(0, n - |b.inBuffer|)
  {
    Gather(b.inBuffer, b.inSocket, Min(n, |b.inBuffer|), Max(0, n - |b.inBuffer|));
    PrefixSplit(b.Unread(), b.left, n);
  }

  lemma AfterNothing(b: Body)
    ensures b.After(0) == b
  {
  }

  // Reading m bytes and then n is reading m + n.
  lemma AfterTwice(b: Body, m: nat, c: Body, n: nat, both: nat)
    requires m <= |b.Pending()| && m <= |b.Unread()| && c == b.After(m)
    requires n <= |c.Pending()| && both == m + n
    ensures n <= |c.Unread()| && both <= |b.Unread()| && c.After(n) == b.After(both)
    ensures |c.Pending()| == |b.Pending()| - m
  {
    AfterLeavesRest(b, m);
    AfterLeavesRest(c, n);
    var k := Min(m, |b.inBuffer|);
    assert k + Min(n, |c.inBuffer|) == Min(m + n, |b.inBuffer|);
  }

  lemma PrefixJoin(s: string, m: nat, n: nat)
    ensures Prefix(s, m) + Prefix(s[|Prefix(s, m)|..], n) == Prefix(s, m + n)
  {
  }

  // What a sequence of reads of these sizes hands out, one string per read: each time
  // the next bytes of the body, as many as were asked for and are left.
  function Reads(b: Body, sizes: seq<nat>): seq<string>
    decreases |sizes|
  {
    if sizes == [] then []
    else
      var n := Min(sizes[0], |b.Pending()|);
      [b.Pending()[..n]] + Reads(b.After(n), sizes[1..])
  }

  function Concat(parts: seq<string>): string {
    if parts == [] then "" else parts[0] + Concat(parts[1..])
  }

  function Sum(sizes: seq<nat>): nat {
    if sizes == [] then 0 else sizes[0] + Sum(sizes[1..])
  }

  /** Any sequence of reads, of any sizes, hands out the body from its start, each byte
      once and in order, until the sizes or the body are used up. */
  lemma {:induction false} ReadsDeliverBody(b: Body, sizes: seq<nat>)
    ensures Concat(Reads(b, sizes)) == Prefix(b.Pending(), Sum(sizes))
    decreases |sizes|
  {
    if sizes != [] {
      var n := Min(sizes[0], |b.Pending()|);
      AfterLeavesRest(b, n);
      ReadsDeliverBody(b.After(n), sizes[1..]);
      PrefixJoin(b.Pending(), sizes[0], Sum(sizes[1..]));
    }
  }

  // ------------------------------------------------------------- the connection

  datatype Outcome = HeadReady | RequestTooLarge | RemoteClosed

  class HttpConnection {
    const sock: Socket
    const buf: array<char>
    var requestLen: int
    var dataLen: int
    var contentLen: int       // Content-Length, or -1
    var consumedContent: int  // body bytes already handed out

    // The entry assertion of mg_read, and the buffer's bounds.
    ghost predicate Valid()
      reads this
    {
      && 0 <= requestLen <= dataLen <= buf.Length
      && consumedContent >= 0
      && ((contentLen == -1 && consumedContent == 0) || consumedContent <= contentLen)
    }

    // The bytes that came in with the head and have not been handed out.
    ghost function InBuffer(): string
      requires Valid()
      reads this, buf
    {
      if consumedContent < dataLen - requestLen then buf[requestLen + consumedContent..dataLen] else []
    }

    ghost function ToDeliver(): Body
      requires Valid()
      reads this, buf, sock
    {
      Body(InBuffer(), sock.feed.data, contentLen - consumedContent)
    }

    constructor (sock: Socket)
      ensures Valid() && this.sock == sock && fresh(buf) && buf.Length == MAX_REQUEST_SIZE
    {
      this.sock := sock;
      buf := new char[MAX_REQUEST_SIZE](_ => NUL);
      requestLen, dataLen, contentLen, consumedContent := 0, 0, -1, 0;
    }

    // reset_per_request_attributes, then get_request_len and read_request.
    method ReadHead()
      requires 0 <= dataLen
      modifies this, buf, sock
      ensures contentLen == -1 && consumedContent == 0 && 0 <= dataLen <= buf.Length
      ensures Reading(requestLen, buf[..dataLen], sock.feed) == ReadLoop("", old(sock.feed), buf.Length)
    {
      requestLen, dataLen, contentLen, consumedContent := 0, 0, -1, 0;
      requestLen := GetRequestLen(buf, dataLen);
      if requestLen == 0 {
        requestLen, dataLen := ReadRequest(sock, buf, buf.Length, dataLen);
      }
    }

    // process_new_connection up to the point where the head is complete.
    method ReceiveHead() returns (outcome: Outcome)
      requires Valid()
      modifies this, buf, sock
      ensures outcome == HeadReady <==> ReadLoop("", old(sock.feed), buf.Length).requestLen > 0
      ensures outcome == RequestTooLarge <==>
        var r := ReadLoop("", old(sock.feed), buf.Length); r.requestLen == 0 && |r.buf| == buf.Length
      ensures outcome == HeadReady ==>
        && Valid() && contentLen == -1
        && IsHead(old(sock.feed.data), requestLen)
        && buf[..requestLen] == old(sock.feed.data)[..requestLen]
        && ToDeliver().Unread() == old(sock.feed.data)[requestLen..]
    {
      ReadHead();
      if requestLen == 0 && dataLen == buf.Length {
        return RequestTooLarge;
      }
      if requestLen <= 0 {
        return RemoteClosed;
      }
      HeadReceived(old(sock.feed), buf.Length);
      assert buf[requestLen..dataLen] == buf[..dataLen][requestLen..];
      return HeadReady;
    }

    // The first half of mg_read: hand out bytes that came in with the head.
    method CopyBuffered(dst: array<char>, off: nat, len: nat) returns (n: nat)
      requires Valid() && dst != buf && off + len <= dst.Length
      requires len <= contentLen - consumedContent
      modifies this`consumedContent, dst
      ensures Valid() && n == Min(len, |old(InBuffer())|)
      ensures Copied(old(dst[..]), dst[..], off, old(InBuffer())[..n])
      ensures InBuffer() == old(InBuffer())[n..]
      ensures consumedContent == old(consumedContent) + n
      ensures n < len ==> dataLen - requestLen <= consumedContent
    {
      n := 0;
      var buffered := requestLen + consumedContent;
      var bufferedLen := dataLen - requestLen;
      if consumedContent < bufferedLen {
        bufferedLen := bufferedLen - consumedContent;
        if len < bufferedLen {
          bufferedLen := len;
        }
        forall i | 0 <= i < bufferedLen {
          dst[off + i] := buf[buffered + i];
        }
        SliceSplit(buf[..], buffered, bufferedLen, dataLen);
        consumedContent := consumedContent + bufferedLen;
        n := bufferedLen;
      }
    }

    // The second half of mg_read: read new data from the socket.
    method PullBody(dst: array<char>, off: nat, len: nat) returns (pulled: nat)
      requires Valid() && dst != buf && off + len <= dst.Length && len <= contentLen - consumedContent
      requires len > 0 ==> dataLen - requestLen <= consumedContent
      modifies this`consumedContent, sock, dst
      ensures Valid() && InBuffer() == old(InBuffer())
      ensures pulled == Min(len, |old(sock.feed.data)|)
      ensures Copied(old(dst[..]), dst[..], off, old(sock.feed.data)[..pulled])
      ensures sock.feed.data == old(sock.feed.data)[pulled..]
      ensures consumedContent == old(consumedContent) + pulled
    {
      pulled := 0;
      var left := len;
      ghost var data, d0 := sock.feed.data, dst[..];
      while left > 0
        invariant 0 <= left && pulled + left == len && consumedContent == old(consumedContent) + pulled
        invariant pulled <= |data| && sock.feed.data == data[pulled..]
        invariant Copied(d0, dst[..], off, data[..pulled])
      {
        ghost var d := dst[..];
        var n := sock.Pull(dst, off + pulled, left);
        if n <= 0 {
          break;
        }
        CopiedMore(d0, d, dst[..], off, data, pulled, n);
        consumedContent := consumedContent + n;
        pulled := pulled + n;
        left := left - n;
      }
    }

    // The part of mg_read that reads: clip the length, then both halves.
    method ReadBody(dst: array<char>, off: nat, len: nat) returns (nread: nat)
      requires Valid() && dst != buf && off + len <= dst.Length
      requires consumedContent < contentLen
      modifies this`consumedContent, sock, dst
      ensures Valid()
      ensures nread == Min(len, |old(ToDeliver()).Pending()|)
      ensures Copied(old(dst[..]), dst[..], off, old(ToDeliver()).Pending()[..nread])
      ensures nread <= |old(ToDeliver()).Unread()| && ToDeliver() == old(ToDeliver()).After(nread)
      ensures consumedContent == old(consumedContent) + nread
    {
      hide Copied;
      ghost var body, d0 := ToDeliver(), dst[..];
      var left := len;
      var toRead := contentLen - consumedContent;
      if toRead < left {
        left := toRead;
      }
      var copied := CopyBuffered(dst, off, left);
      ghost var d1 := dst[..];
      var pulled := PullBody(dst, off + copied, left - copied);
      nread := copied + pulled;
      ReadDone(body, d0, d1, dst[..], off, len, copied, pulled);
    }

    // mg_read into dst[off..off+len].
    method MgRead(dst: array<char>, off: nat, len: nat) returns (nread: nat)
      requires Valid() && dst != buf
      requires off + len <= dst.Length && len <= INT_MAX
      modifies this`consumedContent, sock, dst
      ensures Valid()
      ensures nread == Min(len, |old(ToDeliver()).Pending()|)
      ensures Copied(old(dst[..]), dst[..], off, old(ToDeliver()).Pending()[..nread])
      ensures nread <= |old(ToDeliver()).Unread()| && ToDeliver() == old(ToDeliver()).After(nread)
      ensures consumedContent == old(consumedContent) + nread
    {
      nread := 0;
      if consumedContent < contentLen {
        nread := ReadBody(dst, off, len);
      }
    }

    // One turn of the discard loop.
    method DiscardChunk(discardBuffer: array<char>, len: nat, ghost body: Body, ghost done: nat)
      returns (count: nat, ghost both: nat)
      requires Valid() && discardBuffer != buf && len <= discardBuffer.Length && len <= INT_MAX
      requires done <= |body.Pending()| && done <= |body.Unread()| && ToDeliver() == body.After(done)
      modifies this`consumedContent, sock, discardBuffer
      ensures Valid() && consumedContent == old(consumedContent) + count
      ensures both == done + count && count == Min(len, |body.Pending()| - done)
      ensures both <= |body.Unread()| && ToDeliver() == body.After(both)
    {
      ghost var before := ToDeliver();
      count := MgRead(discardBuffer, 0, len);
      both := done + count;
      AfterTwice(body, done, before, count, both);
    }

    // The discard loop, entered with `remaining` body bytes still allowed.
    method DiscardLoop() returns (ghost done: nat)
      requires Valid() && consumedContent < contentLen
      modifies this`consumedContent, sock
      ensures Valid() && consumedContent == old(consumedContent) + done
      ensures done == |old(ToDeliver()).Pending()| <= |old(ToDeliver()).Unread()|
      ensures ToDeliver() == old(ToDeliver()).After(done)
    {
      ghost var body := ToDeliver();
      done := 0;
      AfterNothing(body);
      var discardBuffer := new char[DISCARD_SIZE];
      var remaining := contentLen - consumedContent;
      while remaining > 0
        invariant Valid() && remaining == contentLen - consumedContent == body.left - done
        invariant done <= |body.Pending()| && done <= |body.Unread()| && ToDeliver() == body.After(done)
      {
        var pullLen := if remaining < DISCARD_SIZE then remaining else DISCARD_SIZE;
        var count;
        count, done := DiscardChunk(discardBuffer, pullLen, body, done);
        if count <= 0 {
          break;
        }
        remaining := remaining - count;
      }
    }

    // discard_current_request_from_buffer: reads on until the body is used up.
    method DiscardCurrentRequest()
      requires Valid()
      modifies this`consumedContent, sock
      ensures Valid()
      ensures var body := old(ToDeliver()); var n := |body.Pending()|;
        n <= |body.Unread()| && ToDeliver() == body.After(n) && consumedContent == old(consumedContent) + n
      ensures ToDeliver().Pending() == ""
      ensures contentLen != -1 ==> consumedContent == contentLen || sock.feed.data == ""
    {
      ghost var body := ToDeliver();
      AfterNothing(body);
      if contentLen != -1 && consumedContent < contentLen {
        ghost var done := DiscardLoop();
      }
      DiscardedAll(body);
    }
  }

  lemma DiscardedAll(b: Body)
    ensures var n := |b.Pending()|;
      && n <= |b.Unread()| && b.After(n).Pending() == ""
      && (b.left > n ==> b.After(n).inSocket == "")
  {
    AfterLeavesRest(b, |b.Pending()|);
  }

  // One more piece of data copied behind the first n bytes of it.
  lemma CopiedMore(d0: string, d1: string, d2: string, off: nat, data: string, n: nat, k: nat)
    requires n + k <= |data| && off + n + k <= |d0|
    requires Copied(d0, d1, off, data[..n]) && Copied(d1, d2, off + n, data[n..][..k])
    ensures Copied(d0, d2, off, data[..n + k]) && data[n..][k..] == data[n + k..]
  {
    assert data[..n] + data[n..][..k] == data[..n + k];
    CopiedTwice(d0, d1, d2, off, data[..n], off + n, data[n..][..k]);
  }
}
