/**
 The address of a client, and which addresses count as the local host
 (request_handler in server/dial_server.c).
 */
module Peer {
  import opened Numbers

  type Octet = n: nat | n < 256

  // An IPv4 address (struct sockaddr_in).
  datatype Address = Address(a: Octet, b: Octet, c: Octet, d: Octet)

  // inet_ntop
  function Dotted(p: Address): string {
    Decimal(p.a) + ("." + (Decimal(p.b) + ("." + (Decimal(p.c) + ("." + Decimal(p.d))))))
  }

  const LOCALHOST := "127.0.0.1"

  // strncmp of the address's text with that of the local host, up to the length of the latter.
  predicate IsLocal(p: Address) {
    LOCALHOST <= Dotted(p)
  }

  // Two numbers before a dot are the same when the texts go on alike.
  lemma DottedPart(m: nat, n: nat, s: string, t: string)
    ensures Decimal(m) + ("." + s) <= Decimal(n) + ("." + t) <==> m == n && s <= t
  {
    var x, y := Decimal(m), Decimal(n);
    ReadsBack(m, "." + s);
    ReadsBack(n, "." + t);
    DecimalIsDigits(m);
    DecimalIsDigits(n);
    DotEnds(x, y, s, t);
    if x == y {
      ReadsBack(m, "");
      ReadsBack(n, "");
      assert (x + ("." + t))[|x| + 1..] == t;
      PrefixTail(x + ".", s, t);
      assert x + ("." + s) == (x + ".") + s && x + ("." + t) == (x + ".") + t;
    }
  }

  lemma PrefixTail(x: string, s: string, t: string)
    ensures x + s <= x + t <==> s <= t
  {
    if x + s <= x + t {
      assert (x + t)[|x|..|x| + |s|] == (x + s)[|x|..];
    }
    if s <= t {
      assert x + t == (x + s) + t[|s|..];
    }
  }

  lemma DotEnds(x: string, y: string, s: string, t: string)
    requires AllDigits(x) && AllDigits(y)
    ensures x + ("." + s) <= y + ("." + t) ==> x == y
  {
    var u, v := x + ("." + s), y + ("." + t);
    if u <= v {
      assert u[|x|] == '.' && v[|y|] == '.';
      assert forall k :: 0 <= k < |u| ==> u[k] == v[k];
      assert |x| == |y|;
      assert u[..|x|] == x && v[..|x|] == y;
    }
  }

  // The octets whose text starts with a one.
  lemma StartsWithOne(d: Octet)
    ensures "1" <= Decimal(d) <==> d == 1 || 10 <= d <= 19 || 100 <= d <= 199
  {
    var t := Decimal(d);
    if d >= 10 {
      var tens := Decimal(d / 10);
      assert t == tens + [Digit(d % 10)];
      if d >= 100 {
        assert tens == Decimal(d / 10 / 10) + [Digit(d / 10 % 10)];
        assert Decimal(d / 10 / 10) == [Digit(d / 10 / 10)];
      } else {
        assert tens == [Digit(d / 10)];
      }
    }
    assert "1" <= t <==> t[0] == '1';
  }

  lemma LocalhostText()
    ensures LOCALHOST == Decimal(127) + ("." + (Decimal(0) + ("." + (Decimal(0) + ("." + "1")))))
  {
    assert Decimal(127) == Decimal(12) + "7" && Decimal(12) == "1" + "2" && Decimal(0) == "0";
  }

  /** The addresses that pass for the local host: 127.0.0.1, and all that go on with more digits. */
  lemma LocalAddresses(p: Address)
    ensures IsLocal(p) <==> p.a == 127 && p.b == 0 && p.c == 0 && (p.d == 1 || 10 <= p.d <= 19 || 100 <= p.d <= 199)
  {
    hide Decimal;
    LocalhostText();
    var c, local := Decimal(p.c) + ("." + Decimal(p.d)), Decimal(0) + ("." + "1");
    DottedPart(127, p.a, Decimal(0) + ("." + local), Decimal(p.b) + ("." + c));
    DottedPart(0, p.b, local, c);
    DottedPart(0, p.c, "1", Decimal(p.d));
    StartsWithOne(p.d);
  }
}
