/** Numbers in text, and ngx_inet_addr of src/core/ngx_inet.c. */
module InetText {
  import opened Basics

  const NONE := 0xffff_ffff

  function Digit(d: int): char
    requires 0 <= d < 16
  {
    if d < 10 then (d + '0' as int) as char else (d - 10 + 'a' as int) as char
  }

  // A number in base 10 or 16 without leading zeros, as "%ud" and "%xd" print it.
  function Number(n: nat, base: int): (s: string)
    requires base == 10 || base == 16
    ensures |s| >= 1 && (n < base <==> |s| == 1)
  {
    if n < base then [Digit(n)] else Number(n / base, base) + [Digit(n % base)]
  }

  lemma OneMoreDigit(k: nat, base: int)
    requires (base == 10 || base == 16) && k >= base
    ensures |Number(k, base)| == 1 + |Number(k / base, base)|
  {
  }

  lemma WordDigits(w: nat)
    requires w < 65536
    ensures |Number(w, 16)| <= 4
  {
    if w >= 16 { OneMoreDigit(w, 16); }
    if w >= 256 { OneMoreDigit(w / 16, 16); }
    if w >= 4096 { OneMoreDigit(w / 16 / 16, 16); }
  }

  lemma ByteDigits(k: nat)
    requires k < 256
    ensures |Number(k, 10)| <= 3
  {
    if k >= 10 { OneMoreDigit(k, 10); }
    if k >= 100 { OneMoreDigit(k / 10, 10); }
  }

  // The value of a decimal digit, or -1.
  function Decimal(c: char): int { if '0' <= c <= '9' then c as int - '0' as int else -1 }

  // ---- ngx_inet_addr ----

  // From the characters left, with the octet and the address so far and the dots seen.
  function Scan(text: string, addr: nat, octet: nat, n: nat): (r: nat) {
    if text == "" then (if n == 3 then (addr * 256 + octet) % 0x1_0000_0000 else NONE)
    else if Decimal(text[0]) >= 0 then
      var o := octet * 10 + Decimal(text[0]);
      if o > 255 then NONE else Scan(text[1..], addr, o, n)
    else if text[0] == '.' then Scan(text[1..], (addr * 256 + octet) % 0x1_0000_0000, 0, n + 1)
    else NONE
  }

  // The number of an address; NONE for any other text, and for 255.255.255.255.
  method InetAddr(text: string) returns (r: nat)
    ensures r == Scan(text, 0, 0, 0)
    ensures r == if Address(text) then (var l := Parts(text); Joined(Value(l[0], 0), Value(l[1], 0), Value(l[2], 0), Value(l[3], 0))) else NONE
  {
    AddressRead(text);
    var addr, octet, n := 0, 0, 0;
    var p := 0;
    while p < |text|
      invariant 0 <= p <= |text| && 0 <= addr && 0 <= octet && 0 <= n
      invariant Scan(text[p..], addr, octet, n) == Scan(text, 0, 0, 0)
    {
      var c := text[p];
      assert text[p..][0] == c && text[p..][1..] == text[p + 1..];
      p := p + 1;
      if '0' <= c <= '9' {
        octet := octet * 10 + (c as int - '0' as int);
        if octet > 255 {
          return NONE;
        }
        continue;
      }
      if c == '.' {
        addr := (addr * 256 + octet) % 0x1_0000_0000;
        octet := 0;
        n := n + 1;
        continue;
      }
      return NONE;
    }
    assert text[p..] == "";
    if n == 3 {
      return (addr * 256 + octet) % 0x1_0000_0000;
    }
    return NONE;
  }

  // ---- the texts that are read ----

  // Up to the first dot, or the whole text.
  function Cut(text: string): (k: nat)
    ensures k <= |text| && (k < |text| ==> text[k] == '.')
  {
    if text == "" || text[0] == '.' then 0 else 1 + Cut(text[1..])
  }

  // The parts between the dots.
  function Parts(text: string): (l: seq<string>)
    ensures |l| >= 1
    decreases |text|
  {
    var k := Cut(text);
    if k == |text| then [text] else [text[..k]] + Parts(text[k + 1..])
  }

  predicate Digits(p: string) { forall i :: 0 <= i < |p| ==> Decimal(p[i]) >= 0 }

  // The decimal value of p, with o before it; a part without digits is 0.
  function Value(p: string, o: nat): (v: nat)
    requires Digits(p)
    ensures v >= o
  {
    if p == "" then o else Value(p[1..], o * 10 + Decimal(p[0]))
  }

  predicate Octet(p: string) { Digits(p) && Value(p, 0) < 256 }

  // Three dots, and digits between them that make octets. Parts may be empty or have leading zeros.
  predicate Address(text: string) {
    var l := Parts(text);
    |l| == 4 && Octet(l[0]) && Octet(l[1]) && Octet(l[2]) && Octet(l[3])
  }

  // The digits up to the first dot.
  lemma {:induction false} ScanPart(text: string, addr: nat, octet: nat, n: nat)
    requires octet < 256
    ensures var k := Cut(text); var p := text[..k];
      Scan(text, addr, octet, n) ==
        if !Digits(p) || Value(p, octet) > 255 then NONE
        else Scan(text[k..], addr, Value(p, octet), n)
    decreases |text|
  {
    var k := Cut(text);
    if k > 0 {
      var p := text[..k];
      assert p[0] == text[0] && p[1..] == text[1..][..k - 1] && text[1..][k - 1..] == text[k..];
      if Decimal(text[0]) < 0 {
        assert !Digits(p);
      } else {
        assert Digits(p) <==> Digits(p[1..]) by { DigitsFirst(p); }
        var o := octet * 10 + Decimal(text[0]);
        if o <= 255 { ScanPart(text[1..], addr, o, n); }
      }
    } else {
      assert text[..0] == "" && text[0..] == text;
    }
  }

  lemma DigitsFirst(p: string)
    requires p != ""
    ensures Digits(p) <==> Decimal(p[0]) >= 0 && Digits(p[1..])
  {
    if Decimal(p[0]) >= 0 && Digits(p[1..]) {
      forall i | 0 <= i < |p| ensures Decimal(p[i]) >= 0 { assert i > 0 ==> p[i] == p[1..][i - 1]; }
    }
    if Digits(p) {
      forall i | 0 <= i < |p[1..]| ensures Decimal(p[1..][i]) >= 0 { assert p[1..][i] == p[i + 1]; }
    }
  }

  // The address that parts make behind "addr"; NONE if one is no octet or they are not "left" many.
  function Read(l: seq<string>, addr: nat, left: int): nat
    requires l != []
    decreases |l|
  {
    if !Octet(l[0]) then NONE
    else
      var a := (addr * 256 + Value(l[0], 0)) % 0x1_0000_0000;
      if |l| == 1 then (if left == 1 then a else NONE) else Read(l[1..], a, left - 1)
  }

  lemma ReadRest(l: seq<string>, addr: nat, left: int, a: nat)
    requires |l| > 1 && Octet(l[0]) && a == (addr * 256 + Value(l[0], 0)) % 0x1_0000_0000
    ensures Read(l, addr, left) == Read(l[1..], a, left - 1)
  {
  }

  lemma {:induction false} ScanParts(text: string, addr: nat, n: nat)
    ensures Scan(text, addr, 0, n) == Read(Parts(text), addr, 4 - n)
    decreases |text|
  {
    var k := Cut(text);
    ScanPart(text, addr, 0, n);
    if k == |text| {
      assert text[..k] == text && text[k..] == "";
    } else {
      var rest := text[k + 1..];
      assert text[k..][0] == '.' && text[k..][1..] == rest;
      assert Parts(text)[0] == text[..k] && Parts(text)[1..] == Parts(rest);
      if Octet(text[..k]) {
        var a := (addr * 256 + Value(text[..k], 0)) % 0x1_0000_0000;
        assert Scan(text, addr, 0, n) == Scan(rest, a, 0, n + 1);
        ScanParts(rest, a, n + 1);
        ReadRest(Parts(text), addr, 4 - n, a);
      }
    }
  }

  lemma {:induction false} ReadNone(l: seq<string>, addr: nat, left: int)
    requires l != [] && left != |l|
    ensures Read(l, addr, left) == NONE
    decreases |l|
  {
    if |l| > 1 && Octet(l[0]) { ReadNone(l[1..], (addr * 256 + Value(l[0], 0)) % 0x1_0000_0000, left - 1); }
  }

  // What ngx_inet_addr gives for any text.
  lemma AddressRead(text: string)
    ensures Scan(text, 0, 0, 0) ==
      if Address(text) then (var l := Parts(text); Joined(Value(l[0], 0), Value(l[1], 0), Value(l[2], 0), Value(l[3], 0))) else NONE
  {
    var l := Parts(text);
    ScanParts(text, 0, 0);
    if |l| != 4 { ReadNone(l, 0, 4); } else { ReadFour(l); }
  }

  lemma ReadFour(l: seq<string>)
    requires |l| == 4
    ensures Read(l, 0, 4) ==
      if Octet(l[0]) && Octet(l[1]) && Octet(l[2]) && Octet(l[3]) then Joined(Value(l[0], 0), Value(l[1], 0), Value(l[2], 0), Value(l[3], 0)) else NONE
  {
    if Octet(l[0]) {
      var a := Value(l[0], 0);
      assert Read(l, 0, 4) == Read(l[1..], a, 3);
      if Octet(l[1]) {
        ReadThree(l[1..], a);
      }
    }
  }

  lemma ReadThree(l: seq<string>, addr: nat)
    requires |l| == 3 && Octet(l[0]) && addr < 256
    ensures Read(l, addr, 3) ==
      if Octet(l[1]) && Octet(l[2]) then ((addr * 256 + Value(l[0], 0)) * 256 + Value(l[1], 0)) * 256 + Value(l[2], 0) else NONE
  {
    var a := addr * 256 + Value(l[0], 0);
    assert Read(l, addr, 3) == Read(l[1..], a, 2);
    if Octet(l[1]) {
      var b := a * 256 + Value(l[1], 0);
      assert Read(l[1..], a, 2) == Read(l[1..][1..], b, 1);
      assert l[1..][1..] == l[2..] && l[2..][0] == l[2];
    }
  }

  function Dotted(a: byte, b: byte, c: byte, d: byte): string {
    Number(a, 10) + "." + (Number(b, 10) + "." + (Number(c, 10) + "." + Number(d, 10)))
  }

  lemma {:induction false} ScanNumber(k: nat, rest: string, addr: nat, n: nat)
    requires k < 256
    ensures Scan(Number(k, 10) + rest, addr, 0, n) == Scan(rest, addr, k, n)
  {
    var s := Number(k, 10);
    if k < 10 {
      assert (s + rest)[0] == s[0] && (s + rest)[1..] == rest;
    } else {
      var d := Digit(k % 10);
      assert s + rest == Number(k / 10, 10) + ([d] + rest);
      ScanNumber(k / 10, [d] + rest, addr, n);
      assert ([d] + rest)[0] == d && ([d] + rest)[1..] == rest;
      assert Decimal(d) == k % 10;
    }
  }

  lemma ScanDot(rest: string, addr: nat, octet: nat, n: nat)
    ensures Scan("." + rest, addr, octet, n) == Scan(rest, (addr * 256 + octet) % 0x1_0000_0000, 0, n + 1)
  {
    assert ("." + rest)[0] == '.' && ("." + rest)[1..] == rest;
  }

  function Joined(a: byte, b: byte, c: byte, d: byte): nat { ((a * 256 + b) * 256 + c) * 256 + d }

  lemma ScanOctet(k: byte, rest: string, addr: nat, n: nat)
    requires addr < 0x100_0000
    ensures Scan(Number(k, 10) + "." + rest, addr, 0, n) == Scan(rest, addr * 256 + k, 0, n + 1)
  {
    assert Number(k, 10) + "." + rest == Number(k, 10) + ("." + rest);
    ScanNumber(k, "." + rest, addr, n);
    ScanDot(rest, addr, k, n);
  }

  lemma ScanLast(k: byte, addr: nat)
    requires addr < 0x100_0000
    ensures Scan(Number(k, 10), addr, 0, 3) == addr * 256 + k
  {
    assert Number(k, 10) == Number(k, 10) + "";
    ScanNumber(k, "", addr, 3);
  }

  // A dotted address reads as its number: 255.255.255.255 as the mark of an error.
  lemma DottedScan(a: byte, b: byte, c: byte, d: byte)
    ensures Scan(Dotted(a, b, c, d), 0, 0, 0) == Joined(a, b, c, d)
  {
    ScanOctet(a, Number(b, 10) + "." + (Number(c, 10) + "." + Number(d, 10)), 0, 0);
    ScanOctet(b, Number(c, 10) + "." + Number(d, 10), a, 1);
    ScanOctet(c, Number(d, 10), a * 256 + b, 2);
    ScanLast(d, (a * 256 + b) * 256 + c);
  }
}
