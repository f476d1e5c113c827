/** The length that src/core/ngx_md5.c and src/core/ngx_sha1.c put at the end of a message. */
module DigestLength {
  import opened Basics
  import opened Digest

  // The number that bytes make up, the last or the first of them the highest.
  function Number(s: seq<byte>, big: bool): nat {
    if s == [] then 0
    else if big then 256 * Number(s[..|s| - 1], true) + s[|s| - 1]
    else s[0] + 256 * Number(s[1..], false)
  }

  lemma LengthIsNumber(n: nat, big: bool)
    requires n < WORD
    ensures Number(Length(n, big), big) == n
  {
    LengthBytes(n, big);
    NumberOfBytes(Length(n, big), n, big);
  }

  lemma NumberOfBytes(s: seq<byte>, n: nat, big: bool)
    requires |s| == 8 && n < WORD && forall i :: 0 <= i < 8 ==> s[i] == Byte(n, if big then 8 - 1 - i else i)
    ensures Number(s, big) == n
  {
    Pow256Is();
    if big {
      HighFirst(s, n);
    } else {
      LowFirst(s, n);
    }
  }

  lemma Pow256Is()
    ensures Pow256(8) == WORD
  {
    assert Pow256(4) == 0x1_0000_0000;
    assert Pow256(8) == 0x1_0000_0000 * Pow256(4);
  }

  lemma LengthBytes(n: nat, big: bool)
    ensures forall i :: 0 <= i < 8 ==> Length(n, big)[i] == Byte(n, if big then 8 - 1 - i else i)
  {
  }

  lemma {:induction false} LowFirst(s: seq<byte>, n: nat)
    requires forall i :: 0 <= i < |s| ==> s[i] == Byte(n, i)
    ensures Number(s, false) == n % Pow256(|s|)
    decreases |s|
  {
    if s != [] {
      forall i | 0 <= i < |s| - 1 ensures s[1..][i] == Byte(n / 256, i) { ByteShift(n, i); }
      LowFirst(s[1..], n / 256);
      ModSplit(n, Pow256(|s| - 1));
    }
  }

  lemma {:induction false} HighFirst(s: seq<byte>, n: nat)
    requires forall i :: 0 <= i < |s| ==> s[i] == Byte(n, |s| - 1 - i)
    ensures Number(s, true) == n % Pow256(|s|)
    decreases |s|
  {
    if s != [] {
      var t := s[..|s| - 1];
      forall i | 0 <= i < |t| ensures t[i] == Byte(n / 256, |t| - 1 - i) { ByteShift(n, |t| - 1 - i); }
      HighFirst(t, n / 256);
      ModSplit(n, Pow256(|t|));
    }
  }

  lemma ByteShift(n: nat, k: nat)
    ensures Byte(n, k + 1) == Byte(n / 256, k)
  {
    DivDiv(n, Pow256(k));
  }

  lemma DivDiv(n: nat, b: nat)
    requires b > 0
    ensures n / (256 * b) == n / 256 / b
  {
    var q, r := n / 256 / b, 256 * (n / 256 % b) + n % 256;
    assert n == q * (256 * b) + r && 0 <= r < 256 * b;
    QuotientIs(n, 256 * b, q, r);
  }

  lemma ModSplit(n: nat, b: nat)
    requires b > 0
    ensures n % (256 * b) == n % 256 + 256 * (n / 256 % b)
  {
    var q, r := n / 256 / b, 256 * (n / 256 % b) + n % 256;
    assert n == q * (256 * b) + r && 0 <= r < 256 * b;
    QuotientIs(n, 256 * b, q, r);
  }

  lemma QuotientIs(n: int, b: int, q: int, r: int)
    requires n == q * b + r && 0 <= r < b
    ensures n / b == q && n % b == r
  {
    var d := n / b - q;
    assert d * b == r - n % b;
    assert d >= 1 ==> d * b >= b;
    assert d <= -1 ==> d * b <= -b;
  }
}
