/** ngx_encode_base64_internal and ngx_decode_base64_internal of src/core/ngx_string.c. */
module Base64 {
  import opened Basics

  const INVALID := 77

  // The two alphabets differ in the last two symbols.
  function Symbol(v: int, url: bool): byte
    requires 0 <= v < 64
  {
    if v < 26 then v + 65
    else if v < 52 then v - 26 + 97
    else if v < 62 then v - 52 + 48
    else if v == 62 then (if url then 45 else 43)
    else (if url then 95 else 47)
  }

  // The table of the decoder.
  function Value(c: byte, url: bool): (v: int)
    ensures 0 <= v < 64 || v == INVALID
  {
    if 65 <= c <= 90 then c - 65
    else if 97 <= c <= 122 then c - 97 + 26
    else if 48 <= c <= 57 then c - 48 + 52
    else if c == (if url then 45 else 43) then 62
    else if c == (if url then 95 else 47) then 63
    else INVALID
  }

  lemma SymbolValue(v: int, url: bool)
    requires 0 <= v < 64
    ensures Value(Symbol(v, url), url) == v && Symbol(v, url) != 61
  {
  }

  // No other byte is a symbol.
  lemma ValueSymbol(c: byte, url: bool)
    ensures Value(c, url) == INVALID || Symbol(Value(c, url), url) == c
  {
  }

  // ---- the specification ----

  // The symbols of a string, without padding.
  function Symbols(s: seq<byte>, url: bool): (d: seq<byte>)
    ensures |d| == |s| / 3 * 4 + (if |s| % 3 == 0 then 0 else |s| % 3 + 1)
  {
    if |s| == 0 then []
    else if |s| == 1 then [Symbol(s[0] / 4, url), Symbol(s[0] % 4 * 16, url)]
    else if |s| == 2 then [Symbol(s[0] / 4, url), Symbol(s[0] % 4 * 16 + s[1] / 16, url), Symbol(s[1] % 16 * 4, url)]
    else
      [Symbol(s[0] / 4, url), Symbol(s[0] % 4 * 16 + s[1] / 16, url), Symbol(s[1] % 16 * 4 + s[2] / 64, url), Symbol(s[2] % 64, url)]
      + Symbols(s[3..], url)
  }

  function Padding(n: int, url: bool): seq<byte> {
    if url then [] else if n % 3 == 1 then [61, 61] else if n % 3 == 2 then [61] else []
  }

  function Encoded(s: seq<byte>, url: bool): seq<byte> { Symbols(s, url) + Padding(|s|, url) }

  // The symbols before the first "=", or -1 if there is an invalid one among them.
  function Count(t: seq<byte>, url: bool): int {
    if t == [] || t[0] == 61 then 0
    else if Value(t[0], url) == INVALID then -1
    else if Count(t[1..], url) < 0 then -1
    else 1 + Count(t[1..], url)
  }

  // (u_char) (x << 2 | y >> 4), (u_char) (y << 4 | z >> 2) and (u_char) (z << 6 | w)
  function High(x: int, y: int): byte { (x * 4 % 256 + y / 16) % 256 }
  function Middle(y: int, z: int): byte { (y * 16 % 256 + z / 4) % 256 }
  function Low(z: int, w: int): byte { (z * 64 % 256 + w) % 256 }

  function First(a: byte, b: byte, url: bool): byte { High(Value(a, url), Value(b, url)) }
  function Second(b: byte, c: byte, url: bool): byte { Middle(Value(b, url), Value(c, url)) }
  function Third(c: byte, d: byte, url: bool): byte { Low(Value(c, url), Value(d, url)) }

  // The bytes that symbols stand for.
  function Bytes(t: seq<byte>, url: bool): seq<byte> {
    if |t| > 3 then [First(t[0], t[1], url), Second(t[1], t[2], url), Third(t[2], t[3], url)] + Bytes(t[4..], url)
    else if |t| == 3 then [First(t[0], t[1], url), Second(t[1], t[2], url)]
    else if |t| == 2 then [First(t[0], t[1], url)]
    else []
  }

  datatype Result = Bad | Good(data: seq<byte>)

  function Decoded(t: seq<byte>, url: bool): Result {
    var n := Count(t, url);
    if n < 0 || n % 4 == 1 || n > |t| then Bad else Good(Bytes(t[..n], url))
  }

  // ---- the loops ----

  method Encode(src: seq<byte>, url: bool) returns (d: seq<byte>)
    ensures d == Encoded(src, url)
  {
    var s := src;
    d := [];
    while |s| > 2
      invariant d + Symbols(s, url) == Symbols(src, url) && |s| % 3 == |src| % 3
      decreases |s|
    {
      var four := [Symbol(s[0] / 4, url), Symbol(s[0] % 4 * 16 + s[1] / 16, url), Symbol(s[1] % 16 * 4 + s[2] / 64, url), Symbol(s[2] % 64, url)];
      Assoc(d, four, Symbols(s[3..], url));
      d := d + four;
      s := s[3..];
    }
    if |s| > 0 {
      ghost var before := d;
      d := d + [Symbol(s[0] / 4, url)];
      if |s| == 1 {
        d := d + [Symbol(s[0] % 4 * 16, url)];
        assert d == before + Symbols(s, url);
        if !url {
          d := d + [61];
        }
      } else {
        d := d + [Symbol(s[0] % 4 * 16 + s[1] / 16, url)];
        d := d + [Symbol(s[1] % 16 * 4, url)];
        assert d == before + Symbols(s, url);
      }
      if !url {
        d := d + [61];
      }
    }
  }

  method Decode(src: seq<byte>, url: bool) returns (r: Result)
    ensures r == Decoded(src, url)
  {
    var len := Measure(src, url);
    if len < 0 || len % 4 == 1 {
      return Bad;
    }
    var d := Collect(src[..len], url);
    return Good(d);
  }

  // The first loop: how many symbols there are.
  method Measure(src: seq<byte>, url: bool) returns (len: int)
    ensures len == Count(src, url) && len <= |src|
  {
    len := 0;
    assert src[0..] == src;
    while len < |src|
      invariant 0 <= len <= |src|
      invariant Count(src, url) == if Count(src[len..], url) < 0 then -1 else len + Count(src[len..], url)
    {
      assert src[len..][0] == src[len] && src[len..][1..] == src[len + 1..];
      if src[len] == 61 {
        return;
      }
      if Value(src[len], url) == INVALID {
        return -1;
      }
      len := len + 1;
    }
  }

  // The second one: the bytes.
  method Collect(t: seq<byte>, url: bool) returns (d: seq<byte>)
    ensures d == Bytes(t, url)
  {
    var s := t;
    d := [];
    while |s| > 3
      invariant d + Bytes(s, url) == Bytes(t, url)
      decreases |s|
    {
      var three := [First(s[0], s[1], url), Second(s[1], s[2], url), Third(s[2], s[3], url)];
      Assoc(d, three, Bytes(s[4..], url));
      d := d + three;
      s := s[4..];
    }
    ghost var before := d;
    if |s| > 1 {
      d := d + [First(s[0], s[1], url)];
    }
    if |s| > 2 {
      d := d + [Second(s[1], s[2], url)];
    }
    assert d == before + Bytes(s, url);
  }

  // ---- the round trip ----

  ghost predicate AllValid(t: seq<byte>, url: bool) {
    forall i {:trigger t[i]} :: 0 <= i < |t| ==> Value(t[i], url) != INVALID && t[i] != 61
  }

  lemma {:induction false} SymbolsValid(s: seq<byte>, url: bool)
    ensures AllValid(Symbols(s, url), url)
  {
    if |s| > 2 {
      SymbolsValid(s[3..], url);
      SymbolValue(s[0] / 4, url);
      SymbolValue(s[0] % 4 * 16 + s[1] / 16, url);
      SymbolValue(s[1] % 16 * 4 + s[2] / 64, url);
      SymbolValue(s[2] % 64, url);
    } else if |s| == 2 {
      SymbolValue(s[0] / 4, url);
      SymbolValue(s[0] % 4 * 16 + s[1] / 16, url);
      SymbolValue(s[1] % 16 * 4, url);
    } else if |s| == 1 {
      SymbolValue(s[0] / 4, url);
      SymbolValue(s[0] % 4 * 16, url);
    }
  }

  lemma {:induction false} CountValid(t: seq<byte>, pad: seq<byte>, url: bool)
    requires AllValid(t, url) && (pad == [] || pad[0] == 61)
    ensures Count(t + pad, url) == |t|
  {
    if t == [] {
      assert t + pad == pad;
    } else {
      assert (t + pad)[0] == t[0] && (t + pad)[1..] == t[1..] + pad;
      CountValid(t[1..], pad, url);
    }
  }

  lemma HighBack(a: byte, b: byte)
    ensures High(a / 4, a % 4 * 16 + b / 16) == a
  {
  }

  lemma MiddleBack(a: byte, b: byte, c: byte)
    ensures Middle(a % 4 * 16 + b / 16, b % 16 * 4 + c / 64) == b
  {
    var x, y := a % 4, b / 16;
    assert (x * 16 + y) * 16 == x * 256 + y * 16;
    assert (x * 16 + y) * 16 % 256 == y * 16;
    assert (b % 16 * 4 + c / 64) / 4 == b % 16;
  }

  lemma LowBack(b: byte, c: byte)
    ensures Low(b % 16 * 4 + c / 64, c % 64) == c
  {
    var x, y := b % 16, c / 64;
    assert (x * 4 + y) * 64 == x * 256 + y * 64;
    assert (x * 4 + y) * 64 % 256 == y * 64;
  }

  lemma TripleBack(a: byte, b: byte, c: byte, url: bool)
    ensures First(Symbol(a / 4, url), Symbol(a % 4 * 16 + b / 16, url), url) == a
    ensures Second(Symbol(a % 4 * 16 + b / 16, url), Symbol(b % 16 * 4 + c / 64, url), url) == b
    ensures Third(Symbol(b % 16 * 4 + c / 64, url), Symbol(c % 64, url), url) == c
  {
    var x, y, z, w := a / 4, a % 4 * 16 + b / 16, b % 16 * 4 + c / 64, c % 64;
    HighBack(a, b);
    MiddleBack(a, b, c);
    LowBack(b, c);
    SymbolValue(x, url);
    SymbolValue(y, url);
    SymbolValue(z, url);
    SymbolValue(w, url);
  }

  lemma {:induction false} BytesBack(s: seq<byte>, url: bool)
    ensures Bytes(Symbols(s, url), url) == s
  {
    if |s| > 2 {
      BytesBack(s[3..], url);
      TripleBack(s[0], s[1], s[2], url);
      var t := Symbols(s, url);
      assert t[4..] == Symbols(s[3..], url);
      assert s == [s[0], s[1], s[2]] + s[3..];
    } else if |s| == 2 {
      TripleBack(s[0], s[1], 0, url);
    } else if |s| == 1 {
      TripleBack(s[0], 0, 0, url);
    }
  }

  lemma Front(t: seq<byte>, pad: seq<byte>)
    ensures (t + pad)[..|t|] == t
  {
  }

  lemma NotOne(n: nat)
    ensures (n / 3 * 4 + (if n % 3 == 0 then 0 else n % 3 + 1)) % 4 != 1
  {
  }

  lemma DecodedIs(t: seq<byte>, pad: seq<byte>, url: bool)
    requires AllValid(t, url) && (pad == [] || pad[0] == 61) && |t| % 4 != 1
    ensures Decoded(t + pad, url) == Good(Bytes(t, url))
  {
    CountValid(t, pad, url);
    Front(t, pad);
  }

  // Decoding undoes encoding, in both alphabets.
  lemma RoundTrip(s: seq<byte>, url: bool)
    ensures Decoded(Encoded(s, url), url) == Good(s)
  {
    SymbolsValid(s, url);
    BytesBack(s, url);
    NotOne(|s|);
    DecodedIs(Symbols(s, url), Padding(|s|, url), url);
  }

  // ---- the text itself, as in section 4 of RFC 4648 ----

  // The alphabet: capitals, small letters, digits, then "+" and "/", or "-" and "_" for URLs.
  lemma Alphabet(v: int, url: bool)
    requires 0 <= v < 64
    ensures v < 26 ==> Symbol(v, url) - 'A' as int == v && 'A' as int <= Symbol(v, url) <= 'Z' as int
    ensures 26 <= v < 52 ==> Symbol(v, url) - 'a' as int == v - 26 && 'a' as int <= Symbol(v, url) <= 'z' as int
    ensures 52 <= v < 62 ==> Symbol(v, url) - '0' as int == v - 52 && '0' as int <= Symbol(v, url) <= '9' as int
    ensures v == 62 ==> Symbol(v, url) == if url then '-' as int else '+' as int
    ensures v == 63 ==> Symbol(v, url) == if url then '_' as int else '/' as int
  {
  }

  // Padding makes whole groups of four; without it there are just the symbols.
  lemma EncodedLength(s: seq<byte>)
    ensures |Encoded(s, false)| == (|s| + 2) / 3 * 4
    ensures |Encoded(s, true)| == (8 * |s| + 5) / 6
  {
    var q, r := |s| / 3, |s| % 3;
    assert |s| == 3 * q + r && 8 * |s| + 5 == 6 * (4 * q) + (8 * r + 5);
  }

  // Three bytes are four groups of six bits, the highest first.
  lemma GroupOf(s: seq<byte>, url: bool)
    requires |s| == 3
    ensures var d, x: int, y: int, z: int := Symbols(s, url), s[0], s[1], s[2];
      x * 0x1_0000 + y * 0x100 + z == Value(d[0], url) * 0x4_0000 + Value(d[1], url) * 0x1000 + Value(d[2], url) * 0x40 + Value(d[3], url)
  {
    SymbolValue(s[0] / 4, url);
    SymbolValue(s[0] % 4 * 16 + s[1] / 16, url);
    SymbolValue(s[1] % 16 * 4 + s[2] / 64, url);
    SymbolValue(s[2] % 64, url);
  }
}
