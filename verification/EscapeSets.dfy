/** Which bytes the tables of ngx_escape_uri in src/core/ngx_string.c escape, and what ngx_unescape_uri
    makes of an escaped text in each of its modes. */
module EscapeSets {
  import opened Basics
  import opened EscapeUri

  // ---- the tables ----

  predicate Unreserved(c: byte) { 65 <= c <= 90 || 97 <= c <= 122 || 48 <= c <= 57 || c == 45 || c == 46 || c == 95 || c == 126 }

  // The bytes to be escaped, by name: control characters, those from DEL on, and punctuation.
  predicate Unsafe(t: Type, c: byte) {
    match t
    case Uri => c < 32 || c >= 127 || c in [32, 35, 37, 63]
    case Args => c < 32 || c >= 127 || c in [32, 35, 37, 38, 43, 59, 63]
    case UriComponent => !Unreserved(c)
    case Html => c < 32 || c >= 127 || c in [32, 34, 35, 37, 39]
    case Refresh => c < 32 || c >= 127 || c in [32, 34, 39]
    case _ => c < 32 || c in [32, 37]
  }

  predicate Bit(w: nat, k: nat) { w / Pow2(k) % 2 == 1 }

  lemma BitShift(w: nat, k: nat)
    ensures Bit(w, k + 1) == Bit(w / 2, k)
  {
    DivTwice(w, Pow2(k));
  }

  lemma DivTwice(w: nat, b: nat)
    requires b >= 1
    ensures w / (2 * b) == w / 2 / b
  {
    var q := w / 2 / b;
    assert w / 2 == q * b + w / 2 % b;
    assert w == 2 * (w / 2) + w % 2;
    assert w == q * (2 * b) + (2 * (w / 2 % b) + w % 2);
    Quotient(w, 2 * b, q, 2 * (w / 2 % b) + w % 2);
  }

  lemma Quotient(w: int, b: int, q: int, r: int)
    requires w == q * b + r && 0 <= r < b
    ensures w / b == q
  {
    var d := w / b - q;
    assert d * b == r - w % b;
    assert d >= 1 ==> d * b >= b;
    assert d <= -1 ==> d * b <= -b;
  }

  // The positions of the ones.
  function Ones(w: nat, from: nat): seq<nat>
    decreases w
  {
    if w == 0 then [] else (if w % 2 == 1 then [from] else []) + Ones(w / 2, from + 1)
  }

  lemma {:induction false} OnesAre(w: nat, from: nat, k: nat)
    ensures k >= from ==> (k in Ones(w, from) <==> Bit(w, k - from))
    ensures k < from ==> k !in Ones(w, from)
    decreases w
  {
    if w == 0 {
      assert k >= from ==> 0 / Pow2(k - from) == 0;
    } else {
      OnesAre(w / 2, from + 1, k);
      if k > from { BitShift(w, k - from - 1); }
    }
  }

  // The bits of a number in two parts.
  lemma {:induction false} BitOfSum(hi: nat, lo: nat, n: nat, k: nat)
    requires lo < Pow2(n)
    ensures Bit(hi * Pow2(n) + lo, k) <==> if k < n then Bit(lo, k) else Bit(hi, k - n)
    decreases n
  {
    if n > 0 {
      var h := hi * Pow2(n - 1);
      assert hi * Pow2(n) == 2 * h;
      if k > 0 {
        BitOfSum(hi, lo / 2, n - 1, k - 1);
        BitShift(2 * h + lo, k - 1);
        BitShift(lo, k - 1);
        assert (2 * h + lo) / 2 == h + lo / 2;
      }
    }
  }

  // A word with its first byte apart.
  lemma WordBits(hi: nat, lo: nat, k: nat)
    requires lo < 0x100_0000
    ensures Bit(hi * 0x100_0000 + lo, k) <==> if k < 24 then Bit(lo, k) else Bit(hi, k - 24)
  {
    assert Pow2(24) == 0x100_0000 by { assert Pow2(8) == 256 && Pow2(16) == 256 * Pow2(8); }
    BitOfSum(hi, lo, 24, k);
  }

  lemma Bits29(k: nat)
    ensures Bit(0x29, k) <==> k in [0, 3, 5]
  {
    OnesAre(0x29, 0, k);
    assert Ones(0x29, 0) == [0, 3, 5];
  }

  lemma BitsAd(k: nat)
    ensures Bit(0xad, k) <==> k in [0, 2, 3, 5, 7]
  {
    OnesAre(0xad, 0, k);
    assert Ones(0xad, 0) == [0, 2, 3, 5, 7];
  }

  lemma Bits85(k: nat)
    ensures Bit(0x85, k) <==> k in [0, 2, 7]
  {
    OnesAre(0x85, 0, k);
    assert Ones(0x85, 0) == [0, 2, 7];
  }

  lemma Bits21(k: nat)
    ensures Bit(0x21, k) <==> k in [0, 5]
  {
    OnesAre(0x21, 0, k);
    assert Ones(0x21, 0) == [0, 5];
  }

  lemma Bits1(k: nat)
    ensures Bit(1, k) <==> k in [0]
  {
    OnesAre(1, 0, k);
    assert Ones(1, 0) == [0];
  }

  lemma Bits80(k: nat)
    ensures Bit(0x80, k) <==> k in [7]
  {
    OnesAre(0x80, 0, k);
    assert Ones(0x80, 0) == [7];
  }

  lemma Bits88(k: nat)
    ensures Bit(0x88, k) <==> k in [3, 7]
  {
    OnesAre(0x88, 0, k);
    assert Ones(0x88, 0) == [3, 7];
  }

  lemma Bits78(k: nat)
    ensures Bit(0x78, k) <==> k in [3, 4, 5, 6]
  {
    OnesAre(0x78, 0, k);
    assert Ones(0x78, 0) == [3, 4, 5, 6];
  }

  lemma BitsB8(k: nat)
    ensures Bit(0xb8, k) <==> k in [3, 4, 5, 7]
  {
    OnesAre(0xb8, 0, k);
    assert Ones(0xb8, 0) == [3, 4, 5, 7];
  }

  lemma BitsFc(k: nat)
    ensures Bit(0xfc, k) <==> k in [2, 3, 4, 5, 6, 7]
  {
    OnesAre(0xfc, 0, k);
    assert Ones(0xfc, 0) == [2, 3, 4, 5, 6, 7];
  }

  lemma Bits8(k: nat)
    ensures Bit(8, k) <==> k == 3
  {
    OnesAre(8, 0, k);
    assert Ones(8, 0) == [3];
  }

  lemma Bits69(k: nat)
    ensures Bit(0x69, k) <==> k in [0, 3, 5, 6]
  {
    OnesAre(0x69, 0, k);
    assert Ones(0x69, 0) == [0, 3, 5, 6];
  }

  lemma Bits869(k: nat)
    ensures Bit(0x869, k) <==> k in [0, 3, 5, 6, 11]
  {
    assert Pow2(8) == 256;
    BitOfSum(8, 0x69, 8, k);
    Bits69(k);
    if k >= 8 { Bits8(k - 8); }
  }

  lemma Bits9f(k: nat)
    ensures Bit(0x9f, k) <==> k in [0, 1, 2, 3, 4, 7]
  {
    OnesAre(0x9f, 0, k);
    assert Ones(0x9f, 0) == [0, 1, 2, 3, 4, 7];
  }

  lemma BitsFf(k: nat)
    ensures Bit(0xff, k) <==> k in [0, 1, 2, 3, 4, 5, 6, 7]
  {
    OnesAre(0xff, 0, k);
    assert Ones(0xff, 0) == [0, 1, 2, 3, 4, 5, 6, 7];
  }

  lemma Bits9fff(k: nat)
    ensures Bit(0x9fff, k) <==> k <= 12 || k == 15
  {
    assert Pow2(8) == 256;
    BitOfSum(0x9f, 0xff, 8, k);
    BitsFf(k);
    if k >= 8 { Bits9f(k - 8); }
  }

  lemma {:induction false} AllOnes(n: nat, k: nat)
    ensures Bit(Pow2(n) - 1, k) <==> k < n
  {
    if n == 0 {
      assert 0 / Pow2(k) == 0;
    } else if k > 0 {
      AllOnes(n - 1, k - 1);
      BitShift(Pow2(n) - 1, k - 1);
      assert (Pow2(n) - 1) / 2 == Pow2(n - 1) - 1;
    }
  }

  // ---- the second, third and fourth words ----

  lemma Punctuation(t: Type, k: nat)
    requires k < 32
    ensures Bit(Table(t, 1), k) <==> Unsafe(t, 32 + k)
  {
    match t
    case Uri => WordBits(0x80, 0x29, k); Bits29(k); if k >= 24 { Bits80(k - 24); }
    case Args => WordBits(0x88, 0x869, k); Bits869(k); if k >= 24 { Bits88(k - 24); }
    case UriComponent => WordBits(0xfc, 0x9fff, k); Bits9fff(k); if k >= 24 { BitsFc(k - 24); }
    case Html => BitsAd(k);
    case Refresh => Bits85(k);
    case _ => Bits21(k);
  }

  lemma Capitals(t: Type, k: nat)
    requires k < 32
    ensures Bit(Table(t, 2), k) <==> Unsafe(t, 64 + k)
  {
    if t == UriComponent {
      WordBits(0x78, 1, k);
      Bits1(k);
      if k >= 24 { Bits78(k - 24); }
    } else {
      OnesAre(0, 0, k);
    }
  }

  lemma Letters(t: Type, k: nat)
    requires k < 32
    ensures Bit(Table(t, 3), k) <==> Unsafe(t, 96 + k)
  {
    OnesAre(0, 0, k);
    if t == UriComponent {
      WordBits(0xb8, 1, k);
      Bits1(k);
      if k >= 24 { BitsB8(k - 24); }
    } else if t != Memcached && t != MailAuth {
      WordBits(0x80, 0, k);
      if k >= 24 { Bits80(k - 24); }
    }
  }

  lemma FullWord(k: nat)
    requires k < 32
    ensures Bit(0xffff_ffff, k)
  {
    AllOnes(32, k);
    assert Pow2(32) == 0x1_0000_0000 by { assert Pow2(8) == 256 && Pow2(16) == 256 * Pow2(8) && Pow2(24) == 256 * Pow2(16); }
  }

  lemma Others(t: Type, w: nat, k: nat)
    requires k < 32 && w < 8 && (w == 0 || w >= 4)
    ensures Bit(Table(t, w), k) <==> Unsafe(t, 32 * w + k)
  {
    FullWord(k);
    OnesAre(0, 0, k);
  }

  // Each table escapes just the bytes it is meant to.
  lemma EscapesExactly(t: Type, c: byte)
    ensures Escaped(t, c) <==> Unsafe(t, c)
  {
    var w, k := c / 32, c % 32;
    assert c == 32 * w + k && (Escaped(t, c) <==> Bit(Table(t, w), k));
    if w == 1 {
      Punctuation(t, k);
    } else if w == 2 {
      Capitals(t, k);
    } else if w == 3 {
      Letters(t, k);
    } else {
      Others(t, w, k);
    }
  }

  // ---- what an escaped text becomes ----

  // An escape of that byte stays as it is, for a redirect.
  predicate Stays(mode: Mode, c: byte) { mode.redirect && !(37 < c < 127) && (c % 16 < 10 || !mode.uri) }

  function Shown(t: Type, s: seq<byte>, mode: Mode): seq<byte> {
    if s == [] then [] else (if Unsafe(t, s[0]) && Stays(mode, s[0]) then One(t, s[0]) else [s[0]]) + Shown(t, s[1..], mode)
  }

  lemma UnescapeStep(st: EscapeUri.State, c: byte, rest: seq<byte>, mode: Mode)
    ensures var m, u := Step(st, c, mode), Unescape(Step(st, c, mode).st, rest, mode);
      Unescape(st, [c] + rest, mode) == if m.stop then (m.out, rest) else (m.out + u.0, u.1)
  {
    assert ([c] + rest)[0] == c && ([c] + rest)[1..] == rest;
  }

  lemma ThreeOf(c: byte, mode: Mode)
    ensures var x, y := HexUpper(c / 16), HexUpper(c % 16);
      && Step(Usual, PERCENT, mode) == Move([], Quoted, false) && Step(Quoted, x, mode) == Move([], Second(c / 16, x), false)
      && Step(Second(c / 16, x), y, mode) ==
         if c == QUESTION && (mode.uri || mode.redirect) then Move([c], Usual, true)
         else Move(if Stays(mode, c) then [PERCENT, x, y] else [c], Usual, false)
  {
    HexBack(c / 16);
    HexBack(c % 16);
    assert (c / 16 * 16 + c % 16) % 256 == c;
  }

  lemma EscapeOf(c: byte, rest: seq<byte>, mode: Mode)
    ensures var x, y, u := HexUpper(c / 16), HexUpper(c % 16), Unescape(Usual, rest, mode);
      Unescape(Usual, [PERCENT, x, y] + rest, mode) ==
      if c == QUESTION && (mode.uri || mode.redirect) then ([c], rest)
      else ((if Stays(mode, c) then [PERCENT, x, y] else [c]) + u.0, u.1)
  {
    var x, y := HexUpper(c / 16), HexUpper(c % 16);
    ThreeOf(c, mode);
    assert [PERCENT, x, y] + rest == [PERCENT] + ([x] + ([y] + rest));
    UnescapeStep(Usual, PERCENT, [x] + ([y] + rest), mode);
    UnescapeStep(Quoted, x, [y] + rest, mode);
    UnescapeStep(Second(c / 16, x), y, rest, mode);
    Nothing(Unescape(Quoted, [x] + ([y] + rest), mode).0);
    Nothing(Unescape(Second(c / 16, x), [y] + rest, mode).0);
  }

  lemma OneBack(t: Type, c: byte, rest: seq<byte>, mode: Mode)
    requires Unsafe(t, PERCENT) || c != PERCENT
    ensures var u := Unescape(Usual, rest, mode);
      Unescape(Usual, One(t, c) + rest, mode) ==
      if c == QUESTION && (mode.uri || mode.redirect) then ([c], rest)
      else ((if Unsafe(t, c) && Stays(mode, c) then One(t, c) else [c]) + u.0, u.1)
  {
    EscapesExactly(t, c);
    EscapesExactly(t, PERCENT);
    if Escaped(t, c) {
      EscapeOf(c, rest, mode);
    } else {
      UnescapeStep(Usual, c, rest, mode);
    }
  }

  // Without a question mark all the text is taken; each byte comes back, or its escape stays.
  lemma {:induction false} BackInMode(t: Type, s: seq<byte>, mode: Mode)
    requires (Unsafe(t, PERCENT) || PERCENT !in s) && (QUESTION !in s || (!mode.uri && !mode.redirect))
    ensures Unescape(Usual, Escape(t, s), mode) == (Shown(t, s, mode), [])
  {
    if s != [] {
      BackInMode(t, s[1..], mode);
      OneBack(t, s[0], Escape(t, s[1..]), mode);
    }
  }

  // Otherwise, but in the plain mode, it is taken up to the first question mark, escaped or not; the
  // rest is left as it was.
  lemma {:induction false} UpToQuestion(t: Type, a: seq<byte>, b: seq<byte>, mode: Mode)
    requires (Unsafe(t, PERCENT) || PERCENT !in a) && QUESTION !in a && (mode.uri || mode.redirect)
    ensures Unescape(Usual, Escape(t, a + [QUESTION] + b), mode) == (Shown(t, a, mode) + [QUESTION], Escape(t, b))
  {
    var s := a + [QUESTION] + b;
    OneBack(t, s[0], Escape(t, s[1..]), mode);
    if a == [] {
      assert s[1..] == b;
      Nothing([QUESTION]);
    } else {
      assert s[1..] == a[1..] + [QUESTION] + b;
      UpToQuestion(t, a[1..], b, mode);
      Assoc(if Unsafe(t, a[0]) && Stays(mode, a[0]) then One(t, a[0]) else [a[0]], Shown(t, a[1..], mode), [QUESTION]);
    }
  }

  // Unless for a redirect, all the bytes come back.
  lemma {:induction false} ShownSame(t: Type, s: seq<byte>, uri: bool)
    ensures Shown(t, s, Mode(uri, false)) == s
  {
    if s != [] {
      ShownSame(t, s[1..], uri);
    }
  }
}
