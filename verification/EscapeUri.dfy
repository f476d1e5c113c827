/** ngx_escape_uri and ngx_unescape_uri of src/core/ngx_string.c. */
module EscapeUri {
  import opened Basics

  const PERCENT: byte := 37
  const QUESTION: byte := 63

  datatype Type = Uri | Args | UriComponent | Html | Refresh | Memcached | MailAuth

  // Of each table the words for the bytes 32 to 127; the first word is all ones.
  function Table(t: Type, word: int): nat
    requires 0 <= word < 8
  {
    if word == 0 then 0xffff_ffff
    else if t == Memcached || t == MailAuth then (if word == 1 then 0x21 else 0)
    else if word >= 4 then 0xffff_ffff
    else if word == 1 then
      match t
      case Uri => 0x8000_0029
      case Args => 0x8800_0869
      case UriComponent => 0xfc00_9fff
      case Html => 0xad
      case _ => 0x85
    else if word == 2 then (if t == UriComponent then 0x7800_0001 else 0)
    else (if t == UriComponent then 0xb800_0001 else 0x8000_0000)
  }

  // escape[c >> 5] & (1U << (c & 0x1f))
  predicate Escaped(t: Type, c: byte) {
    Table(t, c / 32) / Pow2(c % 32) % 2 == 1
  }

  function HexUpper(d: int): byte
    requires 0 <= d < 16
  {
    if d < 10 then d + 48 else d - 10 + 65
  }

  // ---- escaping ----

  function One(t: Type, c: byte): (s: seq<byte>)
    ensures |s| == if Escaped(t, c) then 3 else 1
  {
    if Escaped(t, c) then [PERCENT, HexUpper(c / 16), HexUpper(c % 16)] else [c]
  }

  function Escape(t: Type, s: seq<byte>): seq<byte> {
    if s == [] then [] else One(t, s[0]) + Escape(t, s[1..])
  }

  // The number of bytes to be escaped.
  function Count(t: Type, s: seq<byte>): nat {
    if s == [] then 0 else (if Escaped(t, s[0]) then 1 else 0) + Count(t, s[1..])
  }

  // The counting pass predicts the length of what the other one writes.
  lemma {:induction false} CountPredicts(t: Type, s: seq<byte>)
    ensures |Escape(t, s)| == |s| + 2 * Count(t, s)
  {
    if s != [] { CountPredicts(t, s[1..]); }
  }

  method CountUri(t: Type, src: seq<byte>) returns (n: nat)
    ensures n == Count(t, src)
  {
    n := 0;
    var i := 0;
    while i < |src|
      invariant 0 <= i <= |src| && n + Count(t, src[i..]) == Count(t, src)
    {
      assert src[i..][0] == src[i] && src[i..][1..] == src[i + 1..];
      if Escaped(t, src[i]) {
        n := n + 1;
      }
      i := i + 1;
    }
  }

  method Uri(t: Type, src: seq<byte>) returns (dst: seq<byte>)
    ensures dst == Escape(t, src)
  {
    dst := [];
    var i := 0;
    while i < |src|
      invariant 0 <= i <= |src| && dst + Escape(t, src[i..]) == Escape(t, src)
    {
      assert src[i..][0] == src[i] && src[i..][1..] == src[i + 1..];
      Assoc(dst, One(t, src[i]), Escape(t, src[i + 1..]));
      if Escaped(t, src[i]) {
        dst := dst + [PERCENT, HexUpper(src[i] / 16), HexUpper(src[i] % 16)];
      } else {
        dst := dst + [src[i]];
      }
      i := i + 1;
    }
  }

  // ---- unescaping ----

  datatype State = Usual | Quoted | Second(decoded: int, first: byte)

  predicate Decimal(c: byte) { 48 <= c <= 57 }

  // NGX_UNESCAPE_URI and NGX_UNESCAPE_REDIRECT
  datatype Mode = Mode(uri: bool, redirect: bool)

  // What a character writes, the next state, and whether it ends the whole.
  datatype Move = Move(out: seq<byte>, st: State, stop: bool)

  function Second2(first: byte, c: byte, ch: byte, mode: Mode): Move {
    if Decimal(c) then
      if mode.redirect && !(37 < ch < 127) then Move([PERCENT, first, c], Usual, false) else Move([ch], Usual, false)
    else if (mode.uri || mode.redirect) && ch == QUESTION then Move([ch], Usual, true)
    else if !mode.uri && mode.redirect && !(37 < ch < 127) then Move([PERCENT, first, c], Usual, false)
    else Move([ch], Usual, false)
  }

  function Step(st: State, c: byte, mode: Mode): Move {
    match st
    case Usual =>
      if c == QUESTION && (mode.uri || mode.redirect) then Move([c], Usual, true)
      else if c == PERCENT then Move([], Quoted, false)
      else Move([c], Usual, false)
    case Quoted =>
      if Hex(c) >= 0 then Move([], Second(Hex(c), c), false) else Move([c], Usual, false)
    case Second(decoded, first) =>
      if Hex(c) >= 0 then Second2(first, c, (decoded * 16 + Hex(c)) % 256, mode) else Move([], Usual, false)
  }

  // The text decoded, and the text left when a question mark ends it.
  function Unescape(st: State, s: seq<byte>, mode: Mode): (r: (seq<byte>, seq<byte>))
    decreases |s|
  {
    if s == [] then ([], [])
    else
      var m := Step(st, s[0], mode);
      if m.stop then (m.out, s[1..])
      else
        var rest := Unescape(m.st, s[1..], mode);
        (m.out + rest.0, rest.1)
  }

  method UnescapeUri(src: seq<byte>, mode: Mode) returns (dst: seq<byte>, rest: seq<byte>)
    ensures dst == Unescape(Usual, src, mode).0 && rest == Unescape(Usual, src, mode).1
  {
    dst, rest := [], src;
    var st := Usual;
    assert [] + Unescape(st, rest, mode).0 == Unescape(st, rest, mode).0;
    while rest != []
      invariant dst + Unescape(st, rest, mode).0 == Unescape(Usual, src, mode).0 && Unescape(st, rest, mode).1 == Unescape(Usual, src, mode).1
      decreases |rest|
    {
      var m := Step(st, rest[0], mode);
      Assoc(dst, m.out, Unescape(m.st, rest[1..], mode).0);
      dst := dst + m.out;
      rest := rest[1..];
      st := m.st;
      if m.stop {
        return;
      }
    }
  }

  // ---- the round trip of type 0 ----

  const PLAIN := Mode(false, false)

  function Out(st: State, s: seq<byte>): seq<byte> { Unescape(st, s, PLAIN).0 }

  lemma OutStep(st: State, c: byte, rest: seq<byte>)
    ensures Out(st, [c] + rest) == Step(st, c, PLAIN).out + Out(Step(st, c, PLAIN).st, rest)
    ensures Unescape(st, [c] + rest, PLAIN).1 == Unescape(Step(st, c, PLAIN).st, rest, PLAIN).1
  {
    assert ([c] + rest)[0] == c && ([c] + rest)[1..] == rest;
  }

  lemma HexBack(d: int)
    requires 0 <= d < 16
    ensures Hex(HexUpper(d)) == d && HexUpper(d) != PERCENT
  {
  }

  // An escaped byte in the usual state is that byte again.
  lemma OutEscaped(c: byte, rest: seq<byte>)
    ensures Out(Usual, [PERCENT, HexUpper(c / 16), HexUpper(c % 16)] + rest) == [c] + Out(Usual, rest)
    ensures Unescape(Usual, [PERCENT, HexUpper(c / 16), HexUpper(c % 16)] + rest, PLAIN).1 == Unescape(Usual, rest, PLAIN).1
  {
    var x, y := HexUpper(c / 16), HexUpper(c % 16);
    assert [PERCENT, x, y] + rest == [PERCENT] + ([x] + ([y] + rest));
    ThreeSteps(c);
    OutStep(Usual, PERCENT, [x] + ([y] + rest));
    OutStep(Quoted, x, [y] + rest);
    OutStep(Second(c / 16, x), y, rest);
    Nothing(Out(Quoted, [x] + ([y] + rest)));
    Nothing(Out(Second(c / 16, x), [y] + rest));
  }

  lemma ThreeSteps(c: byte)
    ensures Step(Usual, PERCENT, PLAIN) == Move([], Quoted, false)
    ensures Step(Quoted, HexUpper(c / 16), PLAIN) == Move([], Second(c / 16, HexUpper(c / 16)), false)
    ensures Step(Second(c / 16, HexUpper(c / 16)), HexUpper(c % 16), PLAIN) == Move([c], Usual, false)
  {
    HexBack(c / 16);
    HexBack(c % 16);
    assert (c / 16 * 16 + c % 16) % 256 == c;
  }

  lemma Nothing(x: seq<byte>)
    ensures [] + x == x
  {
  }

  // Unescaping undoes escaping if the percent sign is escaped or does not occur.
  lemma {:induction false} Undoes(t: Type, s: seq<byte>)
    requires Escaped(t, PERCENT) || PERCENT !in s
    ensures Out(Usual, Escape(t, s)) == s && Unescape(Usual, Escape(t, s), PLAIN).1 == []
  {
    if s != [] {
      Undoes(t, s[1..]);
      var c, rest := s[0], Escape(t, s[1..]);
      if Escaped(t, c) {
        OutEscaped(c, rest);
      } else {
        OutStep(Usual, c, rest);
      }
      assert s == [c] + s[1..];
    }
  }

  // Every table but that of REFRESH escapes the percent sign.
  lemma PercentEscaped(t: Type)
    ensures Escaped(t, PERCENT) <==> t != Refresh
  {
    assert Pow2(5) == 32 by { assert Pow2(3) == 8; }
    assert PERCENT / 32 == 1 && PERCENT % 32 == 5;
    assert 0x8000_0029 / 32 % 2 == 1 && 0x8800_0869 / 32 % 2 == 1 && 0xfc00_9fff / 32 % 2 == 1 && 0xad / 32 % 2 == 1 && 0x21 / 32 % 2 == 1 && 0x85 / 32 % 2 == 0;
  }

  lemma RoundTrip(t: Type, s: seq<byte>)
    requires t != Refresh
    ensures Unescape(Usual, Escape(t, s), PLAIN) == (s, [])
  {
    PercentEscaped(t);
    Undoes(t, s);
  }

  // ---- REFRESH: exactly the texts without a percent sign come back ----

  // Bytes that REFRESH escapes count more than others.
  function Weight(s: seq<byte>): nat { 2 * |s| + 3 * Count(Refresh, s) }

  lemma {:induction false} CountAppend(a: seq<byte>, b: seq<byte>)
    ensures Count(Refresh, a + b) == Count(Refresh, a) + Count(Refresh, b)
  {
    if a == [] {
      assert a + b == b;
    } else {
      CountAppend(a[1..], b);
      assert (a + b)[1..] == a[1..] + b;
    }
  }

  lemma HexNotEscaped(d: int)
    requires 0 <= d < 16
    ensures !Escaped(Refresh, HexUpper(d))
  {
    SmallShift(HexUpper(d));
  }

  // The second word of the table has no bit from 16 on, the third none at all.
  lemma SmallShift(c: byte)
    requires 48 <= c <= 57 || 65 <= c <= 70
    ensures !Escaped(Refresh, c)
  {
    if c <= 57 {
      PowBig(c % 32);
      SmallQuotient(0x85, Pow2(c % 32));
    } else {
      SmallQuotient(0, Pow2(c % 32));
    }
  }

  lemma SmallQuotient(a: nat, b: nat)
    requires a < b
    ensures a / b == 0
  {
  }

  lemma {:induction false} PowBig(k: nat)
    requires k >= 8
    ensures Pow2(k) >= 256
  {
    if k > 8 {
      PowBig(k - 1);
    } else {
      assert Pow2(4) == 16;
      assert Pow2(8) == 16 * Pow2(4);
    }
  }

  function Bonus(st: State): int { match st case Usual => 0 case Quoted => 1 case Second(_, _) => 3 }

  ghost predicate Sane(st: State) { st.Second? ==> 0 <= st.decoded < 16 }

  lemma WeightOf1(c: byte)
    ensures Weight([c]) == if Escaped(Refresh, c) then 5 else 2
  {
    var s: seq<byte> := [c];
    assert s[1..] == [];
    assert Count(Refresh, s) == (if Escaped(Refresh, c) then 1 else 0) + Count(Refresh, s[1..]);
  }

  lemma WeightAppend(a: seq<byte>, b: seq<byte>)
    ensures Weight(a + b) == Weight(a) + Weight(b)
  {
    CountAppend(a, b);
  }

  lemma HexWeight(x: int, y: int)
    requires 0 <= x < 16 && 0 <= y < 16
    ensures Weight([HexUpper(x), HexUpper(y)]) == 4
  {
    HexNotEscaped(x);
    HexNotEscaped(y);
    assert [HexUpper(x), HexUpper(y)] == [HexUpper(x)] + [HexUpper(y)];
    WeightAppend([HexUpper(x)], [HexUpper(y)]);
    WeightOf1(HexUpper(x));
    WeightOf1(HexUpper(y));
  }

  // What an escaped byte becomes: itself, or behind a percent sign its escape in part or whole.
  lemma OutEscapedAny(st: State, c: byte, rest: seq<byte>) returns (e: seq<byte>)
    requires Sane(st) && Escaped(Refresh, c)
    ensures Out(st, [PERCENT, HexUpper(c / 16), HexUpper(c % 16)] + rest) == e + Out(Usual, rest) && Weight(e) <= 5 + Bonus(st)
  {
    var x, y := HexUpper(c / 16), HexUpper(c % 16);
    WeightOf1(c);
    WeightOf1(PERCENT);
    PercentEscaped(Refresh);
    HexBack(c / 16);
    HexBack(c % 16);
    HexWeight(c / 16, c % 16);
    if st == Usual {
      OutEscaped(c, rest);
      return [c];
    }
    assert [PERCENT, x, y] + rest == [PERCENT] + ([x] + ([y] + rest));
    OutStep(st, PERCENT, [x] + ([y] + rest));
    OutStep(Usual, x, [y] + rest);
    OutStep(Usual, y, rest);
    if st == Quoted {
      e := [PERCENT] + [x, y];
      WeightAppend([PERCENT], [x, y]);
    } else {
      e := [x, y];
    }
  }

  // From any state the text gets no heavier than the state allows, and lighter if it has a percent sign.
  lemma {:induction false} Lighter(st: State, s: seq<byte>)
    requires Sane(st)
    ensures Weight(Out(st, Escape(Refresh, s))) <= Weight(s) + Bonus(st) - (if st == Usual && PERCENT in s then 1 else 0)
    decreases |s|
  {
    if s != [] {
      var c, tail, rest := s[0], s[1..], Escape(Refresh, s[1..]);
      assert s == [c] + tail;
      WeightAppend([c], tail);
      WeightOf1(c);
      PercentEscaped(Refresh);
      if Escaped(Refresh, c) {
        var e := OutEscapedAny(st, c, rest);
        Lighter(Usual, tail);
        WeightAppend(e, Out(Usual, rest));
      } else {
        var m := Step(st, c, PLAIN);
        OutStep(st, c, rest);
        Lighter(m.st, tail);
        WeightAppend(m.out, Out(m.st, rest));
        StepWeight(st, c);
      }
    }
  }

  lemma StepWeight(st: State, c: byte)
    requires Sane(st) && !Escaped(Refresh, c)
    ensures var m := Step(st, c, PLAIN); Sane(m.st) && Weight(m.out) + Bonus(m.st) <= 2 + Bonus(st) - (if st == Usual && c == PERCENT then 1 else 0)
  {
    var m := Step(st, c, PLAIN);
    if |m.out| == 1 { WeightOf1(m.out[0]); }
  }

  // A text comes back from REFRESH exactly when it has no percent sign.
  lemma RefreshTrip(s: seq<byte>)
    ensures Unescape(Usual, Escape(Refresh, s), PLAIN) == (s, []) <==> PERCENT !in s
  {
    if PERCENT in s {
      Lighter(Usual, s);
    } else {
      Undoes(Refresh, s);
    }
  }
}
