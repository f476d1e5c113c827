/** An address printed by ngx_inet6_ntop and read by ngx_inet6_addr of src/core/ngx_inet.c. */
module Inet6Trip {
  import opened Basics
  import opened InetText
  import opened Inet6Parse
  import opened Inet6Print

  // ---- one step of the reader ----

  lemma HexDigit(d: int)
    requires 0 <= d < 16
    ensures Hex(Digit(d) as int) == d && Digit(d) != ':' && Digit(d) != '.'
  {
  }

  lemma RunDigit(run: Reader, st: State, d: int, rest: string)
    requires Law(run)
    requires 0 <= d < 16 && st.nibbles < 4
    ensures run(st, [Digit(d)] + rest) == run(st.(nibbles := st.nibbles + 1, word := st.word * 16 + d), rest)
  {
    HexDigit(d);
    RunHexDigit(run, st, Digit(d), rest);
  }

  lemma RunHexDigit(run: Reader, st: State, c: char, rest: string)
    requires Law(run)
    requires Hex(c as int) >= 0 && c != ':' && c != '.' && st.nibbles < 4
    ensures run(st, [c] + rest) == run(st.(nibbles := st.nibbles + 1, word := st.word * 16 + Hex(c as int)), rest)
  {
    assert LawAt(run, st, c, rest);
  }

  // The digits of a number, in base 10 or 16, read as hexadecimal ones.
  function HexValue(k: nat, base: int): nat
    requires base == 10 || base == 16
  {
    if k < base then k else HexValue(k / base, base) * 16 + k % base
  }

  lemma {:induction false} HexIsValue(k: nat)
    ensures HexValue(k, 16) == k
  {
    if k >= 16 { HexIsValue(k / 16); }
  }

  // The number before the last digit, and the digit.
  lemma SplitNumber(k: nat, base: int) returns (q: nat, d: nat)
    requires (base == 10 || base == 16) && k >= base
    ensures q < k && d < 16 && Number(k, base) == Number(q, base) + [Digit(d)] && HexValue(k, base) == HexValue(q, base) * 16 + d
  {
    q, d := k / base, k % base;
  }

  lemma {:induction false} RunNumber(run: Reader, st: State, k: nat, base: int, rest: string)
    requires Law(run)
    requires (base == 10 || base == 16) && st.nibbles == 0 && st.word == 0 && |Number(k, base)| <= 4
    ensures run(st, Number(k, base) + rest) == run(st.(nibbles := |Number(k, base)|, word := HexValue(k, base)), rest)
    decreases k
  {
    if k < base {
      RunDigit(run, st, k, rest);
    } else {
      var q, d := SplitNumber(k, base);
      RunNumber(run, st, q, base, [Digit(d)] + rest);
      RunDigit(run, st.(nibbles := |Number(q, base)|, word := HexValue(q, base)), d, rest);
      assert Number(q, base) + [Digit(d)] + rest == Number(q, base) + ([Digit(d)] + rest);
    }
  }

  lemma RunColon(run: Reader, st: State, rest: string)
    requires Law(run)
    requires st.nibbles > 0 && |st.out| <= 12
    ensures run(st, ":" + rest) == run(State(Pushed(st), st.zero, 0, 0, Just(rest)), rest)
  {
    assert LawAt(run, st, ':', rest);
  }

  lemma RunHex(run: Reader, st: State, w: nat, rest: string)
    requires Law(run)
    requires w < 65536 && st.nibbles == 0 && st.word == 0
    ensures run(st, Number(w, 16) + rest) == run(st.(nibbles := |Number(w, 16)|, word := w), rest) && |Number(w, 16)| > 0
  {
    WordDigits(w);
    HexIsValue(w);
    RunNumber(run, st, w, 16, rest);
  }

  // A word and its colon.
  lemma RunWord(run: Reader, st: State, w: nat, rest: string)
    requires Law(run)
    requires w < 65536 && st.nibbles == 0 && st.word == 0 && |st.out| <= 12
    ensures run(st, Number(w, 16) + (":" + rest)) == run(State(Pushed(st.(word := w)), st.zero, 0, 0, Just(rest)), rest)
  {
    var s := st.(nibbles := |Number(w, 16)|, word := w);
    RunHex(run, st, w, ":" + rest);
    RunColon(run, s, rest);
    assert Pushed(s) == Pushed(st.(word := w));
  }

  // The last word.
  lemma RunLast(run: Reader, st: State, w: nat)
    requires Law(run)
    requires w < 65536 && st.nibbles == 0 && st.word == 0
    ensures run(st, Number(w, 16)) == Finish(st.(nibbles := |Number(w, 16)|, word := w))
  {
    assert Number(w, 16) + "" == Number(w, 16);
    RunHex(run, st, w, "");
    assert EndAt(run, st.(nibbles := |Number(w, 16)|, word := w));
  }

  // The colon of the zeros.
  lemma RunZeros(run: Reader, st: State, rest: string)
    requires Law(run)
    requires st.nibbles == 0 && st.zero < 0
    ensures run(st, ":" + rest) == run(st.(zero := |st.out|, digit := Just(rest)), rest)
  {
    assert LawAt(run, st, ':', rest);
  }

  // The IPv4 tail.
  lemma RunTail(run: Reader, st: State, a: byte, b: byte, c: byte, d: byte)
    requires Law(run)
    requires st.nibbles == 0 && st.word == 0 && |st.out| <= 12 && st.digit == Just(Dotted(a, b, c, d))
    ensures run(st, Dotted(a, b, c, d)) ==
      if Joined(a, b, c, d) == NONE then Bad
      else Finish(State(st.out + [a, b], st.zero, |Number(a, 10)|, Joined(a, b, c, d), st.digit))
  {
    var text := Dotted(a, b, c, d);
    var rest := Number(b, 10) + "." + (Number(c, 10) + "." + Number(d, 10));
    ByteDigits(a);
    assert text == Number(a, 10) + ("." + rest);
    RunNumber(run, st, a, 10, "." + rest);
    assert LawAt(run, st.(nibbles := |Number(a, 10)|, word := HexValue(a, 10)), '.', rest);
    DottedScan(a, b, c, d);
    TailBytes(a, b, c, d);
  }

  lemma TailBytes(a: byte, b: byte, c: byte, d: byte)
    ensures var v := Joined(a, b, c, d); v / 0x100_0000 % 256 == a && v / 0x1_0000 % 256 == b && v / 256 % 256 == c && v % 256 == d
  {
  }

  // ---- stretches of words ----

  function After(st: State, a: seq<byte>, i: int, j: int, rest: string): State
    requires |a| == 16 && 0 <= i <= j <= 8
  {
    if i == j then st else State(st.out + a[2 * i..2 * j], st.zero, 0, 0, Just(rest))
  }

  // Words i..j, none of them where the zeros begin, each with its colon.
  lemma {:induction false} RunStretch(run: Reader, st: State, a: seq<byte>, zero: int, max: int, i: int, j: int, n: int, tail: string)
    requires Law(run)
    requires |a| == 16 && 0 <= i <= j <= n <= 8 && j <= 7 && max >= 1 && !(i <= zero < j)
    requires st.nibbles == 0 && st.word == 0 && |st.out| + 2 * (j - i) <= 14
    ensures var rest := Body(a, zero, max, j, n) + tail;
      run(st, Body(a, zero, max, i, n) + tail) == run(After(st, a, i, j, rest), rest)
    decreases j - i
  {
    if i < j {
      var w, rest := Word(a, i), Body(a, zero, max, i + 1, n) + tail;
      BodyFirst(a, zero, max, i, n, tail);
      RunWord(run, st, w, rest);
      var s := State(Pushed(st.(word := w)), st.zero, 0, 0, Just(rest));
      RunStretch(run, s, a, zero, max, i + 1, j, n, tail);
      Stretches(st, a, i, j);
      assert After(st, a, i, j, Body(a, zero, max, j, n) + tail) == After(s, a, i + 1, j, Body(a, zero, max, j, n) + tail);
    }
  }

  lemma Stretches(st: State, a: seq<byte>, i: int, j: int)
    requires |a| == 16 && 0 <= i < j <= 8
    ensures st.out + a[2 * i..2 * j] == Pushed(st.(word := Word(a, i))) + a[2 * (i + 1)..2 * j]
    ensures i + 1 == j ==> st.out + a[2 * i..2 * j] == Pushed(st.(word := Word(a, i)))
  {
    var w := Word(a, i);
    assert [w / 256 % 256, w % 256] == a[2 * i..2 * i + 2];
    assert a[2 * i..2 * j] == a[2 * i..2 * i + 2] + a[2 * (i + 1)..2 * j];
  }

  lemma BodyFirst(a: seq<byte>, zero: int, max: int, i: int, n: int, tail: string)
    requires |a| == 16 && 0 <= i < n <= 8 && i < 7 && max >= 1 && i != zero
    ensures Body(a, zero, max, i, n) + tail == Number(Word(a, i), 16) + (":" + (Body(a, zero, max, i + 1, n) + tail))
  {
  }

  // ---- the three forms ----

  // No zeros are left out.
  lemma PlainTrip(run: Reader, a: seq<byte>, max: int)
    requires Law(run)
    requires |a| == 16 && max >= 1
    ensures run(Begin(), Body(a, -1, max, 0, 8)) == Good(a)
  {
    var rest := Body(a, -1, max, 7, 8) + "";
    var s := After(Begin(), a, 0, 7, rest);
    assert Body(a, -1, max, 0, 8) + "" == Body(a, -1, max, 0, 8);
    RunStretch(run, Begin(), a, -1, max, 0, 7, 8, "");
    LastWord(run, s, a, max, -1);
    assert s.out == a[..14];
    FinishPlain(a, s.(nibbles := |Number(Word(a, 7), 16)|, word := Word(a, 7)));
  }

  lemma FinishPlain(a: seq<byte>, st: State)
    requires |a| == 16 && st.out == a[..14] && st.word == Word(a, 7) && st.nibbles > 0 && st.zero == -1
    ensures Finish(st) == Good(a)
  {
    LastBytes(a, st);
    assert a[..14] + a[14..16] == a;
  }

  lemma LastBytes(a: seq<byte>, st: State)
    requires |a| == 16 && st.word == Word(a, 7)
    ensures Pushed(st) == st.out + a[14..16]
  {
    assert [st.word / 256 % 256, st.word % 256] == a[14..16];
  }

  // The zeros from word z to word e are left out, and words follow them.
  lemma InnerTrip(run: Reader, a: seq<byte>, z: int, m: int)
    requires Law(run)
    requires |a| == 16 && 0 <= z && m >= 2 && z + m < 8 && ZeroRun(a, z, z + m)
    ensures run(Begin(), Body(a, z, m, 0, 8)) == Good(a)
  {
    var e, rest := z + m, Body(a, z, m, z + m, 8);
    var s := ToZeros(run, a, z, m, 8, "");
    var last := Body(a, z, m, 7, 8) + "";
    RunStretch(run, s, a, z, m, e, 7, 8, "");
    var t := After(s, a, e, 7, last);
    LastWord(run, t, a, m, z);
    assert t.out == a[..2 * z] + a[2 * e..14];
    FinishZeros(a, z, m, t.(nibbles := |Number(Word(a, 7), 16)|, word := Word(a, 7)));
  }

  // Up to and with the colon of the zeros.
  lemma ToZeros(run: Reader, a: seq<byte>, z: int, m: int, n: int, tail: string) returns (s: State)
    requires Law(run)
    requires |a| == 16 && 0 <= z < n <= 8 && z <= 7 && m >= 1
    ensures s == State(a[..2 * z], 2 * z, 0, 0, Just(Body(a, z, m, z + m, n) + tail))
    ensures run(Begin(), Body(a, z, m, 0, n) + tail) == run(s, Body(a, z, m, z + m, n) + tail)
    ensures tail == "" ==> run(Begin(), Body(a, z, m, 0, n)) == run(s, Body(a, z, m, z + m, n) + tail)
  {
    var rest := Body(a, z, m, z + m, n) + tail;
    var t := After(Begin(), a, 0, z, ":" + rest);
    RunStretch(run, Begin(), a, z, m, 0, z, n, tail);
    BodyZeros(a, z, m, n, tail);
    RunZeros(run, t, rest);
    AfterBegin(a, z, ":" + rest);
    s := t.(zero := |t.out|, digit := Just(rest));
  }

  lemma BodyZeros(a: seq<byte>, z: int, m: int, n: int, tail: string)
    requires |a| == 16 && 0 <= z < n <= 8 && m >= 1
    ensures Body(a, z, m, z, n) + tail == ":" + (Body(a, z, m, z + m, n) + tail)
    ensures tail == "" ==> Body(a, z, m, 0, n) + tail == Body(a, z, m, 0, n)
  {
  }

  lemma AfterBegin(a: seq<byte>, z: int, rest: string)
    requires |a| == 16 && 0 <= z <= 8
    ensures var t := After(Begin(), a, 0, z, rest); t.out == a[..2 * z] && t.zero == -1 && t.nibbles == 0 && t.word == 0
  {
  }

  // The zeros go in, with the words e.. of the address behind them.
  lemma FinishAt(a: seq<byte>, z: int, e: int, st: State)
    requires |a| == 16 && ZeroRun(a, z, e) && z < e && Pushed(st) == a[..2 * z] + a[2 * e..16] && st.zero == 2 * z
    ensures Finish(st) == Good(a)
  {
    var out := Pushed(st);
    ZeroBytes(a, z, e);
    Halves(a[..2 * z], a[2 * e..16]);
    assert |out| == 16 - 2 * (e - z);
  }

  lemma Halves(x: seq<byte>, y: seq<byte>)
    ensures (x + y)[..|x|] == x && (x + y)[|x|..] == y
  {
  }

  lemma FinishZeros(a: seq<byte>, z: int, m: int, st: State)
    requires |a| == 16 && 0 <= z && m >= 1 && z + m < 8 && ZeroRun(a, z, z + m)
    requires st.out == a[..2 * z] + a[2 * (z + m)..14] && st.word == Word(a, 7) && st.zero == 2 * z
    ensures Finish(st) == Good(a)
  {
    LastBytes(a, st);
    assert a[2 * (z + m)..14] + a[14..16] == a[2 * (z + m)..16];
    FinishAt(a, z, z + m, st);
  }

  lemma ZeroBytes(a: seq<byte>, z: int, e: int)
    requires |a| == 16 && ZeroRun(a, z, e)
    ensures a[2 * z..2 * e] == Zeros(2 * (e - z)) && a == a[..2 * z] + Zeros(2 * (e - z)) + a[2 * e..16]
  {
    forall i | 2 * z <= i < 2 * e ensures a[i] == 0 { assert Word(a, i / 2) == 0; }
  }

  // The zeros reach to the end.
  lemma EndTrip(run: Reader, a: seq<byte>, z: int, m: int)
    requires Law(run)
    requires |a| == 16 && 0 <= z && m >= 2 && z + m == 8 && ZeroRun(a, z, 8)
    ensures run(Begin(), Body(a, z, m, 0, 8)) == Good(a)
  {
    var s := ToZeros(run, a, z, m, 8, "");
    assert Body(a, z, m, 8, 8) + "" == "";
    assert EndAt(run, s);
    ZeroBytes(a, z, 8);
    assert a[2 * 7..16] == [0, 0] by { assert Word(a, 7) == 0; }
    FinishAt(a, z, 7, s);
  }

  lemma StartsWithDigit(w: nat, rest: string)
    ensures Number(w, 16) + rest != "" && (Number(w, 16) + rest)[0] != ':'
  {
    FirstDigit(w);
    assert (Number(w, 16) + rest)[0] == Number(w, 16)[0];
  }

  lemma {:induction false} FirstDigit(w: nat)
    ensures Number(w, 16)[0] != ':'
  {
    if w < 16 { HexDigit(w); } else { FirstDigit(w / 16); }
  }

  // The last word, at the end of the text.
  lemma LastWord(run: Reader, st: State, a: seq<byte>, max: int, zero: int)
    requires Law(run)
    requires |a| == 16 && max >= 1 && st.nibbles == 0 && st.word == 0 && zero != 7
    ensures run(st, Body(a, zero, max, 7, 8) + "") == Finish(st.(nibbles := |Number(Word(a, 7), 16)|, word := Word(a, 7)))
    ensures Pushed(st.(word := Word(a, 7))) == st.out + a[14..16]
  {
    var w := Word(a, 7);
    assert Body(a, zero, max, 7, 8) + "" == Number(w, 16);
    RunLast(run, st, w);
    assert [w / 256 % 256, w % 256] == a[14..16];
  }

  // An IPv4 tail that reads as the mark of an error.
  ghost predicate AllOnes(a: seq<byte>)
    requires |a| == 16
  {
    a[12] == 255 && a[13] == 255 && a[14] == 255 && a[15] == 255
  }

  lemma JoinedOnes(a: byte, b: byte, c: byte, d: byte)
    ensures Joined(a, b, c, d) == NONE <==> a == 255 && b == 255 && c == 255 && d == 255
  {
  }

  // An IPv4 tail behind k words that are zero and perhaps one more.
  lemma TailTrip(run: Reader, a: seq<byte>, m: int)
    requires Law(run)
    requires |a| == 16 && ZeroRun(a, 0, m) && (m == 5 || m == 6 || m == 7)
    ensures run(Begin(), Body(a, 0, m, 0, 6) + Dotted(a[12], a[13], a[14], a[15])) == if AllOnes(a) then Bad else Good(a)
  {
    var tail := Dotted(a[12], a[13], a[14], a[15]);
    var k := if m == 5 then 5 else 6;
    var s := ToZeros(run, a, 0, m, 6, tail);
    RunStretch(run, s, a, 0, m, k, 6, 6, tail);
    assert Body(a, 0, m, 6, 6) == "" && "" + tail == tail;
    assert m >= 6 ==> Body(a, 0, m, m, 6) == "";
    var t := After(s, a, k, 6, "" + tail);
    assert t.out == a[2 * k..12] && t.digit == Just(tail);
    RunTail(run, t, a[12], a[13], a[14], a[15]);
    JoinedOnes(a[12], a[13], a[14], a[15]);
    FinishTail(a, k, State(t.out + [a[12], a[13]], 0, |Number(a[12], 10)|, Joined(a[12], a[13], a[14], a[15]), t.digit));
  }

  lemma FinishTail(a: seq<byte>, k: int, st: State)
    requires |a| == 16 && 0 < k <= 6 && ZeroRun(a, 0, k) && st.zero == 0
    requires st.out == a[2 * k..12] + [a[12], a[13]] && st.word == Joined(a[12], a[13], a[14], a[15])
    ensures Finish(st) == Good(a)
  {
    PushTail(st, a[12], a[13], a[14], a[15]);
    assert st.out + [a[14], a[15]] == a[2 * k..16];
    assert a[..0] + a[2 * k..16] == a[2 * k..16];
    FinishAt(a, 0, k, st);
  }

  lemma PushTail(st: State, a: byte, b: byte, c: byte, d: byte)
    requires st.word == Joined(a, b, c, d)
    ensures Pushed(st) == st.out + [c, d]
  {
    TailBytes(a, b, c, d);
  }

  lemma ParseBegins(body: string, zero: int)
    requires zero != 0 ==> body != "" && body[0] != ':'
    ensures Parse((if zero == 0 then ":" else "") + body) == Run(Begin(), body)
  {
    var t := ":" + body;
    assert t[0] == ':' && t[1..] == body && "" + body == body;
  }

  // Every address comes back, but the two whose dotted tail is all ones.
  lemma RoundTrip(a: seq<byte>, zero: int, max: int)
    requires |a| == 16 && Longest(a, zero, max)
    ensures Parse(Text(a, zero, max)) == if Tail4(a, zero, max) && AllOnes(a) then Bad else Good(a)
  {
    RunLaw();
    if zero != 0 { StartsWithDigit(Word(a, 0), ":" + Body(a, zero, max, 1, 8)); }
    if Tail4(a, zero, max) {
      ParseBegins(Body(a, zero, max, 0, 6) + Dotted(a[12], a[13], a[14], a[15]), zero);
      TailTrip(Run, a, max);
    } else {
      ParseBegins(Body(a, zero, max, 0, 8), zero);
      if zero == -1 {
        PlainTrip(Run, a, max);
      } else if zero + max < 8 {
        InnerTrip(Run, a, zero, max);
      } else {
        EndTrip(Run, a, zero, max);
      }
    }
  }

  const V4_COMPATIBLE: seq<byte> := [0, 0, 0, 0, 0, 0, 0, 0, 0, 0, 0, 0, 255, 255, 255, 255]
  const V4_MAPPED: seq<byte> := [0, 0, 0, 0, 0, 0, 0, 0, 0, 0, 255, 255, 255, 255, 255, 255]

  // They are ::255.255.255.255 and ::ffff:255.255.255.255.
  lemma OnlyTwo(a: seq<byte>, zero: int, max: int)
    requires |a| == 16 && Longest(a, zero, max)
    ensures Tail4(a, zero, max) && AllOnes(a) <==> a == V4_COMPATIBLE || a == V4_MAPPED
  {
    if Tail4(a, zero, max) && AllOnes(a) {
      var k := if max == 5 then 5 else 6;
      assert Word(a, 6) == 65535;
      InRun(a, 0, max, 6);
      ZeroBytes(a, 0, max);
      assert a[..2 * max] == Zeros(2 * max) by { assert a[0..2 * max] == a[..2 * max]; }
      forall i | 0 <= i < 16 ensures a[i] == if k == 5 then V4_MAPPED[i] else V4_COMPATIBLE[i] {
        assert i < 2 * max ==> a[i] == a[..2 * max][i];
      }
    }
    if a == V4_COMPATIBLE {
      LongestIs(a, zero, max, 6);
    }
    if a == V4_MAPPED {
      LongestIs(a, zero, max, 5);
    }
  }

  // With k zero words followed by others that are not zero, the run is those k.
  lemma LongestIs(a: seq<byte>, zero: int, max: int, k: int)
    requires |a| == 16 && Longest(a, zero, max) && 2 <= k < 8 && forall i {:trigger Word(a, i)} :: 0 <= i < 8 ==> (Word(a, i) == 0 <==> i < k)
    ensures zero == 0 && max == k
  {
    assert ZeroRun(a, 0, k);
    InRun(a, zero, zero + max, k);
    if zero > k { InRun(a, zero, zero + max, zero); }
  }
}
