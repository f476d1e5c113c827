/** ngx_inet6_ntop of src/core/ngx_inet.c, and its round trip through ngx_inet6_addr. */
module Inet6Print {
  import opened Basics
  import opened InetText
  import opened Inet6Parse

  function Word(a: seq<byte>, i: int): (w: int)
    requires |a| == 16 && 0 <= i < 8
    ensures 0 <= w < 65536
  {
    a[2 * i] as int * 256 + a[2 * i + 1] as int
  }

  // Words i..j are zero.
  ghost predicate ZeroRun(a: seq<byte>, i: int, j: int)
    requires |a| == 16
  {
    0 <= i <= j <= 8 && forall k {:trigger Word(a, k)} :: i <= k < j ==> Word(a, k) == 0
  }

  // The first of the longest runs of zero words, of at least two; none if zero is -1.
  ghost predicate Longest(a: seq<byte>, zero: int, max: int)
    requires |a| == 16
  {
    && (zero != -1 ==> max >= 2 && ZeroRun(a, zero, zero + max))
    && (zero == -1 ==> max == 1)
    && forall i, j {:trigger ZeroRun(a, i, j)} :: ZeroRun(a, i, j) ==> j - i <= max && (j - i == max && zero != -1 ==> zero <= i)
  }

  // The same for the runs among the words before i.
  ghost predicate LongestTo(a: seq<byte>, zero: int, max: int, i: int)
    requires |a| == 16
  {
    && (zero != -1 ==> max >= 2 && ZeroRun(a, zero, zero + max) && zero + max <= i)
    && (zero == -1 ==> max == 1)
    && forall p, q {:trigger ZeroRun(a, p, q)} :: ZeroRun(a, p, q) && q <= i ==> q - p <= max && (q - p == max && zero != -1 ==> zero <= p)
  }

  method FindZeros(a: seq<byte>) returns (zero: int, max: int)
    requires |a| == 16
    ensures Longest(a, zero, max)
  {
    zero, max := -1, 1;
    var last, n, i := -1, 0, 0;
    while i < 8
      invariant 0 <= i <= 8 && 0 <= n <= i && (n > 0 ==> last == i - n) && ZeroRun(a, i - n, i)
      invariant n < i ==> Word(a, i - n - 1) != 0
      invariant LongestTo(a, zero, max, i - n)
    {
      if a[2 * i] != 0 || a[2 * i + 1] != 0 {
        assert Word(a, i) != 0;
        RunEnds(a, zero, max, i, n);
        if max < n {
          zero := last;
          max := n;
        }
        n := 0;
        i := i + 1;
        continue;
      }
      assert Word(a, i) == 0;
      if n == 0 {
        last := i;
      }
      n := n + 1;
      i := i + 1;
    }
    RunEnds(a, zero, max, 8, n);
    if max < n {
      zero := last;
      max := n;
    }
  }

  lemma InRun(a: seq<byte>, p: int, q: int, k: int)
    requires |a| == 16 && 0 <= k < 8
    ensures ZeroRun(a, p, q) && p <= k < q ==> Word(a, k) == 0
  {
  }

  // A run among the words before i lies before the run of length n there or in it.
  lemma Apart(a: seq<byte>, i: int, n: int, p: int, q: int)
    requires |a| == 16 && 0 <= n <= i <= 8 && (n < i ==> Word(a, i - n - 1) != 0) && ZeroRun(a, p, q) && q <= i
    ensures q <= i - n || i - n <= p
  {
    if n < i { InRun(a, p, q, i - n - 1); }
  }

  lemma RunEnds(a: seq<byte>, zero: int, max: int, i: int, n: int)
    requires |a| == 16 && 0 <= n <= i <= 8 && ZeroRun(a, i - n, i) && (n < i ==> Word(a, i - n - 1) != 0) && LongestTo(a, zero, max, i - n)
    requires i < 8 ==> Word(a, i) != 0
    ensures var z, m := if max < n then i - n else zero, if max < n then n else max;
      if i < 8 then LongestTo(a, z, m, i + 1) else Longest(a, z, m)
  {
    var z, m := if max < n then i - n else zero, if max < n then n else max;
    forall p, q | ZeroRun(a, p, q) && q <= i + 1 ensures q - p <= m && (q - p == m && z != -1 ==> z <= p) {
      if i < 8 { InRun(a, p, q, i); }
      if q <= i { Apart(a, i, n, p, q); }
    }
  }

  // ---- the text ----

  // The last four bytes are printed as an IPv4 address.
  predicate Tail4(a: seq<byte>, zero: int, max: int)
    requires |a| == 16
  {
    zero == 0 && ((max == 5 && a[10] == 255 && a[11] == 255) || max == 6 || (max == 7 && a[14] != 0 && a[15] != 1))
  }

  // Words i..n with their colons; the zeros are one colon.
  function Body(a: seq<byte>, zero: int, max: int, i: int, n: int): string
    requires |a| == 16 && 0 <= i && n <= 8 && max >= 1
    decreases n - i
  {
    if i >= n then ""
    else if i == zero then ":" + Body(a, zero, max, i + max, n)
    else Number(Word(a, i), 16) + ((if i < 7 then ":" else "") + Body(a, zero, max, i + 1, n))
  }

  function Text(a: seq<byte>, zero: int, max: int): string
    requires |a| == 16 && max >= 1
  {
    (if zero == 0 then ":" else "") +
    if Tail4(a, zero, max) then Body(a, zero, max, 0, 6) + Dotted(a[12], a[13], a[14], a[15]) else Body(a, zero, max, 0, 8)
  }

  // ---- the forms of section 2.2 of RFC 4291 ----

  function Pieces(a: seq<byte>, i: int, j: int): (l: seq<string>)
    requires |a| == 16 && 0 <= i <= j <= 8
    ensures |l| == j - i && forall k {:trigger l[k]} :: 0 <= k < j - i ==> l[k] == Number(Word(a, i + k), 16)
  {
    seq(j - i, k requires 0 <= k < j - i => Number(Word(a, i + k), 16))
  }

  function Colons(l: seq<string>): string {
    if l == [] then "" else if |l| == 1 then l[0] else l[0] + (":" + Colons(l[1..]))
  }

  lemma PiecesFrom(a: seq<byte>, i: int, j: int)
    requires |a| == 16 && 0 <= i < j <= 8
    ensures Pieces(a, i, j)[0] == Number(Word(a, i), 16) && Pieces(a, i, j)[1..] == Pieces(a, i + 1, j)
  {
  }

  // Words to the end of the address.
  lemma {:induction false} BodyRest(a: seq<byte>, zero: int, max: int, i: int)
    requires |a| == 16 && max >= 1 && 0 <= i <= 8 && !(i <= zero < 8)
    ensures Body(a, zero, max, i, 8) == Colons(Pieces(a, i, 8))
    decreases 8 - i
  {
    if i < 8 {
      PiecesFrom(a, i, 8);
      BodyRest(a, zero, max, i + 1);
      if i == 7 { assert Pieces(a, 8, 8) == []; }
    }
  }

  // Words up to the zeros.
  lemma {:induction false} BodyFront(a: seq<byte>, zero: int, max: int, i: int)
    requires |a| == 16 && max >= 1 && 0 <= i <= zero && zero + max <= 8
    ensures Body(a, zero, max, i, 8) == Colons(Pieces(a, i, zero)) + ((if i < zero then ":" else "") + (":" + Colons(Pieces(a, zero + max, 8))))
    decreases zero - i
  {
    var rest := ":" + Colons(Pieces(a, zero + max, 8));
    if i == zero {
      BodyRest(a, zero, max, zero + max);
      assert "" + ("" + rest) == rest;
    } else {
      PiecesFrom(a, i, zero);
      BodyFront(a, zero, max, i + 1);
      FrontStep(Number(Word(a, i), 16), Pieces(a, i + 1, zero), rest);
    }
  }

  lemma FrontStep(x: string, l: seq<string>, rest: string)
    ensures x + (":" + (Colons(l) + ((if l == [] then "" else ":") + rest))) == Colons([x] + l) + (":" + rest)
  {
    assert ([x] + l)[1..] == l;
    if l == [] {
      assert x + (":" + ("" + ("" + rest))) == x + (":" + rest);
    } else {
      Regroup(x, ":", Colons(l), ":" + rest);
      assert x + ":" + Colons(l) + (":" + rest) == (x + (":" + Colons(l))) + (":" + rest);
    }
  }

  // Eight words, or the words around the zeros, or the zeros and an IPv4 address.
  function Form(a: seq<byte>, zero: int, max: int): string
    requires |a| == 16 && (zero != -1 ==> 0 <= zero && max >= 0 && zero + max <= 8)
  {
    if Tail4(a, zero, max) then "::" + (if max == 5 then "ffff:" else "") + Dotted(a[12], a[13], a[14], a[15])
    else if zero == -1 then Colons(Pieces(a, 0, 8))
    else Colons(Pieces(a, 0, zero)) + "::" + Colons(Pieces(a, zero + max, 8))
  }

  lemma TextForm(a: seq<byte>, zero: int, max: int)
    requires |a| == 16 && Longest(a, zero, max)
    ensures Text(a, zero, max) == Form(a, zero, max)
  {
    if Tail4(a, zero, max) {
      TailForm(a, max);
    } else if zero == -1 {
      BodyRest(a, zero, max, 0);
      assert "" + Body(a, zero, max, 0, 8) == Body(a, zero, max, 0, 8);
    } else {
      BodyFront(a, zero, max, 0);
      DoubleColon(Colons(Pieces(a, 0, zero)), Colons(Pieces(a, zero + max, 8)), zero == 0);
    }
  }

  lemma DoubleColon(l: string, rest: string, first: bool)
    requires first ==> l == ""
    ensures (if first then ":" else "") + (l + ((if first then "" else ":") + (":" + rest))) == l + "::" + rest
  {
    if first {
      assert ":" + ("" + ("" + (":" + rest))) == "" + "::" + rest;
    } else {
      assert "" + (l + (":" + (":" + rest))) == l + "::" + rest;
    }
  }

  lemma TailForm(a: seq<byte>, max: int)
    requires |a| == 16 && Tail4(a, 0, max)
    ensures Text(a, 0, max) == Form(a, 0, max)
  {
    var dotted := Dotted(a[12], a[13], a[14], a[15]);
    if max == 5 {
      assert Word(a, 5) == 65535;
      AllOnesText();
      assert Body(a, 0, 5, 6, 6) == "";
      assert Body(a, 0, 5, 5, 6) == "ffff" + (":" + "");
      assert Body(a, 0, 5, 0, 6) == ":" + "ffff:";
      assert ":" + (":" + "ffff:" + dotted) == "::" + "ffff:" + dotted;
    } else {
      assert Body(a, 0, max, max, 6) == "";
      assert Body(a, 0, max, 0, 6) == ":" + "";
      assert ":" + (":" + "" + dotted) == "::" + "" + dotted;
    }
  }

  lemma AllOnesText()
    ensures Number(65535, 16) == "ffff"
  {
    assert Number(15, 16) == "f" && Number(255, 16) == "ff" && Number(4095, 16) == "fff";
  }

  // ---- the length of the text ----

  lemma {:induction false} ColonsLength(a: seq<byte>, i: int, j: int)
    requires |a| == 16 && 0 <= i <= j <= 8
    ensures |Colons(Pieces(a, i, j))| <= if i < j then 5 * (j - i) - 1 else 0
    decreases j - i
  {
    if i < j {
      PiecesFrom(a, i, j);
      WordDigits(Word(a, i));
      ColonsLength(a, i + 1, j);
    }
  }

  // At most eight words of four digits.
  const LONGEST := 39

  lemma TextLength(a: seq<byte>, zero: int, max: int)
    requires |a| == 16 && Longest(a, zero, max)
    ensures |Text(a, zero, max)| <= LONGEST
  {
    TextForm(a, zero, max);
    ByteDigits(a[12]);
    ByteDigits(a[13]);
    ByteDigits(a[14]);
    ByteDigits(a[15]);
    if zero == -1 {
      ColonsLength(a, 0, 8);
    } else {
      ColonsLength(a, 0, zero);
      ColonsLength(a, zero + max, 8);
    }
  }

  const TEXT_LENGTH := 45

  // The text of an address; none if the caller's buffer is too short for any.
  method Ntop(a: seq<byte>, len: int) returns (text: string, ghost zero: int, ghost max: int)
    requires |a| == 16
    ensures len < TEXT_LENGTH ==> text == ""
    ensures len >= TEXT_LENGTH ==> Longest(a, zero, max) && max >= 1 && text == Text(a, zero, max) == Form(a, zero, max)
    ensures |text| <= LONGEST && |text| <= (if len < 0 then 0 else len)
  {
    if len < TEXT_LENGTH {
      return "", -1, 1;
    }
    var z, m := FindZeros(a);
    zero, max := z, m;
    TextForm(a, zero, max);
    TextLength(a, zero, max);
    var n := 8;
    text := "";
    if z == 0 {
      if (m == 5 && a[10] == 255 && a[11] == 255) || m == 6 || (m == 7 && a[14] != 0 && a[15] != 1) {
        n := 6;
      }
      text := ":";
    }
    var body := PrintBody(a, z, m, n);
    if n == 6 {
      body := body + Dotted(a[12], a[13], a[14], a[15]);
    }
    text := text + body;
  }

  method PrintBody(a: seq<byte>, zero: int, max: int, n: int) returns (text: string)
    requires |a| == 16 && n <= 8 && max >= 1
    ensures text == Body(a, zero, max, 0, n)
  {
    var i := 0;
    text := "";
    while i < n
      invariant 0 <= i && text + Body(a, zero, max, i, n) == Body(a, zero, max, 0, n)
      decreases n - i
    {
      if i == zero {
        Regroup(text, ":", "", Body(a, zero, max, i + max, n));
        text := text + ":";
        i := i + max;
        continue;
      }
      var colon := if i < 7 then ":" else "";
      Regroup(text, Number(Word(a, i), 16), colon, Body(a, zero, max, i + 1, n));
      text := text + Number(Word(a, i), 16) + colon;
      i := i + 1;
    }
  }

  lemma Regroup(a: string, b: string, c: string, d: string)
    ensures a + (b + (c + d)) == a + b + c + d
  {
  }
}
