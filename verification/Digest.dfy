/** The buffering of src/core/ngx_md5.c and src/core/ngx_sha1.c; what a block does to the chaining
    words is a parameter. */
module Digest {
  import opened Basics

  const BLOCK := 64
  const WORD := 0x1_0000_0000_0000_0000

  // A digest: its initial words, what a block does to them, and the byte order of the length.
  datatype Scheme<!C> = Scheme(init: C, step: (C, seq<byte>) -> C, bigEndian: bool)

  // ---- the specification ----

  // The words after all the blocks of a message.
  function Fold<C>(d: Scheme<C>, c: C, s: seq<byte>): C
    requires |s| % BLOCK == 0
    decreases |s|
  {
    if |s| < BLOCK then c else Fold(d, d.step(c, s[..BLOCK]), s[BLOCK..])
  }

  function Pow256(k: nat): (r: nat)
    ensures r > 0
  {
    if k == 0 then 1 else 256 * Pow256(k - 1)
  }

  // Byte k of a number: n >> 8k
  function Byte(n: nat, k: nat): byte { n / Pow256(k) % 256 }

  // The eight bytes of a number.
  function Length(n: nat, big: bool): (s: seq<byte>)
    ensures |s| == 8
  {
    seq<byte>(8, i requires 0 <= i < 8 => Byte(n, if big then 7 - i else i))
  }

  function Zeros(n: nat): (s: seq<byte>)
    ensures |s| == n && forall i :: 0 <= i < n ==> s[i] == 0
  {
    seq(n, i => 0)
  }

  // The bytes between the mark and the length: as few as make whole blocks.
  function Gap(n: nat): (g: nat)
    ensures g < BLOCK && (n + 1 + g + 8) % BLOCK == 0
  {
    (2 * BLOCK - 9 - n % BLOCK) % BLOCK
  }

  // Sections 3.1 and 3.2 of RFC 1321 and section 5.1.1 of FIPS 180-4: one bit, zeros, the length in bits.
  function Padding(n: nat, big: bool): (p: seq<byte>)
    ensures (n + |p|) % BLOCK == 0
  {
    [0x80] + Zeros(Gap(n)) + Length(8 * n % WORD, big)
  }

  lemma {:induction false} FoldAppend<C>(d: Scheme<C>, c: C, a: seq<byte>, b: seq<byte>)
    requires |a| % BLOCK == 0 && |b| % BLOCK == 0
    ensures (|a| + |b|) % BLOCK == 0 && Fold(d, c, a + b) == Fold(d, Fold(d, c, a), b)
    decreases |a|
  {
    if |a| < BLOCK {
      assert a == [] && a + b == b;
    } else {
      FoldAppend(d, d.step(c, a[..BLOCK]), a[BLOCK..], b);
      assert (a + b)[..BLOCK] == a[..BLOCK] && (a + b)[BLOCK..] == a[BLOCK..] + b;
    }
  }

  // ngx_md5_init and ngx_sha1_init; the rounds of a block are not part of this model.
  datatype Words = Words(a: nat, b: nat, c: nat, d: nat, e: nat)

  function Md5(step: (Words, seq<byte>) -> Words): Scheme<Words> {
    Scheme(Words(0x67452301, 0xefcdab89, 0x98badcfe, 0x10325476, 0), step, false)
  }

  function Sha1(step: (Words, seq<byte>) -> Words): Scheme<Words> {
    Scheme(Words(0x67452301, 0xefcdab89, 0x98badcfe, 0x10325476, 0xc3d2e1f0), step, true)
  }

  // ---- the context ----

  class Context<C> {
    const scheme: Scheme<C>
    var bytes: nat
    var words: C
    const buffer: array<byte>
    // What was put in so far.
    ghost var message: seq<byte>

    // The whole blocks are in the words, the rest is in the buffer.
    ghost predicate Valid() reads this, buffer {
      && buffer.Length == BLOCK && bytes == |message| % WORD
      && var whole := |message| - |message| % BLOCK;
      words == Fold(scheme, scheme.init, message[..whole]) && buffer[..|message| % BLOCK] == message[whole..]
    }

    constructor (scheme: Scheme<C>)
      ensures Valid() && message == [] && this.scheme == scheme && fresh(buffer)
    {
      this.scheme, bytes, words, message := scheme, 0, scheme.init, [];
      buffer := new byte[BLOCK](i => 0);
    }

    // ngx_md5_body and ngx_sha1_body: all the blocks of data
    method Body(data: seq<byte>)
      requires |data| % BLOCK == 0
      modifies this`words
      ensures words == Fold(scheme, old(words), data)
    {
      var p := 0;
      while p < |data|
        invariant 0 <= p <= |data| && p % BLOCK == 0
        invariant Fold(scheme, words, data[p..]) == Fold(scheme, old(words), data)
      {
        assert data[p..][..BLOCK] == data[p..p + BLOCK] && data[p..][BLOCK..] == data[p + BLOCK..];
        words := scheme.step(words, data[p..p + BLOCK]);
        p := p + BLOCK;
      }
    }

    method Copy(at: int, data: seq<byte>)
      requires 0 <= at && at + |data| <= buffer.Length
      modifies buffer
      ensures buffer[..at + |data|] == old(buffer[..at]) + data
    {
      forall i | 0 <= i < |data| { buffer[at + i] := data[i]; }
    }

    // ngx_md5_update and ngx_sha1_update
    method Update(data: seq<byte>)
      requires Valid()
      modifies this`bytes, this`words, this`message, buffer
      ensures Valid() && message == old(message) + data
    {
      var used := bytes % BLOCK;
      UsedIs(|message|);
      AddBytes(|message|, |data|);
      bytes := (bytes + |data|) % WORD;
      if used == 0 {
        ghost var m := message;
        assert m[..|m|] == m;
        message := message + data;
        Blocks(data, m);
        return;
      }
      var free := BLOCK - used;
      if |data| < free {
        Copy(used, data);
        StaysPart(message, data);
        message := message + data;
        return;
      }
      FillBuffer(used, data[..free]);
      ghost var m := message + data[..free];
      assert message + data == m + data[free..];
      message := message + data;
      Blocks(data[free..], m);
    }

    // The first bytes complete the block in the buffer.
    method FillBuffer(used: int, data: seq<byte>)
      requires buffer.Length == BLOCK && used == |message| % BLOCK && used + |data| == BLOCK
      requires words == Fold(scheme, scheme.init, message[..Whole(|message|)]) && buffer[..used] == message[Whole(|message|)..]
      modifies this`words, buffer
      ensures |message + data| % BLOCK == 0 && words == Fold(scheme, scheme.init, message + data)
    {
      FillsBlock(scheme, message, data, words);
      Copy(used, data);
      assert buffer[..] == buffer[..BLOCK];
      Body(buffer[..]);
    }

    // The second half, with the message m a whole number of blocks
    method Blocks(rest: seq<byte>, ghost m: seq<byte>)
      requires buffer.Length == BLOCK && |m| % BLOCK == 0 && words == Fold(scheme, scheme.init, m) && message == m + rest && bytes == |message| % WORD
      modifies this`words, buffer
      ensures Valid()
    {
      var n := |rest| - |rest| % BLOCK;
      if n > 0 {
        Body(rest[..n]);
      }
      assert n == 0 ==> rest[..n] == [];
      FoldAppend(scheme, scheme.init, m, rest[..n]);
      Copy(0, rest[n..]);
      WholePart(m, rest);
    }

    // ngx_md5_final and ngx_sha1_final: the words of the padded message
    method Final() returns (r: C)
      requires Valid()
      modifies this`words, buffer
      ensures (|message| + |Padding(|message|, scheme.bigEndian)|) % BLOCK == 0
      ensures r == Fold(scheme, scheme.init, message + Padding(|message|, scheme.bigEndian))
    {
      var used := bytes % BLOCK;
      UsedIs(|message|);
      BitLength(|message|);
      var length := Length(8 * bytes % WORD, scheme.bigEndian);
      assert Padding(|message|, scheme.bigEndian) == [0x80] + Zeros(Gap(|message|)) + length;
      PaddedFold(scheme, message, words, buffer[..used], length);
      Copy(used, [0x80]);
      End(used + 1, length);
      r := words;
    }

    method End(used: int, length: seq<byte>)
      requires buffer.Length == BLOCK && 0 <= used <= BLOCK && |length| == 8
      modifies this`words, buffer
      ensures words == EndFold(scheme, old(words), old(buffer[..used]), length)
    {
      if BLOCK - used < 8 {
        EndLate(used, length);
      } else {
        EndHere(used, length);
      }
    }

    // The length fits behind the first "used" bytes of the buffer.
    method EndHere(used: int, length: seq<byte>)
      requires buffer.Length == BLOCK && 0 <= used <= BLOCK - 8 && |length| == 8
      modifies this`words, buffer
      ensures words == Fold(scheme, old(words), old(buffer[..used]) + Zeros(BLOCK - used - 8) + length)
    {
      Copy(used, Zeros(BLOCK - used - 8));
      Copy(BLOCK - 8, length);
      assert buffer[..] == buffer[..BLOCK];
      Body(buffer[..]);
    }

    // It takes a block more.
    method EndLate(used: int, length: seq<byte>)
      requires buffer.Length == BLOCK && 0 <= used <= BLOCK && |length| == 8
      modifies this`words, buffer
      ensures words == Fold(scheme, Fold(scheme, old(words), old(buffer[..used]) + Zeros(BLOCK - used)), Zeros(BLOCK - 8) + length)
    {
      Copy(used, Zeros(BLOCK - used));
      assert buffer[..] == buffer[..BLOCK];
      Body(buffer[..]);
      assert buffer[..0] == [];
      EndHere(0, length);
      assert [] + Zeros(BLOCK - 8) == Zeros(BLOCK - 8);
    }
  }

  // ---- parts of a message ----

  function Message(parts: seq<seq<byte>>): seq<byte> {
    if parts == [] then [] else Message(parts[..|parts| - 1]) + parts[|parts| - 1]
  }

  // Init, any number of updates, and final: however the message is cut, the words are those of the
  // whole of it with its padding.
  method Digested<C>(scheme: Scheme<C>, parts: seq<seq<byte>>) returns (r: C)
    ensures var m := Message(parts);
      (|m| + |Padding(|m|, scheme.bigEndian)|) % BLOCK == 0 && r == Fold(scheme, scheme.init, m + Padding(|m|, scheme.bigEndian))
  {
    var c := new Context<C>(scheme);
    var n := 0;
    while n < |parts|
      invariant 0 <= n <= |parts| && c.Valid() && c.scheme == scheme && c.message == Message(parts[..n]) && fresh(c) && fresh(c.buffer)
    {
      assert parts[..n + 1][..n] == parts[..n];
      c.Update(parts[n]);
      n := n + 1;
    }
    assert parts[..n] == parts;
    r := c.Final();
  }

  method Md5Digest(step: (Words, seq<byte>) -> Words, parts: seq<seq<byte>>) returns (r: Words)
    ensures var m := Message(parts);
      (|m| + |Padding(|m|, false)|) % BLOCK == 0 && r == Fold(Md5(step), Md5(step).init, m + Padding(|m|, false))
  {
    r := Digested(Md5(step), parts);
  }

  method Sha1Digest(step: (Words, seq<byte>) -> Words, parts: seq<seq<byte>>) returns (r: Words)
    ensures var m := Message(parts);
      (|m| + |Padding(|m|, true)|) % BLOCK == 0 && r == Fold(Sha1(step), Sha1(step).init, m + Padding(|m|, true))
  {
    r := Digested(Sha1(step), parts);
  }

  function Whole(n: nat): nat { n - n % BLOCK }

  lemma StaysPart(m: seq<byte>, data: seq<byte>)
    requires |m| % BLOCK + |data| < BLOCK
    ensures |m + data| % BLOCK == |m| % BLOCK + |data| && Whole(|m + data|) == Whole(|m|)
    ensures (m + data)[..Whole(|m|)] == m[..Whole(|m|)] && (m + data)[Whole(|m|)..] == m[Whole(|m|)..] + data
  {
  }

  lemma FillsBlock<C>(d: Scheme<C>, m: seq<byte>, data: seq<byte>, c: C)
    requires |m| % BLOCK + |data| == BLOCK && c == Fold(d, d.init, m[..Whole(|m|)])
    ensures |m + data| % BLOCK == 0 && |m[Whole(|m|)..] + data| == BLOCK && Fold(d, d.init, m + data) == Fold(d, c, m[Whole(|m|)..] + data)
  {
    var w := Whole(|m|);
    assert m + data == m[..w] + (m[w..] + data);
    FoldAppend(d, d.init, m[..w], m[w..] + data);
  }

  lemma WholePart(m: seq<byte>, rest: seq<byte>)
    requires |m| % BLOCK == 0
    ensures |m + rest| % BLOCK == |rest| % BLOCK && Whole(|m + rest|) == |m| + Whole(|rest|)
    ensures (m + rest)[..|m| + Whole(|rest|)] == m + rest[..Whole(|rest|)] && (m + rest)[|m| + Whole(|rest|)..] == rest[Whole(|rest|)..]
  {
  }

  // The padding fits into the last block; l is the length.
  lemma OneBlock<C>(d: Scheme<C>, m: seq<byte>, c: C, part: seq<byte>, l: seq<byte>)
    requires part == m[Whole(|m|)..] && c == Fold(d, d.init, m[..Whole(|m|)]) && |part| + 9 <= BLOCK && |l| == 8
    ensures var last, p := part + [0x80] + Zeros(BLOCK - |part| - 9) + l, [0x80] + Zeros(Gap(|m|)) + l;
      |last| == BLOCK && |m + p| % BLOCK == 0 && Fold(d, c, last) == Fold(d, d.init, m + p)
  {
    var w, p := Whole(|m|), [0x80] + Zeros(Gap(|m|)) + l;
    var last := part + [0x80] + Zeros(BLOCK - |part| - 9) + l;
    assert Gap(|m|) == BLOCK - |part| - 9;
    Join3(part, [0x80], Zeros(Gap(|m|)), l);
    assert m == m[..w] + part;
    Assoc(m[..w], part, p);
    FoldAppend(d, d.init, m[..w], last);
  }

  lemma Join3(a: seq<byte>, b: seq<byte>, c: seq<byte>, e: seq<byte>)
    ensures a + b + c + e == a + (b + c + e)
  {
  }

  // The padding takes a block more.
  lemma TwoBlocks<C>(d: Scheme<C>, m: seq<byte>, c: C, part: seq<byte>, l: seq<byte>)
    requires part == m[Whole(|m|)..] && c == Fold(d, d.init, m[..Whole(|m|)]) && BLOCK - 9 < |part| < BLOCK && |l| == 8
    ensures var first, last, p := part + [0x80] + Zeros(BLOCK - |part| - 1), Zeros(BLOCK - 8) + l, [0x80] + Zeros(Gap(|m|)) + l;
      |first| == BLOCK && |last| == BLOCK && |m + p| % BLOCK == 0 && Fold(d, Fold(d, c, first), last) == Fold(d, d.init, m + p)
  {
    var w, p := Whole(|m|), [0x80] + Zeros(Gap(|m|)) + l;
    var first, last := part + [0x80] + Zeros(BLOCK - |part| - 1), Zeros(BLOCK - 8) + l;
    assert Gap(|m|) == BLOCK - |part| - 1 + (BLOCK - 8);
    assert Zeros(Gap(|m|)) == Zeros(BLOCK - |part| - 1) + Zeros(BLOCK - 8);
    Join4(part, [0x80], Zeros(BLOCK - |part| - 1), Zeros(BLOCK - 8), l);
    assert m == m[..w] + part;
    Assoc(m[..w], part, p);
    FoldAppend(d, c, first, last);
    FoldAppend(d, d.init, m[..w], first + last);
  }

  lemma Join4(a: seq<byte>, b: seq<byte>, x: seq<byte>, y: seq<byte>, e: seq<byte>)
    ensures (a + b + x) + (y + e) == a + (b + (x + y) + e)
  {
  }

  // The last part of a message, filled up to one block or to two.
  ghost function EndFold<C>(d: Scheme<C>, c: C, part: seq<byte>, l: seq<byte>): C
    requires |part| <= BLOCK && |l| == 8
  {
    if BLOCK - |part| < 8 then Fold(d, Fold(d, c, part + Zeros(BLOCK - |part|)), Zeros(BLOCK - 8) + l)
    else Fold(d, c, part + Zeros(BLOCK - |part| - 8) + l)
  }

  lemma PaddedFold<C>(d: Scheme<C>, m: seq<byte>, c: C, part: seq<byte>, l: seq<byte>)
    requires part == m[Whole(|m|)..] && c == Fold(d, d.init, m[..Whole(|m|)]) && |l| == 8
    ensures var p := [0x80] + Zeros(Gap(|m|)) + l;
      |part| < BLOCK && |m + p| % BLOCK == 0 && EndFold(d, c, part + [0x80], l) == Fold(d, d.init, m + p)
  {
    if BLOCK - (|part| + 1) < 8 {
      TwoBlocks(d, m, c, part, l);
    } else {
      OneBlock(d, m, c, part, l);
    }
  }

  lemma UsedIs(n: nat)
    ensures n % WORD % BLOCK == n % BLOCK
  {
  }

  lemma AddBytes(n: nat, k: nat)
    ensures (n % WORD + k) % WORD == (n + k) % WORD
  {
  }

  lemma BitLength(n: nat)
    ensures 8 * (n % WORD) % WORD == 8 * n % WORD
  {
  }
}
