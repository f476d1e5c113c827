/** Buffers and chains of src/core/ngx_buf.c: the bytes a chain stands for, ngx_chain_update_sent. */
module ChainBufs {
  import opened Basics

  type Ref = int
  const NULL: Ref := -1

  // The memory of a buffer is its own; start is 0 and end its length. File contents do not change.
  datatype Buf = Buf(mem: seq<byte>, pos: int, last: int, file: seq<byte>, filePos: int, fileLast: int, tag: int,
                     temporary: bool, memory: bool, mmap: bool, inFile: bool, flush: bool, sync: bool,
                     lastBuf: bool, lastInChain: bool, recycled: bool)
  {
    predicate InMemory() { temporary || memory || mmap }

    predicate Special() { (flush || lastBuf || sync) && !InMemory() && !inFile }

    function Size(): int { if InMemory() then last - pos else fileLast - filePos }

    // Positions are in range, and the memory and file parts of a buffer with both agree.
    ghost predicate Ok() {
      && (InMemory() ==> 0 <= pos <= last <= |mem|)
      && (inFile ==> 0 <= filePos <= fileLast <= |file|)
      && (InMemory() && inFile ==> mem[pos..last] == file[filePos..fileLast])
      && (!InMemory() && !inFile ==> filePos == fileLast)
    }

    ghost function Bytes(): (s: seq<byte>)
      requires Ok()
      ensures |s| == Size()
    {
      if InMemory() then mem[pos..last] else if inFile then file[filePos..fileLast] else []
    }

    // n bytes were taken from the front.
    function Advanced(n: int): Buf {
      this.(pos := if InMemory() then pos + n else pos, filePos := if inFile then filePos + n else filePos)
    }
  }

  lemma AdvancedOk(b: Buf, n: int)
    requires b.Ok() && 0 <= n <= b.Size()
    ensures b.Advanced(n).Ok() && b.Advanced(n).Bytes() == b.Bytes()[n..]
  {
    var a := b.Advanced(n);
    if b.InMemory() && b.inFile {
      assert b.mem[b.pos + n..b.last] == b.mem[b.pos..b.last][n..];
      assert b.file[b.filePos + n..b.fileLast] == b.file[b.filePos..b.fileLast][n..];
    }
  }

  ghost predicate RefOk(bufs: seq<Buf>, r: Ref) { 0 <= r < |bufs| && bufs[r].Ok() }

  ghost predicate Valid(bufs: seq<Buf>, c: seq<Ref>) {
    forall r {:trigger RefOk(bufs, r)} :: r in c ==> RefOk(bufs, r)
  }

  // A buffer to be sent carries data or a flag.
  ghost predicate RefLive(bufs: seq<Buf>, r: Ref) { 0 <= r < |bufs| && (bufs[r].Special() || bufs[r].Size() > 0) }

  // What carried data still does.
  ghost predicate StaysLive(bufs: seq<Buf>, bufs': seq<Buf>, c: seq<Ref>) {
    forall r {:trigger RefLive(bufs', r)} :: r in c && RefLive(bufs, r) ==> RefLive(bufs', r)
  }

  ghost predicate Distinct(c: seq<Ref>) {
    if c == [] then true else c[0] !in c[1..] && Distinct(c[1..])
  }

  ghost function Data(bufs: seq<Buf>, r: Ref): seq<byte> {
    if RefOk(bufs, r) then bufs[r].Bytes() else []
  }

  ghost function BytesOf(bufs: seq<Buf>, c: seq<Ref>): seq<byte> {
    if c == [] then [] else Data(bufs, c[0]) + BytesOf(bufs, c[1..])
  }

  lemma {:induction false} BytesOfAppend(bufs: seq<Buf>, a: seq<Ref>, b: seq<Ref>)
    ensures BytesOf(bufs, a + b) == BytesOf(bufs, a) + BytesOf(bufs, b)
  {
    if a == [] {
      assert a + b == b;
    } else {
      BytesOfAppend(bufs, a[1..], b);
      FirstOf(a, b);
      Assoc(Data(bufs, a[0]), BytesOf(bufs, a[1..]), BytesOf(bufs, b));
    }
  }

  lemma FirstOf(a: seq<Ref>, b: seq<Ref>)
    requires a != []
    ensures (a + b)[0] == a[0] && (a + b)[1..] == a[1..] + b
  {
  }

  lemma BytesOfOne(bufs: seq<Buf>, r: Ref, rest: seq<Ref>)
    ensures BytesOf(bufs, [r] + rest) == Data(bufs, r) + BytesOf(bufs, rest)
  {
    assert ([r] + rest)[1..] == rest;
  }

  // Buffers outside a chain, or changed without changing their bytes, leave its bytes alone.
  ghost predicate SameData(bufs: seq<Buf>, bufs': seq<Buf>, r: Ref) { Data(bufs', r) == Data(bufs, r) }

  lemma {:induction false} BytesOfFrame(bufs: seq<Buf>, bufs': seq<Buf>, c: seq<Ref>)
    requires forall r {:trigger SameData(bufs, bufs', r)} :: r in c ==> SameData(bufs, bufs', r)
    ensures BytesOf(bufs', c) == BytesOf(bufs, c)
  {
    if c != [] {
      assert SameData(bufs, bufs', c[0]);
      BytesOfFrame(bufs, bufs', c[1..]);
    }
  }

  // Changes outside a chain do not matter.
  lemma Outside(bufs: seq<Buf>, r: Ref, b: Buf, c: seq<Ref>)
    requires 0 <= r < |bufs| && r !in c
    ensures BytesOf(bufs[r := b], c) == BytesOf(bufs, c)
    ensures Valid(bufs, c) ==> Valid(bufs[r := b], c)
  {
    var bufs' := bufs[r := b];
    forall q | q in c ensures SameData(bufs, bufs', q) { }
    BytesOfFrame(bufs, bufs', c);
    forall q | q in c && Valid(bufs, c) ensures RefOk(bufs', q) { assert RefOk(bufs, q); }
  }

  // ---- ngx_chain_update_sent ----

  // Only the positions of a buffer moved.
  ghost predicate SameBut(a: Buf, b: Buf) { b == a.(pos := b.pos, filePos := b.filePos) }

  ghost predicate OnlyMoved(a: seq<Buf>, b: seq<Buf>, c: seq<Ref>, r: Ref)
    requires 0 <= r < |a| == |b|
  {
    SameBut(a[r], b[r]) && (r !in c ==> b[r] == a[r])
  }

  ghost predicate Moved(a: seq<Buf>, b: seq<Buf>, c: seq<Ref>) {
    |a| == |b| && forall r {:trigger OnlyMoved(a, b, c, r)} :: 0 <= r < |a| ==> OnlyMoved(a, b, c, r)
  }

  // Taking n bytes from the first buffer of a chain.
  lemma Spend(bufs: seq<Buf>, r: Ref, n: int, rest: seq<Ref>)
    requires RefOk(bufs, r) && r !in rest && 0 <= n <= bufs[r].Size()
    ensures var bufs' := bufs[r := bufs[r].Advanced(n)];
      && RefOk(bufs', r) && Data(bufs', r) == Data(bufs, r)[n..] && |Data(bufs, r)| == bufs[r].Size()
      && BytesOf(bufs', rest) == BytesOf(bufs, rest)
  {
    AdvancedOk(bufs[r], n);
    Outside(bufs, r, bufs[r].Advanced(n), rest);
  }

  lemma DropSum(a: seq<byte>, b: seq<byte>, k: int, n: int)
    requires 0 <= n <= |a| && n <= k <= |a| + |b|
    ensures (a + b)[k..] == (a[n..] + b)[k - n..]
  {
  }

  // The chain c is what is left of "chain", with "sent" bytes still to go.
  ghost predicate Sending(bufs0: seq<Buf>, chain: seq<Ref>, sent0: nat, bufs: seq<Buf>, c: seq<Ref>, sent: int) {
    && Moved(bufs0, bufs, chain) && Valid(bufs, chain)
    && |c| <= |chain| && c == chain[|chain| - |c|..] && Distinct(c) && StaysLive(bufs0, bufs, c)
    && sent0 <= |BytesOf(bufs0, chain)|
    && 0 <= sent <= |BytesOf(bufs, c)| && BytesOf(bufs, c)[sent..] == BytesOf(bufs0, chain)[sent0..]
  }

  lemma SendingHead(bufs0: seq<Buf>, chain: seq<Ref>, sent0: nat, bufs: seq<Buf>, c: seq<Ref>, sent: int)
    requires Sending(bufs0, chain, sent0, bufs, c, sent) && c != []
    ensures c[0] in chain && RefOk(bufs, c[0]) && c[0] !in c[1..]
    ensures BytesOf(bufs, c) == Data(bufs, c[0]) + BytesOf(bufs, c[1..])
  {
    assert c[0] in c && c[0] == chain[|chain| - |c|];
    assert RefOk(bufs, c[0]);
  }

  lemma SkipSpecial(bufs0: seq<Buf>, chain: seq<Ref>, sent0: nat, bufs: seq<Buf>, c: seq<Ref>, sent: int)
    requires Sending(bufs0, chain, sent0, bufs, c, sent) && c != [] && 0 <= c[0] < |bufs| && bufs[c[0]].Special()
    ensures Sending(bufs0, chain, sent0, bufs, c[1..], sent)
  {
    SendingHead(bufs0, chain, sent0, bufs, c, sent);
    assert Data(bufs, c[0]) == [];
    assert forall r :: r in c[1..] ==> r in c;
  }

  lemma SpendBytes(bufs: seq<Buf>, c: seq<Ref>, sent: int, n: int)
    requires c != [] && RefOk(bufs, c[0]) && c[0] !in c[1..] && 0 <= n <= sent && n <= bufs[c[0]].Size() && sent <= |BytesOf(bufs, c)|
    ensures var b := Advance(bufs, c[0], n);
      && RefOk(b, c[0]) && BytesOf(b, c) == Data(bufs, c[0])[n..] + BytesOf(bufs, c[1..]) && BytesOf(b, c[1..]) == BytesOf(bufs, c[1..])
      && |Data(bufs, c[0])| == bufs[c[0]].Size() && |BytesOf(b, c)| == |BytesOf(bufs, c)| - n && BytesOf(b, c)[sent - n..] == BytesOf(bufs, c)[sent..]
  {
    var r, rest := c[0], c[1..];
    Spend(bufs, r, n, rest);
    DropSum(Data(bufs, r), BytesOf(bufs, rest), sent, n);
  }

  // n bytes go from the first buffer: all it has, or all that is still to go.
  lemma SpendFirst(bufs0: seq<Buf>, chain: seq<Ref>, sent0: nat, bufs: seq<Buf>, c: seq<Ref>, sent: int, n: int)
    requires Sending(bufs0, chain, sent0, bufs, c, sent) && c != [] && 0 <= c[0] < |bufs| && !bufs[c[0]].Special()
    requires 0 <= n <= sent && n <= bufs[c[0]].Size()
    ensures var b := Advance(bufs, c[0], n);
      && (n == bufs[c[0]].Size() ==> Sending(bufs0, chain, sent0, b, c[1..], sent - n))
      && (n < bufs[c[0]].Size() ==> Sending(bufs0, chain, sent0, b, c, sent - n))
  {
    SendingHead(bufs0, chain, sent0, bufs, c, sent);
    var r, b := c[0], Advance(bufs, c[0], n);
    SpendBytes(bufs, c, sent, n);
    MoveOne(bufs0, bufs, chain, r, n);
    if n == bufs[r].Size() {
      assert Data(bufs, r)[n..] == [];
      assert BytesOf(b, c) == BytesOf(b, c[1..]);
      assert Distinct(c[1..]) && c[1..] == chain[|chain| - |c[1..]|..];
    }
    forall q | q in c && RefLive(bufs0, q) && (q != r || n < bufs[r].Size()) ensures RefLive(b, q) { assert RefLive(bufs, q); }
  }

  // The chain c is what is left of "chain" when n bytes are gone: its last buffers, of which only the
  // positions moved, and those that carried data still do.
  ghost predicate Left(bufs0: seq<Buf>, chain: seq<Ref>, bufs: seq<Buf>, c: seq<Ref>, n: int) {
    && Moved(bufs0, bufs, chain) && Valid(bufs, chain)
    && |c| <= |chain| && c == chain[|chain| - |c|..] && Distinct(c) && StaysLive(bufs0, bufs, c)
    && 0 <= n <= |BytesOf(bufs0, chain)| && BytesOf(bufs, c) == BytesOf(bufs0, chain)[n..]
  }

  // The rest of a chain of which "sent" bytes are gone; buffers of the front are used up.
  method UpdateSent(bufs0: seq<Buf>, chain: seq<Ref>, sent0: nat) returns (bufs: seq<Buf>, c: seq<Ref>)
    requires Valid(bufs0, chain) && Distinct(chain) && sent0 <= |BytesOf(bufs0, chain)|
    ensures Left(bufs0, chain, bufs, c, sent0)
  {
    bufs, c := bufs0, chain;
    var sent, done := sent0, false;
    SendingBegins(bufs0, chain, sent0);
    while c != [] && !done
      invariant Sending(bufs0, chain, sent0, bufs, c, sent) && (done ==> sent == 0)
      decreases |c|, !done
    {
      bufs, c, sent, done := SendStep(bufs0, chain, sent0, bufs, c, sent);
    }
    SendingEnds(bufs0, chain, sent0, bufs, c, sent);
  }

  // One round of the loop; "done" is its break.
  method SendStep(ghost bufs0: seq<Buf>, ghost chain: seq<Ref>, ghost sent0: nat, bufs: seq<Buf>, c: seq<Ref>, sent: int)
    returns (bufs': seq<Buf>, c': seq<Ref>, sent': int, done: bool)
    requires Sending(bufs0, chain, sent0, bufs, c, sent) && c != []
    ensures Sending(bufs0, chain, sent0, bufs', c', sent')
    ensures if done then c' == c && sent' == 0 else c' == c[1..]
  {
    SendingHead(bufs0, chain, sent0, bufs, c, sent);
    var r := c[0];
    if bufs[r].Special() {
      SkipSpecial(bufs0, chain, sent0, bufs, c, sent);
      return bufs, c[1..], sent, false;
    }
    if sent == 0 {
      return bufs, c, 0, true;
    }
    var size := bufs[r].Size();
    if sent >= size {
      SpendFirst(bufs0, chain, sent0, bufs, c, sent, size);
      return Advance(bufs, r, size), c[1..], sent - size, false;
    }
    SpendFirst(bufs0, chain, sent0, bufs, c, sent, sent);
    return Advance(bufs, r, sent), c, 0, true;
  }

  lemma SendingBegins(bufs: seq<Buf>, chain: seq<Ref>, sent: nat)
    requires Valid(bufs, chain) && Distinct(chain) && sent <= |BytesOf(bufs, chain)|
    ensures Sending(bufs, chain, sent, bufs, chain, sent)
  {
    assert forall r {:trigger OnlyMoved(bufs, bufs, chain, r)} :: 0 <= r < |bufs| ==> OnlyMoved(bufs, bufs, chain, r);
    assert chain[0..] == chain;
  }

  lemma SendingEnds(bufs0: seq<Buf>, chain: seq<Ref>, sent0: nat, bufs: seq<Buf>, c: seq<Ref>, sent: int)
    requires Sending(bufs0, chain, sent0, bufs, c, sent) && (sent == 0 || c == [])
    ensures Left(bufs0, chain, bufs, c, sent0)
  {
    assert sent == 0 && BytesOf(bufs, c)[0..] == BytesOf(bufs, c);
  }

  function Advance(bufs: seq<Buf>, r: Ref, n: int): (b: seq<Buf>)
    requires 0 <= r < |bufs|
  {
    bufs[r := bufs[r].Advanced(n)]
  }

  lemma MoveOne(bufs0: seq<Buf>, bufs: seq<Buf>, chain: seq<Ref>, r: Ref, n: int)
    requires Moved(bufs0, bufs, chain) && Valid(bufs, chain) && r in chain && RefOk(bufs, r)
    requires RefOk(Advance(bufs, r, n), r)
    ensures Moved(bufs0, Advance(bufs, r, n), chain) && Valid(Advance(bufs, r, n), chain)
  {
    var b := Advance(bufs, r, n);
    forall q | 0 <= q < |b| ensures OnlyMoved(bufs0, b, chain, q) { assert OnlyMoved(bufs0, bufs, chain, q); }
    forall q | q in chain ensures RefOk(b, q) { assert RefOk(bufs, q); }
  }
}
