/** ngx_output_chain of src/core/ngx_output_chain.c, without aio, threads and directio. */
module OutputChain {
  import opened Basics
  import opened ChainBufs
  import opened ChainState
  import opened ChainFit

  datatype Status = Ok | Again | Done | Error

  // What the next filter does when called: the bytes it sends and what it returns.
  datatype Answer = Answer(send: nat, status: Status)

  // ---- ngx_output_chain_as_is ----

  function Stripped(b: Buf, need: Need): Buf {
    if !b.Special() && !need.sendfile && b.InMemory() then b.(inFile := false) else b
  }

  predicate AsIs(b: Buf, need: Need) {
    || b.Special()
    || (&& (need.sendfile || b.InMemory())
        && !(need.inMemory && !b.InMemory())
        && !(need.inTemp && (b.memory || b.mmap)))
  }

  // A buffer goes on as it is exactly if it suits the next filter then.
  lemma AsIsSuits(b: Buf, need: Need)
    ensures AsIs(b, need) <==> Suits(Stripped(b, need), need)
  {
  }

  lemma StrippedSame(b: Buf, need: Need)
    ensures Recast(b, Stripped(b, need))
  {
  }

  // ---- ngx_output_chain_copy_buf ----

  function CopySize(src: Buf, dst: Buf): int {
    if src.Size() < |dst.mem| - dst.pos then src.Size() else |dst.mem| - dst.pos
  }

  // The source after n bytes, and the temporary buffer that took them.
  function SrcAfter(src: Buf, n: int): Buf {
    if src.InMemory() then src.(pos := src.pos + n, filePos := if src.inFile then src.filePos + n else src.filePos)
    else src.(filePos := src.filePos + n)
  }

  function Taken(src: Buf, n: int): seq<byte>
    requires src.Ok() && 0 <= n <= src.Size() && (src.InMemory() || src.inFile)
  {
    if src.InMemory() then src.mem[src.pos..src.pos + n] else src.file[src.filePos..src.filePos + n]
  }

  function Filled(dst: Buf, data: seq<byte>): Buf
    requires dst.pos == 0 && |data| <= |dst.mem|
  {
    dst.(mem := data + dst.mem[|data|..], last := dst.last + |data|)
  }

  // The temporary buffer stands for the same part of the file, or for none.
  function Filed(d: Buf, src: Buf, n: int, sendfile: bool): Buf {
    if src.inFile && sendfile then d.(inFile := true, file := src.file, filePos := src.filePos, fileLast := src.filePos + n)
    else d.(inFile := false)
  }

  function Flagged(d: Buf, src: Buf): Buf {
    d.(flush := src.flush, lastBuf := src.lastBuf, lastInChain := src.lastInChain)
  }

  function DstAfter(src: Buf, dst: Buf, n: int, sendfile: bool): Buf
    requires src.Ok() && 0 <= n <= src.Size() && dst.pos == 0 && n <= |dst.mem| && (src.InMemory() || src.inFile)
  {
    var d := Filed(Filled(dst, Taken(src, n)), src, n, sendfile);
    if n == src.Size() then Flagged(d, src) else d
  }

  lemma TakenIs(src: Buf, n: int)
    requires src.Ok() && 0 <= n <= src.Size() && (src.InMemory() || src.inFile)
    ensures |Taken(src, n)| == n && Taken(src, n) == src.Bytes()[..n]
    ensures src.inFile ==> src.filePos + n <= |src.file| && src.file[src.filePos..src.filePos + n] == Taken(src, n)
  {
    if src.InMemory() {
      assert src.mem[src.pos..src.last][..n] == src.mem[src.pos..src.pos + n];
    }
    if src.inFile {
      assert src.file[src.filePos..src.fileLast][..n] == src.file[src.filePos..src.filePos + n];
    }
    if src.InMemory() && src.inFile {
      assert |src.mem[src.pos..src.last]| == |src.file[src.filePos..src.fileLast]|;
    }
  }

  lemma FilledBytes(dst: Buf, data: seq<byte>)
    requires dst.pos == 0 && dst.last == 0 && |data| <= |dst.mem|
    ensures var d := Filled(dst, data); d.pos == 0 && d.last == |data| && |d.mem| == |dst.mem| && d.mem[0..|data|] == data
  {
  }

  ghost predicate Carries(d: Buf, data: seq<byte>, tag: int, size: int) {
    d.Ok() && d.Bytes() == data && d.tag == tag && d.temporary && |d.mem| == size
  }

  lemma FiledBytes(d: Buf, src: Buf, n: int, sendfile: bool, data: seq<byte>)
    requires 0 <= n && (src.inFile ==> 0 <= src.filePos && src.filePos + n <= |src.file| && src.file[src.filePos..src.filePos + n] == data)
    requires d.temporary && d.pos == 0 && d.last == n <= |d.mem| && d.mem[0..n] == data
    ensures Carries(Filed(d, src, n, sendfile), data, d.tag, |d.mem|)
  {
  }

  lemma FlaggedBytes(d: Buf, src: Buf, data: seq<byte>, tag: int, size: int)
    requires Carries(d, data, tag, size)
    ensures Carries(Flagged(d, src), data, tag, size)
  {
  }

  lemma DstBytes(src: Buf, dst: Buf, n: int, sendfile: bool)
    requires src.Ok() && 0 < n <= src.Size() && dst.pos == 0 && dst.last == 0 && n <= |dst.mem| && dst.temporary
    requires src.InMemory() || src.inFile
    ensures Carries(DstAfter(src, dst, n, sendfile), Taken(src, n), dst.tag, |dst.mem|)
  {
    TakenIs(src, n);
    var d := Filled(dst, Taken(src, n));
    FilledBytes(dst, Taken(src, n));
    FiledBytes(d, src, n, sendfile, Taken(src, n));
    FlaggedBytes(Filed(d, src, n, sendfile), src, Taken(src, n), dst.tag, |dst.mem|);
  }

  lemma CopiesBytes(src: Buf, dst: Buf, n: int, sendfile: bool)
    requires src.Ok() && 0 < n <= src.Size() && dst.pos == 0 && dst.last == 0 && n <= |dst.mem| && dst.temporary
    requires !src.Special() && (src.InMemory() || src.inFile)
    ensures var b, c := SrcAfter(src, n), DstAfter(src, dst, n, sendfile);
      && b.Ok() && b.Bytes() == src.Bytes()[n..] && b.tag == src.tag
      && c.Ok() && c.Bytes() == src.Bytes()[..n] && c.tag == dst.tag && c.temporary && |c.mem| == |dst.mem|
  {
    AdvancedOk(src, n);
    assert SrcAfter(src, n) == src.Advanced(n);
    DstBytes(src, dst, n, sendfile);
    TakenIs(src, n);
  }

  // The copy has the marks of the source exactly if it took its last byte.
  ghost predicate SameMarks(a: Buf, b: Buf) { a.flush == b.flush && a.lastBuf == b.lastBuf && a.lastInChain == b.lastInChain }

  lemma CopyMarks(src: Buf, dst: Buf, n: int, sendfile: bool)
    requires src.Ok() && 0 <= n <= src.Size() && dst.pos == 0 && n <= |dst.mem| && (src.InMemory() || src.inFile)
    ensures SameMarks(DstAfter(src, dst, n, sendfile), if SrcAfter(src, n).Size() == 0 then src else dst)
  {
    SrcSize(src, n);
    FiledMarks(Filled(dst, Taken(src, n)), src, n, sendfile);
  }

  lemma FiledMarks(d: Buf, src: Buf, n: int, sendfile: bool)
    ensures SameMarks(Filed(d, src, n, sendfile), d)
  {
  }

  lemma SrcSize(src: Buf, n: int)
    requires src.InMemory() || src.inFile
    ensures SrcAfter(src, n).Size() == src.Size() - n
  {
  }

  // The copy suits the next filter.
  lemma FiledSuits(d: Buf, src: Buf, n: int, need: Need)
    requires Clean(d) && src.Ok() && 0 <= n <= src.Size()
    ensures var c := Filed(d, src, n, need.sendfile); Clean(c) && (!need.sendfile ==> !c.inFile)
  {
  }

  lemma CopySuits(src: Buf, dst: Buf, n: int, need: Need)
    requires src.Ok() && 0 <= n <= src.Size() && dst.pos == 0 && n <= |dst.mem| && (src.InMemory() || src.inFile) && Clean(dst)
    ensures var c := DstAfter(src, dst, n, need.sendfile); Clean(c) && Suits(c, need)
  {
    TakenIs(src, n);
    FiledSuits(Filled(dst, Taken(src, n)), src, n, need);
  }

  // ---- sizes ----

  function Total(bufs: seq<Buf>, c: seq<Ref>): int {
    if c == [] then 0 else (if 0 <= c[0] < |bufs| then bufs[c[0]].Size() else 0) + Total(bufs, c[1..])
  }

  lemma {:induction false} TotalIs(bufs: seq<Buf>, c: seq<Ref>)
    requires Valid(bufs, c)
    ensures Total(bufs, c) == |BytesOf(bufs, c)|
  {
    if c != [] {
      assert RefOk(bufs, c[0]);
      forall r | r in c[1..] ensures RefOk(bufs, r) { assert r in c; }
      TotalIs(bufs, c[1..]);
    }
  }

  // Bytes to copy and buffers to look at: what the loop uses up.
  ghost function Work(bufs: seq<Buf>, c: seq<Ref>): nat { |BytesOf(bufs, c)| + |c| }

  lemma WorkFirst(bufs: seq<Buf>, c: seq<Ref>)
    requires c != []
    ensures Work(bufs, c) == |Data(bufs, c[0])| + 1 + Work(bufs, c[1..])
  {
  }

  // ngx_output_chain_get_buf: a small last buffer gets a temporary one of its size.
  function NewBuf(src: Buf, size: int, num: int, tag: int): Buf
    requires size >= 1 && src.Size() >= 1
  {
    var bsize := src.Size();
    var exact := src.lastInChain && (bsize < size || (num == 1 && bsize < size + size / 4));
    var n := if exact then bsize else size;
    Buf(seq(n, i => 0), 0, 0, [], 0, 0, tag, true, false, false, false, false, false, false, false, !exact)
  }

  // A new buffer has no marks. It has the common size, and may be used again; but the last of a chain gets one of just
  // its size if it is smaller than that or, for the only buffer, less than a quarter larger.
  ghost predicate SizedFor(b: Buf, src: Buf, size: int, num: int) {
    var n := src.Size();
    && !b.flush && !b.sync && !b.lastBuf && !b.lastInChain && !b.inFile
    && if src.lastInChain && (if num == 1 then n < size + size / 4 else n < size) then |b.mem| == n && !b.recycled else |b.mem| == size && b.recycled
  }

  lemma GrowBytes(bufs: seq<Buf>, more: seq<Buf>, c: seq<Ref>, line: seq<Ref>)
    requires Valid(bufs, line) && forall r :: r in c ==> r in line
    ensures BytesOf(bufs + more, c) == BytesOf(bufs, c)
  {
    forall r | r in c ensures SameData(bufs, bufs + more, r) { assert r in line; assert RefOk(bufs, r); }
    BytesOfFrame(bufs, bufs + more, c);
  }

  // Copying uses up bytes of the first buffer.
  lemma CopyWork(s: State, tag: int, d: Ref, c: Buf, b: Buf, n: int)
    requires Inv(s, tag) && Idle(s, tag, d) && Copies(s, tag, d, c, b, n)
    ensures Work(s.bufs[s.inq[0] := b][d := c], s.inq) == Work(s.bufs, s.inq) - n
    ensures Data(s.bufs[s.inq[0] := b][d := c], s.inq[0]) == b.Bytes()
  {
    var x, rest := s.inq[0], s.inq[1..];
    assert s.inq == [x] + rest;
    DistinctDrop(s.down + s.out, x, rest);
    InParts(s.down + s.out, s.inq, d);
    InParts(s.down + s.out, rest, x);
    InParts([x], rest, d);
    Outside(s.bufs, x, b, rest);
    Outside(s.bufs[x := b], d, c, rest);
  }

  class Ctx {
    const need: Need
    const tag: int
    const num: int
    const size: int

    var bufs: seq<Buf>
    var inq: seq<Ref>
    var busy: seq<Ref>
    var free: seq<Ref>
    var made: int

    // The next filter: the buffers it holds and the bytes it has sent.
    var down: seq<Ref>
    ghost var sent: seq<byte>
    // How its calls ended.
    ghost var log: seq<Status>

    constructor (need: Need, tag: int, num: int, size: int, bufs: seq<Buf>)
      requires num >= 0 && size >= 1
      ensures Valid() && sent == [] && Pending() == [] && log == []
      ensures this.need == need && this.tag == tag && this.num == num && this.size == size && this.bufs == bufs && inq == [] && made == 0
    {
      this.need, this.tag, this.num, this.size, this.bufs := need, tag, num, size, bufs;
      inq, busy, free, down, made, sent, log := [], [], [], [], 0, [], [];
    }

    ghost function S(out: seq<Ref>): State reads this { State(bufs, down, out, inq, busy, free) }

    ghost predicate Good(out: seq<Ref>) reads this {
      Inv(S(out), tag) && FitInv(S(out), need, tag) && size >= 1 && 0 <= made <= num
    }

    ghost predicate Valid() reads this { Good([]) }

    // Bytes handed downstream and not sent, then those still to be handed.
    ghost function Pending(): seq<byte> reads this { BytesOf(bufs, S([]).Line()) }

    // Everything that was submitted, with the output chain under way.
    ghost function All(out: seq<Ref>): seq<byte> reads this { sent + BytesOf(bufs, S(out).Line()) }

    // The call of the next filter.
    method Filter(out: seq<Ref>, a: Answer, kept: bool)
      requires Good(out)
      modifies this`bufs, this`down, this`sent, this`busy, this`log
      ensures Good([]) && All([]) == old(All(out)) && busy == (if kept then old(busy) + out else old(busy)) && log == old(log) + [a.status]
      ensures BytesOf(bufs, inq) == old(BytesOf(bufs, inq)) && |old(sent)| <= |sent|
    {
      HandOut(out, a, kept);
      log := log + [a.status];
    }

    method HandOut(out: seq<Ref>, a: Answer, kept: bool)
      requires Good(out)
      modifies this`bufs, this`down, this`sent, this`busy
      ensures Good([]) && All([]) == old(All(out)) && busy == (if kept then old(busy) + out else old(busy))
      ensures BytesOf(bufs, inq) == old(BytesOf(bufs, inq)) && |old(sent)| <= |sent|
    {
      ghost var s := S(out);
      ghost var k := Downstream(out, a);
      HandOn(s, tag, bufs, down, k, kept);
      KeepsIn(s, bufs, inq);
      SentSum(sent, BytesOf(s.bufs, s.Line()), k);
      sent := sent + BytesOf(s.bufs, s.Line())[..k];
      if kept { busy := busy + out; }
      assert S([]) == Handed(s, bufs, down, kept);
      HandedFit(s, bufs, down, k, kept, need, tag);
    }

    // The next filter takes the chain and sends some bytes of what it holds.
    method Downstream(out: seq<Ref>, a: Answer) returns (ghost k: int)
      requires Good(out)
      modifies this`bufs, this`down
      ensures Sends(old(S(out)), bufs, down, k)
    {
      Prepare(S(out), tag);
      var b, c, n := SendPart(bufs, down + out, a.send);
      bufs, down, k := b, c, n;
    }

    // ngx_chain_update_chains after the output chain has joined the busy one: the drained buffers at
    // its front leave it, those of this context for the free list.
    method UpdateChains()
      requires Good([])
      modifies this`bufs, this`busy, this`free
      ensures Good([]) && All([]) == old(All([])) && BytesOf(bufs, inq) == old(BytesOf(bufs, inq))
      ensures |busy| <= |old(busy)| && busy == old(busy)[|old(busy)| - |busy|..]
      ensures busy != [] ==> 0 <= busy[0] < |bufs| && bufs[busy[0]].Size() != 0
      ensures SameTags(old(bufs), bufs) && Freed(bufs, tag, old(free), free, old(busy)[..|old(busy)| - |busy|])
    {
      while busy != []
        invariant Good([]) && All([]) == old(All([])) && BytesOf(bufs, inq) == old(BytesOf(bufs, inq))
        invariant Popped(old(bufs), old(free), old(busy))
        decreases |busy|
      {
        var done := Drained();
        if !done {
          break;
        }
        PopNext(old(bufs), old(free), old(busy));
      }
    }

    // Whether the first busy buffer has been sent.
    method Drained() returns (yes: bool)
      requires Good([]) && busy != []
      ensures 0 <= busy[0] < |bufs| && (yes <==> bufs[busy[0]].Size() == 0)
    {
      assert busy[0] in busy && BusyOk(S([]), tag, busy[0]);
      yes := bufs[busy[0]].Size() == 0;
    }

    // The busy chain has lost its first buffers, and the free list gained those of the context.
    ghost predicate Popped(b0: seq<Buf>, free0: seq<Ref>, busy0: seq<Ref>) reads this {
      && |busy| <= |busy0| && busy == busy0[|busy0| - |busy|..]
      && SameTags(b0, bufs) && Freed(bufs, tag, free0, free, busy0[..|busy0| - |busy|])
    }

    // One turn of the loop over the busy chain, which began with those buffers and chains.
    method PopNext(ghost b0: seq<Buf>, ghost free0: seq<Ref>, ghost busy0: seq<Ref>)
      requires Good([]) && busy != [] && 0 <= busy[0] < |bufs| && bufs[busy[0]].Size() == 0
      requires Popped(b0, free0, busy0)
      modifies this`bufs, this`busy, this`free
      ensures Good([]) && All([]) == old(All([])) && BytesOf(bufs, inq) == old(BytesOf(bufs, inq))
      ensures |busy| == |old(busy)| - 1 && Popped(b0, free0, busy0)
    {
      ghost var b, k := bufs, |busy0| - |busy|;
      FreedOne(bufs, tag, free0, free, busy0, k);
      PopBusy();
      TagsStay(b, bufs, tag, b0, free0, free, busy0[..k + 1]);
    }

    method PopBusy()
      requires Good([]) && busy != [] && 0 <= busy[0] < |bufs| && bufs[busy[0]].Size() == 0
      modifies this`bufs, this`busy, this`free
      ensures Good([]) && All([]) == old(All([])) && BytesOf(bufs, inq) == old(BytesOf(bufs, inq))
      ensures busy == old(busy)[1..] && SameTags(old(bufs), bufs)
      ensures free == if Mine(old(bufs), tag, old(busy[0])) then [old(busy[0])] + old(free) else old(free)
    {
      var r := busy[0];
      assert r in busy && BusyOk(S([]), tag, r);
      if bufs[r].tag != tag {
        PopOther(S([]), tag);
        ghost var s := S([]);
        busy := busy[1..];
        FitLess(s, S([]), need, tag);
        return;
      }
      PopOwn(S([]), tag);
      PopFit(S([]), need, tag);
      assert r !in inq;
      Outside(bufs, r, Reset(bufs[r]), inq);
      bufs := bufs[r := Reset(bufs[r])];
      busy := busy[1..];
      free := [r] + free;
    }

    // ---- the inner loop ----

    // Looks at the first buffer: whether it can go on as it is. Its file part may be dropped.
    method Look(out: seq<Ref>) returns (yes: bool)
      requires Good(out) && inq != [] && RefOk(bufs, inq[0])
      modifies this`bufs
      ensures Good(out) && All(out) == old(All(out)) && BytesOf(bufs, inq) == old(BytesOf(bufs, inq)) && |bufs| == old(|bufs|)
      ensures RefOk(bufs, inq[0]) && bufs[inq[0]].Size() == old(bufs[inq[0]].Size()) && bufs[inq[0]].Special() == old(bufs[inq[0]].Special())
      ensures yes <==> Suits(bufs[inq[0]], need)
      ensures bufs[inq[0]].tag != tag
    {
      var r := inq[0];
      StrippedSame(bufs[r], need);
      RecastFirst(S(out), tag, Stripped(bufs[r], need));
      assert InOk(S(out), tag, r);
      FirstApart(S(out), tag);
      FitChanges(S(out), need, tag, r, Stripped(bufs[r], need));
      AsIsSuits(bufs[r], need);
      yes := AsIs(bufs[r], need);
      bufs := bufs[r := Stripped(bufs[r], need)];
    }

    // A buffer to copy into: a free one, or a new one if there is room and nothing is waiting.
    method Acquire(out: seq<Ref>) returns (d: Ref)
      requires Good(out) && inq != [] && RefOk(bufs, inq[0]) && bufs[inq[0]].Size() > 0
      modifies this`bufs, this`free, this`made
      ensures Good(out) && All(out) == old(All(out)) && BytesOf(bufs, inq) == old(BytesOf(bufs, inq))
      ensures d == NULL ==> made == old(made) && (out != [] || made == num) && free == old(free) == []
      ensures d != NULL ==> Idle(S(out), tag, d) && Clean(bufs[d])
      ensures RefOk(bufs, inq[0]) && bufs[inq[0]] == old(bufs[inq[0]])
      ensures made - old(made) == |bufs| - old(|bufs|)
      ensures made != old(made) ==> made == old(made) + 1 && d == old(|bufs|) && SizedFor(bufs[d], old(bufs[inq[0]]), size, num)
    {
      if free != [] {
        TakeFree(S(out), tag);
        ghost var s := S(out);
        d := free[0];
        assert d in s.free && KeptOk(bufs, tag, d) && Empty(s, tag, d);
        free := free[1..];
        FitLess(s, S(out), need, tag);
      } else if out != [] || made == num {
        d := NULL;
      } else {
        var b := NewBuf(bufs[inq[0]], size, num, tag);
        Grow(S(out), tag, [b]);
        GrowBytes(bufs, [b], inq, S(out).Line());
        FitGrows(S(out), need, tag, [b]);
        d := |bufs|;
        bufs := bufs + [b];
        made := made + 1;
      }
    }

    // The copy into buffer d.
    method Copy(out: seq<Ref>, d: Ref)
      requires Good(out) && inq != [] && RefOk(bufs, inq[0]) && bufs[inq[0]].Size() > 0 && !bufs[inq[0]].Special()
      requires Idle(S(out), tag, d) && Clean(bufs[d])
      modifies this`bufs
      ensures Good(out + [d]) && All(out + [d]) == old(All(out)) && Work(bufs, inq) < old(Work(bufs, inq))
      ensures |bufs| == old(|bufs|) && 0 <= inq[0] < |bufs| && 0 <= d < |bufs| && SameMarks(bufs[d], if bufs[inq[0]].Size() == 0 then old(bufs[inq[0]]) else old(bufs[d]))
    {
      ghost var s := S(out);
      var src, dst := bufs[inq[0]], bufs[d];
      var n := CopySize(src, dst);
      CopiesBytes(src, dst, n, need.sendfile);
      CopyOver(s, tag, d, DstAfter(src, dst, n, need.sendfile), SrcAfter(src, n), n);
      CopyWork(s, tag, d, DstAfter(src, dst, n, need.sendfile), SrcAfter(src, n), n);
      CopySuits(src, dst, n, need);
      CopyMarks(src, dst, n, need.sendfile);
      CopyFit(s, need, tag, d, DstAfter(src, dst, n, need.sendfile), SrcAfter(src, n));
      bufs := bufs[inq[0] := SrcAfter(src, n)][d := DstAfter(src, dst, n, need.sendfile)];
    }

    // The first buffer has no bytes left.
    method Skip(out: seq<Ref>)
      requires Good(out) && inq != [] && RefOk(bufs, inq[0]) && bufs[inq[0]].Size() == 0
      modifies this`inq
      ensures Good(out) && All(out) == old(All(out)) && Work(bufs, inq) < old(Work(bufs, inq))
    {
      WorkFirst(bufs, inq);
      DropEmpty(S(out), tag);
      ghost var s := S(out);
      inq := inq[1..];
      FitLess(s, S(out), need, tag);
    }

    // The first buffer goes on as it is.
    method Pass(out: seq<Ref>)
      requires Good(out) && inq != [] && 0 <= inq[0] < |bufs| && Suits(bufs[inq[0]], need) && bufs[inq[0]].tag != tag
      modifies this`inq
      ensures Good(out + [old(inq[0])]) && All(out + [old(inq[0])]) == old(All(out)) && Work(bufs, inq) < old(Work(bufs, inq))
    {
      WorkFirst(bufs, inq);
      PassFirst(S(out), tag);
      ghost var s, r := S(out), inq[0];
      FitAdds(s, need, tag, r);
      inq := inq[1..];
      FitLess(s.(out := out + [r]), S(out + [r]), need, tag);
    }

    // One round of the inner loop.
    method Step(out: seq<Ref>) returns (out': seq<Ref>, stop: bool)
      requires Good(out) && inq != []
      modifies this`bufs, this`inq, this`free, this`made
      ensures Good(out') && All(out') == old(All(out))
      ensures if stop then out' == out && Work(bufs, inq) == old(Work(bufs, inq)) else Work(bufs, inq) < old(Work(bufs, inq))
      ensures stop ==> free == [] && (out != [] || made == num)
    {
      var r := inq[0];
      assert r in S(out).Line() && RefOk(bufs, r);
      if bufs[r].Size() == 0 && !bufs[r].Special() {
        Skip(out);
        return out, false;
      }
      var yes := Look(out);
      if yes {
        Pass(out);
        return out + [r], false;
      }
      out', stop := CopyStep(out);
    }

    method CopyStep(out: seq<Ref>) returns (out': seq<Ref>, stop: bool)
      requires Good(out) && inq != [] && RefOk(bufs, inq[0]) && bufs[inq[0]].Size() > 0 && !bufs[inq[0]].Special()
      modifies this`bufs, this`inq, this`free, this`made
      ensures Good(out') && All(out') == old(All(out))
      ensures if stop then out' == out && Work(bufs, inq) == old(Work(bufs, inq)) else Work(bufs, inq) < old(Work(bufs, inq))
      ensures stop ==> free == [] && (out != [] || made == num)
    {
      var d := Acquire(out);
      if d == NULL {
        return out, true;
      }
      Copy(out, d);
      assert inq[0] in S(out + [d]).Line() && RefOk(bufs, inq[0]);
      if bufs[inq[0]].Size() == 0 {
        Skip(out + [d]);
      }
      return out + [d], false;
    }

    // The inner loop: buffers go to the output chain as long as that is possible.
    method Feed() returns (out: seq<Ref>)
      requires Valid()
      modifies this`bufs, this`inq, this`free, this`made
      ensures Good(out) && All(out) == old(All([]))
      ensures Work(bufs, inq) <= old(Work(bufs, inq)) && (out != [] ==> Work(bufs, inq) < old(Work(bufs, inq)))
      ensures inq != [] ==> free == [] && (out != [] || made == num)
    {
      out := [];
      var stop := false;
      while inq != [] && !stop
        invariant Good(out) && All(out) == old(All([]))
        invariant Work(bufs, inq) <= old(Work(bufs, inq)) && (out != [] ==> Work(bufs, inq) < old(Work(bufs, inq)))
        invariant stop ==> free == [] && (out != [] || made == num)
        decreases Work(bufs, inq), !stop
      {
        out, stop := Step(out);
      }
    }

    // ---- ngx_output_chain ----

    // Hands on what it can of the context's and the given buffers; answers(i) is what the next
    // filter does on its call i. Bytes wait here only while all the temporary buffers are in use.
    method Send(more: seq<Ref>, answers: nat -> Answer) returns (rc: Status, ghost got: seq<Status>)
      requires Valid() && Fresh(S([]), tag, more)
      modifies this`bufs, this`inq, this`free, this`busy, this`made, this`down, this`sent, this`log
      ensures Valid() && sent + Pending() == old(sent + Pending() + BytesOf(bufs, more)) && |old(sent)| <= |sent|
      ensures inq != [] && rc != Error && rc != Done ==> rc == Again && free == [] && made == num
      ensures log == old(log) + got && Called(got, rc, inq != [])
    {
      var a := answers(0);
      var short := SendShort(more, a);
      if short {
        return a.status, [a.status];
      }
      rc, got := SendLong(more, answers);
    }

    method SendLong(more: seq<Ref>, answers: nat -> Answer) returns (rc: Status, ghost got: seq<Status>)
      requires Valid() && Fresh(S([]), tag, more)
      modifies this`bufs, this`inq, this`free, this`busy, this`made, this`down, this`sent, this`log
      ensures Valid() && sent + Pending() == old(sent + Pending() + BytesOf(bufs, more)) && |old(sent)| <= |sent|
      ensures inq != [] && rc != Error && rc != Done ==> rc == Again && free == [] && made == num
      ensures log == old(log) + got && Called(got, rc, inq != [])
    {
      Queue(more);
      rc, got := Drive(answers);
    }

    // ngx_output_chain_add_copy
    method Queue(more: seq<Ref>)
      requires Valid() && Fresh(S([]), tag, more)
      modifies this`inq
      ensures Valid() && inq == old(inq) + more && sent + Pending() == old(sent + Pending() + BytesOf(bufs, more))
    {
      Submit(S([]), tag, more);
      Assoc(sent, BytesOf(bufs, S([]).Line()), BytesOf(bufs, more));
      ghost var s := S([]);
      inq := inq + more;
      FitLess(s, S([]), need, tag);
    }

    // The path for that case.
    method SendShort(more: seq<Ref>, a: Answer) returns (yes: bool)
      requires Valid() && Fresh(S([]), tag, more)
      modifies this`bufs, this`busy, this`down, this`sent, this`log
      ensures Valid() && (yes <==> old(Short(more))) && log == if yes then old(log) + [a.status] else old(log)
      ensures yes ==> sent + Pending() == old(sent + Pending() + BytesOf(bufs, more)) && |old(sent)| <= |sent| && inq == [] && busy == []
      ensures !yes ==> Fresh(S([]), tag, more) && sent + Pending() + BytesOf(bufs, more) == old(sent + Pending() + BytesOf(bufs, more)) && sent == old(sent)
    {
      if inq == [] && busy == [] {
        if more == [] {
          Filter([], a, false);
          return true;
        }
        if |more| == 1 {
          assert more == [more[0]];
          yes := Offer(more[0]);
          if yes {
            Direct(more[0], a);
          }
          return;
        }
      }
      return false;
    }

    // Nothing waits, and at most one buffer is given, which can go on as it is.
    ghost predicate Short(more: seq<Ref>) reads this {
      && inq == [] && busy == []
      && (more == [] || (|more| == 1 && 0 <= more[0] < |bufs| && Suits(Stripped(bufs[more[0]], need), need)))
    }

    // The short path for a single buffer that needs no copy.
    method Offer(r: Ref) returns (yes: bool)
      requires Valid() && Fresh(S([]), tag, [r])
      modifies this`bufs
      ensures Valid() && Fresh(S([]), tag, [r]) && Pending() == old(Pending()) && BytesOf(bufs, [r]) == old(BytesOf(bufs, [r]))
      ensures yes <==> HandedOk(bufs, need, tag, r)
      ensures 0 <= r < old(|bufs|) && (yes <==> Suits(Stripped(old(bufs[r]), need), need))
    {
      ghost var s := S([]);
      assert r in [r] && InOk(s, tag, r) && RefOk(bufs, r);
      StrippedSame(bufs[r], need);
      Submit(s, tag, [r]);
      yes := AsIs(bufs[r], need);
      AsIsSuits(bufs[r], need);
      bufs := bufs[r := Stripped(bufs[r], need)];
      OfferSame(s, tag, r, bufs[r]);
      assert r !in s.Line();
      FitChanges(s, need, tag, r, bufs[r]);
    }

    method Direct(r: Ref, a: Answer)
      requires Valid() && inq == [] && Fresh(S([]), tag, [r]) && HandedOk(bufs, need, tag, r)
      modifies this`bufs, this`down, this`sent, this`busy, this`log
      ensures Valid() && sent + Pending() == old(sent + Pending() + BytesOf(bufs, [r])) && |old(sent)| <= |sent| && busy == old(busy) && log == old(log) + [a.status]
    {
      ghost var s := S([]);
      Submit(s, tag, [r]);
      Assoc(sent, BytesOf(bufs, s.Line()), BytesOf(bufs, [r]));
      assert [] + [r] == [r];
      PassFirst(s.(inq := [r]), tag);
      assert s.(inq := [r])
        .(out := [] + [r], inq := [r][1..]) == S([r]);
      FitAdds(s, need, tag, r);
      FitLess(s.(out := [r]), S([r]), need, tag);
      Filter([r], a, false);
    }

    // The main loop.
    method Drive(answers: nat -> Answer) returns (rc: Status, ghost got: seq<Status>)
      requires Valid()
      modifies this`bufs, this`inq, this`free, this`busy, this`made, this`down, this`sent, this`log
      ensures Valid() && sent + Pending() == old(sent + Pending()) && |old(sent)| <= |sent|
      ensures inq != [] && rc != Error && rc != Done ==> rc == Again && free == [] && made == num
      ensures log == old(log) + got && Called(got, rc, inq != [])
    {
      var last := Ok;
      var calls := 0;
      got := [];
      while true
        invariant Valid() && All([]) == old(All([])) && |old(sent)| <= |sent| && |got| == calls
        invariant log == old(log) + got && Answered(got, last)
        decreases Work(bufs, inq), if calls == 0 then 1 else 0
      {
        var called := Round(calls == 0, answers(calls));
        if !called {
          AllGone(got, last, inq != []);
          return if inq != [] then Again else last, got;
        }
        last := answers(calls).status;
        calls := calls + 1;
        OneMoreCall(old(log), got, last, inq != []);
        got := got + [last];
        if last == Error || last == Done {
          return last, got;
        }
      }
    }

    // What can be fed goes to the next filter, in the first round even if it is nothing.
    method Round(first: bool, a: Answer) returns (called: bool)
      requires Valid()
      modifies this`bufs, this`inq, this`free, this`busy, this`made, this`down, this`sent, this`log
      ensures Valid() && All([]) == old(All([])) && |old(sent)| <= |sent| && (first ==> called) && log == if called then old(log) + [a.status] else old(log)
      ensures Work(bufs, inq) <= old(Work(bufs, inq)) && (called && !first ==> Work(bufs, inq) < old(Work(bufs, inq)))
      ensures !called ==> sent == old(sent) && down == old(down) && (inq != [] ==> free == [] && made == num)
    {
      var out := Feed();
      called := out != [] || first;
      if called {
        Call(out, a);
      }
    }

    // One call of the next filter; unless it failed, the chains are then brought up to date.
    method Call(out: seq<Ref>, a: Answer)
      requires Good(out)
      modifies this`bufs, this`free, this`busy, this`down, this`sent, this`log
      ensures Valid() && All([]) == old(All(out)) && BytesOf(bufs, inq) == old(BytesOf(bufs, inq)) && |old(sent)| <= |sent| && log == old(log) + [a.status]
    {
      var kept := a.status != Error && a.status != Done;
      Filter(out, a, kept);
      if kept {
        UpdateChains();
      }
    }
  }

  // ---- the calls of the next filter ----

  // None of the first n calls ended with an error or with the end of the request.
  ghost predicate GoneOn(log: seq<Status>, n: int) { forall i :: 0 <= i < n && i < |log| ==> log[i] != Error && log[i] != Done }

  ghost predicate Answered(log: seq<Status>, last: Status) { GoneOn(log, |log|) && (log != [] ==> last == log[|log| - 1]) }

  // There were calls, one after the other; rc says how the last one ended, or that input is left.
  ghost predicate Called(log: seq<Status>, rc: Status, left: bool) {
    && log != [] && GoneOn(log, |log| - 1)
    && var last := log[|log| - 1];
    rc == if left && last != Error && last != Done then Again else last
  }

  lemma OneMoreCall(log: seq<Status>, got: seq<Status>, last: Status, left: bool)
    requires GoneOn(got, |got|)
    ensures log + got + [last] == log + (got + [last])
    ensures if last == Error || last == Done then Called(got + [last], last, left) else Answered(got + [last], last)
  {
  }

  lemma AllGone(got: seq<Status>, last: Status, left: bool)
    requires Answered(got, last) && got != []
    ensures Called(got, if left then Again else last, left)
  {
  }

  // ---- the kinds of the buffers ----

  // The same buffers, with shorter chains.
  lemma FitLess(s: State, t: State, need: Need, tag: int)
    requires FitInv(s, need, tag) && t.bufs == s.bufs && t.down == s.down && t.out == s.out
    requires forall r :: (r in t.busy ==> r in s.busy || r in s.free) && (r in t.free ==> r in s.busy || r in s.free)
    ensures FitInv(t, need, tag)
  {
    forall r | r in t.down || r in t.out ensures HandedOk(t.bufs, need, tag, r) { assert HandedOk(s.bufs, need, tag, r); }
    forall r | r in t.busy || r in t.free ensures KeptOk(t.bufs, tag, r) { assert KeptOk(s.bufs, tag, r); }
  }

  // A buffer of the context goes from the busy chain to the free one.
  lemma PopFit(s: State, need: Need, tag: int)
    requires FitInv(s, need, tag) && s.busy != [] && s.out == []
    requires 0 <= s.busy[0] < |s.bufs| && Own(s.bufs[s.busy[0]], tag) && s.busy[0] !in s.Line()
    ensures var r := s.busy[0];
      FitInv(s.(bufs := s.bufs[r := Reset(s.bufs[r])], busy := s.busy[1..], free := [r] + s.free), need, tag)
  {
    var x := s.busy[0];
    assert KeptOk(s.bufs, tag, x);
    assert x !in s.down;
    FitChanges(s, need, tag, x, Reset(s.bufs[x]));
    var t := s.(bufs := s.bufs[x := Reset(s.bufs[x])]);
    FitLess(t, t.(busy := s.busy[1..], free := [x] + s.free), need, tag);
  }

  // The first buffer of the input is on no other chain.
  lemma FirstApart(s: State, tag: int)
    requires Inv(s, tag) && s.inq != []
    ensures s.inq[0] !in s.down && s.inq[0] !in s.out
  {
    var a, x := s.down + s.out, s.inq[0];
    assert x in s.inq;
    assert a + s.inq == s.Line();
    assert Distinct(a + s.inq);
    DistinctAppend(a, s.inq);
    assert x !in a;
    assert x in a <==> x in s.down || x in s.out;
  }

  lemma HandedFit(s: State, bufs: seq<Buf>, c: seq<Ref>, k: int, kept: bool, need: Need, tag: int)
    requires FitInv(s, need, tag) && Sends(s, bufs, c, k)
    ensures FitInv(Handed(s, bufs, c, kept), need, tag)
  {
    var t := Handed(s, bufs, c, kept);
    assert forall r :: r in c ==> r in s.down + s.out;
    forall r | r in t.down || r in t.out ensures HandedOk(bufs, need, tag, r) {
      assert r in s.down || r in s.out;
      assert HandedOk(s.bufs, need, tag, r) && OnlyMoved(s.bufs, bufs, s.down + s.out, r);
    }
    forall r | r in t.busy || r in t.free ensures KeptOk(bufs, tag, r) {
      if r in s.busy || r in s.free { assert KeptOk(s.bufs, tag, r); } else { assert HandedOk(s.bufs, need, tag, r); }
      assert OnlyMoved(s.bufs, bufs, s.down + s.out, r);
    }
  }

  lemma CopyFit(s: State, need: Need, tag: int, d: Ref, c: Buf, b: Buf)
    requires Inv(s, tag) && FitInv(s, need, tag) && Idle(s, tag, d) && s.inq != [] && 0 <= s.inq[0] < |s.bufs| && b.tag == s.bufs[s.inq[0]].tag
    requires Own(c, tag) && Clean(c) && Suits(c, need)
    ensures FitInv(s.(bufs := s.bufs[s.inq[0] := b][d := c], out := s.out + [d]), need, tag)
  {
    var x := s.inq[0];
    FirstApart(s, tag);
    assert InOk(s, tag, x);
    FitChanges(s, need, tag, x, b);
    var t := s.(bufs := s.bufs[x := b]);
    assert d !in s.Line();
    FitChanges(t, need, tag, d, c);
    var u := t.(bufs := t.bufs[d := c]);
    FitAdds(u, need, tag, d);
  }

  ghost predicate SameTags(a: seq<Buf>, b: seq<Buf>) {
    |a| == |b| && forall r {:trigger b[r]} :: 0 <= r < |a| ==> b[r].tag == a[r].tag
  }

  ghost predicate Mine(bufs: seq<Buf>, tag: int, r: Ref) { 0 <= r < |bufs| && bufs[r].tag == tag }

  // The context's own buffers among those in "gone" are free now too.
  ghost predicate Freed(bufs: seq<Buf>, tag: int, before: seq<Ref>, free: seq<Ref>, gone: seq<Ref>) {
    forall r {:trigger r in free} :: r in free <==> r in before || (r in gone && Mine(bufs, tag, r))
  }

  lemma FreedOne(bufs: seq<Buf>, tag: int, before: seq<Ref>, free: seq<Ref>, busy: seq<Ref>, k: int)
    requires 0 <= k < |busy| && Freed(bufs, tag, before, free, busy[..k])
    ensures Freed(bufs, tag, before, if Mine(bufs, tag, busy[k]) then [busy[k]] + free else free, busy[..k + 1])
  {
    assert busy[..k + 1] == busy[..k] + [busy[k]];
  }

  lemma TagsStay(b: seq<Buf>, b': seq<Buf>, tag: int, b0: seq<Buf>, before: seq<Ref>, free: seq<Ref>, gone: seq<Ref>)
    requires SameTags(b, b') && SameTags(b0, b) && Freed(b, tag, before, free, gone)
    ensures SameTags(b0, b') && Freed(b', tag, before, free, gone)
  {
  }

  // A filter that sends up to n bytes of its chain.
  method SendPart(bufs: seq<Buf>, chain: seq<Ref>, send: nat) returns (b: seq<Buf>, c: seq<Ref>, n: int)
    requires Valid(bufs, chain) && Distinct(chain)
    ensures Left(bufs, chain, b, c, n)
  {
    var total := Total(bufs, chain);
    TotalIs(bufs, chain);
    n := if send <= total then send else total;
    b, c := UpdateSent(bufs, chain, n);
  }

  // The chain handed on may be given to UpdateSent.
  lemma Prepare(s: State, tag: int)
    requires Inv(s, tag)
    ensures Valid(s.bufs, s.down + s.out) && Distinct(s.down + s.out)
  {
    DistinctAppend(s.down + s.out, s.inq);
    forall r | r in s.down + s.out ensures RefOk(s.bufs, r) { assert r in s.Line(); }
  }

  lemma SentSum(sent: seq<byte>, all: seq<byte>, k: int)
    requires 0 <= k <= |all|
    ensures sent + all[..k] + all[k..] == sent + all
  {
    assert all[..k] + all[k..] == all;
    Assoc(sent, all[..k], all[k..]);
  }

  lemma OfferSame(s: State, tag: int, r: Ref, b: Buf)
    requires Inv(s, tag) && Fresh(s, tag, [r]) && 0 <= r < |s.bufs| && Recast(s.bufs[r], b) && s.bufs[r].Ok()
    ensures var t := s.(bufs := s.bufs[r := b]);
      Inv(t, tag) && Fresh(t, tag, [r]) && BytesOf(t.bufs, t.Line()) == BytesOf(s.bufs, s.Line()) && BytesOf(t.bufs, [r]) == BytesOf(s.bufs, [r])
  {
    var t := s.(bufs := s.bufs[r := b]);
    assert r in [r] && InOk(s, tag, r) && RefOk(s.bufs, r);
    Outside(s.bufs, r, b, s.Line());
    OfferKeeps(s, tag, r, b);
    assert SameData(s.bufs, t.bufs, r);
    BytesOfFrame(s.bufs, t.bufs, [r]);
  }

  lemma OfferKeeps(s: State, tag: int, r: Ref, b: Buf)
    requires Inv(s, tag) && Fresh(s, tag, [r]) && 0 <= r < |s.bufs| && Recast(s.bufs[r], b) && s.bufs[r].Ok()
    requires Valid(s.bufs[r := b], s.Line())
    ensures Inv(s.(bufs := s.bufs[r := b]), tag)
  {
    var t := s.(bufs := s.bufs[r := b]);
    assert r in [r] && InOk(s, tag, r) && RefOk(s.bufs, r);
    forall q | q in t.down || q in t.out ensures OutOk(t, tag, q) { assert OutOk(s, tag, q); }
    forall q | q in t.inq ensures InOk(t, tag, q) { assert InOk(s, tag, q); }
    forall q | q in t.free ensures Empty(t, tag, q) { assert Empty(s, tag, q); }
    forall q | q in t.busy ensures BusyOk(t, tag, q) { assert BusyOk(s, tag, q); }
    forall q | q in s.busy ensures SameOwn(s.bufs, t.bufs, tag, q) { assert BusyOk(s, tag, q); }
    OwnOnceFrame(s.bufs, t.bufs, tag, s.busy);
  }

  lemma KeepsIn(s: State, b: seq<Buf>, inq: seq<Ref>)
    requires Moved(s.bufs, b, s.down + s.out) && Distinct(s.down + s.out + inq) && Valid(s.bufs, s.down + s.out + inq)
    ensures BytesOf(b, inq) == BytesOf(s.bufs, inq)
  {
    DistinctAppend(s.down + s.out, inq);
    forall r | r in inq ensures SameData(s.bufs, b, r) {
      assert r in s.down + s.out + inq;
      assert RefOk(s.bufs, r);
      assert OnlyMoved(s.bufs, b, s.down + s.out, r);
    }
    BytesOfFrame(s.bufs, b, inq);
  }
}
