/** The blocks that callers of the slab pool hold, read off the page descriptors' meaning. */
module SlabBlocks {
  import opened SlabRing
  import opened SlabRuns
  import opened SlabPool
  import C = SlabChunks

  datatype Block = Block(addr: int, size: int)
  {
    predicate Apart(b: Block) { addr + size <= b.addr || b.addr + b.size <= addr }
  }

  function ChunkBlock(start: int, p: int, s: C.Shift, i: nat): Block {
    Block(start + p * C.PAGE_SIZE + i * C.Size(s), C.Size(s))
  }

  function RunBlock(start: int, p: int, k: int): Block {
    Block(start + p * C.PAGE_SIZE, k * C.PAGE_SIZE)
  }

  // Page p is the place of block b: a live chunk of a chunk page, or a run in use.
  ghost predicate LiveAt(v: View, c: Chunks, min: C.Shift, start: int, p: int, b: Block)
    requires v.Sized(|v.head|) && |c.shift| == |c.live| == |v.head| && 0 <= p < |v.head|
  {
    v.head[p] == p &&
    match v.kind[p]
    case Chunk => ShiftOk(c, min, p) && exists i :: i in c.live[p] && b == ChunkBlock(start, p, c.shift[p], i)
    case Used => b == RunBlock(start, p, v.len[p])
    case _ => false
  }

  ghost predicate IsLive(v: View, c: Chunks, min: C.Shift, start: int, b: Block)
    requires v.Sized(|v.head|) && |c.shift| == |c.live| == |v.head|
  {
    exists p :: 0 <= p < |v.head| && LiveAt(v, c, min, start, p, b)
  }

  // A live block lies in the pages of its run, at least as large as a chunk and aligned to it.
  lemma LiveInside(m: Mem, bits: seq<seq<SlabBits.Word>>, v: View, c: Chunks, min: C.Shift, start: int, p: int, b: Block)
    requires PoolOk(m, bits, v, c, min) && 0 <= p < m.pages && LiveAt(v, c, min, start, p, b)
    ensures start + p * C.PAGE_SIZE <= b.addr && b.size > 0
    ensures b.addr + b.size <= start + (p + v.len[p]) * C.PAGE_SIZE
    ensures p + v.len[p] <= m.pages
  {
    assert PageOk(m, v, p);
    if v.kind[p] == Chunk {
      assert IsChunk(v, p) && ChunkOk(m, bits, c, min, p);
      var s: C.Shift := c.shift[p];
      var i :| i in c.live[p] && b == ChunkBlock(start, p, s, i);
      Fits(s, i);
    }
  }

  lemma Fits(s: C.Shift, i: nat)
    requires i < C.Cap(s)
    ensures i * C.Size(s) + C.Size(s) <= C.PAGE_SIZE
  {
    var z, n := C.Size(s), C.Cap(s);
    assert i * z + z == (i + 1) * z;
    assert (i + 1) * z <= n * z;
  }

  // ---- what holds of the live blocks of a well-formed pool ----

  lemma ChunksApart(start: int, p: int, s: C.Shift, i: nat, j: nat)
    requires i != j
    ensures ChunkBlock(start, p, s, i).Apart(ChunkBlock(start, p, s, j))
  {
    var z := C.Size(s);
    if i < j { assert (i + 1) * z <= j * z; assert (i + 1) * z == i * z + z; }
    else { assert (j + 1) * z <= i * z; assert (j + 1) * z == j * z + z; }
  }

  // No two live blocks overlap.
  lemma LiveApart(m: Mem, bits: seq<seq<SlabBits.Word>>, v: View, c: Chunks, min: C.Shift, start: int, a: Block, b: Block)
    requires PoolOk(m, bits, v, c, min) && IsLive(v, c, min, start, a) && IsLive(v, c, min, start, b) && a != b
    ensures a.Apart(b)
  {
    var p :| 0 <= p < |v.head| && LiveAt(v, c, min, start, p, a);
    var q :| 0 <= q < |v.head| && LiveAt(v, c, min, start, q, b);
    if p == q {
      assert v.kind[p] == Chunk;
      var i :| i in c.live[p] && a == ChunkBlock(start, p, c.shift[p], i);
      var j :| j in c.live[p] && b == ChunkBlock(start, p, c.shift[p], j);
      ChunksApart(start, p, c.shift[p], i, j);
    } else {
      LiveInside(m, bits, v, c, min, start, p, a);
      LiveInside(m, bits, v, c, min, start, q, b);
      assert PageOk(m, v, p) && PageOk(m, v, q);
      RunsApart(m, v, q, p);
      PagesApart(start, p, v.len[p], q, v.len[q], a, b);
    }
  }

  lemma PagesApart(start: int, p: int, k: int, q: int, n: int, a: Block, b: Block)
    requires p + k <= q || q + n <= p
    requires start + p * C.PAGE_SIZE <= a.addr && a.addr + a.size <= start + (p + k) * C.PAGE_SIZE
    requires start + q * C.PAGE_SIZE <= b.addr && b.addr + b.size <= start + (q + n) * C.PAGE_SIZE
    ensures a.Apart(b)
  {
  }

  // Chunks are aligned to their size, runs to the page size.
  predicate Aligns(b: Block) {
    b.size > 0 && b.addr % (if b.size < C.PAGE_SIZE then b.size else C.PAGE_SIZE) == 0
  }

  lemma ChunkAligns(start: int, p: int, s: C.Shift, i: nat)
    requires start % C.PAGE_SIZE == 0
    ensures Aligns(ChunkBlock(start, p, s, i))
  {
    Aligned(start, p, s, i);
  }

  lemma RunAligns(start: int, p: int, k: int)
    requires start % C.PAGE_SIZE == 0 && k >= 1
    ensures Aligns(RunBlock(start, p, k))
  {
    assert k * C.PAGE_SIZE >= C.PAGE_SIZE;
  }

  // Every live block lies in the page area and is aligned.
  lemma LivePlaced(m: Mem, bits: seq<seq<SlabBits.Word>>, v: View, c: Chunks, min: C.Shift, start: int, b: Block)
    requires PoolOk(m, bits, v, c, min) && IsLive(v, c, min, start, b) && start % C.PAGE_SIZE == 0
    ensures start <= b.addr && b.addr + b.size <= start + m.pages * C.PAGE_SIZE
    ensures Aligns(b)
  {
    var p :| 0 <= p < |v.head| && LiveAt(v, c, min, start, p, b);
    LiveInside(m, bits, v, c, min, start, p, b);
    if v.kind[p] == Chunk {
      var i :| i in c.live[p] && b == ChunkBlock(start, p, c.shift[p], i);
      ChunkAligns(start, p, c.shift[p], i);
    } else {
      assert PageOk(m, v, p);
      RunAligns(start, p, v.len[p]);
    }
  }

  lemma Aligned(start: int, p: int, s: C.Shift, i: nat)
    requires start % C.PAGE_SIZE == 0
    ensures (start + p * C.PAGE_SIZE + i * C.Size(s)) % C.Size(s) == 0
  {
    var t := start / C.PAGE_SIZE;
    InChunks(t + p, C.Cap(s), C.Size(s), i);
    ModZero((t + p) * C.PAGE_SIZE + i * C.Size(s), C.Size(s), (t + p) * C.Cap(s) + i);
  }

  lemma InChunks(t: int, n: int, z: int, i: int)
    requires n * z == C.PAGE_SIZE
    ensures t * C.PAGE_SIZE + i * z == (t * n + i) * z
  {
    assert t * (n * z) == (t * n) * z;
  }

  lemma ModZero(x: int, z: int, a: int)
    requires z > 0 && x == a * z
    ensures x % z == 0
  {
    var q, r := x / z, x % z;
    assert x == q * z + r;
    Between(a - q, z, r) by { assert (a - q) * z == a * z - q * z; }
  }

  lemma Between(d: int, z: int, r: int)
    requires z > 0 && 0 <= r < z && d * z == r
    ensures r == 0
  {
    assert d >= 1 ==> (d - 1) * z >= 0;
    assert d <= -1 ==> (d + 1) * z <= 0;
  }

  // No live block touches the bitmap at the front of a small-chunk page.
  lemma OffBitmap(m: Mem, bits: seq<seq<SlabBits.Word>>, v: View, c: Chunks, min: C.Shift, start: int, p: int, b: Block)
    requires PoolOk(m, bits, v, c, min) && IsLive(v, c, min, start, b)
    requires IsChunk(v, p) && ShiftOk(c, min, p) && c.shift[p] < C.EXACT_SHIFT
    ensures b.Apart(Block(start + p * C.PAGE_SIZE, 8 * C.Words(c.shift[p])))
  {
    var q :| 0 <= q < |v.head| && LiveAt(v, c, min, start, q, b);
    var s: C.Shift := c.shift[p];
    assert ChunkOk(m, bits, c, min, p);
    if q == p {
      var i :| i in c.live[p] && b == ChunkBlock(start, p, s, i);
      assert i * C.Size(s) >= C.First(s) * C.Size(s);
    } else {
      LiveInside(m, bits, v, c, min, start, q, b);
      assert PageOk(m, v, p) && PageOk(m, v, q);
      RunsApart(m, v, q, p);
      PagesApart(start, p, 1, q, v.len[q], Block(start + p * C.PAGE_SIZE, 8 * C.Words(s)), b);
    }
  }

  // ---- how the operations change the live blocks ----

  ghost predicate Comparable(v: View, c: Chunks, w: View, e: Chunks) {
    v.Sized(|v.head|) && w.Sized(|v.head|) && |c.shift| == |c.live| == |v.head| && |e.shift| == |e.live| == |v.head|
  }

  // All pages but x hold the same blocks.
  ghost predicate SameBut(v: View, c: Chunks, w: View, e: Chunks, min: C.Shift, start: int, x: int, b: Block)
    requires Comparable(v, c, w, e)
  {
    forall p {:trigger LiveAt(w, e, min, start, p, b)} {:trigger LiveAt(v, c, min, start, p, b)} ::
      0 <= p < |v.head| && p != x ==> (LiveAt(w, e, min, start, p, b) <==> LiveAt(v, c, min, start, p, b))
  }

  lemma Gained(v: View, c: Chunks, w: View, e: Chunks, min: C.Shift, start: int, x: int, n: Block, b: Block)
    requires Comparable(v, c, w, e) && 0 <= x < |v.head| && SameBut(v, c, w, e, min, start, x, b)
    requires LiveAt(w, e, min, start, x, b) <==> LiveAt(v, c, min, start, x, b) || b == n
    ensures IsLive(w, e, min, start, b) <==> IsLive(v, c, min, start, b) || b == n
  {
    if IsLive(w, e, min, start, b) {
      var p :| 0 <= p < |v.head| && LiveAt(w, e, min, start, p, b);
      assert p != x ==> LiveAt(v, c, min, start, p, b);
    }
    if IsLive(v, c, min, start, b) {
      var p :| 0 <= p < |v.head| && LiveAt(v, c, min, start, p, b);
      assert LiveAt(w, e, min, start, p, b);
    }
  }

  lemma Lost(v: View, c: Chunks, w: View, e: Chunks, min: C.Shift, start: int, x: int, n: Block, b: Block)
    requires Comparable(v, c, w, e) && 0 <= x < |v.head| && SameBut(v, c, w, e, min, start, x, b)
    requires LiveAt(w, e, min, start, x, b) <==> LiveAt(v, c, min, start, x, b) && b != n
    requires forall p {:trigger LiveAt(v, c, min, start, p, n)} :: 0 <= p < |v.head| && p != x ==> !LiveAt(v, c, min, start, p, n)
    ensures IsLive(w, e, min, start, b) <==> IsLive(v, c, min, start, b) && b != n
  {
    if IsLive(w, e, min, start, b) {
      var p :| 0 <= p < |v.head| && LiveAt(w, e, min, start, p, b);
      assert p != x ==> LiveAt(v, c, min, start, p, b);
    }
    if IsLive(v, c, min, start, b) && b != n {
      var p :| 0 <= p < |v.head| && LiveAt(v, c, min, start, p, b);
      assert LiveAt(w, e, min, start, p, b);
    }
  }

  // A block has one place.
  lemma SamePlace(m: Mem, bits: seq<seq<SlabBits.Word>>, v: View, c: Chunks, min: C.Shift, start: int, x: int, p: int, n: Block)
    requires PoolOk(m, bits, v, c, min) && 0 <= x < m.pages && LiveAt(v, c, min, start, x, n)
    requires 0 <= p < m.pages && LiveAt(v, c, min, start, p, n)
    ensures p == x
  {
    LiveInside(m, bits, v, c, min, start, p, n);
    LiveInside(m, bits, v, c, min, start, x, n);
    assert PageOk(m, v, p) && PageOk(m, v, x);
    RunsApart(m, v, p, x);
  }

  lemma OnePlace(m: Mem, bits: seq<seq<SlabBits.Word>>, v: View, c: Chunks, min: C.Shift, start: int, x: int, n: Block)
    requires PoolOk(m, bits, v, c, min) && 0 <= x < m.pages && LiveAt(v, c, min, start, x, n)
    ensures forall p {:trigger LiveAt(v, c, min, start, p, n)} :: 0 <= p < |v.head| && p != x ==> !LiveAt(v, c, min, start, p, n)
  {
    forall p | 0 <= p < |v.head| && LiveAt(v, c, min, start, p, n) ensures p == x {
      SamePlace(m, bits, v, c, min, start, x, p, n);
    }
  }

  lemma ChunkGained(v: View, c: Chunks, e: Chunks, min: C.Shift, start: int, x: int, i: nat, b: Block)
    requires Comparable(v, c, v, e) && IsChunk(v, x) && ShiftOk(c, min, x)
    requires e.shift == c.shift && e.live == c.live[x := c.live[x] + {i}]
    ensures IsLive(v, e, min, start, b) <==> IsLive(v, c, min, start, b) || b == ChunkBlock(start, x, c.shift[x], i)
  {
    var n := ChunkBlock(start, x, c.shift[x], i);
    if LiveAt(v, c, min, start, x, b) {
      var j :| j in c.live[x] && b == ChunkBlock(start, x, c.shift[x], j);
      assert j in e.live[x];
    }
    if b == n { assert i in e.live[x]; }
    Gained(v, c, v, e, min, start, x, n, b);
  }

  lemma ChunkLost(m: Mem, bits: seq<seq<SlabBits.Word>>, v: View, c: Chunks, e: Chunks, min: C.Shift, start: int, x: int, i: nat, b: Block)
    requires PoolOk(m, bits, v, c, min) && Comparable(v, c, v, e) && IsChunk(v, x) && ShiftOk(c, min, x) && i in c.live[x]
    requires e.shift == c.shift && e.live == c.live[x := c.live[x] - {i}]
    ensures IsLive(v, e, min, start, b) <==> IsLive(v, c, min, start, b) && b != ChunkBlock(start, x, c.shift[x], i)
  {
    var s: C.Shift := c.shift[x];
    var n := ChunkBlock(start, x, s, i);
    assert LiveAt(v, c, min, start, x, n);
    OnePlace(m, bits, v, c, min, start, x, n);
    if LiveAt(v, c, min, start, x, b) && b != n {
      var j :| j in c.live[x] && b == ChunkBlock(start, x, s, j);
      assert j in e.live[x];
    }
    if LiveAt(v, e, min, start, x, b) {
      var j :| j in e.live[x] && b == ChunkBlock(start, x, s, j);
      assert j in c.live[x];
      ChunksApart(start, x, s, i, j);
    }
    Lost(v, c, v, e, min, start, x, n, b);
  }

  // Pages that are free hold nothing; runs in use elsewhere are the same.
  lemma GivenSame(m: Mem, v: View, r: Mem, w: View, c: Chunks, e: Chunks, min: C.Shift, start: int, x: int, k: int, b: Block)
    requires RunsOk(r, w) && Given(m, v, r, w, x, k) && Comparable(v, c, w, e)
    requires forall p {:trigger e.shift[p]} :: 0 <= p < m.pages && p != x ==> e.shift[p] == c.shift[p] && e.live[p] == c.live[p]
    ensures SameBut(v, c, w, e, min, start, x, b) && !LiveAt(v, c, min, start, x, b)
  {
    assert PageOk(r, w, x);
    assert IsFree(v, x);
    forall p | 0 <= p < m.pages && p != x
      ensures LiveAt(w, e, min, start, p, b) <==> LiveAt(v, c, min, start, p, b)
    {
      assert e.shift[p] == c.shift[p];
      if x <= p < x + k {
        assert IsFree(v, p) && w.head[p] == x;
      } else if IsFree(v, p) {
        assert IsFree(w, p);
      } else {
        assert SameRun(v, w, p);
      }
    }
  }

  lemma RunGained(m: Mem, v: View, r: Mem, w: View, c: Chunks, min: C.Shift, start: int, x: int, k: int, b: Block)
    requires RunsOk(r, w) && Given(m, v, r, w, x, k) && Comparable(v, c, w, c)
    ensures IsLive(w, c, min, start, b) <==> IsLive(v, c, min, start, b) || b == RunBlock(start, x, k)
  {
    GivenSame(m, v, r, w, c, c, min, start, x, k, b);
    Gained(v, c, w, c, min, start, x, RunBlock(start, x, k), b);
  }

  lemma FreshGained(m: Mem, v: View, r: Mem, w: View, c: Chunks, e: Chunks, min: C.Shift, start: int, x: int, s: C.Shift, i: nat, b: Block)
    requires RunsOk(r, w) && Given(m, v, r, w, x, 1) && Comparable(v, c, w, e) && min <= s
    requires e.shift == c.shift[x := s] && e.live == c.live[x := {i}]
    ensures IsLive(w.(kind := w.kind[x := Chunk]), e, min, start, b) <==> IsLive(v, c, min, start, b) || b == ChunkBlock(start, x, s, i)
  {
    var u, n := w.(kind := w.kind[x := Chunk]), ChunkBlock(start, x, s, i);
    GivenSame(m, v, r, w, c, e, min, start, x, 1, b);
    forall p | 0 <= p < m.pages && p != x
      ensures LiveAt(u, e, min, start, p, b) <==> LiveAt(v, c, min, start, p, b)
    {
      assert LiveAt(u, e, min, start, p, b) <==> LiveAt(w, e, min, start, p, b);
    }
    if b == n { assert i in e.live[x]; }
    Gained(v, c, u, e, min, start, x, n, b);
  }

  lemma FreedLost(m: Mem, bits: seq<seq<SlabBits.Word>>, v: View, w: View, c: Chunks, e: Chunks, min: C.Shift, start: int, x: int, k: int, n: Block, b: Block)
    requires PoolOk(m, bits, v, c, min) && Comparable(v, c, w, e) && e.shift == c.shift && e.live == c.live
    requires Freed(v, w, x, k) && 0 <= x < m.pages && v.head[x] == x && v.len[x] == k
    requires LiveAt(v, c, min, start, x, n) && (LiveAt(v, c, min, start, x, b) ==> b == n)
    ensures IsLive(w, e, min, start, b) <==> IsLive(v, c, min, start, b) && b != n
  {
    assert PageOk(m, v, x);
    OnePlace(m, bits, v, c, min, start, x, n);
    assert IsFree(w, x);
    forall p | 0 <= p < m.pages && p != x
      ensures LiveAt(w, e, min, start, p, b) <==> LiveAt(v, c, min, start, p, b)
    {
      if x <= p < x + k {
        assert v.head[p] == x && IsFree(w, p);
      } else if IsFree(v, p) {
        assert IsFree(w, p);
      } else {
        assert SameRun(v, w, p);
      }
    }
    Lost(v, c, w, e, min, start, x, n, b);
  }

  // The page in which a live block begins is of its run.
  lemma PlaceOf(m: Mem, bits: seq<seq<SlabBits.Word>>, v: View, c: Chunks, min: C.Shift, start: int, p: int, b: Block, x: int)
    requires PoolOk(m, bits, v, c, min) && 0 <= p < m.pages && LiveAt(v, c, min, start, p, b)
    requires 0 <= x < m.pages && start + x * C.PAGE_SIZE <= b.addr < start + (x + 1) * C.PAGE_SIZE
    ensures v.head[x] == p && (v.kind[p] == Used || v.kind[p] == Chunk)
  {
    LiveInside(m, bits, v, c, min, start, p, b);
    assert PageOk(m, v, p) && PageOk(m, v, x);
    RunsApart(m, v, x, p);
  }

  // A block inside a free page is not live.
  lemma NotHeldBefore(m: Mem, bits: seq<seq<SlabBits.Word>>, v: View, c: Chunks, min: C.Shift, start: int, x: int, b: Block)
    requires PoolOk(m, bits, v, c, min) && 0 <= x < m.pages && IsFree(v, x)
    requires start + x * C.PAGE_SIZE <= b.addr < start + (x + 1) * C.PAGE_SIZE
    ensures !IsLive(v, c, min, start, b)
  {
    if IsLive(v, c, min, start, b) {
      var p :| 0 <= p < |v.head| && LiveAt(v, c, min, start, p, b);
      PlaceOf(m, bits, v, c, min, start, p, b, x);
    }
  }

  lemma NotLiveBefore(m: Mem, bits: seq<seq<SlabBits.Word>>, v: View, c: Chunks, min: C.Shift, start: int, x: int, i: nat)
    requires PoolOk(m, bits, v, c, min) && IsChunk(v, x) && ShiftOk(c, min, x) && i !in c.live[x] && i < C.Cap(c.shift[x])
    ensures !IsLive(v, c, min, start, ChunkBlock(start, x, c.shift[x], i))
  {
    var s: C.Shift := c.shift[x];
    var b := ChunkBlock(start, x, s, i);
    Fits(s, i);
    if IsLive(v, c, min, start, b) {
      var p :| 0 <= p < |v.head| && LiveAt(v, c, min, start, p, b);
      PlaceOf(m, bits, v, c, min, start, p, b, x);
      var j :| j in c.live[x] && b == ChunkBlock(start, x, s, j);
      SameFactor(i, j, C.Size(s));
    }
  }

  lemma FullTest(m: Mem, bits: seq<seq<SlabBits.Word>>, v: View, c: Chunks, min: C.Shift, x: int, s: C.Shift)
    requires PoolOk(m, bits, v, c, min) && IsChunk(v, x) && c.shift[x] == s
    ensures min <= s && v.len[x] == 1
    ensures (if s == C.EXACT_SHIFT then m.slab[x] == SlabBits.Ones(64) else m.next[x] == NULL) <==> C.Full(s, c.live[x])
  {
    assert ChunkOk(m, bits, c, min, x);
    assert PageOk(m, v, x);
    if s == C.EXACT_SHIFT { C.HoldsAll(m.slab[x], 64, c.live[x]); }
  }

  ghost predicate LocatedRun(m: Mem, v: View, start: int, x: int, b: Block)
    requires 0 <= x < |v.head| == |v.kind| == |v.len| <= |m.slab|
  {
    v.head[x] == x && v.kind[x] == Used && m.slab[x] == PAGE_START + v.len[x] && b == RunBlock(start, x, v.len[x])
  }

  ghost predicate LocatedChunk(m: Mem, v: View, c: Chunks, min: C.Shift, start: int, x: int, b: Block)
    requires 0 <= x < |v.head| == |v.kind| == |v.len| == |c.shift| == |c.live| <= |m.slab| == |m.typ|
  {
    && IsChunk(v, x) && m.slab[x] >= 0 && ShiftOk(c, min, x)
    && c.shift[x] == (if m.typ[x] == C.TYPE_EXACT then C.EXACT_SHIFT else SlabBits.Low(m.slab[x], 4))
    && var i := b.addr % C.PAGE_SIZE / C.Size(c.shift[x]);
    i in c.live[x] && b == ChunkBlock(start, x, c.shift[x], i)
  }

  // The page, the kind and the chunk number that the address of a live block leads to.
  lemma Locate(m: Mem, bits: seq<seq<SlabBits.Word>>, v: View, c: Chunks, min: C.Shift, start: int, b: Block)
    requires PoolOk(m, bits, v, c, min) && IsLive(v, c, min, start, b) && start % C.PAGE_SIZE == 0
    ensures var x := (b.addr - start) / C.PAGE_SIZE;
      && 0 <= x < m.pages && LiveAt(v, c, min, start, x, b)
      && (m.typ[x] == TYPE_PAGE ==> LocatedRun(m, v, start, x, b))
      && (m.typ[x] != TYPE_PAGE ==> LocatedChunk(m, v, c, min, start, x, b))
  {
    var p :| 0 <= p < |v.head| && LiveAt(v, c, min, start, p, b);
    assert PageOk(m, v, p);
    if v.kind[p] == Chunk {
      assert IsChunk(v, p) && ChunkOk(m, bits, c, min, p);
      var s: C.Shift := c.shift[p];
      var i :| i in c.live[p] && b == ChunkBlock(start, p, s, i);
      Unpack(start, p, s, i);
      C.ShiftFits(s);
    }
  }

  lemma Unpack(start: int, p: int, s: C.Shift, i: nat)
    requires start % C.PAGE_SIZE == 0 && i < C.Cap(s)
    ensures var a := ChunkBlock(start, p, s, i).addr;
      (a - start) / C.PAGE_SIZE == p && a % C.PAGE_SIZE == i * C.Size(s) && i * C.Size(s) / C.Size(s) == i
  {
    Fits(s, i);
    InPage(start / C.PAGE_SIZE, p, i * C.Size(s));
    DivMul(i, C.Size(s));
  }

  lemma InPage(k: int, p: int, r: int)
    requires 0 <= r < C.PAGE_SIZE
    ensures (p * C.PAGE_SIZE + r) / C.PAGE_SIZE == p && (k * C.PAGE_SIZE + p * C.PAGE_SIZE + r) % C.PAGE_SIZE == r
  {
  }

  lemma DivMul(i: nat, z: nat)
    requires z > 0
    ensures i * z / z == i
  {
    var q, r := i * z / z, i * z % z;
    ModZero(i * z, z, i);
    assert i * z == q * z;
    SameFactor(i, q, z);
  }

  lemma SameFactor(a: int, b: int, z: int)
    requires z > 0 && a * z == b * z
    ensures a == b
  {
    assert (a - b) * z == 0;
  }

  // Once no block is live, one free run covers all the pages.
  lemma NothingLive(m: Mem, bits: seq<seq<SlabBits.Word>>, v: View, c: Chunks, min: C.Shift, start: int)
    requires PoolOk(m, bits, v, c, min) && m.pages > 0
    requires forall b {:trigger IsLive(v, c, min, start, b)} :: !IsLive(v, c, min, start, b)
    ensures v.head[0] == 0 && v.len[0] == m.pages && v.free == [0] && FreeCount(v, m.pages) == m.pages
  {
    forall p | 0 <= p < m.pages ensures IsFree(v, p) {
      assert PageOk(m, v, p);
      var h := v.head[p];
      if v.kind[h] == Used {
        assert LiveAt(v, c, min, start, h, RunBlock(start, h, v.len[h]));
        assert IsLive(v, c, min, start, RunBlock(start, h, v.len[h]));
      } else if v.kind[h] == Chunk {
        assert IsChunk(v, h) && ChunkOk(m, bits, c, min, h);
        var i :| i in c.live[h];
        assert LiveAt(v, c, min, start, h, ChunkBlock(start, h, c.shift[h], i));
        assert IsLive(v, c, min, start, ChunkBlock(start, h, c.shift[h], i));
      }
    }
    AllFree(m, v);
    AllCounted(v, m.pages);
  }

  lemma {:induction false} AllCounted(v: View, n: nat)
    requires v.Sized(|v.head|) && n <= |v.head| && forall p {:trigger IsFree(v, p)} :: 0 <= p < |v.head| ==> IsFree(v, p)
    ensures FreeCount(v, n) == n
  {
    if n > 0 { AllCounted(v, n - 1); }
  }
}
