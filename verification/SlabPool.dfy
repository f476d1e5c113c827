/** The slab pool of src/core/ngx_slab.c: page runs and chunk pages together. */
module SlabPool {
  import opened SlabRing
  import opened SlabRuns
  import opened SlabBits
  import C = SlabChunks

  // Chunk pages: the chunk size of each, its live chunks, and the list of each slot.
  datatype Chunks = Chunks(shift: seq<int>, live: seq<set<nat>>, slots: seq<seq<Ref>>)

  ghost predicate IsChunk(v: View, p: int)
    requires v.Sized(|v.head|)
  {
    0 <= p < |v.head| && v.head[p] == p && v.kind[p] == Chunk
  }

  ghost predicate Sized(m: Mem, bits: seq<seq<Word>>, v: View, c: Chunks, min: C.Shift) {
    && m.Sized() && v.Sized(m.pages) && |c.shift| == m.pages && |c.live| == m.pages && |bits| == m.pages
    && |c.slots| == 12 - min && |m.slab| == m.pages + 1 + |c.slots|
  }

  ghost predicate ShiftOk(c: Chunks, min: C.Shift, p: int)
    requires 0 <= p < |c.shift|
  {
    min <= c.shift[p] <= C.MAX_SHIFT
  }

  // A chunk page records its live chunks, has one, and is on the list of its slot unless full.
  ghost predicate ChunkOk(m: Mem, bits: seq<seq<Word>>, c: Chunks, min: C.Shift, p: int)
    requires m.Sized() && 0 <= p < m.pages && |c.shift| == m.pages && |c.live| == m.pages && |bits| == m.pages && |c.slots| == 12 - min
  {
    && ShiftOk(c, min, p)
    && var s: C.Shift := c.shift[p];
    && m.typ[p] == C.TypeOf(s) && m.slab[p] >= 0
    && C.Encoded(m.slab[p], bits[p], s, c.live[p])
    && c.live[p] != {} && C.InRange(s, c.live[p])
    && (m.next[p] == NULL <==> C.Full(s, c.live[p]))
    && (!C.Full(s, c.live[p]) ==> p in c.slots[s - min])
  }

  ghost predicate OnSlot(v: View, c: Chunks, min: C.Shift, k: int, x: Ref)
    requires v.Sized(|v.head|) && |c.shift| == |v.head| == |c.live|
  {
    IsChunk(v, x) && ShiftOk(c, min, x) && c.shift[x] == min + k && !C.Full(c.shift[x], c.live[x])
  }

  ghost predicate SlotOk(m: Mem, v: View, c: Chunks, min: C.Shift, k: int)
    requires m.Sized() && v.Sized(m.pages) && |c.shift| == m.pages == |c.live| && 0 <= k < |c.slots|
  {
    && Ring(m.next, m.prev, m.pages + 1 + k, c.slots[k])
    && forall x {:trigger OnSlot(v, c, min, k, x)} :: x in c.slots[k] ==> OnSlot(v, c, min, k, x)
  }

  ghost predicate Settled(v: View) {
    forall p :: 0 <= p < |v.kind| && p < |v.head| && v.head[p] == p ==> v.kind[p] != Limbo
  }

  ghost predicate ChunksOk(m: Mem, bits: seq<seq<Word>>, v: View, c: Chunks, min: C.Shift) {
    && Sized(m, bits, v, c, min)
    && (forall p {:trigger bits[p]} :: 0 <= p < m.pages ==> |bits[p]| == C.MAP_WORDS)
    && (forall p {:trigger ChunkOk(m, bits, c, min, p)} :: IsChunk(v, p) ==> ChunkOk(m, bits, c, min, p))
    && (forall k {:trigger SlotOk(m, v, c, min, k)} :: 0 <= k < |c.slots| ==> SlotOk(m, v, c, min, k))
  }

  ghost predicate PoolOk(m: Mem, bits: seq<seq<Word>>, v: View, c: Chunks, min: C.Shift) {
    RunsOk(m, v) && Settled(v) && ChunksOk(m, bits, v, c, min)
  }

  // ---- page operations leave the chunk pages alone ----

  // The same, saying nothing of the pages a..b, which are on no slot list.
  ghost predicate ChunksBut(m: Mem, bits: seq<seq<Word>>, v: View, c: Chunks, min: C.Shift, a: int, b: int) {
    && Sized(m, bits, v, c, min)
    && (forall p {:trigger bits[p]} :: 0 <= p < m.pages ==> |bits[p]| == C.MAP_WORDS)
    && (forall p {:trigger ChunkOk(m, bits, c, min, p)} :: IsChunk(v, p) && !(a <= p < b) ==> ChunkOk(m, bits, c, min, p))
    && (forall k {:trigger SlotOk(m, v, c, min, k)} :: 0 <= k < |c.slots| ==> SlotOk(m, v, c, min, k) && forall x :: x in c.slots[k] ==> !(a <= x < b))
  }

  lemma LocalIsChunk(m: Mem, v: View, r: Mem, w: View, a: int, b: int, p: int)
    requires RunsOk(m, v) && RunsOk(r, w) && Local(m, v, r, w, a, b) && !(a <= p < b)
    ensures IsChunk(v, p) <==> IsChunk(w, p)
    ensures IsChunk(v, p) ==> SameAt(m, r, p)
  {
    if IsChunk(v, p) {
      assert SameAt(m, r, p) && SameRun(v, w, p);
    }
    if IsChunk(w, p) {
      assert !IsFree(w, p);
      assert SameRun(v, w, p);
    }
  }

  lemma LocalSlot(m: Mem, bits: seq<seq<Word>>, v: View, c: Chunks, min: C.Shift, r: Mem, w: View, a: int, b: int, k: int)
    requires RunsOk(m, v) && ChunksBut(m, bits, v, c, min, a, b)
    requires RunsOk(r, w) && Local(m, v, r, w, a, b) && 0 <= k < |c.slots|
    ensures SlotOk(r, w, c, min, k)
  {
    assert SlotOk(m, v, c, min, k);
    var head := m.pages + 1 + k;
    assert SameAt(m, r, head);
    forall x | x in c.slots[k] ensures OnSlot(w, c, min, k, x) && r.next[x] == m.next[x] && r.prev[x] == m.prev[x] {
      assert OnSlot(v, c, min, k, x);
      LocalIsChunk(m, v, r, w, a, b, x);
      assert SameAt(m, r, x);
    }
    Kept(m.next, m.prev, r.next, r.prev, head, c.slots[k]);
  }

  lemma LocalChunks(m: Mem, bits: seq<seq<Word>>, v: View, c: Chunks, min: C.Shift, r: Mem, w: View, a: int, b: int)
    requires RunsOk(m, v) && ChunksBut(m, bits, v, c, min, a, b)
    requires RunsOk(r, w) && Local(m, v, r, w, a, b) && 0 <= a <= b <= m.pages
    requires forall q {:trigger w.kind[q]} :: a <= q < b && w.head[q] == q ==> w.kind[q] != Chunk
    ensures ChunksOk(r, bits, w, c, min)
  {
    forall p | IsChunk(w, p) ensures ChunkOk(r, bits, c, min, p) {
      LocalIsChunk(m, v, r, w, a, b, p);
      assert ChunkOk(m, bits, c, min, p);
    }
    forall k | 0 <= k < |c.slots| ensures SlotOk(r, w, c, min, k) {
      LocalSlot(m, bits, v, c, min, r, w, a, b, k);
    }
  }

  lemma RunIsFree(m: Mem, v: View, x: Ref)
    requires RunsOk(m, v) && 0 <= x < m.pages && v.head[x] == x && v.kind[x] == Free
    ensures x + v.len[x] <= m.pages
    ensures forall q {:trigger IsFree(v, q)} :: x <= q < x + v.len[x] ==> IsFree(v, q)
  {
    assert PageOk(m, v, x);
  }

  lemma CarveFree(m: Mem, v: View, r: Mem, w: View, x: Ref, k: int)
    requires Given(m, v, r, w, x, k) && RunsOk(r, w)
    ensures FreeCount(v, m.pages) == FreeCount(w, m.pages) + k
    ensures forall q {:trigger w.head[q]} :: x <= q < x + k ==> w.head[q] == x
  {
    assert PageOk(r, w, x);
    forall p | 0 <= p < m.pages
      ensures if x <= p < x + k then IsFree(v, p) && !IsFree(w, p) else (IsFree(w, p) <==> IsFree(v, p))
    {
      assert x <= p < x + k ==> w.head[p] == x && IsFree(v, p);
    }
    CountChange(v, w, x, x + k, m.pages);
  }

  // Free pages are no chunk pages.
  lemma FreeBut(m: Mem, bits: seq<seq<Word>>, v: View, c: Chunks, min: C.Shift, a: int, b: int)
    requires ChunksOk(m, bits, v, c, min) && 0 <= a <= b <= m.pages
    requires forall q {:trigger v.kind[q]} :: a <= q < b && v.head[q] == q ==> v.kind[q] != Chunk
    ensures ChunksBut(m, bits, v, c, min, a, b)
  {
    forall k | 0 <= k < |c.slots| ensures SlotOk(m, v, c, min, k) && forall x :: x in c.slots[k] ==> !(a <= x < b) {
      assert SlotOk(m, v, c, min, k);
      forall x | x in c.slots[k] ensures !(a <= x < b) { assert OnSlot(v, c, min, k, x); }
    }
  }

  ghost predicate NoRun(v: View, k: int) {
    forall h {:trigger v.len[h]} :: h in v.free && 0 <= h < |v.len| ==> v.len[h] < k
  }

  // Run x is the first in the free list that has k pages.
  ghost predicate FirstFit(v: View, x: Ref, k: int) {
    exists i {:trigger v.free[i]} :: 0 <= i < |v.free| && v.free[i] == x && 0 <= x < |v.len| && v.len[x] >= k
      && forall j {:trigger v.free[j]} :: 0 <= j < i && 0 <= v.free[j] < |v.len| ==> v.len[v.free[j]] < k
  }

  // k free pages from x on became a run in use, and nothing else changed but the free runs.
  ghost predicate Given(m: Mem, v: View, r: Mem, w: View, x: Ref, k: int) {
    && Local(m, v, r, w, x, x + k)
    && 0 <= x < m.pages && w.head[x] == x && w.kind[x] == Used && w.len[x] == k && x + k <= m.pages
    && (forall q {:trigger IsFree(v, q)} :: x <= q < x + k ==> IsFree(v, q))
  }

  lemma GivenPool(m: Mem, bits: seq<seq<Word>>, v: View, c: Chunks, min: C.Shift, r: Mem, w: View, x: Ref, k: int)
    requires PoolOk(m, bits, v, c, min) && RunsOk(r, w) && Settled(w) && Given(m, v, r, w, x, k) && k >= 1
    ensures PoolOk(r, bits, w, c, min) && FreeCount(w, m.pages) == FreeCount(v, m.pages) - k
  {
    CarveFree(m, v, r, w, x, k);
    forall q | x <= q < x + k && v.head[q] == q ensures v.kind[q] != Chunk { assert IsFree(v, q); }
    FreeBut(m, bits, v, c, min, x, x + k);
    LocalChunks(m, bits, v, c, min, r, w, x, x + k);
  }

  lemma SplitPool(m: Mem, bits: seq<seq<Word>>, v: View, c: Chunks, min: C.Shift, i: int, k: int)
    requires PoolOk(m, bits, v, c, min) && CanSplit(m, v, i, k)
    ensures var x := v.free[i]; var r, w := MarkedUsed(SplitOff(m, x, k), x, k), SplitView(v, i, k);
      PoolOk(r, bits, w, c, min) && FreeCount(w, m.pages) == FreeCount(v, m.pages) - k && Given(m, v, r, w, x, k)
  {
    var x := v.free[i];
    SplitGives(m, v, i, k);
    GivenPool(m, bits, v, c, min, MarkedUsed(SplitOff(m, x, k), x, k), SplitView(v, i, k), x, k);
  }

  lemma SplitGives(m: Mem, v: View, i: int, k: int)
    requires CanSplit(m, v, i, k) && Settled(v)
    ensures var x := v.free[i]; var r, w := MarkedUsed(SplitOff(m, x, k), x, k), SplitView(v, i, k);
      RunsOk(r, w) && Settled(w) && Given(m, v, r, w, x, k)
  {
    var x := v.free[i];
    RingNeighbours(m, v, i);
    RunIsFree(m, v, x);
    Split(m, v, i, k);
    SplitLocal(m, v, i, k);
    assert PageOk(m, v, x);
  }

  lemma TakePool(m: Mem, bits: seq<seq<Word>>, v: View, c: Chunks, min: C.Shift, i: int)
    requires PoolOk(m, bits, v, c, min) && CanTake(m, v, i)
    ensures var x := v.free[i]; var k := v.len[x]; var r, w := MarkedUsed(Detached(m, x), x, k), TakenView(v, i, Used);
      PoolOk(r, bits, w, c, min) && FreeCount(w, m.pages) == FreeCount(v, m.pages) - k && Given(m, v, r, w, x, k)
  {
    var x := v.free[i];
    RingNeighbours(m, v, i);
    RunIsFree(m, v, x);
    TakeWhole(m, v, i);
    TakeLocal(m, v, i);
    GivenPool(m, bits, v, c, min, MarkedUsed(Detached(m, x), x, v.len[x]), TakenView(v, i, Used), x, v.len[x]);
  }

  // ---- chunk operations ----

  // Page x gets the live chunks "live" and the words that record them, and the list of its slot
  // becomes l; x was a chunk page of this slot or a fresh page.
  datatype Change = Change(x: Ref, s: C.Shift, word: Word, front: seq<Word>, live: set<nat>, l: seq<Ref>, next: seq<Ref>, prev: seq<Ref>)

  ghost function ChangedMem(m: Mem, d: Change): Mem
    requires m.Sized() && 0 <= d.x < m.pages
  {
    Mem(m.pages, m.slab[d.x := d.word], d.next, d.prev, m.typ[d.x := C.TypeOf(d.s)])
  }

  ghost function ChangedView(v: View, d: Change): View
    requires 0 <= d.x < |v.kind|
  {
    v.(kind := v.kind[d.x := Chunk])
  }

  ghost function ChangedChunks(c: Chunks, min: C.Shift, d: Change): Chunks
    requires 0 <= d.x < |c.shift| && d.x < |c.live| && min <= d.s && d.s - min < |c.slots|
  {
    Chunks(c.shift[d.x := d.s], c.live[d.x := d.live], c.slots[d.s - min := d.l])
  }

  ghost predicate LinkChange(m: Mem, bits: seq<seq<Word>>, v: View, c: Chunks, min: C.Shift, d: Change) {
    && PoolOk(m, bits, v, c, min) && min <= d.s
    && 0 <= d.x < m.pages && v.head[d.x] == d.x && v.len[d.x] == 1
    && (v.kind[d.x] == Used || (v.kind[d.x] == Chunk && c.shift[d.x] == d.s))
    && |d.front| == C.MAP_WORDS && |d.next| == |m.next| && |d.prev| == |m.prev|
    && var head := m.pages + 1 + (d.s - min);
    && Ring(d.next, d.prev, head, d.l)
    && (forall q {:trigger d.next[q]} {:trigger d.prev[q]} :: 0 <= q < |m.next| && q != d.x && q != head && q !in c.slots[d.s - min] ==>
          d.next[q] == m.next[q] && d.prev[q] == m.prev[q])
    && (forall q :: q != d.x ==> (q in d.l <==> q in c.slots[d.s - min]))
    && (d.x in d.l ==> !C.Full(d.s, d.live))
  }

  ghost predicate ChangeOk(m: Mem, bits: seq<seq<Word>>, v: View, c: Chunks, min: C.Shift, d: Change) {
    && LinkChange(m, bits, v, c, min, d)
    && C.Encoded(d.word, d.front, d.s, d.live) && d.live != {} && C.InRange(d.s, d.live)
    && (d.x in d.l <==> !C.Full(d.s, d.live))
    && (d.next[d.x] == NULL <==> C.Full(d.s, d.live))
  }

  // Descriptors other than those of the slot's list keep their links.
  lemma ChangeKeeps(m: Mem, bits: seq<seq<Word>>, v: View, c: Chunks, min: C.Shift, d: Change, q: int)
    requires LinkChange(m, bits, v, c, min, d)
    requires 0 <= q < |m.next| && q != d.x && q != m.pages + 1 + (d.s - min)
    requires q < m.pages && IsChunk(v, q) ==> c.shift[q] != d.s
    ensures d.next[q] == m.next[q] && d.prev[q] == m.prev[q]
  {
    assert SlotOk(m, v, c, min, d.s - min);
    assert q in c.slots[d.s - min] ==> OnSlot(v, c, min, d.s - min, q);
  }

  lemma ChangeFree(m: Mem, bits: seq<seq<Word>>, v: View, c: Chunks, min: C.Shift, d: Change)
    requires LinkChange(m, bits, v, c, min, d)
    ensures FreeList(ChangedMem(m, d), ChangedView(v, d))
  {
    var r, w := ChangedMem(m, d), ChangedView(v, d);
    forall z | z in v.free ensures 0 <= z < m.pages && r.next[z] == m.next[z] && r.prev[z] == m.prev[z] {
      assert Listed(v, z);
      ChangeKeeps(m, bits, v, c, min, d, z);
    }
    ChangeKeeps(m, bits, v, c, min, d, m.pages);
    Kept(m.next, m.prev, r.next, r.prev, m.pages, v.free);
    forall h | 0 <= h < m.pages ensures Listed(w, h) { assert Listed(v, h); }
  }

  lemma ChangePage(m: Mem, bits: seq<seq<Word>>, v: View, c: Chunks, min: C.Shift, d: Change, p: int)
    requires LinkChange(m, bits, v, c, min, d) && 0 <= p < m.pages
    ensures PageOk(ChangedMem(m, d), ChangedView(v, d), p)
  {
    assert PageOk(m, v, d.x) && PageOk(m, v, p);
    RunsApart(m, v, p, d.x);
    if !IsChunk(v, p) && p != d.x { ChangeKeeps(m, bits, v, c, min, d, p); }
  }

  lemma ChangeRuns(m: Mem, bits: seq<seq<Word>>, v: View, c: Chunks, min: C.Shift, d: Change)
    requires LinkChange(m, bits, v, c, min, d)
    ensures RunsOk(ChangedMem(m, d), ChangedView(v, d))
  {
    ChangeFree(m, bits, v, c, min, d);
    forall p | 0 <= p < m.pages ensures PageOk(ChangedMem(m, d), ChangedView(v, d), p) {
      ChangePage(m, bits, v, c, min, d, p);
    }
  }

  lemma RingLinked(next: seq<Ref>, prev: seq<Ref>, head: Ref, l: seq<Ref>, x: Ref)
    requires Ring(next, prev, head, l) && x in l
    ensures 0 <= x < |next| && next[x] != NULL
  {
    var i :| 0 <= i < |l| && l[i] == x;
    assert RingAt(next, prev, head, l, i);
    if i + 1 < |l| { assert RingAt(next, prev, head, l, i + 1); }
  }

  lemma ChangeChunk(m: Mem, bits: seq<seq<Word>>, v: View, c: Chunks, min: C.Shift, d: Change, p: int)
    requires LinkChange(m, bits, v, c, min, d) && IsChunk(v, p) && p != d.x
    ensures ChunkOk(ChangedMem(m, d), bits[d.x := d.front], ChangedChunks(c, min, d), min, p)
  {
    var k := d.s - min;
    assert ChunkOk(m, bits, c, min, p);
    assert SlotOk(m, v, c, min, k);
    if p in c.slots[k] {
      assert OnSlot(v, c, min, k, p);
      assert p in d.l;
      RingLinked(d.next, d.prev, m.pages + 1 + k, d.l, p);
    }
  }

  lemma ChangeSlot(m: Mem, bits: seq<seq<Word>>, v: View, c: Chunks, min: C.Shift, d: Change, j: int)
    requires LinkChange(m, bits, v, c, min, d) && 0 <= j < |c.slots| && j != d.s - min
    ensures SlotOk(ChangedMem(m, d), ChangedView(v, d), ChangedChunks(c, min, d), min, j)
  {
    var w, c', head := ChangedView(v, d), ChangedChunks(c, min, d), m.pages + 1 + j;
    assert SlotOk(m, v, c, min, j);
    forall x | x in c.slots[j] ensures OnSlot(w, c', min, j, x) && d.next[x] == m.next[x] && d.prev[x] == m.prev[x] {
      assert OnSlot(v, c, min, j, x);
      ChangeKeeps(m, bits, v, c, min, d, x);
    }
    ChangeKeeps(m, bits, v, c, min, d, head);
    Kept(m.next, m.prev, d.next, d.prev, head, c.slots[j]);
  }

  lemma ChangeOwnSlot(m: Mem, bits: seq<seq<Word>>, v: View, c: Chunks, min: C.Shift, d: Change)
    requires LinkChange(m, bits, v, c, min, d)
    ensures SlotOk(ChangedMem(m, d), ChangedView(v, d), ChangedChunks(c, min, d), min, d.s - min)
  {
    var k, w, c' := d.s - min, ChangedView(v, d), ChangedChunks(c, min, d);
    assert SlotOk(m, v, c, min, k);
    forall x | x in d.l ensures OnSlot(w, c', min, k, x) {
      if x != d.x { assert OnSlot(v, c, min, k, x); }
    }
  }

  lemma ChangePool(m: Mem, bits: seq<seq<Word>>, v: View, c: Chunks, min: C.Shift, d: Change)
    requires ChangeOk(m, bits, v, c, min, d)
    ensures PoolOk(ChangedMem(m, d), bits[d.x := d.front], ChangedView(v, d), ChangedChunks(c, min, d), min)
  {
    ChangeRuns(m, bits, v, c, min, d);
    var r, w, c' := ChangedMem(m, d), ChangedView(v, d), ChangedChunks(c, min, d);
    forall p | IsChunk(w, p) ensures ChunkOk(r, bits[d.x := d.front], c', min, p) {
      if p != d.x { ChangeChunk(m, bits, v, c, min, d, p); }
    }
    forall j | 0 <= j < |c'.slots| ensures SlotOk(r, w, c', min, j) {
      if j == d.s - min { ChangeOwnSlot(m, bits, v, c, min, d); } else { ChangeSlot(m, bits, v, c, min, d, j); }
    }
  }

  // A page taken off its list, its contents no longer counting.
  lemma RetirePool(m: Mem, bits: seq<seq<Word>>, v: View, c: Chunks, min: C.Shift, d: Change)
    requires LinkChange(m, bits, v, c, min, d) && d.x !in d.l && v.kind[d.x] == Chunk
    ensures RunsOk(ChangedMem(m, d), v)
    ensures ChunksBut(ChangedMem(m, d), bits[d.x := d.front], v, ChangedChunks(c, min, d), min, d.x, d.x + 1)
  {
    assert ChangedView(v, d) == v;
    ChangeRuns(m, bits, v, c, min, d);
    var r, c' := ChangedMem(m, d), ChangedChunks(c, min, d);
    forall p | IsChunk(v, p) && p != d.x ensures ChunkOk(r, bits[d.x := d.front], c', min, p) {
      ChangeChunk(m, bits, v, c, min, d, p);
    }
    forall j | 0 <= j < |c'.slots| ensures SlotOk(r, v, c', min, j) && forall y :: y in c'.slots[j] ==> y != d.x {
      if j == d.s - min {
        ChangeOwnSlot(m, bits, v, c, min, d);
      } else {
        ChangeSlot(m, bits, v, c, min, d, j);
        assert SlotOk(m, v, c, min, j);
        assert d.x in c.slots[j] ==> OnSlot(v, c, min, j, d.x);
      }
    }
  }

  // The page stays on the list of its slot.
  lemma StayChange(m: Mem, bits: seq<seq<Word>>, v: View, c: Chunks, min: C.Shift, x: Ref, s: C.Shift,
                   word: Word, front: seq<Word>, live: set<nat>) returns (d: Change)
    requires PoolOk(m, bits, v, c, min) && min <= s && x in c.slots[s - min]
    requires |front| == C.MAP_WORDS && C.Encoded(word, front, s, live) && live != {} && C.InRange(s, live) && !C.Full(s, live)
    ensures d == Change(x, s, word, front, live, c.slots[s - min], m.next, m.prev) && ChangeOk(m, bits, v, c, min, d)
  {
    d := Change(x, s, word, front, live, c.slots[s - min], m.next, m.prev);
    assert SlotOk(m, v, c, min, s - min) && OnSlot(v, c, min, s - min, x);
    assert PageOk(m, v, x);
    RingLinked(m.next, m.prev, m.pages + 1 + (s - min), c.slots[s - min], x);
  }

  lemma SlotHead(m: Mem, bits: seq<seq<Word>>, v: View, c: Chunks, min: C.Shift, s: C.Shift)
    requires PoolOk(m, bits, v, c, min) && min <= s && c.slots[s - min] != []
    ensures var x := c.slots[s - min][0];
      && IsChunk(v, x) && c.shift[x] == s && m.typ[x] == C.TypeOf(s) && m.slab[x] >= 0 && |bits[x]| == C.MAP_WORDS
      && C.Encoded(m.slab[x], bits[x], s, c.live[x]) && C.InRange(s, c.live[x]) && !C.Full(s, c.live[x])
  {
    var x := c.slots[s - min][0];
    assert x in c.slots[s - min];
    assert SlotOk(m, v, c, min, s - min) && OnSlot(v, c, min, s - min, x) && ChunkOk(m, bits, c, min, x);
  }

  // The test "page->next != page" on the first page of a slot's list.
  lemma SlotFirst(m: Mem, bits: seq<seq<Word>>, v: View, c: Chunks, min: C.Shift, s: C.Shift)
    requires PoolOk(m, bits, v, c, min) && min <= s
    ensures var head := m.pages + 1 + (s - min);
      && 0 <= m.next[head] < |m.next|
      && (m.next[m.next[head]] != m.next[head] <==> c.slots[s - min] != [])
      && (c.slots[s - min] != [] ==> m.next[head] == c.slots[s - min][0])
  {
    var head, l := m.pages + 1 + (s - min), c.slots[s - min];
    assert SlotOk(m, v, c, min, s - min);
    if l != [] {
      assert RingAt(m.next, m.prev, head, l, 0);
      if |l| > 1 { assert RingAt(m.next, m.prev, head, l, 1); }
    }
  }

  lemma SameView(m: Mem, v: View, d: Change)
    requires m.Sized() && v.Sized(m.pages) && 0 <= d.x < m.pages && v.kind[d.x] == Chunk && m.typ[d.x] == C.TypeOf(d.s)
    ensures ChangedView(v, d) == v && ChangedMem(m, d) == Mem(m.pages, m.slab[d.x := d.word], d.next, d.prev, m.typ)
  {
  }

  // Taking page x off the list of its slot.
  lemma UnlinkChange(m: Mem, bits: seq<seq<Word>>, v: View, c: Chunks, min: C.Shift, x: Ref, s: C.Shift,
                     word: Word, front: seq<Word>, live: set<nat>, i: int) returns (d: Change)
    requires PoolOk(m, bits, v, c, min) && min <= s && 0 <= i < |c.slots[s - min]| && x == c.slots[s - min][i]
    requires |front| == C.MAP_WORDS
    ensures IsChunk(v, x) && c.shift[x] == s && 0 <= m.prev[x] < |m.next| && 0 <= m.next[x] < |m.next|
    ensures var r := Detached(m, x);
      && d == Change(x, s, word, front, live, Without(c.slots[s - min], i), r.next[x := NULL], r.prev[x := NULL])
      && LinkChange(m, bits, v, c, min, d) && x !in d.l
  {
    var k := s - min;
    var l, head := c.slots[k], m.pages + 1 + k;
    assert x in l;
    assert SlotOk(m, v, c, min, k) && OnSlot(v, c, min, k, x);
    assert PageOk(m, v, x);
    SlotNeighbours(m, v, c, min, k, i);
    Unlinked(m.next, m.prev, head, l, i);
    var r := Detached(m, x);
    d := Change(x, s, word, front, live, Without(l, i), r.next[x := NULL], r.prev[x := NULL]);
    forall q ensures q in d.l <==> q in l && q != x { InWithout(l, i, q); }
    Kept(r.next, r.prev, d.next, d.prev, head, d.l);
  }

  // The page becomes full and leaves the list.
  lemma LeaveChange(m: Mem, bits: seq<seq<Word>>, v: View, c: Chunks, min: C.Shift, x: Ref, s: C.Shift,
                    word: Word, front: seq<Word>, live: set<nat>, i: int) returns (d: Change)
    requires PoolOk(m, bits, v, c, min) && min <= s && 0 <= i < |c.slots[s - min]| && x == c.slots[s - min][i]
    requires |front| == C.MAP_WORDS && C.Encoded(word, front, s, live) && live != {} && C.InRange(s, live) && C.Full(s, live)
    ensures 0 <= x < m.pages && 0 <= m.prev[x] < |m.next| && 0 <= m.next[x] < |m.next|
    ensures var r := Detached(m, x);
      && d == Change(x, s, word, front, live, Without(c.slots[s - min], i), r.next[x := NULL], r.prev[x := NULL])
      && ChangeOk(m, bits, v, c, min, d)
  {
    d := UnlinkChange(m, bits, v, c, min, x, s, word, front, live, i);
  }

  lemma SlotNeighbours(m: Mem, v: View, c: Chunks, min: C.Shift, k: int, i: int)
    requires m.Sized() && v.Sized(m.pages) && |c.shift| == m.pages == |c.live| && 0 <= k < |c.slots|
    requires SlotOk(m, v, c, min, k) && 0 <= i < |c.slots[k]| && 0 <= c.slots[k][i] < |m.next|
    ensures var x, head := c.slots[k][i], m.pages + 1 + k;
      (m.next[x] == head || m.next[x] in c.slots[k]) && (m.prev[x] == head || m.prev[x] in c.slots[k])
  {
    assert RingAt(m.next, m.prev, m.pages + 1 + k, c.slots[k], i);
  }

  // A page that was full joins its list again.
  lemma JoinChange(m: Mem, bits: seq<seq<Word>>, v: View, c: Chunks, min: C.Shift, x: Ref, s: C.Shift,
                   word: Word, front: seq<Word>, live: set<nat>) returns (d: Change)
    requires PoolOk(m, bits, v, c, min) && min <= s && 0 <= x < m.pages && v.head[x] == x && v.len[x] == 1
    requires v.kind[x] == Used || (IsChunk(v, x) && c.shift[x] == s && C.Full(s, c.live[x]))
    requires |front| == C.MAP_WORDS && C.Encoded(word, front, s, live) && live != {} && C.InRange(s, live) && !C.Full(s, live)
    ensures var head := m.pages + 1 + (s - min);
      && 0 <= m.next[head] < |m.next|
      && d == Change(x, s, word, front, live, [x] + c.slots[s - min], m.next[x := m.next[head]][head := x], m.prev[x := head][m.next[head] := x])
      && ChangeOk(m, bits, v, c, min, d)
  {
    var k := s - min;
    var l, head := c.slots[k], m.pages + 1 + k;
    assert SlotOk(m, v, c, min, k);
    assert x in l ==> OnSlot(v, c, min, k, x);
    Pushed(m.next, m.prev, head, l, x);
    d := Change(x, s, word, front, live, [x] + l, m.next[x := m.next[head]][head := x], m.prev[x := head][m.next[head] := x]);
  }

  lemma ChangeFreeCount(v: View, x: Ref)
    requires v.Sized(|v.head|) && 0 <= x < |v.head| && v.head[x] == x && v.kind[x] != Free
    ensures FreeCount(v.(kind := v.kind[x := Chunk]), |v.head|) == FreeCount(v, |v.head|)
  {
    CountChange(v, v.(kind := v.kind[x := Chunk]), 0, 0, |v.head|);
  }

  // A fresh page becomes the only one on an empty list.
  lemma FreshChange(m: Mem, bits: seq<seq<Word>>, v: View, c: Chunks, min: C.Shift, x: Ref, s: C.Shift,
                    word: Word, front: seq<Word>, live: set<nat>) returns (d: Change)
    requires PoolOk(m, bits, v, c, min) && min <= s && 0 <= x < m.pages && v.head[x] == x && v.len[x] == 1 && v.kind[x] == Used
    requires c.slots[s - min] == []
    requires |front| == C.MAP_WORDS && C.Encoded(word, front, s, live) && live != {} && C.InRange(s, live) && !C.Full(s, live)
    ensures var head := m.pages + 1 + (s - min);
      && d == Change(x, s, word, front, live, [x], m.next[x := head][head := x], m.prev[x := head])
      && ChangeOk(m, bits, v, c, min, d)
  {
    var head := m.pages + 1 + (s - min);
    assert SlotOk(m, v, c, min, s - min);
    d := Change(x, s, word, front, live, [x], m.next[x := head][head := x], m.prev[x := head]);
    assert RingAt(d.next, d.prev, head, d.l, 0);
  }

  lemma OneChunkNotFull(s: C.Shift, i: nat)
    ensures !C.Full(s, {i})
  {
    var live, a, b := {i}, C.First(s), C.First(s) + 1;
    assert b < C.Cap(s);
    assert C.Full(s, live) ==> a in live && b in live;
  }

  lemma ZeroOne(m: Mem, x: Ref)
    requires m.Sized() && 0 <= x < m.pages && m.slab[x] == 1
    ensures Zeroed(m, x, 1) == m
  {
    var r := Zeroed(m, x, 1);
    assert r.slab == m.slab && r.next == m.next && r.prev == m.prev && r.typ == m.typ;
  }

  // The pages x..x+k became free, and the other runs in use stay.
  ghost predicate Freed(v: View, w: View, x: Ref, k: int) {
    && v.Sized(|v.head|) && w.Sized(|v.head|)
    && (forall q {:trigger SameRun(v, w, q)} :: 0 <= q < |v.head| && !(x <= q < x + k) && !IsFree(v, q) ==> SameRun(v, w, q))
    && (forall q {:trigger IsFree(w, q)} :: 0 <= q < |v.head| ==> (IsFree(w, q) <==> IsFree(v, q) || x <= q < x + k))
  }

  // ---- freeing a run ----

  lemma ZeroLocal(m: Mem, v: View, x: Ref)
    requires RunsOk(m, v) && 0 <= x < m.pages && v.head[x] == x && (v.kind[x] == Used || v.kind[x] == Chunk)
    requires Settled(v) && 0 < v.len[x] && x + v.len[x] <= m.pages
    ensures Returning(m, v, Zeroed(m, x, v.len[x]), v.(kind := v.kind[x := Limbo]), x, v.len[x], x)
    ensures forall q {:trigger IsFree(v, q)} :: x <= q < x + v.len[x] ==> !IsFree(v, q)
  {
    var r, w := Zeroed(m, x, v.len[x]), v.(kind := v.kind[x := Limbo]);
    Zero(m, v, x);
    assert PageOk(m, v, x);
    forall q | 0 <= q < m.pages && !(x <= q < x + v.len[x])
      ensures (IsFree(w, q) <==> IsFree(v, q)) && (!IsFree(v, q) ==> SameAt(m, r, q) && SameRun(v, w, q))
    {
      assert PageOk(m, v, q);
      RunsApart(m, v, q, x);
    }
  }

  // From m0, v0 the pages x..x+k are on their way back; the run a in limbo holds them and the free
  // pages next to them that it has absorbed.
  ghost predicate Returning(m0: Mem, v0: View, m: Mem, v: View, x: Ref, k: int, a: Ref) {
    && RunsOk(m, v) && 0 <= a < m.pages && v.head[a] == a && v.kind[a] == Limbo
    && 0 <= a <= x && 0 < k && x + k <= a + v.len[a] <= m.pages
    && (forall p :: 0 <= p < m.pages && v.head[p] == p && p != a ==> v.kind[p] != Limbo)
    && Local(m0, v0, m, v, a, a + v.len[a])
    && (forall q {:trigger IsFree(v0, q)} :: a <= q < a + v.len[a] && !(x <= q < x + k) ==> IsFree(v0, q))
  }

  lemma LocalTrans(m0: Mem, v0: View, m: Mem, v: View, r: Mem, w: View, a: int, b: int, a': int, b': int)
    requires Local(m0, v0, m, v, a, b) && Local(m, v, r, w, a', b') && a' <= a <= b <= b'
    ensures Local(m0, v0, r, w, a', b')
  {
    forall q | m.pages < q < |m.slab| ensures SameAt(m0, r, q) {
      assert SameAt(m0, m, q) && SameAt(m, r, q);
    }
    forall q | 0 <= q < m.pages && !(a' <= q < b')
      ensures (IsFree(w, q) <==> IsFree(v0, q)) && (!IsFree(v0, q) ==> SameAt(m0, r, q) && SameRun(v0, w, q))
    {
      assert IsFree(v, q) <==> IsFree(v0, q);
      assert IsFree(w, q) <==> IsFree(v, q);
      if !IsFree(v0, q) {
        assert SameAt(m0, m, q) && SameAt(m, r, q) && SameRun(v0, v, q) && SameRun(v, w, q);
      }
    }
  }

  lemma MergeReturning(m0: Mem, v0: View, m: Mem, v: View, x: Ref, k: int, a: Ref, l: Ref, h: Ref, i: int)
    requires Returning(m0, v0, m, v, x, k, a) && CanMerge(m, v, l, h, i) && (a == l || a == h)
    ensures Returning(m0, v0, Merged(m, l, h, v.free[i]), MergedView(v, l, h, i), x, k, l)
  {
    var r, w := Merged(m, l, h, v.free[i]), MergedView(v, l, h, i);
    assert PageOk(m, v, l) && PageOk(m, v, h);
    Merge(m, v, l, h, i);
    MergeLocal(m, v, l, h, i);
    LocalTrans(m0, v0, m, v, r, w, a, a + v.len[a], l, h + v.len[h]);
    forall q | l <= q < l + w.len[l] && !(x <= q < x + k) ensures IsFree(v0, q) {
      MergeFilled(m0, v0, m, v, x, k, a, l, h, i, q);
    }
    forall p | 0 <= p < m.pages && w.head[p] == p && p != l ensures w.kind[p] != Limbo {
      assert PageOk(m, v, p);
      RunsApart(m, v, p, h);
    }
  }

  lemma MergeFilled(m0: Mem, v0: View, m: Mem, v: View, x: Ref, k: int, a: Ref, l: Ref, h: Ref, i: int, q: int)
    requires Returning(m0, v0, m, v, x, k, a) && CanMerge(m, v, l, h, i) && (a == l || a == h)
    requires l <= q < h + v.len[h] && !(x <= q < x + k)
    ensures 0 <= q < m.pages && IsFree(v0, q)
  {
    assert PageOk(m, v, l) && PageOk(m, v, h);
    RingNeighbours(m, v, i);
    if !(a <= q < a + v.len[a]) {
      assert v.head[q] == v.free[i];
      assert IsFree(v, q);
    }
  }

  // What the tests of the page behind the run tell.
  lemma NextIsFree(m0: Mem, v0: View, m: Mem, v: View, x: Ref, k: int, a: Ref)
    requires Returning(m0, v0, m, v, x, k, a) && a + v.len[a] < m.pages
    ensures var e := a + v.len[a];
      && v.head[e] == e
      && (m.typ[e] == TYPE_PAGE && m.next[e] != NULL <==> v.kind[e] == Free)
  {
    var e := a + v.len[a];
    assert PageOk(m, v, e) && PageOk(m, v, a);
    RunsApart(m, v, e, a);
    assert v.head[e - 1] == a;
    RunsApart(m, v, e - 1, v.head[e]);
    if v.kind[e] == Free { FreeLinked(m, v, e); }
  }

  lemma FreeLinked(m: Mem, v: View, h: Ref)
    requires RunsOk(m, v) && 0 <= h < m.pages && v.head[h] == h && v.kind[h] == Free
    ensures h in v.free && m.next[h] != NULL
  {
    assert Listed(v, h);
    var i :| 0 <= i < |v.free| && v.free[i] == h;
    RingNeighbours(m, v, i);
  }

  // What the tests of the page before the run tell: its run is free exactly if the page, or the
  // head its boundary tag names, is linked.
  lemma PrevIsFree(m0: Mem, v0: View, m: Mem, v: View, x: Ref, k: int, a: Ref)
    requires Returning(m0, v0, m, v, x, k, a) && a > 0
    ensures var q := a - 1; var h := v.head[q];
      && 0 <= h <= q && h + v.len[h] == a && v.head[h] == h
      && (m.typ[q] == TYPE_PAGE ==>
            if m.slab[q] == 0 then m.prev[q] == h && v.kind[h] == Free && m.next[h] != NULL
            else m.next[q] != NULL <==> (h == q && v.kind[h] == Free))
      && (v.kind[h] == Free ==> m.typ[q] == TYPE_PAGE && (m.slab[q] == 0 || h == q))
  {
    var q := a - 1;
    assert PageOk(m, v, q) && PageOk(m, v, a);
    var h := v.head[q];
    RunsApart(m, v, a, h);
    assert v.kind[h] != Limbo;
    if v.kind[h] == Free { FreeLinked(m, v, h); }
  }

  ghost predicate NotFreeBehind(v: View, a: Ref)
    requires v.Sized(|v.head|) && 0 <= a < |v.head|
  {
    var e := a + v.len[a];
    0 <= e < |v.head| ==> 0 <= v.head[e] < |v.head| && v.kind[v.head[e]] != Free
  }

  ghost predicate NotFreeBefore(v: View, a: Ref)
    requires v.Sized(|v.head|) && 0 <= a < |v.head|
  {
    a > 0 ==> 0 <= v.head[a - 1] < |v.head| && v.kind[v.head[a - 1]] != Free
  }

  lemma FreeIndex(m: Mem, v: View, h: Ref) returns (i: int)
    requires RunsOk(m, v) && 0 <= h < m.pages && v.head[h] == h && v.kind[h] == Free
    ensures CanTake(m, v, i) && v.free[i] == h
  {
    assert Listed(v, h);
    i :| 0 <= i < |v.free| && v.free[i] == h;
    RingNeighbours(m, v, i);
  }

  // Behind a merged run there is no free run.
  lemma MergedBehind(m: Mem, v: View, l: Ref, h: Ref, i: int)
    requires CanMerge(m, v, l, h, i) && (v.kind[h] == Free || NotFreeBehind(v, h))
    ensures NotFreeBehind(MergedView(v, l, h, i), l)
  {
    assert PageOk(m, v, l) && PageOk(m, v, h);
    var e := h + v.len[h];
    if e < m.pages {
      assert PageOk(m, v, e);
      RunsApart(m, v, e, h);
    }
  }

  // Before a free run there is no other, so there is none before the merged run.
  lemma MergedBefore(m: Mem, v: View, l: Ref, h: Ref, i: int)
    requires CanMerge(m, v, l, h, i) && v.free[i] == l && NotFreeBehind(v, h)
    ensures NotFreeBefore(MergedView(v, l, h, i), l) && NotFreeBehind(MergedView(v, l, h, i), l)
  {
    MergedBehind(m, v, l, h, i);
    RingNeighbours(m, v, i);
    assert PageOk(m, v, l) && PageOk(m, v, h);
    if l > 0 {
      assert PageOk(m, v, l - 1);
      RunsApart(m, v, l, v.head[l - 1]);
    }
  }

  lemma Ready(m0: Mem, v0: View, m: Mem, v: View, x: Ref, k: int, a: Ref)
    requires Returning(m0, v0, m, v, x, k, a) && NotFreeBehind(v, a) && NotFreeBefore(v, a)
    ensures CanPublish(m, v, a)
  {
    assert PageOk(m, v, a);
    if v.free != [] { assert v.free[0] in v.free; }
  }

  lemma PublishReturning(m0: Mem, v0: View, m: Mem, v: View, x: Ref, k: int, a: Ref)
    requires Returning(m0, v0, m, v, x, k, a) && CanPublish(m, v, a)
    requires forall q {:trigger IsFree(v0, q)} :: x <= q < x + k ==> !IsFree(v0, q)
    ensures var r, w := Published(m, a), PublishedView(v, a);
      RunsOk(r, w) && Settled(w) && Local(m0, v0, r, w, x, x + k) && Carved(w, v0, x, x + k)
      && FreeCount(w, m.pages) == FreeCount(v0, m.pages) + k
  {
    var r, w := Published(m, a), PublishedView(v, a);
    Publish(m, v, a);
    assert PageOk(m, v, a);
    if v.free != [] { assert v.free[0] in v.free; assert Listed(v, v.free[0]); }
    forall q | m.pages < q < |m.slab| ensures SameAt(m0, r, q) { assert SameAt(m0, m, q); }
    forall q | 0 <= q < m.pages
      ensures IsFree(w, q) <==> IsFree(v0, q) || x <= q < x + k
      ensures !IsFree(v0, q) && !(x <= q < x + k) ==> SameAt(m0, r, q) && SameRun(v0, w, q)
    {
      PublishAt(m0, v0, m, v, x, k, a, q);
    }
    CountChange(w, v0, x, x + k, m.pages);
  }

  lemma PublishAt(m0: Mem, v0: View, m: Mem, v: View, x: Ref, k: int, a: Ref, q: int)
    requires Returning(m0, v0, m, v, x, k, a) && CanPublish(m, v, a) && 0 <= q < m.pages
    ensures var r, w := Published(m, a), PublishedView(v, a);
      && (IsFree(w, q) <==> IsFree(v0, q) || x <= q < x + k)
      && (!IsFree(v0, q) && !(x <= q < x + k) ==> SameAt(m0, r, q) && SameRun(v0, w, q))
  {
    var r, w := Published(m, a), PublishedView(v, a);
    assert PageOk(m, v, a) && PageOk(m, v, q);
    RunsApart(m, v, q, a);
    if a <= q < a + v.len[a] {
      assert IsFree(w, q);
      if !(x <= q < x + k) { assert IsFree(v0, q); }
    } else {
      assert IsFree(v, q) <==> IsFree(v0, q);
      if v.free != [] { assert v.free[0] in v.free; assert Listed(v, v.free[0]); }
      if !IsFree(v0, q) { assert SameAt(m0, m, q) && SameRun(v0, v, q); }
    }
  }

  // A chunk page off its list and on its way to the free runs.
  lemma LastChange(m: Mem, bits: seq<seq<Word>>, v: View, c: Chunks, min: C.Shift, x: Ref, s: C.Shift, front: seq<Word>) returns (d: Change)
    requires |front| == C.MAP_WORDS
    requires PoolOk(m, bits, v, c, min) && IsChunk(v, x) && c.shift[x] == s && !C.Full(s, c.live[x])
    ensures min <= s && 0 <= m.prev[x] < |m.next| && 0 <= m.next[x] < |m.next|
    ensures d.x == x && d.s == s && d.word == 1 && d.live == c.live[x]
    ensures d.next == Detached(m, x).next[x := NULL] && d.prev == Detached(m, x).prev[x := NULL]
    ensures var r := ChangedMem(m, d);
      && r == Mem(m.pages, m.slab[x := 1], d.next, d.prev, m.typ)
      && ChunksBut(r, bits[x := front], v, ChangedChunks(c, min, d), min, x, x + 1) && RunsOk(r, v)
      && ChangedChunks(c, min, d).shift == c.shift && ChangedChunks(c, min, d).live == c.live
      && v.len[x] == 1 && Returning(r, v, r, v.(kind := v.kind[x := Limbo]), x, 1, x)
    ensures forall q {:trigger IsFree(v, q)} :: x <= q < x + 1 ==> !IsFree(v, q)
  {
    assert ChunkOk(m, bits, c, min, x) && |bits[x]| == C.MAP_WORDS;
    var i :| 0 <= i < |c.slots[s - min]| && c.slots[s - min][i] == x;
    d := UnlinkChange(m, bits, v, c, min, x, s, 1, front, c.live[x], i);
    RetirePool(m, bits, v, c, min, d);
    SameView(m, v, d);
    var r := ChangedMem(m, d);
    assert PageOk(r, v, x);
    ZeroLocal(r, v, x);
    ZeroOne(r, x);
  }

  // The chunk pages after the pages x..x+k became free.
  lemma Recover(m: Mem, bits: seq<seq<Word>>, v: View, c: Chunks, min: C.Shift, r: Mem, w: View, x: Ref, k: int)
    requires RunsOk(m, v) && ChunksBut(m, bits, v, c, min, x, x + k) && 0 <= x <= x + k <= m.pages
    requires RunsOk(r, w) && Local(m, v, r, w, x, x + k) && Carved(w, v, x, x + k)
    ensures ChunksOk(r, bits, w, c, min) && Freed(v, w, x, k)
  {
    forall q | x <= q < x + k && w.head[q] == q ensures w.kind[q] != Chunk { assert IsFree(v, q) || IsFree(w, q); }
    forall q | 0 <= q < m.pages ensures IsFree(w, q) <==> IsFree(v, q) || x <= q < x + k { assert IsFree(v, q) || !IsFree(v, q); }
    LocalChunks(m, bits, v, c, min, r, w, x, x + k);
  }
}
