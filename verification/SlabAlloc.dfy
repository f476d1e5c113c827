/** ngx_slab_alloc_locked and ngx_slab_free_locked of src/core/ngx_slab.c on the pool's descriptors. */
module SlabAlloc {
  import opened SlabRing
  import opened SlabRuns
  import opened SlabBits
  import opened SlabPool
  import opened SlabBlocks
  import opened SlabStats
  import C = SlabChunks

  // 2^k as Ones(k) + 1, for the powers the slots use.
  lemma SizeIsPower(s: C.Shift)
    ensures C.Size(s) == Ones(s) + 1
  {
    assert Ones(3) == 7;
    assert Ones(4) == 1 + 2 * Ones(3);
    assert Ones(5) == 1 + 2 * Ones(4);
    assert Ones(6) == 1 + 2 * Ones(5);
    assert Ones(7) == 1 + 2 * Ones(6);
    assert Ones(8) == 1 + 2 * Ones(7);
    assert Ones(9) == 1 + 2 * Ones(8);
    assert Ones(10) == 1 + 2 * Ones(9);
    assert Ones(11) == 1 + 2 * Ones(10);
  }

  lemma {:induction false} OnesBelow(a: nat, b: nat)
    requires Ones(a) < Ones(b)
    ensures a < b
  {
    if a > 0 && b > 0 { OnesBelow(a - 1, b - 1); }
  }

  lemma SizeRange(size: nat, sh: nat, min: C.Shift)
    requires C.Size(min) < size <= 2048 && sh >= 1
    requires size - 1 <= Ones(sh) && size - 1 > Ones(sh - 1)
    ensures min < sh <= C.MAX_SHIFT && size <= C.Size(sh) && C.Size(sh) < 2 * size
  {
    SizeIsPower(min);
    SizeIsPower(C.MAX_SHIFT);
    OnesBelow(sh - 1, C.MAX_SHIFT);
    OnesBelow(min, sh);
    SizeIsPower(sh);
    assert Ones(sh) == 1 + 2 * Ones(sh - 1);
  }

  const PAGE_STRUCT := 24
  const STAT_STRUCT := 32

  // (size >> ngx_pagesize_shift) + ((size % ngx_pagesize) ? 1 : 0)
  function PagesFor(size: nat): (k: nat)
    ensures size <= k * C.PAGE_SIZE < size + C.PAGE_SIZE
  {
    size / C.PAGE_SIZE + (if size % C.PAGE_SIZE != 0 then 1 else 0)
  }

  // ---- ngx_slab_init ----

  // Behind the slot heads and the statistics.
  function Table(slots: nat, min: C.Shift): nat {
    slots + (12 - min) * (PAGE_STRUCT + STAT_STRUCT)
  }

  function Estimate(slots: nat, end: nat, min: C.Shift): nat
    requires Table(slots, min) <= end
  {
    (end - Table(slots, min)) / (C.PAGE_SIZE + PAGE_STRUCT)
  }

  function Start(slots: nat, end: nat, min: C.Shift): nat
    requires Table(slots, min) <= end
  {
    (Table(slots, min) + Estimate(slots, end, min) * PAGE_STRUCT + (C.PAGE_SIZE - 1)) / C.PAGE_SIZE * C.PAGE_SIZE
  }

  function PagesIn(slots: nat, end: nat, min: C.Shift): int
    requires Table(slots, min) <= end
  {
    var n := Estimate(slots, end, min);
    if Start(slots, end, min) > end then n
    else
      var m := n - (end - Start(slots, end, min)) / C.PAGE_SIZE;
      if m > 0 then n - m else n
  }

  // The pages begin behind their descriptors and end inside the zone; alignment costs at most one.
  lemma PagesFit(slots: nat, end: nat, min: C.Shift)
    requires Table(slots, min) <= end && PagesIn(slots, end, min) >= 1
    ensures var n, start := PagesIn(slots, end, min), Start(slots, end, min);
      && start > 0 && start % C.PAGE_SIZE == 0
      && Table(slots, min) + n * PAGE_STRUCT <= start && start + n * C.PAGE_SIZE <= end
      && Estimate(slots, end, min) - 1 <= n <= Estimate(slots, end, min)
  {
  }

  // No more pages would fit, wherever they began behind their descriptors.
  lemma NoMoreFit(slots: nat, end: nat, min: C.Shift, k: nat, at: nat)
    requires Table(slots, min) <= end && k >= 1 && k > PagesIn(slots, end, min)
    requires at % C.PAGE_SIZE == 0 && Table(slots, min) + k * PAGE_STRUCT <= at
    ensures at + k * C.PAGE_SIZE > end
  {
    var e := Estimate(slots, end, min);
    assert k > e ==> k * (C.PAGE_SIZE + PAGE_STRUCT) > end - Table(slots, min);
    assert k == e ==> Start(slots, end, min) <= at;
  }

  function OneRun(n: nat): View {
    View(seq(n, p => 0), seq(n, p => if p == 0 then n else 0), seq(n, p => Free), [0])
  }

  function NoChunks(n: nat, k: nat): Chunks {
    Chunks(seq(n, p => 0), seq(n, p => {}), seq(k, i => []))
  }

  ghost predicate Fresh(m: Mem) {
    && m.Sized() && m.pages > 0 && m.next[m.pages] == 0
    && m.slab[0] == m.pages && m.next[0] == m.pages && m.prev[0] == m.pages && m.typ[0] == TYPE_PAGE
    && (forall q {:trigger m.slab[q]} :: 0 < q < m.pages ==> m.slab[q] == 0 && m.next[q] == NULL && m.typ[q] == TYPE_PAGE)
    && (forall q {:trigger m.next[q]} :: m.pages < q < |m.next| ==> m.next[q] == q)
  }

  lemma InitRuns(m: Mem)
    requires Fresh(m)
    ensures RunsOk(m, OneRun(m.pages)) && Settled(OneRun(m.pages))
  {
    var v := OneRun(m.pages);
    assert RingAt(m.next, m.prev, m.pages, v.free, 0);
    forall p | 0 <= p < m.pages ensures PageOk(m, v, p) { assert m.slab[p] == if p == 0 then m.pages else 0; }
    forall h | 0 <= h < m.pages ensures Listed(v, h) { }
  }

  lemma InitChunks(m: Mem, bits: seq<seq<Word>>, min: C.Shift)
    requires Fresh(m) && |m.slab| == m.pages + 1 + (12 - min) && |bits| == m.pages
    requires forall p :: 0 <= p < |bits| ==> |bits[p]| == C.MAP_WORDS
    ensures ChunksOk(m, bits, OneRun(m.pages), NoChunks(m.pages, 12 - min), min)
    ensures forall b {:trigger IsLive(OneRun(m.pages), NoChunks(m.pages, 12 - min), min, 0, b)} ::
      !IsLive(OneRun(m.pages), NoChunks(m.pages, 12 - min), min, 0, b)
  {
    var v, c := OneRun(m.pages), NoChunks(m.pages, 12 - min);
    forall k | 0 <= k < |c.slots| ensures SlotOk(m, v, c, min, k) {
      assert m.next[m.pages + 1 + k] == m.pages + 1 + k;
    }
  }

  lemma {:induction false} NoSum(v: View, c: Chunks, s: C.Shift, room: bool, n: nat)
    requires v.Sized(|v.head|) && |c.shift| == |c.live| == |v.head| && n <= |v.head|
    requires forall p {:trigger v.kind[p]} :: 0 <= p < |v.kind| ==> v.kind[p] == Free
    ensures Sum(v, c, s, room, n) == 0
  {
    if n > 0 { NoSum(v, c, s, room, n - 1); }
  }

  lemma InitStats(n: nat, min: C.Shift, used: seq<int>, total: seq<int>)
    requires |used| == |total| == 12 - min && forall k :: 0 <= k < 12 - min ==> used[k] == 0 && total[k] == 0
    ensures StatsOk(OneRun(n), NoChunks(n, 12 - min), min, used, total)
  {
    var v, c := OneRun(n), NoChunks(n, 12 - min);
    forall k | 0 <= k < |used| ensures SlotStats(v, c, min, used, total, k) {
      NoSum(v, c, min + k, false, n);
      NoSum(v, c, min + k, true, n);
    }
  }

  class Pool {
    const pages: nat
    const min: C.Shift
    const start: int
    var slab: seq<int>
    var next: seq<Ref>
    var prev: seq<Ref>
    var typ: seq<int>
    var bits: seq<seq<Word>>
    var pfree: int
    var used: seq<int>
    var total: seq<int>
    var reqs: seq<int>
    var fails: seq<int>

    ghost var v: View
    ghost var c: Chunks

    ghost function M(): Mem reads this { Mem(pages, slab, next, prev, typ) }

    ghost predicate Ok() reads this {
      PoolOk(M(), bits, v, c, min) && pfree == FreeCount(v, pages)
    }

    ghost predicate Valid() reads this {
      && Ok() && StatsOk(v, c, min, used, total) && |reqs| == |fails| == 12 - min
      && start > 0 && start % C.PAGE_SIZE == 0
    }

    // ngx_slab_init on the memory from the slot heads to the end of the zone; "contents" is what
    // the pages happen to hold.
    constructor (slots: nat, end: nat, min: C.Shift, contents: seq<seq<Word>>)
      requires Table(slots, min) <= end && PagesIn(slots, end, min) >= 1
      requires |contents| == PagesIn(slots, end, min) && forall p :: 0 <= p < |contents| ==> |contents[p]| == C.MAP_WORDS
      ensures Valid() && this.min == min && pages == |contents|
      ensures Table(slots, min) == slots + |reqs| * (PAGE_STRUCT + STAT_STRUCT)
      ensures Table(slots, min) + pages * PAGE_STRUCT <= start && start + pages * C.PAGE_SIZE <= end
      ensures pfree == pages && forall b {:trigger Holds(b)} :: !Holds(b)
      ensures forall i :: 0 <= i < |reqs| ==> reqs[i] == 0 && fails[i] == 0
    {
      var n := PagesIn(slots, end, min);
      var k := 12 - min;
      PagesFit(slots, end, min);
      this.min, pages, start := min, n, Start(slots, end, min);
      bits := contents;
      pfree := n;
      slab := seq(n + 1 + k, q => if q == 0 then n else 0);
      next := seq(n + 1 + k, q => if q == 0 then n else if q == n then 0 else if q > n then q else NULL);
      prev := seq(n + 1 + k, q => if q == 0 then n else NULL);
      typ := seq(n + 1 + k, q => TYPE_PAGE);
      used := seq(k, i => 0);
      total := seq(k, i => 0);
      reqs := seq(k, i => 0);
      fails := seq(k, i => 0);
      v := OneRun(n);
      c := NoChunks(n, k);
      new;
      InitRuns(M());
      InitChunks(M(), bits, min);
      InitStats(n, min, used, total);
      AllCounted(v, n);
    }

    ghost predicate Holds(b: Block) reads this
      requires Ok()
    {
      IsLive(v, c, min, start, b)
    }

    // The stores of ngx_slab_alloc_pages into the pages handed out.
    method MarkUsed(page: Ref, k: int)
      requires M().Sized() && 0 <= page && 0 < k && page + k <= pages
      modifies this`slab, this`next, this`prev, this`typ
      ensures M() == MarkedUsed(old(M()), page, k)
    {
      ghost var m := M();
      slab := slab[page := PAGE_START + k];
      next := next[page := NULL];
      prev := prev[page := NULL];
      typ := typ[page := TYPE_PAGE];
      var p := page + 1;
      while p < page + k
        invariant page < p <= page + k
        invariant slab == Within(m.slab, page, p, PAGE_START + k, PAGE_BUSY)
        invariant next == Within(m.next, page, p, NULL, NULL)
        invariant prev == Within(m.prev, page, p, NULL, NULL)
        invariant typ == Within(m.typ, page, p, TYPE_PAGE, TYPE_PAGE)
      {
        slab := slab[p := PAGE_BUSY];
        next := next[p := NULL];
        prev := prev[p := NULL];
        typ := typ[p := TYPE_PAGE];
        p := p + 1;
      }
    }

    // The first k pages of a longer run stay with the caller, the rest takes its place in the list.
    method CutRun(page: Ref, k: int)
      requires M().Sized() && 0 <= page < pages && 0 < k < slab[page] && page + slab[page] <= pages
      requires 0 <= prev[page] < |next| && 0 <= next[page] < |next| && prev[page] != page
      modifies this`slab, this`next, this`prev, this`typ
      ensures M() == SplitOff(old(M()), page, k)
    {
      prev := prev[page + slab[page] - 1 := page + k];
      slab := slab[page + k := slab[page] - k];
      next := next[page + k := next[page]];
      prev := prev[page + k := prev[page]];
      typ := typ[page + k := typ[page]];
      next := next[prev[page] := page + k];
      prev := prev[next[page] := page + k];
    }

    // ---- chunks ----

    // A chunk of page x, the first on the list of its slot; a page that is full now leaves the list.
    method AllocOnPage(x: Ref, s: C.Shift) returns (i: nat)
      requires Ok() && min <= s && c.slots[s - min] != [] && x == c.slots[s - min][0]
      modifies this`slab, this`next, this`prev, this`bits, this`c
      ensures Ok() && IsChunk(v, x) && c.shift[x] == s
      ensures C.First(s) <= i < C.Cap(s) && i !in old(c.live[x]) && C.Packed(C.First(s), i, old(c.live[x]))
      ensures c.shift == old(c.shift) && c.live == old(c.live)[x := old(c.live[x]) + {i}]
    {
      SlotHead(M(), bits, v, c, min, s);
      var word, front, full;
      word, front, i, full := C.TakeChunk(slab[x], bits[x], s, c.live[x]);
      if full {
        FillPage(x, s, word, front, c.live[x] + {i});
      } else {
        KeepPage(x, s, word, front, c.live[x] + {i});
      }
    }

    // Page x records the live chunks in word and front, and stays on its list.
    method KeepPage(x: Ref, s: C.Shift, word: Word, front: seq<Word>, ghost live: set<nat>)
      requires Ok() && min <= s && x in c.slots[s - min]
      requires |front| == C.MAP_WORDS && C.Encoded(word, front, s, live) && live != {} && C.InRange(s, live) && !C.Full(s, live)
      modifies this`slab, this`bits, this`c
      ensures Ok() && c.shift == old(c.shift) && 0 <= x < |c.live| && c.live == old(c.live)[x := live]
    {
      assert SlotOk(M(), v, c, min, s - min) && OnSlot(v, c, min, s - min, x) && ChunkOk(M(), bits, c, min, x);
      ghost var d := StayChange(M(), bits, v, c, min, x, s, word, front, live);
      ChangePool(M(), bits, v, c, min, d);
      SameView(M(), v, d);
      c := ChangedChunks(c, min, d);
      slab := slab[x := word];
      bits := bits[x := front];
    }

    // The same for the first page of a list, which is full now and leaves it.
    method FillPage(x: Ref, s: C.Shift, word: Word, front: seq<Word>, ghost live: set<nat>)
      requires Ok() && min <= s && c.slots[s - min] != [] && x == c.slots[s - min][0]
      requires |front| == C.MAP_WORDS && C.Encoded(word, front, s, live) && live != {} && C.InRange(s, live) && C.Full(s, live)
      modifies this`slab, this`next, this`prev, this`bits, this`c
      ensures Ok() && c.shift == old(c.shift) && 0 <= x < |c.live| && c.live == old(c.live)[x := live]
    {
      SlotHead(M(), bits, v, c, min, s);
      ghost var d := LeaveChange(M(), bits, v, c, min, x, s, word, front, live, 0);
      ChangePool(M(), bits, v, c, min, d);
      SameView(M(), v, d);
      c := ChangedChunks(c, min, d);
      slab := slab[x := word];
      bits := bits[x := front];
      LeaveList(x);
    }

    // The first chunk of a fresh page; the list of the slot is empty.
    method AllocOnFresh(x: Ref, s: C.Shift) returns (i: nat)
      requires Ok() && min <= s && c.slots[s - min] == []
      requires 0 <= x < pages && v.head[x] == x && v.kind[x] == Used && v.len[x] == 1
      modifies this`slab, this`next, this`prev, this`typ, this`bits, this`c, this`v
      ensures Ok() && v == old(v).(kind := old(v).kind[x := Chunk])
      ensures i == C.First(s) && c.shift == old(c.shift)[x := s] && c.live == old(c.live)[x := {i}]
    {
      assert |bits[x]| == C.MAP_WORDS;
      var word, front;
      word, front, i := C.FreshPage(bits[x], s);
      OneChunkNotFull(s, i);
      StartPage(x, s, word, front, {i});
    }

    method StartPage(x: Ref, s: C.Shift, word: Word, front: seq<Word>, ghost live: set<nat>)
      requires Ok() && min <= s && c.slots[s - min] == []
      requires 0 <= x < pages && v.head[x] == x && v.kind[x] == Used && v.len[x] == 1
      requires |front| == C.MAP_WORDS && C.Encoded(word, front, s, live) && live != {} && C.InRange(s, live) && !C.Full(s, live)
      modifies this`slab, this`next, this`prev, this`typ, this`bits, this`c, this`v
      ensures Ok() && v == old(v).(kind := old(v).kind[x := Chunk])
      ensures c.shift == old(c.shift)[x := s] && c.live == old(c.live)[x := live]
    {
      ghost var d := FreshChange(M(), bits, v, c, min, x, s, word, front, live);
      ChangePool(M(), bits, v, c, min, d);
      ChangeFreeCount(v, x);
      c := ChangedChunks(c, min, d);
      v := ChangedView(v, d);
      WritePage(x, s, word, front);
    }

    method WritePage(x: Ref, s: C.Shift, word: Word, front: seq<Word>)
      requires M().Sized() && min <= s && 0 <= x < pages && |slab| == pages + 1 + (12 - min) && |bits| == pages
      modifies this`slab, this`next, this`prev, this`typ, this`bits
      ensures var head := pages + 1 + (s - min);
        && slab == old(slab)[x := word] && next == old(next)[x := head][head := x] && prev == old(prev)[x := head]
        && typ == old(typ)[x := C.TypeOf(s)] && bits == old(bits)[x := front]
    {
      var head := pages + 1 + (s - min);
      bits := bits[x := front];
      slab := slab[x := word];
      next := next[x := head];
      prev := prev[x := head];
      typ := typ[x := C.TypeOf(s)];
      next := next[head := x];
    }

    // A chunk of a full page is freed: the page goes back on the list of its slot.
    method FreeOnFull(x: Ref, s: C.Shift, i: nat)
      requires Ok() && IsChunk(v, x) && c.shift[x] == s && i in c.live[x] && C.Full(s, c.live[x])
      modifies this`slab, this`next, this`prev, this`bits, this`c
      ensures Ok() && c.shift == old(c.shift) && c.live == old(c.live)[x := old(c.live[x]) - {i}]
    {
      assert ChunkOk(M(), bits, c, min, x) && |bits[x]| == C.MAP_WORDS && PageOk(M(), v, x);
      var word, front, empty := C.DropChunk(slab[x], bits[x], s, i, c.live[x]);
      OneChunkNotFull(s, i);
      Rejoin(x, s, word, front, c.live[x] - {i});
    }

    method Rejoin(x: Ref, s: C.Shift, word: Word, front: seq<Word>, ghost live: set<nat>)
      requires Ok() && min <= s && IsChunk(v, x) && v.len[x] == 1 && c.shift[x] == s && typ[x] == C.TypeOf(s) && C.Full(s, c.live[x])
      requires |front| == C.MAP_WORDS && C.Encoded(word, front, s, live) && live != {} && C.InRange(s, live) && !C.Full(s, live)
      modifies this`slab, this`next, this`prev, this`bits, this`c
      ensures Ok() && c.shift == old(c.shift) && c.live == old(c.live)[x := live]
    {
      ghost var d := JoinChange(M(), bits, v, c, min, x, s, word, front, live);
      ChangePool(M(), bits, v, c, min, d);
      SameView(M(), v, d);
      c := ChangedChunks(c, min, d);
      PushPage(x, pages + 1 + (s - min));
      slab := slab[x := word];
      bits := bits[x := front];
    }

    method PushPage(x: Ref, head: Ref)
      requires M().Sized() && 0 <= x < pages && x != head && 0 <= head < |next| && 0 <= next[head] < |next|
      modifies this`next, this`prev
      ensures next == old(next)[x := old(next[head])][head := x] && prev == old(prev)[x := head][old(next[head]) := x]
    {
      next := next[x := next[head]];
      next := next[head := x];
      prev := prev[x := head];
      prev := prev[next[x] := x];
    }

    // A chunk of a page on its list is freed; a page left without chunks goes back to the free runs.
    method FreeOnList(x: Ref, s: C.Shift, i: nat) returns (emptied: bool)
      requires Ok() && IsChunk(v, x) && c.shift[x] == s && i in c.live[x] && !C.Full(s, c.live[x])
      modifies this`slab, this`next, this`prev, this`typ, this`bits, this`pfree, this`v, this`c
      ensures Ok() && c.shift == old(c.shift) && emptied == (old(c.live[x]) == {i})
      ensures !emptied ==> v == old(v) && c.live == old(c.live)[x := old(c.live[x]) - {i}]
      ensures emptied ==> c.live == old(c.live) && Freed(old(v), v, x, 1)
    {
      assert ChunkOk(M(), bits, c, min, x) && |bits[x]| == C.MAP_WORDS;
      var word, front, empty := C.DropChunk(slab[x], bits[x], s, i, c.live[x]);
      emptied := empty;
      if empty {
        FreeLast(x, s, front);
      } else {
        KeepPage(x, s, word, front, c.live[x] - {i});
      }
    }

    // The page leaves its list and goes back to the free runs.
    method FreeLast(x: Ref, s: C.Shift, front: seq<Word>)
      requires Ok() && IsChunk(v, x) && c.shift[x] == s && !C.Full(s, c.live[x]) && |front| == C.MAP_WORDS
      modifies this`slab, this`next, this`prev, this`typ, this`bits, this`pfree, this`v, this`c
      ensures Ok() && c.shift == old(c.shift) && c.live == old(c.live)
      ensures Freed(old(v), v, x, 1)
    {
      ghost var d := LastChange(M(), bits, v, c, min, x, s, front);
      ghost var m1 := ChangedMem(M(), d);
      ghost var c1 := ChangedChunks(c, min, d);
      bits := bits[x := front];
      pfree := pfree + 1;
      slab := slab[x := 1];
      LeaveList(x);
      v := v.(kind := v.kind[x := Limbo]);
      Coalesce(x, 1, m1, old(v));
      Recover(m1, bits, old(v), c1, min, M(), v, x, 1);
      c := c1;
    }

    // A run in use goes back to the free runs.
    method FreeRun(x: Ref, k: int)
      requires Ok() && 0 <= x < pages && v.head[x] == x && v.kind[x] == Used && k == v.len[x]
      modifies this`slab, this`next, this`prev, this`typ, this`pfree, this`v
      ensures Ok() && Freed(old(v), v, x, k)
    {
      assert PageOk(M(), v, x);
      ZeroLocal(M(), v, x);
      ghost var m0 := M();
      forall q | x <= q < x + k && v.head[q] == q ensures v.kind[q] != Chunk { }
      FreeBut(M(), bits, v, c, min, x, x + k);
      pfree := pfree + k;
      ZeroPages(x, k);
      v := v.(kind := v.kind[x := Limbo]);
      Coalesce(x, k, m0, old(v));
      Recover(m0, bits, old(v), c, min, M(), v, x, k);
    }

    method ZeroPages(x: Ref, k: int)
      requires M().Sized() && 0 <= x < pages && 0 < k && x + k <= pages
      modifies this`slab, this`next, this`prev, this`typ
      ensures M() == Zeroed(old(M()), x, k)
    {
      ghost var m := M();
      slab := slab[x := k];
      var p := x + 1;
      while p < x + k
        invariant x < p <= x + k
        invariant slab == Within(m.slab, x, p, k, 0)
        invariant next == Within(m.next, x, p, m.next[x], NULL)
        invariant prev == Within(m.prev, x, p, m.prev[x], NULL)
        invariant typ == Within(m.typ, x, p, m.typ[x], TYPE_PAGE)
      {
        slab := slab[p := 0];
        next := next[p := NULL];
        prev := prev[p := NULL];
        typ := typ[p := TYPE_PAGE];
        p := p + 1;
      }
    }

    method LeaveList(x: Ref)
      requires M().Sized() && 0 <= x < |next| && 0 <= prev[x] < |next| && 0 <= next[x] < |next|
      modifies this`next, this`prev
      ensures next == Detached(old(M()), x).next[x := NULL] && prev == Detached(old(M()), x).prev[x := NULL]
    {
      Detach(x);
      next := next[x := NULL];
      prev := prev[x := NULL];
    }

    // ngx_slab_alloc_pages: the first run in the list that is long enough.
    method AllocPages(k: int) returns (page: Ref)
      requires Ok() && k >= 1
      modifies this`slab, this`next, this`prev, this`typ, this`pfree, this`v
      ensures Ok()
      ensures page == NULL <==> old(NoRun(v, k))
      ensures page == NULL ==> M() == old(M()) && v == old(v)
      ensures page != NULL ==> FirstFit(old(v), page, k) && Given(old(M()), old(v), M(), v, page, k)
    {
      ghost var i;
      page, i := FindRun(k);
      if page != NULL {
        TakeRun(page, k, i);
      }
    }

    method FindRun(k: int) returns (page: Ref, ghost i: int)
      requires Ok() && k >= 1
      ensures page == NULL <==> NoRun(v, k)
      ensures page != NULL ==> FirstFit(v, page, k)
      ensures page != NULL ==> 0 <= i < |v.free| && page == v.free[i] && 0 <= page < pages && slab[page] >= k
    {
      page := next[pages];
      i := 0;
      while page != pages
        invariant 0 <= i <= |v.free| && page == After(v.free, i, pages)
        invariant i < |v.free| ==> v.free[i] in v.free
        invariant forall j {:trigger v.free[j]} :: 0 <= j < i ==> 0 <= v.free[j] < pages && v.len[v.free[j]] < k
        decreases |v.free| - i
      {
        assert RingAt(next, prev, pages, v.free, i);
        RingNeighbours(M(), v, i);
        if slab[page] >= k {
          return;
        }
        page := next[page];
        i := i + 1;
      }
      page := NULL;
      forall h | h in v.free ensures v.len[h] < k {
        var j :| 0 <= j < |v.free| && v.free[j] == h;
      }
    }

    method TakeRun(page: Ref, k: int, ghost i: int)
      requires Ok() && k >= 1 && 0 <= i < |v.free| && page == v.free[i]
      requires 0 <= page < pages && slab[page] >= k
      modifies this`slab, this`next, this`prev, this`typ, this`pfree, this`v
      ensures Ok() && Given(old(M()), old(v), M(), v, page, k)
    {
      RingNeighbours(M(), v, i);
      if slab[page] > k {
        TakePart(page, k, i);
      } else {
        TakeAll(page, k, i);
      }
    }

    method TakePart(page: Ref, k: int, ghost i: int)
      requires Ok() && CanSplit(M(), v, i, k) && page == v.free[i]
      modifies this`slab, this`next, this`prev, this`typ, this`pfree, this`v
      ensures Ok() && Given(old(M()), old(v), M(), v, page, k)
    {
      RingNeighbours(M(), v, i);
      SplitPool(M(), bits, v, c, min, i, k);
      v := SplitView(v, i, k);
      CutRun(page, k);
      MarkUsed(page, k);
      pfree := pfree - k;
    }

    method TakeAll(page: Ref, k: int, ghost i: int)
      requires Ok() && CanTake(M(), v, i) && page == v.free[i] && k == v.len[page]
      modifies this`slab, this`next, this`prev, this`typ, this`pfree, this`v
      ensures Ok() && Given(old(M()), old(v), M(), v, page, k)
    {
      RingNeighbours(M(), v, i);
      TakePool(M(), bits, v, c, min, i);
      v := TakenView(v, i, Used);
      Detach(page);
      MarkUsed(page, k);
      pfree := pfree - k;
    }

    // The rest of ngx_slab_free_pages, with the run x out of use and off its list.
    method Coalesce(x: Ref, k: int, ghost m0: Mem, ghost v0: View)
      requires Returning(m0, v0, M(), v, x, k, x) && m0.pages == pages && v.len[x] == k
      requires forall q {:trigger IsFree(v0, q)} :: x <= q < x + k ==> !IsFree(v0, q)
      modifies this`slab, this`next, this`prev, this`typ, this`v
      ensures RunsOk(M(), v) && Settled(v) && Local(m0, v0, M(), v, x, x + k)
      ensures Carved(v, v0, x, x + k) && FreeCount(v, pages) == FreeCount(v0, pages) + k
    {
      var page := x;
      JoinNext(page, x, k, m0, v0);
      page := JoinPrev(page, x, k, m0, v0);
      PublishReturning(m0, v0, M(), v, x, k, page);
      InsertRun(page);
      v := PublishedView(v, page);
    }

    // The run behind, if it is free, joins the run in limbo.
    method JoinNext(page: Ref, ghost x: Ref, ghost k: int, ghost m0: Mem, ghost v0: View)
      requires Returning(m0, v0, M(), v, x, k, page)
      modifies this`slab, this`next, this`prev, this`typ, this`v
      ensures Returning(m0, v0, M(), v, x, k, page) && NotFreeBehind(v, page)
    {
      assert PageOk(M(), v, page);
      var join := page + slab[page];
      if join < pages {
        NextIsFree(m0, v0, M(), v, x, k, page);
        if typ[join] == TYPE_PAGE && next[join] != NULL {
          ghost var i := FreeIndex(M(), v, join);
          MergeReturning(m0, v0, M(), v, x, k, page, page, join, i);
          MergedBehind(M(), v, page, join, i);
          MergeRuns(page, join, join);
          v := MergedView(v, page, join, i);
        }
      }
    }

    // The run before, if it is free, takes in the run in limbo.
    method JoinPrev(page: Ref, ghost x: Ref, ghost k: int, ghost m0: Mem, ghost v0: View) returns (first: Ref)
      requires Returning(m0, v0, M(), v, x, k, page) && NotFreeBehind(v, page)
      modifies this`slab, this`next, this`prev, this`typ, this`v
      ensures Returning(m0, v0, M(), v, x, k, first) && CanPublish(M(), v, first)
    {
      first := page;
      if page > 0 {
        PrevIsFree(m0, v0, M(), v, x, k, page);
        var join := page - 1;
        if typ[join] == TYPE_PAGE {
          if slab[join] == 0 {
            join := prev[join];
          }
          if next[join] != NULL {
            ghost var i := FreeIndex(M(), v, join);
            MergeReturning(m0, v0, M(), v, x, k, page, join, page, i);
            MergedBefore(M(), v, join, page, i);
            MergeRuns(join, page, join);
            v := MergedView(v, join, page, i);
            first := join;
          }
        }
      }
      Ready(m0, v0, M(), v, x, k, first);
    }

    // Run b follows run a: a takes over its pages and f, the free one of the two, leaves the list.
    method MergeRuns(a: Ref, b: Ref, f: Ref)
      requires M().Sized() && 0 <= a < pages && 0 <= b < pages && a != b && (f == a || f == b)
      requires 0 <= prev[f] < |next| && 0 <= next[f] < |next|
      modifies this`slab, this`next, this`prev, this`typ
      ensures M() == Merged(old(M()), a, b, f)
    {
      slab := slab[a := slab[a] + slab[b]];
      Detach(f);
      slab := slab[b := 0];
      next := next[b := NULL];
      prev := prev[b := NULL];
      typ := typ[b := TYPE_PAGE];
    }

    method InsertRun(page: Ref)
      requires M().Sized() && 0 <= page < pages && 1 <= slab[page] && page + slab[page] <= pages && 0 <= next[pages] < |next|
      modifies this`next, this`prev, this`typ
      ensures M() == Published(old(M()), page)
    {
      if slab[page] > 1 {
        prev := prev[page + slab[page] - 1 := page];
      }
      prev := prev[page := pages];
      typ := typ[page := TYPE_PAGE];
      next := next[page := next[pages]];
      prev := prev[next[page] := page];
      next := next[pages := page];
    }

    method Detach(x: Ref)
      requires M().Sized() && 0 <= x < |next| && 0 <= prev[x] < |next| && 0 <= next[x] < |next|
      modifies this`next, this`prev
      ensures M() == Detached(old(M()), x)
    {
      var p := prev[x];
      next := next[p := next[x]];
      prev := prev[next[x] := p];
    }

    // ---- the callers' operations ----

    // The chunk size for a request: the smallest power of two that holds it, and at least the
    // smallest size of the pool.
    method ShiftFor(size: nat) returns (s: C.Shift)
      requires size <= 2048
      ensures Serves(s, size)
    {
      if size > C.Size(min) {
        var sh := 1;
        var t := (size - 1) / 2;
        while t != 0
          invariant sh >= 1 && t == Shr(size - 1, sh) && Shr(size - 1, sh - 1) != 0
          decreases t
        {
          t := t / 2;
          ShrStep(size - 1, sh);
          sh := sh + 1;
        }
        ShrZero(size - 1, sh);
        ShrZero(size - 1, sh - 1);
        SizeRange(size, sh, min);
        s := sh;
      } else {
        s := min;
      }
    }

    // ngx_slab_alloc_locked: 0 means no memory.
    method Alloc(size: nat) returns (p: int, ghost b: Block)
      requires Valid()
      modifies this`slab, this`next, this`prev, this`typ, this`bits, this`pfree, this`used, this`total, this`reqs, this`fails, this`v, this`c
      ensures Valid()
      ensures p == 0 <==> old(Refused(size))
      ensures p == 0 ==> Kept()
      ensures p != 0 ==> b.addr == p && size <= b.size && Granted(size, b.size) && Gains(b)
    {
      if size > 2048 {
        p, b := AllocRun(size);
      } else {
        var s := ShiftFor(size);
        ServesOnly(size, s);
        p, b := AllocChunk(s);
      }
    }

    // One slot serves a request.
    lemma ServesOnly(size: nat, s: C.Shift)
      requires Serves(s, size)
      ensures forall t: C.Shift {:trigger Serves(t, size)} :: Serves(t, size) ==> t == s
    {
    }

    // A block is the smallest that serves: whole pages, or the chunk of the slot.
    ghost predicate Granted(size: nat, n: nat) {
      if size > 2048 then n == PagesFor(size) * C.PAGE_SIZE else exists s: C.Shift {:trigger Serves(s, size)} :: Serves(s, size) && n == C.Size(s)
    }

    // No caller's block came or went.
    twostate predicate Kept() reads this
      requires old(Ok()) && Ok()
    {
      forall a {:trigger Holds(a)} :: Holds(a) <==> old(Holds(a))
    }

    twostate predicate Gains(b: Block) reads this
      requires old(Ok()) && Ok()
    {
      !old(Holds(b)) && forall a {:trigger Holds(a)} :: Holds(a) <==> old(Holds(a)) || a == b
    }

    twostate predicate Loses(b: Block) reads this
      requires old(Ok()) && Ok()
    {
      old(Holds(b)) && forall a {:trigger Holds(a)} :: Holds(a) <==> old(Holds(a)) && a != b
    }

    // The chunk size that serves a request.
    ghost predicate Serves(s: C.Shift, size: nat) {
      min <= s && size <= C.Size(s) && (s > min ==> C.Size(s) < 2 * size)
    }

    // No free run is long enough, or there is no page on the slot's list and no free page.
    ghost predicate Refused(size: nat) reads this
      requires Ok()
    {
      if size > 2048 then NoRun(v, PagesFor(size)) else NoRun(v, 1) && exists s: C.Shift {:trigger Serves(s, size)} :: Serves(s, size) && c.slots[s - min] == []
    }

    method AllocRun(size: nat) returns (p: int, ghost b: Block)
      requires Valid() && size > 2048
      modifies this`slab, this`next, this`prev, this`typ, this`pfree, this`v
      ensures Valid()
      ensures p == 0 <==> old(NoRun(v, PagesFor(size)))
      ensures p == 0 ==> Kept()
      ensures p != 0 ==> b.addr == p && b.size == PagesFor(size) * C.PAGE_SIZE && Gains(b)
    {
      var k := PagesFor(size);
      var page := AllocPages(k);
      b := Block(0, 0);
      if page == NULL {
        return 0, b;
      }
      p := start + page * C.PAGE_SIZE;
      b := RunBlock(start, page, k);
      forall a ensures Holds(a) <==> old(Holds(a)) || a == b {
        RunGained(old(M()), old(v), M(), v, c, min, start, page, k, a);
      }
      NotHeldBefore(old(M()), bits, old(v), c, min, start, page, b);
      RunStats(old(M()), old(v), M(), v, c, min, page, k, used, total);
    }

    method AllocChunk(s: C.Shift) returns (p: int, ghost b: Block)
      requires Valid() && min <= s
      modifies this`slab, this`next, this`prev, this`typ, this`bits, this`pfree, this`used, this`total, this`reqs, this`fails, this`v, this`c
      ensures Valid()
      ensures p == 0 <==> old(NoRun(v, 1) && c.slots[s - min] == [])
      ensures p == 0 ==> Kept()
      ensures p != 0 ==> b.addr == p && b.size == C.Size(s) && Gains(b)
      ensures reqs == old(reqs)[s - min := old(reqs[s - min]) + 1]
      ensures fails == if p == 0 then old(fails)[s - min := old(fails[s - min]) + 1] else old(fails)
    {
      reqs := reqs[s - min := reqs[s - min] + 1];
      SlotFirst(M(), bits, v, c, min, s);
      var page := next[pages + 1 + (s - min)];
      if next[page] != page {
        p, b := ChunkFromList(page, s);
      } else {
        p, b := ChunkFromFresh(s);
      }
    }

    method ChunkFromList(page: Ref, s: C.Shift) returns (p: int, ghost b: Block)
      requires Valid() && min <= s && c.slots[s - min] != [] && page == c.slots[s - min][0]
      modifies this`slab, this`next, this`prev, this`bits, this`used, this`c
      ensures Valid() && p > 0 && b.addr == p && b.size == C.Size(s) && Gains(b)
    {
      var i := AllocOnPage(page, s);
      TakenStats(v, old(c), c, min, page, i, used, total);
      used := used[s - min := used[s - min] + 1];
      p := start + page * C.PAGE_SIZE + i * C.Size(s);
      b := ChunkBlock(start, page, s, i);
      forall a ensures Holds(a) <==> old(Holds(a)) || a == b {
        ChunkGained(v, old(c), c, min, start, page, i, a);
      }
      NotLiveBefore(old(M()), old(bits), v, old(c), min, start, page, i);
      assert !old(Holds(b));
    }

    method ChunkFromFresh(s: C.Shift) returns (p: int, ghost b: Block)
      requires Valid() && min <= s && c.slots[s - min] == []
      modifies this`slab, this`next, this`prev, this`typ, this`bits, this`pfree, this`used, this`total, this`fails, this`v, this`c
      ensures Valid()
      ensures p == 0 <==> old(NoRun(v, 1))
      ensures p == 0 ==> Kept()
      ensures p != 0 ==> b.addr == p && b.size == C.Size(s) && Gains(b)
      ensures fails == if p == 0 then old(fails)[s - min := old(fails[s - min]) + 1] else old(fails)
    {
      var page := AllocPages(1);
      b := Block(0, 0);
      if page == NULL {
        fails := fails[s - min := fails[s - min] + 1];
        return 0, b;
      }
      p, b := UseFresh(page, s, old(M()), old(v));
    }

    // The first chunk of the page that AllocPages gave; m0 and v0 are from before.
    method UseFresh(page: Ref, s: C.Shift, ghost m0: Mem, ghost v0: View) returns (p: int, ghost b: Block)
      requires Ok() && min <= s && c.slots[s - min] == [] && start > 0
      requires PoolOk(m0, bits, v0, c, min) && m0.pages == pages && Given(m0, v0, M(), v, page, 1) && StatsOk(v0, c, min, used, total)
      modifies this`slab, this`next, this`prev, this`typ, this`bits, this`used, this`total, this`v, this`c
      ensures Ok() && StatsOk(v, c, min, used, total) && p > 0 && b.addr == p && b.size == C.Size(s)
      ensures !IsLive(v0, old(c), min, start, b)
      ensures forall a {:trigger Holds(a)} :: Holds(a) <==> IsLive(v0, old(c), min, start, a) || a == b
    {
      var i := AllocOnFresh(page, s);
      FreshStats(m0, v0, old(M()), old(v), old(c), c, min, page, s, i, used, total);
      total := total[s - min := total[s - min] + Room(s)];
      used := used[s - min := used[s - min] + 1];
      p := start + page * C.PAGE_SIZE + i * C.Size(s);
      b := ChunkBlock(start, page, s, i);
      forall a ensures Holds(a) <==> IsLive(v0, old(c), min, start, a) || a == b {
        FreshGained(m0, v0, old(M()), old(v), old(c), c, min, start, page, s, i, a);
      }
      NotHeldBefore(m0, old(bits), v0, old(c), min, start, page, b);
    }

    // ngx_slab_free_locked on the address of a live block.
    method Free(p: int, ghost b: Block)
      requires Valid() && Holds(b) && b.addr == p
      modifies this`slab, this`next, this`prev, this`typ, this`bits, this`pfree, this`used, this`total, this`v, this`c
      ensures Valid() && Loses(b)
    {
      var page := (p - start) / C.PAGE_SIZE;
      Locate(M(), bits, v, c, min, start, b);
      if typ[page] == TYPE_PAGE {
        var k := slab[page] - PAGE_START;
        FreeRun(page, k);
        forall a ensures Holds(a) <==> old(Holds(a)) && a != b {
          FreedLost(old(M()), bits, old(v), v, c, c, min, start, page, k, b, a);
        }
        FreedRunStats(old(M()), old(v), v, c, min, page, k, used, total);
      } else {
        var s: C.Shift := if typ[page] == C.TYPE_EXACT then C.EXACT_SHIFT else Low(slab[page], 4);
        FreeChunk(page, s, p % C.PAGE_SIZE / C.Size(s), b);
      }
    }

    method FreeChunk(page: Ref, s: C.Shift, i: nat, ghost b: Block)
      requires Valid() && IsChunk(v, page) && c.shift[page] == s && i in c.live[page] && b == ChunkBlock(start, page, s, i)
      modifies this`slab, this`next, this`prev, this`typ, this`bits, this`pfree, this`used, this`total, this`v, this`c
      ensures Valid() && Loses(b)
    {
      FullTest(M(), bits, v, c, min, page, s);
      assert LiveAt(v, c, min, start, page, b);
      if (if s == C.EXACT_SHIFT then slab[page] == Ones(64) else next[page] == NULL) {
        FreeFromFull(page, s, i, b);
      } else {
        FreeFromList(page, s, i, b);
      }
    }

    method FreeFromFull(page: Ref, s: C.Shift, i: nat, ghost b: Block)
      requires Valid() && IsChunk(v, page) && c.shift[page] == s && min <= s && i in c.live[page] && C.Full(s, c.live[page])
      requires b == ChunkBlock(start, page, s, i) && Holds(b)
      modifies this`slab, this`next, this`prev, this`bits, this`used, this`c
      ensures Valid() && Loses(b)
    {
      FreeOnFull(page, s, i);
      DroppedStats(v, old(c), c, min, page, i, used, total);
      used := used[s - min := used[s - min] - 1];
      forall a ensures Holds(a) <==> old(Holds(a)) && a != b {
        ChunkLost(old(M()), old(bits), v, old(c), c, min, start, page, i, a);
      }
    }

    method FreeFromList(page: Ref, s: C.Shift, i: nat, ghost b: Block)
      requires Valid() && IsChunk(v, page) && c.shift[page] == s && min <= s && i in c.live[page] && !C.Full(s, c.live[page])
      requires b == ChunkBlock(start, page, s, i) && Holds(b) && v.len[page] == 1
      modifies this`slab, this`next, this`prev, this`typ, this`bits, this`pfree, this`used, this`total, this`v, this`c
      ensures Valid() && Loses(b)
    {
      var emptied := FreeOnList(page, s, i);
      if emptied {
        EmptiedStats(old(M()), old(v), v, old(c), c, min, page, s, i, used, total);
        total := total[s - min := total[s - min] - Room(s)];
        used := used[s - min := used[s - min] - 1];
        assert LiveAt(old(v), old(c), min, start, page, b);
        forall a ensures Holds(a) <==> old(Holds(a)) && a != b {
          FreedLost(old(M()), old(bits), old(v), v, old(c), c, min, start, page, 1, b, a);
        }
      } else {
        DroppedStats(v, old(c), c, min, page, i, used, total);
        used := used[s - min := used[s - min] - 1];
        forall a ensures Holds(a) <==> old(Holds(a)) && a != b {
          ChunkLost(old(M()), old(bits), old(v), old(c), c, min, start, page, i, a);
        }
      }
    }
  }
}
