/** Page runs of src/core/ngx_slab.c: ngx_slab_alloc_pages and ngx_slab_free_pages on the array of
    page descriptors. */
module SlabRuns {
  import opened SlabRing

  const PAGE_START: int := 0x8000_0000_0000_0000
  const PAGE_BUSY: int := 0xffff_ffff_ffff_ffff
  const TYPE_PAGE: int := 0

  // Descriptors 0..pages-1 are pages, descriptor "pages" is pool->free, the rest are slot heads.
  // The word "prev" of the C struct is split into a reference and its two low bits, the type.
  datatype Mem = Mem(pages: nat, slab: seq<int>, next: seq<Ref>, prev: seq<Ref>, typ: seq<int>)
  {
    ghost predicate Sized() {
      |slab| == |next| == |prev| == |typ| && pages < |slab|
    }
  }

  datatype Kind = Free | Used | Chunk | Limbo

  // The division of the pages into runs: the first page of the run of each page, and for first
  // pages the length and what the run is. Limbo is a run on its way to the free list.
  datatype View = View(head: seq<int>, len: seq<int>, kind: seq<Kind>, free: seq<Ref>)
  {
    ghost predicate Sized(n: nat) { |head| == n && |len| == n && |kind| == n }
  }

  ghost predicate RunOk(v: View, h: int)
    requires v.Sized(|v.head|) && 0 <= h < |v.head|
  {
    && v.head[h] == h && 1 <= v.len[h] && h + v.len[h] <= |v.head|
    && (forall q {:trigger v.head[q]} :: h <= q < h + v.len[h] ==> v.head[q] == h)
    && (v.kind[h] == Chunk ==> v.len[h] == 1)
  }

  ghost predicate FieldsOk(m: Mem, v: View, p: int)
    requires m.Sized() && v.Sized(m.pages) && 0 <= p < m.pages && 0 <= v.head[p] < m.pages
  {
    var h := v.head[p];
    match v.kind[h]
    case Free =>
      && m.typ[p] == TYPE_PAGE
      && (p == h ==> m.slab[p] == v.len[h])
      && (p != h ==> m.slab[p] == 0 && m.next[p] == NULL)
      && (p != h && p + 1 == h + v.len[h] && p + 1 < m.pages ==> m.prev[p] == h)
    case Limbo =>
      && (p == h ==> m.slab[p] == v.len[h])
      && (p != h ==> m.typ[p] == TYPE_PAGE && m.slab[p] == 0 && m.next[p] == NULL)
    case Used =>
      m.typ[p] == TYPE_PAGE && m.next[p] == NULL && m.slab[p] == (if p == h then PAGE_START + v.len[h] else PAGE_BUSY)
    case Chunk => m.typ[p] != TYPE_PAGE
  }

  // No two free runs are adjacent.
  ghost predicate Maximal(v: View, h: int)
    requires v.Sized(|v.head|) && 0 <= h < |v.head|
  {
    var e := h + v.len[h];
    v.kind[h] == Free && 0 <= e < |v.head| ==> 0 <= v.head[e] < |v.head| && v.kind[v.head[e]] != Free
  }

  ghost predicate PageOk(m: Mem, v: View, p: int)
    requires m.Sized() && v.Sized(m.pages) && 0 <= p < m.pages
  {
    var h := v.head[p];
    0 <= h <= p && p < h + v.len[h] && RunOk(v, h) && FieldsOk(m, v, p) && Maximal(v, h)
  }

  ghost predicate Listed(v: View, h: int)
    requires v.Sized(|v.head|) && 0 <= h < |v.head|
  {
    h in v.free <==> v.head[h] == h && v.kind[h] == Free
  }

  ghost predicate FreeList(m: Mem, v: View)
    requires m.Sized() && v.Sized(m.pages)
  {
    && Ring(m.next, m.prev, m.pages, v.free)
    && (forall h :: h in v.free ==> 0 <= h < m.pages)
    && (forall h {:trigger Listed(v, h)} :: 0 <= h < m.pages ==> Listed(v, h))
  }

  ghost predicate RunsOk(m: Mem, v: View) {
    && m.Sized() && v.Sized(m.pages)
    && FreeList(m, v)
    && (forall p {:trigger PageOk(m, v, p)} :: 0 <= p < m.pages ==> PageOk(m, v, p))
  }

  // Two runs either are the same or do not meet.
  lemma RunsApart(m: Mem, v: View, p: int, h: int)
    requires m.Sized() && v.Sized(m.pages) && 0 <= p < m.pages && PageOk(m, v, p)
    requires 0 <= h < m.pages && RunOk(v, h)
    ensures v.head[p] == h <==> h <= p < h + v.len[h]
    ensures v.head[p] != h ==> v.head[p] + v.len[v.head[p]] <= h || h + v.len[h] <= v.head[p]
  {
    var g := v.head[p];
    if g != h {
      assert v.head[h] == h;
      assert v.head[g] == g;
    }
  }

  // ---- allocation: the first k pages of a longer free run ----

  function SplitOff(m: Mem, x: Ref, k: int): (r: Mem)
    requires m.Sized() && 0 <= x < m.pages && 0 < k < m.slab[x] && x + m.slab[x] <= m.pages
    requires 0 <= m.prev[x] < |m.next| && 0 <= m.next[x] < |m.next|
  {
    var y := x + k;
    var m1 := m.(prev := m.prev[x + m.slab[x] - 1 := y]);
    var m2 := m1.(slab := m1.slab[y := m.slab[x] - k], next := m1.next[y := m1.next[x]], prev := m1.prev[y := m1.prev[x]],
                  typ := m1.typ[y := m1.typ[x]]);
    m2.(next := m2.next[m2.prev[x] := y], prev := m2.prev[m2.next[x] := y])
  }

  function Within<T>(s: seq<T>, a: int, b: int, first: T, rest: T): seq<T> {
    seq(|s|, q requires 0 <= q < |s| => if q == a then first else if a < q < b then rest else s[q])
  }

  function MarkedUsed(m: Mem, x: Ref, k: int): (r: Mem)
    requires m.Sized() && 0 <= x && 0 < k && x + k <= m.pages
  {
    m.(slab := Within(m.slab, x, x + k, PAGE_START + k, PAGE_BUSY),
       next := Within(m.next, x, x + k, NULL, NULL),
       prev := Within(m.prev, x, x + k, NULL, NULL),
       typ := Within(m.typ, x, x + k, TYPE_PAGE, TYPE_PAGE))
  }

  ghost function SplitView(v: View, i: int, k: int): (r: View)
    requires v.Sized(|v.head|) && 0 <= i < |v.free| && 0 <= v.free[i] < |v.head| && 0 < k < v.len[v.free[i]] && v.free[i] + v.len[v.free[i]] <= |v.head|
  {
    var x := v.free[i];
    var y := x + k;
    View(Within(v.head, y, x + v.len[x], y, y), v.len[x := k][y := v.len[x] - k], v.kind[x := Used][y := Free], v.free[i := y])
  }

  ghost predicate CanSplit(m: Mem, v: View, i: int, k: int) {
    && RunsOk(m, v) && 0 <= i < |v.free| && v.free[i] < m.pages && 0 <= v.free[i]
    && 0 < k < v.len[v.free[i]] && v.free[i] + v.len[v.free[i]] <= m.pages && m.slab[v.free[i]] == v.len[v.free[i]]
    && 0 <= m.prev[v.free[i]] < |m.next| && 0 <= m.next[v.free[i]] < |m.next|
  }

  lemma SplitRunOk(m: Mem, v: View, i: int, k: int, p: int)
    requires CanSplit(m, v, i, k) && 0 <= p < m.pages
    ensures var w := SplitView(v, i, k); var h := w.head[p];
      0 <= h <= p && p < h + w.len[h] && RunOk(w, h)
  {
    var x := v.free[i];
    assert Listed(v, x);
    assert PageOk(m, v, x) && PageOk(m, v, p);
    RunsApart(m, v, p, x);
  }

  lemma SplitMaximal(m: Mem, v: View, i: int, k: int, p: int)
    requires CanSplit(m, v, i, k) && 0 <= p < m.pages
    requires var w := SplitView(v, i, k); 0 <= w.head[p] < m.pages
    ensures var w := SplitView(v, i, k); Maximal(w, w.head[p])
  {
    var x := v.free[i];
    assert Listed(v, x);
    assert PageOk(m, v, x) && PageOk(m, v, p);
    RunsApart(m, v, p, x);
    var e := v.head[p] + v.len[v.head[p]];
    if e < m.pages { assert PageOk(m, v, e); RunsApart(m, v, e, x); }
  }

  // The neighbours of a member in the free list are other members or the list head.
  lemma RingNeighbours(m: Mem, v: View, i: int)
    requires RunsOk(m, v) && 0 <= i < |v.free|
    ensures var x := v.free[i];
      && 0 <= x < m.pages && v.head[x] == x && v.kind[x] == Free && m.slab[x] == v.len[x] && x + v.len[x] <= m.pages && v.len[x] >= 1
      && m.next[x] != x && m.prev[x] != x && 0 <= m.next[x] <= m.pages && 0 <= m.prev[x] <= m.pages
      && (m.next[x] < m.pages ==> v.head[m.next[x]] == m.next[x] && v.kind[m.next[x]] == Free)
      && (m.prev[x] < m.pages ==> v.head[m.prev[x]] == m.prev[x] && v.kind[m.prev[x]] == Free)
  {
    var x := v.free[i];
    assert x in v.free;
    assert Listed(v, x) && PageOk(m, v, x) && RingAt(m.next, m.prev, m.pages, v.free, i);
    if i > 0 { assert v.free[i - 1] in v.free; assert Listed(v, v.free[i - 1]); }
    if i + 1 < |v.free| { assert v.free[i + 1] in v.free; assert Listed(v, v.free[i + 1]); }
  }

  // What taking k pages off the front of run x leaves in descriptor q.
  ghost predicate SplitAt(m: Mem, r: Mem, x: Ref, k: int, q: int)
    requires m.Sized() && r.Sized() && |r.slab| == |m.slab| && 0 <= x < m.pages && 0 <= q < |m.slab|
  {
    var y, z := x + k, x + m.slab[x] - 1;
    && r.slab[q] == (if q == x then PAGE_START + k else if x < q < y then PAGE_BUSY else if q == y then m.slab[x] - k else m.slab[q])
    && r.next[q] == (if x <= q < y then NULL else if q == m.prev[x] then y else if q == y then m.next[x] else m.next[q])
    && r.prev[q] == (if x <= q < y then NULL else if q == m.next[x] then y else if q == y then m.prev[x] else if q == z then y else m.prev[q])
    && r.typ[q] == (if x <= q < y then TYPE_PAGE else if q == y then m.typ[x] else m.typ[q])
  }

  ghost predicate AllSplit(m: Mem, r: Mem, x: Ref, k: int)
    requires m.Sized() && 0 <= x < m.pages
  {
    && r.Sized() && |r.slab| == |m.slab| && r.pages == m.pages
    && forall q {:trigger SplitAt(m, r, x, k, q)} :: 0 <= q < |m.slab| ==> SplitAt(m, r, x, k, q)
  }

  lemma SplitEffectAt(m: Mem, v: View, i: int, k: int, q: int)
    requires CanSplit(m, v, i, k) && 0 <= q < |m.slab|
    ensures SplitAt(m, MarkedUsed(SplitOff(m, v.free[i], k), v.free[i], k), v.free[i], k, q)
  {
    var x := v.free[i];
    RingNeighbours(m, v, i);
    assert PageOk(m, v, x);
    if m.next[x] < m.pages { assert PageOk(m, v, m.next[x]); RunsApart(m, v, m.next[x], x); }
    if m.prev[x] < m.pages { assert PageOk(m, v, m.prev[x]); RunsApart(m, v, m.prev[x], x); }
  }

  lemma SplitEffect(m: Mem, v: View, i: int, k: int)
    requires CanSplit(m, v, i, k)
    ensures AllSplit(m, MarkedUsed(SplitOff(m, v.free[i], k), v.free[i], k), v.free[i], k)
  {
    forall q | 0 <= q < |m.slab| ensures SplitAt(m, MarkedUsed(SplitOff(m, v.free[i], k), v.free[i], k), v.free[i], k, q) {
      SplitEffectAt(m, v, i, k, q);
    }
  }

  lemma SplitFieldsIn(m: Mem, v: View, i: int, k: int, r: Mem, p: int)
    requires CanSplit(m, v, i, k) && AllSplit(m, r, v.free[i], k)
    requires 0 <= p < m.pages && v.head[p] == v.free[i]
    requires var w := SplitView(v, i, k); 0 <= w.head[p] < m.pages
    ensures FieldsOk(r, SplitView(v, i, k), p)
  {
    var x := v.free[i];
    RingNeighbours(m, v, i);
    assert PageOk(m, v, x) && PageOk(m, v, p);
    assert SplitAt(m, r, x, k, p);
  }

  lemma SplitFieldsOut(m: Mem, v: View, i: int, k: int, r: Mem, p: int)
    requires CanSplit(m, v, i, k) && AllSplit(m, r, v.free[i], k)
    requires 0 <= p < m.pages && v.head[p] != v.free[i]
    requires var w := SplitView(v, i, k); 0 <= w.head[p] < m.pages
    ensures FieldsOk(r, SplitView(v, i, k), p)
  {
    var x := v.free[i];
    RingNeighbours(m, v, i);
    assert PageOk(m, v, x) && PageOk(m, v, p);
    RunsApart(m, v, p, x);
    assert SplitAt(m, r, x, k, p);
  }

  lemma SplitRing(m: Mem, v: View, i: int, k: int, r: Mem, l: seq<Ref>)
    requires CanSplit(m, v, i, k) && AllSplit(m, r, v.free[i], k) && l == v.free[i := v.free[i] + k]
    ensures Ring(r.next, r.prev, m.pages, l)
    ensures forall z :: z in l ==> 0 <= z < m.pages
  {
    var x := v.free[i];
    var y := x + k;
    RingNeighbours(m, v, i);
    assert PageOk(m, v, x);
    assert y !in v.free by { assert Listed(v, y); }
    Replaced(m.next, m.prev, m.pages, v.free, i, y);
    var next', prev' := m.next[y := m.next[x]][m.prev[x] := y], m.prev[y := m.prev[x]][m.next[x] := y];
    forall z | z in l ensures 0 <= z < m.pages && r.next[z] == next'[z] && r.prev[z] == prev'[z] {
      InReplaced(v.free, i, y, z);
      if z != y { assert Listed(v, z) && PageOk(m, v, z); RunsApart(m, v, z, x); }
      assert SplitAt(m, r, x, k, z);
    }
    assert SplitAt(m, r, x, k, m.pages);
    Kept(next', prev', r.next, r.prev, m.pages, l);
  }

  lemma SplitListed(m: Mem, v: View, i: int, k: int, h: int)
    requires CanSplit(m, v, i, k) && 0 <= h < m.pages
    ensures Listed(SplitView(v, i, k), h)
  {
    var x := v.free[i];
    assert Listed(v, h) && Listed(v, x) && PageOk(m, v, h) && PageOk(m, v, x);
    InReplaced(v.free, i, x + k, h);
    RunsApart(m, v, h, x);
  }

  lemma SplitFree(m: Mem, v: View, i: int, k: int, r: Mem)
    requires CanSplit(m, v, i, k) && AllSplit(m, r, v.free[i], k)
    ensures FreeList(r, SplitView(v, i, k))
  {
    SplitRing(m, v, i, k, r, v.free[i := v.free[i] + k]);
    forall h | 0 <= h < m.pages ensures Listed(SplitView(v, i, k), h) {
      SplitListed(m, v, i, k, h);
    }
  }

  lemma InReplaced(l: seq<Ref>, i: int, y: Ref, h: Ref)
    requires Distinct(l) && 0 <= i < |l|
    ensures h in l[i := y] <==> h == y || (h in l && h != l[i])
  {
    if h in l && h != l[i] {
      var j :| 0 <= j < |l| && l[j] == h;
      assert l[i := y][j] == h;
    }
    assert l[i := y][i] == y;
  }

  // ngx_slab_alloc_pages on a run longer than asked for: the runs stay well formed.
  lemma Split(m: Mem, v: View, i: int, k: int)
    requires CanSplit(m, v, i, k)
    ensures RunsOk(MarkedUsed(SplitOff(m, v.free[i], k), v.free[i], k), SplitView(v, i, k))
  {
    var r, w := MarkedUsed(SplitOff(m, v.free[i], k), v.free[i], k), SplitView(v, i, k);
    SplitEffect(m, v, i, k);
    SplitFree(m, v, i, k, r);
    forall p | 0 <= p < m.pages ensures PageOk(r, w, p) {
      SplitRunOk(m, v, i, k, p);
      SplitMaximal(m, v, i, k, p);
      if v.head[p] == v.free[i] { SplitFieldsIn(m, v, i, k, r, p); } else { SplitFieldsOut(m, v, i, k, r, p); }
    }
  }

  // ---- allocation of a whole free run ----

  function Detached(m: Mem, x: Ref): (r: Mem)
    requires m.Sized() && 0 <= x < |m.next| && 0 <= m.prev[x] < |m.next| && 0 <= m.next[x] < |m.next|
  {
    m.(next := m.next[m.prev[x] := m.next[x]], prev := m.prev[m.next[x] := m.prev[x]])
  }

  ghost function TakenView(v: View, i: int, kind: Kind): (r: View)
    requires v.Sized(|v.head|) && 0 <= i < |v.free| && 0 <= v.free[i] < |v.head|
  {
    v.(kind := v.kind[v.free[i] := kind], free := Without(v.free, i))
  }

  ghost predicate CanTake(m: Mem, v: View, i: int) {
    && RunsOk(m, v) && 0 <= i < |v.free| && 0 <= v.free[i] < m.pages
    && 0 <= m.prev[v.free[i]] < |m.next| && 0 <= m.next[v.free[i]] < |m.next|
    && 1 <= v.len[v.free[i]] && v.free[i] + v.len[v.free[i]] <= m.pages && m.slab[v.free[i]] == v.len[v.free[i]]
  }

  lemma InWithout(l: seq<Ref>, i: int, h: Ref)
    requires Distinct(l) && 0 <= i < |l|
    ensures h in Without(l, i) <==> h in l && h != l[i]
  {
    if h in l && h != l[i] {
      var j :| 0 <= j < |l| && l[j] == h;
      assert Without(l, i)[if j < i then j else j - 1] == h;
    }
    if h in Without(l, i) {
      var j :| 0 <= j < |l| - 1 && Without(l, i)[j] == h;
      assert h == l[if j < i then j else j + 1];
    }
  }

  // The free list without member i, whatever becomes of the descriptors outside the list.
  lemma TakenFree(m: Mem, v: View, i: int, r: Mem, w: View)
    requires CanTake(m, v, i)
    requires r.Sized() && |r.slab| == |m.slab| && r.pages == m.pages && w.Sized(m.pages) && w.free == Without(v.free, i)
    requires r.next[m.pages] == Detached(m, v.free[i]).next[m.pages]
    requires forall z :: z in v.free && z != v.free[i] && 0 <= z < m.pages ==>
      r.next[z] == Detached(m, v.free[i]).next[z] && r.prev[z] == Detached(m, v.free[i]).prev[z]
    requires forall h {:trigger Listed(w, h)} :: 0 <= h < m.pages ==>
      ((w.head[h] == h && w.kind[h] == Free) <==> (v.head[h] == h && v.kind[h] == Free && h != v.free[i]))
    ensures FreeList(r, w)
  {
    var x := v.free[i];
    var d := Detached(m, x);
    Unlinked(m.next, m.prev, m.pages, v.free, i);
    forall z | z in w.free ensures 0 <= z < m.pages && r.next[z] == d.next[z] && r.prev[z] == d.prev[z] {
      InWithout(v.free, i, z);
    }
    Kept(d.next, d.prev, r.next, r.prev, m.pages, w.free);
    forall h | 0 <= h < m.pages ensures Listed(w, h) {
      InWithout(v.free, i, h);
      assert Listed(v, h);
    }
  }

  lemma TakenPage(m: Mem, v: View, i: int, p: int)
    requires CanTake(m, v, i) && 0 <= p < m.pages
    ensures PageOk(MarkedUsed(Detached(m, v.free[i]), v.free[i], v.len[v.free[i]]), TakenView(v, i, Used), p)
  {
    var x := v.free[i];
    RingNeighbours(m, v, i);
    assert PageOk(m, v, x) && PageOk(m, v, p);
    RunsApart(m, v, p, x);
  }

  // ngx_slab_alloc_pages on a run of exactly the length asked for.
  lemma TakeWhole(m: Mem, v: View, i: int)
    requires CanTake(m, v, i)
    ensures RunsOk(MarkedUsed(Detached(m, v.free[i]), v.free[i], v.len[v.free[i]]), TakenView(v, i, Used))
  {
    var r, x := MarkedUsed(Detached(m, v.free[i]), v.free[i], v.len[v.free[i]]), v.free[i];
    assert PageOk(m, v, x);
    forall z | z in v.free && z != x && 0 <= z < m.pages
      ensures r.next[z] == Detached(m, x).next[z] && r.prev[z] == Detached(m, x).prev[z]
    {
      assert Listed(v, z) && PageOk(m, v, z);
      RunsApart(m, v, z, x);
    }
    TakenFree(m, v, i, r, TakenView(v, i, Used));
    forall p | 0 <= p < m.pages ensures PageOk(r, TakenView(v, i, Used), p) {
      TakenPage(m, v, i, p);
    }
  }

  // ---- freeing: a run leaves use, merges with its neighbours and joins the free list ----

  function Zeroed(m: Mem, x: Ref, k: int): (r: Mem)
    requires m.Sized() && 0 <= x < m.pages && 0 < k && x + k <= m.pages
  {
    Mem(m.pages, Within(m.slab, x, x + k, k, 0), Within(m.next, x, x + k, m.next[x], NULL),
        Within(m.prev, x, x + k, m.prev[x], NULL), Within(m.typ, x, x + k, m.typ[x], TYPE_PAGE))
  }

  lemma ZeroedPage(m: Mem, v: View, x: Ref, p: int)
    requires RunsOk(m, v) && 0 <= x < m.pages && v.head[x] == x && (v.kind[x] == Used || v.kind[x] == Chunk)
    requires 0 < v.len[x] && x + v.len[x] <= m.pages
    requires 0 <= p < m.pages
    ensures PageOk(Zeroed(m, x, v.len[x]), v.(kind := v.kind[x := Limbo]), p)
  {
    assert PageOk(m, v, x) && PageOk(m, v, p);
    RunsApart(m, v, p, x);
  }

  lemma Zero(m: Mem, v: View, x: Ref)
    requires RunsOk(m, v) && 0 <= x < m.pages && v.head[x] == x && (v.kind[x] == Used || v.kind[x] == Chunk)
    requires 0 < v.len[x] && x + v.len[x] <= m.pages
    ensures RunsOk(Zeroed(m, x, v.len[x]), v.(kind := v.kind[x := Limbo]))
  {
    var r, w := Zeroed(m, x, v.len[x]), v.(kind := v.kind[x := Limbo]);
    assert PageOk(m, v, x);
    forall z | z in v.free ensures 0 <= z < m.pages && r.next[z] == m.next[z] && r.prev[z] == m.prev[z] {
      assert Listed(v, z) && PageOk(m, v, z);
      RunsApart(m, v, z, x);
    }
    Kept(m.next, m.prev, r.next, r.prev, m.pages, v.free);
    forall h | 0 <= h < m.pages ensures Listed(w, h) { assert Listed(v, h); }
    forall p | 0 <= p < m.pages ensures PageOk(r, w, p) { ZeroedPage(m, v, x, p); }
  }

  // Run b follows run a; f is the free one of the two, the other is in limbo.
  function Merged(m: Mem, a: Ref, b: Ref, f: Ref): (r: Mem)
    requires m.Sized() && 0 <= a < m.pages && 0 <= b < m.pages && (f == a || f == b)
    requires 0 <= m.prev[f] < |m.next| && 0 <= m.next[f] < |m.next|
  {
    var d := Detached(m, f);
    d.(slab := d.slab[a := m.slab[a] + m.slab[b]][b := 0], next := d.next[b := NULL], prev := d.prev[b := NULL], typ := d.typ[b := TYPE_PAGE])
  }

  ghost function MergedView(v: View, a: Ref, b: Ref, i: int): (r: View)
    requires v.Sized(|v.head|) && 0 <= a < |v.head| && 0 <= b < |v.head| && 0 <= i < |v.free|
  {
    View(Within(v.head, b, b + v.len[b], a, a), v.len[a := v.len[a] + v.len[b]], v.kind[a := Limbo], Without(v.free, i))
  }

  ghost predicate CanMerge(m: Mem, v: View, a: Ref, b: Ref, i: int) {
    && CanTake(m, v, i) && 0 <= a < m.pages && 0 <= b < m.pages && v.head[a] == a && v.head[b] == b && b == a + v.len[a]
    && ((v.free[i] == a && v.kind[b] == Limbo) || (v.free[i] == b && v.kind[a] == Limbo))
  }

  lemma MergedRunOk(m: Mem, v: View, a: Ref, b: Ref, i: int, p: int)
    requires CanMerge(m, v, a, b, i) && 0 <= p < m.pages
    ensures var w := MergedView(v, a, b, i); var h := w.head[p]; 0 <= h <= p && p < h + w.len[h] && RunOk(w, h)
  {
    assert PageOk(m, v, a) && PageOk(m, v, b) && PageOk(m, v, p);
    RunsApart(m, v, p, a);
    RunsApart(m, v, p, b);
  }

  lemma MergedMaximal(m: Mem, v: View, a: Ref, b: Ref, i: int, p: int)
    requires CanMerge(m, v, a, b, i) && 0 <= p < m.pages
    requires 0 <= MergedView(v, a, b, i).head[p] < m.pages
    ensures var w := MergedView(v, a, b, i); Maximal(w, w.head[p])
  {
    assert PageOk(m, v, a) && PageOk(m, v, b) && PageOk(m, v, p);
    RunsApart(m, v, p, a);
    RunsApart(m, v, p, b);
    var e := v.head[p] + v.len[v.head[p]];
    if e < m.pages { assert PageOk(m, v, e); RunsApart(m, v, e, b); }
  }

  lemma MergedFieldsIn(m: Mem, v: View, a: Ref, b: Ref, i: int, p: int)
    requires CanMerge(m, v, a, b, i) && 0 <= p < m.pages && (v.head[p] == a || v.head[p] == b)
    requires 0 <= MergedView(v, a, b, i).head[p] < m.pages
    ensures FieldsOk(Merged(m, a, b, v.free[i]), MergedView(v, a, b, i), p)
  {
    RingNeighbours(m, v, i);
    assert PageOk(m, v, a) && PageOk(m, v, b) && PageOk(m, v, p);
  }

  lemma MergedFieldsOut(m: Mem, v: View, a: Ref, b: Ref, i: int, p: int)
    requires CanMerge(m, v, a, b, i) && 0 <= p < m.pages && v.head[p] != a && v.head[p] != b
    requires 0 <= MergedView(v, a, b, i).head[p] < m.pages
    ensures FieldsOk(Merged(m, a, b, v.free[i]), MergedView(v, a, b, i), p)
  {
    RingNeighbours(m, v, i);
    assert PageOk(m, v, p) && PageOk(m, v, b);
    RunsApart(m, v, p, b);
    assert PageOk(m, v, a);
    RunsApart(m, v, p, a);
  }

  // Coalescing two adjacent runs, one free and one in limbo.
  lemma Merge(m: Mem, v: View, a: Ref, b: Ref, i: int)
    requires CanMerge(m, v, a, b, i)
    ensures RunsOk(Merged(m, a, b, v.free[i]), MergedView(v, a, b, i))
  {
    var r, w := Merged(m, a, b, v.free[i]), MergedView(v, a, b, i);
    assert PageOk(m, v, a) && PageOk(m, v, b);
    RingNeighbours(m, v, i);
    forall z | z in v.free && z != v.free[i] && 0 <= z < m.pages
      ensures r.next[z] == Detached(m, v.free[i]).next[z] && r.prev[z] == Detached(m, v.free[i]).prev[z]
    {
      assert Listed(v, z);
    }
    forall h | 0 <= h < m.pages
      ensures (w.head[h] == h && w.kind[h] == Free) <==> (v.head[h] == h && v.kind[h] == Free && h != v.free[i])
    {
      assert PageOk(m, v, h);
      RunsApart(m, v, h, b);
    }
    TakenFree(m, v, i, r, w);
    forall p | 0 <= p < m.pages ensures PageOk(r, w, p) {
      MergedRunOk(m, v, a, b, i, p);
      MergedMaximal(m, v, a, b, i, p);
      if v.head[p] == a || v.head[p] == b { MergedFieldsIn(m, v, a, b, i, p); } else { MergedFieldsOut(m, v, a, b, i, p); }
    }
  }

  // ---- joining the free list ----

  function Published(m: Mem, x: Ref): (r: Mem)
    requires m.Sized() && 0 <= x < m.pages && 1 <= m.slab[x] && x + m.slab[x] <= m.pages && 0 <= m.next[m.pages] < |m.next|
  {
    var m1 := if m.slab[x] > 1 then m.(prev := m.prev[x + m.slab[x] - 1 := x]) else m;
    m1.(next := m1.next[x := m1.next[m.pages]][m.pages := x],
        prev := m1.prev[x := m.pages][m1.next[m.pages] := x],
        typ := m1.typ[x := TYPE_PAGE])
  }

  ghost function PublishedView(v: View, x: Ref): (r: View)
    requires v.Sized(|v.head|) && 0 <= x < |v.head|
  {
    v.(kind := v.kind[x := Free], free := [x] + v.free)
  }

  // The run in limbo has no free neighbour.
  ghost predicate CanPublish(m: Mem, v: View, x: Ref) {
    && RunsOk(m, v) && 0 <= x < m.pages && v.head[x] == x && v.kind[x] == Limbo
    && 1 <= v.len[x] && x + v.len[x] <= m.pages && m.slab[x] == v.len[x] && 0 <= m.next[m.pages] <= m.pages
    && (x + v.len[x] < m.pages ==> 0 <= v.head[x + v.len[x]] < m.pages && v.kind[v.head[x + v.len[x]]] != Free)
    && (x > 0 ==> 0 <= v.head[x - 1] < m.pages && v.kind[v.head[x - 1]] != Free)
  }

  lemma PublishedMaximal(m: Mem, v: View, x: Ref, p: int)
    requires CanPublish(m, v, x) && 0 <= p < m.pages && 0 <= v.head[p] < m.pages
    ensures Maximal(PublishedView(v, x), v.head[p])
  {
    assert PageOk(m, v, x) && PageOk(m, v, p);
    var g := v.head[p];
    var e := g + v.len[g];
    if e < m.pages {
      assert PageOk(m, v, e);
      RunsApart(m, v, e, x);
      assert v.head[e - 1] == g;
    }
  }

  lemma PublishedFields(m: Mem, v: View, x: Ref, p: int)
    requires CanPublish(m, v, x) && 0 <= p < m.pages && 0 <= v.head[p] < m.pages
    ensures FieldsOk(Published(m, x), PublishedView(v, x), p)
  {
    assert PageOk(m, v, x) && PageOk(m, v, p);
    RunsApart(m, v, p, x);
    if v.free != [] { assert v.free[0] in v.free; assert Listed(v, v.free[0]); }
  }

  lemma Publish(m: Mem, v: View, x: Ref)
    requires CanPublish(m, v, x)
    ensures RunsOk(Published(m, x), PublishedView(v, x))
  {
    var r, w := Published(m, x), PublishedView(v, x);
    assert PageOk(m, v, x) && Listed(v, x);
    Pushed(m.next, m.prev, m.pages, v.free, x);
    var next', prev' := m.next[x := m.next[m.pages]][m.pages := x], m.prev[x := m.pages][m.next[m.pages] := x];
    forall z | z in w.free ensures 0 <= z < m.pages && r.next[z] == next'[z] && r.prev[z] == prev'[z] {
      if z != x { assert z in v.free; assert Listed(v, z) && PageOk(m, v, z); RunsApart(m, v, z, x); }
    }
    Kept(next', prev', r.next, r.prev, m.pages, w.free);
    forall h | 0 <= h < m.pages ensures Listed(w, h) { assert Listed(v, h); }
    forall p | 0 <= p < m.pages ensures PageOk(r, w, p) {
      assert PageOk(m, v, p);
      PublishedMaximal(m, v, x, p);
      PublishedFields(m, v, x, p);
    }
  }

  // ---- what the steps keep ----

  ghost predicate IsFree(v: View, p: int)
    requires v.Sized(|v.head|) && 0 <= p < |v.head|
  {
    0 <= v.head[p] < |v.head| && v.kind[v.head[p]] == Free
  }

  // Descriptors of chunk pages and of the slot lists, and the runs in use, stay as they are.
  ghost predicate SameAt(m: Mem, r: Mem, q: int)
    requires m.Sized() && r.Sized() && |r.slab| == |m.slab| && 0 <= q < |m.slab|
  {
    r.slab[q] == m.slab[q] && r.next[q] == m.next[q] && r.prev[q] == m.prev[q] && r.typ[q] == m.typ[q]
  }

  ghost predicate SameRun(v: View, w: View, p: int)
    requires v.Sized(|v.head|) && w.Sized(|v.head|) && 0 <= p < |v.head|
  {
    w.head[p] == v.head[p] && (0 <= v.head[p] < |v.head| ==> w.len[v.head[p]] == v.len[v.head[p]] && w.kind[v.head[p]] == v.kind[v.head[p]])
  }

  // The step changes nothing outside the free runs and the pages a..b.
  ghost predicate Local(m: Mem, v: View, r: Mem, w: View, a: int, b: int) {
    && m.Sized() && r.Sized() && |r.slab| == |m.slab| && r.pages == m.pages && v.Sized(m.pages) && w.Sized(m.pages)
    && (forall q {:trigger SameAt(m, r, q)} :: m.pages < q < |m.slab| ==> SameAt(m, r, q))
    && (forall q {:trigger SameAt(m, r, q)} :: 0 <= q < m.pages && !(a <= q < b) && !IsFree(v, q) ==> SameAt(m, r, q))
    && (forall q {:trigger SameRun(v, w, q)} :: 0 <= q < m.pages && !(a <= q < b) && !IsFree(v, q) ==> SameRun(v, w, q))
    && (forall q {:trigger IsFree(w, q)} :: 0 <= q < m.pages && !(a <= q < b) ==> (IsFree(w, q) <==> IsFree(v, q)))
  }

  lemma SplitLocalAt(m: Mem, v: View, i: int, k: int, r: Mem, q: int)
    requires CanSplit(m, v, i, k) && AllSplit(m, r, v.free[i], k)
    requires 0 <= q < m.pages && !(v.free[i] <= q < v.free[i] + k)
    ensures var w := SplitView(v, i, k);
      (IsFree(w, q) <==> IsFree(v, q)) && (!IsFree(v, q) ==> SameAt(m, r, q) && SameRun(v, w, q))
  {
    var x := v.free[i];
    RingNeighbours(m, v, i);
    assert SplitAt(m, r, x, k, q);
    assert PageOk(m, v, x) && PageOk(m, v, q);
    RunsApart(m, v, q, x);
  }

  lemma SplitLocal(m: Mem, v: View, i: int, k: int)
    requires CanSplit(m, v, i, k)
    ensures Local(m, v, MarkedUsed(SplitOff(m, v.free[i], k), v.free[i], k), SplitView(v, i, k), v.free[i], v.free[i] + k)
  {
    var x := v.free[i];
    var r, w := MarkedUsed(SplitOff(m, x, k), x, k), SplitView(v, i, k);
    SplitEffect(m, v, i, k);
    RingNeighbours(m, v, i);
    forall q | m.pages < q < |m.slab| ensures SameAt(m, r, q) { assert SplitAt(m, r, x, k, q); }
    forall q | 0 <= q < m.pages && !(x <= q < x + k)
      ensures (IsFree(w, q) <==> IsFree(v, q)) && (!IsFree(v, q) ==> SameAt(m, r, q) && SameRun(v, w, q))
    {
      SplitLocalAt(m, v, i, k, r, q);
    }
  }

  lemma TakeLocal(m: Mem, v: View, i: int)
    requires CanTake(m, v, i)
    ensures Local(m, v, MarkedUsed(Detached(m, v.free[i]), v.free[i], v.len[v.free[i]]), TakenView(v, i, Used),
                  v.free[i], v.free[i] + v.len[v.free[i]])
  {
    var x := v.free[i];
    var r, w := MarkedUsed(Detached(m, x), x, v.len[x]), TakenView(v, i, Used);
    RingNeighbours(m, v, i);
    assert PageOk(m, v, x);
    forall q | 0 <= q < m.pages && !(x <= q < x + v.len[x])
      ensures (IsFree(w, q) <==> IsFree(v, q)) && (!IsFree(v, q) ==> SameAt(m, r, q) && SameRun(v, w, q))
    {
      assert PageOk(m, v, q);
      RunsApart(m, v, q, x);
    }
  }

  lemma MergeLocalAt(m: Mem, v: View, a: Ref, b: Ref, i: int, q: int)
    requires CanMerge(m, v, a, b, i) && 0 <= q < m.pages && !(a <= q < b + v.len[b])
    ensures var r, w := Merged(m, a, b, v.free[i]), MergedView(v, a, b, i);
      (IsFree(w, q) <==> IsFree(v, q)) && (!IsFree(v, q) ==> SameAt(m, r, q) && SameRun(v, w, q))
  {
    RingNeighbours(m, v, i);
    assert PageOk(m, v, a) && PageOk(m, v, b) && PageOk(m, v, q);
    RunsApart(m, v, q, a);
    RunsApart(m, v, q, b);
  }

  lemma MergeLocal(m: Mem, v: View, a: Ref, b: Ref, i: int)
    requires CanMerge(m, v, a, b, i)
    ensures Local(m, v, Merged(m, a, b, v.free[i]), MergedView(v, a, b, i), a, b + v.len[b])
  {
    var r, w := Merged(m, a, b, v.free[i]), MergedView(v, a, b, i);
    RingNeighbours(m, v, i);
    forall q | 0 <= q < m.pages && !(a <= q < b + v.len[b])
      ensures (IsFree(w, q) <==> IsFree(v, q)) && (!IsFree(v, q) ==> SameAt(m, r, q) && SameRun(v, w, q))
    {
      MergeLocalAt(m, v, a, b, i, q);
    }
  }

  // ---- counting free pages ----

  ghost function FreeCount(v: View, k: nat): nat
    requires v.Sized(|v.head|) && k <= |v.head|
  {
    if k == 0 then 0 else FreeCount(v, k - 1) + (if IsFree(v, k - 1) then 1 else 0)
  }

  function Overlap(a: int, b: int, k: int): int {
    if k <= a then 0 else if k < b then k - a else b - a
  }

  // Pages a..b leave the free ones; the others keep their state.
  ghost predicate Carved(v: View, w: View, a: int, b: int)
    requires v.Sized(|v.head|) && w.Sized(|v.head|)
  {
    forall p {:trigger IsFree(w, p)} :: 0 <= p < |v.head| ==>
      if a <= p < b then IsFree(v, p) && !IsFree(w, p) else (IsFree(w, p) <==> IsFree(v, p))
  }

  lemma {:induction false} CountChange(v: View, w: View, a: int, b: int, k: nat)
    requires v.Sized(|v.head|) && w.Sized(|v.head|) && k <= |v.head| && 0 <= a <= b <= |v.head|
    requires Carved(v, w, a, b)
    ensures FreeCount(v, k) == FreeCount(w, k) + Overlap(a, b, k)
  {
    if k > 0 {
      CountChange(v, w, a, b, k - 1);
      assert IsFree(w, k - 1) || !IsFree(w, k - 1);
    }
  }

  // With every run free there is one run, and it covers all the pages.
  lemma AllFree(m: Mem, v: View)
    requires RunsOk(m, v) && m.pages > 0
    requires forall p {:trigger IsFree(v, p)} :: 0 <= p < m.pages ==> IsFree(v, p)
    ensures v.head[0] == 0 && v.len[0] == m.pages && v.free == [0]
  {
    assert PageOk(m, v, 0);
    assert IsFree(v, 0);
    var e := v.len[0];
    assert e < m.pages ==> IsFree(v, e);
    assert Listed(v, 0);
    forall i | 0 <= i < |v.free| ensures v.free[i] == 0 {
      assert v.free[i] in v.free;
      assert Listed(v, v.free[i]);
    }
    assert v.free[0] == v.free[|v.free| - 1];
  }
}
