/** The per-slot statistics of src/core/ngx_slab.c: "used" counts the live chunks of a size and
    "total" the chunks its pages have room for. */
module SlabStats {
  import opened Basics
  import opened SlabRing
  import opened SlabRuns
  import opened SlabPool
  import opened SlabBlocks
  import C = SlabChunks

  function Room(s: C.Shift): int { C.Cap(s) - C.First(s) }

  // What page p adds to a counter of the chunks of size 2^s.
  ghost function Share(v: View, c: Chunks, s: C.Shift, room: bool, p: int): int
    requires v.Sized(|v.head|) && |c.shift| == |c.live| == |v.head|
  {
    if IsChunk(v, p) && c.shift[p] == s then (if room then Room(s) else |c.live[p]|) else 0
  }

  ghost function Sum(v: View, c: Chunks, s: C.Shift, room: bool, n: nat): int
    requires v.Sized(|v.head|) && |c.shift| == |c.live| == |v.head| && n <= |v.head|
  {
    if n == 0 then 0 else Sum(v, c, s, room, n - 1) + Share(v, c, s, room, n - 1)
  }

  ghost predicate SlotStats(v: View, c: Chunks, min: C.Shift, used: seq<int>, total: seq<int>, k: int)
    requires v.Sized(|v.head|) && |c.shift| == |c.live| == |v.head|
    requires |used| == |total| == 12 - min && 0 <= k < |used|
  {
    used[k] == Sum(v, c, min + k, false, |v.head|) && total[k] == Sum(v, c, min + k, true, |v.head|)
  }

  ghost predicate StatsOk(v: View, c: Chunks, min: C.Shift, used: seq<int>, total: seq<int>) {
    && v.Sized(|v.head|) && |c.shift| == |c.live| == |v.head| && |used| == |total| == 12 - min
    && forall k {:trigger SlotStats(v, c, min, used, total, k)} :: 0 <= k < |used| ==> SlotStats(v, c, min, used, total, k)
  }

  // Pages other than x are chunk pages as before.
  ghost predicate SamePage(v: View, c: Chunks, w: View, e: Chunks, p: int)
    requires Comparable(v, c, w, e)
  {
    (IsChunk(w, p) <==> IsChunk(v, p)) && (IsChunk(v, p) ==> e.shift[p] == c.shift[p] && e.live[p] == c.live[p])
  }

  ghost predicate SamePages(v: View, c: Chunks, w: View, e: Chunks, x: int)
    requires Comparable(v, c, w, e)
  {
    forall p {:trigger SamePage(v, c, w, e, p)} :: 0 <= p < |v.head| && p != x ==> SamePage(v, c, w, e, p)
  }

  lemma {:induction false} SumChange(v: View, c: Chunks, w: View, e: Chunks, s: C.Shift, room: bool, x: int, n: nat)
    requires Comparable(v, c, w, e) && SamePages(v, c, w, e, x) && n <= |v.head|
    ensures Sum(w, e, s, room, n) == Sum(v, c, s, room, n) + (if 0 <= x < n then Share(w, e, s, room, x) - Share(v, c, s, room, x) else 0)
  {
    if n > 0 {
      SumChange(v, c, w, e, s, room, x, n - 1);
      assert n - 1 != x ==> SamePage(v, c, w, e, n - 1);
    }
  }

  // Counter k of a slot moves from a to b as the share of page x does.
  ghost predicate Moved(v: View, c: Chunks, w: View, e: Chunks, min: C.Shift, x: int, room: bool, a: seq<int>, b: seq<int>, k: int)
    requires Comparable(v, c, w, e) && |a| == |b| == 12 - min && 0 <= k < |a|
  {
    b[k] == a[k] + Share(w, e, min + k, room, x) - Share(v, c, min + k, room, x)
  }

  // The counters follow a change of page x alone.
  lemma StatsChange(v: View, c: Chunks, w: View, e: Chunks, min: C.Shift, x: int,
                    used: seq<int>, total: seq<int>, used': seq<int>, total': seq<int>)
    requires Comparable(v, c, w, e) && 0 <= x < |v.head| && SamePages(v, c, w, e, x) && StatsOk(v, c, min, used, total)
    requires |used'| == |used| && |total'| == |total|
    requires forall k {:trigger Moved(v, c, w, e, min, x, false, used, used', k)} :: 0 <= k < |used| ==> Moved(v, c, w, e, min, x, false, used, used', k)
    requires forall k {:trigger Moved(v, c, w, e, min, x, true, total, total', k)} :: 0 <= k < |total| ==> Moved(v, c, w, e, min, x, true, total, total', k)
    ensures StatsOk(w, e, min, used', total')
  {
    forall k | 0 <= k < |used| ensures SlotStats(w, e, min, used', total', k) {
      assert SlotStats(v, c, min, used, total, k);
      assert Moved(v, c, w, e, min, x, false, used, used', k) && Moved(v, c, w, e, min, x, true, total, total', k);
      SumChange(v, c, w, e, min + k, false, x, |v.head|);
      SumChange(v, c, w, e, min + k, true, x, |v.head|);
    }
  }

  lemma GivenPages(m: Mem, v: View, r: Mem, w: View, c: Chunks, e: Chunks, x: int, k: int)
    requires RunsOk(r, w) && Given(m, v, r, w, x, k) && Comparable(v, c, w, e)
    requires forall p {:trigger e.shift[p]} :: 0 <= p < m.pages && p != x ==> e.shift[p] == c.shift[p] && e.live[p] == c.live[p]
    ensures SamePages(v, c, w, e, x) && !IsChunk(v, x)
  {
    assert PageOk(r, w, x);
    assert IsFree(v, x);
    forall p | 0 <= p < m.pages && p != x ensures SamePage(v, c, w, e, p) {
      assert e.shift[p] == c.shift[p];
      if x <= p < x + k {
        assert IsFree(v, p) && w.head[p] == x;
      } else if IsFree(v, p) {
        assert IsFree(w, p);
      } else {
        assert SameRun(v, w, p);
      }
    }
  }

  lemma FreedPages(m: Mem, v: View, w: View, c: Chunks, e: Chunks, x: int, k: int)
    requires RunsOk(m, v) && Freed(v, w, x, k) && Comparable(v, c, w, e) && e.shift == c.shift && e.live == c.live
    requires 0 <= x < m.pages && v.head[x] == x && v.len[x] == k
    ensures SamePages(v, c, w, e, x) && !IsChunk(w, x)
  {
    assert PageOk(m, v, x);
    assert IsFree(w, x);
    forall p | 0 <= p < m.pages && p != x ensures SamePage(v, c, w, e, p) {
      if x <= p < x + k {
        assert v.head[p] == x && IsFree(w, p);
      } else if IsFree(v, p) {
        assert IsFree(w, p);
      } else {
        assert SameRun(v, w, p);
      }
    }
  }

  // Runs of pages do not count.
  lemma RunStats(m: Mem, v: View, r: Mem, w: View, c: Chunks, min: C.Shift, x: int, k: int, used: seq<int>, total: seq<int>)
    requires RunsOk(r, w) && Given(m, v, r, w, x, k) && Comparable(v, c, w, c) && StatsOk(v, c, min, used, total)
    ensures StatsOk(w, c, min, used, total)
  {
    GivenPages(m, v, r, w, c, c, x, k);
    StatsChange(v, c, w, c, min, x, used, total, used, total);
  }

  lemma FreedRunStats(m: Mem, v: View, w: View, c: Chunks, min: C.Shift, x: int, k: int, used: seq<int>, total: seq<int>)
    requires RunsOk(m, v) && Freed(v, w, x, k) && Comparable(v, c, w, c) && StatsOk(v, c, min, used, total)
    requires 0 <= x < m.pages && v.head[x] == x && v.len[x] == k && v.kind[x] == Used
    ensures StatsOk(w, c, min, used, total)
  {
    FreedPages(m, v, w, c, c, x, k);
    StatsChange(v, c, w, c, min, x, used, total, used, total);
  }

  // One live chunk more on a chunk page.
  lemma TakenStats(v: View, c: Chunks, e: Chunks, min: C.Shift, x: int, i: nat, used: seq<int>, total: seq<int>)
    requires Comparable(v, c, v, e) && IsChunk(v, x) && ShiftOk(c, min, x) && StatsOk(v, c, min, used, total)
    requires e.shift == c.shift && i !in c.live[x] && e.live == c.live[x := c.live[x] + {i}]
    ensures StatsOk(v, e, min, used[c.shift[x] - min := used[c.shift[x] - min] + 1], total)
  {
    forall p | 0 <= p < |v.head| && p != x ensures SamePage(v, c, v, e, p) { }
    StatsChange(v, c, v, e, min, x, used, total, used[c.shift[x] - min := used[c.shift[x] - min] + 1], total);
  }

  // One live chunk less on a page that keeps others.
  lemma DroppedStats(v: View, c: Chunks, e: Chunks, min: C.Shift, x: int, i: nat, used: seq<int>, total: seq<int>)
    requires Comparable(v, c, v, e) && IsChunk(v, x) && ShiftOk(c, min, x) && StatsOk(v, c, min, used, total)
    requires e.shift == c.shift && i in c.live[x] && e.live == c.live[x := c.live[x] - {i}]
    ensures StatsOk(v, e, min, used[c.shift[x] - min := used[c.shift[x] - min] - 1], total)
  {
    forall p | 0 <= p < |v.head| && p != x ensures SamePage(v, c, v, e, p) { }
    StatsChange(v, c, v, e, min, x, used, total, used[c.shift[x] - min := used[c.shift[x] - min] - 1], total);
  }

  // A free page becomes a chunk page with one live chunk.
  lemma FreshStats(m: Mem, v: View, r: Mem, w: View, c: Chunks, e: Chunks, min: C.Shift, x: int, s: C.Shift, i: nat,
                   used: seq<int>, total: seq<int>)
    requires RunsOk(r, w) && Given(m, v, r, w, x, 1) && Comparable(v, c, w, e) && min <= s && StatsOk(v, c, min, used, total)
    requires e.shift == c.shift[x := s] && e.live == c.live[x := {i}]
    ensures StatsOk(w.(kind := w.kind[x := Chunk]), e, min, used[s - min := used[s - min] + 1], total[s - min := total[s - min] + Room(s)])
  {
    var u := w.(kind := w.kind[x := Chunk]);
    GivenPages(m, v, r, w, c, e, x, 1);
    forall p | 0 <= p < |v.head| && p != x ensures SamePage(v, c, u, e, p) { assert SamePage(v, c, w, e, p); }
    StatsChange(v, c, u, e, min, x, used, total, used[s - min := used[s - min] + 1], total[s - min := total[s - min] + Room(s)]);
  }

  // A chunk page with one live chunk is freed.
  lemma EmptiedStats(m: Mem, v: View, w: View, c: Chunks, e: Chunks, min: C.Shift, x: int, s: C.Shift, i: nat,
                     used: seq<int>, total: seq<int>)
    requires RunsOk(m, v) && Freed(v, w, x, 1) && Comparable(v, c, w, e) && e.shift == c.shift && e.live == c.live
    requires IsChunk(v, x) && c.shift[x] == s && min <= s && c.live[x] == {i} && StatsOk(v, c, min, used, total)
    ensures StatsOk(w, e, min, used[s - min := used[s - min] - 1], total[s - min := total[s - min] - Room(s)])
  {
    assert PageOk(m, v, x);
    FreedPages(m, v, w, c, e, x, 1);
    StatsChange(v, c, w, e, min, x, used, total, used[s - min := used[s - min] - 1], total[s - min := total[s - min] - Room(s)]);
  }

  // ---- what the counters say ----

  ghost function Range(a: nat, b: nat): (r: set<nat>)
    requires a <= b
    ensures |r| == b - a && forall i :: i in r <==> a <= i < b
  {
    if a == b then {} else Range(a, b - 1) + {b - 1}
  }

  // A page has room for its chunks, and no more, exactly when all of them are live.
  lemma RoomCounts(s: C.Shift, live: set<nat>)
    requires C.InRange(s, live)
    ensures |live| <= Room(s) && (C.Full(s, live) <==> |live| == Room(s))
  {
    var all := Range(C.First(s), C.Cap(s));
    assert live <= all;
    SubsetSize(live, all);
    if C.Full(s, live) {
      assert all <= live;
      assert live == all;
    } else if |live| == Room(s) {
      SameSize(live, all);
    }
  }

  lemma SameSize(a: set<nat>, b: set<nat>)
    requires a <= b && |a| == |b|
    ensures a == b
  {
    if x :| x in b && x !in a {
      SubsetSize(a, b - {x});
    }
  }

  // No slot has more chunks live than its pages have room for.
  lemma {:induction false} UsedWithin(v: View, c: Chunks, s: C.Shift, n: nat)
    requires v.Sized(|v.head|) && |c.shift| == |c.live| == |v.head| && n <= |v.head|
    requires forall p {:trigger IsChunk(v, p)} :: 0 <= p < n && IsChunk(v, p) && c.shift[p] == s ==> C.InRange(s, c.live[p])
    ensures Sum(v, c, s, false, n) <= Sum(v, c, s, true, n)
  {
    if n > 0 {
      UsedWithin(v, c, s, n - 1);
      if IsChunk(v, n - 1) && c.shift[n - 1] == s { RoomCounts(s, c.live[n - 1]); }
    }
  }
}
