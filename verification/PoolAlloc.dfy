/** ngx_palloc, ngx_pnalloc and ngx_pfree of src/core/ngx_palloc.c and the arrays of
    src/core/ngx_array.c that live in a pool. The system's allocator does not run out. */
module PoolAlloc {
  import opened PoolState

  // ngx_align_ptr(m, NGX_ALIGNMENT)
  function Aligned(m: int): (r: int)
    ensures m <= r < m + ALIGNMENT && r % ALIGNMENT == 0
  {
    (m + ALIGNMENT - 1) / ALIGNMENT * ALIGNMENT
  }

  // (size_t) (end - m)
  function Room(end: int, m: int): (r: int)
    ensures 0 <= r < WORD
  {
    (end - m) % WORD
  }

  // Up to an aligned end alignment does not pass it, so that the room is what it seems.
  lemma AlignedRoom(last: int, end: int)
    requires 0 <= last <= end < WORD && end % ALIGNMENT == 0
    ensures Aligned(last) <= end && Room(end, Aligned(last)) == end - Aligned(last) && Room(end, last) == end - last
  {
    AlignsBelow(last, end / ALIGNMENT);
    SmallMod(end - last);
    SmallMod(end - Aligned(last));
  }

  lemma AlignsBelow(last: int, k: int)
    requires last <= 8 * k
    ensures Aligned(last) <= 8 * k
  {
    EightsOf(k);
  }

  lemma SmallMod(x: int)
    requires 0 <= x < WORD
    ensures x % WORD == x
  {
  }

  // With an end that is not aligned the test lets a request of any size through.
  lemma UnalignedRoom(last: int, end: int)
    requires 0 <= last <= end < WORD && end % ALIGNMENT != 0 && end / ALIGNMENT * ALIGNMENT < last
    ensures Aligned(last) > end && Room(end, Aligned(last)) >= WORD - ALIGNMENT
  {
  }

  ghost predicate RoomRight(last: int, end: int) { Room(end, Aligned(last)) == end - Aligned(last) }

  // The test is right wherever the free space of a block begins exactly if its end is aligned.
  lemma RoomExactly(end: int)
    requires 0 <= end < WORD
    ensures (forall last {:trigger RoomRight(last, end)} :: 0 <= last <= end ==> RoomRight(last, end)) <==> end % ALIGNMENT == 0
  {
    if end % ALIGNMENT == 0 {
      forall last | 0 <= last <= end ensures RoomRight(last, end) { AlignedRoom(last, end); }
    } else {
      UnalignedRoom(end, end);
      assert !RoomRight(end, end);
    }
  }

  datatype Large = Large(node: int, region: Region, used: bool)

  // What the system answers: addresses for a block and for a large region.
  datatype System = System(block: int, big: int)

  // Every entry in use stands for a region of its own.
  ghost predicate LargeOk(big: set<Region>, large: seq<Large>, i: int)
    requires 0 <= i < |large|
  {
    large[i].used ==> large[i].region in big && forall j {:trigger large[j]} :: 0 <= j < |large| && j != i && large[j].used ==> large[j].region != large[i].region
  }

  ghost predicate LargeList(big: set<Region>, large: seq<Large>) {
    && (forall i {:trigger LargeOk(big, large, i)} :: 0 <= i < |large| ==> LargeOk(big, large, i))
    && forall r {:trigger r in big} :: r in big ==> r.size > 0
  }

  lemma LargePut(big: set<Region>, large: seq<Large>, r: Region, k: int)
    requires LargeList(big, large) && r !in big && r.size > 0 && 0 <= k < |large| && !large[k].used
    ensures LargeList(big + {r}, large[k := large[k].(region := r, used := true)])
  {
    var l := large[k := large[k].(region := r, used := true)];
    forall i | 0 <= i < |l| ensures LargeOk(big + {r}, l, i) {
      assert LargeOk(big, large, i);
      forall j | 0 <= j < |l| && j != i && l[j].used && l[i].used ensures l[j].region != l[i].region {
        assert LargeOk(big, large, j);
      }
    }
  }

  lemma LargePush(big: set<Region>, large: seq<Large>, r: Region, node: int)
    requires LargeList(big, large) && r !in big && r.size > 0
    ensures LargeList(big + {r}, [Large(node, r, true)] + large)
  {
    var l := [Large(node, r, true)] + large;
    forall i | 0 <= i < |l| ensures LargeOk(big + {r}, l, i) {
      forall j | 0 <= j < |l| && j != i && l[j].used && l[i].used ensures l[j].region != l[i].region {
        assert i > 0 ==> LargeOk(big, large, i - 1);
        assert j > 0 ==> LargeOk(big, large, j - 1);
        assert i > 0 && j > 0 ==> large[j - 1] == l[j];
      }
      assert i > 0 ==> LargeOk(big, large, i - 1);
    }
  }

  lemma LargeDrop(big: set<Region>, large: seq<Large>, k: int)
    requires LargeList(big, large) && 0 <= k < |large| && large[k].used
    ensures LargeList(big - {large[k].region}, large[k := large[k].(used := false)])
  {
    var l := large[k := large[k].(used := false)];
    forall i | 0 <= i < |l| ensures LargeOk(big - {large[k].region}, l, i) { assert LargeOk(big, large, i) && LargeOk(big, large, k); }
  }

  class Pool {
    const max: int
    const psize: int
    var blocks: seq<Block>
    var current: int
    var large: seq<Large>
    // The contents of memory.
    var mem: int -> int

    ghost var big: set<Region>
    ghost var live: set<Region>

    ghost function S(): State reads this { State(blocks, big, live) }

    ghost predicate Sound() reads this {
      && Inv(S()) && 0 <= current < |blocks|
      && psize >= POOL_STRUCT && blocks[0].end - blocks[0].base == psize
      && max == (if psize - POOL_STRUCT < MAX_FROM_POOL then psize - POOL_STRUCT else MAX_FROM_POOL)
      && LargeList(big, large)
    }

    // The size is a multiple of the alignment, so that every block has an aligned end.
    ghost predicate Valid() reads this {
      Sound() && psize % ALIGNMENT == 0 && EndsAligned(blocks)
    }

    // ngx_create_pool
    constructor (base: int, size: int)
      requires base > 0 && base % 16 == 0 && POOL_STRUCT <= size && base + size < WORD
      ensures Sound() && (size % ALIGNMENT == 0 ==> Valid()) && psize == size && live == {} && big == {} && current == 0
      ensures blocks == [Block(base, base + POOL_STRUCT, base + size, 0)]
    {
      EndOf(base, size);
      psize := size;
      max := if size - POOL_STRUCT < MAX_FROM_POOL then size - POOL_STRUCT else MAX_FROM_POOL;
      blocks := [Block(base, base + POOL_STRUCT, base + size, 0)];
      current, large, big, live := 0, [], {}, {};
      mem := a => 0;
      FirstBlock(Block(base, base + POOL_STRUCT, base + size, 0));
    }

    // What the system may answer.
    ghost predicate Honest(sys: System, size: int) reads this {
      && Unused(S(), Region(sys.block, psize)) && Unused(S(), Region(sys.big, size))
      && Region(sys.block, psize).Apart(Region(sys.big, size))
    }

    // A new region is apart from all others; nothing that was live changes.
    twostate predicate Gains(r: Region) reads this {
      && r in live && old(live) <= live && mem == old(mem)
      && forall q {:trigger r.Apart(q)} :: q in old(live) ==> r.Apart(q)
    }

    // ngx_palloc_small: the first block from the current one on that seems to have room gives it, and
    // a block is added if none does. The pool stays sound exactly if the room is there.
    method Small(size: int, align: bool, sys: int) returns (m: int)
      requires Sound() && 0 <= size && size + DATA_STRUCT <= psize && Unused(S(), Region(sys, psize))
      modifies this`blocks, this`current, this`live
      ensures m > 0 && (align ==> m % ALIGNMENT == 0) && OneMore(old(blocks), blocks, Region(sys, psize))
      ensures Sound() <==> Right(old(blocks), old(current), size, align)
      ensures Sound() ==> Gains(Region(m, size))
      ensures old(Valid()) ==> Valid()
      ensures |blocks| > |old(blocks)| <==> NoRoom(old(blocks), old(current), |old(blocks)|, size, align)
      ensures Takes(old(blocks), old(current), blocks, m, size, align) && (|blocks| == |old(blocks)| ==> current == old(current))
    {
      var p := current;
      while p < |blocks|
        invariant Sound() && current <= p <= |blocks| && unchanged(this) && NoRoom(blocks, current, p, size, align)
      {
        assert HasRoom(blocks, p, size, align) <==> Room(blocks[p].end, Start(blocks[p], align)) >= size;
        assert BlockOk(S(), p);
        m := Start(blocks[p], align);
        if Room(blocks[p].end, m) >= size {
          FromBlock(p, size, align);
          RightIs(old(blocks), old(current), p, size, align);
          return;
        }
        p := p + 1;
      }
      m := NewBlock(size, sys);
    }

    // p->d.last = m + size
    method FromBlock(p: int, size: int, align: bool)
      requires Sound() && 0 <= size && current <= p < |blocks| && FirstRoom(blocks, current, p, size, align)
      modifies this`blocks, this`live
      ensures var m := Start(old(blocks)[p], align);
        && blocks == old(blocks)[p := old(blocks)[p].(last := m + size)]
        && (Sound() <==> m <= blocks[p].end) && (Sound() ==> Gains(Region(m, size)))
      ensures old(Valid()) ==> Valid()
    {
      var m := Start(blocks[p], align);
      assert BlockOk(S(), p);
      StartRoom(blocks[p].last, blocks[p].end, align);
      if m <= blocks[p].end { Bump(S(), p, Region(m, size)); }
      blocks := blocks[p := blocks[p].(last := m + size)];
      live := live + {Region(m, size)};
      assert m > blocks[p].end ==> !BlockOk(S(), p);
    }

    // ngx_palloc_block: a block like the first; blocks that often had no room are passed over later.
    method NewBlock(size: int, sys: int) returns (m: int)
      requires Sound() && 0 <= size && size + DATA_STRUCT <= psize && Unused(S(), Region(sys, psize))
      modifies this`blocks, this`current, this`live
      ensures Sound() && (old(Valid()) ==> Valid()) && m > 0 && m % ALIGNMENT == 0 && Gains(Region(m, size))
      ensures OneMore(old(blocks), blocks, Region(sys, psize)) && |blocks| == |old(blocks)| + 1 && blocks[|blocks| - 1].failed == 0
      ensures Passed(old(blocks), old(current), current)
    {
      m := Aligned(sys + DATA_STRUCT);
      BlockFits(sys);
      EndOf(sys, psize);
      var b := Block(sys, m + size, sys + psize, 0);
      CountFailures();
      AddBlock(S(), b, Region(m, size));
      AreasPlus(old(blocks), blocks, b);
      blocks := blocks + [b];
      live := live + {Region(m, size)};
    }

    // Every block from the current one to the last but one failed once more; the one after the last
    // of those that had failed more than four times is current.
    method CountFailures()
      requires Sound()
      modifies this`blocks, this`current
      ensures Sound() && (old(Valid()) ==> Valid()) && SameAreas(old(blocks), blocks) && Passed(old(blocks), old(current), current)
      ensures Counted(old(blocks), blocks, old(current), |blocks| - 1)
      ensures forall r {:trigger Unused(S(), r)} :: old(Unused(S(), r)) ==> Unused(S(), r)
    {
      var p := current;
      while p + 1 < |blocks|
        invariant old(current) <= p < |blocks| == old(|blocks|) && old(current) <= current <= p
        invariant SameAreas(old(blocks), blocks) && Counted(old(blocks), blocks, old(current), p)
        invariant current > old(current) ==> old(blocks)[current - 1].failed > 4
        invariant forall i {:trigger old(blocks)[i]} :: current <= i < p ==> old(blocks)[i].failed <= 4
      {
        var f := blocks[p].failed;
        blocks := blocks[p := blocks[p].(failed := f + 1)];
        if f > 4 {
          current := p + 1;
        }
        p := p + 1;
      }
      SameInv(old(S()), S());
    }

    // ngx_palloc_large: an entry of the list that was freed is used again, if it is among the first.
    method Big(size: int, sys: System) returns (p: int)
      requires Valid() && size > 0 && Honest(sys, size)
      modifies this`blocks, this`current, this`live, this`large, this`big
      ensures Valid() && p > 0 && p % 16 == 0 && Gains(Region(p, size)) && Region(p, size) in big
      ensures LargeAt(large, p)
      ensures |large| == if HasSpare(old(large)) then |old(large)| else |old(large)| + 1
    {
      p := sys.big;
      var r := Region(p, size);
      assert r !in big by { assert r in big ==> r.Apart(r); }
      var n := 0;
      while n < |large| && n < 5
        invariant 0 <= n <= |large| && n <= 5 && unchanged(this) && forall i :: 0 <= i < n ==> large[i].used
      {
        if !large[n].used {
          AddBig(S(), r);
          LargePut(big, large, r, n);
          large := large[n := large[n].(region := r, used := true)];
          assert large[n].used && large[n].region.addr == p;
          big, live := big + {r}, live + {r};
          return;
        }
        n := n + 1;
      }
      var node := Small(LARGE_STRUCT, true, sys.block);
      StillUnused(old(S()), S(), r, sys.block, psize);
      AddBig(S(), r);
      LargePush(big, large, r, node);
      large := [Large(node, r, true)] + large;
      assert large[0].used && large[0].region.addr == p;
      big, live := big + {r}, live + {r};
    }

    // What a request within the limit does to the blocks.
    twostate predicate Took(p: int, size: int, align: bool) reads this {
      Takes(old(blocks), old(current), blocks, p, size, align) && (|blocks| == |old(blocks)| ==> current == old(current)) && big == old(big)
    }

    // ngx_palloc and ngx_pnalloc.
    method Alloc(size: int, align: bool, sys: System) returns (p: int)
      requires Valid() && size >= 0 && Honest(sys, size)
      modifies this`blocks, this`current, this`live, this`large, this`big
      ensures Valid() && p > 0 && (align ==> p % ALIGNMENT == 0) && Gains(Region(p, size))
      ensures size <= max ==> Took(p, size, align)
    {
      if size <= max {
        p := Small(size, align, sys.block);
      } else {
        p := Big(size, sys);
        SixteenIsEight(p);
      }
    }

    // ngx_palloc of "room" bytes, and the first n bytes at "from" are copied there.
    method Relocate(from: int, n: int, room: int, sys: System) returns (p: int)
      requires Valid() && 0 <= n <= room && Honest(sys, room)
      modifies this`blocks, this`current, this`live, this`large, this`big, this`mem
      ensures Valid() && Region(p, room) in live && old(live) <= live
      ensures forall q {:trigger SameIn(old(mem), mem, q)} :: q in old(live) ==> SameIn(old(mem), mem, q)
      ensures Bytes(mem, p, n) == Bytes(old(mem), from, n)
      ensures room <= max ==> Took(p, room, true)
    {
      p := Alloc(room, true, sys);
      CopyBytes(mem, p, from, n);
      forall q | q in old(live) ensures SameIn(mem, Copied(mem, p, from, n), q) {
        assert Region(p, room).Apart(q);
        CopyKeeps(mem, p, from, n, room, q);
      }
      mem := Copied(mem, p, from, n);
    }

    // Growth of the last region of the first block, which may be empty.
    method ExtendLast(ghost r: Region, n: int)
      requires Valid() && r.addr + r.size == blocks[0].last && n >= 0 && blocks[0].last + n <= blocks[0].end
      requires r.size >= 0 && (r.size > 0 ==> r in live)
      modifies this`blocks, this`live
      ensures Valid() && live == (if r.size > 0 then old(live) - {r} else old(live)) + {Region(r.addr, r.size + n)}
    {
      if r.size > 0 { Extend(S(), r, n); } else { Bump(S(), 0, Region(r.addr, n)); }
      blocks := blocks[0 := blocks[0].(last := blocks[0].last + n)];
      live := (if r.size > 0 then live - {r} else live) + {Region(r.addr, r.size + n)};
    }

    // ngx_pfree
    method Free(p: int) returns (ok: bool)
      requires Valid()
      modifies this`large, this`live, this`big
      ensures Valid() && (ok ==> exists r :: r in old(live) + old(big) && r.addr == p && live == old(live) - {r})
      ensures !ok ==> live == old(live)
      ensures ok <==> LargeAt(old(large), p)
    {
      var n := 0;
      while n < |large|
        invariant 0 <= n <= |large| && unchanged(this) && !LargeAt(large[..n], p)
      {
        if large[n].used && large[n].region.addr == p {
          var r := large[n].region;
          assert LargeOk(big, large, n);
          DropBig(S(), r);
          LargeDrop(big, large, n);
          large := large[n := large[n].(used := false)];
          big, live := big - {r}, live - {r};
          return true;
        }
        n := n + 1;
      }
      return false;
    }
  }

  // One of the first five entries is of a region freed before.
  ghost predicate HasSpare(large: seq<Large>) { exists n :: 0 <= n < |large| && n < 5 && !large[n].used }

  // A region that is not from a block, and not freed, begins at p.
  ghost predicate LargeAt(large: seq<Large>, p: int) {
    exists n :: 0 <= n < |large| && large[n].used && large[n].region.addr == p
  }

  ghost predicate EndsAligned(blocks: seq<Block>) {
    forall i {:trigger blocks[i]} :: 0 <= i < |blocks| ==> blocks[i].end % ALIGNMENT == 0
  }

  // Where a request would begin in a block.
  function Start(b: Block, align: bool): int { if align then Aligned(b.last) else b.last }

  predicate HasRoom(blocks: seq<Block>, i: int, size: int, align: bool) {
    0 <= i < |blocks| && Room(blocks[i].end, Start(blocks[i], align)) >= size
  }

  // Block p is the one that ngx_palloc_small takes.
  ghost predicate FirstRoom(blocks: seq<Block>, current: int, p: int, size: int, align: bool) {
    current <= p && HasRoom(blocks, p, size, align) && NoRoom(blocks, current, p, size, align)
  }

  // If a block is taken, the request begins within it.
  ghost predicate Right(blocks: seq<Block>, current: int, size: int, align: bool) {
    forall p {:trigger FirstRoom(blocks, current, p, size, align)} :: FirstRoom(blocks, current, p, size, align) ==> Start(blocks[p], align) <= blocks[p].end
  }

  // The block that is taken gives the request from the start of its free space.
  ghost predicate Takes(x: seq<Block>, current: int, y: seq<Block>, m: int, size: int, align: bool) {
    forall p {:trigger FirstRoom(x, current, p, size, align)} :: FirstRoom(x, current, p, size, align) ==>
      m == Start(x[p], align) && y == x[p := x[p].(last := m + size)]
  }

  lemma OneFirst(blocks: seq<Block>, current: int, p: int, size: int, align: bool)
    requires FirstRoom(blocks, current, p, size, align)
    ensures forall q {:trigger FirstRoom(blocks, current, q, size, align)} :: FirstRoom(blocks, current, q, size, align) ==> q == p
  {
    forall q | FirstRoom(blocks, current, q, size, align) ensures q == p {
      assert HasRoom(blocks, q, size, align) && HasRoom(blocks, p, size, align);
    }
  }

  lemma RightIs(blocks: seq<Block>, current: int, p: int, size: int, align: bool)
    requires FirstRoom(blocks, current, p, size, align)
    ensures Right(blocks, current, size, align) <==> Start(blocks[p], align) <= blocks[p].end
    ensures forall q {:trigger FirstRoom(blocks, current, q, size, align)} :: FirstRoom(blocks, current, q, size, align) ==> q == p
  {
    OneFirst(blocks, current, p, size, align);
  }

  // There is always room for nothing.
  lemma ZeroFits(blocks: seq<Block>, current: int, align: bool)
    requires 0 <= current < |blocks|
    ensures FirstRoom(blocks, current, current, 0, align)
  {
    assert HasRoom(blocks, current, 0, align);
  }

  // A start within the block leaves the room that the test computes.
  lemma StartRoom(last: int, end: int, align: bool)
    requires 0 <= last <= end < WORD
    ensures var m := if align then Aligned(last) else last;
      && (m <= end ==> Room(end, m) == end - m) && (end % ALIGNMENT == 0 ==> m <= end)
  {
    var m := if align then Aligned(last) else last;
    if m <= end { SmallMod(end - m); }
    if end % ALIGNMENT == 0 { AlignedRoom(last, end); }
  }

  ghost predicate NoRoom(blocks: seq<Block>, a: int, b: int, size: int, align: bool) {
    forall i {:trigger HasRoom(blocks, i, size, align)} :: a <= i < b ==> !HasRoom(blocks, i, size, align)
  }

  // Blocks a..b have failed once more.
  ghost predicate Counted(x: seq<Block>, y: seq<Block>, a: int, b: int) {
    |x| == |y| && forall i {:trigger y[i]} :: 0 <= i < |x| ==> y[i].failed == x[i].failed + if a <= i < b then 1 else 0
  }

  // From block a on block c is the first after those that had failed more than four times.
  ghost predicate Passed(x: seq<Block>, a: int, c: int) {
    && 0 <= a <= c < |x| && (c > a ==> x[c - 1].failed > 4)
    && forall i {:trigger x[i]} :: c <= i < |x| - 1 ==> x[i].failed <= 4
  }

  // The same areas, and at most one more.
  ghost predicate OneMore(a: seq<Block>, b: seq<Block>, more: Region) {
    && |a| <= |b| <= |a| + 1
    && forall i {:trigger b[i]} :: 0 <= i < |b| ==> b[i].All() == if i < |a| then a[i].All() else more
  }

  lemma AreasPlus(a: seq<Block>, b: seq<Block>, x: Block)
    requires SameAreas(a, b)
    ensures OneMore(a, b + [x], x.All())
  {
  }

  lemma BlockFits(base: int)
    requires base > 0 && base % 16 == 0
    ensures Aligned(base + DATA_STRUCT) == base + DATA_STRUCT
  {
    EightsOf(2 * (base / 16) + 4);
  }

  lemma EndOf(base: int, size: int)
    requires base % 16 == 0
    ensures (base + size) % ALIGNMENT == 0 <==> size % ALIGNMENT == 0
  {
    EightsMore(2 * (base / 16), size);
  }

  lemma EightsMore(k: int, size: int)
    ensures (8 * k + size) % 8 == size % 8
  {
  }

  lemma SixteenIsEight(p: int)
    ensures p % 16 == 0 ==> p % 8 == 0
  {
  }

  lemma EightsOf(k: int)
    ensures (8 * k + 7) / 8 == k
  {
  }

  // A region apart from a block that was added, or of a block that was filled, is still unused.
  lemma StillUnused(s: State, t: State, r: Region, base: int, psize: int)
    requires Unused(s, r) && t.big == s.big && OneMore(s.blocks, t.blocks, Region(base, psize))
    requires Region(base, psize).Apart(r)
    ensures Unused(t, r)
  {
  }

  // Only the counters of the blocks differ.
  ghost predicate SameAreas(a: seq<Block>, b: seq<Block>) {
    |a| == |b| && forall i {:trigger b[i]} :: 0 <= i < |a| ==> b[i] == a[i].(failed := b[i].failed)
  }

  lemma SameInv(s: State, t: State)
    requires Inv(s) && t == s.(blocks := t.blocks) && SameAreas(s.blocks, t.blocks)
    ensures Inv(t) && forall r {:trigger Unused(t, r)} :: Unused(s, r) ==> Unused(t, r)
  {
    forall k | 0 <= k < |t.blocks| ensures BlockOk(t, k) { assert BlockOk(s, k); }
    forall k, j | 0 <= k < j < |t.blocks| ensures BlocksApart(t, k, j) { assert BlocksApart(s, k, j); }
    forall q | q in t.big ensures BigOk(t, q) { assert BigOk(s, q); }
    forall q | q in t.live ensures Placed(t, q) {
      assert Placed(s, q);
      if q !in s.big {
        var j :| 0 <= j < |s.blocks| && InBlock(s, q, j);
        assert InBlock(t, q, j);
      }
    }
  }

  // ---- ngx_array.c ----

  // memcpy between regions that are apart
  function Copied(mem: int -> int, dst: int, src: int, n: int): int -> int {
    a => if dst <= a < dst + n then mem(src + (a - dst)) else mem(a)
  }

  lemma TimesNext(n: int, size: int, k: int)
    ensures (n + k) * size == n * size + k * size
  {
  }

  lemma TimesLe(a: int, b: int, size: int)
    requires a <= b && 0 <= size
    ensures a * size <= b * size
  {
  }

  function Byte(mem: int -> int, addr: int, i: int): int { mem(addr + i) }

  ghost function Bytes(mem: int -> int, addr: int, n: int): seq<int> {
    seq(if n < 0 then 0 else n, i => Byte(mem, addr, i))
  }

  lemma BytesPrefix(mem: int -> int, addr: int, a: int, b: int)
    requires 0 <= a <= b
    ensures |Bytes(mem, addr, a)| == a && |Bytes(mem, addr, b)| == b && Bytes(mem, addr, b)[..a] == Bytes(mem, addr, a)
  {
  }

  class Array {
    const pool: Pool
    const size: int
    var elts: int
    var nelts: int
    var nalloc: int

    ghost function Space(): Region reads this { Region(elts, nalloc * size) }

    // An array without capacity has no space of its own.
    ghost predicate Valid() reads this, pool {
      && pool.Valid() && size > 0 && 0 <= nelts <= nalloc
      && (nalloc > 0 ==> Space() in pool.live)
    }

    // The array ends where the free space of the first block begins, and that has n elements more.
    ghost predicate GrowsBy(n: int) reads this, pool {
      && pool.blocks != [] && elts + size * nalloc == pool.blocks[0].last && pool.blocks[0].last + n * size <= pool.blocks[0].end
    }

    // An element lies within the array.
    ghost predicate Inside(elt: int) reads this { elts <= elt && elt + size <= elts + nalloc * size }

    ghost function Contents(): seq<int> reads this, pool { Bytes(pool.mem, elts, nelts * size) }

    // ngx_array_init
    constructor (pool: Pool, n: int, size: int, sys: System)
      requires pool.Valid() && size > 0 && n >= 0 && pool.Honest(sys, n * size)
      modifies pool`blocks, pool`current, pool`live, pool`large, pool`big
      ensures Valid() && this.pool == pool && this.size == size && nelts == 0 && nalloc == n && pool.Gains(Space())
      ensures n * size <= pool.max ==> pool.Took(elts, n * size, true)
    {
      TimesLe(0, n, size);
      var p := pool.Alloc(n * size, true, sys);
      this.pool, this.size, elts, nelts, nalloc := pool, size, p, 0, n;
    }

    // Nothing else that is live moved or changed.
    twostate predicate OthersKept()
      reads this, pool
    {
      && (forall q {:trigger q in pool.live} :: q in old(pool.live) && q != old(Space()) ==> q in pool.live)
      && forall q {:trigger SameIn(old(pool.mem), pool.mem, q)} :: q in old(pool.live) ==> SameIn(old(pool.mem), pool.mem, q)
    }

    // The array is the last in its pool and there is space for n elements more.
    method GrowInPlace(n: int)
      requires Valid() && n >= 0 && GrowsBy(n)
      modifies this`nalloc, pool`blocks, pool`live
      ensures Valid() && nalloc == old(nalloc) + n && OthersKept()
    {
      TimesLe(0, nalloc, size);
      if nalloc > 0 { TimesLe(1, nalloc, size); }
      TimesLe(0, n, size);
      TimesNext(nalloc, size, n);
      pool.ExtendLast(Space(), n * size);
      nalloc := nalloc + n;
    }

    // The array moves to a place for m elements.
    method Move(m: int, sys: System)
      requires Valid() && m >= nalloc && pool.Honest(sys, m * size)
      modifies this`elts, this`nalloc, pool`blocks, pool`current, pool`live, pool`large, pool`big, pool`mem
      ensures Valid() && nalloc == m && OthersKept()
      ensures Contents() == old(Contents())
      ensures m * size <= pool.max ==> pool.Took(elts, m * size, true)
    {
      TimesLe(0, nelts, size);
      TimesLe(nelts, nalloc, size);
      TimesLe(nelts, m, size);
      elts := pool.Relocate(elts, nelts * size, m * size, sys);
      nalloc := m;
    }

    // ngx_array_push: the address of the new element. It lies within the array exactly if the array
    // had capacity or grew in place; otherwise it is where the free space of the pool begins.
    method Push(sys: System) returns (elt: int)
      requires Valid() && pool.Honest(sys, 2 * nalloc * size)
      modifies this`elts, this`nalloc, this`nelts, pool`blocks, pool`current, pool`live, pool`large, pool`big, pool`mem
      ensures pool.Valid() && nelts == old(nelts) + 1 && elt == elts + old(nelts) * size && nelts * size == old(nelts) * size + size
      ensures |Contents()| == |old(Contents())| + size && Contents()[..|old(Contents())|] == old(Contents()) && OthersKept()
      ensures Inside(elt) <==> old(nalloc > 0 || GrowsBy(1))
      ensures Valid() <==> Inside(elt)
      ensures nalloc == if old(nelts < nalloc) then old(nalloc) else if old(GrowsBy(1)) then old(nalloc) + 1 else 2 * old(nalloc)
      ensures old(nelts < nalloc || GrowsBy(1)) ==> elts == old(elts)
      ensures !Inside(elt) ==> nalloc == 0 && pool.Took(elt, 0, true) && 0 <= pool.current < |pool.blocks| && elt == pool.blocks[pool.current].last
    {
      ZeroFits(pool.blocks, pool.current, true);
      TimesNext(nelts, size, 1);
      TimesLe(0, nelts, size);
      if nelts == nalloc {
        if elts + size * nalloc == pool.blocks[0].last && pool.blocks[0].last + size <= pool.blocks[0].end {
          GrowInPlace(1);
        } else {
          Move(2 * nalloc, sys);
        }
      }
      elt := elts + size * nelts;
      BytesPrefix(pool.mem, elts, nelts * size, nelts * size + size);
      if nelts < nalloc { TimesLe(nelts + 1, nalloc, size); }
      nelts := nelts + 1;
    }

    // ngx_array_push_n: the address of the first of n new elements.
    method PushN(n: int, sys: System) returns (elt: int)
      requires Valid() && n >= 0 && pool.Honest(sys, Wanted(n) * size)
      modifies this`elts, this`nalloc, this`nelts, pool`blocks, pool`current, pool`live, pool`large, pool`big, pool`mem
      ensures Valid() && nelts == old(nelts) + n && elt == elts + old(nelts) * size && nelts * size == old(nelts) * size + n * size
      ensures n > 0 ==> Inside(elt) && elt + n * size <= elts + nalloc * size
      ensures nalloc == if old(nelts) + n <= old(nalloc) then old(nalloc) else if old(GrowsBy(n)) then old(nalloc) + n else 2 * (if n < old(nalloc) then old(nalloc) else n)
      ensures old(nelts) + n <= old(nalloc) || old(GrowsBy(n)) ==> elts == old(elts)
      ensures |Contents()| == |old(Contents())| + n * size && |old(Contents())| <= |Contents()| && Contents()[..|old(Contents())|] == old(Contents()) && OthersKept()
    {
      TimesNext(nelts, size, n);
      TimesLe(0, n, size);
      TimesLe(0, nelts, size);
      if nelts + n > nalloc {
        if elts + size * nalloc == pool.blocks[0].last && pool.blocks[0].last + n * size <= pool.blocks[0].end {
          GrowInPlace(n);
        } else {
          Move(Wanted(n), sys);
        }
      }
      elt := elts + size * nelts;
      BytesPrefix(pool.mem, elts, nelts * size, nelts * size + n * size);
      TimesLe(nelts + n, nalloc, size);
      if n > 0 { TimesLe(1, n, size); }
      nelts := nelts + n;
    }

    function Wanted(n: int): int reads this { 2 * (if n >= nalloc then n else nalloc) }
  }

  ghost predicate SameIn(mem: int -> int, mem': int -> int, q: Region) {
    forall a {:trigger mem'(a)} :: q.addr <= a < q.addr + q.size ==> mem'(a) == mem(a)
  }

  lemma CopyBytes(mem: int -> int, dst: int, src: int, n: int)
    requires n >= 0
    ensures Bytes(Copied(mem, dst, src, n), dst, n) == Bytes(mem, src, n)
  {
    forall i | 0 <= i < n ensures Byte(Copied(mem, dst, src, n), dst, i) == Byte(mem, src, i) {
      CopyByte(mem, dst, src, n, i);
    }
    SameBytes(Copied(mem, dst, src, n), dst, mem, src, n);
  }

  lemma CopyByte(mem: int -> int, dst: int, src: int, n: int, i: int)
    requires 0 <= i < n
    ensures Byte(Copied(mem, dst, src, n), dst, i) == Byte(mem, src, i)
  {
    assert src + (dst + i - dst) == src + i;
  }

  lemma SameBytes(mem: int -> int, a: int, mem': int -> int, b: int, n: int)
    requires forall i {:trigger Byte(mem, a, i)} :: 0 <= i < n ==> Byte(mem, a, i) == Byte(mem', b, i)
    ensures Bytes(mem, a, n) == Bytes(mem', b, n)
  {
  }

  lemma CopyKeeps(mem: int -> int, dst: int, src: int, n: int, room: int, q: Region)
    requires 0 <= n <= room && Region(dst, room).Apart(q)
    ensures SameIn(mem, Copied(mem, dst, src, n), q)
  {
  }

  // ---- where the promises end ----

  // An array without capacity, and another request behind it.
  method EmptyAndOther(sys: System) returns (a: Array)
    requires sys == System(8192, 16384)
    ensures fresh(a) && fresh(a.pool) && a.Valid() && a.size == 8 && a.nelts == a.nalloc == 0 && a.elts == 4176
    ensures a.pool.blocks == [Block(4096, 4192, 5120, 0)] && a.pool.big == {} && a.pool.current == 0 && a.pool.psize == 1024
  {
    var pool := new Pool(4096, 1024);
    assert pool.Honest(sys, 0 * 8);
    a := new Array(pool, 0, 8, sys);
    assert FirstRoom([Block(4096, 4176, 5120, 0)], 0, 0, 0, true);
    assert pool.blocks == [Block(4096, 4176, 5120, 0)];
    var other := pool.Alloc(16, true, sys);
    assert FirstRoom([Block(4096, 4176, 5120, 0)], 0, 0, 16, true);
  }

  // An element pushed then lies outside its array, and the next request gets its memory.
  method WithoutCapacity() returns (a: Array, elt: int, next: int)
    ensures fresh(a) && fresh(a.pool) && a.pool.Valid() && a.nelts == 1 && a.size == 8
    ensures !a.Inside(elt) && next == elt && Region(next, 8) in a.pool.live
  {
    var sys := System(8192, 16384);
    a := EmptyAndOther(sys);
    elt := a.Push(sys);
    assert FirstRoom([Block(4096, 4192, 5120, 0)], 0, 0, 0, true);
    assert a.pool.blocks == [Block(4096, 4192, 5120, 0)];
    next := a.pool.Alloc(8, true, sys);
    assert FirstRoom([Block(4096, 4192, 5120, 0)], 0, 0, 8, true);
  }

  // A pool whose size is not a multiple of the alignment: a byte moves the start of the free space
  // behind the last aligned address, and the next request begins behind the end of the block.
  method Misaligned() returns (pool: Pool, p: int)
    ensures fresh(pool) && |pool.blocks| == 1 && p > pool.blocks[0].end && !pool.Sound()
  {
    pool := new Pool(4096, 1028);
    var a := pool.Small(944, true, 8192);
    assert FirstRoom([Block(4096, 4176, 5124, 0)], 0, 0, 944, true);
    assert pool.blocks == [Block(4096, 5120, 5124, 0)];
    var b := pool.Small(1, false, 8192);
    assert FirstRoom([Block(4096, 5120, 5124, 0)], 0, 0, 1, false);
    assert pool.blocks == [Block(4096, 5121, 5124, 0)];
    p := pool.Small(8, true, 8192);
    assert FirstRoom([Block(4096, 5121, 5124, 0)], 0, 0, 8, true);
  }
}
