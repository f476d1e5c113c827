/** Memory pools of src/core/ngx_palloc.c: blocks filled from below, and large regions. */
module PoolState {

  const WORD := 0x1_0000_0000_0000_0000
  const ALIGNMENT := 8
  const POOL_STRUCT := 80
  const DATA_STRUCT := 32
  const LARGE_STRUCT := 16
  const MAX_FROM_POOL := 4095

  datatype Region = Region(addr: int, size: int)
  {
    predicate Apart(r: Region) { size <= 0 || r.size <= 0 || addr + size <= r.addr || r.addr + r.size <= addr }
  }

  datatype Block = Block(base: int, last: int, end: int, failed: int)
  {
    function All(): Region { Region(base, end - base) }
  }

  // The blocks in the order of their list, the regions taken from the system for large requests,
  // and all regions handed out.
  datatype State = State(blocks: seq<Block>, big: set<Region>, live: set<Region>)

  // The first block begins with the pool itself, the others with their list link.
  function Header(i: int): int { if i == 0 then POOL_STRUCT else DATA_STRUCT }

  ghost predicate BlockOk(s: State, i: int)
    requires 0 <= i < |s.blocks|
  {
    var b := s.blocks[i];
    b.base > 0 && b.base + Header(i) <= b.last <= b.end < WORD
  }

  ghost predicate BlocksApart(s: State, i: int, j: int) {
    0 <= i < |s.blocks| && 0 <= j < |s.blocks| && s.blocks[i].All().Apart(s.blocks[j].All())
  }

  ghost predicate BigOk(s: State, r: Region) {
    && r.addr > 0
    && (forall i {:trigger s.blocks[i]} :: 0 <= i < |s.blocks| ==> r.Apart(s.blocks[i].All()))
    && forall q {:trigger q in s.big} :: q in s.big && q != r ==> r.Apart(q)
  }

  ghost predicate InBlock(s: State, r: Region, i: int)
    requires 0 <= i < |s.blocks|
  {
    s.blocks[i].base + Header(i) <= r.addr && r.addr + r.size <= s.blocks[i].last
  }

  ghost predicate Placed(s: State, r: Region) {
    r.size >= 0 && (r in s.big || exists i :: 0 <= i < |s.blocks| && InBlock(s, r, i))
  }

  ghost predicate Inv(s: State) {
    && |s.blocks| > 0
    && (forall i {:trigger BlockOk(s, i)} :: 0 <= i < |s.blocks| ==> BlockOk(s, i))
    && (forall i, j {:trigger BlocksApart(s, i, j)} :: 0 <= i < j < |s.blocks| ==> BlocksApart(s, i, j))
    && (forall r {:trigger BigOk(s, r)} :: r in s.big ==> BigOk(s, r))
    && (forall r {:trigger Placed(s, r)} :: r in s.live ==> Placed(s, r))
    && (forall r, q {:trigger r.Apart(q)} :: r in s.live && q in s.live && r != q ==> r.Apart(q))
  }

  // ---- a region at the end of a block ----

  function Bumped(s: State, i: int, r: Region): State
    requires 0 <= i < |s.blocks|
  {
    s.(blocks := s.blocks[i := s.blocks[i].(last := r.addr + r.size)], live := s.live + {r})
  }

  ghost predicate CanBump(s: State, i: int, r: Region) {
    && Inv(s) && 0 <= i < |s.blocks| && r.size >= 0
    && s.blocks[i].last <= r.addr && r.addr + r.size <= s.blocks[i].end
  }

  // Nothing live reaches into the free part of a block.
  lemma AboveLast(s: State, i: int, r: Region, q: Region)
    requires CanBump(s, i, r) && q in s.live
    ensures r.Apart(q)
  {
    assert BlockOk(s, i) && Placed(s, q);
    if q in s.big {
      assert BigOk(s, q);
      assert q.Apart(s.blocks[i].All());
    } else {
      var j :| 0 <= j < |s.blocks| && InBlock(s, q, j);
      assert BlockOk(s, j);
      assert i < j ==> BlocksApart(s, i, j);
      assert j < i ==> BlocksApart(s, j, i);
    }
  }

  lemma StaysPlaced(s: State, i: int, last: int, live: set<Region>, q: Region)
    requires 0 <= i < |s.blocks| && s.blocks[i].last <= last && Placed(s, q)
    ensures Placed(State(s.blocks[i := s.blocks[i].(last := last)], s.big, live), q)
  {
    var t := State(s.blocks[i := s.blocks[i].(last := last)], s.big, live);
    if q !in s.big {
      var j :| 0 <= j < |s.blocks| && InBlock(s, q, j);
      assert InBlock(t, q, j);
    }
  }

  // The blocks as areas stay.
  lemma BumpedBlocks(s: State, i: int, last: int, live: set<Region>)
    requires Inv(s) && 0 <= i < |s.blocks| && s.blocks[i].last <= last <= s.blocks[i].end
    ensures var t := State(s.blocks[i := s.blocks[i].(last := last)], s.big, live);
      && (forall k {:trigger BlockOk(t, k)} :: 0 <= k < |t.blocks| ==> BlockOk(t, k))
      && (forall k, j {:trigger BlocksApart(t, k, j)} :: 0 <= k < j < |t.blocks| ==> BlocksApart(t, k, j))
      && (forall r {:trigger BigOk(t, r)} :: r in t.big ==> BigOk(t, r))
  {
    var t := State(s.blocks[i := s.blocks[i].(last := last)], s.big, live);
    forall k | 0 <= k < |t.blocks| ensures BlockOk(t, k) { assert BlockOk(s, k); }
    forall k, j | 0 <= k < j < |t.blocks| ensures BlocksApart(t, k, j) { assert BlocksApart(s, k, j); }
    forall r | r in t.big ensures BigOk(t, r) { assert BigOk(s, r); }
  }

  lemma Bump(s: State, i: int, r: Region)
    requires CanBump(s, i, r)
    ensures Inv(Bumped(s, i, r)) && forall q {:trigger r.Apart(q)} :: q in s.live ==> r.Apart(q)
  {
    var t := Bumped(s, i, r);
    assert BlockOk(s, i);
    BumpedBlocks(s, i, r.addr + r.size, t.live);
    forall q | q in s.live ensures r.Apart(q) { AboveLast(s, i, r, q); }
    forall q | q in t.live ensures Placed(t, q) {
      if q in s.live {
        StaysPlaced(s, i, r.addr + r.size, t.live, q);
      } else {
        assert InBlock(t, r, i);
      }
    }
  }

  // ---- a block or a large region from the system ----

  // Memory the system gives is nowhere in use.
  ghost predicate Unused(s: State, r: Region) {
    && r.addr > 0 && r.addr % 16 == 0 && r.addr + r.size < WORD
    && (forall i {:trigger s.blocks[i]} :: 0 <= i < |s.blocks| ==> r.Apart(s.blocks[i].All()))
    && forall q {:trigger q in s.big} :: q in s.big ==> r.Apart(q)
  }

  function WithBlock(s: State, b: Block, r: Region): State {
    s.(blocks := s.blocks + [b], live := s.live + {r})
  }

  lemma AddBlock(s: State, b: Block, r: Region)
    requires Inv(s) && Unused(s, b.All()) && b.base + DATA_STRUCT <= r.addr && r.size >= 0
    requires r.addr + r.size == b.last <= b.end
    ensures Inv(WithBlock(s, b, r)) && forall q {:trigger r.Apart(q)} :: q in s.live ==> r.Apart(q)
  {
    var t, n := WithBlock(s, b, r), |s.blocks|;
    forall k | 0 <= k < |t.blocks| ensures BlockOk(t, k) { assert k < n ==> BlockOk(s, k); }
    forall k, j | 0 <= k < j < |t.blocks| ensures BlocksApart(t, k, j) {
      assert k < n && (j < n ==> BlocksApart(s, k, j));
      assert b.All().Apart(s.blocks[k].All());
    }
    forall q | q in t.big ensures BigOk(t, q) { assert BigOk(s, q) && b.All().Apart(q); }
    forall q | q in s.live ensures r.Apart(q) && Placed(t, q) { NewApart(s, b, r, q); }
    assert InBlock(t, r, n);
  }

  lemma NewApart(s: State, b: Block, r: Region, q: Region)
    requires Inv(s) && Unused(s, b.All()) && b.base <= r.addr && r.addr + r.size <= b.end && q in s.live && r.size >= 0
    ensures r.Apart(q) && Placed(WithBlock(s, b, r), q)
  {
    assert Placed(s, q);
    if q in s.big {
      assert b.All().Apart(q);
    } else {
      var j :| 0 <= j < |s.blocks| && InBlock(s, q, j);
      assert BlockOk(s, j) && b.All().Apart(s.blocks[j].All());
      assert InBlock(WithBlock(s, b, r), q, j);
    }
  }

  function WithBig(s: State, r: Region): State { s.(big := s.big + {r}, live := s.live + {r}) }

  lemma AddBig(s: State, r: Region)
    requires Inv(s) && Unused(s, r) && r.size >= 0
    ensures Inv(WithBig(s, r)) && forall q {:trigger r.Apart(q)} :: q in s.live ==> r.Apart(q)
  {
    var t := WithBig(s, r);
    forall k | 0 <= k < |t.blocks| ensures BlockOk(t, k) { assert BlockOk(s, k); }
    forall k, j | 0 <= k < j < |t.blocks| ensures BlocksApart(t, k, j) { assert BlocksApart(s, k, j); }
    forall q | q in t.big ensures BigOk(t, q) { assert q in s.big ==> BigOk(s, q) && r.Apart(q); }
    forall q | q in s.live ensures r.Apart(q) && Placed(t, q) { BigApart(s, r, q); }
  }

  lemma BigApart(s: State, r: Region, q: Region)
    requires Inv(s) && Unused(s, r) && q in s.live && r.size >= 0
    ensures r.Apart(q) && Placed(WithBig(s, r), q)
  {
    assert Placed(s, q);
    if q in s.big {
      assert r.Apart(q);
    } else {
      var j :| 0 <= j < |s.blocks| && InBlock(s, q, j);
      assert BlockOk(s, j) && r.Apart(s.blocks[j].All());
      assert InBlock(WithBig(s, r), q, j);
    }
  }

  // A large region goes back to the system.
  lemma DropBig(s: State, r: Region)
    requires Inv(s) && r in s.big
    ensures Inv(s.(big := s.big - {r}, live := s.live - {r}))
  {
    var t := s.(big := s.big - {r}, live := s.live - {r});
    forall k | 0 <= k < |t.blocks| ensures BlockOk(t, k) { assert BlockOk(s, k); }
    forall k, j | 0 <= k < j < |t.blocks| ensures BlocksApart(t, k, j) { assert BlocksApart(s, k, j); }
    forall q | q in t.big ensures BigOk(t, q) { assert BigOk(s, q); }
    forall q | q in t.live ensures Placed(t, q) {
      assert Placed(s, q);
      if q !in s.big {
        var j :| 0 <= j < |s.blocks| && InBlock(s, q, j);
        assert InBlock(t, q, j);
      }
    }
  }

  // ---- growth in place ----

  // A live region with bytes that ends where the free part of block 0 begins lies in block 0, and it
  // can take more of it.
  function Extended(s: State, r: Region, n: int): State
    requires |s.blocks| > 0
  {
    s.(blocks := s.blocks[0 := s.blocks[0].(last := s.blocks[0].last + n)], live := s.live - {r} + {Region(r.addr, r.size + n)})
  }

  lemma LastIsHere(s: State, r: Region)
    requires Inv(s) && r in s.live && r.size > 0 && r.addr + r.size == s.blocks[0].last
    ensures InBlock(s, r, 0)
  {
    assert BlockOk(s, 0) && Placed(s, r);
    assert r in s.big ==> BigOk(s, r);
    if j :| 0 <= j < |s.blocks| && InBlock(s, r, j) {
      assert BlockOk(s, j);
      assert j > 0 ==> BlocksApart(s, 0, j);
    }
  }

  lemma ExtendApart(s: State, r: Region, n: int, q: Region)
    requires Inv(s) && r in s.live && r.size > 0 && r.addr + r.size == s.blocks[0].last && n >= 0
    requires s.blocks[0].last + n <= s.blocks[0].end && q in s.live && q != r
    ensures Region(r.addr, r.size + n).Apart(q)
  {
    var more := Region(s.blocks[0].last, n);
    AboveLast(s, 0, more, q);
    assert r.Apart(q);
    LastIsHere(s, r);
    assert Placed(s, q) && BlockOk(s, 0);
    if q in s.big {
      assert BigOk(s, q) && q.Apart(s.blocks[0].All());
    } else {
      var j :| 0 <= j < |s.blocks| && InBlock(s, q, j);
      assert BlockOk(s, j);
      assert j > 0 ==> BlocksApart(s, 0, j);
    }
  }

  lemma Extend(s: State, r: Region, n: int)
    requires Inv(s) && r in s.live && r.size > 0 && r.addr + r.size == s.blocks[0].last && n >= 0
    requires s.blocks[0].last + n <= s.blocks[0].end
    ensures Inv(Extended(s, r, n))
  {
    var t, e := Extended(s, r, n), Region(r.addr, r.size + n);
    assert BlockOk(s, 0);
    BumpedBlocks(s, 0, s.blocks[0].last + n, t.live);
    forall q | q in s.live && q != r ensures e.Apart(q) && Placed(t, q) {
      ExtendApart(s, r, n, q);
      assert Placed(s, q);
      StaysPlaced(s, 0, s.blocks[0].last + n, t.live, q);
    }
    LastIsHere(s, r);
    assert InBlock(t, e, 0);
  }

  // ---- a pool as it is created ----

  lemma FirstBlock(b: Block)
    requires b.base > 0 && b.last == b.base + POOL_STRUCT && b.last <= b.end < WORD
    ensures Inv(State([b], {}, {}))
  {
    var s := State([b], {}, {});
    assert BlockOk(s, 0);
  }
}
