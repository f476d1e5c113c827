/** What the flat invariant says about the tree read recursively through its links. */
module RbMeaning {
  import opened Basics
  import opened RbShape
  import opened RbColor
  import opened RbSplice

  // In-order traversal by left and right links.
  ghost function Walk(m: Mem, g: Shadow, x: Ptr): seq<Ptr>
    requires Shape(m, g) && (x == m.nil || g.In(x))
    decreases if x == m.nil then 0 else g.hi[x] - g.lo[x]
  {
    if x == m.nil then []
    else
      assert Shaped(m, g, x);
      assert m.left[x] != m.nil ==> Shaped(m, g, m.left[x]);
      assert m.right[x] != m.nil ==> Shaped(m, g, m.right[x]);
      Walk(m, g, m.left[x]) + [x] + Walk(m, g, m.right[x])
  }

  lemma {:induction false} WalkIsSlice(order: seq<Ptr>, m: Mem, g: Shadow, x: Ptr)
    requires Shape(m, g) && Indexed(order, g) && g.In(x)
    ensures -1 <= g.lo[x] < g.hi[x] <= |order| && Walk(m, g, x) == order[g.lo[x] + 1..g.hi[x]]
    decreases g.hi[x] - g.lo[x]
  {
    assert Shaped(m, g, x) && Placed(order, g, x);
    if m.left[x] != m.nil { WalkIsSlice(order, m, g, m.left[x]); }
    if m.right[x] != m.nil { WalkIsSlice(order, m, g, m.right[x]); }
  }

  lemma WalkIsOrder(order: seq<Ptr>, m: Mem, g: Shadow)
    requires Shape(m, g) && Indexed(order, g)
    ensures Walk(m, g, m.root) == order
  {
    if m.root != m.nil {
      WalkIsSlice(order, m, g, m.root);
      assert order[0..|order|] == order;
    }
  }

  ghost function Height(m: Mem, g: Shadow, x: Ptr): nat
    requires Shape(m, g) && (x == m.nil || g.In(x))
    decreases if x == m.nil then 0 else g.hi[x] - g.lo[x]
  {
    if x == m.nil then 0
    else
      assert Shaped(m, g, x);
      assert m.left[x] != m.nil ==> Shaped(m, g, m.left[x]);
      assert m.right[x] != m.nil ==> Shaped(m, g, m.right[x]);
      var l, r := Height(m, g, m.left[x]), Height(m, g, m.right[x]);
      1 + if l < r then r else l
  }

  // A node of rank r has at least 2^(r-1) - 1 nodes under it and itself, and a height of at most
  // twice the black nodes below it.
  lemma {:induction false} RankBounds(m: Mem, g: Shadow, c: Paint, x: Ptr)
    requires State(m, g, c, NoFlaw(m)) && g.In(x)
    ensures c.Rank(x) >= 1 && Pow2(c.Rank(x) - 1) <= g.hi[x] - g.lo[x]
    ensures Height(m, g, x) <= 2 * (c.Rank(x) - 1) + (if c.red[x] then 1 else 0)
    decreases g.hi[x] - g.lo[x]
  {
    assert Shaped(m, g, x) && Colored(m, c, NoFlaw(m), x);
    if m.left[x] != m.nil { assert Shaped(m, g, m.left[x]); RankBounds(m, g, c, m.left[x]); }
    if m.right[x] != m.nil { assert Shaped(m, g, m.right[x]); RankBounds(m, g, c, m.right[x]); }
  }

  lemma {:induction false} Pow2Monotone(a: nat, b: nat)
    requires a <= b
    ensures Pow2(a) <= Pow2(b)
    decreases b
  {
    if a < b { Pow2Monotone(a, b - 1); }
  }

  lemma {:induction false} Pow2Double(a: nat)
    ensures Pow2(2 * a) == Pow2(a) * Pow2(a)
  {
    if a > 0 {
      Pow2Double(a - 1);
      assert Pow2(2 * a) == 4 * Pow2(2 * (a - 1));
    }
  }

  lemma SquareMonotone(a: nat, b: nat)
    requires a <= b
    ensures a * a <= b * b
  {
    assert b * b - a * a == (b - a) * (b + a);
  }

  // The height of a balanced tree of n nodes is at most 2 log2(n + 1).
  lemma HeightBound(order: seq<Ptr>, m: Mem, g: Shadow, c: Paint)
    requires State(m, g, c, NoFlaw(m)) && Indexed(order, g)
    ensures Pow2(Height(m, g, m.root)) <= (|order| + 1) * (|order| + 1)
  {
    if m.root != m.nil {
      RankBounds(m, g, c, m.root);
      var r, n := c.Rank(m.root) - 1, |order| + 1;
      Pow2Monotone(Height(m, g, m.root), 2 * r);
      Pow2Double(r);
      SquareMonotone(Pow2(r), n);
    }
  }
}
