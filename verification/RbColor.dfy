module RbColor {
  import opened RbShape

  // ---- colours and black heights ----

  // bh[x]: black nodes on every path from below x down to the sentinel, sentinel included.
  datatype Paint = Paint(red: seq<bool>, bh: seq<int>)
  {
    ghost predicate Sized(n: nat) { |red| == n && |bh| == n }

    // Black height seen through a link: one more if the node itself is black.
    ghost function Rank(c: Ptr): int
      requires c < |bh| == |red|
    {
      bh[c] + (if red[c] then 0 else 1)
    }
  }

  // The exceptions a half-done operation allows: a red-red edge into "up" or out of "down",
  // and one black node missing under "short" on its left or right side.
  datatype Flaw = Flaw(up: Ptr, down: Ptr, short: Ptr, onLeft: bool)
  {
    ghost function Left(x: Ptr): int { if x == short && onLeft then 1 else 0 }
    ghost function Right(x: Ptr): int { if x == short && !onLeft then 1 else 0 }
    ghost function Mirror(): Flaw { this.(onLeft := !onLeft) }
    ghost predicate Edge(c: Paint, x: Ptr, y: Ptr)
      requires x < |c.red| && y < |c.red|
    {
      c.red[x] && c.red[y] ==> y == up || x == down
    }
  }

  ghost predicate Even(m: Mem, c: Paint, f: Flaw, x: Ptr)
    requires m.Sized(|c.bh|) && c.Sized(|c.bh|) && x < |c.bh|
  {
    && m.left[x] < |c.bh| && m.right[x] < |c.bh|
    && c.bh[x] >= 1
    && c.bh[x] == c.Rank(m.left[x]) + f.Left(x)
    && c.bh[x] == c.Rank(m.right[x]) + f.Right(x)
  }

  ghost predicate NoRedRed(m: Mem, c: Paint, f: Flaw, x: Ptr)
    requires m.Sized(|c.bh|) && c.Sized(|c.bh|) && x < |c.bh|
  {
    && m.left[x] < |c.bh| && m.right[x] < |c.bh|
    && f.Edge(c, x, m.left[x]) && f.Edge(c, x, m.right[x])
  }

  ghost predicate Colored(m: Mem, c: Paint, f: Flaw, x: Ptr)
    requires m.Sized(|c.bh|) && c.Sized(|c.bh|) && x < |c.bh|
  {
    Even(m, c, f, x) && NoRedRed(m, c, f, x)
  }

  ghost predicate Colors(m: Mem, g: Shadow, c: Paint, f: Flaw)
  {
    && m.Sized(|c.bh|) && c.Sized(|c.bh|) && |g.mid| == |c.bh|
    && !c.red[m.nil] && c.bh[m.nil] == 0
    && (forall x {:trigger Colored(m, c, f, x)} :: g.In(x) ==> Colored(m, c, f, x))
    && f.Edge(c, m.root, m.root)
  }

  ghost predicate State(m: Mem, g: Shadow, c: Paint, f: Flaw)
  {
    Shape(m, g) && Colors(m, g, c, f)
  }

  lemma MirrorState(m: Mem, g: Shadow, c: Paint, f: Flaw)
    requires State(m, g, c, f)
    ensures State(m.Mirror(), g.Mirror(), c, f.Mirror())
    ensures m.Mirror().Mirror() == m && g.Mirror().Mirror() == g && f.Mirror().Mirror() == f
  {
    MirrorShape(m, g);
    forall x | g.Mirror().In(x) ensures Colored(m.Mirror(), c, f.Mirror(), x) {
      assert Colored(m, c, f, x);
    }
  }

  // ---- rotation with exchange of colours ----

  function Swapped(red: seq<bool>, x: Ptr, y: Ptr): seq<bool>
    requires x < |red| && y < |red|
  {
    red[y := red[x]][x := true]
  }

  ghost predicate CanSwap(m: Mem, g: Shadow, c: Paint, f: Flaw, x: Ptr)
  {
    && State(m, g, c, f) && CanRotate(m, g, x) && g.In(m.right[x]) && m.left[m.right[x]] < |c.bh| && m.left[x] < |c.bh|
    && c.red[m.right[x]]
    && f.short != m.right[x] && (f.short == x ==> f.onLeft)
    && !c.red[m.left[x]] && !c.red[m.left[m.right[x]]]
    && (c.red[x] ==> f.up == m.right[x] && x != m.root)
    && (!c.red[x] ==> f.up != m.right[x] && f.up != x)
    && f.down != x && f.down != m.right[x]
    && (m.right[m.right[x]] < |c.bh| && c.red[m.right[m.right[x]]] ==> !c.red[x])
  }

  lemma SwappedEvenTop(m: Mem, g: Shadow, c: Paint, f: Flaw, x: Ptr, k: Mem, e: Paint)
    requires CanSwap(m, g, c, f, x) && AllTurned(m, k, x)
    requires e == c.(red := Swapped(c.red, x, m.right[x]))
    ensures Even(k, e, f, x) && Even(k, e, f, m.right[x])
  {
    var y := m.right[x];
    Neighbours(m, g, x);
    assert Colored(m, c, f, x) && Colored(m, c, f, y);
    assert Turned(m, k, x, x);
    assert Turned(m, k, x, y);
  }

  lemma SwappedEvenRest(m: Mem, g: Shadow, c: Paint, f: Flaw, x: Ptr, k: Mem, e: Paint, n: Ptr)
    requires CanSwap(m, g, c, f, x) && AllTurned(m, k, x)
    requires e == c.(red := Swapped(c.red, x, m.right[x]))
    requires g.In(n) && n != x && n != m.right[x]
    ensures Even(k, e, f, n)
  {
    var y := m.right[x];
    assert Shaped(m, g, n) && Shaped(m, g, x) && Shaped(m, g, y);
    assert Colored(m, c, f, n) && Colored(m, c, f, x);
    assert Turned(m, k, x, n);
  }

  lemma SwappedRedsTop(m: Mem, g: Shadow, c: Paint, f: Flaw, x: Ptr, k: Mem, e: Paint, h: Flaw)
    requires CanSwap(m, g, c, f, x) && AllTurned(m, k, x)
    requires e == c.(red := Swapped(c.red, x, m.right[x]))
    requires h == if c.red[x] then f.(up := x) else f
    ensures NoRedRed(k, e, h, x) && NoRedRed(k, e, h, m.right[x])
  {
    var y := m.right[x];
    Neighbours(m, g, x);
    assert Colored(m, c, f, x) && Colored(m, c, f, y);
    assert Turned(m, k, x, x);
    assert Turned(m, k, x, y);
  }

  lemma SwappedRedsRest(m: Mem, g: Shadow, c: Paint, f: Flaw, x: Ptr, k: Mem, e: Paint, h: Flaw, n: Ptr)
    requires CanSwap(m, g, c, f, x) && AllTurned(m, k, x)
    requires e == c.(red := Swapped(c.red, x, m.right[x]))
    requires h == if c.red[x] then f.(up := x) else f
    requires g.In(n) && n != x && n != m.right[x]
    ensures NoRedRed(k, e, h, n)
  {
    var y := m.right[x];
    assert Shaped(m, g, n) && Shaped(m, g, x) && Shaped(m, g, y);
    assert Colored(m, c, f, n) && Colored(m, c, f, x);
    assert Turned(m, k, x, n);
  }

  // A rotation that hands the upper colour to the red child keeps every black height, and
  // keeps the flaw: a red-red edge only turns round.
  lemma SwapRotate(m: Mem, g: Shadow, c: Paint, f: Flaw, x: Ptr)
    requires CanSwap(m, g, c, f, x)
    ensures x != m.root ==> m.parent[x] < |m.left|
    ensures State(LeftRotated(m, x), RotatedShadow(g, x, m.right[x]), c.(red := Swapped(c.red, x, m.right[x])),
                  if c.red[x] then f.(up := x) else f)
  {
    RotationTurns(m, g, x);
    SwapTurned(m, g, c, f, x, LeftRotated(m, x));
  }

  lemma SwapTurned(m: Mem, g: Shadow, c: Paint, f: Flaw, x: Ptr, k: Mem)
    requires CanSwap(m, g, c, f, x) && AllTurned(m, k, x)
    ensures State(k, RotatedShadow(g, x, m.right[x]), c.(red := Swapped(c.red, x, m.right[x])),
                  if c.red[x] then f.(up := x) else f)
  {
    var h := if c.red[x] then f.(up := x) else f;
    var e := c.(red := Swapped(c.red, x, m.right[x]));
    TurnedShape(m, g, k, x);
    assert m.right[x] != m.root by { assert Shaped(m, g, x) && Shaped(m, g, m.right[x]); }
    forall n | g.In(n) ensures Colored(k, e, h, n) {
      SwappedColored(m, g, c, f, x, k, e, h, n);
    }
  }

  lemma SwappedColored(m: Mem, g: Shadow, c: Paint, f: Flaw, x: Ptr, k: Mem, e: Paint, h: Flaw, n: Ptr)
    requires CanSwap(m, g, c, f, x) && AllTurned(m, k, x) && g.In(n)
    requires e == c.(red := Swapped(c.red, x, m.right[x]))
    requires h == if c.red[x] then f.(up := x) else f
    ensures Colored(k, e, h, n)
  {
    if n == x || n == m.right[x] {
      SwappedEvenTop(m, g, c, f, x, k, e);
      SwappedRedsTop(m, g, c, f, x, k, e, h);
    } else {
      SwappedEvenRest(m, g, c, f, x, k, e, n);
      SwappedRedsRest(m, g, c, f, x, k, e, h, n);
    }
  }

  // ---- insertion ----

  function NoFlaw(m: Mem): Flaw { Flaw(m.nil, m.nil, m.nil, true) }

  // The only defect: "node" and its parent may both be red, or "node" is a red root.
  ghost predicate Inserting(m: Mem, g: Shadow, c: Paint, node: Ptr)
  {
    State(m, g, c, NoFlaw(m).(up := node)) && g.In(node) && c.red[node]
  }

  // The red parent of a red node is not the root, and the grandparent is black.
  lemma Grandparent(m: Mem, g: Shadow, c: Paint, node: Ptr)
    requires Inserting(m, g, c, node)
    requires node != m.root && m.parent[node] < |c.red| && c.red[m.parent[node]]
    ensures var p := m.parent[node]; g.In(p) && p != m.root && p != node
    ensures var p := m.parent[node]; var q := m.parent[p];
      && g.In(q) && q != p && q != node && !c.red[q]
      && (p == m.left[q] || p == m.right[q]) && m.left[q] != m.right[q] && m.left[q] < |c.red| && m.right[q] < |c.red|
      && g.hi[q] - g.lo[q] > g.hi[node] - g.lo[node]
  {
    var f := NoFlaw(m).(up := node);
    var p := m.parent[node];
    assert Shaped(m, g, node);
    assert Shaped(m, g, p);
    var q := m.parent[p];
    assert Shaped(m, g, q);
    assert Colored(m, c, f, q);
  }

  function Recolored(m: Mem, red: seq<bool>, q: Ptr): seq<bool>
    requires q < |red| == |m.left| == |m.right| && m.left[q] < |red| && m.right[q] < |red|
  {
    red[m.left[q] := false][m.right[q] := false][q := true]
  }

  // Both children of the grandparent q are red: they turn black, q turns red.
  lemma RecolorStep(m: Mem, g: Shadow, c: Paint, node: Ptr, q: Ptr, e: Paint)
    requires Inserting(m, g, c, node)
    requires node != m.root && m.parent[node] < |c.red| && c.red[m.parent[node]]
    requires m.parent[node] != m.root && q == m.parent[m.parent[node]]
    requires q < |c.red| && m.left[q] < |c.red| && m.right[q] < |c.red| && c.red[m.left[q]] && c.red[m.right[q]]
    requires e == Paint(Recolored(m, c.red, q), c.bh[q := c.bh[q] + 1])
    ensures Inserting(m, g, e, q)
  {
    Grandparent(m, g, c, node);
    var f, h := NoFlaw(m).(up := node), NoFlaw(m).(up := q);
    assert Shaped(m, g, q);
    forall n | g.In(n) ensures Colored(m, e, h, n) {
      RecolorAt(m, g, c, node, q, e, n);
    }
    if m.root != q { assert Shaped(m, g, m.left[q]); assert Shaped(m, g, m.right[q]); }
  }

  lemma RecolorAt(m: Mem, g: Shadow, c: Paint, node: Ptr, q: Ptr, e: Paint, n: Ptr)
    requires Inserting(m, g, c, node) && g.In(n) && g.In(q) && !c.red[q]
    requires m.left[q] < |c.red| && m.right[q] < |c.red| && c.red[m.left[q]] && c.red[m.right[q]]
    requires m.left[q] == m.parent[node] || m.right[q] == m.parent[node]
    requires node != m.root
    requires e == Paint(Recolored(m, c.red, q), c.bh[q := c.bh[q] + 1])
    ensures Colored(m, e, NoFlaw(m).(up := q), n)
  {
    var f := NoFlaw(m).(up := node);
    assert Shaped(m, g, q) && Colored(m, c, f, q);
    assert Shaped(m, g, n) && Colored(m, c, f, n);
    assert Shaped(m, g, node);
  }

  // The node is the inner grandchild: one rotation at its parent makes the parent the outer one.
  lemma InnerTurn(m: Mem, g: Shadow, c: Paint, node: Ptr, p: Ptr)
    requires Inserting(m, g, c, node) && node != m.root && p == m.parent[node] && p < |c.red| && c.red[p]
    requires node == m.right[p]
    ensures CanRotate(m, g, p) && p != m.root && g.In(m.parent[p]) && m.left[node] < |m.left|
    ensures Inserting(LeftRotated(m, p), RotatedShadow(g, p, node), c, p)
    ensures var k, q := LeftRotated(m, p), m.parent[p];
      && k.root == m.root && k.parent[p] == node && k.left[node] == p && k.parent[node] == q
      && (m.left[q] == p ==> k.left[q] == node && k.right[q] == m.right[q])
  {
    Grandparent(m, g, c, node);
    var f := NoFlaw(m).(up := node);
    assert Shaped(m, g, p) && Shaped(m, g, node);
    assert Colored(m, c, f, p) && Colored(m, c, f, node);
    assert Swapped(c.red, p, node) == c.red;
    assert CanSwap(m, g, c, f, p);
    SwapRotate(m, g, c, f, p);
    RotationTurnsAt(m, g, p, p);
    RotationTurnsAt(m, g, p, node);
    RotationTurnsAt(m, g, p, m.parent[p]);
  }

  // The node is the outer grandchild and its uncle is black: one rotation at the grandparent
  // leaves no red-red edge.
  lemma OuterTurn(m: Mem, g: Shadow, c: Paint, node: Ptr, p: Ptr, q: Ptr)
    requires Inserting(m, g, c, node) && node != m.root && p == m.parent[node] && p < |c.red| && c.red[p]
    requires p != m.root && q == m.parent[p] && q < |c.red|
    requires node == m.right[p] && p == m.right[q] && m.left[q] < |c.red| && !c.red[m.left[q]]
    ensures CanRotate(m, g, q) && (q != m.root ==> g.In(m.parent[q])) && m.left[p] < |m.left| && p != q
    ensures Inserting(LeftRotated(m, q), RotatedShadow(g, q, p), c.(red := Swapped(c.red, q, p)), node)
    ensures LeftRotated(m, q).parent[node] == p && Swapped(c.red, q, p) == c.red[p := false][q := true]
  {
    Grandparent(m, g, c, node);
    var f := NoFlaw(m).(up := node);
    assert Shaped(m, g, p) && Shaped(m, g, node) && Shaped(m, g, q);
    assert Colored(m, c, f, p) && Colored(m, c, f, node);
    assert CanSwap(m, g, c, f, q);
    SwapRotate(m, g, c, f, q);
    RotationTurnsAt(m, g, q, node);
  }

  lemma MirrorInserting(m: Mem, g: Shadow, c: Paint, node: Ptr)
    requires Inserting(m, g, c, node)
    ensures Inserting(m.Mirror(), g.Mirror(), c, node)
    ensures m.Mirror().Mirror() == m && g.Mirror().Mirror() == g
  {
    var f := NoFlaw(m).(up := node);
    MirrorState(m, g, c, f);
    forall x | g.Mirror().In(x) ensures Colored(m.Mirror(), c, f, x) {
      assert Colored(m, c, f, x);
    }
  }

  lemma InnerTurnRight(m: Mem, g: Shadow, c: Paint, node: Ptr, p: Ptr)
    requires Inserting(m, g, c, node) && node != m.root && p == m.parent[node] && p < |c.red| && c.red[p]
    requires node == m.left[p]
    ensures CanRotate(m.Mirror(), g.Mirror(), p) && p != m.root && g.In(m.parent[p]) && m.right[node] < |m.left|
    ensures Inserting(RightRotated(m, p), RightShadow(g, p, node), c, p)
    ensures var k, q := RightRotated(m, p), m.parent[p];
      && k.root == m.root && k.parent[p] == node && k.right[node] == p && k.parent[node] == q
      && (m.right[q] == p ==> k.right[q] == node && k.left[q] == m.left[q])
  {
    MirrorInserting(m, g, c, node);
    InnerTurn(m.Mirror(), g.Mirror(), c, node, p);
    RightIsMirroredLeft(m, g, p);
    MirrorInserting(LeftRotated(m.Mirror(), p), RotatedShadow(g.Mirror(), p, node), c, p);
  }

  lemma OuterTurnRight(m: Mem, g: Shadow, c: Paint, node: Ptr, p: Ptr, q: Ptr)
    requires Inserting(m, g, c, node) && node != m.root && p == m.parent[node] && p < |c.red| && c.red[p]
    requires p != m.root && q == m.parent[p] && q < |c.red|
    requires node == m.left[p] && p == m.left[q] && m.right[q] < |c.red| && !c.red[m.right[q]]
    ensures CanRotate(m.Mirror(), g.Mirror(), q) && (q != m.root ==> g.In(m.parent[q])) && m.right[p] < |m.left| && p != q
    ensures Inserting(RightRotated(m, q), RightShadow(g, q, p), c.(red := Swapped(c.red, q, p)), node)
    ensures RightRotated(m, q).parent[node] == p && Swapped(c.red, q, p) == c.red[p := false][q := true]
  {
    MirrorInserting(m, g, c, node);
    OuterTurn(m.Mirror(), g.Mirror(), c, node, p, q);
    Grandparent(m, g, c, node);
    RightIsMirroredLeft(m, g, q);
    var k, h, e := LeftRotated(m.Mirror(), q), RotatedShadow(g.Mirror(), q, p), c.(red := Swapped(c.red, q, p));
    MirrorInserting(k, h, e, node);
  }

  // Painting the root black ends the insertion.
  lemma SettleRoot(m: Mem, g: Shadow, c: Paint, node: Ptr)
    requires Inserting(m, g, c, node)
    requires node == m.root || (m.parent[node] < |c.red| && !c.red[m.parent[node]])
    ensures State(m, g, c.(red := c.red[m.root := false]), NoFlaw(m))
  {
    var e, f := c.(red := c.red[m.root := false]), NoFlaw(m).(up := node);
    assert Shaped(m, g, node);
    assert Shaped(m, g, m.root);
    forall n | g.In(n) ensures Colored(m, e, NoFlaw(m), n) {
      assert Shaped(m, g, n) && Colored(m, c, f, n);
    }
  }
}
