module RbSplice {
  import opened RbShape
  import opened RbColor

  // ---- the in-order sequence ----

  ghost predicate Placed(order: seq<Ptr>, g: Shadow, x: Ptr) {
    x < |g.mid| && 0 <= g.mid[x] < |order| && order[g.mid[x]] == x
  }

  ghost predicate Indexed(order: seq<Ptr>, g: Shadow) {
    && g.first == -1 && g.last == |order|
    && (forall x {:trigger Placed(order, g, x)} :: g.In(x) ==> Placed(order, g, x))
    && (forall i {:trigger order[i]} :: 0 <= i < |order| ==> g.In(order[i]) && g.mid[order[i]] == i)
  }

  // The lower bound of a node is the first bound of all, or a node with a right child.
  lemma {:induction false} LowBound(order: seq<Ptr>, m: Mem, g: Shadow, x: Ptr)
    requires Shape(m, g) && Indexed(order, g) && g.In(x)
    ensures g.lo[x] == -1 || (0 <= g.lo[x] < |order| && g.In(order[g.lo[x]]) && m.right[order[g.lo[x]]] != m.nil)
    decreases |order| - (g.hi[x] - g.lo[x])
  {
    assert Shaped(m, g, x);
    if x != m.root {
      var p := m.parent[x];
      assert Shaped(m, g, p) && Placed(order, g, p);
      if x == m.left[p] { LowBound(order, m, g, p); }
    }
  }

  lemma {:induction false} HighBound(order: seq<Ptr>, m: Mem, g: Shadow, x: Ptr)
    requires Shape(m, g) && Indexed(order, g) && g.In(x)
    ensures g.hi[x] == |order| || (0 <= g.hi[x] < |order| && g.In(order[g.hi[x]]) && m.left[order[g.hi[x]]] != m.nil)
    decreases |order| - (g.hi[x] - g.lo[x])
  {
    assert Shaped(m, g, x);
    if x != m.root {
      var p := m.parent[x];
      assert Shaped(m, g, p) && Placed(order, g, p);
      if x == m.right[p] { HighBound(order, m, g, p); }
    }
  }

  function Inserted(s: seq<Ptr>, k: int, x: Ptr): (r: seq<Ptr>)
    requires 0 <= k <= |s|
  {
    s[..k] + [x] + s[k..]
  }

  function Removed(s: seq<Ptr>, k: int): (r: seq<Ptr>)
    requires 0 <= k < |s|
  {
    s[..k] + s[k + 1..]
  }

  // ---- hanging a leaf ----

  ghost function Opened(s: seq<int>, k: int): seq<int> {
    seq(|s|, i requires 0 <= i < |s| => if s[i] >= k then s[i] + 1 else s[i])
  }

  ghost function HungShadow(g: Shadow, k: int, node: Ptr): Shadow
    requires g.Sized(|g.mid|) && node < |g.mid|
  {
    Shadow(g.nodes + {node}, g.first, g.last + 1,
           Opened(g.lo, k)[node := k - 1], Opened(g.mid, k)[node := k], Opened(g.hi, k)[node := k + 1])
  }

  function Hung(m: Mem, t: Ptr, node: Ptr, onLeft: bool): (r: Mem)
    requires m.Sized(|m.left|) && t < |m.left| && node < |m.left|
  {
    var m1 := if onLeft then m.(left := m.left[t := node]) else m.(right := m.right[t := node]);
    m1.(parent := m1.parent[node := t], left := m1.left[node := m.nil], right := m1.right[node := m.nil])
  }

  ghost predicate CanHang(order: seq<Ptr>, m: Mem, g: Shadow, t: Ptr, node: Ptr, onLeft: bool, k: int)
  {
    && Shape(m, g) && Indexed(order, g) && g.In(t)
    && node < |m.left| && node !in g.nodes && node != m.nil
    && (if onLeft then m.left[t] == m.nil && k == g.mid[t] else m.right[t] == m.nil && k == g.mid[t] + 1)
  }

  lemma HungLeft(order: seq<Ptr>, m: Mem, g: Shadow, t: Ptr, node: Ptr, onLeft: bool, k: int, n: Ptr)
    requires CanHang(order, m, g, t, node, onLeft, k) && g.In(n)
    ensures var h, r := HungShadow(g, k, node), Hung(m, t, node, onLeft);
      h.first <= h.lo[n] < h.mid[n] && KidOk(r, h, n, r.left[n], h.lo[n], h.mid[n])
  {
    assert Shaped(m, g, t) && Placed(order, g, t);
    assert Shaped(m, g, n) && Placed(order, g, n);
    LowBound(order, m, g, n);
  }

  lemma HungRight(order: seq<Ptr>, m: Mem, g: Shadow, t: Ptr, node: Ptr, onLeft: bool, k: int, n: Ptr)
    requires CanHang(order, m, g, t, node, onLeft, k) && g.In(n)
    ensures var h, r := HungShadow(g, k, node), Hung(m, t, node, onLeft);
      h.mid[n] < h.hi[n] <= h.last && KidOk(r, h, n, r.right[n], h.mid[n], h.hi[n])
  {
    assert Shaped(m, g, t) && Placed(order, g, t);
    assert Shaped(m, g, n) && Placed(order, g, n);
    HighBound(order, m, g, n);
  }

  lemma HungShaped(order: seq<Ptr>, m: Mem, g: Shadow, t: Ptr, node: Ptr, onLeft: bool, k: int, n: Ptr)
    requires CanHang(order, m, g, t, node, onLeft, k)
    requires n == node || g.In(n)
    ensures Shaped(Hung(m, t, node, onLeft), HungShadow(g, k, node), n)
  {
    assert Shaped(m, g, t) && Placed(order, g, t);
    if n != node {
      assert Shaped(m, g, n);
      HungLeft(order, m, g, t, node, onLeft, k, n);
      HungRight(order, m, g, t, node, onLeft, k, n);
    }
  }

  lemma HangShape(order: seq<Ptr>, m: Mem, g: Shadow, t: Ptr, node: Ptr, onLeft: bool, k: int)
    requires CanHang(order, m, g, t, node, onLeft, k)
    ensures 0 <= k <= |order|
    ensures Shape(Hung(m, t, node, onLeft), HungShadow(g, k, node))
    ensures Indexed(Inserted(order, k, node), HungShadow(g, k, node))
  {
    var m', h := Hung(m, t, node, onLeft), HungShadow(g, k, node);
    assert Shaped(m, g, t) && Placed(order, g, t);
    forall n | h.In(n) ensures Shaped(m', h, n) {
      HungShaped(order, m, g, t, node, onLeft, k, n);
    }
    HangIndexed(order, g, node, k);
  }

  lemma HangIndexed(order: seq<Ptr>, g: Shadow, node: Ptr, k: int)
    requires g.Sized(|g.mid|) && Indexed(order, g) && 0 <= k <= |order| && node < |g.mid| && node !in g.nodes
    ensures Indexed(Inserted(order, k, node), HungShadow(g, k, node))
  {
    var o, h := Inserted(order, k, node), HungShadow(g, k, node);
    forall x | h.In(x) ensures Placed(o, h, x) {
      if x != node { assert Placed(order, g, x); }
    }
  }

  // The new leaf is red: black heights stay, only the edge above it may be red-red.
  lemma HangColors(order: seq<Ptr>, m: Mem, g: Shadow, c: Paint, t: Ptr, node: Ptr, onLeft: bool, k: int)
    requires CanHang(order, m, g, t, node, onLeft, k) && State(m, g, c, NoFlaw(m))
    ensures Inserting(Hung(m, t, node, onLeft), HungShadow(g, k, node), Paint(c.red[node := true], c.bh[node := 1]), node)
  {
    var m', h, e := Hung(m, t, node, onLeft), HungShadow(g, k, node), Paint(c.red[node := true], c.bh[node := 1]);
    var f := NoFlaw(m).(up := node);
    HangShape(order, m, g, t, node, onLeft, k);
    forall n | h.In(n) ensures Colored(m', e, f, n) {
      if n != node { assert Colored(m, c, NoFlaw(m), n) && Shaped(m, g, n); }
    }
  }

  // ---- unlinking a node with at most one child ----

  ghost function Closed(s: seq<int>, k: int): seq<int> {
    seq(|s|, i requires 0 <= i < |s| => if s[i] >= k then s[i] - 1 else s[i])
  }

  ghost function SplicedShadow(g: Shadow, s: Ptr): Shadow
    requires g.Sized(|g.mid|) && s < |g.mid|
  {
    var k := g.mid[s];
    Shadow(g.nodes - {s}, g.first, g.last - 1, Closed(g.lo, k), Closed(g.mid, k + 1), Closed(g.hi, k + 1))
  }

  function Spliced(m: Mem, s: Ptr, t: Ptr): (r: Mem)
    requires m.Sized(|m.left|) && s < |m.left| && t < |m.left| && (s != m.root ==> m.parent[s] < |m.left|)
  {
    if s == m.root then m.(root := t)
    else
      var p := m.parent[s];
      var m1 := if s == m.left[p] then m.(left := m.left[p := t]) else m.(right := m.right[p := t]);
      m1.(parent := m1.parent[t := p])
  }

  ghost predicate CanSplice(order: seq<Ptr>, m: Mem, g: Shadow, s: Ptr, t: Ptr)
  {
    && Shape(m, g) && Indexed(order, g) && g.In(s) && t < |m.left| && (s != m.root ==> g.In(m.parent[s]))
    && ((m.left[s] == m.nil && t == m.right[s]) || (m.right[s] == m.nil && t == m.left[s]))
  }

  lemma SplicedLeft(order: seq<Ptr>, m: Mem, g: Shadow, s: Ptr, t: Ptr, n: Ptr)
    requires CanSplice(order, m, g, s, t) && g.In(n) && n != s && m.left[n] != s
    ensures var h, r := SplicedShadow(g, s), Spliced(m, s, t);
      h.first <= h.lo[n] < h.mid[n] && KidOk(r, h, n, r.left[n], h.lo[n], h.mid[n])
  {
    assert Placed(order, g, s);
    assert Shaped(m, g, n) && Placed(order, g, n);
    var c := m.left[n];
    assert Shaped(m, g, s);
    if c != m.nil {
      assert Shaped(m, g, c) && Placed(order, g, c);
    }
  }

  lemma SplicedUnderLeft(order: seq<Ptr>, m: Mem, g: Shadow, s: Ptr, t: Ptr, n: Ptr)
    requires CanSplice(order, m, g, s, t) && g.In(n) && m.left[n] == s
    ensures var h, r := SplicedShadow(g, s), Spliced(m, s, t);
      h.first <= h.lo[n] < h.mid[n] && KidOk(r, h, n, r.left[n], h.lo[n], h.mid[n])
  {
    assert Shaped(m, g, s) && Placed(order, g, s);
    assert Shaped(m, g, n) && Placed(order, g, n);
  }

  lemma SplicedRight(order: seq<Ptr>, m: Mem, g: Shadow, s: Ptr, t: Ptr, n: Ptr)
    requires CanSplice(order, m, g, s, t) && g.In(n) && n != s && m.right[n] != s
    ensures var h, r := SplicedShadow(g, s), Spliced(m, s, t);
      h.mid[n] < h.hi[n] <= h.last && KidOk(r, h, n, r.right[n], h.mid[n], h.hi[n])
  {
    assert Placed(order, g, s);
    assert Shaped(m, g, n) && Placed(order, g, n);
    var c := m.right[n];
    if s != m.root { assert Shaped(m, g, s); }
    if c != m.nil {
      assert Shaped(m, g, c) && Placed(order, g, c);
      if c == t { assert Shaped(m, g, s); }
    }
  }

  lemma SplicedUnderRight(order: seq<Ptr>, m: Mem, g: Shadow, s: Ptr, t: Ptr, n: Ptr)
    requires CanSplice(order, m, g, s, t) && g.In(n) && m.right[n] == s
    ensures var h, r := SplicedShadow(g, s), Spliced(m, s, t);
      h.mid[n] < h.hi[n] <= h.last && KidOk(r, h, n, r.right[n], h.mid[n], h.hi[n])
  {
    assert Shaped(m, g, s) && Placed(order, g, s);
    assert Shaped(m, g, n) && Placed(order, g, n);
  }

  lemma SplicedShaped(order: seq<Ptr>, m: Mem, g: Shadow, s: Ptr, t: Ptr, n: Ptr)
    requires CanSplice(order, m, g, s, t) && g.In(n) && n != s
    ensures Shaped(Spliced(m, s, t), SplicedShadow(g, s), n)
  {
    if m.left[n] == s { SplicedUnderLeft(order, m, g, s, t, n); } else { SplicedLeft(order, m, g, s, t, n); }
    if m.right[n] == s { SplicedUnderRight(order, m, g, s, t, n); } else { SplicedRight(order, m, g, s, t, n); }
    SplicedUp(order, m, g, s, t, n);
  }

  lemma SplicedUp(order: seq<Ptr>, m: Mem, g: Shadow, s: Ptr, t: Ptr, n: Ptr)
    requires CanSplice(order, m, g, s, t) && g.In(n) && n != s
    ensures var h, r := SplicedShadow(g, s), Spliced(m, s, t);
      n != r.root ==> h.In(r.parent[n]) && (n == r.left[r.parent[n]] || n == r.right[r.parent[n]])
  {
    assert Shaped(m, g, s);
    assert Shaped(m, g, n);
    if s != m.root { assert Shaped(m, g, m.parent[s]); }
  }

  lemma SpliceShape(order: seq<Ptr>, m: Mem, g: Shadow, s: Ptr, t: Ptr)
    requires CanSplice(order, m, g, s, t)
    ensures 0 <= g.mid[s] < |order|
    ensures Shape(Spliced(m, s, t), SplicedShadow(g, s))
    ensures Indexed(Removed(order, g.mid[s]), SplicedShadow(g, s))
  {
    var r, h := Spliced(m, s, t), SplicedShadow(g, s);
    assert Shaped(m, g, s) && Placed(order, g, s);
    forall n | h.In(n) ensures Shaped(r, h, n) {
      SplicedShaped(order, m, g, s, t, n);
    }
    SpliceRoot(order, m, g, s, t);
    SpliceIndexed(order, g, s);
  }

  lemma SpliceRoot(order: seq<Ptr>, m: Mem, g: Shadow, s: Ptr, t: Ptr)
    requires CanSplice(order, m, g, s, t)
    ensures var h, r := SplicedShadow(g, s), Spliced(m, s, t);
      if h.first + 1 == h.last then r.root == r.nil
      else h.In(r.root) && h.lo[r.root] == h.first && h.hi[r.root] == h.last
  {
    assert Shaped(m, g, s) && Placed(order, g, s);
    assert Shaped(m, g, m.root) && Placed(order, g, m.root);
  }

  lemma SpliceIndexed(order: seq<Ptr>, g: Shadow, s: Ptr)
    requires g.Sized(|g.mid|) && Indexed(order, g) && g.In(s) && 0 <= g.mid[s] < |order|
    ensures Indexed(Removed(order, g.mid[s]), SplicedShadow(g, s))
  {
    var o, h := Removed(order, g.mid[s]), SplicedShadow(g, s);
    assert Placed(order, g, s);
    forall x | h.In(x) ensures Placed(o, h, x) {
      assert Placed(order, g, x);
    }
  }

  // What is left under the parent p of an unlinked node: nothing amiss if the node was red,
  // one black node short on that side if it was black.
  ghost function SpliceFlaw(m: Mem, c: Paint, s: Ptr, t: Ptr): Flaw
    requires m.Sized(|c.red|) && s < |c.red| && (s != m.root ==> m.parent[s] < |c.red|)
  {
    if s == m.root then Flaw(t, t, m.nil, true)
    else if c.red[s] then NoFlaw(m)
    else Flaw(t, t, m.parent[s], s == m.left[m.parent[s]])
  }

  lemma SplicedColored(order: seq<Ptr>, m: Mem, g: Shadow, c: Paint, s: Ptr, t: Ptr, n: Ptr)
    requires CanSplice(order, m, g, s, t) && State(m, g, c, NoFlaw(m))
    requires g.In(n) && n != s
    ensures Colored(Spliced(m, s, t), c, SpliceFlaw(m, c, s, t), n)
  {
    var f := NoFlaw(m);
    assert Shaped(m, g, s) && Colored(m, c, f, s);
    assert Shaped(m, g, n) && Colored(m, c, f, n);
    if t != m.nil { assert Colored(m, c, f, t); }
  }

  lemma SpliceColors(order: seq<Ptr>, m: Mem, g: Shadow, c: Paint, s: Ptr, t: Ptr)
    requires CanSplice(order, m, g, s, t) && State(m, g, c, NoFlaw(m))
    ensures State(Spliced(m, s, t), SplicedShadow(g, s), c, SpliceFlaw(m, c, s, t))
    ensures c.red[s] ==> t == m.nil
  {
    SpliceShape(order, m, g, s, t);
    forall n | SplicedShadow(g, s).In(n) ensures Colored(Spliced(m, s, t), c, SpliceFlaw(m, c, s, t), n) {
      SplicedColored(order, m, g, c, s, t, n);
    }
    assert Colored(m, c, NoFlaw(m), s);
    assert Shaped(m, g, s);
    if t != m.nil { assert Colored(m, c, NoFlaw(m), t); }
  }

  // ---- putting s in the place of node d ----

  function Replaced(m: Mem, d: Ptr, s: Ptr): (r: Mem)
    requires m.Sized(|m.left|) && d < |m.left| && s < |m.left| && (d != m.root ==> m.parent[d] < |m.left|)
    requires m.left[d] < |m.left| && m.right[d] < |m.left|
  {
    var m1 := m.(left := m.left[s := m.left[d]], right := m.right[s := m.right[d]], parent := m.parent[s := m.parent[d]]);
    var m2 :=
      if d == m.root then m1.(root := s)
      else if d == m1.left[m1.parent[d]] then m1.(left := m1.left[m1.parent[d] := s])
      else m1.(right := m1.right[m1.parent[d] := s]);
    var m3 := if m2.left[s] != m.nil then m2.(parent := m2.parent[m2.left[s] := s]) else m2;
    if m3.right[s] != m.nil then m3.(parent := m3.parent[m3.right[s] := s]) else m3
  }

  ghost function ReplacedShadow(g: Shadow, d: Ptr, s: Ptr): Shadow
    requires g.Sized(|g.mid|) && d < |g.mid| && s < |g.mid|
  {
    g.(nodes := g.nodes - {d} + {s}, lo := g.lo[s := g.lo[d]], mid := g.mid[s := g.mid[d]], hi := g.hi[s := g.hi[d]])
  }

  ghost predicate CanReplace(m: Mem, g: Shadow, d: Ptr, s: Ptr)
  {
    Shape(m, g) && g.In(d) && s < |m.left| && s !in g.nodes && s != m.nil && (d != m.root ==> g.In(m.parent[d]))
    && m.left[d] < |m.left| && m.right[d] < |m.left|
  }

  // What the replacement leaves in the links of node n.
  ghost predicate Moved(m: Mem, r: Mem, d: Ptr, s: Ptr, n: Ptr)
    requires m.Sized(|m.left|) && r.Sized(|m.left|) && d < |m.left| && n < |m.left|
  {
    && r.left[n] == (if n == s then m.left[d] else if d != m.root && n == m.parent[d] && m.left[n] == d then s else m.left[n])
    && r.right[n] == (if n == s then m.right[d] else if d != m.root && n == m.parent[d] && m.left[n] != d then s else m.right[n])
    && (n != m.nil ==>
          r.parent[n] == (if n == s then m.parent[d] else if n == m.left[d] || n == m.right[d] then s else m.parent[n]))
  }

  ghost predicate AllMoved(m: Mem, r: Mem, d: Ptr, s: Ptr)
    requires m.Sized(|m.left|) && d < |m.left|
  {
    && r.Sized(|m.left|) && r.nil == m.nil && r.root == (if d == m.root then s else m.root)
    && forall x {:trigger Moved(m, r, d, s, x)} :: 0 <= x < |m.left| ==> Moved(m, r, d, s, x)
  }

  // The parent of t, the node that moves up, may be set before the replacement.
  ghost predicate CanReparent(m: Mem, g: Shadow, d: Ptr, s: Ptr, t: Ptr, up: Ptr)
  {
    && CanReplace(m, g, d, s) && t < |m.left| && t != d && t != s
    && (t == m.nil || up == m.parent[t] || (up == s && (t == m.left[d] || t == m.right[d])))
  }

  lemma ReplacedKids(m: Mem, g: Shadow, d: Ptr, s: Ptr, t: Ptr, up: Ptr, n: Ptr)
    requires CanReparent(m, g, d, s, t, up) && n < |m.left|
    ensures var r := Replaced(m.(parent := m.parent[t := up]), d, s);
      && r.left[n] == (if n == s then m.left[d] else if d != m.root && n == m.parent[d] && m.left[n] == d then s else m.left[n])
      && r.right[n] == (if n == s then m.right[d] else if d != m.root && n == m.parent[d] && m.left[n] != d then s else m.right[n])
  {
  }

  lemma ReplacedParent(m: Mem, g: Shadow, d: Ptr, s: Ptr, t: Ptr, up: Ptr, n: Ptr)
    requires CanReparent(m, g, d, s, t, up) && n < |m.left|
    ensures var r := Replaced(m.(parent := m.parent[t := up]), d, s);
      if n == m.nil then n == t ==> r.parent[n] == up
      else r.parent[n] == (if n == s then m.parent[d] else if n == m.left[d] || n == m.right[d] then s else m.parent[n])
  {
    assert Shaped(m, g, d);
  }

  lemma ReplacedMoves(m: Mem, g: Shadow, d: Ptr, s: Ptr, t: Ptr, up: Ptr)
    requires CanReparent(m, g, d, s, t, up)
    ensures AllMoved(m, Replaced(m.(parent := m.parent[t := up]), d, s), d, s)
  {
    var r := Replaced(m.(parent := m.parent[t := up]), d, s);
    forall n | 0 <= n < |m.left| ensures Moved(m, r, d, s, n) {
      ReplacedKids(m, g, d, s, t, up, n);
      ReplacedParent(m, g, d, s, t, up, n);
    }
  }

  ghost function Was(d: Ptr, s: Ptr, n: Ptr): Ptr { if n == s then d else n }

  lemma MovedLeft(m: Mem, g: Shadow, d: Ptr, s: Ptr, r: Mem, n: Ptr)
    requires CanReplace(m, g, d, s) && AllMoved(m, r, d, s)
    requires n == s || (g.In(n) && n != d)
    ensures var h := ReplacedShadow(g, d, s); KidOk(r, h, n, r.left[n], h.lo[n], h.mid[n])
  {
    assert Shaped(m, g, d);
    assert Shaped(m, g, Was(d, s, n));
    assert Moved(m, r, d, s, n);
    if r.left[n] < |m.left| { assert Moved(m, r, d, s, r.left[n]); }
  }

  lemma MovedRight(m: Mem, g: Shadow, d: Ptr, s: Ptr, r: Mem, n: Ptr)
    requires CanReplace(m, g, d, s) && AllMoved(m, r, d, s)
    requires n == s || (g.In(n) && n != d)
    ensures var h := ReplacedShadow(g, d, s); KidOk(r, h, n, r.right[n], h.mid[n], h.hi[n])
  {
    assert Shaped(m, g, d);
    assert Shaped(m, g, Was(d, s, n));
    assert Moved(m, r, d, s, n);
    if r.right[n] < |m.left| { assert Moved(m, r, d, s, r.right[n]); }
  }

  lemma MovedUp(m: Mem, g: Shadow, d: Ptr, s: Ptr, r: Mem, n: Ptr)
    requires CanReplace(m, g, d, s) && AllMoved(m, r, d, s)
    requires n == s || (g.In(n) && n != d)
    requires n != r.root
    ensures ReplacedShadow(g, d, s).In(r.parent[n]) && (n == r.left[r.parent[n]] || n == r.right[r.parent[n]])
  {
    assert Shaped(m, g, d);
    assert Shaped(m, g, Was(d, s, n));
    if d != m.root { assert Shaped(m, g, m.parent[d]); }
    assert Moved(m, r, d, s, n);
    if r.parent[n] < |m.left| { assert Moved(m, r, d, s, r.parent[n]); }
  }

  lemma MovedShape(m: Mem, g: Shadow, d: Ptr, s: Ptr, r: Mem)
    requires CanReplace(m, g, d, s) && AllMoved(m, r, d, s)
    ensures Shape(r, ReplacedShadow(g, d, s))
  {
    var h := ReplacedShadow(g, d, s);
    forall n | h.In(n) ensures Shaped(r, h, n) {
      assert Shaped(m, g, Was(d, s, n));
      MovedLeft(m, g, d, s, r, n);
      MovedRight(m, g, d, s, r, n);
      if n != r.root { MovedUp(m, g, d, s, r, n); }
    }
  }

  lemma ReplaceIndexed(order: seq<Ptr>, g: Shadow, d: Ptr, s: Ptr)
    requires g.Sized(|g.mid|) && Indexed(order, g) && g.In(d) && s < |g.mid| && s !in g.nodes
    ensures 0 <= g.mid[d] < |order| && Indexed(order[g.mid[d] := s], ReplacedShadow(g, d, s))
  {
    assert Placed(order, g, d);
    var o, h := order[g.mid[d] := s], ReplacedShadow(g, d, s);
    forall x | h.In(x) ensures Placed(o, h, x) {
      assert Placed(order, g, Was(d, s, x));
    }
  }

  ghost function ReplacedPaint(c: Paint, d: Ptr, s: Ptr): Paint
    requires c.Sized(|c.bh|) && d < |c.bh| && s < |c.bh|
  {
    Paint(c.red[s := c.red[d]], c.bh[s := c.bh[d]])
  }

  ghost function ReplacedFlaw(f: Flaw, d: Ptr, s: Ptr): Flaw {
    f.(short := if f.short == d then s else f.short)
  }

  lemma MovedEven(m: Mem, g: Shadow, c: Paint, f: Flaw, d: Ptr, s: Ptr, r: Mem, n: Ptr)
    requires CanReplace(m, g, d, s) && AllMoved(m, r, d, s) && State(m, g, c, f)
    requires f.up != d && f.up != s && f.down != d && f.down != s && f.short != s
    requires n == s || (g.In(n) && n != d)
    ensures Even(r, ReplacedPaint(c, d, s), ReplacedFlaw(f, d, s), n)
  {
    assert Shaped(m, g, d);
    assert Shaped(m, g, Was(d, s, n));
    assert Colored(m, c, f, Was(d, s, n));
    assert Moved(m, r, d, s, n);
  }

  lemma MovedReds(m: Mem, g: Shadow, c: Paint, f: Flaw, d: Ptr, s: Ptr, r: Mem, n: Ptr)
    requires CanReplace(m, g, d, s) && AllMoved(m, r, d, s) && State(m, g, c, f)
    requires f.up != d && f.up != s && f.down != d && f.down != s && f.short != s
    requires n == s || (g.In(n) && n != d)
    ensures NoRedRed(r, ReplacedPaint(c, d, s), ReplacedFlaw(f, d, s), n)
  {
    assert Shaped(m, g, d);
    assert Shaped(m, g, Was(d, s, n));
    assert Colored(m, c, f, Was(d, s, n));
    assert Moved(m, r, d, s, n);
  }

  lemma MovedColors(m: Mem, g: Shadow, c: Paint, f: Flaw, d: Ptr, s: Ptr, r: Mem)
    requires CanReplace(m, g, d, s) && AllMoved(m, r, d, s) && State(m, g, c, f)
    requires f.up != d && f.up != s && f.down != d && f.down != s && f.short != s
    ensures State(r, ReplacedShadow(g, d, s), ReplacedPaint(c, d, s), ReplacedFlaw(f, d, s))
  {
    MovedShape(m, g, d, s, r);
    forall n | ReplacedShadow(g, d, s).In(n) ensures Colored(r, ReplacedPaint(c, d, s), ReplacedFlaw(f, d, s), n) {
      MovedEven(m, g, c, f, d, s, r, n);
      MovedReds(m, g, c, f, d, s, r, n);
    }
  }

  // ---- the first node ----

  function Alone(m: Mem, node: Ptr): (r: Mem)
    requires m.Sized(|m.left|) && node < |m.left|
  {
    Mem(m.nil, node, m.left[node := m.nil], m.right[node := m.nil], m.parent[node := 0])
  }

  lemma AloneState(m: Mem, g: Shadow, c: Paint, node: Ptr)
    requires State(m, g, c, NoFlaw(m)) && Indexed([], g) && node < |m.left| && node != m.nil
    ensures State(Alone(m, node), HungShadow(g, 0, node), Paint(c.red[node := false], c.bh[node := 1]), NoFlaw(m))
    ensures Indexed([node], HungShadow(g, 0, node))
  {
    var h := HungShadow(g, 0, node);
    forall x ensures !g.In(x) {
      assert g.In(x) ==> Placed([], g, x);
    }
    assert !g.In(node);
    HangIndexed([], g, node, 0);
    assert Inserted([], 0, node) == [node];
    var r, e := Alone(m, node), Paint(c.red[node := false], c.bh[node := 1]);
    forall n | h.In(n) ensures Shaped(r, h, n) && Colored(r, e, NoFlaw(m), n) {
      assert !g.In(n);
    }
  }

  lemma SameIndexed(order: seq<Ptr>, g: Shadow, h: Shadow)
    requires Indexed(order, g)
    requires h.nodes == g.nodes && h.mid == g.mid && h.first == g.first && h.last == g.last
    ensures Indexed(order, h)
  {
    forall x | h.In(x) ensures Placed(order, h, x) {
      assert Placed(order, g, x);
    }
  }

  lemma OrderIsNodes(order: seq<Ptr>, g: Shadow, x: Ptr)
    requires Indexed(order, g) && x < |g.mid|
    ensures x in order <==> g.In(x)
  {
    if g.In(x) { assert Placed(order, g, x); }
  }
}
