module RbShape {

  type Ptr = nat

  datatype Mem = Mem(nil: Ptr, root: Ptr, left: seq<Ptr>, right: seq<Ptr>, parent: seq<Ptr>)
  {
    ghost predicate Sized(n: nat) {
      |left| == n && |right| == n && |parent| == n && nil < n && root < n
    }

    ghost function Mirror(): Mem {
      this.(left := right, right := left)
    }
  }

  datatype Shadow = Shadow(nodes: set<Ptr>, first: int, last: int, lo: seq<int>, mid: seq<int>, hi: seq<int>)
  {
    ghost predicate Sized(n: nat) {
      |mid| == n && |lo| == n && |hi| == n
    }

    ghost predicate In(x: Ptr) {
      x < |mid| && x in nodes
    }

    ghost function Mirror(): Shadow {
      Shadow(nodes, -last, -first, Negated(hi), Negated(mid), Negated(lo))
    }
  }

  ghost function Negated(s: seq<int>): seq<int> {
    seq(|s|, i requires 0 <= i < |s| => -s[i])
  }

  ghost predicate KidOk(m: Mem, g: Shadow, x: Ptr, c: Ptr, lo: int, hi: int)
    requires m.Sized(|g.mid|) && g.Sized(|g.mid|)
  {
    if lo + 1 == hi then c == m.nil
    else g.In(c) && m.parent[c] == x && g.lo[c] == lo && g.hi[c] == hi
  }

  ghost predicate Shaped(m: Mem, g: Shadow, x: Ptr)
    requires m.Sized(|g.mid|) && g.Sized(|g.mid|) && x < |g.mid|
  {
    && g.first <= g.lo[x] < g.mid[x] < g.hi[x] <= g.last
    && KidOk(m, g, x, m.left[x], g.lo[x], g.mid[x])
    && KidOk(m, g, x, m.right[x], g.mid[x], g.hi[x])
    && (x != m.root ==> g.In(m.parent[x]) && (x == m.left[m.parent[x]] || x == m.right[m.parent[x]]))
  }

  ghost predicate Shape(m: Mem, g: Shadow) {
    && g.Sized(|g.mid|)
    && m.Sized(|g.mid|)
    && !g.In(m.nil)
    && (forall x {:trigger Shaped(m, g, x)} :: g.In(x) ==> Shaped(m, g, x))
    && (if g.first + 1 == g.last then m.root == m.nil
        else g.In(m.root) && g.lo[m.root] == g.first && g.hi[m.root] == g.last)
  }

  lemma MirrorShape(m: Mem, g: Shadow)
    requires Shape(m, g)
    ensures Shape(m.Mirror(), g.Mirror())
    ensures m.Mirror().Mirror() == m && g.Mirror().Mirror() == g
  {
    var m', g' := m.Mirror(), g.Mirror();
    forall x | g'.In(x) ensures Shaped(m', g', x) {
      assert Shaped(m, g, x);
    }
    assert Negated(Negated(g.lo)) == g.lo;
    assert Negated(Negated(g.mid)) == g.mid;
    assert Negated(Negated(g.hi)) == g.hi;
  }

  // ---- rotation ----

  ghost predicate CanRotate(m: Mem, g: Shadow, x: Ptr)
  {
    Shape(m, g) && g.In(x) && m.right[x] != m.nil
  }

  lemma Neighbours(m: Mem, g: Shadow, x: Ptr)
    requires CanRotate(m, g, x)
    ensures var y := m.right[x]; g.In(y) && y != x && Shaped(m, g, x) && Shaped(m, g, y) && m.left[y] != x && m.left[y] != y
    ensures m.left[m.right[x]] != m.nil ==> g.In(m.left[m.right[x]])
    ensures x != m.root ==> g.In(m.parent[x]) && Shaped(m, g, m.parent[x]) && m.parent[x] != m.right[x] && m.parent[x] != x
  {
    assert Shaped(m, g, x);
    assert Shaped(m, g, m.right[x]);
    if x != m.root { assert Shaped(m, g, m.parent[x]); }
  }

  function LeftRotated(m: Mem, x: Ptr): (r: Mem)
    requires m.Sized(|m.left|) && x < |m.left|
    requires m.right[x] < |m.left| && m.left[m.right[x]] < |m.left|
    requires x != m.root ==> m.parent[x] < |m.left|
    ensures r.Sized(|m.left|)
  {
    var y := m.right[x];
    var b := m.left[y];
    var m1 := m.(right := m.right[x := b]);
    var m2 := if b != m.nil then m1.(parent := m1.parent[b := x]) else m1;
    var p := m2.parent[x];
    var m3 := m2.(parent := m2.parent[y := p]);
    var m4 :=
      if x == m.root then m3.(root := y)
      else if x == m3.left[p] then m3.(left := m3.left[p := y])
      else m3.(right := m3.right[p := y]);
    m4.(left := m4.left[y := x], parent := m4.parent[x := y])
  }

  ghost function RotatedShadow(g: Shadow, x: Ptr, y: Ptr): (r: Shadow)
    requires g.Sized(|g.mid|) && x < |g.mid| && y < |g.mid|
  {
    g.(lo := g.lo[y := g.lo[x]], hi := g.hi[x := g.mid[y]])
  }

  // What a left rotation at x leaves in the links of node n.
  ghost predicate Turned(m: Mem, k: Mem, x: Ptr, n: Ptr)
    requires m.Sized(|m.left|) && k.Sized(|m.left|) && n < |m.left| && x < |m.left| && m.right[x] < |m.left|
  {
    var y := m.right[x];
    && k.left[n] == (if n == y then x else if x != m.root && n == m.parent[x] && m.left[n] == x then y else m.left[n])
    && k.right[n] == (if n == x then m.left[y] else if x != m.root && n == m.parent[x] && m.left[n] != x then y else m.right[n])
    && k.parent[n] == (if n == x then y else if n == y then m.parent[x] else if n == m.left[y] && n != m.nil then x else m.parent[n])
  }

  ghost predicate AllTurned(m: Mem, k: Mem, x: Ptr)
    requires m.Sized(|m.left|) && x < |m.left| && m.right[x] < |m.left|
  {
    && k.Sized(|m.left|)
    && k.nil == m.nil && k.root == (if x == m.root then m.right[x] else m.root)
    && forall n {:trigger Turned(m, k, x, n)} :: 0 <= n < |m.left| ==> Turned(m, k, x, n)
  }

  lemma RotationTurnsAt(m: Mem, g: Shadow, x: Ptr, n: Ptr)
    requires CanRotate(m, g, x) && n < |m.left|
    ensures g.In(m.right[x]) && m.left[m.right[x]] < |m.left| && (x != m.root ==> m.parent[x] < |m.left|)
    ensures Turned(m, LeftRotated(m, x), x, n)
  {
    Neighbours(m, g, x);
  }

  lemma RotationTurns(m: Mem, g: Shadow, x: Ptr)
    requires CanRotate(m, g, x)
    ensures g.In(m.right[x]) && m.left[m.right[x]] < |m.left| && (x != m.root ==> m.parent[x] < |m.left|)
    ensures AllTurned(m, LeftRotated(m, x), x)
  {
    Neighbours(m, g, x);
    forall n: nat | n < |m.left| ensures Turned(m, LeftRotated(m, x), x, n) {
      RotationTurnsAt(m, g, x, n);
    }
  }

  lemma TurnedLeft(m: Mem, g: Shadow, k: Mem, h: Shadow, x: Ptr, n: Ptr)
    requires CanRotate(m, g, x) && g.In(m.right[x]) && AllTurned(m, k, x)
    requires h == RotatedShadow(g, x, m.right[x])
    requires g.In(n)
    ensures h.lo[n] < h.mid[n] && KidOk(k, h, n, k.left[n], h.lo[n], h.mid[n])
  {
    Neighbours(m, g, x);
    assert Shaped(m, g, n);
    assert Turned(m, k, x, n);
    var c := k.left[n];
    if c < |m.left| { assert Turned(m, k, x, c); }
  }

  lemma TurnedRight(m: Mem, g: Shadow, k: Mem, h: Shadow, x: Ptr, n: Ptr)
    requires CanRotate(m, g, x) && g.In(m.right[x]) && AllTurned(m, k, x)
    requires h == RotatedShadow(g, x, m.right[x])
    requires g.In(n)
    ensures h.mid[n] < h.hi[n] && KidOk(k, h, n, k.right[n], h.mid[n], h.hi[n])
  {
    Neighbours(m, g, x);
    assert Shaped(m, g, n);
    assert Turned(m, k, x, n);
    var c := k.right[n];
    if c < |m.left| { assert Turned(m, k, x, c); }
  }

  lemma TurnedUp(m: Mem, g: Shadow, k: Mem, h: Shadow, x: Ptr, n: Ptr)
    requires CanRotate(m, g, x) && g.In(m.right[x]) && AllTurned(m, k, x)
    requires h == RotatedShadow(g, x, m.right[x])
    requires g.In(n) && n != k.root
    ensures h.In(k.parent[n]) && (n == k.left[k.parent[n]] || n == k.right[k.parent[n]])
  {
    Neighbours(m, g, x);
    assert Shaped(m, g, n);
    assert Turned(m, k, x, n);
    if k.parent[n] < |m.left| { assert Turned(m, k, x, k.parent[n]); }
  }

  lemma RotateShape(m: Mem, g: Shadow, x: Ptr)
    requires CanRotate(m, g, x)
    ensures g.In(m.right[x]) && m.left[m.right[x]] < |m.left| && (x != m.root ==> m.parent[x] < |m.left|)
    ensures Shape(LeftRotated(m, x), RotatedShadow(g, x, m.right[x]))
  {
    RotationTurns(m, g, x);
    TurnedShape(m, g, LeftRotated(m, x), x);
  }

  lemma TurnedShape(m: Mem, g: Shadow, k: Mem, x: Ptr)
    requires CanRotate(m, g, x) && g.In(m.right[x]) && AllTurned(m, k, x)
    ensures Shape(k, RotatedShadow(g, x, m.right[x]))
  {
    Neighbours(m, g, x);
    var h := RotatedShadow(g, x, m.right[x]);
    forall n | h.In(n) ensures Shaped(k, h, n) {
      assert Shaped(m, g, n);
      TurnedLeft(m, g, k, h, x, n);
      TurnedRight(m, g, k, h, x, n);
      if n != k.root { TurnedUp(m, g, k, h, x, n); }
    }
    if m.root != m.nil { assert Shaped(m, g, m.root); }
  }

  function RightRotated(m: Mem, x: Ptr): (r: Mem)
    requires m.Sized(|m.left|) && x < |m.left|
    requires m.left[x] < |m.left| && m.right[m.left[x]] < |m.left|
    requires x != m.root ==> m.parent[x] < |m.left|
    ensures r.Sized(|m.left|)
  {
    var y := m.left[x];
    var b := m.right[y];
    var m1 := m.(left := m.left[x := b]);
    var m2 := if b != m.nil then m1.(parent := m1.parent[b := x]) else m1;
    var p := m2.parent[x];
    var m3 := m2.(parent := m2.parent[y := p]);
    var m4 :=
      if x == m.root then m3.(root := y)
      else if x == m3.right[p] then m3.(right := m3.right[p := y])
      else m3.(left := m3.left[p := y]);
    m4.(right := m4.right[y := x], parent := m4.parent[x := y])
  }

  ghost function RightShadow(g: Shadow, x: Ptr, y: Ptr): (r: Shadow)
    requires g.Sized(|g.mid|) && x < |g.mid| && y < |g.mid|
  {
    g.(hi := g.hi[y := g.hi[x]], lo := g.lo[x := g.mid[y]])
  }

  lemma RightIsMirroredLeft(m: Mem, g: Shadow, x: Ptr)
    requires Shape(m, g) && g.In(x) && g.In(m.left[x])
    requires m.right[m.left[x]] < |m.left| && (x != m.root ==> m.parent[x] < |m.left|)
    ensures RightRotated(m, x) == LeftRotated(m.Mirror(), x).Mirror()
    ensures RightShadow(g, x, m.left[x]) == RotatedShadow(g.Mirror(), x, m.left[x]).Mirror()
  {
    var y := m.left[x];
    var h := RotatedShadow(g.Mirror(), x, y);
    assert Negated(h.mid) == g.mid;
    assert Negated(h.hi) == g.lo[x := g.mid[y]];
    assert Negated(h.lo) == g.hi[y := g.hi[x]];
  }
}
