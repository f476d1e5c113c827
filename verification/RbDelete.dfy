module RbDelete {
  import opened RbShape
  import opened RbColor
  import opened RbSplice

  // The paths through the left link of p, to t, miss one black node; t may be red under a red
  // parent or over red children.
  ghost predicate Short(m: Mem, g: Shadow, c: Paint, t: Ptr, p: Ptr)
  {
    && State(m, g, c, Flaw(t, t, p, true))
    && g.In(p) && t == m.left[p] && t < |m.left| && m.parent[t] == p
  }

  lemma Sibling(m: Mem, g: Shadow, c: Paint, t: Ptr, p: Ptr)
    requires Short(m, g, c, t, p) && !c.red[t]
    ensures var w := m.right[p];
      && g.In(w) && w != p && w != t && t != p
      && m.left[w] < |m.left| && m.right[w] < |m.left| && m.left[w] != p && m.right[w] != p
      && (c.red[w] ==> !c.red[p] && !c.red[m.left[w]] && !c.red[m.right[w]] && m.left[w] != m.nil)
      && (m.left[w] == t ==> t == m.nil) && (m.right[w] == t ==> t == m.nil)
      && (m.left[w] != m.nil ==> g.In(m.left[w])) && (m.right[w] != m.nil ==> g.In(m.right[w]))
  {
    var f := Flaw(t, t, p, true);
    assert Shaped(m, g, p) && Colored(m, c, f, p);
    if t != m.nil { assert Colored(m, c, f, t); }
    var w := m.right[p];
    assert Shaped(m, g, w) && Colored(m, c, f, w);
  }

  // Case 1: a red sibling is rotated above p; the new sibling is black.
  lemma RedSibling(m: Mem, g: Shadow, c: Paint, t: Ptr, p: Ptr, w: Ptr)
    requires Short(m, g, c, t, p) && !c.red[t] && w == m.right[p] && w < |c.red| && c.red[w]
    ensures CanRotate(m, g, p) && g.In(w) && m.left[w] < |m.left| && (p != m.root ==> m.parent[p] < |m.left|)
    ensures Short(LeftRotated(m, p), RotatedShadow(g, p, w), c.(red := Swapped(c.red, p, w)), t, p)
    ensures LeftRotated(m, p).right[p] == m.left[w] && !c.red[m.left[w]] && m.left[w] != p && m.left[w] != w
  {
    Sibling(m, g, c, t, p);
    var f := Flaw(t, t, p, true);
    assert Shaped(m, g, p) && Shaped(m, g, w);
    assert Colored(m, c, f, p) && Colored(m, c, f, w);
    assert CanSwap(m, g, c, f, p);
    SwapRotate(m, g, c, f, p);
    RotationTurnsAt(m, g, p, t);
    RotationTurnsAt(m, g, p, p);
  }

  // The loop state of a delete fixup: t stands for the missing black node, or is the root.
  ghost predicate Lacking(m: Mem, g: Shadow, c: Paint, t: Ptr)
  {
    && m.Sized(|m.left|) && t < |m.left|
    && (t == m.root ==> State(m, g, c, Flaw(t, t, m.nil, true)))
    && (t != m.root ==>
          && g.In(m.parent[t]) && m.parent[t] < |m.left|
          && (t == m.left[m.parent[t]] || t == m.right[m.parent[t]])
          && State(m, g, c, Flaw(t, t, m.parent[t], t == m.left[m.parent[t]])))
  }

  ghost predicate BlackKids(m: Mem, c: Paint, w: Ptr)
    requires m.Sized(|c.red|) && w < |c.red|
  {
    m.left[w] < |c.red| && m.right[w] < |c.red| && !c.red[m.left[w]] && !c.red[m.right[w]]
  }

  lemma BlackSiblingAt(m: Mem, g: Shadow, c: Paint, t: Ptr, p: Ptr, w: Ptr, e: Paint, h: Flaw, n: Ptr)
    requires Short(m, g, c, t, p) && !c.red[t] && w == m.right[p] && g.In(w) && !c.red[w] && BlackKids(m, c, w)
    requires e == Paint(c.red[w := true], c.bh[p := c.bh[p] - 1])
    requires h.up == p && h.down == p
    requires if p == m.root then h.short == m.nil else h.short == m.parent[p] && h.short < |c.red| && h.onLeft == (p == m.left[h.short])
    requires g.In(n)
    ensures Colored(m, e, h, n)
  {
    var f := Flaw(t, t, p, true);
    Sibling(m, g, c, t, p);
    assert Shaped(m, g, p) && Colored(m, c, f, p);
    assert Shaped(m, g, w) && Colored(m, c, f, w);
    assert Shaped(m, g, n) && Colored(m, c, f, n);
    if t != m.nil { assert Colored(m, c, f, t); }
  }

  // Case 2: a black sibling with black children turns red and the lack moves up to p.
  lemma BlackSibling(m: Mem, g: Shadow, c: Paint, t: Ptr, p: Ptr, w: Ptr)
    requires Short(m, g, c, t, p) && !c.red[t] && w == m.right[p] && g.In(w) && !c.red[w] && BlackKids(m, c, w)
    ensures Lacking(m, g, Paint(c.red[w := true], c.bh[p := c.bh[p] - 1]), p)
    ensures g.hi[p] - g.lo[p] > 1 && (t != m.nil ==> g.In(t) && g.hi[p] - g.lo[p] > g.hi[t] - g.lo[t])
  {
    var e := Paint(c.red[w := true], c.bh[p := c.bh[p] - 1]);
    assert Shaped(m, g, p) && Shaped(m, g, w);
    var h := if p == m.root then Flaw(p, p, m.nil, true) else Flaw(p, p, m.parent[p], p == m.left[m.parent[p]]);
    forall n | g.In(n) ensures Colored(m, e, h, n) {
      BlackSiblingAt(m, g, c, t, p, w, e, h, n);
    }
  }

  // Case 3: the sibling's near child is red and its far child black; a rotation at the sibling
  // makes the far child red.
  lemma NearRed(m: Mem, g: Shadow, c: Paint, t: Ptr, p: Ptr, w: Ptr, y: Ptr)
    requires Short(m, g, c, t, p) && !c.red[t] && w == m.right[p] && g.In(w) && !c.red[w]
    requires y == m.left[w] && y < |c.red| && c.red[y] && m.right[w] < |c.red| && !c.red[m.right[w]]
    ensures CanRotate(m.Mirror(), g.Mirror(), w) && g.In(y) && m.right[y] < |m.left| && w != m.root && m.parent[w] < |m.left|
    ensures Short(RightRotated(m, w), RightShadow(g, w, y), c.(red := Swapped(c.red, w, y)), t, p)
    ensures RightRotated(m, w).right[p] == y && RightRotated(m, w).right[y] == w && y != p && w != p
  {
    Sibling(m, g, c, t, p);
    var f := Flaw(t, t, p, true);
    MirrorState(m, g, c, f);
    assert Shaped(m, g, w) && Shaped(m, g, y) && Shaped(m, g, p);
    assert Colored(m, c, f, y);
    var m', g' := m.Mirror(), g.Mirror();
    NearRedMirrored(m', g', c, t, p, w, y);
    RightIsMirroredLeft(m, g, w);
    MirrorState(LeftRotated(m', w), RotatedShadow(g', w, y), c.(red := Swapped(c.red, w, y)), f.Mirror());
  }

  lemma NearRedMirrored(m: Mem, g: Shadow, c: Paint, t: Ptr, p: Ptr, w: Ptr, y: Ptr)
    requires State(m, g, c, Flaw(t, t, p, false)) && g.In(p) && t == m.right[p] && t < |m.left| && m.parent[t] == p
    requires !c.red[t] && w == m.left[p] && g.In(w) && !c.red[w] && w != t && w != p && t != p
    requires y == m.right[w] && g.In(y) && c.red[y] && m.left[w] < |c.red| && !c.red[m.left[w]] && (y == t ==> t == m.nil)
    ensures CanRotate(m, g, w) && m.left[y] < |m.left| && w != m.root && m.parent[w] < |m.left|
    ensures State(LeftRotated(m, w), RotatedShadow(g, w, y), c.(red := Swapped(c.red, w, y)), Flaw(t, t, p, false))
    ensures var k := LeftRotated(m, w); k.right[p] == t && k.parent[t] == p && k.left[p] == y && k.left[y] == w
  {
    var f := Flaw(t, t, p, false);
    assert Shaped(m, g, w) && Shaped(m, g, y) && Shaped(m, g, p);
    assert Colored(m, c, f, y);
    assert CanSwap(m, g, c, f, w);
    SwapRotate(m, g, c, f, w);
    RotationTurnsAt(m, g, w, t);
    RotationTurnsAt(m, g, w, p);
    RotationTurnsAt(m, g, w, y);
    if t != m.nil { assert Shaped(m, g, t); }
  }

  function FarPainted(red: seq<bool>, p: Ptr, w: Ptr, far: Ptr): seq<bool>
    requires p < |red| && w < |red| && far < |red|
  {
    red[w := red[p]][p := false][far := false]
  }

  ghost predicate FarCase(m: Mem, g: Shadow, c: Paint, t: Ptr, p: Ptr, w: Ptr)
  {
    && Short(m, g, c, t, p) && !c.red[t] && w == m.right[p] && g.In(w) && !c.red[w]
    && m.right[w] < |c.red| && c.red[m.right[w]]
  }

  lemma FarRedTop(m: Mem, g: Shadow, c: Paint, t: Ptr, p: Ptr, w: Ptr, k: Mem, e: Paint, n: Ptr)
    requires FarCase(m, g, c, t, p, w) && AllTurned(m, k, p)
    requires e == Paint(FarPainted(c.red, p, w, m.right[w]), c.bh[p := c.bh[p] - 1][w := c.bh[w] + 1])
    requires g.In(n) && (n == p || n == w)
    ensures Colored(k, e, NoFlaw(m), n)
  {
    var f := Flaw(t, t, p, true);
    Sibling(m, g, c, t, p);
    assert Shaped(m, g, p) && Colored(m, c, f, p);
    assert Shaped(m, g, w) && Colored(m, c, f, w);
    assert Turned(m, k, p, n);
    if t != m.nil { assert Colored(m, c, f, t); }
  }

  lemma FarRedRestEven(m: Mem, g: Shadow, c: Paint, t: Ptr, p: Ptr, w: Ptr, k: Mem, e: Paint, n: Ptr)
    requires FarCase(m, g, c, t, p, w) && AllTurned(m, k, p)
    requires e == Paint(FarPainted(c.red, p, w, m.right[w]), c.bh[p := c.bh[p] - 1][w := c.bh[w] + 1])
    requires g.In(n) && n != p && n != w
    ensures Even(k, e, NoFlaw(m), n)
  {
    var f := Flaw(t, t, p, true);
    assert Shaped(m, g, p) && Colored(m, c, f, p);
    assert Shaped(m, g, w);
    assert Shaped(m, g, n) && Colored(m, c, f, n);
    assert Turned(m, k, p, n);
  }

  lemma FarRedRestReds(m: Mem, g: Shadow, c: Paint, t: Ptr, p: Ptr, w: Ptr, k: Mem, e: Paint, n: Ptr)
    requires FarCase(m, g, c, t, p, w) && AllTurned(m, k, p)
    requires e == Paint(FarPainted(c.red, p, w, m.right[w]), c.bh[p := c.bh[p] - 1][w := c.bh[w] + 1])
    requires g.In(n) && n != p && n != w
    ensures NoRedRed(k, e, NoFlaw(m), n)
  {
    var f := Flaw(t, t, p, true);
    assert Shaped(m, g, p);
    assert Shaped(m, g, w);
    assert Shaped(m, g, n) && Colored(m, c, f, n);
    assert Turned(m, k, p, n);
  }

  // Case 4: the sibling's far child is red; one rotation at p supplies the missing black node.
  lemma FarRed(m: Mem, g: Shadow, c: Paint, t: Ptr, p: Ptr, w: Ptr)
    requires FarCase(m, g, c, t, p, w)
    ensures CanRotate(m, g, p) && m.left[w] < |m.left| && (p != m.root ==> m.parent[p] < |m.left|)
    ensures State(LeftRotated(m, p), RotatedShadow(g, p, w),
                  Paint(FarPainted(c.red, p, w, m.right[w]), c.bh[p := c.bh[p] - 1][w := c.bh[w] + 1]), NoFlaw(m))
  {
    RotationTurns(m, g, p);
    FarTurned(m, g, c, t, p, w, LeftRotated(m, p));
  }

  lemma FarTurned(m: Mem, g: Shadow, c: Paint, t: Ptr, p: Ptr, w: Ptr, k: Mem)
    requires FarCase(m, g, c, t, p, w) && AllTurned(m, k, p)
    ensures State(k, RotatedShadow(g, p, w),
                  Paint(FarPainted(c.red, p, w, m.right[w]), c.bh[p := c.bh[p] - 1][w := c.bh[w] + 1]), NoFlaw(m))
  {
    var e := Paint(FarPainted(c.red, p, w, m.right[w]), c.bh[p := c.bh[p] - 1][w := c.bh[w] + 1]);
    Sibling(m, g, c, t, p);
    TurnedShape(m, g, k, p);
    assert !e.red[k.root] by { assert Shaped(m, g, p) && Shaped(m, g, w) && Shaped(m, g, m.right[w]); }
    forall n | g.In(n) ensures Colored(k, e, NoFlaw(m), n) {
      if n == p || n == w { FarRedTop(m, g, c, t, p, w, k, e, n); } else { FarRedRestEven(m, g, c, t, p, w, k, e, n); FarRedRestReds(m, g, c, t, p, w, k, e, n); }
    }
  }

  lemma BlackenAt(m: Mem, g: Shadow, c: Paint, t: Ptr, e: Paint, n: Ptr)
    requires Lacking(m, g, c, t) && (t == m.root || c.red[t]) && g.In(n)
    requires e == c.(red := c.red[t := false])
    ensures Colored(m, e, NoFlaw(m), n)
  {
    var f := if t == m.root then Flaw(t, t, m.nil, true) else Flaw(t, t, m.parent[t], t == m.left[m.parent[t]]);
    assert Shaped(m, g, n) && Colored(m, c, f, n);
    if t != m.root { assert Shaped(m, g, m.parent[t]); }
  }

  // Painting t black ends the fixup: nothing is out of balance any more.
  lemma Blacken(m: Mem, g: Shadow, c: Paint, t: Ptr)
    requires Lacking(m, g, c, t) && (t == m.root || c.red[t])
    ensures State(m, g, c.(red := c.red[t := false]), NoFlaw(m))
  {
    var e := c.(red := c.red[t := false]);
    forall n | g.In(n) ensures Colored(m, e, NoFlaw(m), n) {
      BlackenAt(m, g, c, t, e, n);
    }
  }

  // ---- the same cases with t on the right ----

  ghost predicate ShortRight(m: Mem, g: Shadow, c: Paint, t: Ptr, p: Ptr)
  {
    && State(m, g, c, Flaw(t, t, p, false))
    && g.In(p) && t == m.right[p] && t < |m.left| && m.parent[t] == p
  }

  lemma MirrorShort(m: Mem, g: Shadow, c: Paint, t: Ptr, p: Ptr)
    requires ShortRight(m, g, c, t, p)
    ensures Short(m.Mirror(), g.Mirror(), c, t, p)
    ensures m.Mirror().Mirror() == m && g.Mirror().Mirror() == g
  {
    MirrorState(m, g, c, Flaw(t, t, p, false));
  }

  lemma UnmirrorShort(m: Mem, g: Shadow, c: Paint, t: Ptr, p: Ptr)
    requires Short(m, g, c, t, p)
    ensures ShortRight(m.Mirror(), g.Mirror(), c, t, p)
    ensures m.Mirror().Mirror() == m && g.Mirror().Mirror() == g
  {
    MirrorState(m, g, c, Flaw(t, t, p, true));
  }

  lemma LackingSides(m: Mem, g: Shadow, c: Paint, t: Ptr)
    requires Lacking(m, g, c, t) && t != m.root
    ensures if t == m.left[m.parent[t]] then Short(m, g, c, t, m.parent[t]) else ShortRight(m, g, c, t, m.parent[t])
  {
  }

  lemma UnmirrorLacking(m: Mem, g: Shadow, c: Paint, t: Ptr)
    requires Lacking(m, g, c, t) && g.In(t)
    ensures Lacking(m.Mirror(), g.Mirror(), c, t)
  {
    if t == m.root {
      MirrorState(m, g, c, Flaw(t, t, m.nil, true));
      forall x | g.Mirror().In(x) ensures Colored(m.Mirror(), c, Flaw(t, t, m.nil, true), x) {
        assert Colored(m.Mirror(), c, Flaw(t, t, m.nil, false), x);
      }
    } else {
      var p := m.parent[t];
      MirrorState(m, g, c, Flaw(t, t, p, t == m.left[p]));
      assert Shaped(m, g, t) && Shaped(m, g, p);
    }
  }

  lemma RedSiblingRight(m: Mem, g: Shadow, c: Paint, t: Ptr, p: Ptr, w: Ptr)
    requires ShortRight(m, g, c, t, p) && !c.red[t] && w == m.left[p] && w < |c.red| && c.red[w]
    ensures CanRotate(m.Mirror(), g.Mirror(), p) && g.In(w) && m.right[w] < |m.left| && (p != m.root ==> m.parent[p] < |m.left|)
    ensures ShortRight(RightRotated(m, p), RightShadow(g, p, w), c.(red := Swapped(c.red, p, w)), t, p)
    ensures RightRotated(m, p).left[p] == m.right[w] && !c.red[m.right[w]] && m.right[w] != p && m.right[w] != w
  {
    MirrorShort(m, g, c, t, p);
    RedSibling(m.Mirror(), g.Mirror(), c, t, p, w);
    RightIsMirroredLeft(m, g, p);
    UnmirrorShort(LeftRotated(m.Mirror(), p), RotatedShadow(g.Mirror(), p, w), c.(red := Swapped(c.red, p, w)), t, p);
  }

  lemma BlackSiblingRight(m: Mem, g: Shadow, c: Paint, t: Ptr, p: Ptr, w: Ptr)
    requires ShortRight(m, g, c, t, p) && !c.red[t] && w == m.left[p] && g.In(w) && !c.red[w] && BlackKids(m, c, w)
    ensures Lacking(m, g, Paint(c.red[w := true], c.bh[p := c.bh[p] - 1]), p)
    ensures g.hi[p] - g.lo[p] > 1 && (t != m.nil ==> g.In(t) && g.hi[p] - g.lo[p] > g.hi[t] - g.lo[t])
  {
    MirrorShort(m, g, c, t, p);
    BlackSibling(m.Mirror(), g.Mirror(), c, t, p, w);
    UnmirrorLacking(m.Mirror(), g.Mirror(), Paint(c.red[w := true], c.bh[p := c.bh[p] - 1]), p);
  }

  lemma NearRedRight(m: Mem, g: Shadow, c: Paint, t: Ptr, p: Ptr, w: Ptr, y: Ptr)
    requires ShortRight(m, g, c, t, p) && !c.red[t] && w == m.left[p] && g.In(w) && !c.red[w]
    requires y == m.right[w] && y < |c.red| && c.red[y] && m.left[w] < |c.red| && !c.red[m.left[w]]
    ensures CanRotate(m, g, w) && g.In(y) && m.left[y] < |m.left| && w != m.root && m.parent[w] < |m.left|
    ensures ShortRight(LeftRotated(m, w), RotatedShadow(g, w, y), c.(red := Swapped(c.red, w, y)), t, p)
    ensures LeftRotated(m, w).left[p] == y && LeftRotated(m, w).left[y] == w && y != p && w != p
  {
    MirrorShort(m, g, c, t, p);
    Sibling(m.Mirror(), g.Mirror(), c, t, p);
    NearRedMirrored(m, g, c, t, p, w, y);
  }

  lemma FarRedRight(m: Mem, g: Shadow, c: Paint, t: Ptr, p: Ptr, w: Ptr)
    requires ShortRight(m, g, c, t, p) && !c.red[t] && w == m.left[p] && g.In(w) && !c.red[w]
    requires m.left[w] < |c.red| && c.red[m.left[w]]
    ensures CanRotate(m.Mirror(), g.Mirror(), p) && m.right[w] < |m.left| && (p != m.root ==> m.parent[p] < |m.left|)
    ensures State(RightRotated(m, p), RightShadow(g, p, w),
                  Paint(FarPainted(c.red, p, w, m.left[w]), c.bh[p := c.bh[p] - 1][w := c.bh[w] + 1]), NoFlaw(m))
  {
    MirrorShort(m, g, c, t, p);
    FarRed(m.Mirror(), g.Mirror(), c, t, p, w);
    RightIsMirroredLeft(m, g, p);
    var k, h, e := LeftRotated(m.Mirror(), p), RotatedShadow(g.Mirror(), p, w),
      Paint(FarPainted(c.red, p, w, m.left[w]), c.bh[p := c.bh[p] - 1][w := c.bh[w] + 1]);
    MirrorState(k, h, e, NoFlaw(m));
    forall x | h.Mirror().In(x) ensures Colored(k.Mirror(), e, NoFlaw(m), x) {
      assert Colored(k, e, NoFlaw(m), x);
    }
  }

  lemma SiblingRight(m: Mem, g: Shadow, c: Paint, t: Ptr, p: Ptr)
    requires ShortRight(m, g, c, t, p) && !c.red[t]
    ensures var w := m.left[p];
      && g.In(w) && w != p && w != t && t != p
      && m.left[w] < |m.left| && m.right[w] < |m.left|
      && (c.red[w] ==> !c.red[p])
  {
    MirrorShort(m, g, c, t, p);
    Sibling(m.Mirror(), g.Mirror(), c, t, p);
  }

  ghost predicate FarCaseRight(m: Mem, g: Shadow, c: Paint, t: Ptr, p: Ptr, w: Ptr)
  {
    && ShortRight(m, g, c, t, p) && !c.red[t] && w == m.left[p] && g.In(w) && !c.red[w]
    && m.left[w] < |c.red| && c.red[m.left[w]]
  }

  lemma RootLacks(m: Mem, g: Shadow, c: Paint)
    requires State(m, g, c, NoFlaw(m))
    ensures Lacking(m, g, c, m.root)
  {
    forall x | g.In(x) ensures Colored(m, c, Flaw(m.root, m.root, m.nil, true), x) {
      assert Colored(m, c, NoFlaw(m), x);
    }
  }

  // ---- taking a node out ----

  // The cleared fields of a node that left the tree.
  function Scrubbed(m: Mem, d: Ptr): (r: Mem)
    requires m.Sized(|m.left|) && d < |m.left|
  {
    m.(left := m.left[d := 0], right := m.right[d := 0], parent := m.parent[d := 0])
  }

  lemma ScrubState(m: Mem, g: Shadow, c: Paint, f: Flaw, d: Ptr)
    requires State(m, g, c, f) && d < |m.left| && !g.In(d) && d != m.nil
    ensures State(Scrubbed(m, d), g, c, f)
  {
    var r := Scrubbed(m, d);
    forall n | g.In(n) ensures Shaped(r, g, n) && Colored(r, c, f, n) {
      assert Shaped(m, g, n) && Colored(m, c, f, n);
    }
  }

  lemma ScrubLacking(m: Mem, g: Shadow, c: Paint, t: Ptr, d: Ptr)
    requires Lacking(m, g, c, t) && d < |m.left| && !g.In(d) && d != m.nil && d != t
    ensures Lacking(Scrubbed(m, d), g, c, t)
  {
    if t == m.root {
      ScrubState(m, g, c, Flaw(t, t, m.nil, true), d);
    } else {
      ScrubState(m, g, c, Flaw(t, t, m.parent[t], t == m.left[m.parent[t]]), d);
    }
  }

  // Unlinking a black node leaves its only child, or the sentinel, one black node short.
  lemma SpliceLacks(order: seq<Ptr>, m: Mem, g: Shadow, c: Paint, s: Ptr, t: Ptr)
    requires CanSplice(order, m, g, s, t) && State(m, g, c, NoFlaw(m))
    requires s == m.root || !c.red[s]
    ensures Lacking(Spliced(m, s, t), SplicedShadow(g, s), c, t)
    ensures t != s && (s != m.root ==> t != Spliced(m, s, t).root)
  {
    SpliceColors(order, m, g, c, s, t);
    assert Shaped(m, g, s) && Colored(m, c, NoFlaw(m), s);
    if s != m.root {
      var p := m.parent[s];
      assert Shaped(m, g, p) && Colored(m, c, NoFlaw(m), p);
      if t != m.nil { assert Shaped(m, g, t); }
    }
  }

  // The new parent of t, once s has left its place and taken that of d.
  ghost function Heir(m: Mem, d: Ptr, s: Ptr): Ptr
    requires s < |m.parent|
  {
    if m.parent[s] == d then s else m.parent[s]
  }

  // The pointer moves of ngx_rbtree_delete when a successor s takes the place of node d.
  function Substituted(m: Mem, d: Ptr, s: Ptr, t: Ptr): (r: Mem)
    requires m.Sized(|m.left|) && d < |m.left| && s < |m.left| && t < |m.left|
    requires m.parent[s] < |m.left| && (d != m.root ==> m.parent[d] < |m.left|)
    requires m.left[d] < |m.left| && m.right[d] < |m.left| && d != s && t != d
  {
    var p := m.parent[s];
    var m1 := if s == m.left[p] then m.(left := m.left[p := t]) else m.(right := m.right[p := t]);
    var m2 := m1.(parent := m1.parent[t := if p == d then s else p]);
    Replaced(m2, d, s)
  }

  ghost predicate CanSubstitute(order: seq<Ptr>, m: Mem, g: Shadow, d: Ptr, s: Ptr, t: Ptr)
  {
    && Shape(m, g) && Indexed(order, g) && g.In(d) && m.left[d] != m.nil && m.right[d] != m.nil
    && g.In(s) && g.mid[s] == g.mid[d] + 1 && m.left[s] == m.nil && t == m.right[s]
  }

  lemma SubstituteFacts(order: seq<Ptr>, m: Mem, g: Shadow, d: Ptr, s: Ptr, t: Ptr)
    requires CanSubstitute(order, m, g, d, s, t)
    ensures CanSplice(order, m, g, s, t) && s != m.root && d != s && t != d && t != s && m.parent[s] != s && m.parent[s] != t
    ensures m.left[d] < |m.left| && m.right[d] < |m.left| && (d != m.root ==> g.In(m.parent[d]))
  {
    assert Shaped(m, g, d) && Shaped(m, g, s) && Placed(order, g, s) && Placed(order, g, d);
    assert Shaped(m, g, m.parent[s]);
    if t != m.nil { assert Shaped(m, g, t); }
  }

  lemma SubstituteReplaces(order: seq<Ptr>, m: Mem, g: Shadow, d: Ptr, s: Ptr, t: Ptr)
    requires CanSubstitute(order, m, g, d, s, t) && CanSplice(order, m, g, s, t)
    requires s != m.root && d != s && t != d && t != s && m.parent[s] != s
    requires m.left[d] < |m.left| && m.right[d] < |m.left| && (d != m.root ==> m.parent[d] < |m.left|)
    ensures CanReparent(Spliced(m, s, t), SplicedShadow(g, s), d, s, t, Heir(m, d, s))
    ensures var k := Spliced(m, s, t); Substituted(m, d, s, t) == Replaced(k.(parent := k.parent[t := Heir(m, d, s)]), d, s)
  {
    SpliceShape(order, m, g, s, t);
    SplicedShaped(order, m, g, s, t, d);
    var p, k := m.parent[s], Spliced(m, s, t);
    assert k.parent[t := Heir(m, d, s)] == m.parent[t := Heir(m, d, s)];
    assert Shaped(m, g, s);
  }

  lemma MovedLacking(m: Mem, g: Shadow, c: Paint, t: Ptr, d: Ptr, s: Ptr, r: Mem)
    requires CanReplace(m, g, d, s) && AllMoved(m, r, d, s)
    requires Lacking(m, g, c, t) && t != m.root && t != d && t != s && m.parent[t] != s
    requires r.parent[t] == if m.parent[t] == d then s else m.parent[t]
    ensures Lacking(r, ReplacedShadow(g, d, s), ReplacedPaint(c, d, s), t) && t != r.root
  {
    var p := m.parent[t];
    MovedColors(m, g, c, Flaw(t, t, p, t == m.left[p]), d, s, r);
    assert Moved(m, r, d, s, r.parent[t]);
    assert Shaped(m, g, d);
  }

  lemma SubstituteState(order: seq<Ptr>, m: Mem, g: Shadow, c: Paint, d: Ptr, s: Ptr, t: Ptr)
    requires CanSubstitute(order, m, g, d, s, t) && State(m, g, c, NoFlaw(m))
    ensures CanSplice(order, m, g, s, t) && s != m.root && d != s && t != d && t != s
    ensures m.left[d] < |m.left| && m.right[d] < |m.left| && (d != m.root ==> g.In(m.parent[d]))
    ensures var r, h, e := Substituted(m, d, s, t), ReplacedShadow(SplicedShadow(g, s), d, s), ReplacedPaint(c, d, s);
      if c.red[s] then State(r, h, e, NoFlaw(m)) else Lacking(r, h, e, t) && t != r.root
  {
    SubstituteFacts(order, m, g, d, s, t);
    SubstituteReplaces(order, m, g, d, s, t);
    var m1, g1, r := Spliced(m, s, t), SplicedShadow(g, s), Substituted(m, d, s, t);
    ReplacedMoves(m1, g1, d, s, t, Heir(m, d, s));
    if c.red[s] {
      SpliceColors(order, m, g, c, s, t);
      MovedColors(m1, g1, c, NoFlaw(m), d, s, r);
    } else {
      SpliceLacks(order, m, g, c, s, t);
      ReplacedParent(m1, g1, d, s, t, Heir(m, d, s), t);
      SplicedParent(order, m, g, d, s, t);
      MovedLacking(m1, g1, c, t, d, s, r);
    }
  }

  lemma SplicedParent(order: seq<Ptr>, m: Mem, g: Shadow, d: Ptr, s: Ptr, t: Ptr)
    requires CanSubstitute(order, m, g, d, s, t) && CanSplice(order, m, g, s, t) && s != m.root && t != s && t != d
    ensures Spliced(m, s, t).parent[t] == m.parent[s]
    ensures var k := Spliced(m, s, t); t != m.nil && (t == k.left[d] || t == k.right[d]) ==> m.parent[s] == d
  {
    assert Shaped(m, g, s) && Shaped(m, g, d);
    if t != m.nil { assert Shaped(m, g, t); }
  }

  // Taking out the successor and renaming d to it removes d from the sequence.
  lemma SubstitutedOrder(order: seq<Ptr>, g: Shadow, d: Ptr, s: Ptr)
    requires g.Sized(|g.mid|) && Indexed(order, g) && g.In(d) && g.In(s) && g.mid[s] == g.mid[d] + 1
    ensures 0 <= g.mid[d] < |order|
    ensures Indexed(Removed(order, g.mid[d]), ReplacedShadow(SplicedShadow(g, s), d, s))
  {
    assert Placed(order, g, s) && Placed(order, g, d);
    SpliceIndexed(order, g, s);
    ReplaceIndexed(Removed(order, g.mid[s]), SplicedShadow(g, s), d, s);
    assert Removed(order, g.mid[s])[g.mid[d] := s] == Removed(order, g.mid[d]);
  }
}
