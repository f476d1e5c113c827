/** The node graph of src/core/ngx_radix_tree.c: which path of bits each node stands for, and the
    list of recycled nodes. */
module RadixShape {
  import opened RadixBits

  type Ref = int
  const NULL: Ref := -1

  datatype Links = Links(left: seq<Ref>, right: seq<Ref>, parent: seq<Ref>)
  {
    ghost predicate Sized(n: nat) { |left| == |right| == |parent| == n }
  }

  // The nodes of the tree by their paths, the path of each node, and the recycled nodes.
  datatype View = View(at: map<Path, Ref>, path: seq<Path>, free: seq<Ref>)

  ghost function Kid(at: map<Path, Ref>, q: Path, b: bool): Ref {
    if q + [b] in at then at[q + [b]] else NULL
  }

  ghost predicate NodeOk(m: Links, v: View, q: Path)
    requires m.Sized(|v.path|) && q in v.at
  {
    var n := v.at[q];
    && 0 <= n < |v.path| && v.path[n] == q && |q| <= BITS
    && m.left[n] == Kid(v.at, q, false) && m.right[n] == Kid(v.at, q, true)
    && (if q == [] then m.parent[n] == NULL else q[..|q| - 1] in v.at && m.parent[n] == v.at[q[..|q| - 1]])
  }

  ghost predicate TreeOk(m: Links, v: View, root: Ref) {
    && m.Sized(|v.path|) && [] in v.at && v.at[[]] == root
    && forall q {:trigger NodeOk(m, v, q)} :: q in v.at ==> NodeOk(m, v, q)
  }

  ghost predicate InTree(v: View, n: Ref)
    requires 0 <= n < |v.path|
  {
    v.path[n] in v.at && v.at[v.path[n]] == n
  }

  function After(l: seq<Ref>, i: int): Ref {
    if 0 <= i < |l| then l[i] else NULL
  }

  ghost predicate FreeAt(right: seq<Ref>, l: seq<Ref>, i: int)
    requires 0 <= i < |l|
  {
    0 <= l[i] < |right| && right[l[i]] == After(l, i + 1)
  }

  ghost predicate FreeOk(right: seq<Ref>, first: Ref, l: seq<Ref>) {
    && first == After(l, 0)
    && (forall i, j :: 0 <= i < j < |l| ==> l[i] != l[j])
    && forall i {:trigger FreeAt(right, l, i)} :: 0 <= i < |l| ==> FreeAt(right, l, i)
  }

  // Node n is in the tree or recycled, and not both.
  ghost predicate Kept(v: View, n: Ref)
    requires 0 <= n < |v.path|
  {
    n in v.free <==> !InTree(v, n)
  }

  // Node x is neither, every other one is as it should.
  ghost predicate Owned(v: View, x: Ref) {
    && (forall n {:trigger Kept(v, n)} :: 0 <= n < |v.path| && n != x ==> Kept(v, n))
    && (0 <= x < |v.path| ==> x !in v.free && !InTree(v, x))
  }

  lemma NodeInTree(m: Links, v: View, root: Ref, q: Path)
    requires TreeOk(m, v, root) && q in v.at
    ensures 0 <= v.at[q] < |v.path| && InTree(v, v.at[q])
  {
    assert NodeOk(m, v, q);
  }

  // The tree is closed under taking prefixes.
  lemma {:induction false} Prefixes(m: Links, v: View, root: Ref, q: Path, k: nat)
    requires TreeOk(m, v, root) && q in v.at && k <= |q|
    ensures q[..k] in v.at
    decreases |q|
  {
    if k < |q| {
      assert NodeOk(m, v, q);
      var p := q[..|q| - 1];
      Prefixes(m, v, root, p, k);
      assert p[..k] == q[..k];
    } else {
      assert q[..k] == q;
    }
  }

  lemma SameLast(p: Path, c: bool, q: Path, b: bool)
    ensures p + [c] == q + [b] <==> p == q && c == b
  {
    if p + [c] == q + [b] {
      assert (p + [c])[..|p|] == p && (q + [b])[..|q|] == q;
      assert (p + [c])[|p|] == c && (q + [b])[|q|] == b;
    }
  }

  // ---- a new node below an old one ----

  function Grown(m: Links, u: Ref, b: bool, n: Ref): Links
    requires m.Sized(|m.left|) && 0 <= u < |m.left| && 0 <= n < |m.left|
  {
    var left, right := m.left[n := NULL], m.right[n := NULL];
    Links(if b then left else left[u := n], if b then right[u := n] else right, m.parent[n := u])
  }

  ghost predicate CanGrow(m: Links, v: View, root: Ref, q: Path, b: bool, n: Ref) {
    && TreeOk(m, v, root) && q in v.at && |q| < BITS && q + [b] !in v.at
    && 0 <= n < |v.path| && !InTree(v, n) && 0 <= v.at[q] < |v.path|
  }

  ghost function GrownView(v: View, q: Path, b: bool, n: Ref): View
    requires 0 <= n < |v.path|
  {
    View(v.at[q + [b] := n], v.path[n := q + [b]], v.free)
  }

  lemma GrownOld(m: Links, v: View, root: Ref, q: Path, b: bool, n: Ref, p: Path)
    requires CanGrow(m, v, root, q, b, n) && p in v.at
    ensures NodeOk(Grown(m, v.at[q], b, n), GrownView(v, q, b, n), p)
  {
    NodeInTree(m, v, root, p);
    NodeInTree(m, v, root, q);
    assert NodeOk(m, v, p);
    assert NodeOk(m, v, q);
    SameLast(p, false, q, b);
    SameLast(p, true, q, b);
  }

  lemma GrownNew(m: Links, v: View, root: Ref, q: Path, b: bool, n: Ref)
    requires CanGrow(m, v, root, q, b, n)
    ensures NodeOk(Grown(m, v.at[q], b, n), GrownView(v, q, b, n), q + [b])
  {
    var p, w := q + [b], GrownView(v, q, b, n);
    NodeInTree(m, v, root, q);
    assert p[..|p| - 1] == q;
    forall c ensures p + [c] !in w.at {
      assert (p + [c])[..|p|] == p;
      assert p + [c] in v.at ==> NodeOk(m, v, p + [c]);
    }
    assert Kid(w.at, p, false) == NULL && Kid(w.at, p, true) == NULL;
  }

  lemma Grow(m: Links, v: View, root: Ref, q: Path, b: bool, n: Ref)
    requires CanGrow(m, v, root, q, b, n)
    ensures TreeOk(Grown(m, v.at[q], b, n), GrownView(v, q, b, n), root)
  {
    var r, w := Grown(m, v.at[q], b, n), GrownView(v, q, b, n);
    forall p | p in w.at ensures NodeOk(r, w, p) {
      if p == q + [b] { GrownNew(m, v, root, q, b, n); } else { GrownOld(m, v, root, q, b, n, p); }
    }
  }

  lemma GrowOwned(m: Links, v: View, root: Ref, q: Path, b: bool, n: Ref)
    requires CanGrow(m, v, root, q, b, n) && Owned(v, n)
    ensures Owned(GrownView(v, q, b, n), NULL)
  {
    var w := GrownView(v, q, b, n);
    forall k | 0 <= k < |w.path| ensures Kept(w, k) {
      if k != n { assert Kept(v, k); }
    }
  }

  // The recycled nodes are elsewhere, so their links stay.
  lemma GrowFree(m: Links, v: View, root: Ref, q: Path, b: bool, n: Ref, first: Ref)
    requires CanGrow(m, v, root, q, b, n) && Owned(v, n) && FreeOk(m.right, first, v.free)
    ensures FreeOk(Grown(m, v.at[q], b, n).right, first, v.free)
  {
    NodeInTree(m, v, root, q);
    assert Kept(v, v.at[q]);
    FreeFrame(m.right, Grown(m, v.at[q], b, n).right, first, v.free);
  }

  lemma FreeFrame(right: seq<Ref>, right': seq<Ref>, first: Ref, l: seq<Ref>)
    requires FreeOk(right, first, l) && |right| <= |right'|
    requires forall x {:trigger right'[x]} :: x in l && 0 <= x < |right| ==> right'[x] == right[x]
    ensures FreeOk(right', first, l)
  {
    forall i | 0 <= i < |l| ensures FreeAt(right', l, i) {
      assert FreeAt(right, l, i);
      assert l[i] in l;
    }
  }

  // ---- a leaf goes away ----

  function Cut(m: Links, u: Ref, b: bool, n: Ref, first: Ref): Links
    requires m.Sized(|m.left|) && 0 <= u < |m.left| && 0 <= n < |m.left|
  {
    Links(if b then m.left else m.left[u := NULL], (if b then m.right[u := NULL] else m.right)[n := first], m.parent)
  }

  ghost predicate CanCut(m: Links, v: View, root: Ref, q: Path) {
    && TreeOk(m, v, root) && q in v.at && q != [] && q + [false] !in v.at && q + [true] !in v.at
    && q[..|q| - 1] in v.at && 0 <= v.at[q] < |v.path| && 0 <= v.at[q[..|q| - 1]] < |v.path|
  }

  ghost function CutView(v: View, q: Path): View
    requires q in v.at
  {
    View(v.at - {q}, v.path, [v.at[q]] + v.free)
  }

  lemma CutPath(m: Links, v: View, root: Ref, q: Path, first: Ref, p: Path)
    requires CanCut(m, v, root, q) && p in v.at && p != q
    ensures NodeOk(Cut(m, v.at[q[..|q| - 1]], q[|q| - 1], v.at[q], first), CutView(v, q), p)
  {
    var u := q[..|q| - 1];
    assert q == u + [q[|q| - 1]];
    assert NodeOk(m, v, p) && NodeOk(m, v, q) && NodeOk(m, v, u);
    SameLast(p, false, u, q[|q| - 1]);
    SameLast(p, true, u, q[|q| - 1]);
    if p != [] {
      var t := p[..|p| - 1];
      assert p == t + [p[|p| - 1]];
      assert q + [p[|p| - 1]] !in v.at by { assert p[|p| - 1] == true || p[|p| - 1] == false; }
      assert t != q;
    }
  }

  lemma CutTree(m: Links, v: View, root: Ref, q: Path, first: Ref)
    requires CanCut(m, v, root, q)
    ensures TreeOk(Cut(m, v.at[q[..|q| - 1]], q[|q| - 1], v.at[q], first), CutView(v, q), root)
  {
    var r, w := Cut(m, v.at[q[..|q| - 1]], q[|q| - 1], v.at[q], first), CutView(v, q);
    forall p | p in w.at ensures NodeOk(r, w, p) { CutPath(m, v, root, q, first, p); }
  }

  lemma CutOwned(m: Links, v: View, root: Ref, q: Path)
    requires CanCut(m, v, root, q) && Owned(v, NULL)
    ensures Owned(CutView(v, q), NULL)
  {
    var w := CutView(v, q);
    assert NodeOk(m, v, q);
    forall k | 0 <= k < |w.path| ensures Kept(w, k) {
      assert Kept(v, k);
    }
  }

  lemma CutFree(m: Links, v: View, root: Ref, q: Path, first: Ref)
    requires CanCut(m, v, root, q) && Owned(v, NULL) && FreeOk(m.right, first, v.free)
    ensures FreeOk(Cut(m, v.at[q[..|q| - 1]], q[|q| - 1], v.at[q], first).right, v.at[q], CutView(v, q).free)
  {
    var u, n := v.at[q[..|q| - 1]], v.at[q];
    var r := Cut(m, u, q[|q| - 1], n, first).right;
    NodeInTree(m, v, root, q);
    NodeInTree(m, v, root, q[..|q| - 1]);
    assert Kept(v, n) && Kept(v, u);
    FreeFrame(m.right, r, first, v.free);
    var l := [n] + v.free;
    forall i | 0 <= i < |l| ensures FreeAt(r, l, i) {
      if i > 0 { assert FreeAt(r, v.free, i - 1); }
    }
  }

  // ---- taking a node for use ----

  lemma TakeFree(m: Links, v: View, root: Ref, first: Ref)
    requires TreeOk(m, v, root) && FreeOk(m.right, first, v.free) && Owned(v, NULL) && v.free != []
    ensures 0 <= first < |v.path| && first == v.free[0]
    ensures var w := View(v.at, v.path, v.free[1..]);
      TreeOk(m, w, root) && FreeOk(m.right, m.right[first], w.free) && Owned(w, first)
  {
    var w := View(v.at, v.path, v.free[1..]);
    assert FreeAt(m.right, v.free, 0);
    forall i | 0 <= i < |w.free| ensures FreeAt(m.right, w.free, i) { assert FreeAt(m.right, v.free, i + 1); }
    forall q | q in v.at ensures NodeOk(m, w, q) { assert NodeOk(m, v, q); }
    forall n | 0 <= n < |v.path| && n != first ensures Kept(w, n) {
      assert Kept(v, n);
      if n in v.free {
        var i :| 0 <= i < |v.free| && v.free[i] == n;
        assert w.free[i - 1] == n;
      }
    }
    assert Kept(v, first);
  }

  function Extended(m: Links): Links {
    Links(m.left + [NULL], m.right + [NULL], m.parent + [NULL])
  }

  lemma TakeNew(m: Links, v: View, root: Ref, first: Ref)
    requires TreeOk(m, v, root) && FreeOk(m.right, first, v.free) && Owned(v, NULL) && v.free == []
    ensures var w := View(v.at, v.path + [[]], v.free);
      TreeOk(Extended(m), w, root) && FreeOk(Extended(m).right, first, w.free) && Owned(w, |v.path|)
  {
    var w := View(v.at, v.path + [[]], v.free);
    forall q | q in v.at ensures NodeOk(Extended(m), w, q) { assert NodeOk(m, v, q); }
    forall n | 0 <= n < |v.path| ensures Kept(w, n) { assert Kept(v, n); }
    assert NodeOk(m, v, []);
  }
}
