/** The tree of the open file cache of src/core/ngx_open_file_cache.c, ordered by the hash of a name
    and then by the name: ngx_open_file_lookup and ngx_open_file_cache_rbtree_insert_value. */
module OpenFileTree {
  import opened RbShape
  import opened RbSplice
  import opened RbOrder
  import opened RbTree

  // ngx_strcmp
  function Compare(a: string, b: string): int {
    if a == "" && b == "" then 0
    else if a == "" then -1
    else if b == "" then 1
    else if a[0] < b[0] then -1
    else if a[0] > b[0] then 1
    else Compare(a[1..], b[1..])
  }

  lemma {:induction false} CompareIs(a: string, b: string)
    ensures Compare(a, b) == 0 <==> a == b
    ensures Compare(a, b) == -Compare(b, a)
  {
    if a != "" && b != "" && a[0] == b[0] {
      CompareIs(a[1..], b[1..]);
      assert a == [a[0]] + a[1..] && b == [b[0]] + b[1..];
    }
  }

  lemma {:induction false} CompareChain(a: string, b: string, c: string)
    requires Compare(a, b) < 0 && Compare(b, c) < 0
    ensures Compare(a, c) < 0
  {
    if a != "" && b != "" && c != "" && a[0] == b[0] == c[0] { CompareChain(a[1..], b[1..], c[1..]); }
  }

  datatype File = File(hash: Key, name: string)

  predicate Less(a: File, b: File) { a.hash < b.hash || (a.hash == b.hash && Compare(a.name, b.name) < 0) }

  lemma LessIs(a: File, b: File)
    ensures !(Less(a, b) && Less(b, a)) && (a == b <==> !Less(a, b) && !Less(b, a))
  {
    CompareIs(a.name, b.name);
  }

  lemma LessChain(a: File, b: File, c: File)
    requires Less(a, b) && Less(b, c)
    ensures Less(a, c)
  {
    if a.hash == b.hash == c.hash { CompareChain(a.name, b.name, c.name); }
  }

  // The file of a node: its key is the hash.
  ghost function FileOf(key: seq<Key>, name: seq<string>, x: Ptr): File {
    if x < |key| && x < |name| then File(key[x], name[x]) else File(0, "")
  }

  ghost predicate Ordered(key: seq<Key>, name: seq<string>, order: seq<Ptr>) {
    forall i, j {:trigger order[i], order[j]} :: 0 <= i < j < |order| ==> Less(FileOf(key, name, order[i]), FileOf(key, name, order[j]))
  }

  ghost predicate Sorted(t: Tree, name: seq<string>) reads t {
    t.Balanced() && |name| == |t.key| && Ordered(t.key, name, t.order)
  }

  // The files in the tree.
  ghost predicate Has(t: Tree, name: seq<string>, f: File) reads t {
    exists x {:trigger x in t.order} :: x in t.order && FileOf(t.key, name, x) == f
  }

  // The nodes up to lo come before f, those from hi on after it.
  ghost predicate Split(key: seq<Key>, name: seq<string>, order: seq<Ptr>, f: File, lo: int, hi: int) {
    && (forall i {:trigger order[i]} :: 0 <= i <= lo && i < |order| ==> Less(FileOf(key, name, order[i]), f))
    && (forall i {:trigger order[i]} :: 0 <= hi <= i < |order| ==> Less(f, FileOf(key, name, order[i])))
  }

  // A comparison with node j decides for all the nodes on its side.
  lemma Narrow(key: seq<Key>, name: seq<string>, order: seq<Ptr>, f: File, lo: int, hi: int, j: int)
    requires Ordered(key, name, order) && Split(key, name, order, f, lo, hi) && 0 <= j < |order|
    ensures Less(f, FileOf(key, name, order[j])) ==> Split(key, name, order, f, lo, j)
    ensures Less(FileOf(key, name, order[j]), f) ==> Split(key, name, order, f, j, hi)
  {
    var g := FileOf(key, name, order[j]);
    forall i | 0 <= i < |order|
      ensures Less(f, g) && j <= i ==> Less(f, FileOf(key, name, order[i]))
      ensures Less(g, f) && i <= j ==> Less(FileOf(key, name, order[i]), f)
    {
      var h := FileOf(key, name, order[i]);
      if j < i && Less(f, g) { LessChain(f, g, h); }
      if i < j && Less(g, f) { LessChain(h, g, f); }
    }
  }

  lemma NoneBetween(key: seq<Key>, name: seq<string>, order: seq<Ptr>, f: File, lo: int)
    requires lo >= -1 && Split(key, name, order, f, lo, lo + 1)
    ensures forall x {:trigger x in order} :: x in order ==> FileOf(key, name, x) != f
  {
    forall x | x in order ensures FileOf(key, name, x) != f {
      var i :| 0 <= i < |order| && order[i] == x;
      LessIs(FileOf(key, name, order[i]), f);
    }
  }

  // ngx_open_file_lookup: the node of the file, if there is one.
  method Lookup(t: Tree, name: seq<string>, f: File) returns (found: bool, x: Ptr)
    requires Sorted(t, name)
    ensures found <==> Has(t, name, f)
    ensures found ==> x in t.order && FileOf(t.key, name, x) == f
  {
    x := t.root;
    ghost var lo, hi := -1, |t.order|;
    while x != t.sentinel
      invariant if x == t.sentinel then hi == lo + 1 else t.g.In(x) && t.g.lo[x] == lo && t.g.hi[x] == hi
      invariant -1 <= lo < hi && Split(t.key, name, t.order, f, lo, hi)
      decreases hi - lo
    {
      assert Shaped(t.M(), t.g, x) && Placed(t.order, t.g, x);
      ghost var j := t.g.mid[x];
      Narrow(t.key, name, t.order, f, lo, hi, j);
      CompareIs(f.name, name[x]);
      if f.hash < t.key[x] {
        x, hi := t.left[x], j;
        continue;
      }
      if f.hash > t.key[x] {
        x, lo := t.right[x], j;
        continue;
      }
      var rc := Compare(f.name, name[x]);
      if rc == 0 {
        OrderIsNodes(t.order, t.g, x);
        return true, x;
      }
      if rc < 0 {
        x, hi := t.left[x], j;
      } else {
        x, lo := t.right[x], j;
      }
    }
    NoneBetween(t.key, name, t.order, f, lo);
    return false, x;
  }

  // The descent of ngx_open_file_cache_rbtree_insert_value.
  method Descend(t: Tree, name: seq<string>, node: Ptr) returns (temp: Ptr, onLeft: bool)
    requires Sorted(t, name) && t.root != t.sentinel && node < |t.key| && !Has(t, name, FileOf(t.key, name, node))
    ensures t.g.In(temp) && (if onLeft then t.left[temp] == t.sentinel else t.right[temp] == t.sentinel)
    ensures var k := if onLeft then t.g.mid[temp] else t.g.mid[temp] + 1;
      0 <= k <= |t.order| && Split(t.key, name, t.order, FileOf(t.key, name, node), k - 1, k)
  {
    temp := t.root;
    ghost var f := FileOf(t.key, name, node);
    while true
      invariant t.g.In(temp) && Split(t.key, name, t.order, f, t.g.lo[temp], t.g.hi[temp])
      decreases t.g.hi[temp] - t.g.lo[temp]
    {
      assert Shaped(t.M(), t.g, temp) && Placed(t.order, t.g, temp);
      assert temp in t.order && FileOf(t.key, name, temp) != f;
      Narrow(t.key, name, t.order, f, t.g.lo[temp], t.g.hi[temp], t.g.mid[temp]);
      CompareIs(name[node], name[temp]);
      onLeft := t.key[node] < t.key[temp] || (t.key[node] == t.key[temp] && Compare(name[node], name[temp]) < 0);
      var p := if onLeft then t.left[temp] else t.right[temp];
      if p == t.sentinel {
        break;
      }
      temp := p;
    }
  }

  lemma InsertedOrdered(key: seq<Key>, name: seq<string>, order: seq<Ptr>, k: int, x: Ptr)
    requires Ordered(key, name, order) && 0 <= k <= |order| && Split(key, name, order, FileOf(key, name, x), k - 1, k)
    ensures Ordered(key, name, Inserted(order, k, x))
  {
    var o := Inserted(order, k, x);
    forall i, j | 0 <= i < j < |o| ensures Less(FileOf(key, name, o[i]), FileOf(key, name, o[j])) {
      var i', j' := if i < k then i else i - 1, if j < k then j else j - 1;
      assert i != k ==> o[i] == order[i'];
      assert j != k ==> o[j] == order[j'];
    }
  }

  // ngx_rbtree_insert with this order: the files of the tree gain exactly the new one.
  method Insert(t: Tree, name: seq<string>, node: Ptr) returns (ghost k: int)
    requires Sorted(t, name) && NULL < node < |t.key| && node != t.sentinel && node !in t.order
    requires !Has(t, name, FileOf(t.key, name, node))
    modifies t`root, t`left, t`right, t`parent, t`red, t`order, t`g, t`bh
    ensures Sorted(t, name) && 0 <= k <= |old(t.order)| && t.order == Inserted(old(t.order), k, node)
    ensures forall f {:trigger Has(t, name, f)} :: Has(t, name, f) <==> old(Has(t, name, f)) || f == FileOf(t.key, name, node)
  {
    if t.root == t.sentinel {
      k := 0;
      t.FirstNode(node);
    } else {
      var temp, onLeft := Descend(t, name, node);
      k := if onLeft then t.g.mid[temp] else t.g.mid[temp] + 1;
      InsertedOrdered(t.key, name, t.order, k, node);
      t.HangLeaf(temp, node, onLeft, k);
      t.Rebalance(node);
    }
    InsertedMember(old(t.order), k, node);
  }

  lemma InsertedMember(order: seq<Ptr>, k: int, x: Ptr)
    requires 0 <= k <= |order|
    ensures forall y {:trigger y in Inserted(order, k, x)} {:trigger y in order} :: y in Inserted(order, k, x) <==> y in order || y == x
  {
    assert order == order[..k] + order[k..];
  }

  // ngx_rbtree_delete keeps the order, and takes exactly its node.
  method Delete(t: Tree, name: seq<string>, node: Ptr) returns (ghost k: int)
    requires Sorted(t, name) && node < |t.key| && node in t.order
    modifies t`root, t`left, t`right, t`parent, t`red, t`key, t`order, t`g, t`bh
    ensures Sorted(t, name) && 0 <= k < |old(t.order)| && old(t.order)[k] == node && t.order == Removed(old(t.order), k)
    ensures forall f {:trigger Has(t, name, f)} :: Has(t, name, f) <==> old(Has(t, name, f)) && f != old(FileOf(t.key, name, node))
  {
    k := t.Delete(node);
    RemovedOrdered(old(t.key), name, old(t.order), k);
    RemovedFiles(old(t.key), name, old(t.order), k);
  }

  lemma RemovedOrdered(key: seq<Key>, name: seq<string>, order: seq<Ptr>, k: int)
    requires Ordered(key, name, order) && 0 <= k < |order| && order[k] < |key|
    requires order[k] !in Removed(order, k)
    ensures Ordered(key[order[k] := 0], name, Removed(order, k))
  {
    var o := Removed(order, k);
    forall i, j | 0 <= i < j < |o| ensures Less(FileOf(key[order[k] := 0], name, o[i]), FileOf(key[order[k] := 0], name, o[j])) {
      var i', j' := if i < k then i else i + 1, if j < k then j else j + 1;
      assert o[i] == order[i'] && o[j] == order[j'] && o[i] in o && o[j] in o;
    }
  }

  // A node other than the one removed has another file.
  lemma RemovedFiles(key: seq<Key>, name: seq<string>, order: seq<Ptr>, k: int)
    requires Ordered(key, name, order) && 0 <= k < |order| && order[k] < |key|
    requires order[k] !in Removed(order, k)
    ensures forall y {:trigger y in Removed(order, k)} {:trigger y in order} :: y in Removed(order, k) <==> y in order && y != order[k]
    ensures forall y {:trigger y in Removed(order, k)} :: y in Removed(order, k) ==>
      FileOf(key[order[k] := 0], name, y) == FileOf(key, name, y) != FileOf(key, name, order[k])
  {
    var o := Removed(order, k);
    assert order == order[..k] + [order[k]] + order[k + 1..];
    forall y | y in o ensures FileOf(key[order[k] := 0], name, y) == FileOf(key, name, y) != FileOf(key, name, order[k]) {
      var i :| 0 <= i < |o| && o[i] == y;
      var i' := if i < k then i else i + 1;
      assert order[i'] == y;
      LessIs(FileOf(key, name, y), FileOf(key, name, order[k]));
    }
  }
}
