module RbTree {
  import opened RbShape
  import opened RbOrder
  import opened RbColor
  import opened RbSplice
  import opened RbDelete

  const NULL: Ptr := 0

  // Width of the gap or subtree that t stands for.
  ghost function Width(g: Shadow, nil: Ptr, t: Ptr): int
    requires g.Sized(|g.mid|) && t < |g.mid|
  {
    if t == nil then 1 else g.hi[t] - g.lo[t]
  }

  class Tree {
    const sentinel: Ptr
    const timer: bool
    var root: Ptr
    var key: seq<Key>
    var left: seq<Ptr>
    var right: seq<Ptr>
    var parent: seq<Ptr>
    var red: seq<bool>

    ghost var order: seq<Ptr>
    ghost var g: Shadow
    ghost var bh: seq<int>

    ghost function M(): Mem reads this { Mem(sentinel, root, left, right, parent) }
    ghost function C(): Paint reads this { Paint(red, bh) }

    ghost predicate Sorted() reads this
    {
      SortedBy(timer, key, order)
    }

    ghost predicate Balanced() reads this
    {
      |key| == |left| && State(M(), g, C(), NoFlaw(M())) && Indexed(order, g)
    }

    ghost predicate Valid() reads this
    {
      Balanced() && Sorted() && Rises(timer, key, order)
    }

    // ngx_rbtree_init, over an arena of |keys| nodes
    constructor (keys: seq<Key>, s: Ptr, t: bool)
      requires NULL < s < |keys|
      ensures Valid() && order == [] && key == keys && sentinel == s && timer == t
    {
      sentinel, timer, root, key := s, t, s, keys;
      var blank := seq(|keys|, i => NULL);
      left, right, parent := blank, blank, blank;
      red := seq(|keys|, i => false);
      bh := seq(|keys|, i => 0);
      order := [];
      assert AscendingFrom(0, keys, []);
      g := Shadow({}, -1, 0, seq(|keys|, i => 0), seq(|keys|, i => 0), seq(|keys|, i => 0));
    }

    // ngx_rbtree_left_rotate
    method LeftRotate(x: Ptr)
      requires CanRotate(M(), g, x)
      modifies this`root, this`left, this`right, this`parent, this`g
      ensures old(g.In(right[x]) && left[right[x]] < |left| && (x != root ==> parent[x] < |left|))
      ensures M() == LeftRotated(old(M()), x) && g == RotatedShadow(old(g), x, old(right[x]))
    {
      RotateShape(M(), g, x);
      var temp := right[x];
      g := RotatedShadow(g, x, temp);
      right := right[x := left[temp]];
      if left[temp] != sentinel {
        parent := parent[left[temp] := x];
      }
      parent := parent[temp := parent[x]];
      if x == root {
        root := temp;
      } else if x == left[parent[x]] {
        left := left[parent[x] := temp];
      } else {
        right := right[parent[x] := temp];
      }
      left := left[temp := x];
      parent := parent[x := temp];
    }

    // ngx_rbtree_right_rotate
    method RightRotate(x: Ptr)
      requires CanRotate(M().Mirror(), g.Mirror(), x)
      requires g.Sized(|g.mid|)
      modifies this`root, this`left, this`right, this`parent, this`g
      ensures old(g.In(left[x]) && right[left[x]] < |left| && (x != root ==> parent[x] < |left|))
      ensures M() == RightRotated(old(M()), x) && g == RightShadow(old(g), x, old(left[x]))
    {
      RotateShape(M().Mirror(), g.Mirror(), x);
      var temp := left[x];
      g := RightShadow(g, x, temp);
      left := left[x := right[temp]];
      if right[temp] != sentinel {
        parent := parent[right[temp] := x];
      }
      parent := parent[temp := parent[x]];
      if x == root {
        root := temp;
      } else if x == right[parent[x]] {
        right := right[parent[x] := temp];
      } else {
        left := left[parent[x] := temp];
      }
      right := right[temp := x];
      parent := parent[x := temp];
    }

    // One turn of the rebalancing loop of ngx_rbtree_insert, parent on the left.
    method InsertFixLeft(x: Ptr) returns (node: Ptr)
      requires Inserting(M(), g, C(), x) && x != root && parent[x] < |left| && red[parent[x]]
      requires parent[x] != root && parent[parent[x]] < |left| && parent[x] == left[parent[parent[x]]]
      modifies this`root, this`left, this`right, this`parent, this`red, this`g, this`bh
      ensures Inserting(M(), g, C(), node)
      ensures g.nodes == old(g.nodes) && g.mid == old(g.mid) && g.first == old(g.first) && g.last == old(g.last)
      ensures node == root || (parent[node] < |red| && (red[parent[node]] ==> g.hi[node] - g.lo[node] > old(g.hi[x] - g.lo[x])))
    {
      node := x;
      Grandparent(M(), g, C(), node);
      var temp := right[parent[parent[node]]];
      if red[temp] {
        ghost var q := parent[parent[node]];
        ghost var m0, c0 := M(), C();
        red := red[parent[node] := false];
        red := red[temp := false];
        red := red[parent[parent[node]] := true];
        bh := bh[q := bh[q] + 1];
        assert red == Recolored(m0, c0.red, q);
        RecolorStep(m0, g, c0, node, q, C());
        node := parent[parent[node]];
        if node != root { assert Shaped(M(), g, node); }
      } else {
        assert Shaped(M(), g, node);
        if node == right[parent[node]] {
          node := InsertInnerLeft(node);
        }
        InsertOuterLeft(node);
      }
    }

    method InsertInnerLeft(x: Ptr) returns (node: Ptr)
      requires Inserting(M(), g, C(), x) && x != root && parent[x] < |left| && red[parent[x]] && x == right[parent[x]]
      requires parent[x] != root && parent[parent[x]] < |left| && parent[x] == left[parent[parent[x]]]
      requires right[parent[parent[x]]] < |left| && !red[right[parent[parent[x]]]]
      modifies this`root, this`left, this`right, this`parent, this`g
      ensures Inserting(M(), g, C(), node)
      ensures g.nodes == old(g.nodes) && g.mid == old(g.mid) && g.first == old(g.first) && g.last == old(g.last)
      ensures node != root && parent[node] < |left| && red[parent[node]] && node == left[parent[node]]
      ensures parent[node] != root && parent[parent[node]] < |left| && parent[node] == left[parent[parent[node]]]
      ensures right[parent[parent[node]]] < |left| && !red[right[parent[parent[node]]]]
    {
      node := parent[x];
      Grandparent(M(), g, C(), x);
      InnerTurn(M(), g, C(), x, node);
      LeftRotate(node);
    }

    method InsertOuterLeft(node: Ptr)
      requires Inserting(M(), g, C(), node) && node != root && parent[node] < |left| && red[parent[node]] && node == left[parent[node]]
      requires parent[node] != root && parent[parent[node]] < |left| && parent[node] == left[parent[parent[node]]]
      requires right[parent[parent[node]]] < |left| && !red[right[parent[parent[node]]]]
      modifies this`root, this`left, this`right, this`parent, this`red, this`g
      ensures Inserting(M(), g, C(), node)
      ensures g.nodes == old(g.nodes) && g.mid == old(g.mid) && g.first == old(g.first) && g.last == old(g.last)
      ensures node == root || (parent[node] < |red| && !red[parent[node]])
    {
      ghost var p, q := parent[node], parent[parent[node]];
      OuterTurnRight(M(), g, C(), node, p, q);
      red := red[parent[node] := false];
      red := red[parent[parent[node]] := true];
      RightRotate(parent[parent[node]]);
    }

    // One turn of the rebalancing loop of ngx_rbtree_insert, parent on the right.
    method InsertFixRight(x: Ptr) returns (node: Ptr)
      requires Inserting(M(), g, C(), x) && x != root && parent[x] < |left| && red[parent[x]]
      requires parent[x] != root && parent[parent[x]] < |left| && parent[x] == right[parent[parent[x]]]
      modifies this`root, this`left, this`right, this`parent, this`red, this`g, this`bh
      ensures Inserting(M(), g, C(), node)
      ensures g.nodes == old(g.nodes) && g.mid == old(g.mid) && g.first == old(g.first) && g.last == old(g.last)
      ensures node == root || (parent[node] < |red| && (red[parent[node]] ==> g.hi[node] - g.lo[node] > old(g.hi[x] - g.lo[x])))
    {
      node := x;
      Grandparent(M(), g, C(), node);
      var temp := left[parent[parent[node]]];
      if red[temp] {
        ghost var q := parent[parent[node]];
        ghost var m0, c0 := M(), C();
        red := red[parent[node] := false];
        red := red[temp := false];
        red := red[parent[parent[node]] := true];
        bh := bh[q := bh[q] + 1];
        assert red == Recolored(m0, c0.red, q);
        RecolorStep(m0, g, c0, node, q, C());
        node := parent[parent[node]];
        if node != root { assert Shaped(M(), g, node); }
      } else {
        assert Shaped(M(), g, node);
        if node == left[parent[node]] {
          node := InsertInnerRight(node);
        }
        InsertOuterRight(node);
      }
    }

    method InsertInnerRight(x: Ptr) returns (node: Ptr)
      requires Inserting(M(), g, C(), x) && x != root && parent[x] < |left| && red[parent[x]] && x == left[parent[x]]
      requires parent[x] != root && parent[parent[x]] < |left| && parent[x] == right[parent[parent[x]]]
      requires left[parent[parent[x]]] < |left| && !red[left[parent[parent[x]]]]
      modifies this`root, this`left, this`right, this`parent, this`g
      ensures Inserting(M(), g, C(), node)
      ensures g.nodes == old(g.nodes) && g.mid == old(g.mid) && g.first == old(g.first) && g.last == old(g.last)
      ensures node != root && parent[node] < |left| && red[parent[node]] && node == right[parent[node]]
      ensures parent[node] != root && parent[parent[node]] < |left| && parent[node] == right[parent[parent[node]]]
      ensures left[parent[parent[node]]] < |left| && !red[left[parent[parent[node]]]]
    {
      node := parent[x];
      Grandparent(M(), g, C(), x);
      InnerTurnRight(M(), g, C(), x, node);
      RightRotate(node);
    }

    method InsertOuterRight(node: Ptr)
      requires Inserting(M(), g, C(), node) && node != root && parent[node] < |left| && red[parent[node]] && node == right[parent[node]]
      requires parent[node] != root && parent[parent[node]] < |left| && parent[node] == right[parent[parent[node]]]
      requires left[parent[parent[node]]] < |left| && !red[left[parent[parent[node]]]]
      modifies this`root, this`left, this`right, this`parent, this`red, this`g
      ensures Inserting(M(), g, C(), node)
      ensures g.nodes == old(g.nodes) && g.mid == old(g.mid) && g.first == old(g.first) && g.last == old(g.last)
      ensures node == root || (parent[node] < |red| && !red[parent[node]])
    {
      ghost var p, q := parent[node], parent[parent[node]];
      OuterTurn(M(), g, C(), node, p, q);
      red := red[parent[node] := false];
      red := red[parent[parent[node]] := true];
      LeftRotate(parent[parent[node]]);
    }

    // The binary-tree part of ngx_rbtree_insert_value and ngx_rbtree_insert_timer_value.
    method Descend(node: Ptr) returns (temp: Ptr, onLeft: bool)
      requires Balanced() && root != sentinel && node < |key|
      ensures g.In(temp) && (if onLeft then left[temp] == sentinel else right[temp] == sentinel)
      ensures var k := if onLeft then g.mid[temp] else g.mid[temp] + 1; 0 <= k <= |order| && Between(timer, key, order, k, key[node])
    {
      temp := root;
      assert Shaped(M(), g, temp);
      while true
        invariant g.In(temp)
        invariant 0 <= g.lo[temp] < |order| && order[g.lo[temp]] < |key| ==> !Before(timer, key[node], key[order[g.lo[temp]]])
        invariant 0 <= g.hi[temp] < |order| && order[g.hi[temp]] < |key| ==> Before(timer, key[node], key[order[g.hi[temp]]])
        decreases g.hi[temp] - g.lo[temp]
      {
        assert Shaped(M(), g, temp) && Placed(order, g, temp);
        onLeft := Before(timer, key[node], key[temp]);
        var p := if onLeft then left[temp] else right[temp];
        if p == sentinel {
          break;
        }
        temp := p;
      }
    }

    // ngx_rbtree_insert: the tree stays balanced whatever the keys; the node goes between two
    // neighbours, and behind every node that does not come after it if the tree is sorted then.
    // It is exactly if it was before and, with timer keys, a window holds all the keys.
    method Insert(node: Ptr) returns (ghost k: int)
      requires Balanced() && NULL < node < |key| && node != sentinel && node !in order
      modifies this`root, this`left, this`right, this`parent, this`red, this`order, this`g, this`bh
      ensures Balanced()
      ensures 0 <= k <= |old(order)| && order == Inserted(old(order), k, node) && Between(timer, key, old(order), k, key[node])
      ensures Sorted() <==> old(Sorted()) && (timer ==> HasWindow(key, old(order) + [node]))
      ensures Sorted() ==> Behind(timer, key, old(order), k, key[node]) && Parts(timer, key, old(order), k, key[node])
      ensures Sorted() <==> Rises(timer, key, order)
    {
      OrderInRange();
      if root == sentinel {
        k := 0;
        FirstNode(node);
        InsertedExactly(timer, key, [], 0, node);
        Rising();
        return;
      }
      var temp, onLeft := Descend(node);
      k := if onLeft then g.mid[temp] else g.mid[temp] + 1;
      InsertedExactly(timer, key, order, k, node);
      HangLeaf(temp, node, onLeft, k);
      Rebalance(node);
      Rising();
    }

    lemma OrderInRange()
      requires Balanced()
      ensures InRange(key, order)
    {
      forall i | 0 <= i < |order| ensures order[i] < |key| { OrderIsNodes(order, g, order[i]); }
    }

    // What being sorted means.
    lemma Rising()
      requires Balanced()
      ensures Sorted() <==> Rises(timer, key, order)
    {
      OrderInRange();
      SortedRises(timer, key, order);
    }

    method FirstNode(node: Ptr)
      requires Balanced() && root == sentinel && NULL < node < |key| && node != sentinel
      modifies this`root, this`left, this`right, this`parent, this`red, this`order, this`g, this`bh
      ensures Balanced() && old(order) == [] && order == [node]
    {
      AloneState(M(), g, C(), node);
      parent := parent[node := NULL];
      left := left[node := sentinel];
      right := right[node := sentinel];
      red := red[node := false];
      root := node;
      order, g, bh := [node], HungShadow(g, 0, node), bh[node := 1];
    }

    // *p = node, and the fields of the new red leaf.
    method HangLeaf(temp: Ptr, node: Ptr, onLeft: bool, ghost k: int)
      requires Balanced() && node < |key| && node != sentinel && node !in order
      requires g.In(temp) && (if onLeft then left[temp] == sentinel && k == g.mid[temp] else right[temp] == sentinel && k == g.mid[temp] + 1)
      modifies this`left, this`right, this`parent, this`red, this`order, this`g, this`bh
      ensures Inserting(M(), g, C(), node) && Indexed(order, g) && |key| == |left|
      ensures 0 <= k <= |old(order)| && order == Inserted(old(order), k, node)
    {
      OrderIsNodes(order, g, node);
      HangShape(order, M(), g, temp, node, onLeft, k);
      HangColors(order, M(), g, C(), temp, node, onLeft, k);
      if onLeft {
        left := left[temp := node];
      } else {
        right := right[temp := node];
      }
      parent := parent[node := temp];
      left := left[node := sentinel];
      right := right[node := sentinel];
      red := red[node := true];
      order, g, bh := Inserted(order, k, node), HungShadow(g, k, node), bh[node := 1];
    }

    method InsertFix(x: Ptr) returns (node: Ptr)
      requires Inserting(M(), g, C(), x) && Indexed(order, g) && |key| == |left|
      requires x != root && parent[x] < |red| && red[parent[x]]
      modifies this`root, this`left, this`right, this`parent, this`red, this`g, this`bh
      ensures Inserting(M(), g, C(), node) && Indexed(order, g) && |key| == |left|
      ensures node == root || (parent[node] < |red| && (red[parent[node]] ==> g.hi[node] - g.lo[node] > old(g.hi[x] - g.lo[x])))
      ensures 0 <= g.hi[node] - g.lo[node] <= |order| + 1
    {
      Grandparent(M(), g, C(), x);
      if parent[x] == left[parent[parent[x]]] {
        node := InsertFixLeft(x);
      } else {
        node := InsertFixRight(x);
      }
      SameIndexed(order, old(g), g);
      assert Shaped(M(), g, node);
    }

    // The rebalancing loop of ngx_rbtree_insert.
    method Rebalance(x: Ptr)
      requires Inserting(M(), g, C(), x) && Indexed(order, g) && |key| == |left|
      modifies this`root, this`left, this`right, this`parent, this`red, this`g, this`bh
      ensures Balanced()
    {
      var node := x;
      assert Shaped(M(), g, node);
      while node != root && red[parent[node]]
        invariant Inserting(M(), g, C(), node) && Indexed(order, g) && |key| == |left|
        invariant node == root || parent[node] < |red|
        invariant 0 <= g.hi[node] - g.lo[node] <= |order| + 1
        decreases if node != root && red[parent[node]] then |order| + 2 - (g.hi[node] - g.lo[node]) else 0
      {
        node := InsertFix(node);
      }
      SettleRoot(M(), g, C(), node);
      red := red[root := false];
    }

    // One turn of the fixup loop of ngx_rbtree_delete, temp on the left.
    method DeleteFixLeft(t: Ptr) returns (temp: Ptr)
      requires t < |parent| && Short(M(), g, C(), t, parent[t]) && !red[t]
      modifies this`root, this`left, this`right, this`parent, this`red, this`g, this`bh
      ensures Lacking(M(), g, C(), temp)
      ensures g.nodes == old(g.nodes) && g.mid == old(g.mid) && g.first == old(g.first) && g.last == old(g.last)
      ensures temp != root ==> g.In(temp) && Width(g, sentinel, temp) > old(Width(g, sentinel, t))
    {
      Sibling(M(), g, C(), t, parent[t]);
      var w := right[parent[t]];
      if red[w] {
        w := DeleteRedLeft(t);
      }
      if !red[left[w]] && !red[right[w]] {
        BlackSibling(M(), g, C(), t, parent[t], w);
        red := red[w := true];
        bh := bh[parent[t] := bh[parent[t]] - 1];
        temp := parent[t];
      } else {
        if !red[right[w]] {
          w := DeleteNearLeft(t, w);
        }
        DeleteFarLeft(t, w);
        temp := root;
        RootLacks(M(), g, C());
      }
    }

    method DeleteRedLeft(t: Ptr) returns (w: Ptr)
      requires t < |parent| && Short(M(), g, C(), t, parent[t]) && !red[t]
      requires right[parent[t]] < |left| && red[right[parent[t]]]
      modifies this`root, this`left, this`right, this`parent, this`red, this`g
      ensures t < |parent| && Short(M(), g, C(), t, parent[t]) && !red[t] && parent[t] == old(parent[t])
      ensures w == right[parent[t]] && g.In(w) && !red[w] && left[w] < |left| && right[w] < |left|
      ensures g.nodes == old(g.nodes) && g.mid == old(g.mid) && g.first == old(g.first) && g.last == old(g.last)
      ensures Width(g, sentinel, t) == old(Width(g, sentinel, t))
    {
      w := right[parent[t]];
      ghost var p := parent[t];
      Sibling(M(), g, C(), t, p);
      RedSibling(M(), g, C(), t, p, w);
      assert red[w := false][p := true] == Swapped(red, p, w);
      red := red[w := false];
      red := red[parent[t] := true];
      LeftRotate(parent[t]);
      w := right[parent[t]];
      Sibling(M(), g, C(), t, p);
    }

    method DeleteNearLeft(t: Ptr, w0: Ptr) returns (w: Ptr)
      requires t < |parent| && Short(M(), g, C(), t, parent[t]) && !red[t]
      requires w0 == right[parent[t]] && g.In(w0) && !red[w0]
      requires left[w0] < |left| && red[left[w0]] && right[w0] < |left| && !red[right[w0]]
      modifies this`root, this`left, this`right, this`parent, this`red, this`g
      ensures t < |parent| && FarCase(M(), g, C(), t, parent[t], w)
      ensures g.nodes == old(g.nodes) && g.mid == old(g.mid) && g.first == old(g.first) && g.last == old(g.last)
    {
      w := w0;
      ghost var y, p := left[w], parent[t];
      NearRed(M(), g, C(), t, p, w, y);
      assert Shaped(M(), g, w);
      assert red[y := false][w := true] == Swapped(red, w, y);
      red := red[left[w] := false];
      red := red[w := true];
      RightRotate(w);
      w := right[parent[t]];
    }

    method DeleteFarLeft(t: Ptr, w: Ptr)
      requires t < |parent| && FarCase(M(), g, C(), t, parent[t], w)
      modifies this`root, this`left, this`right, this`parent, this`red, this`g, this`bh
      ensures State(M(), g, C(), NoFlaw(M()))
      ensures g.nodes == old(g.nodes) && g.mid == old(g.mid) && g.first == old(g.first) && g.last == old(g.last)
    {
      ghost var p := parent[t];
      FarRed(M(), g, C(), t, p, w);
      red := red[w := red[parent[t]]];
      red := red[parent[t] := false];
      red := red[right[w] := false];
      bh := bh[p := bh[p] - 1][w := bh[w] + 1];
      LeftRotate(parent[t]);
    }

    // One turn of the fixup loop of ngx_rbtree_delete, temp on the right.
    method DeleteFixRight(t: Ptr) returns (temp: Ptr)
      requires t < |parent| && ShortRight(M(), g, C(), t, parent[t]) && !red[t]
      modifies this`root, this`left, this`right, this`parent, this`red, this`g, this`bh
      ensures Lacking(M(), g, C(), temp)
      ensures g.nodes == old(g.nodes) && g.mid == old(g.mid) && g.first == old(g.first) && g.last == old(g.last)
      ensures temp != root ==> g.In(temp) && Width(g, sentinel, temp) > old(Width(g, sentinel, t))
    {
      SiblingRight(M(), g, C(), t, parent[t]);
      var w := left[parent[t]];
      if red[w] {
        w := DeleteRedRight(t);
      }
      if !red[right[w]] && !red[left[w]] {
        BlackSiblingRight(M(), g, C(), t, parent[t], w);
        red := red[w := true];
        bh := bh[parent[t] := bh[parent[t]] - 1];
        temp := parent[t];
      } else {
        if !red[left[w]] {
          w := DeleteNearRight(t, w);
        }
        DeleteFarRight(t, w);
        temp := root;
        RootLacks(M(), g, C());
      }
    }

    method DeleteRedRight(t: Ptr) returns (w: Ptr)
      requires t < |parent| && ShortRight(M(), g, C(), t, parent[t]) && !red[t]
      requires left[parent[t]] < |left| && red[left[parent[t]]]
      modifies this`root, this`left, this`right, this`parent, this`red, this`g
      ensures t < |parent| && ShortRight(M(), g, C(), t, parent[t]) && !red[t] && parent[t] == old(parent[t])
      ensures w == left[parent[t]] && g.In(w) && !red[w] && right[w] < |left| && left[w] < |left|
      ensures g.nodes == old(g.nodes) && g.mid == old(g.mid) && g.first == old(g.first) && g.last == old(g.last)
      ensures Width(g, sentinel, t) == old(Width(g, sentinel, t))
    {
      w := left[parent[t]];
      ghost var p := parent[t];
      SiblingRight(M(), g, C(), t, p);
      RedSiblingRight(M(), g, C(), t, p, w);
      assert red[w := false][p := true] == Swapped(red, p, w);
      red := red[w := false];
      red := red[parent[t] := true];
      RightRotate(parent[t]);
      w := left[parent[t]];
      SiblingRight(M(), g, C(), t, p);
    }

    method DeleteNearRight(t: Ptr, w0: Ptr) returns (w: Ptr)
      requires t < |parent| && ShortRight(M(), g, C(), t, parent[t]) && !red[t]
      requires w0 == left[parent[t]] && g.In(w0) && !red[w0]
      requires right[w0] < |left| && red[right[w0]] && left[w0] < |left| && !red[left[w0]]
      modifies this`root, this`left, this`right, this`parent, this`red, this`g
      ensures t < |parent| && FarCaseRight(M(), g, C(), t, parent[t], w)
      ensures g.nodes == old(g.nodes) && g.mid == old(g.mid) && g.first == old(g.first) && g.last == old(g.last)
    {
      w := w0;
      ghost var y, p := right[w], parent[t];
      NearRedRight(M(), g, C(), t, p, w, y);
      assert Shaped(M(), g, w);
      assert red[y := false][w := true] == Swapped(red, w, y);
      red := red[right[w] := false];
      red := red[w := true];
      LeftRotate(w);
      w := left[parent[t]];
    }

    method DeleteFarRight(t: Ptr, w: Ptr)
      requires t < |parent| && FarCaseRight(M(), g, C(), t, parent[t], w)
      modifies this`root, this`left, this`right, this`parent, this`red, this`g, this`bh
      ensures State(M(), g, C(), NoFlaw(M()))
      ensures g.nodes == old(g.nodes) && g.mid == old(g.mid) && g.first == old(g.first) && g.last == old(g.last)
    {
      ghost var p := parent[t];
      FarRedRight(M(), g, C(), t, p, w);
      red := red[w := red[parent[t]]];
      red := red[parent[t] := false];
      red := red[left[w] := false];
      bh := bh[p := bh[p] - 1][w := bh[w] + 1];
      RightRotate(parent[t]);
    }

    // The fixup loop of ngx_rbtree_delete.
    method DeleteFixup(t: Ptr)
      requires Lacking(M(), g, C(), t) && Indexed(order, g) && |key| == |left|
      modifies this`root, this`left, this`right, this`parent, this`red, this`g, this`bh
      ensures Balanced()
    {
      var temp := t;
      while temp != root && !red[temp]
        invariant Lacking(M(), g, C(), temp) && Indexed(order, g) && |key| == |left|
        decreases if temp == root then 0 else |order| + 3 - Width(g, sentinel, temp)
      {
        temp := DeleteFix(temp);
      }
      Blacken(M(), g, C(), temp);
      red := red[temp := false];
    }

    method DeleteFix(t: Ptr) returns (temp: Ptr)
      requires Lacking(M(), g, C(), t) && Indexed(order, g) && |key| == |left|
      requires t != root && !red[t]
      modifies this`root, this`left, this`right, this`parent, this`red, this`g, this`bh
      ensures Lacking(M(), g, C(), temp) && Indexed(order, g) && |key| == |left|
      ensures temp != root ==> old(Width(g, sentinel, t)) < Width(g, sentinel, temp) <= |order| + 1
      ensures old(Width(g, sentinel, t)) <= |order| + 1
    {
      LackingSides(M(), g, C(), t);
      assert Shaped(M(), g, parent[t]);
      if t != sentinel { assert Shaped(M(), g, t); }
      if t == left[parent[t]] {
        temp := DeleteFixLeft(t);
      } else {
        temp := DeleteFixRight(t);
      }
      SameIndexed(order, old(g), g);
      if temp != root { assert Shaped(M(), g, temp); }
    }

    // ngx_rbtree_min
    method Min(x: Ptr) returns (node: Ptr)
      requires Balanced() && g.In(x)
      ensures g.In(node) && g.mid[node] == g.lo[x] + 1 && left[node] == sentinel
      ensures x == root ==> order != [] && node == order[0]
    {
      node := x;
      assert Shaped(M(), g, node);
      while left[node] != sentinel
        invariant g.In(node) && g.lo[node] == g.lo[x] && Shaped(M(), g, node)
        decreases g.hi[node] - g.lo[node]
      {
        node := left[node];
        assert Shaped(M(), g, node);
      }
      assert Placed(order, g, node);
    }

    // ngx_rbtree_next: the walk visits the nodes in order.
    method Next(x: Ptr) returns (next: Ptr)
      requires Balanced() && x < |key| && x in order
      ensures forall i :: 0 <= i < |order| && order[i] == x ==> next == if i + 1 < |order| then order[i + 1] else NULL
    {
      OrderIsNodes(order, g, x);
      assert Shaped(M(), g, x) && Placed(order, g, x);
      if right[x] != sentinel {
        next := Min(right[x]);
        assert Placed(order, g, next);
        return;
      }
      var node := x;
      while true
        invariant g.In(node) && g.hi[node] == g.mid[x] + 1
        decreases |order| + 1 - (g.hi[node] - g.lo[node])
      {
        assert Shaped(M(), g, node);
        var up := parent[node];
        if node == root {
          return NULL;
        }
        assert Shaped(M(), g, up) && Placed(order, g, up);
        if node == left[up] {
          return up;
        }
        node := up;
      }
    }

    // ngx_rbtree_delete: exactly the given node leaves the sequence, whatever the keys.
    method Delete(node: Ptr) returns (ghost k: int)
      requires Balanced() && node < |key| && node in order
      modifies this`root, this`left, this`right, this`parent, this`red, this`key, this`order, this`g, this`bh
      ensures Balanced() && (old(Sorted()) ==> Sorted()) && (Sorted() <==> Rises(timer, key, order))
      ensures 0 <= k < |old(order)| && old(order)[k] == node && order == Removed(old(order), k)
      ensures node !in order && key == old(key)[node := 0]
    {
      OrderIsNodes(order, g, node);
      assert Placed(order, g, node);
      k := g.mid[node];
      if Sorted() { RemovedSorted(timer, key, order, k); }
      var subst, temp := Victim(node);
      if subst == root {
        DeleteRoot(node, temp);
        Rising();
        return;
      }
      var wasRed := red[subst];
      if subst == node {
        Unlink(node, temp);
      } else {
        Substitute(node, subst, temp);
      }
      ClearNode(node, temp);
      if wasRed {
        Rising();
        return;
      }
      DeleteFixup(temp);
      Rising();
    }

    // The node to unlink and the child that takes its place: the node itself if it has at most
    // one child, else its successor.
    method Victim(node: Ptr) returns (subst: Ptr, temp: Ptr)
      requires Balanced() && g.In(node)
      ensures g.In(subst)
      ensures subst == node ==> CanSplice(order, M(), g, node, temp)
      ensures subst != node ==> CanSubstitute(order, M(), g, node, subst, temp) && subst != root
    {
      assert Shaped(M(), g, node);
      if left[node] == sentinel {
        temp := right[node];
        subst := node;
      } else if right[node] == sentinel {
        temp := left[node];
        subst := node;
      } else {
        subst := Min(right[node]);
        var child := left[subst];
        temp := if child != sentinel then child else right[subst];
        SubstituteFacts(order, M(), g, node, subst, temp);
      }
    }

    // The node is the root and has at most one child.
    method DeleteRoot(node: Ptr, temp: Ptr)
      requires Balanced() && node == root && CanSplice(order, M(), g, node, temp)
      modifies this`root, this`left, this`right, this`parent, this`red, this`key, this`order, this`g, this`bh
      ensures Balanced() && key == old(key)[node := 0]
      ensures 0 <= old(g.mid[node]) < |old(order)| && order == Removed(old(order), old(g.mid[node]))
    {
      SpliceShape(order, M(), g, node, temp);
      SpliceLacks(order, M(), g, C(), node, temp);
      Blacken(Spliced(M(), node, temp), SplicedShadow(g, node), C(), temp);
      root := temp;
      red := red[temp := false];
      order, g := Removed(order, g.mid[node]), SplicedShadow(g, node);
      ScrubState(M(), g, C(), NoFlaw(M()), node);
      left := left[node := NULL];
      right := right[node := NULL];
      parent := parent[node := NULL];
      key := key[node := 0];
    }

    // The only child of the node, or the sentinel, moves up.
    method Unlink(node: Ptr, temp: Ptr)
      requires Balanced() && node != root && CanSplice(order, M(), g, node, temp)
      modifies this`left, this`right, this`parent, this`order, this`g
      ensures |left| == |key| && Indexed(order, g) && !g.In(node) && node != temp
      ensures 0 <= old(g.mid[node]) < |old(order)| && order == Removed(old(order), old(g.mid[node]))
      ensures if red[node] then State(M(), g, C(), NoFlaw(M())) else Lacking(M(), g, C(), temp)
    {
      SpliceShape(order, M(), g, node, temp);
      SpliceColors(order, M(), g, C(), node, temp);
      if !red[node] { SpliceLacks(order, M(), g, C(), node, temp); }
      var up := parent[node];
      LinkChild(up, node, temp);
      parent := parent[temp := up];
      order, g := Removed(order, g.mid[node]), SplicedShadow(g, node);
    }

    // The successor takes over the node's links and colour, its own child moves up.
    method Substitute(node: Ptr, subst: Ptr, temp: Ptr)
      requires Balanced() && CanSubstitute(order, M(), g, node, subst, temp)
      modifies this`root, this`left, this`right, this`parent, this`red, this`order, this`g, this`bh
      ensures |left| == |key| && Indexed(order, g) && !g.In(node) && node != temp
      ensures 0 <= old(g.mid[node]) < |old(order)| && order == Removed(old(order), old(g.mid[node]))
      ensures if old(red[subst]) then State(M(), g, C(), NoFlaw(M())) else Lacking(M(), g, C(), temp)
    {
      SubstituteState(order, M(), g, C(), node, subst, temp);
      SubstitutedOrder(order, g, node, subst);
      MoveLinks(node, subst, temp);
      red := red[subst := red[node]];
      bh := bh[subst := bh[node]];
      order, g := Removed(order, g.mid[node]), ReplacedShadow(SplicedShadow(g, subst), node, subst);
    }

    method MoveLinks(node: Ptr, subst: Ptr, temp: Ptr)
      requires M().Sized(|left|) && node < |left| && subst < |left| && temp < |left|
      requires parent[subst] < |left| && (node != root ==> parent[node] < |left|)
      requires left[node] < |left| && right[node] < |left| && node != subst && temp != node
      modifies this`root, this`left, this`right, this`parent
      ensures M() == Substituted(old(M()), node, subst, temp)
    {
      var up := parent[subst];
      LinkChild(up, subst, temp);
      if up == node {
        parent := parent[temp := subst];
      } else {
        parent := parent[temp := up];
      }
      TakePlace(node, subst);
    }

    method LinkChild(up: Ptr, subst: Ptr, temp: Ptr)
      requires up < |left| == |right|
      modifies this`left, this`right
      ensures M() == old(if subst == left[up] then M().(left := left[up := temp]) else M().(right := right[up := temp]))
    {
      if subst == left[up] {
        left := left[up := temp];
      } else {
        right := right[up := temp];
      }
    }

    method TakePlace(node: Ptr, subst: Ptr)
      requires M().Sized(|left|) && node < |left| && subst < |left| && (node != root ==> parent[node] < |left|)
      requires left[node] < |left| && right[node] < |left|
      modifies this`root, this`left, this`right, this`parent
      ensures M() == Replaced(old(M()), node, subst)
    {
      left := left[subst := left[node]];
      right := right[subst := right[node]];
      parent := parent[subst := parent[node]];
      if node == root {
        root := subst;
      } else if node == left[parent[node]] {
        left := left[parent[node] := subst];
      } else {
        right := right[parent[node] := subst];
      }
      if left[subst] != sentinel {
        parent := parent[left[subst] := subst];
      }
      if right[subst] != sentinel {
        parent := parent[right[subst] := subst];
      }
    }

    method ClearNode(node: Ptr, temp: Ptr)
      requires |left| == |key| && M().Sized(|left|) && node < |left| && !g.In(node) && node != temp && node != sentinel
      modifies this`left, this`right, this`parent, this`key
      ensures |left| == |key| && key == old(key)[node := 0]
      ensures old(State(M(), g, C(), NoFlaw(M()))) ==> State(M(), g, C(), NoFlaw(M()))
      ensures old(Lacking(M(), g, C(), temp)) ==> Lacking(M(), g, C(), temp)
    {
      if State(M(), g, C(), NoFlaw(M())) { ScrubState(M(), g, C(), NoFlaw(M()), node); }
      if Lacking(M(), g, C(), temp) { ScrubLacking(M(), g, C(), temp, node); }
      left := left[node := NULL];
      right := right[node := NULL];
      parent := parent[node := NULL];
      key := key[node := 0];
    }
  }
}
