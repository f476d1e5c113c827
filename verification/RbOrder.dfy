/** The order of the keys of src/core/ngx_rbtree.c: plain keys, and timer keys that wrap around. */
module RbOrder {
  import opened RbShape
  import opened RbSplice

  const WORD: nat := 0x1_0000_0000_0000_0000
  const HALF: nat := 0x8000_0000_0000_0000

  type Key = k: int | 0 <= k < WORD

  // node->key < temp->key, and the same comparison on timer keys that wrap around.
  predicate Before(timer: bool, a: Key, b: Key) {
    if timer then (a - b) % WORD >= HALF else a < b
  }

  // Distance of a key from the start of the window that holds all live timer keys.
  function Offset(base: Key, k: Key): int { (k - base) % WORD }

  // Within one window the wrapping comparison is the order of the distances.
  lemma BeforeByOffset(base: Key, a: Key, b: Key)
    requires Offset(base, a) < HALF && Offset(base, b) < HALF
    ensures Before(true, a, b) <==> Offset(base, a) < Offset(base, b)
  {
  }

  ghost predicate InRange(key: seq<Key>, order: seq<Ptr>) {
    forall i {:trigger order[i]} :: 0 <= i < |order| ==> order[i] < |key|
  }

  ghost predicate SortedBy(timer: bool, key: seq<Key>, order: seq<Ptr>) {
    forall i, j {:trigger order[i], order[j]} :: 0 <= i < j < |order| && order[i] < |key| && order[j] < |key|
      ==> !Before(timer, key[order[j]], key[order[i]])
  }

  // The keys lie in the half of the range of the counter that begins with base.
  ghost predicate InWindow(base: Key, key: seq<Key>, order: seq<Ptr>) {
    forall i {:trigger order[i]} :: 0 <= i < |order| && order[i] < |key| ==> Offset(base, key[order[i]]) < HALF
  }

  ghost predicate HasWindow(key: seq<Key>, order: seq<Ptr>) {
    exists base: Key {:trigger InWindow(base, key, order)} :: InWindow(base, key, order)
  }

  // ---- what it means to be sorted ----

  // Plain keys go up.
  ghost predicate Ascending(key: seq<Key>, order: seq<Ptr>) {
    forall i, j {:trigger order[i], order[j]} :: 0 <= i < j < |order| && order[i] < |key| && order[j] < |key| ==> key[order[i]] <= key[order[j]]
  }

  // Timer keys go up with their distances from a base, which is at most half the range before them.
  ghost predicate AscendingFrom(base: Key, key: seq<Key>, order: seq<Ptr>) {
    && InWindow(base, key, order)
    && forall i, j {:trigger order[i], order[j]} :: 0 <= i < j < |order| && order[i] < |key| && order[j] < |key| ==> Offset(base, key[order[i]]) <= Offset(base, key[order[j]])
  }

  ghost predicate Rises(timer: bool, key: seq<Key>, order: seq<Ptr>) {
    if timer then exists base: Key {:trigger AscendingFrom(base, key, order)} :: AscendingFrom(base, key, order) else Ascending(key, order)
  }

  // The nodes before place k have keys up to x, those from it on greater ones.
  ghost predicate Divides(key: seq<Key>, order: seq<Ptr>, k: int, x: Key) {
    && (forall i {:trigger order[i]} :: 0 <= i < k && i < |order| && order[i] < |key| ==> key[order[i]] <= x)
    && (forall i {:trigger order[i]} :: 0 <= k <= i < |order| && order[i] < |key| ==> x < key[order[i]])
  }

  ghost predicate DividesFrom(base: Key, key: seq<Key>, order: seq<Ptr>, k: int, x: Key) {
    && Offset(base, x) < HALF
    && (forall i {:trigger order[i]} :: 0 <= i < k && i < |order| && order[i] < |key| ==> Offset(base, key[order[i]]) <= Offset(base, x) < HALF)
    && (forall i {:trigger order[i]} :: 0 <= k <= i < |order| && order[i] < |key| ==> Offset(base, x) < Offset(base, key[order[i]]) < HALF)
  }

  ghost predicate Parts(timer: bool, key: seq<Key>, order: seq<Ptr>, k: int, x: Key) {
    if timer then exists base: Key {:trigger DividesFrom(base, key, order, k, x)} :: DividesFrom(base, key, order, k, x) else Divides(key, order, k, x)
  }

  lemma SortedRises(timer: bool, key: seq<Key>, order: seq<Ptr>)
    requires InRange(key, order)
    ensures SortedBy(timer, key, order) <==> Rises(timer, key, order)
  {
    if timer && SortedBy(timer, key, order) {
      SortedHasWindow(key, order);
      var base: Key :| InWindow(base, key, order);
      SortedFrom(base, key, order);
    }
    if timer && Rises(timer, key, order) {
      var base: Key :| AscendingFrom(base, key, order);
      SortedFrom(base, key, order);
    }
  }

  lemma SortedFrom(base: Key, key: seq<Key>, order: seq<Ptr>)
    requires InRange(key, order) && InWindow(base, key, order)
    ensures SortedBy(true, key, order) <==> AscendingFrom(base, key, order)
  {
    forall i, j | 0 <= i < j < |order|
      ensures !Before(true, key[order[j]], key[order[i]]) <==> Offset(base, key[order[i]]) <= Offset(base, key[order[j]])
    {
      BeforeByOffset(base, key[order[j]], key[order[i]]);
    }
  }

  lemma BehindParts(timer: bool, base: Key, key: seq<Key>, order: seq<Ptr>, k: int, x: Ptr)
    requires InRange(key, order) && x < |key| && 0 <= k <= |order| && Behind(timer, key, order, k, key[x])
    requires timer ==> InWindow(base, key, order + [x])
    ensures Parts(timer, key, order, k, key[x])
  {
    if timer {
      WindowPart(base, key, order, x);
      forall i | 0 <= i < |order| ensures Before(true, key[x], key[order[i]]) <==> Offset(base, key[x]) < Offset(base, key[order[i]]) {
        BeforeByOffset(base, key[x], key[order[i]]);
      }
      assert DividesFrom(base, key, order, k, key[x]);
    }
  }

  // ---- when timer keys can be sorted ----

  // A sorted sequence lies in the window that begins with its first key.
  lemma SortedInWindow(key: seq<Key>, order: seq<Ptr>)
    requires InRange(key, order) && order != [] && SortedBy(true, key, order)
    ensures InWindow(key[order[0]], key, order)
  {
    forall i | 0 <= i < |order| ensures Offset(key[order[0]], key[order[i]]) < HALF {
      assert i > 0 ==> !Before(true, key[order[i]], key[order[0]]);
    }
  }

  lemma SortedHasWindow(key: seq<Key>, order: seq<Ptr>)
    requires InRange(key, order) && SortedBy(true, key, order)
    ensures HasWindow(key, order)
  {
    if order == [] {
      assert InWindow(0, key, order);
    } else {
      SortedInWindow(key, order);
    }
  }

  // A place for x between two neighbours.
  lemma PlaceOf(base: Key, key: seq<Key>, order: seq<Ptr>, x: Ptr) returns (k: int)
    requires InRange(key, order) && x < |key| && SortedBy(true, key, order) && InWindow(base, key, order + [x])
    ensures 0 <= k <= |order| && Between(true, key, order, k, key[x])
  {
    k := |order|;
    while k > 0 && Before(true, key[x], key[order[k - 1]])
      invariant 0 <= k <= |order| && (k < |order| ==> Before(true, key[x], key[order[k]]))
    {
      k := k - 1;
    }
  }

  lemma {:induction false} SortWindow(base: Key, key: seq<Key>, nodes: seq<Ptr>) returns (order: seq<Ptr>)
    requires InRange(key, nodes) && InWindow(base, key, nodes)
    ensures SameNodes(order, nodes) && SortedBy(true, key, order)
  {
    if nodes == [] {
      order := [];
    } else {
      var rest, x := nodes[..|nodes| - 1], nodes[|nodes| - 1];
      assert nodes == rest + [x];
      WindowPart(base, key, rest, x);
      var o := SortWindow(base, key, rest);
      SameRange(key, o, rest);
      OneMoreNode(o, rest, x);
      SameWindow(base, key, o + [x], nodes);
      var k := PlaceOf(base, key, o, x);
      PlacedSorted(true, base, key, o, k, x);
      order := Inserted(o, k, x);
      InsertedNodes(o, k, x);
    }
  }

  lemma WindowPart(base: Key, key: seq<Key>, order: seq<Ptr>, x: Ptr)
    requires InWindow(base, key, order + [x])
    ensures InWindow(base, key, order) && (x < |key| ==> Offset(base, key[x]) < HALF)
  {
    assert (order + [x])[|order|] == x;
    forall i | 0 <= i < |order| && order[i] < |key| ensures Offset(base, key[order[i]]) < HALF { assert (order + [x])[i] == order[i]; }
  }

  lemma OneMoreNode(a: seq<Ptr>, b: seq<Ptr>, x: Ptr)
    requires SameNodes(a, b)
    ensures SameNodes(a + [x], b + [x])
  {
  }

  ghost predicate SameNodes(a: seq<Ptr>, b: seq<Ptr>) { multiset(a) == multiset(b) }

  lemma SameMember(a: seq<Ptr>, b: seq<Ptr>, x: Ptr)
    requires SameNodes(a, b)
    ensures x in a <==> x in b
  {
    assert x in multiset(a) <==> x in a;
    assert x in multiset(b) <==> x in b;
  }

  lemma SameRange(key: seq<Key>, a: seq<Ptr>, b: seq<Ptr>)
    requires SameNodes(a, b) && InRange(key, b)
    ensures InRange(key, a)
  {
    forall i | 0 <= i < |a| ensures a[i] < |key| { SameMember(a, b, a[i]); }
  }

  lemma SameWindow(base: Key, key: seq<Key>, a: seq<Ptr>, b: seq<Ptr>)
    requires SameNodes(a, b) && InWindow(base, key, b)
    ensures InWindow(base, key, a)
  {
    forall i | 0 <= i < |a| && a[i] < |key| ensures Offset(base, key[a[i]]) < HALF { SameMember(a, b, a[i]); }
  }

  // Nodes with timer keys can be put in order exactly if a window holds their keys.
  lemma SortableExactly(key: seq<Key>, nodes: seq<Ptr>)
    requires InRange(key, nodes)
    ensures (exists order {:trigger SortedBy(true, key, order)} :: SameNodes(order, nodes) && SortedBy(true, key, order)) <==> HasWindow(key, nodes)
  {
    if order :| SameNodes(order, nodes) && SortedBy(true, key, order) {
      SameRange(key, order, nodes);
      SortedHasWindow(key, order);
      var base: Key :| InWindow(base, key, order);
      SameWindow(base, key, nodes, order);
    }
    if base: Key :| InWindow(base, key, nodes) {
      var order := SortWindow(base, key, nodes);
    }
  }

  // Three keys each a third of the way before the next are in no window, and have no order.
  lemma NoOrder(order: seq<Ptr>)
    requires |order| == 3 && order[0] != order[1] && order[1] != order[2] && order[0] != order[2]
    requires forall i {:trigger order[i]} :: 0 <= i < 3 ==> 1 <= order[i] <= 3
    ensures !SortedBy(true, [0, 0, WORD / 3, WORD / 3 * 2], order) && !HasWindow([0, 0, WORD / 3, WORD / 3 * 2], order)
  {
    var key: seq<Key> := [0, 0, WORD / 3, WORD / 3 * 2];
    assert Before(true, key[1], key[2]) && Before(true, key[2], key[3]) && Before(true, key[3], key[1]);
    forall base: Key ensures !InWindow(base, key, order) {
      if InWindow(base, key, order) {
        assert Offset(base, key[order[0]]) < HALF && Offset(base, key[order[1]]) < HALF && Offset(base, key[order[2]]) < HALF;
        assert Offset(base, key[1]) < HALF && Offset(base, key[2]) < HALF && Offset(base, key[3]) < HALF;
        BeforeByOffset(base, key[1], key[2]);
        BeforeByOffset(base, key[2], key[3]);
        BeforeByOffset(base, key[3], key[1]);
        assert false;
      }
    }
  }

  // ---- insertion ----

  // The neighbours of place k: x does not come before the one, and comes before the other.
  ghost predicate Between(timer: bool, key: seq<Key>, order: seq<Ptr>, k: int, x: Key) {
    && (0 < k <= |order| && order[k - 1] < |key| ==> !Before(timer, x, key[order[k - 1]]))
    && (0 <= k < |order| && order[k] < |key| ==> Before(timer, x, key[order[k]]))
  }

  // After every node that does not come after x, and before all others.
  ghost predicate Behind(timer: bool, key: seq<Key>, order: seq<Ptr>, k: int, x: Key) {
    && (forall i {:trigger order[i]} :: 0 <= i < k && i < |order| && order[i] < |key| ==> !Before(timer, x, key[order[i]]))
    && (forall i {:trigger order[i]} :: 0 <= k <= i < |order| && order[i] < |key| ==> Before(timer, x, key[order[i]]))
  }

  // In a sorted sequence within a window the neighbours decide for all the nodes.
  lemma NeighboursDecide(timer: bool, base: Key, key: seq<Key>, order: seq<Ptr>, k: int, x: Key)
    requires InRange(key, order) && 0 <= k <= |order| && SortedBy(timer, key, order) && Between(timer, key, order, k, x)
    requires timer ==> InWindow(base, key, order) && Offset(base, x) < HALF
    ensures Behind(timer, key, order, k, x)
  {
    forall i | 0 <= i < |order| ensures if i < k then !Before(timer, x, key[order[i]]) else Before(timer, x, key[order[i]]) {
      var j := if i < k then k - 1 else k;
      assert i < j ==> !Before(timer, key[order[j]], key[order[i]]);
      assert j < i ==> !Before(timer, key[order[i]], key[order[j]]);
      if timer {
        BeforeByOffset(base, x, key[order[i]]);
        BeforeByOffset(base, x, key[order[j]]);
        BeforeByOffset(base, key[order[i]], key[order[j]]);
        BeforeByOffset(base, key[order[j]], key[order[i]]);
      }
    }
  }

  lemma BeforeAsymmetric(timer: bool, base: Key, a: Key, b: Key)
    requires timer ==> Offset(base, a) < HALF && Offset(base, b) < HALF
    requires Before(timer, a, b)
    ensures !Before(timer, b, a)
  {
    if timer { BeforeByOffset(base, a, b); BeforeByOffset(base, b, a); }
  }

  lemma InsertedSorted(timer: bool, base: Key, key: seq<Key>, order: seq<Ptr>, k: int, x: Ptr)
    requires InRange(key, order) && 0 <= k <= |order| && x < |key| && SortedBy(timer, key, order)
    requires timer ==> InWindow(base, key, order) && Offset(base, key[x]) < HALF
    requires Behind(timer, key, order, k, key[x])
    ensures SortedBy(timer, key, Inserted(order, k, x))
  {
    var o := Inserted(order, k, x);
    forall i, j | 0 <= i < j < |o| && o[i] < |key| && o[j] < |key|
      ensures !Before(timer, key[o[j]], key[o[i]])
    {
      var i', j' := if i < k then i else i - 1, if j < k then j else j - 1;
      assert i != k ==> o[i] == order[i'];
      assert j != k ==> o[j] == order[j'];
      if i == k { BeforeAsymmetric(timer, base, key[x], key[order[j']]); }
    }
  }

  lemma PlacedSorted(timer: bool, base: Key, key: seq<Key>, order: seq<Ptr>, k: int, x: Ptr)
    requires InRange(key, order) && 0 <= k <= |order| && x < |key| && SortedBy(timer, key, order)
    requires timer ==> InWindow(base, key, order + [x])
    requires Between(timer, key, order, k, key[x])
    ensures Behind(timer, key, order, k, key[x]) && SortedBy(timer, key, Inserted(order, k, x))
  {
    if timer { WindowPart(base, key, order, x); }
    NeighboursDecide(timer, base, key, order, k, key[x]);
    InsertedSorted(timer, base, key, order, k, x);
  }

  // A sequence with one node more is sorted only if it was before and a window holds it.
  lemma SortedWas(timer: bool, key: seq<Key>, order: seq<Ptr>, k: int, x: Ptr)
    requires InRange(key, order) && 0 <= k <= |order| && x < |key| && SortedBy(timer, key, Inserted(order, k, x))
    ensures SortedBy(timer, key, order) && (timer ==> HasWindow(key, order + [x]))
  {
    var o := Inserted(order, k, x);
    forall i, j | 0 <= i < j < |order| && order[i] < |key| && order[j] < |key| ensures !Before(timer, key[order[j]], key[order[i]]) {
      var i', j' := if i < k then i else i + 1, if j < k then j else j + 1;
      assert o[i'] == order[i] && o[j'] == order[j];
    }
    if timer {
      InsertedNodes(order, k, x);
      SameRange(key, o, order + [x]);
      SortedHasWindow(key, o);
      var base: Key :| InWindow(base, key, o);
      SameWindow(base, key, order + [x], o);
    }
  }

  lemma InsertedNodes(order: seq<Ptr>, k: int, x: Ptr)
    requires 0 <= k <= |order|
    ensures SameNodes(Inserted(order, k, x), order + [x])
  {
    assert order == order[..k] + order[k..];
    assert Inserted(order, k, x) == order[..k] + [x] + order[k..];
  }

  // What placing a node between two neighbours does to the order.
  lemma InsertedExactly(timer: bool, key: seq<Key>, order: seq<Ptr>, k: int, x: Ptr)
    requires InRange(key, order) && 0 <= k <= |order| && x < |key| && Between(timer, key, order, k, key[x])
    ensures SortedBy(timer, key, Inserted(order, k, x)) <==> SortedBy(timer, key, order) && (timer ==> HasWindow(key, order + [x]))
    ensures SortedBy(timer, key, Inserted(order, k, x)) ==> Behind(timer, key, order, k, key[x]) && Parts(timer, key, order, k, key[x])
  {
    if SortedBy(timer, key, Inserted(order, k, x)) {
      SortedWas(timer, key, order, k, x);
    }
    if SortedBy(timer, key, order) && (timer ==> HasWindow(key, order + [x])) {
      var base: Key := 0;
      if timer {
        base :| InWindow(base, key, order + [x]);
      }
      PlacedSorted(timer, base, key, order, k, x);
      BehindParts(timer, base, key, order, k, x);
    }
  }

  lemma RemovedSorted(timer: bool, key: seq<Key>, order: seq<Ptr>, k: int)
    requires SortedBy(timer, key, order) && 0 <= k < |order| && order[k] < |key|
    requires forall i {:trigger order[i]} :: 0 <= i < |order| && i != k ==> order[i] != order[k]
    ensures SortedBy(timer, key[order[k] := 0], Removed(order, k))
  {
    var o := Removed(order, k);
    forall i, j | 0 <= i < j < |o| && o[i] < |key| && o[j] < |key|
      ensures !Before(timer, key[order[k] := 0][o[j]], key[order[k] := 0][o[i]])
    {
      var i', j' := if i < k then i else i + 1, if j < k then j else j + 1;
      assert o[i] == order[i'] && o[j] == order[j'];
    }
  }
}
