/** Circular doubly linked lists through page descriptors: "next" and "prev" over an arena, a list
    head whose own "prev" is not used, and the sequence of members they stand for. */
module SlabRing {

  type Ref = int
  const NULL: Ref := -1

  function After(l: seq<Ref>, i: int, head: Ref): Ref {
    if 0 <= i < |l| then l[i] else head
  }

  ghost predicate RingAt(next: seq<Ref>, prev: seq<Ref>, head: Ref, l: seq<Ref>, i: int)
    requires 0 <= i < |l|
  {
    && 0 <= l[i] < |next| && l[i] < |prev| && l[i] != head
    && next[l[i]] == After(l, i + 1, head)
    && prev[l[i]] == After(l, i - 1, head)
  }

  ghost predicate Distinct(l: seq<Ref>) {
    forall i, j :: 0 <= i < j < |l| ==> l[i] != l[j]
  }

  ghost predicate Ring(next: seq<Ref>, prev: seq<Ref>, head: Ref, l: seq<Ref>) {
    && |next| == |prev| && 0 <= head < |next|
    && next[head] == After(l, 0, head)
    && Distinct(l)
    && forall i {:trigger RingAt(next, prev, head, l, i)} :: 0 <= i < |l| ==> RingAt(next, prev, head, l, i)
  }

  function Without(l: seq<Ref>, i: int): seq<Ref>
    requires 0 <= i < |l|
  {
    l[..i] + l[i + 1..]
  }

  // ---- unlinking member i ----

  lemma Unlinked(next: seq<Ref>, prev: seq<Ref>, head: Ref, l: seq<Ref>, i: int)
    requires Ring(next, prev, head, l) && 0 <= i < |l|
    ensures var x := l[i]; 0 <= x < |next| && 0 <= prev[x] < |next| && 0 <= next[x] < |next|
    ensures var x := l[i]; Ring(next[prev[x] := next[x]], prev[next[x] := prev[x]], head, Without(l, i))
  {
    var x, r := l[i], Without(l, i);
    assert RingAt(next, prev, head, l, i);
    if i > 0 { assert RingAt(next, prev, head, l, i - 1); }
    if i + 1 < |l| { assert RingAt(next, prev, head, l, i + 1); }
    var next', prev' := next[prev[x] := next[x]], prev[next[x] := prev[x]];
    forall k | 0 <= k < |r| ensures RingAt(next', prev', head, r, k) {
      var j := if k < i then k else k + 1;
      assert RingAt(next, prev, head, l, j);
    }
  }

  // ---- inserting x behind the head ----

  lemma Pushed(next: seq<Ref>, prev: seq<Ref>, head: Ref, l: seq<Ref>, x: Ref)
    requires Ring(next, prev, head, l) && 0 <= x < |next| && x != head && x !in l
    ensures 0 <= next[head] < |next|
    ensures Ring(next[x := next[head]][head := x], prev[x := head][next[head] := x], head, [x] + l)
  {
    if l != [] { assert RingAt(next, prev, head, l, 0); }
    var next', prev', r := next[x := next[head]][head := x], prev[x := head][next[head] := x], [x] + l;
    forall k | 0 <= k < |r| ensures RingAt(next', prev', head, r, k) {
      if k > 0 { assert RingAt(next, prev, head, l, k - 1); }
    }
  }

  // ---- putting y in the place of member i ----

  lemma Replaced(next: seq<Ref>, prev: seq<Ref>, head: Ref, l: seq<Ref>, i: int, y: Ref)
    requires Ring(next, prev, head, l) && 0 <= i < |l| && 0 <= y < |next| && y != head && y !in l
    ensures var x := l[i]; 0 <= x < |next| && 0 <= prev[x] < |next| && 0 <= next[x] < |next| && prev[x] != x
    ensures var x := l[i];
      Ring(next[y := next[x]][prev[x] := y], prev[y := prev[x]][next[x] := y], head, l[i := y])
  {
    var x, r := l[i], l[i := y];
    assert RingAt(next, prev, head, l, i);
    if i > 0 { assert RingAt(next, prev, head, l, i - 1); }
    if i + 1 < |l| { assert RingAt(next, prev, head, l, i + 1); }
    var next', prev' := next[y := next[x]][prev[x] := y], prev[y := prev[x]][next[x] := y];
    forall k | 0 <= k < |r| ensures RingAt(next', prev', head, r, k) {
      assert RingAt(next, prev, head, l, k);
    }
  }

  // ---- a ring whose own entries do not change ----

  lemma Kept(next: seq<Ref>, prev: seq<Ref>, next': seq<Ref>, prev': seq<Ref>, head: Ref, l: seq<Ref>)
    requires Ring(next, prev, head, l) && |next'| == |next| && |prev'| == |prev|
    requires next'[head] == next[head]
    requires forall x :: x in l && 0 <= x < |next| ==> next'[x] == next[x] && prev'[x] == prev[x]
    ensures Ring(next', prev', head, l)
  {
    forall k | 0 <= k < |l| ensures RingAt(next', prev', head, l, k) {
      assert RingAt(next, prev, head, l, k);
    }
  }
}
