/** ngx_radix32tree_insert, _delete and _find and ngx_radix_tree_create of
    src/core/ngx_radix_tree.c on the node graph. */
module RadixTree {
  import opened RadixBits
  import opened RadixShape

  const NO_VALUE := 0xffff_ffff_ffff_ffff

  // Fault is the use of a null pointer.
  datatype Status = Ok | Busy | Error | Fault

  // The prefixes of q.
  ghost predicate IsPrefix(p: Path, q: Path) { |p| <= |q| && p == q[..|p|] }

  // The values stored, by prefix.
  ghost function Stored(at: map<Path, Ref>, value: seq<nat>): (s: map<Path, nat>) {
    map q | q in at && 0 <= at[q] < |value| && value[at[q]] != NO_VALUE :: value[at[q]]
  }

  ghost predicate LongestIs(s: map<Path, nat>, key: nat, n: nat, r: nat, d: nat) {
    && d < n && Bits(key, d) in s && s[Bits(key, d)] == r
    && forall e {:trigger Bits(key, e)} :: d < e < n ==> Bits(key, e) !in s
  }

  // r is the value of the longest stored prefix among the first n bits of a key.
  ghost predicate Longest(s: map<Path, nat>, key: nat, n: nat, r: nat) {
    || (r == NO_VALUE && forall d {:trigger Bits(key, d)} :: 0 <= d < n ==> Bits(key, d) !in s)
    || exists d: nat :: LongestIs(s, key, n, r, d)
  }

  lemma LongestStep(s: map<Path, nat>, key: nat, n: nat, r: nat, r': nat)
    requires Longest(s, key, n, r)
    requires r' == if Bits(key, n) in s then s[Bits(key, n)] else r
    ensures Longest(s, key, n + 1, r')
  {
    if Bits(key, n) in s {
      assert LongestIs(s, key, n + 1, r', n);
    } else if d: nat :| LongestIs(s, key, n, r, d) {
      assert LongestIs(s, key, n + 1, r', d);
    }
  }

  // The longest match is unique.
  lemma LongestUnique(s: map<Path, nat>, key: nat, n: nat, r: nat, r': nat)
    requires Longest(s, key, n, r) && Longest(s, key, n, r')
    ensures r == r'
  {
  }

  lemma BitsStep(key: nat, i: nat)
    ensures Bits(key, i + 1) == Bits(key, i) + [HasBit(key, Top(i))]
  {
  }

  lemma BitsPrefix(key: nat, i: nat, d: nat)
    requires i <= d
    ensures Bits(key, d)[..i] == Bits(key, i)
  {
  }

  // Of the paths to q, those longer than n bits are gone.
  ghost predicate Pruned(at: map<Path, Ref>, at': map<Path, Ref>, q: Path, n: nat) {
    n <= |q| && forall p {:trigger p in at'} :: p in at' <==> p in at && !(IsPrefix(p, q) && |p| > n)
  }

  lemma PrunedOne(at: map<Path, Ref>, at': map<Path, Ref>, q: Path, n: nat)
    requires Pruned(at, at', q, n) && n > 0
    ensures Pruned(at, at' - {q[..n]}, q, n - 1)
  {
  }

  // A path that stays in the tree.
  ghost predicate Needed(at: map<Path, Ref>, s: map<Path, nat>, p: Path) {
    p in at && (p == [] || HasKid(at, p) || p in s)
  }

  ghost predicate HasKid(at: map<Path, Ref>, q: Path) { q + [false] in at || q + [true] in at }

  // The prefixes of a key longer than i and up to d bits.
  ghost predicate Between(p: Path, key: nat, i: nat, d: nat) { i < |p| <= d && p == Bits(key, |p|) }

  lemma TooLong(m: Links, v: View, root: Ref, q: Path)
    requires TreeOk(m, v, root)
    ensures |q| > BITS ==> q !in v.at
  {
    assert q in v.at ==> NodeOk(m, v, q);
  }

  lemma KeyPrefix(m: Links, v: View, root: Ref, key: nat, i: nat, d: nat)
    requires TreeOk(m, v, root) && i <= d && Bits(key, d) in v.at
    ensures Bits(key, i) in v.at
  {
    Prefixes(m, v, root, Bits(key, d), i);
    BitsPrefix(key, i, d);
  }

  // Below a missing node there is nothing, so the match found so far is the longest.
  lemma NoLonger(m: Links, v: View, root: Ref, value: seq<nat>, key: nat, i: nat, r: nat)
    requires TreeOk(m, v, root) && i <= BITS + 1 && (i <= BITS ==> Bits(key, i) !in v.at)
    requires Longest(Stored(v.at, value), key, i, r)
    ensures Longest(Stored(v.at, value), key, BITS + 1, r)
    decreases BITS + 1 - i
  {
    if i <= BITS {
      LongestStep(Stored(v.at, value), key, i, r, r);
      if i < BITS && Bits(key, i + 1) in v.at { KeyPrefix(m, v, root, key, i, i + 1); }
      NoLonger(m, v, root, value, key, i + 1, r);
    }
  }

  lemma Missing(m: Links, v: View, root: Ref, key: nat, i: nat, d: nat)
    requires TreeOk(m, v, root) && i <= d
    ensures Bits(key, i) !in v.at ==> Bits(key, d) !in v.at
  {
    if Bits(key, d) in v.at { KeyPrefix(m, v, root, key, i, d); }
  }

  lemma KidTest(m: Links, v: View, root: Ref, q: Path)
    requires TreeOk(m, v, root) && q in v.at
    ensures var n := v.at[q];
      0 <= n < |v.path| && (m.left[n] == NULL <==> q + [false] !in v.at) && (m.right[n] == NULL <==> q + [true] !in v.at)
  {
    assert NodeOk(m, v, q);
    assert q + [false] in v.at ==> NodeOk(m, v, q + [false]);
    assert q + [true] in v.at ==> NodeOk(m, v, q + [true]);
  }

  lemma NoGrandKid(m: Links, v: View, root: Ref, q: Path, b: bool)
    requires TreeOk(m, v, root) && q !in v.at
    ensures q + [b] !in v.at
  {
    assert (q + [b])[..|q|] == q;
    assert q + [b] in v.at ==> NodeOk(m, v, q + [b]);
  }

  lemma PrefixesIn(m: Links, v: View, root: Ref, key: nat, i: nat, d: nat)
    requires TreeOk(m, v, root) && Bits(key, i) in v.at && i <= d
    ensures forall p {:trigger IsPrefix(p, Bits(key, d))} :: IsPrefix(p, Bits(key, d)) <==> Between(p, key, i, d) || (|p| <= i && p == Bits(key, |p|))
    ensures forall p {:trigger Bits(key, |p|)} :: |p| <= i && p == Bits(key, |p|) ==> p in v.at
  {
    forall p ensures IsPrefix(p, Bits(key, d)) <==> Between(p, key, i, d) || (|p| <= i && p == Bits(key, |p|)) {
      if |p| <= d { BitsPrefix(key, |p|, d); }
    }
    forall p | |p| <= i && p == Bits(key, |p|) ensures p in v.at { KeyPrefix(m, v, root, key, |p|, i); }
  }

  lemma BetweenStep(p: Path, key: nat, f: nat, i: nat)
    requires f <= i
    ensures Between(p, key, f, i + 1) <==> Between(p, key, f, i) || p == Bits(key, i + 1)
  {
  }

  lemma NoneFree(m: Links, v: View, first: Ref)
    requires FreeOk(m.right, first, v.free) && first == NULL
    ensures v.free == []
  {
    assert v.free != [] ==> FreeAt(m.right, v.free, 0);
  }

  // Which link of its parent leads to a node.
  lemma WhichKid(m: Links, v: View, root: Ref, q: Path)
    requires TreeOk(m, v, root) && q in v.at && q != [] && q[..|q| - 1] in v.at
    ensures var u := v.at[q[..|q| - 1]]; 0 <= u < |v.path| && (m.right[u] == v.at[q] <==> q[|q| - 1])
  {
    var u := q[..|q| - 1];
    assert q == u + [q[|q| - 1]];
    assert NodeOk(m, v, u) && NodeOk(m, v, q);
    assert u + [true] in v.at ==> NodeOk(m, v, u + [true]);
  }

  // ---- how the steps change what is stored ----

  lemma StoredSet(m: Links, v: View, root: Ref, value: seq<nat>, q: Path, val: nat)
    requires TreeOk(m, v, root) && |value| == |v.path| && q in v.at && 0 <= v.at[q] < |value| && value[v.at[q]] == NO_VALUE
    ensures Stored(v.at, value[v.at[q] := val]) == if val == NO_VALUE then Stored(v.at, value) else Stored(v.at, value)[q := val]
  {
    forall p | p in v.at && p != q ensures v.at[p] != v.at[q] {
      assert NodeOk(m, v, p) && NodeOk(m, v, q);
    }
    assert NodeOk(m, v, q);
  }

  lemma StoredClear(m: Links, v: View, root: Ref, value: seq<nat>, q: Path)
    requires TreeOk(m, v, root) && |value| == |v.path| && q in v.at && 0 <= v.at[q] < |value|
    ensures Stored(v.at, value[v.at[q] := NO_VALUE]) == Stored(v.at, value) - {q}
  {
    forall p | p in v.at && p != q ensures v.at[p] != v.at[q] {
      assert NodeOk(m, v, p) && NodeOk(m, v, q);
    }
  }

  lemma NotStored(m: Links, v: View, value: seq<nat>, q: Path)
    ensures q !in Stored(v.at, value) ==> Stored(v.at, value) - {q} == Stored(v.at, value)
  {
  }

  lemma StoredGrow(m: Links, v: View, root: Ref, value: seq<nat>, q: Path, b: bool, n: Ref)
    requires CanGrow(m, v, root, q, b, n) && |value| == |v.path|
    ensures Stored(GrownView(v, q, b, n).at, value[n := NO_VALUE]) == Stored(v.at, value)
  {
    forall p | p in v.at ensures v.at[p] != n { assert NodeOk(m, v, p); }
  }

  lemma StoredExtend(m: Links, v: View, root: Ref, value: seq<nat>)
    requires TreeOk(m, v, root) && |value| == |v.path|
    ensures Stored(v.at, value + [NO_VALUE]) == Stored(v.at, value)
  {
    forall p | p in v.at ensures 0 <= v.at[p] < |value| { assert NodeOk(m, v, p); }
  }

  // ---- preallocation ----

  // With 4096-byte pages and 32-byte nodes the default is 6.
  function Levels(preallocate: int): int { if preallocate == -1 then 6 else preallocate }

  // All the paths of at most r bits, and no other, have nodes.
  ghost predicate LevelsDone(at: map<Path, Ref>, r: nat) {
    forall p: Path {:trigger p in at} :: p in at <==> |p| <= r && |p| <= BITS
  }

  // The same, and those of the next length up to a key.
  ghost predicate LevelPart(at: map<Path, Ref>, r: nat, key: nat)
    requires r < BITS
  {
    && Multiple(key, Unit(r + 1))
    && forall p: Path {:trigger p in at} :: p in at <==> |p| <= r || (|p| == r + 1 && KeyOf(p) < key)
  }

  lemma LevelBegins(at: map<Path, Ref>, r: nat)
    requires LevelsDone(at, r)
    ensures r < BITS ==> LevelPart(at, r, 0)
  {
    if r < BITS { assert 0 == 0 * Unit(r + 1); }
  }

  lemma KeyStep(p: Path, key: nat)
    requires 0 < |p| <= BITS && key < WORD && Multiple(key, Unit(|p|))
    ensures KeyOf(p) < key + Unit(|p|) <==> KeyOf(p) < key || p == Bits(key, |p|)
    ensures key + Unit(|p|) <= WORD && KeyOf(p) < WORD
  {
    var u := Unit(|p|);
    KeyOfRange(p);
    if KeyOf(p) > key { MultipleGap(key, KeyOf(p), u); }
    if KeyOf(p) == key { BitsOfKey(p, key); }
    OnlyKey(key, |p|);
    var k := KeyOf(Bits(key, |p|));
    KeyOfRange(Bits(key, |p|));
    if k < key { MultipleGap(k, key, u); }
  }

  lemma LevelStep(at: map<Path, Ref>, at': map<Path, Ref>, r: nat, key: nat)
    requires r < BITS && key < WORD && LevelPart(at, r, key)
    requires forall p {:trigger p in at'} :: p in at' <==> p in at || IsPrefix(p, Bits(key, r + 1))
    ensures key + Top(r) <= WORD
    ensures key + Top(r) < WORD ==> LevelPart(at', r, key + Top(r))
    ensures key + Top(r) == WORD ==> LevelsDone(at', r + 1)
  {
    var u := Unit(r + 1);
    assert u == 1 * u;
    MultipleAdd(key, u, u);
    KeyStep(Bits(key, r + 1), key);
    forall p: Path ensures p in at' <==> |p| <= r || (|p| == r + 1 && KeyOf(p) < key + u) {
      if |p| == r + 1 { KeyStep(p, key); }
      assert |p| <= r ==> p in at;
    }
    forall p: Path | |p| == r + 1 ensures KeyOf(p) < WORD { KeyStep(p, key); }
  }

  lemma Wrap(x: nat)
    requires x <= WORD
    ensures x % WORD == if x == WORD then 0 else x
  {
  }

  lemma LevelAgain(at: map<Path, Ref>, at': map<Path, Ref>, r: nat, key: nat)
    requires r >= BITS && LevelsDone(at, r)
    requires forall p {:trigger p in at'} :: p in at' <==> p in at || IsPrefix(p, Bits(key, BITS))
    ensures LevelsDone(at', r) && LevelsDone(at', r + 1)
  {
  }

  class Tree {
    var root: Ref
    var left: seq<Ref>
    var right: seq<Ref>
    var parent: seq<Ref>
    var value: seq<nat>
    var free: Ref

    ghost var v: View

    ghost function M(): Links reads this { Links(left, right, parent) }

    ghost predicate Valid() reads this {
      TreeOk(M(), v, root) && FreeOk(right, free, v.free) && Owned(v, NULL) && |value| == |v.path|
    }

    ghost function Values(): map<Path, nat> reads this { Stored(v.at, value) }

    // ngx_radix_tree_create: with preallocation all the paths up to that depth have nodes.
    constructor (preallocate: int)
      requires preallocate >= -1
      ensures Valid() && Values() == map[]
      ensures forall p: Path {:trigger p in v.at} :: p in v.at <==> |p| <= Levels(preallocate) && |p| <= BITS
    {
      root, free := 0, NULL;
      left, right, parent, value := [NULL], [NULL], [NULL], [NO_VALUE];
      v := View(map[[] := 0], [[]], []);
      new;
      assert Kid(v.at, [], false) == NULL && Kid(v.at, [], true) == NULL;
      assert NodeOk(M(), v, []);
      assert Kept(v, 0);
      var mask, inc := 0, Top(0);
      var r := 0;
      NoMask();
      assert LevelsDone(v.at, 0);
      while r < Levels(preallocate)
        invariant 0 <= r <= Levels(preallocate) && Valid() && Values() == map[]
        invariant IsMask(mask, r) && inc == Top(r) && LevelsDone(v.at, r)
      {
        NextIsMask(mask, r);
        mask := NextMask(mask);
        Level(mask, inc, r);
        if r < BITS { TopHalf(r); }
        inc := inc / 2;
        r := r + 1;
      }
    }

    // The inner loop of the preallocation, whose key wraps around to 0 at the end.
    method Level(mask: nat, inc: nat, ghost r: nat)
      requires Valid() && Values() == map[] && IsMask(mask, r + 1) && inc == Top(r) && LevelsDone(v.at, r)
      modifies this`left, this`right, this`parent, this`value, this`free, this`v
      ensures Valid() && Values() == map[] && LevelsDone(v.at, r + 1)
    {
      var key := 0;
      MaskLead(mask, r + 1, 0);
      LevelBegins(v.at, r);
      while true
        invariant Valid() && Values() == map[] && key < WORD
        invariant if r < BITS then LevelPart(v.at, r, key) else LevelsDone(v.at, r) && key == 0
        decreases WORD - key
      {
        Blank(key, mask, r);
        Wrap(key + inc);
        key := (key + inc) % WORD;
        if key == 0 { break; }
      }
    }

    method Blank(key: nat, mask: nat, ghost r: nat)
      requires Valid() && Values() == map[] && key < WORD && Lead(mask, 0) == if r + 1 <= BITS then r + 1 else BITS
      requires if r < BITS then LevelPart(v.at, r, key) else LevelsDone(v.at, r) && key == 0
      modifies this`left, this`right, this`parent, this`value, this`free, this`v
      ensures Valid() && Values() == map[] && key + Top(r) <= WORD
      ensures r < BITS && key + Top(r) < WORD ==> LevelPart(v.at, r, key + Top(r))
      ensures key + Top(r) == WORD || r >= BITS ==> LevelsDone(v.at, r + 1)
    {
      var status := Insert(key, mask, NO_VALUE);
      if r < BITS { LevelStep(old(v.at), v.at, r, key); } else { LevelAgain(old(v.at), v.at, r, key); }
    }

    // ngx_radix32tree_find: the value of the longest stored prefix of the key.
    method Find(key: nat) returns (r: nat)
      requires Valid()
      ensures Longest(Values(), key, BITS + 1, r)
    {
      var bit, node := Top(0), root;
      ghost var i := 0;
      r := NO_VALUE;
      assert Bits(key, 0) == [];
      while node != NULL
        invariant 0 <= i <= BITS + 1 && (i <= BITS ==> bit == Top(i))
        invariant node == if Bits(key, i) in v.at then v.at[Bits(key, i)] else NULL
        invariant node == NULL || i <= BITS
        invariant Longest(Values(), key, i, r)
        decreases BITS + 1 - i
      {
        ghost var q := Bits(key, i);
        assert NodeOk(M(), v, q);
        BitsStep(key, i);
        LongestStep(Values(), key, i, r, if value[node] != NO_VALUE then value[node] else r);
        if value[node] != NO_VALUE {
          r := value[node];
        }
        node := if HasBit(key, bit) then right[node] else left[node];
        if i < BITS { TopHalf(i); }
        TooLong(M(), v, root, Bits(key, i + 1));
        bit := bit / 2;
        i := i + 1;
      }
      assert Bits(key, i) in v.at ==> NodeOk(M(), v, Bits(key, i));
      NoLonger(M(), v, root, value, key, i, r);
    }

    // Walks down the key while there are nodes: the first loop of insert.
    method Descend(key: nat, mask: nat) returns (node: Ref, next: Ref, bit: nat, ghost i: nat)
      requires Valid()
      ensures i <= Lead(mask, 0) <= BITS && bit == Top(i) && Lead(mask, i) == Lead(mask, 0)
      ensures Bits(key, i) in v.at && node == v.at[Bits(key, i)]
      ensures next == NULL ==> i < Lead(mask, 0) && Bits(key, i + 1) !in v.at
      ensures next != NULL ==> i == Lead(mask, 0)
    {
      bit, node, next, i := Top(0), root, root, 0;
      assert Bits(key, 0) == [];
      assert NodeOk(M(), v, []);
      while HasBit(mask, bit)
        invariant i <= Lead(mask, 0) <= BITS && bit == Top(i) && Lead(mask, i) == Lead(mask, 0)
        invariant Bits(key, i) in v.at && node == v.at[Bits(key, i)] && next != NULL
        decreases BITS - i
      {
        assert NodeOk(M(), v, Bits(key, i));
        BitsStep(key, i);
        next := if HasBit(key, bit) then right[node] else left[node];
        if next == NULL {
          KidTest(M(), v, root, Bits(key, i));
          return;
        }
        assert NodeOk(M(), v, Bits(key, i + 1));
        TopHalf(i);
        bit := bit / 2;
        node := next;
        i := i + 1;
      }
    }

    // ngx_radix32tree_insert; memory does not run out.
    method Insert(key: nat, mask: nat, val: nat) returns (r: Status)
      requires Valid()
      modifies this`left, this`right, this`parent, this`value, this`free, this`v
      ensures Valid()
      ensures var q := Bits(key, Lead(mask, 0)); r == if q in old(Values()) then Busy else Ok
      ensures r == Busy ==> Values() == old(Values()) && v == old(v)
      ensures r == Ok ==> var q := Bits(key, Lead(mask, 0));
        && Values() == (if val == NO_VALUE then old(Values()) else old(Values())[q := val])
        && forall p {:trigger p in v.at} :: p in v.at <==> p in old(v.at) || IsPrefix(p, q)
    {
      var node, next, bit;
      ghost var i;
      node, next, bit, i := Descend(key, mask);
      ghost var q := Bits(key, Lead(mask, 0));
      assert NodeOk(M(), v, Bits(key, i));
      PrefixesIn(M(), v, root, key, i, Lead(mask, 0));
      if next != NULL {
        if value[node] != NO_VALUE {
          return Busy;
        }
        SetValue(node, q, val);
        return Ok;
      }
      node := Extend(node, key, mask, bit, i);
      SetValue(node, q, val);
      return Ok;
    }

    method SetValue(node: Ref, ghost q: Path, val: nat)
      requires Valid() && q in v.at && node == v.at[q] && 0 <= node < |value| && value[node] == NO_VALUE
      modifies this`value
      ensures Valid() && Values() == if val == NO_VALUE then old(Values()) else old(Values())[q := val]
    {
      value := value[node := val];
      StoredSet(M(), v, root, old(value), q, val);
    }

    // The second loop of insert: new nodes for the rest of the prefix.
    method Extend(first: Ref, key: nat, mask: nat, firstBit: nat, ghost first_i: nat) returns (node: Ref)
      requires Valid() && first_i < Lead(mask, 0) <= BITS && firstBit == Top(first_i) && Lead(mask, first_i) == Lead(mask, 0)
      requires Bits(key, first_i) in v.at && first == v.at[Bits(key, first_i)] && Bits(key, first_i + 1) !in v.at
      modifies this`left, this`right, this`parent, this`value, this`free, this`v
      ensures Valid() && Values() == old(Values())
      ensures var q := Bits(key, Lead(mask, 0)); q in v.at && node == v.at[q] && 0 <= node < |value| && value[node] == NO_VALUE
      ensures forall p {:trigger p in v.at} :: p in v.at <==> p in old(v.at) || Between(p, key, first_i, Lead(mask, 0))
    {
      var bit := firstBit;
      node := first;
      ghost var i := first_i;
      while HasBit(mask, bit)
        invariant Valid() && first_i <= i <= Lead(mask, 0) && bit == Top(i) && Lead(mask, i) == Lead(mask, 0)
        invariant Bits(key, i) in v.at && node == v.at[Bits(key, i)] && Bits(key, i + 1) !in v.at
        invariant i > first_i ==> 0 <= node < |value| && value[node] == NO_VALUE
        invariant Values() == old(Values())
        invariant forall p {:trigger p in v.at} :: p in v.at <==> p in old(v.at) || Between(p, key, first_i, i)
        decreases BITS - i
      {
        BitsStep(key, i);
        BitsStep(key, i + 1);
        NoGrandKid(M(), v, root, Bits(key, i + 1), HasBit(key, Top(i + 1)));
        node := AddNode(node, HasBit(key, bit), Bits(key, i));
        forall p ensures Between(p, key, first_i, i + 1) <==> Between(p, key, first_i, i) || p == Bits(key, i + 1) {
          BetweenStep(p, key, first_i, i);
        }
        TopHalf(i);
        bit := bit / 2;
        i := i + 1;
      }
    }

    method AddNode(node: Ref, b: bool, ghost q: Path) returns (next: Ref)
      requires Valid() && q in v.at && node == v.at[q] && q + [b] !in v.at && |q| < BITS
      modifies this`left, this`right, this`parent, this`value, this`free, this`v
      ensures Valid() && Values() == old(Values())
      ensures v.at == old(v.at)[q + [b] := next] && 0 <= next < |value| && value[next] == NO_VALUE
    {
      next := NewNode();
      assert NodeOk(M(), v, q);
      Grow(M(), v, root, q, b, next);
      GrowOwned(M(), v, root, q, b, next);
      GrowFree(M(), v, root, q, b, next, free);
      StoredGrow(M(), v, root, value, q, b, next);
      right := right[next := NULL];
      left := left[next := NULL];
      parent := parent[next := node];
      value := value[next := NO_VALUE];
      if b {
        right := right[node := next];
      } else {
        left := left[node := next];
      }
      v := GrownView(v, q, b, next);
    }

    // ngx_radix_alloc: a recycled node, or the next one of the memory taken from the pool.
    method NewNode() returns (p: Ref)
      requires Valid()
      modifies this`left, this`right, this`parent, this`value, this`free, this`v
      ensures TreeOk(M(), v, root) && FreeOk(right, free, v.free) && |value| == |v.path|
      ensures 0 <= p < |v.path| && Owned(v, p) && v.at == old(v.at) && Values() == old(Values())
    {
      if free != NULL {
        TakeFree(M(), v, root, free);
        p := free;
        free := right[free];
        v := View(v.at, v.path, v.free[1..]);
      } else {
        NoneFree(M(), v, free);
        TakeNew(M(), v, root, free);
        StoredExtend(M(), v, root, value);
        p := |left|;
        left := left + [NULL];
        right := right + [NULL];
        parent := parent + [NULL];
        value := value + [NO_VALUE];
        v := View(v.at, v.path + [[]], v.free);
      }
    }

    // ngx_radix32tree_delete: a leaf goes with the ancestors that it leaves without children and
    // value, which are those longer than n bits.
    method Delete(key: nat, mask: nat) returns (r: Status, ghost n: nat)
      requires Valid()
      modifies this`left, this`right, this`value, this`free, this`v
      ensures Valid() && |v.path| == old(|v.path|)
      ensures r == Fault <==> Lead(mask, 0) == 0 && !HasKid(old(v.at), [])
      ensures r == Fault ==> Values() == old(Values()) && v == old(v)
      ensures var q := Bits(key, Lead(mask, 0)); r != Fault ==> Values() == old(Values()) - {q}
      ensures var q := Bits(key, Lead(mask, 0)); r != Fault ==> r == if q in old(v.at) && (q in old(Values()) || !HasKid(old(v.at), q)) then Ok else Error
      ensures var q := Bits(key, Lead(mask, 0)); Pruned(old(v.at), v.at, q, n) && (r != Fault ==> (n < |q| <==> q in old(v.at) && !HasKid(old(v.at), q)))
      ensures var q := Bits(key, Lead(mask, 0)); n < |q| ==> Needed(v.at, Values(), q[..n])
    {
      ghost var q := Bits(key, Lead(mask, 0));
      var node := Locate(key, mask);
      n := |q|;
      if node == NULL {
        NotStored(M(), v, value, q);
        return Error, n;
      }
      KidTest(M(), v, root, q);
      if right[node] != NULL || left[node] != NULL {
        StoredClear(M(), v, root, value, q);
        if value[node] != NO_VALUE {
          value := value[node := NO_VALUE];
          return Ok, n;
        }
        NotStored(M(), v, value, q);
        return Error, n;
      }
      if parent[node] == NULL {
        // node->parent->right
        assert q != [] ==> NodeOk(M(), v, q) && NodeOk(M(), v, q[..|q| - 1]);
        return Fault, n;
      }
      assert NodeOk(M(), v, q);
      n := Prune(node, q);
      return Ok, n;
    }

    // The first loop of delete.
    method Locate(key: nat, mask: nat) returns (node: Ref)
      requires Valid()
      ensures var q := Bits(key, Lead(mask, 0)); node == if q in v.at then v.at[q] else NULL
      ensures var q := Bits(key, Lead(mask, 0)); q in v.at ==> 0 <= node < |v.path|
    {
      var bit := Top(0);
      node := root;
      ghost var i := 0;
      assert Bits(key, 0) == [];
      while node != NULL && HasBit(mask, bit)
        invariant i <= Lead(mask, 0) <= BITS && bit == Top(i) && Lead(mask, i) == Lead(mask, 0)
        invariant node == if Bits(key, i) in v.at then v.at[Bits(key, i)] else NULL
        decreases BITS - i
      {
        assert NodeOk(M(), v, Bits(key, i));
        BitsStep(key, i);
        node := if HasBit(key, bit) then right[node] else left[node];
        TopHalf(i);
        bit := bit / 2;
        i := i + 1;
      }
      assert Bits(key, i) in v.at ==> NodeOk(M(), v, Bits(key, i));
      Missing(M(), v, root, key, i, Lead(mask, 0));
    }

    // The loop of delete: a leaf, and then every ancestor left without children and value.
    method Prune(leaf: Ref, ghost q: Path) returns (ghost n: nat)
      requires Valid() && q in v.at && leaf == v.at[q] && q != [] && !HasKid(v.at, q)
      modifies this`left, this`right, this`free, this`v
      ensures Valid() && |v.path| == old(|v.path|) && Values() == old(Values()) - {q}
      ensures n < |q| && Pruned(old(v.at), v.at, q, n) && Needed(v.at, Values(), q[..n])
    {
      var node := leaf;
      ghost var p := q;
      node := CutLeaf(node, p);
      p := p[..|p| - 1];
      PrunedOne(old(v.at), old(v.at), q, |q|);
      assert q[..|q|] == q;
      KidTest(M(), v, root, p);
      while right[node] == NULL && left[node] == NULL && value[node] == NO_VALUE && parent[node] != NULL
        invariant Valid() && |v.path| == old(|v.path|) && p in v.at && node == v.at[p] && 0 <= node < |v.path| && NodeOk(M(), v, p)
        invariant right[node] == NULL && left[node] == NULL <==> !HasKid(v.at, p)
        invariant Values() == old(Values()) - {q}
        invariant |p| < |q| && p == q[..|p|] && Pruned(old(v.at), v.at, q, |p|)
        decreases |p|
      {
        assert p !in Values();
        PrunedOne(old(v.at), v.at, q, |p|);
        node := CutLeaf(node, p);
        p := p[..|p| - 1];
        KidTest(M(), v, root, p);
      }
      n := |p|;
      assert p != [] ==> NodeOk(M(), v, p[..|p| - 1]);
      assert value[node] != NO_VALUE ==> p in Values();
    }

    method CutLeaf(node: Ref, ghost q: Path) returns (up: Ref)
      requires Valid() && q in v.at && node == v.at[q] && q != [] && !HasKid(v.at, q)
      modifies this`left, this`right, this`free, this`v
      ensures Valid() && v.path == old(v.path) && v.at == old(v.at) - {q} && Values() == old(Values()) - {q}
      ensures q[..|q| - 1] in v.at && up == v.at[q[..|q| - 1]] && 0 <= up < |v.path| && NodeOk(M(), v, q[..|q| - 1])
    {
      ghost var u := q[..|q| - 1];
      assert NodeOk(M(), v, q);
      assert NodeOk(M(), v, u);
      CutTree(M(), v, root, q, free);
      CutOwned(M(), v, root, q);
      CutFree(M(), v, root, q, free);
      WhichKid(M(), v, root, q);
      assert Stored(v.at - {q}, value) == Stored(v.at, value) - {q};
      up := parent[node];
      if right[up] == node {
        right := right[up := NULL];
      } else {
        left := left[up := NULL];
      }
      right := right[node := free];
      free := node;
      v := CutView(v, q);
      assert NodeOk(M(), v, u);
    }
  }
}
