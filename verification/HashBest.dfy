/** The key that matches the most labels, and how it is found label by label. */
module HashBest {
  import opened HashTable

  // A key as labels, from the side that wildcards fix; a strict key needs a further label.
  datatype Pattern = Pattern(labels: seq<string>, strict: bool, value: nat)

  ghost predicate Matches(k: Pattern, l: seq<string>) {
    |k.labels| <= |l| && k.labels == l[..|k.labels|] && (k.strict ==> |k.labels| < |l|)
  }

  ghost predicate NoLonger(keys: seq<Pattern>, l: seq<string>, n: nat, j: int)
    requires 0 <= j < |keys|
  {
    Matches(keys[j], l) ==> |keys[j].labels| <= n
  }

  ghost predicate BestAt(keys: seq<Pattern>, l: seq<string>, i: int)
    requires 0 <= i < |keys|
  {
    && Matches(keys[i], l)
    && forall j {:trigger NoLonger(keys, l, |keys[i].labels|, j)} :: 0 <= j < |keys| ==> NoLonger(keys, l, |keys[i].labels|, j)
  }

  ghost predicate IsBest(keys: seq<Pattern>, l: seq<string>, r: Option<nat>) {
    if r.None? then forall i {:trigger Matches(keys[i], l)} :: 0 <= i < |keys| ==> !Matches(keys[i], l)
    else exists i :: 0 <= i < |keys| && BestAt(keys, l, i) && r == Some(keys[i].value)
  }

  ghost predicate Distinct(keys: seq<Pattern>) {
    forall i, j {:trigger keys[i], keys[j]} :: 0 <= i < j < |keys| ==> keys[i].labels != keys[j].labels
  }

  // With no two keys of the same labels there is one best value.
  lemma BestUnique(keys: seq<Pattern>, l: seq<string>, r: Option<nat>, r': Option<nat>)
    requires Distinct(keys) && IsBest(keys, l, r) && IsBest(keys, l, r')
    ensures r == r'
  {
    if r.Some? && r'.Some? {
      var i :| 0 <= i < |keys| && BestAt(keys, l, i) && r == Some(keys[i].value);
      var j :| 0 <= j < |keys| && BestAt(keys, l, j) && r' == Some(keys[j].value);
      assert NoLonger(keys, l, |keys[i].labels|, j) && NoLonger(keys, l, |keys[j].labels|, i);
    }
  }

  // ---- the keys n..i begin with label a, the others do not; only key n may end there ----

  ghost predicate InGroup(keys: seq<Pattern>, a: string, n: int, i: int, j: int)
    requires 0 <= j < |keys|
  {
    && |keys[j].labels| >= 1 && (keys[j].labels[0] == a <==> n <= j < i)
    && (n < j < i ==> |keys[j].labels| >= 2)
  }

  ghost predicate Group(keys: seq<Pattern>, a: string, n: int, i: int) {
    && 0 <= n < i <= |keys|
    && forall j {:trigger InGroup(keys, a, n, i, j)} :: 0 <= j < |keys| ==> InGroup(keys, a, n, i, j)
  }

  ghost function Rest(k: Pattern): Pattern
    requires |k.labels| >= 1
  {
    Pattern(k.labels[1..], k.strict, k.value)
  }

  ghost predicate IsNext(keys: seq<Pattern>, next: seq<Pattern>, s: int, k: int)
    requires 0 <= k < |next|
  {
    0 <= s + k < |keys| && |keys[s + k].labels| >= 1 && next[k] == Rest(keys[s + k])
  }

  // The keys s..i of a group without their first label, where s is n or, if key n ends, n + 1.
  ghost predicate Nexts(keys: seq<Pattern>, n: int, i: int, next: seq<Pattern>, s: int) {
    && 0 <= n < i <= |keys| && s == (if |keys[n].labels| == 1 then n + 1 else n) && |next| == i - s
    && forall k {:trigger IsNext(keys, next, s, k)} :: 0 <= k < |next| ==> IsNext(keys, next, s, k)
  }

  lemma RestMatches(k: Pattern, a: string, m: seq<string>)
    requires |k.labels| >= 2 && k.labels[0] == a
    ensures Matches(k, [a] + m) <==> Matches(Rest(k), m)
  {
    var n := |k.labels|;
    assert k.labels == [a] + k.labels[1..];
    if n <= |m| + 1 {
      assert ([a] + m)[..n] == [a] + m[..n - 1];
      assert ([a] + m)[..n][1..] == m[..n - 1];
    }
  }

  lemma OwnMatches(k: Pattern, a: string, m: seq<string>)
    requires |k.labels| == 1 && k.labels[0] == a
    ensures Matches(k, [a] + m) <==> (k.strict ==> m != [])
  {
    assert ([a] + m)[..1] == [a];
  }

  lemma OtherMatches(k: Pattern, a: string, m: seq<string>)
    requires |k.labels| >= 1 && k.labels[0] != a
    ensures !Matches(k, [a] + m)
  {
    assert |k.labels| <= |m| + 1 ==> ([a] + m)[..|k.labels|][0] == a;
  }

  // What a match of key j means for the next labels.
  lemma GroupMatches(keys: seq<Pattern>, a: string, n: int, i: int, next: seq<Pattern>, s: int, m: seq<string>, j: int)
    requires Group(keys, a, n, i) && Nexts(keys, n, i, next, s) && 0 <= j < |keys|
    ensures Matches(keys[j], [a] + m) ==> n <= j < i
    ensures s <= j < i ==> (Matches(keys[j], [a] + m) <==> Matches(next[j - s], m)) && |keys[j].labels| == |next[j - s].labels| + 1
    ensures n <= j < s ==> |keys[j].labels| == 1 && (Matches(keys[j], [a] + m) <==> (keys[j].strict ==> m != []))
  {
    assert InGroup(keys, a, n, i, j) && InGroup(keys, a, n, i, n);
    if s <= j < i {
      assert IsNext(keys, next, s, j - s);
      RestMatches(keys[j], a, m);
    } else if n <= j < s {
      OwnMatches(keys[j], a, m);
    } else {
      OtherMatches(keys[j], a, m);
    }
  }

  ghost function Own(k: Pattern): Option<nat> { if |k.labels| == 1 then Some(k.value) else None }

  // From the best key for the labels after the first to the best one for all of them.
  lemma GroupBest(keys: seq<Pattern>, a: string, n: int, i: int, next: seq<Pattern>, s: int, m: seq<string>, r: Option<nat>)
    requires Group(keys, a, n, i) && Nexts(keys, n, i, next, s) && m != []
    requires IsBest(next, m, r)
    ensures IsBest(keys, [a] + m, if r.Some? then r else Own(keys[n]))
  {
    var l := [a] + m;
    if r.Some? {
      var k :| 0 <= k < |next| && BestAt(next, m, k) && r == Some(next[k].value);
      GroupMatches(keys, a, n, i, next, s, m, s + k);
      assert IsNext(keys, next, s, k);
      var c := |keys[s + k].labels|;
      forall j | 0 <= j < |keys| ensures NoLonger(keys, l, c, j) {
        GroupMatches(keys, a, n, i, next, s, m, j);
        if s <= j < i { assert NoLonger(next, m, |next[k].labels|, j - s); }
      }
      assert BestAt(keys, l, s + k);
    } else {
      forall j | 0 <= j < |keys| ensures Matches(keys[j], l) <==> j == n && s == n + 1 {
        GroupMatches(keys, a, n, i, next, s, m, j);
        if s <= j < i { assert !Matches(next[j - s], m); }
      }
      if s == n + 1 {
        forall j | 0 <= j < |keys| ensures NoLonger(keys, l, |keys[n].labels|, j) { }
        assert BestAt(keys, l, n);
      }
    }
  }

  // With no label left only key n may match.
  lemma GroupEnd(keys: seq<Pattern>, a: string, n: int, i: int, next: seq<Pattern>, s: int)
    requires Group(keys, a, n, i) && Nexts(keys, n, i, next, s)
    ensures IsBest(keys, [a], if |keys[n].labels| == 1 && !keys[n].strict then Some(keys[n].value) else None)
  {
    assert [a] + [] == [a];
    forall j | 0 <= j < |keys| ensures Matches(keys[j], [a]) <==> j == n && s == n + 1 && !keys[n].strict {
      GroupMatches(keys, a, n, i, next, s, [], j);
      assert s <= j < i ==> IsNext(keys, next, s, j - s);
      assert InGroup(keys, a, n, i, j) && InGroup(keys, a, n, i, n);
    }
    if |keys[n].labels| == 1 && !keys[n].strict {
      forall j | 0 <= j < |keys| ensures NoLonger(keys, [a], |keys[n].labels|, j) { }
      assert BestAt(keys, [a], n);
    }
  }

  // No key begins with the label.
  lemma NoGroup(keys: seq<Pattern>, a: string, m: seq<string>)
    requires forall j {:trigger keys[j]} :: 0 <= j < |keys| ==> |keys[j].labels| >= 1 && keys[j].labels[0] != a
    ensures IsBest(keys, [a] + m, None)
  {
    forall j | 0 <= j < |keys| ensures !Matches(keys[j], [a] + m) { OtherMatches(keys[j], a, m); }
  }
}
