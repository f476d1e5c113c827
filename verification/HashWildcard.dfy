/** ngx_hash_wildcard_init, ngx_hash_find_wc_head and ngx_hash_find_wc_tail of src/core/ngx_hash.c. */
module HashWildcard {
  import opened HashTable
  import opened HashLabels
  import B = HashBest

  // What a table holds for a label: a data pointer whose low bit says "subdomains only", or the
  // table of the next labels with the same bit.
  datatype Slot = Ptr(raw: nat) | Sub(w: Table, only: bool)
  datatype Table = Table(hash: Hash<Slot>, value: Option<nat>)

  datatype Key = Key(text: string, value: nat)

  // ---- lookups on names ----

  // ngx_hash_find_wc_head: labels from the right.
  function FindHead(w: Table, name: string): (r: Option<nat>)
    decreases |name|
  {
    var n := LastDot(name);
    match Find<Slot>(w.hash, HashOf(name[n..]), name[n..])
    case None => w.value
    case Some(Sub(s, only)) =>
      if n == 0 then (if only then None else s.value)
      else
        var r := FindHead(s, name[..n - 1]);
        if r.Some? then r else s.value
    case Some(Ptr(raw)) =>
      if raw % 2 == 1 then (if n == 0 then None else Some(raw / 4 * 4)) else Some(raw)
  }

  // ngx_hash_find_wc_tail: labels from the left.
  function FindTail(w: Table, name: string): (r: Option<nat>)
    decreases |name|
  {
    var i := Dot(name);
    if i == |name| then None else
    match Find<Slot>(w.hash, HashOf(name[..i]), name[..i])
    case None => w.value
    case Some(Sub(s, only)) =>
      var r := FindTail(s, name[i + 1..]);
      if r.Some? then r else s.value
    case Some(Ptr(raw)) => Some(raw)
  }

  // ---- the same on sequences of labels ----

  function FindLabels(w: Table, l: seq<string>, tail: bool): (r: Option<nat>)
    requires |l| >= 1
    decreases |l|, 1
  {
    if tail && |l| == 1 then None else
    match Find<Slot>(w.hash, HashOf(l[0]), l[0])
    case None => w.value
    case Some(s) => FindSlot(s, l, tail)
  }

  function FindSlot(s: Slot, l: seq<string>, tail: bool): (r: Option<nat>)
    requires |l| >= 1 && (tail ==> |l| >= 2)
    decreases |l|, 0
  {
    match s
    case Sub(w, only) =>
      if |l| == 1 then (if only then None else w.value)
      else
        var r := FindLabels(w, l[1..], tail);
        if r.Some? then r else w.value
    case Ptr(raw) =>
      if !tail && raw % 2 == 1 then (if |l| == 1 then None else Some(raw / 4 * 4)) else Some(raw)
  }

  lemma {:induction false} HeadOnLabels(w: Table, name: string)
    ensures FindHead(w, name) == FindLabels(w, FromRight(name), false)
    decreases |name|
  {
    var n, l := LastDot(name), FromRight(name);
    if n > 0 {
      assert l[1..] == FromRight(name[..n - 1]);
      match Find<Slot>(w.hash, HashOf(name[n..]), name[n..]) {
        case Some(Sub(s, only)) => HeadOnLabels(s, name[..n - 1]);
        case _ =>
      }
    } else {
      assert name[n..] == name;
    }
  }

  lemma {:induction false} TailOnLabels(w: Table, name: string)
    ensures FindTail(w, name) == FindLabels(w, Split(name), true)
    decreases |name|
  {
    var i, l := Dot(name), Split(name);
    if i < |name| {
      assert l[1..] == Split(name[i + 1..]);
      match Find<Slot>(w.hash, HashOf(name[..i]), name[..i]) {
        case Some(Sub(s, only)) => TailOnLabels(s, name[i + 1..]);
        case _ =>
      }
    }
  }

  // ---- the keys that the table is built from ----

  ghost predicate GoodKey(k: Key) { Good(k.text) && k.value % 4 == 0 && k.value > 0 }

  ghost predicate Ordered(keys: seq<Key>, i: int, j: int)
    requires 0 <= i < |keys| && 0 <= j < |keys|
  {
    Le(keys[i].text, keys[j].text) && KeyLabels(keys[i].text) != KeyLabels(keys[j].text)
  }

  // Sorted by ngx_dns_strcmp and free of conflicts.
  ghost predicate GoodKeys(keys: seq<Key>) {
    && (forall i {:trigger GoodKey(keys[i])} :: 0 <= i < |keys| ==> GoodKey(keys[i]))
    && (forall i, j {:trigger Ordered(keys, i, j)} :: 0 <= i < j < |keys| ==> Ordered(keys, i, j))
  }

  ghost predicate NoDots(keys: seq<Key>) {
    forall i {:trigger keys[i]} :: 0 <= i < |keys| ==> !Dotted(keys[i].text)
  }

  function Label(k: Key): string { k.text[..Dot(k.text)] }

  // The test of the inner loop: key k goes on with the label of key n.
  predicate Joins(n: Key, k: Key) {
    var len := Dot(n.text);
    var dot := len < |n.text|;
    var m := if dot then len + 1 else len;
    m <= |k.text| && k.text[..m] == n.text[..m] && !(!dot && |k.text| > m && k.text[m] != '.')
  }

  // Two keys with the same first label: the later one goes on after it.
  lemma LaterGoesOn(a: string, b: string)
    requires Good(a) && Good(b) && Le(a, b) && KeyLabels(a) != KeyLabels(b) && a[..Dot(a)] == b[..Dot(b)]
    ensures Rest(b) != ""
  {
    if Rest(b) == "" {
      EndForm(b);
      if Rest(a) == "" {
        EndForm(a);
      } else {
        GoOnForm(a);
        ProperPrefix(b[..Dot(b)], b, a, Rest(a));
      }
    }
  }

  lemma EndForm(s: string)
    requires Good(s) && Rest(s) == ""
    ensures (s == s[..Dot(s)] || s == s[..Dot(s)] + "." + "") && KeyLabels(s) == [s[..Dot(s)]]
  {
    GoodRest(s);
    if Dot(s) < |s| { Rejoin(s); }
  }

  lemma GoOnForm(s: string)
    requires Good(s) && Rest(s) != ""
    ensures s == s[..Dot(s)] + "." + Rest(s)
  {
    GoodRest(s);
    Rejoin(s);
  }

  lemma ProperPrefix(l: string, b: string, a: string, r: string)
    requires (b == l || b == l + "." + "") && a == l + "." + r && r != ""
    ensures !Le(a, b)
  {
    assert a[..|b|] == b;
    PrefixFirst(b, a);
  }

  lemma JoinsText(n: Key, k: Key)
    requires Label(k) == Label(n) ==> Rest(k.text) != ""
    ensures Joins(n, k) <==> Label(k) == Label(n)
  {
    var a, b, l := n.text, k.text, Label(n);
    BeginsDot(b, l);
    if |l| < |a| {
      assert a[..|l| + 1] == l + ".";
      if Joins(n, k) {
        assert b[..|l|] == b[..|l| + 1][..|l|] && b[|l|] == b[..|l| + 1][|l|];
      }
      if Label(k) == l { assert b[..|l| + 1] == l + "."; }
    } else {
      assert a == l;
    }
  }

  lemma JoinsIsLabel(keys: seq<Key>, n: int, i: int)
    requires GoodKeys(keys) && 0 <= n < i < |keys|
    ensures Joins(keys[n], keys[i]) <==> Label(keys[i]) == Label(keys[n])
    ensures Label(keys[i]) == Label(keys[n]) ==> Rest(keys[i].text) != ""
  {
    assert GoodKey(keys[n]) && GoodKey(keys[i]) && Ordered(keys, n, i);
    if Label(keys[i]) == Label(keys[n]) { LaterGoesOn(keys[n].text, keys[i].text); }
    JoinsText(keys[n], keys[i]);
  }

  // No key between two with the same first label has another one.
  lemma GroupTogether(keys: seq<Key>, a: int, b: int, c: int)
    requires GoodKeys(keys) && 0 <= a < b < c < |keys| && Label(keys[a]) == Label(keys[c])
    ensures Label(keys[b]) == Label(keys[a])
  {
    assert GoodKey(keys[b]) && Ordered(keys, a, b) && Ordered(keys, b, c);
    var l := Label(keys[a]);
    BeginsDot(keys[a].text, l);
    BeginsDot(keys[b].text, l);
    BeginsDot(keys[c].text, l);
    Together(keys[a].text, keys[b].text, keys[c].text, l);
  }

  // ---- the keys as patterns ----

  function ToPattern(k: Key, tail: bool): B.Pattern { B.Pattern(KeyLabels(k.text), tail || Dotted(k.text), k.value) }

  function Patterns(keys: seq<Key>, tail: bool): (p: seq<B.Pattern>)
    ensures |p| == |keys| && forall i :: 0 <= i < |keys| ==> p[i] == ToPattern(keys[i], tail)
  {
    seq(|keys|, i requires 0 <= i < |keys| => ToPattern(keys[i], tail))
  }

  // The best key for the labels of a name.
  ghost predicate IsBest(keys: seq<Key>, tail: bool, l: seq<string>, r: Option<nat>) {
    B.IsBest(Patterns(keys, tail), l, r)
  }

  lemma PatternOf(k: Key, tail: bool)
    requires GoodKey(k)
    ensures var p := ToPattern(k, tail);
      && |p.labels| >= 1 && p.labels[0] == Label(k)
      && (|p.labels| == 1 <==> Rest(k.text) == "")
      && (Rest(k.text) != "" ==> B.Rest(p) == ToPattern(RestOf(k), tail))
      && (Rest(k.text) == "" && !tail ==> (p.strict <==> Dot(k.text) < |k.text|))
  {
    GoodRest(k.text);
    if Rest(k.text) != "" { assert ([Label(k)] + KeyLabels(Rest(k.text)))[1..] == KeyLabels(Rest(k.text)); }
  }

  // Keys n..i are those whose first label is that of key n.
  ghost predicate Group(keys: seq<Key>, n: int, i: int) {
    && 0 <= n < i <= |keys|
    && forall j {:trigger Label(keys[j])} :: 0 <= j < |keys| ==> (Label(keys[j]) == Label(keys[n]) <==> n <= j < i)
  }

  function RestOf(k: Key): Key { Key(Rest(k.text), k.value) }

  ghost predicate IsNext(keys: seq<Key>, next: seq<Key>, s: int, k: int)
    requires 0 <= k < |next|
  {
    0 <= s + k < |keys| && next[k] == RestOf(keys[s + k])
  }

  ghost predicate Nexts(keys: seq<Key>, n: int, i: int, next: seq<Key>, s: int) {
    && 0 <= n < i <= |keys| && s == (if Rest(keys[n].text) == "" then n + 1 else n) && |next| == i - s
    && forall k {:trigger IsNext(keys, next, s, k)} :: 0 <= k < |next| ==> IsNext(keys, next, s, k)
  }

  lemma GroupPatterns(keys: seq<Key>, n: int, i: int, next: seq<Key>, s: int, tail: bool)
    requires GoodKeys(keys) && Group(keys, n, i) && Nexts(keys, n, i, next, s)
    ensures B.Group(Patterns(keys, tail), Label(keys[n]), n, i)
    ensures B.Nexts(Patterns(keys, tail), n, i, Patterns(next, tail), s)
  {
    var p, q, a := Patterns(keys, tail), Patterns(next, tail), Label(keys[n]);
    assert GoodKey(keys[n]);
    PatternOf(keys[n], tail);
    forall j | 0 <= j < |p| ensures B.InGroup(p, a, n, i, j) {
      assert GoodKey(keys[j]);
      PatternOf(keys[j], tail);
      if n < j { JoinsIsLabel(keys, n, j); }
    }
    forall k | 0 <= k < |q| ensures B.IsNext(p, q, s, k) {
      NextRest(keys, n, i, next, s, k);
      assert GoodKey(keys[s + k]);
      PatternOf(keys[s + k], tail);
    }
  }

  lemma NextRest(keys: seq<Key>, n: int, i: int, next: seq<Key>, s: int, k: int)
    requires GoodKeys(keys) && Group(keys, n, i) && Nexts(keys, n, i, next, s) && 0 <= k < |next|
    ensures 0 <= s + k < |keys| && next[k] == RestOf(keys[s + k]) && next[k].text != ""
    ensures keys[s + k].text == Label(keys[n]) + "." + next[k].text
  {
    assert IsNext(keys, next, s, k);
    var j := s + k;
    if n < j { JoinsIsLabel(keys, n, j); }
    assert Label(keys[j]) == Label(keys[n]);
    assert GoodKey(keys[j]);
    GoOnForm(keys[j].text);
  }

  // The keys for the next labels are good again.
  lemma NextsGood(keys: seq<Key>, n: int, i: int, next: seq<Key>, s: int)
    requires GoodKeys(keys) && Group(keys, n, i) && Nexts(keys, n, i, next, s)
    ensures GoodKeys(next) && (NoDots(keys) ==> NoDots(next))
  {
    forall k | 0 <= k < |next| ensures GoodKey(next[k]) && (Dotted(next[k].text) <==> Dotted(keys[s + k].text)) {
      NextRest(keys, n, i, next, s, k);
      assert GoodKey(keys[s + k]);
      GoodRest(keys[s + k].text);
    }
    forall k, j | 0 <= k < j < |next| ensures Ordered(next, k, j) {
      NextsOrdered(keys, n, i, next, s, k, j);
    }
  }

  lemma NextsOrdered(keys: seq<Key>, n: int, i: int, next: seq<Key>, s: int, k: int, j: int)
    requires GoodKeys(keys) && Group(keys, n, i) && Nexts(keys, n, i, next, s) && 0 <= k < j < |next|
    ensures Ordered(next, k, j)
  {
    NextRest(keys, n, i, next, s, k);
    NextRest(keys, n, i, next, s, j);
    assert Ordered(keys, s + k, s + j) && GoodKey(keys[s + k]) && GoodKey(keys[s + j]);
    LeTail(Label(keys[n]) + ".", next[k].text, next[j].text);
    GoodRest(keys[s + k].text);
    GoodRest(keys[s + j].text);
    assert Label(keys[s + k]) == Label(keys[s + j]);
  }

  // ---- the slot of a group ----

  // Slot s answers for all names whose first label is a.
  ghost predicate Serves(keys: seq<Key>, tail: bool, a: string, s: Slot, m: seq<string>) {
    (tail && m == []) || IsBest(keys, tail, [a] + m, FindSlot(s, [a] + m, tail))
  }

  // A table answers for all names.
  ghost predicate Answers(keys: seq<Key>, tail: bool, w: Table, l: seq<string>) {
    |l| >= 1 ==> IsBest(keys, tail, l, FindLabels(w, l, tail))
  }

  // Giving a table a value of its own changes only the names it has no answer for.
  lemma WithValue(w: Table, v: Option<nat>, l: seq<string>, tail: bool)
    requires w.value == None && |l| >= 1
    ensures var r, r' := FindLabels(w, l, tail), FindLabels(w.(value := v), l, tail);
      (if r'.Some? then r' else v) == (if r.Some? then r else v)
  {
  }

  lemma SubServes(keys: seq<Key>, n: int, i: int, next: seq<Key>, s: int, tail: bool, w: Table, own: Option<nat>, m: seq<string>)
    requires GoodKeys(keys) && Group(keys, n, i) && Nexts(keys, n, i, next, s) && w.value == None
    requires own == if s == n + 1 then Some(keys[n].value) else None
    requires Answers(next, tail, w, m)
    ensures Serves(keys, tail, Label(keys[n]), Sub(w.(value := own), Dot(keys[n].text) < |keys[n].text|), m)
  {
    if m != [] {
      SubLonger(keys, n, i, next, s, tail, w, own, m);
    } else if !tail {
      SubEnd(keys, n, i, next, s, w, own);
      assert [Label(keys[n])] + m == [Label(keys[n])];
    }
  }

  // A name that goes on behind the label.
  lemma SubLonger(keys: seq<Key>, n: int, i: int, next: seq<Key>, s: int, tail: bool, w: Table, own: Option<nat>, m: seq<string>)
    requires GoodKeys(keys) && Group(keys, n, i) && Nexts(keys, n, i, next, s) && w.value == None
    requires own == if s == n + 1 then Some(keys[n].value) else None
    requires m != [] && Answers(next, tail, w, m)
    ensures Serves(keys, tail, Label(keys[n]), Sub(w.(value := own), Dot(keys[n].text) < |keys[n].text|), m)
  {
    var a := Label(keys[n]);
    GroupPatterns(keys, n, i, next, s, tail);
    assert GoodKey(keys[n]);
    PatternOf(keys[n], tail);
    assert ([a] + m)[1..] == m;
    WithValue(w, own, m, tail);
    B.GroupBest(Patterns(keys, tail), a, n, i, Patterns(next, tail), s, m, FindLabels(w, m, tail));
  }

  // A name that ends with it.
  lemma SubEnd(keys: seq<Key>, n: int, i: int, next: seq<Key>, s: int, w: Table, own: Option<nat>)
    requires GoodKeys(keys) && Group(keys, n, i) && Nexts(keys, n, i, next, s)
    requires own == if s == n + 1 then Some(keys[n].value) else None
    ensures IsBest(keys, false, [Label(keys[n])], FindSlot(Sub(w.(value := own), Dot(keys[n].text) < |keys[n].text|), [Label(keys[n])], false))
  {
    GroupPatterns(keys, n, i, next, s, false);
    assert GoodKey(keys[n]);
    PatternOf(keys[n], false);
    B.GroupEnd(Patterns(keys, false), Label(keys[n]), n, i, Patterns(next, false), s);
    GoodRest(keys[n].text);
  }

  // A key alone with its label.
  lemma Alone(keys: seq<Key>, n: int, tail: bool)
    requires GoodKeys(keys) && Group(keys, n, n + 1) && Rest(keys[n].text) == ""
    ensures B.Group(Patterns(keys, tail), Label(keys[n]), n, n + 1) && B.Nexts(Patterns(keys, tail), n, n + 1, [], n + 1)
    ensures var p := Patterns(keys, tail)[n]; |p.labels| == 1 && p.value == keys[n].value && (!tail ==> (p.strict <==> Dot(keys[n].text) < |keys[n].text|))
  {
    assert Nexts(keys, n, n + 1, [], n + 1);
    GroupPatterns(keys, n, n + 1, [], n + 1, tail);
    assert GoodKey(keys[n]);
    PatternOf(keys[n], tail);
    assert Patterns([], tail) == [];
  }

  lemma PtrServes(keys: seq<Key>, n: int, tail: bool, m: seq<string>)
    requires GoodKeys(keys) && Group(keys, n, n + 1) && Rest(keys[n].text) == "" && (tail ==> !Dotted(keys[n].text))
    ensures Serves(keys, tail, Label(keys[n]), Ptr(keys[n].value + (if Dot(keys[n].text) < |keys[n].text| then 1 else 0)), m)
  {
    assert GoodKey(keys[n]);
    GoodRest(keys[n].text);
    Alone(keys, n, tail);
    if !(tail && m == []) { PtrFound(keys[n].value, Dot(keys[n].text) < |keys[n].text|, tail, Label(keys[n]), m); }
    if m != [] {
      B.GroupBest(Patterns(keys, tail), Label(keys[n]), n, n + 1, [], n + 1, m, None);
    } else if !tail {
      B.GroupEnd(Patterns(keys, tail), Label(keys[n]), n, n + 1, [], n + 1);
    }
  }

  // What the lookup makes of a data pointer.
  lemma PtrFound(value: nat, only: bool, tail: bool, a: string, m: seq<string>)
    requires value % 4 == 0 && (tail ==> !only && m != [])
    ensures FindSlot(Ptr(value + (if only then 1 else 0)), [a] + m, tail) == if m == [] && only then None else Some(value)
    ensures m == [] ==> [a] + m == [a]
  {
  }

  // ---- the construction ----

  ghost predicate Fits(keys: seq<Key>, bound: nat) {
    forall i {:trigger keys[i]} :: 0 <= i < |keys| ==> |keys[i].text| <= bound
  }

  // A slot or a table answers for every name, from the right and, without trailing dots, from the left.
  ghost predicate ServesAll(keys: seq<Key>, a: string, s: Slot) {
    forall tail, m {:trigger Serves(keys, tail, a, s, m)} :: (tail ==> NoDots(keys)) ==> Serves(keys, tail, a, s, m)
  }

  ghost predicate AnswersAll(keys: seq<Key>, w: Table) {
    forall tail, l {:trigger Answers(keys, tail, w, l)} :: (tail ==> NoDots(keys)) ==> Answers(keys, tail, w, l)
  }

  // Keys before n and from n on have different first labels.
  ghost predicate Boundary(keys: seq<Key>, n: int) {
    forall j, k {:trigger Label(keys[j]), Label(keys[k])} :: 0 <= j < n <= k < |keys| ==> Label(keys[j]) != Label(keys[k])
  }

  // The entries so far answer for the labels of the keys before n.
  ghost predicate Entry(keys: seq<Key>, curr: seq<Name<Slot>>, n: int, a: string) {
    match First(curr, a)
    case None => forall j {:trigger Label(keys[j])} :: 0 <= j < n && j < |keys| ==> Label(keys[j]) != a
    case Some(s) => ServesAll(keys, a, s)
  }

  lemma EntryStep(keys: seq<Key>, curr: seq<Name<Slot>>, n: int, i: int, s: Slot, e: Name<Slot>, a: string)
    requires Group(keys, n, i) && Entry(keys, curr, n, a) && ServesAll(keys, Label(keys[n]), s)
    requires e.present && Lowered(e.key) == Label(keys[n]) && e.value == s
    ensures Entry(keys, curr + [e], i, a)
  {
    FirstSnoc(curr, e, a);
  }

  lemma GroupBoundary(keys: seq<Key>, n: int, i: int)
    requires Group(keys, n, i) && Boundary(keys, n)
    ensures Boundary(keys, i)
  {
    forall j, k | 0 <= j < i <= k < |keys| ensures Label(keys[j]) != Label(keys[k]) {
      if j < n { assert Label(keys[j]) != Label(keys[k]); } else { assert Label(keys[j]) == Label(keys[n]); }
    }
  }

  // The inner loop ended at i.
  lemma GroupEnds(keys: seq<Key>, n: int, i: int)
    requires GoodKeys(keys) && Boundary(keys, n) && 0 <= n < i <= |keys|
    requires forall j {:trigger Label(keys[j])} :: n <= j < i ==> Label(keys[j]) == Label(keys[n])
    requires i < |keys| ==> !Joins(keys[n], keys[i])
    ensures Group(keys, n, i)
  {
    forall j | 0 <= j < |keys| ensures Label(keys[j]) == Label(keys[n]) <==> n <= j < i {
      if j >= i {
        JoinsIsLabel(keys, n, i);
        if j > i && Label(keys[j]) == Label(keys[n]) { GroupTogether(keys, n, i, j); }
      }
    }
  }

  lemma TableAnswers(keys: seq<Key>, curr: seq<Name<Slot>>, h: Hash<Slot>, tail: bool, l: seq<string>)
    requires GoodKeys(keys) && (tail ==> NoDots(keys)) && |l| >= 1
    requires FoundAs(h, curr, l[0]) && Entry(keys, curr, |keys|, l[0])
    ensures Answers(keys, tail, Table(h, None), l)
  {
    var a, m := l[0], l[1..];
    assert l == [a] + m;
    var p := Patterns(keys, tail);
    if tail && m == [] {
      forall j | 0 <= j < |p| ensures !B.Matches(p[j], l) {
        assert GoodKey(keys[j]);
        PatternOf(keys[j], tail);
      }
    } else if First(curr, a).None? {
      forall j | 0 <= j < |p| ensures |p[j].labels| >= 1 && p[j].labels[0] != a {
        assert GoodKey(keys[j]) && Label(keys[j]) != a;
        PatternOf(keys[j], tail);
      }
      B.NoGroup(p, a, m);
    } else {
      assert Serves(keys, tail, a, First(curr, a).value, m);
    }
  }

  // ngx_hash_wildcard_init; "pick" is the number of buckets that the sizing of each table settles on.
  method WildcardInit(keys: seq<Key>, pick: seq<Name<Slot>> -> Size, ghost bound: nat) returns (w: Table)
    requires GoodKeys(keys) && Fits(keys, bound)
    ensures w.value == None && AnswersAll(keys, w)
    decreases bound, 1
  {
    var curr: seq<Name<Slot>> := [];
    var n := 0;
    while n < |keys|
      invariant 0 <= n <= |keys| && Boundary(keys, n) && Hashed(curr)
      invariant forall a {:trigger Entry(keys, curr, n, a)} :: Entry(keys, curr, n, a)
    {
      var slot, i := GroupInit(keys, n, pick, bound);
      assert GoodKey(keys[n]);
      LoweredSame(Label(keys[n]));
      var e := Name(true, Label(keys[n]), HashOf(Label(keys[n])), slot);
      forall a ensures Entry(keys, curr + [e], i, a) {
        assert Entry(keys, curr, n, a);
        EntryStep(keys, curr, n, i, slot, e, a);
      }
      GroupBoundary(keys, n, i);
      curr := curr + [e];
      n := i;
    }
    var h := Init(curr, pick(curr));
    w := Table(h, None);
    forall tail, l | tail ==> NoDots(keys) ensures Answers(keys, tail, w, l) {
      if |l| >= 1 {
        assert FoundAs(h, curr, l[0]) && Entry(keys, curr, n, l[0]);
        TableAnswers(keys, curr, h, tail, l);
      }
    }
  }

  // One round of the outer loop: the keys with the first label of key n, and what to store for it.
  method GroupInit(keys: seq<Key>, n: int, pick: seq<Name<Slot>> -> Size, ghost bound: nat) returns (slot: Slot, i: int)
    requires GoodKeys(keys) && Fits(keys, bound) && 0 <= n < |keys| && Boundary(keys, n)
    ensures Group(keys, n, i) && ServesAll(keys, Label(keys[n]), slot)
    decreases bound, 0
  {
    var len := Dot(keys[n].text);
    var dot := len < |keys[n].text|;
    var next;
    ghost var s;
    next, i, s := NextKeys(keys, n);
    NextsGood(keys, n, i, next, s);
    NextsFit(keys, n, i, next, s, bound);
    if |next| > 0 {
      var w := WildcardInit(next, pick, bound - 1);
      var own := if |keys[n].text| == (if dot then len + 1 else len) then Some(keys[n].value) else None;
      OwnTest(keys[n]);
      slot := Sub(w.(value := own), dot);
      forall tail, m | tail ==> NoDots(keys) ensures Serves(keys, tail, Label(keys[n]), slot, m) {
        assert Answers(next, tail, w, m);
        SubServes(keys, n, i, next, s, tail, w, own, m);
      }
    } else {
      slot := Ptr(keys[n].value + (if dot then 1 else 0));
      assert i == n + 1 && s == n + 1;
      forall tail, m | tail ==> NoDots(keys) ensures Serves(keys, tail, Label(keys[n]), slot, m) {
        PtrServes(keys, n, tail, m);
      }
    }
  }

  lemma OwnTest(k: Key)
    requires GoodKey(k)
    ensures |k.text| == (if Dot(k.text) < |k.text| then Dot(k.text) + 1 else Dot(k.text)) <==> Rest(k.text) == ""
  {
    GoodRest(k.text);
  }

  lemma NextsFit(keys: seq<Key>, n: int, i: int, next: seq<Key>, s: int, bound: nat)
    requires GoodKeys(keys) && Group(keys, n, i) && Nexts(keys, n, i, next, s) && Fits(keys, bound)
    ensures |next| > 0 ==> bound > 0 && Fits(next, bound - 1)
  {
    forall k | 0 <= k < |next| ensures |next[k].text| < bound {
      NextRest(keys, n, i, next, s, k);
      assert |keys[s + k].text| <= bound;
    }
    if |next| > 0 { assert |next[0].text| < bound; }
  }

  method NextKeys(keys: seq<Key>, n: int) returns (next: seq<Key>, i: int, ghost s: int)
    requires GoodKeys(keys) && 0 <= n < |keys| && Boundary(keys, n)
    ensures Group(keys, n, i) && Nexts(keys, n, i, next, s)
  {
    var len := Dot(keys[n].text);
    var dot := len < |keys[n].text|;
    next := [];
    s := n + 1;
    assert GoodKey(keys[n]);
    OwnTest(keys[n]);
    if |keys[n].text| != (if dot then len + 1 else len) {
      next := [Key(keys[n].text[len + 1..], keys[n].value)];
      s := n;
    }
    i := n + 1;
    while i < |keys| && Joins(keys[n], keys[i])
      invariant n < i <= |keys| && Nexts(keys, n, i, next, s)
      invariant forall j {:trigger Label(keys[j])} :: n <= j < i ==> Label(keys[j]) == Label(keys[n])
    {
      JoinsIsLabel(keys, n, i);
      LabelLength(keys[i], keys[n]);
      OneNext(keys, n, i, next, s);
      next := next + [Key(keys[i].text[len + 1..], keys[i].value)];
      i := i + 1;
    }
    GroupEnds(keys, n, i);
  }

  lemma OneNext(keys: seq<Key>, n: int, i: int, next: seq<Key>, s: int)
    requires Nexts(keys, n, i, next, s) && i < |keys|
    ensures Nexts(keys, n, i + 1, next + [RestOf(keys[i])], s)
  {
    var more := next + [RestOf(keys[i])];
    forall k | 0 <= k < |more| ensures IsNext(keys, more, s, k) {
      assert k < |next| ==> IsNext(keys, next, s, k);
    }
  }

  lemma LabelLength(k: Key, n: Key)
    requires Label(k) == Label(n) && Rest(k.text) != ""
    ensures Dot(k.text) == Dot(n.text) && Dot(n.text) + 1 <= |k.text| && Rest(k.text) == k.text[Dot(n.text) + 1..]
  {
    assert |Label(k)| == |Label(n)|;
  }

  // ---- lookups by name ----

  // A name is looked up from the right: the key with the most labels wins.
  lemma HeadBest(keys: seq<Key>, w: Table, name: string)
    requires AnswersAll(keys, w)
    ensures IsBest(keys, false, Reverse(Split(name)), FindHead(w, name))
  {
    HeadOnLabels(w, name);
    FromRightIsReverse(name);
    assert Answers(keys, false, w, FromRight(name));
  }

  lemma TailBest(keys: seq<Key>, w: Table, name: string)
    requires AnswersAll(keys, w) && NoDots(keys)
    ensures IsBest(keys, true, Split(name), FindTail(w, name))
  {
    TailOnLabels(w, name);
    assert Answers(keys, true, w, Split(name));
  }
}
