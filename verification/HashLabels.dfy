/** Domain names as sequences of labels, for src/core/ngx_hash.c. */
module HashLabels {
  import opened HashTable

  // The index of the first dot, or the length.
  function Dot(s: string): (i: nat)
    ensures i <= |s| && (i < |s| ==> s[i] == '.')
    ensures forall k :: 0 <= k < i ==> s[k] != '.'
  {
    if s == "" || s[0] == '.' then 0 else 1 + Dot(s[1..])
  }

  // Behind the last dot.
  function LastDot(s: string): (n: nat)
    ensures n <= |s| && (n > 0 ==> s[n - 1] == '.')
    ensures forall k :: n <= k < |s| ==> s[k] != '.'
  {
    if s == "" || s[|s| - 1] == '.' then |s| else LastDot(s[..|s| - 1])
  }

  // The labels of a name from the left, and from the right as ngx_hash_find_wc_head takes them.
  function Split(s: string): (l: seq<string>)
    ensures |l| >= 1
    decreases |s|
  {
    if Dot(s) == |s| then [s] else [s[..Dot(s)]] + Split(s[Dot(s) + 1..])
  }

  function FromRight(s: string): (l: seq<string>)
    ensures |l| >= 1
    decreases |s|
  {
    if LastDot(s) == 0 then [s] else [s[LastDot(s)..]] + FromRight(s[..LastDot(s) - 1])
  }

  function Reverse(l: seq<string>): seq<string> {
    if l == [] then [] else Reverse(l[1..]) + [l[0]]
  }

  lemma {:induction false} DotUnique(s: string, i: nat)
    requires i <= |s| && (i < |s| ==> s[i] == '.') && forall k :: 0 <= k < i ==> s[k] != '.'
    ensures Dot(s) == i
  {
  }

  lemma CutJoined(s: string, t: string, d: nat)
    requires d <= |s|
    ensures var u := s + "." + t;
      u[..d] == s[..d] && |u| > d && (d == |s| ==> s[..d] == s && u[d + 1..] == t) && (d < |s| ==> u[d + 1..] == s[d + 1..] + "." + t)
  {
  }

  lemma FirstThen(a: string, b: seq<string>, c: string)
    ensures [a] + (b + [c]) == [a] + b + [c]
  {
  }

  lemma {:induction false} SplitSnoc(s: string, t: string)
    requires Dot(t) == |t|
    ensures Split(s + "." + t) == Split(s) + [t]
    decreases |s|
  {
    var u := s + "." + t;
    var d := Dot(s);
    DotUnique(u, d);
    CutJoined(s, t, d);
    if d < |s| {
      SplitSnoc(s[d + 1..], t);
      FirstThen(s[..d], Split(s[d + 1..]), t);
    } else {
      assert [s] + [t] == Split(s) + [t];
    }
  }

  lemma {:induction false} ReverseSnoc(l: seq<string>, t: string)
    ensures Reverse(l + [t]) == [t] + Reverse(l)
  {
    if l == [] {
      assert l + [t] == [t];
    } else {
      ReverseSnoc(l[1..], t);
      assert (l + [t])[1..] == l[1..] + [t];
    }
  }

  // Taking labels from the right gives the labels in reverse.
  lemma {:induction false} FromRightIsReverse(s: string)
    ensures FromRight(s) == Reverse(Split(s))
    decreases |s|
  {
    var n := LastDot(s);
    if n == 0 {
      DotUnique(s, |s|);
      assert Reverse([s]) == [s];
    } else {
      var a, t := s[..n - 1], s[n..];
      assert s == a + "." + t;
      DotUnique(t, |t|);
      FromRightIsReverse(a);
      SplitSnoc(a, t);
      ReverseSnoc(Split(a), t);
    }
  }

  // ---- keys: "com.example" and "com.example." ----

  function Rest(s: string): string {
    if Dot(s) == |s| then "" else s[Dot(s) + 1..]
  }

  function KeyLabels(s: string): (l: seq<string>)
    ensures s != "" ==> |l| >= 1 && l[0] == s[..Dot(s)]
    decreases |s|
  {
    if s == "" then [] else [s[..Dot(s)]] + KeyLabels(Rest(s))
  }

  predicate Dotted(s: string) { s != "" && s[|s| - 1] == '.' }

  // Characters above the space and in lower case, and no empty label.
  ghost predicate Good(s: string)
    decreases |s|
  {
    s != "" && Dot(s) > 0 && (forall i :: 0 <= i < |s| ==> s[i] > ' ' && Low(s[i]) == s[i]) && (Rest(s) != "" ==> Good(Rest(s)))
  }

  lemma GoodRest(s: string)
    requires Good(s)
    ensures Rest(s) == "" ==> (Dotted(s) <==> Dot(s) < |s|) && |s| <= Dot(s) + 1 && KeyLabels(s) == [s[..Dot(s)]]
    ensures Rest(s) != "" ==> Good(Rest(s)) && Dot(s) + 1 < |s| && (Dotted(Rest(s)) <==> Dotted(s))
    ensures Rest(s) != "" ==> KeyLabels(s) == [s[..Dot(s)]] + KeyLabels(Rest(s))
  {
  }

  lemma Rejoin(s: string)
    requires Dot(s) < |s|
    ensures s == s[..Dot(s)] + "." + Rest(s)
  {
    SplitAt(s, Dot(s));
  }

  lemma SplitAt(s: string, d: int)
    requires 0 <= d < |s|
    ensures s == s[..d] + [s[d]] + s[d + 1..]
  {
  }

  // ---- the order of ngx_dns_strcmp: the dot below all other characters ----

  function Rank(c: char): int { if c == '.' then ' ' as int else c as int }

  predicate Le(a: string, b: string) {
    a == "" || (b != "" && (Rank(a[0]) < Rank(b[0]) || (a[0] == b[0] && Le(a[1..], b[1..]))))
  }

  // s has l as its first label.
  predicate Begins(s: string, l: string) { |l| <= |s| && s[..|l|] == l && (|l| < |s| ==> s[|l|] == '.') }

  lemma BeginsDot(s: string, l: string)
    requires forall k :: 0 <= k < |l| ==> l[k] != '.'
    ensures Begins(s, l) <==> s[..Dot(s)] == l
  {
    if Begins(s, l) {
      forall k | 0 <= k < |l| ensures s[k] != '.' { assert s[k] == s[..|l|][k]; }
      DotUnique(s, |l|);
    }
  }

  // Names with a common first label are together.
  lemma {:induction false} Together(x: string, y: string, z: string, l: string)
    requires Le(x, y) && Le(y, z) && Begins(x, l) && Begins(z, l)
    requires forall k :: 0 <= k < |y| ==> y[k] > ' '
    ensures Begins(y, l)
    decreases |l|
  {
    if l != "" {
      assert x[0] == l[0] && z[0] == l[0];
      Together(x[1..], y[1..], z[1..], l[1..]);
      assert y == [y[0]] + y[1..];
    }
  }

  lemma {:induction false} PrefixFirst(a: string, b: string)
    requires |a| < |b| && b[..|a|] == a
    ensures !Le(b, a)
  {
    if a != "" {
      assert b[1..][..|a| - 1] == a[1..];
      PrefixFirst(a[1..], b[1..]);
      assert a[0] == b[0];
    }
  }

  lemma {:induction false} LeTail(p: string, a: string, b: string)
    requires Le(p + a, p + b)
    ensures Le(a, b)
  {
    if p != "" {
      assert (p + a)[1..] == p[1..] + a && (p + b)[1..] == p[1..] + b;
      LeTail(p[1..], a, b);
    } else {
      assert p + a == a && p + b == b;
    }
  }
}
