/** The bucket hash of src/core/ngx_hash.c: ngx_hash_init and ngx_hash_find. */
module HashTable {

  type Size = n: int | 1 <= n witness 1

  const WORD := 0x1_0000_0000_0000_0000

  // ngx_hash over the characters of a name, in 64-bit arithmetic.
  function HashOf(name: string): nat {
    if name == "" then 0 else (HashOf(name[..|name| - 1]) * 31 + name[|name| - 1] as int) % WORD
  }

  // ngx_tolower
  function Low(c: char): char { if 'A' <= c <= 'Z' then (c as int + 32) as char else c }

  // ngx_strlow
  function Lowered(s: string): (l: string)
    ensures |l| == |s| && forall i :: 0 <= i < |s| ==> l[i] == Low(s[i])
  {
    seq(|s|, i requires 0 <= i < |s| => Low(s[i]))
  }

  // Capital letters become the small ones of the same rank, and nothing else changes.
  lemma LoweredIs(s: string, i: nat)
    requires i < |s|
    ensures !('A' <= Lowered(s)[i] <= 'Z')
    ensures 'A' <= s[i] <= 'Z' ==> "abcdefghijklmnopqrstuvwxyz"[s[i] as int - 'A' as int] == Lowered(s)[i]
    ensures !('A' <= s[i] <= 'Z') ==> Lowered(s)[i] == s[i]
  {
  }

  lemma LoweredSame(s: string)
    requires forall i :: 0 <= i < |s| ==> Low(s[i]) == s[i]
    ensures Lowered(s) == s
  {
  }

  datatype Option<T> = None | Some(value: T)

  datatype Elt<V> = Elt(name: string, value: V)

  // Buckets hold their elements in order; the end of a bucket is the element with the NULL value.
  datatype Hash<V> = Hash(buckets: seq<seq<Elt<V>>>)

  // An entry to store; one whose key was reset to NULL is passed over.
  datatype Name<V> = Name(present: bool, key: string, hash: nat, value: V)

  // The hash is that of the name in lower case, as ngx_hash_key_lc computes it.
  ghost predicate Hashed<V>(names: seq<Name<V>>) {
    forall n :: 0 <= n < |names| ==> names[n].hash == HashOf(Lowered(names[n].key))
  }

  // ---- ngx_hash_find ----

  function Scan<V>(bucket: seq<Elt<V>>, name: string): (r: Option<V>) {
    if bucket == [] then None
    else if bucket[0].name == name then Some(bucket[0].value)
    else Scan(bucket[1..], name)
  }

  // A table that was never built has no buckets.
  function Find<V>(h: Hash<V>, key: nat, name: string): (r: Option<V>) {
    if |h.buckets| == 0 then None else Scan(h.buckets[key % |h.buckets|], name)
  }

  // The value of the first entry whose key is the name in lower case: what the table stands for.
  function First<V>(names: seq<Name<V>>, name: string): (r: Option<V>) {
    if names == [] then None
    else if names[0].present && Lowered(names[0].key) == name then Some(names[0].value)
    else First(names[1..], name)
  }

  lemma {:induction false} FirstSnoc<V>(names: seq<Name<V>>, n: Name<V>, name: string)
    ensures First(names + [n], name) ==
      if First(names, name).Some? then First(names, name) else if n.present && Lowered(n.key) == name then Some(n.value) else None
  {
    if names == [] {
      assert names + [n] == [n];
    } else {
      FirstSnoc(names[1..], n, name);
      assert (names + [n])[1..] == names[1..] + [n];
    }
  }

  lemma {:induction false} ScanSnoc<V>(bucket: seq<Elt<V>>, e: Elt<V>, name: string)
    ensures Scan(bucket + [e], name) ==
      if Scan(bucket, name).Some? then Scan(bucket, name) else if e.name == name then Some(e.value) else None
  {
    if bucket == [] {
      assert bucket + [e] == [e];
    } else {
      ScanSnoc(bucket[1..], e, name);
      assert (bucket + [e])[1..] == bucket[1..] + [e];
    }
  }

  lemma {:induction false} FirstIs<V>(names: seq<Name<V>>, name: string)
    ensures First(names, name).Some? <==> exists n :: 0 <= n < |names| && names[n].present && Lowered(names[n].key) == name
    ensures First(names, name).Some? ==> exists n :: 0 <= n < |names| && names[n].present && Lowered(names[n].key) == name && First(names, name) == Some(names[n].value)
  {
    if names != [] {
      FirstIs(names[1..], name);
      if n :| 0 <= n < |names[1..]| && names[1..][n].present && Lowered(names[1..][n].key) == name && First(names[1..], name) == Some(names[1..][n].value) {
        assert names[n + 1] == names[1..][n];
      }
      if n :| 0 <= n < |names| && names[n].present && Lowered(names[n].key) == name {
        assert n > 0 ==> names[1..][n - 1] == names[n];
      }
    }
  }

  // ---- ngx_hash_init ----

  // Every name that hashes to bucket b is found there as it is in the list.
  ghost predicate Agrees<V>(buckets: seq<seq<Elt<V>>>, names: seq<Name<V>>, name: string)
    requires |buckets| >= 1
  {
    Scan(buckets[HashOf(name) % |buckets|], name) == First(names, name)
  }

  lemma AgreesSnoc<V>(buckets: seq<seq<Elt<V>>>, names: seq<Name<V>>, n: Name<V>, name: string)
    requires |buckets| >= 1 && Agrees(buckets, names, name) && n.hash == HashOf(Lowered(n.key))
    ensures var b := n.hash % |buckets|;
      Agrees(if n.present then buckets[b := buckets[b] + [Elt(Lowered(n.key), n.value)]] else buckets, names + [n], name)
  {
    FirstSnoc(names, n, name);
    var b := n.hash % |buckets|;
    ScanSnoc(buckets[b], Elt(Lowered(n.key), n.value), name);
  }

  // A lookup by name gives what the list gives.
  ghost predicate FoundAs<V>(h: Hash<V>, names: seq<Name<V>>, name: string) {
    Find(h, HashOf(name), name) == First(names, name)
  }

  // The table with "size" buckets; keys are stored in lower case.
  method Init<V>(names: seq<Name<V>>, size: Size) returns (h: Hash<V>)
    requires Hashed(names)
    ensures |h.buckets| == size
    ensures forall name {:trigger FoundAs(h, names, name)} :: FoundAs(h, names, name)
  {
    var buckets: seq<seq<Elt<V>>> := seq(size, i => []);
    var n := 0;
    while n < |names|
      invariant 0 <= n <= |names| && |buckets| == size
      invariant forall name {:trigger Agrees(buckets, names[..n], name)} :: Agrees(buckets, names[..n], name)
    {
      ghost var was := buckets;
      if names[n].present {
        var key := names[n].hash % size;
        buckets := buckets[key := buckets[key] + [Elt(Lowered(names[n].key), names[n].value)]];
      }
      ghost var seen := names[..n + 1];
      assert seen == names[..n] + [names[n]];
      forall name ensures Agrees(buckets, seen, name) {
        assert Agrees(was, names[..n], name);
        AgreesSnoc(was, names[..n], names[n], name);
      }
      n := n + 1;
    }
    assert names[..n] == names;
    h := Hash(buckets);
    forall name ensures FoundAs(h, names, name) { assert Agrees(buckets, names[..n], name); }
  }
}
