/** The chains of src/core/ngx_output_chain.c: what was handed downstream and is not sent yet, what
    is about to be handed, and what is still to be copied. */
module ChainState {
  import opened Basics
  import opened ChainBufs

  // "down" is what the next filter holds; "out" is the chain being built; "inq" is ctx->in.
  datatype State = State(bufs: seq<Buf>, down: seq<Ref>, out: seq<Ref>, inq: seq<Ref>, busy: seq<Ref>, free: seq<Ref>)
  {
    ghost function Line(): seq<Ref> { down + out + inq }
  }

  // A buffer of the context, allocated with its tag.
  predicate Own(b: Buf, tag: int) { b.tag == tag }

  ghost predicate InOk(s: State, tag: int, r: Ref) { 0 <= r < |s.bufs| && !Own(s.bufs[r], tag) }

  // A temporary buffer ready to be filled.
  ghost predicate Empty(s: State, tag: int, r: Ref) {
    && 0 <= r < |s.bufs| && Own(s.bufs[r], tag) && s.bufs[r].temporary && |s.bufs[r].mem| >= 1
    && s.bufs[r].pos == 0 && s.bufs[r].last == 0 && r !in s.Line()
  }

  ghost predicate BusyOk(s: State, tag: int, r: Ref) {
    && RefOk(s.bufs, r)
    && (Own(s.bufs[r], tag) ==> s.bufs[r].temporary && |s.bufs[r].mem| >= 1 && r !in s.free && r !in s.inq && r !in s.out)
  }

  ghost predicate OwnOnce(bufs: seq<Buf>, tag: int, c: seq<Ref>) {
    if c == [] then true
    else (0 <= c[0] < |bufs| && Own(bufs[c[0]], tag) ==> c[0] !in c[1..]) && OwnOnce(bufs, tag, c[1..])
  }

  // A buffer of the context carries data until it is used up.
  ghost predicate OutOk(s: State, tag: int, r: Ref) {
    0 <= r < |s.bufs| && (Own(s.bufs[r], tag) ==> RefLive(s.bufs, r) && s.bufs[r].temporary && |s.bufs[r].mem| >= 1)
  }

  ghost predicate Inv(s: State, tag: int) {
    && Valid(s.bufs, s.Line()) && Distinct(s.Line())
    && (forall r {:trigger OutOk(s, tag, r)} :: r in s.down || r in s.out ==> OutOk(s, tag, r))
    && (forall r {:trigger InOk(s, tag, r)} :: r in s.inq ==> InOk(s, tag, r))
    && (forall r {:trigger Empty(s, tag, r)} :: r in s.free ==> Empty(s, tag, r))
    && Distinct(s.free)
    && (forall r {:trigger BusyOk(s, tag, r)} :: r in s.busy ==> BusyOk(s, tag, r))
    && OwnOnce(s.bufs, tag, s.busy)
  }

  // ---- sequences without repetition ----

  lemma {:induction false} DistinctAppend(a: seq<Ref>, b: seq<Ref>)
    ensures Distinct(a + b) <==> Distinct(a) && Distinct(b) && forall r :: r in a ==> r !in b
  {
    if a == [] {
      assert a + b == b;
    } else {
      DistinctAppend(a[1..], b);
      assert (a + b)[1..] == a[1..] + b;
      assert forall r :: r in a[1..] + b <==> r in a[1..] || r in b;
      assert forall r :: r in a <==> r == a[0] || r in a[1..];
    }
  }

  lemma DistinctDrop(a: seq<Ref>, r: Ref, b: seq<Ref>)
    requires Distinct(a + ([r] + b))
    ensures Distinct(a + b) && r !in a + b
  {
    DistinctAppend(a, [r] + b);
    DistinctAppend(a, b);
    DistinctAppend([r], b);
    assert r in [r] + b;
    assert forall q :: q in b ==> q in [r] + b;
  }

  lemma DistinctInsert(a: seq<Ref>, r: Ref, b: seq<Ref>)
    requires Distinct(a + b) && r !in a + b
    ensures Distinct(a + [r] + b)
  {
    DistinctAppend(a, b);
    DistinctAppend(a, [r]);
    DistinctAppend(a + [r], b);
    assert forall q :: q in a ==> q in a + b;
    assert forall q :: q in b ==> q in a + b;
  }

  lemma {:induction false} OwnOnceAppend(bufs: seq<Buf>, tag: int, a: seq<Ref>, b: seq<Ref>)
    requires OwnOnce(bufs, tag, a) && Distinct(b)
    requires forall r :: r in a && 0 <= r < |bufs| && Own(bufs[r], tag) ==> r !in b
    ensures OwnOnce(bufs, tag, a + b)
  {
    if a == [] {
      assert a + b == b;
      DistinctOnce(bufs, tag, b);
    } else {
      OwnOnceAppend(bufs, tag, a[1..], b);
      assert (a + b)[1..] == a[1..] + b;
    }
  }

  lemma {:induction false} DistinctOnce(bufs: seq<Buf>, tag: int, b: seq<Ref>)
    requires Distinct(b)
    ensures OwnOnce(bufs, tag, b)
  {
    if b != [] { DistinctOnce(bufs, tag, b[1..]); }
  }

  ghost predicate SameOwn(bufs: seq<Buf>, bufs': seq<Buf>, tag: int, r: Ref) {
    0 <= r < |bufs'| ==> r < |bufs| && (Own(bufs'[r], tag) <==> Own(bufs[r], tag))
  }

  // Which buffers are the context's own does not change.
  lemma {:induction false} OwnOnceFrame(bufs: seq<Buf>, bufs': seq<Buf>, tag: int, c: seq<Ref>)
    requires OwnOnce(bufs, tag, c)
    requires forall r {:trigger SameOwn(bufs, bufs', tag, r)} :: r in c ==> SameOwn(bufs, bufs', tag, r)
    ensures OwnOnce(bufs', tag, c)
  {
    if c != [] {
      assert SameOwn(bufs, bufs', tag, c[0]);
      OwnOnceFrame(bufs, bufs', tag, c[1..]);
    }
  }

  // ---- the steps ----

  // A buffer without data is left out.
  lemma DropEmpty(s: State, tag: int)
    requires Inv(s, tag) && s.inq != [] && Data(s.bufs, s.inq[0]) == []
    ensures Inv(s.(inq := s.inq[1..]), tag) && BytesOf(s.bufs, s.(inq := s.inq[1..]).Line()) == BytesOf(s.bufs, s.Line())
  {
    DropLine(s.bufs, s.down + s.out, s.inq);
    SubLine(s, s.(inq := s.inq[1..]), tag);
  }

  lemma DropLine(bufs: seq<Buf>, a: seq<Ref>, inq: seq<Ref>)
    requires inq != [] && Distinct(a + inq) && Data(bufs, inq[0]) == []
    ensures Distinct(a + inq[1..]) && BytesOf(bufs, a + inq[1..]) == BytesOf(bufs, a + inq)
  {
    assert inq == [inq[0]] + inq[1..];
    DistinctDrop(a, inq[0], inq[1..]);
    BytesOfAppend(bufs, a, inq);
    BytesOfAppend(bufs, a, inq[1..]);
    NothingFirst(BytesOf(bufs, inq[1..]));
  }

  lemma NothingFirst(x: seq<byte>)
    ensures [] + x == x
  {
  }

  // A line with fewer members keeps the rest of the invariant.
  lemma SubLine(s: State, t: State, tag: int)
    requires Inv(s, tag) && t == s.(inq := t.inq) && Distinct(t.Line()) && forall r :: r in t.inq ==> r in s.inq
    ensures Inv(t, tag)
  {
    forall r | r in t.Line() ensures RefOk(t.bufs, r) { assert r in s.Line(); assert RefOk(s.bufs, r); }
    forall r | r in t.down || r in t.out ensures OutOk(t, tag, r) { assert OutOk(s, tag, r); }
    forall r | r in t.inq ensures InOk(t, tag, r) { assert InOk(s, tag, r); }
    forall r | r in t.free ensures Empty(t, tag, r) { assert Empty(s, tag, r); assert r in t.Line() ==> r in s.Line(); }
    forall r | r in t.busy ensures BusyOk(t, tag, r) { assert BusyOk(s, tag, r); }
  }

  // A buffer with the same bytes and tag.
  ghost predicate Recast(a: Buf, b: Buf) {
    a.Ok() ==> b.Ok() && b.Bytes() == a.Bytes() && b.tag == a.tag && b.Special() == a.Special() && b.Size() == a.Size()
               && b.temporary == a.temporary && b.mem == a.mem && b.pos == a.pos && b.last == a.last
  }

  // The first buffer is recast where it is.
  lemma RecastFirst(s: State, tag: int, b: Buf)
    requires Inv(s, tag) && s.inq != [] && 0 <= s.inq[0] < |s.bufs| && Recast(s.bufs[s.inq[0]], b)
    ensures var t := s.(bufs := s.bufs[s.inq[0] := b]);
      Inv(t, tag) && BytesOf(t.bufs, t.Line()) == BytesOf(s.bufs, s.Line()) && BytesOf(t.bufs, t.inq) == BytesOf(s.bufs, s.inq)
  {
    var x := s.inq[0];
    var t := s.(bufs := s.bufs[x := b]);
    assert x in s.Line() && x in s.inq;
    assert RefOk(s.bufs, x) && InOk(s, tag, x);
    forall r | r in s.Line() ensures SameData(s.bufs, t.bufs, r) && RefOk(t.bufs, r) { assert RefOk(s.bufs, r); }
    BytesOfFrame(s.bufs, t.bufs, s.Line());
    forall r | r in s.inq ensures SameData(s.bufs, t.bufs, r) { assert r in s.Line(); }
    BytesOfFrame(s.bufs, t.bufs, s.inq);
    forall r | r in t.down || r in t.out ensures OutOk(t, tag, r) { assert OutOk(s, tag, r); }
    forall r | r in t.inq ensures InOk(t, tag, r) { assert InOk(s, tag, r); }
    forall r | r in t.free ensures Empty(t, tag, r) { assert Empty(s, tag, r); }
    forall r | r in t.busy ensures BusyOk(t, tag, r) { assert BusyOk(s, tag, r); }
    forall r | r in s.busy ensures SameOwn(s.bufs, t.bufs, tag, r) { assert BusyOk(s, tag, r); }
    OwnOnceFrame(s.bufs, t.bufs, tag, s.busy);
  }

  // The first buffer, as it is, joins the output chain.
  lemma PassFirst(s: State, tag: int)
    requires Inv(s, tag) && s.inq != []
    ensures var t := s.(out := s.out + [s.inq[0]], inq := s.inq[1..]); Inv(t, tag) && t.Line() == s.Line()
  {
    var x := s.inq[0];
    var t := s.(out := s.out + [x], inq := s.inq[1..]);
    assert s.inq == [x] + t.inq;
    Regroup(s.down, s.out, x, t.inq);
    Regroup2(s.down + s.out, x, t.inq);
    assert x in s.inq && InOk(s, tag, x);
    forall r | r in t.down || r in t.out ensures OutOk(t, tag, r) { assert r in s.down || r in s.out ==> OutOk(s, tag, r); }
    forall r | r in t.inq ensures InOk(t, tag, r) { assert InOk(s, tag, r); }
    forall r | r in t.free ensures Empty(t, tag, r) { assert Empty(s, tag, r); }
    forall r | r in t.busy ensures BusyOk(t, tag, r) { assert BusyOk(s, tag, r); }
  }

  // ---- copying ----

  // Buffer d is not in use: it may be filled.
  ghost predicate Idle(s: State, tag: int, d: Ref) {
    Empty(s, tag, d) && d !in s.free && d !in s.busy
  }

  // d gets the first n bytes of the first buffer, which becomes b.
  ghost predicate Copies(s: State, tag: int, d: Ref, c: Buf, b: Buf, n: int) {
    && s.inq != [] && 0 <= s.inq[0] < |s.bufs| && s.bufs[s.inq[0]].Ok()
    && 0 < n <= s.bufs[s.inq[0]].Size()
    && c.Ok() && c.Bytes() == s.bufs[s.inq[0]].Bytes()[..n] && Own(c, tag) && c.temporary && |c.mem| >= 1
    && b.Ok() && b.Bytes() == s.bufs[s.inq[0]].Bytes()[n..] && b.tag == s.bufs[s.inq[0]].tag
  }

  lemma CopyOver(s: State, tag: int, d: Ref, c: Buf, b: Buf, n: int)
    requires Inv(s, tag) && Idle(s, tag, d) && Copies(s, tag, d, c, b, n)
    ensures var t := s.(bufs := s.bufs[s.inq[0] := b][d := c], out := s.out + [d]);
      Inv(t, tag) && BytesOf(t.bufs, t.Line()) == BytesOf(s.bufs, s.Line())
  {
    var x := s.inq[0];
    var t := s.(bufs := s.bufs[x := b][d := c], out := s.out + [d]);
    CopyLine(s.bufs, s.down, s.out, s.inq, d, c, b, n);
    assert x in s.inq && x in s.Line() && InOk(s, tag, x);
    assert d != x;
    CopyRest(s, t, tag, d);
  }

  lemma CopyLine(bufs: seq<Buf>, down: seq<Ref>, out: seq<Ref>, inq: seq<Ref>, d: Ref, c: Buf, b: Buf, n: int)
    requires inq != [] && RefOk(bufs, inq[0]) && 0 <= d < |bufs| && d !in down + out + inq && Distinct(down + out + inq)
    requires 0 < n <= bufs[inq[0]].Size() && c.Ok() && c.Bytes() == bufs[inq[0]].Bytes()[..n] && b.Ok() && b.Bytes() == bufs[inq[0]].Bytes()[n..]
    ensures var line := down + (out + [d]) + inq;
      && line == down + out + [d] + inq && Distinct(line) && inq[0] !in down && inq[0] !in out
      && BytesOf(bufs[inq[0] := b][d := c], line) == BytesOf(bufs, down + out + inq)
  {
    var x, a, rest := inq[0], down + out, inq[1..];
    assert inq == [x] + rest;
    DistinctDrop(a, x, rest);
    DistinctInsert(a, d, inq);
    InParts(a, inq, d);
    InParts(a, rest, x);
    InParts(down, out, x);
    InParts([x], rest, d);
    Regroup(down, out, d, inq);
    Regroup2(a, d, inq);
    CopyBytes(bufs, a, x, rest, d, c, b, n);
  }

  lemma InParts(a: seq<Ref>, b: seq<Ref>, r: Ref)
    ensures r in a + b <==> r in a || r in b
  {
  }

  lemma Regroup(a: seq<Ref>, b: seq<Ref>, d: Ref, c: seq<Ref>)
    ensures a + (b + [d]) + c == a + b + [d] + c
  {
    assert a + (b + [d]) == a + b + [d];
  }

  lemma Regroup2(a: seq<Ref>, d: Ref, c: seq<Ref>)
    ensures a + [d] + c == a + ([d] + c)
  {
  }

  // What does not concern the line.
  lemma CopyRest(s: State, t: State, tag: int, d: Ref)
    requires Inv(s, tag) && Idle(s, tag, d) && s.inq != [] && s.inq[0] !in s.down && s.inq[0] !in s.out
    requires |t.bufs| == |s.bufs| && t == s.(bufs := t.bufs, out := s.out + [d]) && Distinct(t.Line()) && t.Line() == s.down + s.out + [d] + s.inq
    requires OutOk(t, tag, d) && t.bufs[d].Ok() && RefOk(t.bufs, s.inq[0]) && InOk(t, tag, s.inq[0]) && InOk(s, tag, s.inq[0])
    requires forall r {:trigger t.bufs[r]} :: 0 <= r < |s.bufs| && r != d && r != s.inq[0] ==> t.bufs[r] == s.bufs[r]
    ensures Inv(t, tag)
  {
    forall r | r in t.Line() ensures RefOk(t.bufs, r) { if r != d { assert r in s.Line(); assert RefOk(s.bufs, r); } }
    forall r | r in t.down || r in t.out ensures OutOk(t, tag, r) { assert r in s.down || r in s.out ==> OutOk(s, tag, r); }
    forall r | r in t.inq ensures InOk(t, tag, r) { assert InOk(s, tag, r); }
    forall r | r in t.free ensures Empty(t, tag, r) { assert Empty(s, tag, r); assert s.inq[0] in s.Line(); assert r in t.Line() ==> r in s.Line() || r == d; }
    forall r | r in t.busy ensures BusyOk(t, tag, r) { assert BusyOk(s, tag, r); }
    forall r | r in s.busy ensures SameOwn(s.bufs, t.bufs, tag, r) { assert BusyOk(s, tag, r); }
    OwnOnceFrame(s.bufs, t.bufs, tag, s.busy);
  }

  lemma CopyBytes(bufs: seq<Buf>, a: seq<Ref>, x: Ref, rest: seq<Ref>, d: Ref, c: Buf, b: Buf, n: int)
    requires RefOk(bufs, x) && 0 <= d < |bufs| && d != x && x !in a && x !in rest && d !in a && d !in rest
    requires 0 < n <= bufs[x].Size() && c.Ok() && c.Bytes() == bufs[x].Bytes()[..n] && b.Ok() && b.Bytes() == bufs[x].Bytes()[n..]
    ensures BytesOf(bufs[x := b][d := c], a + ([d] + ([x] + rest))) == BytesOf(bufs, a + ([x] + rest))
  {
    var e := bufs[x := b];
    var f := e[d := c];
    BytesOfAppend(bufs, a, [x] + rest);
    BytesOfOne(bufs, x, rest);
    Outside(bufs, x, b, a);
    Outside(bufs, x, b, rest);
    Outside(e, d, c, a);
    Outside(e, d, c, rest);
    BytesOfAppend(f, a, [d] + ([x] + rest));
    BytesOfOne(f, d, [x] + rest);
    BytesOfOne(f, x, rest);
    Rejoined(bufs[x].Bytes(), n, BytesOf(bufs, rest));
  }

  lemma Rejoined(y: seq<byte>, n: int, z: seq<byte>)
    requires 0 <= n <= |y|
    ensures y[..n] + (y[n..] + z) == y + z
  {
  }

  // ---- handing the output chain on ----

  // The next filter took the output chain and sent k bytes of all it holds; "kept" says that the
  // chain joins the busy one.
  function Handed(s: State, bufs: seq<Buf>, c: seq<Ref>, kept: bool): State {
    State(bufs, c, [], s.inq, if kept then s.busy + s.out else s.busy, s.free)
  }

  ghost predicate Sends(s: State, bufs: seq<Buf>, c: seq<Ref>, k: int) {
    Left(s.bufs, s.down + s.out, bufs, c, k)
  }

  lemma TailSum(x: seq<byte>, y: seq<byte>, k: int)
    requires 0 <= k <= |x|
    ensures x[k..] + y == (x + y)[k..]
  {
  }

  lemma HandLine(a: seq<Ref>, c: seq<Ref>, inq: seq<Ref>)
    requires |c| <= |a| && c == a[|a| - |c|..] && Distinct(c) && Distinct(a + inq)
    ensures Distinct(c + [] + inq) && forall r :: r in c ==> r in a
  {
    assert c + [] == c;
    DistinctAppend(a, inq);
    DistinctAppend(c, inq);
  }

  lemma HandBytes(s: State, tag: int, bufs: seq<Buf>, c: seq<Ref>, k: int)
    requires Inv(s, tag) && Sends(s, bufs, c, k)
    ensures k <= |BytesOf(s.bufs, s.Line())| && BytesOf(bufs, c + [] + s.inq) == BytesOf(s.bufs, s.Line())[k..]
  {
    var a := s.down + s.out;
    assert c + [] == c;
    BytesOfAppend(s.bufs, a, s.inq);
    BytesOfAppend(bufs, c, s.inq);
    TailSum(BytesOf(s.bufs, a), BytesOf(s.bufs, s.inq), k);
    DistinctAppend(a, s.inq);
    forall r | r in s.inq ensures SameData(s.bufs, bufs, r) {
      assert r in s.Line();
      assert RefOk(s.bufs, r);
      assert OnlyMoved(s.bufs, bufs, a, r);
    }
    BytesOfFrame(s.bufs, bufs, s.inq);
  }

  lemma HandBusy(s: State, tag: int, bufs: seq<Buf>, c: seq<Ref>, k: int, kept: bool, r: Ref)
    requires Inv(s, tag) && Sends(s, bufs, c, k) && r in Handed(s, bufs, c, kept).busy
    ensures BusyOk(Handed(s, bufs, c, kept), tag, r) && SameOwn(s.bufs, bufs, tag, r)
  {
    var a := s.down + s.out;
    DistinctAppend(a, s.inq);
    if r in s.busy { assert BusyOk(s, tag, r); } else { assert OutOk(s, tag, r) && r in a && r in s.Line() && RefOk(s.bufs, r); }
    assert OnlyMoved(s.bufs, bufs, a, r);
    assert r in a ==> RefOk(bufs, r);
    assert r in s.free ==> Empty(s, tag, r);
  }

  lemma HandOn(s: State, tag: int, bufs: seq<Buf>, c: seq<Ref>, k: int, kept: bool)
    requires Inv(s, tag) && Sends(s, bufs, c, k)
    ensures var t := Handed(s, bufs, c, kept);
      Inv(t, tag) && k <= |BytesOf(s.bufs, s.Line())| && BytesOf(bufs, t.Line()) == BytesOf(s.bufs, s.Line())[k..]
  {
    var t, a := Handed(s, bufs, c, kept), s.down + s.out;
    HandBytes(s, tag, bufs, c, k);
    HandLine(a, c, s.inq);
    DistinctAppend(a, s.inq);
    DistinctAppend(s.down, s.out);
    forall r | r in t.Line() ensures RefOk(bufs, r) {
      assert r in s.Line() && RefOk(s.bufs, r) && OnlyMoved(s.bufs, bufs, a, r);
      assert r in a ==> RefOk(bufs, r);
    }
    forall r | r in t.down || r in t.out ensures OutOk(t, tag, r) {
      assert r in a && OutOk(s, tag, r) && OnlyMoved(s.bufs, bufs, a, r);
      assert RefLive(s.bufs, r) ==> RefLive(bufs, r);
    }
    forall r | r in t.inq ensures InOk(t, tag, r) { assert InOk(s, tag, r) && OnlyMoved(s.bufs, bufs, a, r); }
    forall r | r in t.free ensures Empty(t, tag, r) {
      assert Empty(s, tag, r) && OnlyMoved(s.bufs, bufs, a, r);
      assert r in t.Line() ==> r in s.Line();
      assert r in a ==> r in s.Line();
    }
    forall r | r in t.busy ensures BusyOk(t, tag, r) && SameOwn(s.bufs, bufs, tag, r) { HandBusy(s, tag, bufs, c, k, kept, r); }
    forall r | r in s.busy && 0 <= r < |s.bufs| && Own(s.bufs[r], tag) ensures r !in s.out { assert BusyOk(s, tag, r); }
    if kept { OwnOnceAppend(s.bufs, tag, s.busy, s.out); }
    OwnOnceFrame(s.bufs, bufs, tag, t.busy);
  }

  // ---- ngx_chain_update_chains ----

  // A used-up buffer of someone else leaves the busy chain.
  lemma PopOther(s: State, tag: int)
    requires Inv(s, tag) && s.busy != []
    ensures Inv(s.(busy := s.busy[1..]), tag)
  {
    var t := s.(busy := s.busy[1..]);
    forall r | r in t.down || r in t.out ensures OutOk(t, tag, r) { assert OutOk(s, tag, r); }
    forall r | r in t.inq ensures InOk(t, tag, r) { assert InOk(s, tag, r); }
    forall r | r in t.free ensures Empty(t, tag, r) { assert Empty(s, tag, r); }
    forall r | r in t.busy ensures BusyOk(t, tag, r) { assert BusyOk(s, tag, r); }
  }

  function Reset(b: Buf): Buf { b.(pos := 0, last := 0) }

  // A used-up buffer of the context becomes free; the next filter is done with it.
  lemma PopOwn(s: State, tag: int)
    requires Inv(s, tag) && s.busy != [] && s.out == [] && 0 <= s.busy[0] < |s.bufs|
    requires Own(s.bufs[s.busy[0]], tag) && s.bufs[s.busy[0]].Size() == 0
    ensures var r := s.busy[0];
      var t := s.(bufs := s.bufs[r := Reset(s.bufs[r])], busy := s.busy[1..], free := [r] + s.free);
      Inv(t, tag) && r !in s.Line() && BytesOf(t.bufs, t.Line()) == BytesOf(s.bufs, s.Line())
  {
    var x := s.busy[0];
    var t := s.(bufs := s.bufs[x := Reset(s.bufs[x])], busy := s.busy[1..], free := [x] + s.free);
    assert x in s.busy && BusyOk(s, tag, x);
    assert x in s.down ==> OutOk(s, tag, x);
    assert x !in s.Line();
    Outside(s.bufs, x, Reset(s.bufs[x]), s.Line());
    forall r | r in t.down || r in t.out ensures OutOk(t, tag, r) { assert OutOk(s, tag, r); assert r in s.Line(); }
    forall r | r in t.inq ensures InOk(t, tag, r) { assert InOk(s, tag, r); }
    forall r | r in t.free ensures Empty(t, tag, r) { assert r in s.free ==> Empty(s, tag, r); }
    DistinctAppend([x], s.free);
    forall r | r in t.busy ensures BusyOk(t, tag, r) { assert r in s.busy && BusyOk(s, tag, r); }
    forall r | r in t.busy ensures SameOwn(s.bufs, t.bufs, tag, r) { assert r in s.busy && BusyOk(s, tag, r); }
    OwnOnceFrame(s.bufs, t.bufs, tag, t.busy);
  }

  // ---- new buffers ----

  // A free buffer is taken for use.
  lemma TakeFree(s: State, tag: int)
    requires Inv(s, tag) && s.free != []
    ensures var t := s.(free := s.free[1..]); Inv(t, tag) && Idle(t, tag, s.free[0])
  {
    var t, x := s.(free := s.free[1..]), s.free[0];
    assert x in s.free && Empty(s, tag, x);
    assert x in s.busy ==> BusyOk(s, tag, x);
    forall r | r in t.down || r in t.out ensures OutOk(t, tag, r) { assert OutOk(s, tag, r); }
    forall r | r in t.inq ensures InOk(t, tag, r) { assert InOk(s, tag, r); }
    forall r | r in t.free ensures Empty(t, tag, r) { assert r in s.free && Empty(s, tag, r); }
    forall r | r in t.busy ensures BusyOk(t, tag, r) { assert BusyOk(s, tag, r); assert r in t.free ==> r in s.free; }
  }

  // The arena grows.
  lemma Grow(s: State, tag: int, more: seq<Buf>)
    requires Inv(s, tag)
    ensures var t := s.(bufs := s.bufs + more); Inv(t, tag) && BytesOf(t.bufs, t.Line()) == BytesOf(s.bufs, s.Line())
    ensures |s.bufs| !in s.Line() && |s.bufs| !in s.free && |s.bufs| !in s.busy
  {
    var t, n := s.(bufs := s.bufs + more), |s.bufs|;
    assert n in s.Line() ==> RefOk(s.bufs, n);
    assert n in s.free ==> Empty(s, tag, n);
    assert n in s.busy ==> BusyOk(s, tag, n);
    forall r | r in s.Line() ensures SameData(s.bufs, t.bufs, r) && RefOk(t.bufs, r) { assert RefOk(s.bufs, r); }
    BytesOfFrame(s.bufs, t.bufs, s.Line());
    forall r | r in t.down || r in t.out ensures OutOk(t, tag, r) { assert OutOk(s, tag, r); }
    forall r | r in t.inq ensures InOk(t, tag, r) { assert InOk(s, tag, r); }
    forall r | r in t.free ensures Empty(t, tag, r) { assert Empty(s, tag, r); }
    forall r | r in t.busy ensures BusyOk(t, tag, r) && SameOwn(s.bufs, t.bufs, tag, r) { assert BusyOk(s, tag, r); }
    OwnOnceFrame(s.bufs, t.bufs, tag, s.busy);
  }

  // ---- submitting ----

  // Buffers of the caller that may be submitted.
  ghost predicate Fresh(s: State, tag: int, more: seq<Ref>) {
    && Distinct(more) && Valid(s.bufs, more)
    && forall r {:trigger InOk(s, tag, r)} :: r in more ==> InOk(s, tag, r) && r !in s.Line()
  }

  lemma Submit(s: State, tag: int, more: seq<Ref>)
    requires Inv(s, tag) && Fresh(s, tag, more)
    ensures var t := s.(inq := s.inq + more);
      Inv(t, tag) && BytesOf(t.bufs, t.Line()) == BytesOf(s.bufs, s.Line()) + BytesOf(s.bufs, more)
  {
    var t := s.(inq := s.inq + more);
    assert t.Line() == s.Line() + more;
    BytesOfAppend(s.bufs, s.Line(), more);
    SubmitKeeps(s, tag, more);
  }

  lemma SubmitKeeps(s: State, tag: int, more: seq<Ref>)
    requires Inv(s, tag) && Fresh(s, tag, more)
    ensures Inv(s.(inq := s.inq + more), tag)
  {
    var t := s.(inq := s.inq + more);
    assert t.Line() == s.Line() + more;
    forall r | r in s.Line() ensures r !in more { assert r in more ==> InOk(s, tag, r); }
    DistinctAppend(s.Line(), more);
    forall r | r in t.Line() ensures RefOk(t.bufs, r) { assert r in s.Line() || r in more; assert RefOk(s.bufs, r); }
    forall r | r in t.down || r in t.out ensures OutOk(t, tag, r) { assert OutOk(s, tag, r); }
    forall r | r in t.inq ensures InOk(t, tag, r) { assert InOk(s, tag, r); }
    forall r | r in t.free ensures Empty(t, tag, r) { assert Empty(s, tag, r); assert r in more ==> InOk(s, tag, r); }
    forall r | r in t.busy ensures BusyOk(t, tag, r) { assert BusyOk(s, tag, r); assert r in more ==> InOk(s, tag, r); }
  }
}
