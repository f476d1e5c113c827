/** ngx_open_cached_file, ngx_open_file_cleanup and ngx_expire_old_cached_files of
    src/core/ngx_open_file_cache.c, with vnode events off. The tree is a map from names. */
module OpenFileCache {
  import opened OpenFileState

  const COUNT_LIMIT := 0x100_0000
  const USES_LIMIT := 0x1_0000_0000

  // What the caller asks; the record is zeroed otherwise.
  datatype Request = Request(uniq: int, valid: int, minUses: nat, errors: bool, testDir: bool, links: int)

  // What the system calls answer.
  datatype Stat = Bad(err: nat) | Info(uniq: int, isDir: bool)
  datatype Env = Env(stat: Stat, open: Fd, openErr: nat, fstat: Stat)

  datatype Out = Out(ok: bool, err: nat, fd: Fd, uniq: int, isDir: bool)

  ghost predicate EnvOk(env: Env, owner: map<Fd, Ref>) {
    && (env.open != NONE ==> env.open !in owner) && env.openErr > 0 && (env.stat.Bad? ==> env.stat.err > 0)
  }

  // ngx_open_and_stat_file; what it opens and does not return it closes itself.
  function OpenAndStat(fd: Fd, uniq: int, testDir: bool, env: Env): (r: Out)
    ensures !r.ok ==> r.fd == NONE && !r.isDir
    ensures r.ok ==> r.err == 0
    ensures r.fd == NONE || r.fd == env.open || (r.fd == fd && r.uniq == uniq && env.stat == Info(uniq, r.isDir))
    ensures r.fd != NONE && r.isDir ==> r.fd == fd
    ensures r.ok && !r.isDir ==> r.fd != NONE
    // A file opened is what fstat says of it, and a directory is one by fstat or by the look before.
    ensures r.ok && r.fd != NONE && r.fd != fd ==> r.fd == env.open && env.fstat == Info(r.uniq, false)
    ensures r.ok && r.fd == NONE ==> env.fstat == Info(r.uniq, true) || (testDir && fd == NONE && env.stat == Info(r.uniq, true))
    // The descriptor at hand is kept exactly if the name still leads to the same file.
    ensures r.ok && fd != NONE && fd != env.open ==> (r.fd == fd <==> env.stat == Info(uniq, r.isDir) && r.uniq == uniq)
    // It fails with the error of the first call that fails.
    ensures (fd != NONE || testDir) && env.stat.Bad? ==> !r.ok && r.err == env.stat.err
    ensures !r.ok && !((fd != NONE || testDir) && env.stat.Bad?) ==> if env.open == NONE then r.err == env.openErr else r.err == 0 && env.fstat.Bad?
    ensures r.ok && r.fd == NONE && !(testDir && fd == NONE && env.stat.Info? && env.stat.isDir) ==> env.open != NONE
  {
    if fd != NONE && env.stat.Bad? then Out(false, env.stat.err, NONE, uniq, false)
    else if fd != NONE && uniq == env.stat.uniq then Out(true, 0, fd, uniq, env.stat.isDir)
    else if fd == NONE && testDir && env.stat.Bad? then Out(false, env.stat.err, NONE, uniq, false)
    else if fd == NONE && testDir && env.stat.isDir then Out(true, 0, NONE, env.stat.uniq, true)
    else if env.open == NONE then Out(false, env.openErr, NONE, uniq, false)
    else if env.fstat.Bad? then Out(false, 0, NONE, uniq, false)
    else Out(true, 0, if env.fstat.isDir then NONE else env.open, env.fstat.uniq, env.fstat.isDir)
  }

  // An answer that can be put into a blank entry.
  ghost predicate Usable(r: Out, owner: map<Fd, Ref>) {
    if r.err == 0 && !r.isDir then r.fd != NONE && r.fd !in owner else r.fd == NONE
  }

  // What becomes of a descriptor that an entry gives up: it is closed, or left to the requests that use it.
  ghost predicate GivenUp(owner: map<Fd, Ref>, d: Fd, x: Ref, count: nat) {
    if count == 0 then d !in owner else d in owner && owner[d] == x
  }

  function Updated(e: Entry, r: Out, q: Request, now: int): Entry {
    var f := e.(fd := r.fd, err := r.err, links := q.links, created := now);
    if r.err != 0 then f
    else f.(uniq := r.uniq, close := false, isDir := r.isDir, count := if r.isDir then e.count else (e.count + 1) % COUNT_LIMIT)
  }

  // ---- the effect of expiry ----

  lemma {:induction false} LastWithout(q: seq<Ref>)
    requires Distinct(q) && q != []
    ensures Without(q, q[|q| - 1]) == q[..|q| - 1]
  {
    if |q| > 1 {
      assert Distinct(q[1..]);
      LastWithout(q[1..]);
      assert q[1..][..|q| - 2] == q[1..|q| - 1];
      assert q[..|q| - 1] == [q[0]] + q[1..|q| - 1];
    } else {
      assert Without(q[1..], q[0]) == [];
      assert q[..0] == [];
    }
  }

  lemma LastIsOther(q: seq<Ref>)
    requires Distinct(q) && q != []
    ensures q[|q| - 1] !in q[..|q| - 1]
  {
  }

  ghost predicate Same(f: seq<Entry>, g: seq<Entry>, r: Ref) { 0 <= r < |f| == |g| && f[r] == g[r] }

  ghost predicate SameOn(f: seq<Entry>, g: seq<Entry>, q: seq<Ref>) {
    forall r {:trigger Same(f, g, r)} :: r in q ==> Same(f, g, r)
  }

  lemma QueueInRange(s: State)
    requires Inv(s, NONE, false)
    ensures SameOn(s.files, s.files, s.queue)
  {
    forall r | r in s.queue ensures Same(s.files, s.files, r) { assert Queued(s, NONE, r); }
  }

  lemma SameStill(f: seq<Entry>, g: seq<Entry>, h: seq<Entry>, q: seq<Ref>)
    requires q != [] && SameOn(f, g, q) && SameOn(g, h, q[..|q| - 1])
    ensures SameOn(f, h, q[..|q| - 1])
  {
    forall r | r in q[..|q| - 1] ensures Same(f, h, r) { assert Same(f, g, r) && Same(g, h, r); }
  }

  // The tree with some names less.
  ghost predicate Fewer(a: map<string, Ref>, b: map<string, Ref>) {
    forall n {:trigger n in b} :: n in b ==> n in a && b[n] == a[n]
  }

  // Entry i of the queue was last used before a time.
  ghost predicate Idle(f: seq<Entry>, q: seq<Ref>, i: int, before: int) {
    0 <= i < |q| && 0 <= q[i] < |f| && f[q[i]].accessed < before
  }

  ghost predicate AllIdle(f: seq<Entry>, q: seq<Ref>, a: int, b: int, before: int) {
    forall i {:trigger Idle(f, q, i, before)} :: a <= i < b ==> Idle(f, q, i, before)
  }

  // An entry with a descriptor: it stays for the requests that use it, or it is closed and freed.
  ghost function Expel(t: State, x: Ref): State
    requires 0 <= x < |t.files|
  {
    var e := t.files[x].(close := true);
    if e.count > 0 then Detached(t, x)
    else
      t.(files := t.files[x := e.(fd := NONE)], tree := t.tree - {e.name}, live := t.live - {x},
         owner := if e.fd == NONE then t.owner else t.owner - {e.fd})
  }

  lemma ExpelsOnly(t: State, x: Ref, q: seq<Ref>)
    requires 0 <= x < |t.files| && SameOn(t.files, t.files, q) && x !in q
    ensures SameOn(t.files, Expel(t, x).files, q)
  {
    forall r | r in q ensures Same(t.files, Expel(t, x).files, r) { assert Same(t.files, t.files, r); }
  }

  lemma Expelled(t: State, x: Ref)
    requires Inv(t, x, false) && x != NONE
    ensures Inv(Expel(t, x), NONE, false)
  {
    var e := t.files[x];
    if e.count > 0 {
      Detach(t, x);
    } else {
      Blanked(t, x);
      var b := Changed(t, x, e, t.held, t.owner - {e.fd});
      Free(b, x, e.(close := true, fd := NONE));
      NoneUnowned(t, x);
      assert b.files[x := e.(close := true, fd := NONE)] == t.files[x := e.(close := true, fd := NONE)];
      assert Freed(b, x, e.(close := true, fd := NONE)) == Expel(t, x);
    }
  }

  lemma NoneUnowned(t: State, x: Ref)
    requires Inv(t, x, false)
    ensures t.owner - {NONE} == t.owner
  {
    assert NONE in t.owner ==> OwnerOk(t, NONE, x, false);
  }

  // A directory or an error is freed at once.
  lemma ExpelledPlainly(t: State, x: Ref)
    requires Inv(t, x, false) && x != NONE && !Plain(t.files[x])
    ensures Inv(t.(tree := t.tree - {t.files[x].name}, live := t.live - {x}), NONE, false)
  {
    assert EntryInv(t, x, x, false);
    Blanked(t, x);
    NoneUnowned(t, x);
    assert Changed(t, x, t.files[x], t.held, t.owner) == t;
    Free(t, x, t.files[x]);
    assert Freed(t, x, t.files[x]) == t.(tree := t.tree - {t.files[x].name}, live := t.live - {x});
  }

  // The queue is empty only when the tree is.
  lemma QueueEmpty(s: State)
    requires Inv(s, NONE, false)
    ensures s.queue == [] ==> s.tree == map[]
  {
    forall n | n in s.tree ensures s.queue != [] {
      assert NameOk(s, n);
      assert Queued(s, NONE, s.tree[n]);
    }
  }

  // ---- the entry in hand ----

  lemma OneName(tree: map<string, Ref>, name: string, x: Ref)
    requires name !in tree
    ensures |tree[name := x]| == |tree| + 1
  {
    assert tree[name := x].Keys == tree.Keys + {name};
  }

  // An entry without descriptor and cleanups may be filled in anew.
  lemma ToBlank(s: State, x: Ref)
    requires Inv(s, x, false) && x != NONE && s.files[x].count == 0 && s.files[x].fd == NONE
    ensures Inv(s, x, true)
  {
    Blanked(s, x);
    NoneUnowned(s, x);
    assert s.files[x := s.files[x]] == s.files;
    assert Changed(s, x, s.files[x], s.held, s.owner) == s;
  }

  lemma OwnedFd(s: State, name: string)
    requires Inv(s, NONE, false) && name in s.tree
    ensures var x := s.tree[name]; 0 <= x < |s.files| && (s.files[x].fd != NONE ==> s.files[x].fd in s.owner)
  {
    assert NameOk(s, name);
    assert EntryInv(s, s.tree[name], NONE, false);
  }

  // A live directory or error with a descriptor breaks the invariant.
  lemma Spoilt(s: State, x: Ref)
    requires x in s.live && 0 <= x < |s.files| && !Plain(s.files[x]) && s.files[x].fd != NONE
    ensures !Inv(s, NONE, false)
  {
    assert !EntryInv(s, x, NONE, false);
  }

  class Cache {
    const max: nat
    const inactive: int
    var files: seq<Entry>
    var tree: map<string, Ref>
    var queue: seq<Ref>
    var current: int

    ghost var live: set<Ref>
    ghost var held: map<int, Hold>
    ghost var owner: map<Fd, Ref>

    constructor (max: nat, inactive: int)
      requires max >= 1
      ensures Valid() && held == map[] && this.max == max && this.inactive == inactive
    {
      this.max, this.inactive := max, inactive;
      files, tree, queue, current := [], map[], [], 0;
      live, held, owner := {}, map[], map[];
    }

    ghost function S(): State reads this { State(files, tree, queue, live, held, owner) }

    // Entry x is in hand.
    ghost predicate Holding(x: Ref, blank: bool) reads this {
      Inv(S(), x, blank) && current == |tree| && current <= max
    }

    ghost predicate Valid() reads this { Holding(NONE, false) && max >= 1 }

    // ---- small steps ----

    method CloseFile(d: Fd)
      requires d in owner && Unheld(held, d)
      modifies this`owner
      ensures owner == old(owner) - {d}
    {
      owner := owner - {d};
    }

    method LeaveTree(x: Ref)
      requires 0 <= x < |files| && files[x].name in tree && current == |tree|
      modifies this`tree, this`current
      ensures tree == old(tree) - {files[x].name} && current == |tree| == old(current) - 1
    {
      assert tree.Keys - {files[x].name} == (tree - {files[x].name}).Keys;
      tree := tree - {files[x].name};
      current := current - 1;
    }

    // The second half of ngx_close_cached_file.
    method CloseUnused(x: Ref)
      requires 0 <= x < |files|
      requires files[x].count == 0 && files[x].fd != NONE ==> files[x].fd in owner && Unheld(held, files[x].fd)
      modifies this`files, this`owner, this`live
      ensures old(files[x].count) > 0 ==> unchanged(this)
      ensures old(files[x].count) == 0 ==>
        && files == old(files)[x := old(files[x]).(fd := NONE)]
        && owner == (if old(files[x].fd) == NONE then old(owner) else old(owner) - {old(files[x].fd)})
        && live == if old(files[x].close) then old(live) - {x} else old(live)
    {
      if files[x].count > 0 {
        return;
      }
      if files[x].fd != NONE {
        CloseFile(files[x].fd);
        files := files[x := files[x].(fd := NONE)];
      }
      assert files == old(files)[x := old(files[x]).(fd := NONE)];
      if !files[x].close {
        return;
      }
      live := live - {x};
    }

    // ---- ngx_expire_old_cached_files ----

    // The last entry of the queue goes.
    method ExpireLast()
      requires Valid() && queue != []
      modifies this`files, this`tree, this`queue, this`current, this`owner, this`live
      ensures Valid() && current == old(current) - 1 && queue == old(queue)[..|old(queue)| - 1]
      ensures SameOn(old(files), files, queue) && Fewer(old(tree), tree)
      ensures forall d {:trigger d in owner} :: d in owner ==> d in old(owner)
    {
      var x := queue[|queue| - 1];
      ghost var s := S();
      QueueInRange(s);
      LastIsOther(queue);
      SameStill(files, files, files, queue);
      assert Queued(s, NONE, x) && EntryInv(s, x, NONE, false);
      LastWithout(queue);
      ghost var t := s.(queue := queue[..|queue| - 1]);
      Take(s, x, t);
      queue := queue[..|queue| - 1];
      LeaveTree(x);
      if Plain(files[x]) {
        Expelled(t, x);
        ExpelsOnly(t, x, t.queue);
        ShutEntry(x, t);
      } else {
        ExpelledPlainly(t, x);
        live := live - {x};
      }
    }

    // Entry x has left the tree of state t; its descriptor is closed unless a request uses it.
    method ShutEntry(x: Ref, ghost t: State)
      requires Inv(t, x, false) && x != NONE && S() == t.(tree := t.tree - {t.files[x].name})
      modifies this`files, this`owner, this`live
      ensures S() == Expel(t, x)
    {
      assert EntryInv(t, x, x, false);
      if files[x].count == 0 && files[x].fd != NONE {
        Closable(t, x, {});
        assert t.held - {} == t.held;
      }
      files := files[x := files[x].(close := true)];
      CloseUnused(x);
      assert files == if t.files[x].count > 0 then t.files[x := t.files[x].(close := true)] else t.files[x := t.files[x].(close := true, fd := NONE)];
    }

    // The least recently used entries go, "gone" of them: with first == 0 one by force, and then
    // up to two as long as they are inactive.
    method Expire(first: nat, now: int) returns (ghost gone: nat)
      requires Valid() && first <= 1
      modifies this`files, this`tree, this`queue, this`current, this`owner, this`live
      ensures Valid() && current == old(current) - gone && gone <= |old(queue)| && queue == old(queue)[..|old(queue)| - gone]
      ensures first == 0 && old(current) > 0 ==> gone >= 1
      ensures first + gone <= 3 && AllIdle(old(files), old(queue), |queue|, |old(queue)| - (1 - first), now - inactive)
      ensures first + gone < 3 && queue != [] ==> !Idle(old(files), queue, |queue| - 1, now - inactive)
      ensures SameOn(old(files), files, queue) && Fewer(old(tree), tree)
      ensures forall d {:trigger d in owner} :: d in owner ==> d in old(owner)
    {
      var n := first;
      gone := 0;
      QueueInRange(S());
      while n < 3
        invariant Valid() && n == first + gone <= 3 && current == old(current) - gone
        invariant gone <= |old(queue)| && queue == old(queue)[..|old(queue)| - gone]
        invariant SameOn(old(files), files, queue) && Fewer(old(tree), tree)
        invariant AllIdle(old(files), old(queue), |queue|, |old(queue)| - (1 - first), now - inactive)
        invariant forall d {:trigger d in owner} :: d in owner ==> d in old(owner)
        decreases 3 - n
      {
        QueueEmpty(S());
        if queue == [] {
          return;
        }
        var x := queue[|queue| - 1];
        assert Queued(S(), NONE, x) && EntryInv(S(), x, NONE, false);
        assert Same(old(files), files, x);
        n := n + 1;
        if n - 1 != 0 && now - files[x].accessed <= inactive {
          return;
        }
        ghost var f, q := files, queue;
        ExpireLast();
        SameStill(old(files), f, files, q);
        gone := gone + 1;
      }
    }

    // ---- ngx_open_file_cleanup ----

    // The cleanup h of a request, with the entry and min_uses it was registered with.
    method Cleanup(ghost h: int, x: Ref, minUses: nat, now: int)
      requires Valid() && h in held && held[h].file == x && held[h].minUses == minUses
      modifies this`files, this`tree, this`queue, this`current, this`owner, this`live, this`held
      ensures Valid() && held == old(held) - {h} && Fewer(old(tree), tree) && 0 <= x < |old(files)|
      ensures var e := old(files[x]); e.count == 1 && (e.close || e.uses < minUses) ==> e.fd !in owner
      ensures forall d {:trigger d in owner} :: d in owner ==> d in old(owner)
    {
      Release(h, x, minUses, now);
      ghost var gone := Expire(1, now);
    }

    // ngx_close_cached_file: the descriptor is closed with the last cleanup, if the entry has left the
    // tree or was not used often enough.
    method Release(ghost h: int, x: Ref, minUses: nat, now: int)
      requires Valid() && h in held && held[h].file == x
      modifies this`files, this`queue, this`owner, this`live, this`held
      ensures Valid() && held == old(held) - {h} && 0 <= x < |old(files)|
      ensures var e := old(files[x]); queue == if e.close then old(queue) else [x] + Without(old(queue), x)
      ensures var e := old(files[x]); var last := e.count == 1 && (e.close || e.uses < minUses);
        && owner == (if last then old(owner) - {e.fd} else old(owner))
        && live == if last && e.close then old(live) - {x} else old(live)
    {
      assert HoldOk(S(), h) && EntryInv(S(), x, NONE, false);
      assert h in Holders(S(), x);
      if files[x].close {
        ReleaseGone(h, x);
      } else {
        ReleaseKept(h, x, minUses, now);
      }
    }

    // ngx_close_cached_file for an entry that has left the tree.
    method ReleaseGone(ghost h: int, x: Ref)
      requires Valid() && h in held && held[h].file == x && 0 <= x < |files| && files[x].close && files[x].count > 0 && x in live
      modifies this`files, this`owner, this`live, this`held
      ensures Valid() && held == old(held) - {h}
      ensures owner == if old(files[x].count) == 1 then old(owner) - {old(files[x].fd)} else old(owner)
      ensures live == if old(files[x].count) == 1 then old(live) - {x} else old(live)
    {
      ghost var s := S();
      assert EntryInv(s, x, NONE, false) && h in Holders(s, x);
      var e := files[x].(count := files[x].count - 1);
      LetGo(s, h, if e.count > 0 then e else e.(fd := NONE));
      if e.count == 0 {
        OneHolder(Holders(s, x), h);
        Closable(s, x, {h});
      }
      held := held - {h};
      files := files[x := e];
      CloseUnused(x);
      assert files == s.files[x := if e.count > 0 then e else e.(fd := NONE)];
      assert S() == Let(s, h, if e.count > 0 then e else e.(fd := NONE));
    }

    // The same for one in the tree: it moves to the head of the queue, and one that was not used
    // often enough is closed.
    method ReleaseKept(ghost h: int, x: Ref, minUses: nat, now: int)
      requires Valid() && h in held && held[h].file == x && 0 <= x < |files| && !files[x].close && files[x].count > 0 && x in live
      modifies this`files, this`queue, this`owner, this`live, this`held
      ensures Valid() && held == old(held) - {h} && queue == [x] + Without(old(queue), x) && live == old(live)
      ensures owner == if old(files[x].count) == 1 && old(files[x].uses) < minUses then old(owner) - {old(files[x].fd)} else old(owner)
    {
      ghost var s0 := S();
      assert EntryInv(s0, x, NONE, false);
      ghost var s1 := s0.(queue := Without(queue, x));
      Take(s0, x, s1);
      HeldLess(s1, x, h);
      files := files[x := files[x].(count := files[x].count - 1)];
      held := held - {h};
      queue := Without(queue, x);
      assert Inv(S(), x, false);
      if files[x].uses >= minUses || files[x].count > 0 {
        Found(x, now);
        return;
      }
      ghost var s2 := S();
      ClosedUp(s2, x);
      NoneUnowned(s2, x);
      assert EntryInv(s2, x, x, false);
      if files[x].fd != NONE {
        Closable(s2, x, {});
        assert s2.held - {} == s2.held;
      }
      CloseUnused(x);
      assert Inv(S(), x, false);
      Found(x, now);
    }

    // The label "found": the entry in hand goes to the head of the queue.
    method Found(x: Ref, now: int)
      requires 0 <= x < |files|
      modifies this`files, this`queue
      ensures old(Holding(x, false)) ==> Holding(NONE, false)
      ensures queue == [x] + old(queue) && files == old(files)[x := old(files[x]).(accessed := now)]
    {
      ghost var s := S();
      files := files[x := files[x].(accessed := now)];
      queue := [x] + queue;
      if Inv(s, x, false) { Put(s, x, S()); }
    }

    // ---- ngx_open_cached_file ----

    // The labels "add_event" and "update" for a blank entry.
    method Fill(x: Ref, r: Out, q: Request, now: int, ghost h: int)
      requires Holding(x, true) && x != NONE && h !in held && (r.err != 0 ==> !r.isDir)
      requires r.err == 0 && !r.isDir ==> Usable(r, owner)
      modifies this`files, this`held, this`owner
      ensures old(Usable(r, owner)) ==> Holding(x, false)
      ensures x in live && 0 <= x < old(|files|) && files == old(files)[x := Updated(old(files[x]), r, q, now)]
      ensures owner == if r.err != 0 || r.isDir then old(owner) else old(owner)[r.fd := x]
      ensures held == if r.err == 0 && !r.isDir then old(held)[h := Hold(x, r.fd, q.minUses)] else old(held)
    {
      ghost var s := S();
      assert EntryInv(s, x, x, true);
      var e := Updated(files[x], r, q, now);
      if r.err == 0 && !r.isDir {
        Filled(s, x, e, h, q.minUses);
        held := held[h := Hold(x, r.fd, q.minUses)];
        owner := owner[r.fd := x];
      } else if Usable(r, owner) {
        FilledPlainly(s, x, e);
      }
      files := files[x := e];
    }

    // The label "update" for an entry whose file is the same.
    method Renew(x: Ref, r: Out, q: Request, now: int, ghost h: int)
      requires Holding(x, false) && x != NONE && h !in held && |held| < COUNT_LIMIT - 1
      requires Plain(files[x]) && files[x].fd != NONE && r.err == 0 && !r.isDir && r.fd != NONE
      requires r.fd == files[x].fd || r.fd !in owner
      modifies this`files, this`held, this`owner
      ensures Holding(x, false) && 0 <= x < old(|files|) && files == old(files)[x := Updated(old(files[x]), r, q, now)]
      ensures held == old(held)[h := Hold(x, r.fd, q.minUses)]
      ensures old(files[x].fd) in owner && owner[old(files[x].fd)] == if r.fd != old(files[x].fd) then NONE else x
    {
      ghost var s := S();
      assert EntryInv(s, x, x, false);
      CountBound(s, x);
      var e := Updated(files[x], r, q, now);
      if r.fd == files[x].fd {
        HeldMore(s, x, e, h, q.minUses);
      } else {
        HeldAnew(s, x, e, h, q.minUses);
        owner := owner[files[x].fd := NONE][r.fd := x];
      }
      held := held[h := Hold(x, r.fd, q.minUses)];
      files := files[x := e];
    }

    // The label "create"; "junk" is what the fresh memory holds.
    method Create(name: string, r: Out, q: Request, now: int, junk: Entry, ghost h: int) returns (x: Ref)
      requires Valid() && name !in tree && h !in held && (r.err != 0 ==> !r.isDir)
      requires r.err == 0 && !r.isDir ==> Usable(r, owner)
      modifies this`files, this`tree, this`queue, this`current, this`owner, this`live, this`held
      ensures (Valid() <==> old(Usable(r, owner))) && Front(name, r, now) && Anew(name, q, now) && tree[name] == x && Others(name)
      ensures 0 <= x < |files| && files[x].uses == 1
      ensures old(current) < max ==> x == old(|files|) < |files| && files[..x] == old(files) && owner == if r.err != 0 || r.isDir then old(owner) else old(owner)[r.fd := x]
      ensures held == if r.err == 0 && !r.isDir then old(held)[h := Hold(x, r.fd, q.minUses)] else old(held)
    {
      if current >= max {
        ghost var gone := Expire(0, now);
      }
      x := Append(name, junk);
      ghost var files0 := files;
      Fill(x, r, q, now, h);
      Found(x, now);
      if r.fd != NONE && !Plain(files[x]) { Spoilt(S(), x); }
      assert files[..x] == files0[..x];
    }

    method Append(name: string, junk: Entry) returns (x: Ref)
      requires Valid() && name !in tree && current < max
      modifies this`files, this`tree, this`current, this`live
      ensures Holding(x, true) && x == |old(files)| && tree == old(tree)[name := x] && files[..x] == old(files)
      ensures |files| == x + 1 && files[x].uses == 1 && files[x].count == 0
    {
      ghost var s := S();
      var e := junk.(name := name, uses := 1, count := 0);
      assert |files| in live ==> EntryInv(s, |files|, NONE, false);
      Add(s, e);
      x := |files|;
      OneName(tree, name, x);
      files := files + [e];
      tree := tree[name := x];
      current := current + 1;
      live := live + {x};
    }

    // The label "failed" with an entry in hand; the request's own descriptor is never open there.
    method Failed(x: Ref)
      requires Holding(x, false) && x != NONE && max >= 1
      modifies this`files, this`tree, this`current, this`owner, this`live
      ensures Valid() && 0 <= x < |old(files)| && tree == old(tree) - {old(files[x].name)}
      ensures old(files[x].fd) != NONE ==> GivenUp(owner, old(files[x].fd), x, old(files[x].count))
    {
      ghost var t := S();
      assert EntryInv(t, x, x, false);
      LeaveTree(x);
      Expelled(t, x);
      if files[x].count == 0 {
        if files[x].fd != NONE {
          Closable(t, x, {});
          assert t.held - {} == t.held;
          CloseFile(files[x].fd);
        }
        NoneUnowned(t, x);
        Blanked(t, x);
        assert t.files[x := t.files[x]] == t.files;
        Free(Changed(t, x, t.files[x], t.held, t.owner - {t.files[x].fd}), x, t.files[x]);
        live := live - {x};
        assert S() == Freed(Changed(t, x, t.files[x], t.held, t.owner - {t.files[x].fd}), x, t.files[x]);
      } else {
        files := files[x := files[x].(close := true)];
        assert S() == Expel(t, x);
      }
    }

    // The name leads to an entry that says r, and is the most recently used one.
    ghost predicate Front(name: string, r: Out, now: int) reads this {
      && name in tree && 0 <= tree[name] < |files| && queue != [] && queue[0] == tree[name]
      && var e := files[tree[name]];
      e.accessed == now && e.err == r.err && (r.err == 0 ==> e.fd == r.fd && e.uniq == r.uniq && e.isDir == r.isDir)
    }

    // The entry was filled in now, with what the request says of links.
    ghost predicate Anew(name: string, q: Request, now: int) reads this {
      && name in tree && 0 <= tree[name] < |files|
      && files[tree[name]].created == now && files[tree[name]].links == q.links
    }

    // The uses of the entry x are counted there; an entry made anew has been used once.
    twostate predicate Uses(name: string, x: Ref) reads this
      requires 0 <= x < |old(files)|
    {
      name in tree ==> 0 <= tree[name] < |files| && files[tree[name]].uses == if tree[name] == x then old(files[x].uses) else 1
    }

    // Other names stay, unless the cache was full.
    twostate predicate Others(name: string) reads this {
      && (forall n {:trigger n in tree} :: n in tree && n != name ==> n in old(tree) && tree[n] == old(tree)[n])
      && (old(current) < max ==> forall n {:trigger n in tree} :: n in old(tree) && n != name ==> n in tree)
    }

    // The entry is used as it is.
    ghost predicate Hits(name: string, q: Request, now: int) reads this {
      name in tree && 0 <= tree[name] < |files| && Answers(files[tree[name]], q, now)
    }

    ghost predicate Answers(e: Entry, q: Request, now: int) { (Plain(e) ==> e.fd != NONE) && Fresh(e, q, now) }

    // What a request gets that has found the entry.
    ghost function AnswerFrom(e: Entry, q: Request, now: int, env: Env): Out {
      if Answers(e, q, now) then if e.err == 0 then Out(true, 0, e.fd, e.uniq, e.isDir) else Out(false, e.err, NONE, q.uniq, false)
      else if Plain(e) && e.fd == NONE then OpenAndStat(NONE, q.uniq, q.testDir, env)
      else OpenAndStat(e.fd, e.uniq, q.testDir || e.isDir, env)
    }

    // What a request gets: from a fresh entry what that says, or else what the system calls say.
    ghost function Answer(name: string, q: Request, now: int, env: Env): Out reads this {
      if name in tree && 0 <= tree[name] < |files| then
        AnswerFrom(files[tree[name]], q, now, env)
      else OpenAndStat(NONE, q.uniq, q.testDir, env)
    }

    // A cleanup is registered for a descriptor handed out; the entry says what the request got, or
    // there is none when it was refused.
    twostate predicate Served(name: string, q: Request, now: int, hit: bool, ok: bool, r: Out, h: int)
      reads this
    {
      && ok == r.ok && Others(name)
      && (if hit || r.ok || (r.err != 0 && q.errors) then Front(name, r, now) && (!hit ==> Anew(name, q, now)) else name !in tree)
      && if ok && !r.isDir then name in tree && r.fd != NONE && r.fd in owner && held == old(held)[h := Hold(tree[name], r.fd, q.minUses)]
         else held == old(held)
    }

    // An entry that is used without looking at the file again.
    ghost predicate Fresh(e: Entry, q: Request, now: int) {
      (q.uniq == 0 || q.uniq == e.uniq) && now - e.created < q.valid && q.links == e.links
    }

    // The entry of the name is a file kept open that is looked at again.
    ghost predicate LooksAgain(name: string, q: Request, now: int) reads this {
      && name in tree && 0 <= tree[name] < |files|
      && var e := files[tree[name]];
      Plain(e) && e.fd != NONE && !Fresh(e, q, now)
    }

    // It leads to a directory with the same inode number now.
    ghost predicate Confused(name: string, q: Request, now: int, env: Env) reads this {
      LooksAgain(name, q, now) && env.stat == Info(files[tree[name]].uniq, true)
    }

    // Another file by name, and the same one when opened: the old descriptor is overwritten.
    ghost predicate Leaks(e: Entry, env: Env) {
      env.stat.Info? && env.stat.uniq != e.uniq && env.open != NONE && env.fstat == Info(e.uniq, false)
    }

    // The descriptor of a file that is looked at again: it stays with the entry exactly if the file is
    // the same one and not opened anew; it is left without an owner exactly in the case above; and
    // otherwise the entry gives it up.
    twostate predicate Disposes(x: Ref, r: Out, env: Env) reads this
      requires 0 <= x < |old(files)|
    {
      var e, d := old(files[x]), old(files[x].fd);
      && (d in owner && owner[d] == NONE <==> Leaks(e, env))
      && (r.ok && !r.isDir && r.fd == d ==> d in owner && owner[d] == x)
      && (!Leaks(e, env) && !(r.ok && !r.isDir && r.fd == d) ==> GivenUp(owner, d, x, e.count))
    }

    // What becomes of the descriptor then: without requests it is closed and kept, and with requests
    // two entries have it.
    twostate predicate Spoils(name: string, x: Ref) reads this
      requires 0 <= x < |old(files)|
    {
      && var e := old(files[x]);
      && name in tree && 0 <= tree[name] < |files| && 0 <= x < |files| && files[tree[name]].isDir && files[tree[name]].fd == e.fd != NONE
      && (e.count == 0 ==> tree[name] == x && e.fd !in owner)
      && (e.count > 0 ==> tree[name] != x && files[x].fd == e.fd && files[x].count == e.count && e.fd in owner)
    }

    method Open(name: string, q: Request, now: int, env: Env, junk: Entry, ghost h: int) returns (ok: bool, r: Out)
      requires Valid() && EnvOk(env, owner) && h !in held && |held| < COUNT_LIMIT - 1
      modifies this`files, this`tree, this`queue, this`current, this`owner, this`live, this`held
      ensures Valid() <==> !old(Confused(name, q, now, env))
      ensures old(Confused(name, q, now, env)) ==> Spoils(name, old(tree[name]))
      ensures old(LooksAgain(name, q, now)) ==> Disposes(old(tree[name]), r, env)
      ensures r == old(Answer(name, q, now, env)) && Served(name, q, now, old(Hits(name, q, now)), ok, r, h)
    {
      if name in tree {
        ok, r := OpenOld(name, q, now, env, junk, h);
      } else {
        ok, r := OpenNew(name, q, now, env, junk, h);
      }
    }

    // There is an entry.
    method OpenOld(name: string, q: Request, now: int, env: Env, junk: Entry, ghost h: int) returns (ok: bool, r: Out)
      requires Valid() && EnvOk(env, owner) && h !in held && |held| < COUNT_LIMIT - 1 && name in tree
      modifies this`files, this`tree, this`queue, this`current, this`owner, this`live, this`held
      ensures Valid() <==> !old(Confused(name, q, now, env))
      ensures old(Confused(name, q, now, env)) ==> Spoils(name, old(tree[name]))
      ensures old(LooksAgain(name, q, now)) ==> Disposes(old(tree[name]), r, env)
      ensures r == old(Answer(name, q, now, env)) && Served(name, q, now, old(Hits(name, q, now)), ok, r, h)
    {
      var x := tree[name];
      assert NameOk(S(), name);
      TakeOff(x);
      ok, r := LookAt(x, name, q, now, env, junk, h);
    }

    // The entry is off the queue.
    method LookAt(x: Ref, name: string, q: Request, now: int, env: Env, junk: Entry, ghost h: int) returns (ok: bool, r: Out)
      requires Holding(x, false) && x != NONE && max >= 1 && EnvOk(env, owner) && h !in held && |held| < COUNT_LIMIT - 1
      requires name in tree && tree[name] == x
      modifies this`files, this`tree, this`queue, this`current, this`owner, this`live, this`held
      ensures 0 <= x < |old(files)| && Served(name, q, now, Answers(old(files[x]), q, now), ok, r, h) && Uses(name, x)
      ensures var e := old(files[x]); r == AnswerFrom(e, q, now, env)
      ensures var e := old(files[x]); Valid() <==> !(Plain(e) && e.fd != NONE && !Fresh(e, q, now) && env.stat == Info(e.uniq, true))
      ensures !Valid() ==> Spoils(name, x)
      ensures var e := old(files[x]); Plain(e) && e.fd != NONE && !Fresh(e, q, now) ==> Disposes(x, r, env)
    {
      var e := files[x];
      if e.fd == NONE && Plain(e) {
        ok, r := Reopen(x, name, q, now, env, h);
      } else if (q.uniq == 0 || q.uniq == e.uniq) && now - e.created < q.valid && q.links == e.links {
        ok, r := Hit(x, name, q, now, h);
      } else {
        ok, r := Retest(x, name, q, now, env, junk, h);
      }
    }

    // There is no entry.
    method OpenNew(name: string, q: Request, now: int, env: Env, junk: Entry, ghost h: int) returns (ok: bool, r: Out)
      requires Valid() && EnvOk(env, owner) && h !in held && name !in tree
      modifies this`files, this`tree, this`queue, this`current, this`owner, this`live, this`held
      ensures Valid() && r == OpenAndStat(NONE, q.uniq, q.testDir, env) && Served(name, q, now, false, ok, r, h)
      ensures name in tree ==> 0 <= tree[name] < |files| && files[tree[name]].uses == 1
    {
      r := OpenAndStat(NONE, q.uniq, q.testDir, env);
      if !r.ok && (r.err == 0 || !q.errors) {
        return false, r;
      }
      var x := Create(name, r, q, now, junk, h);
      ok := r.err == 0;
      OwnedFd(S(), name);
    }

    method TakeOff(x: Ref)
      requires Valid() && x in live && 0 <= x < |files| && InTree(S(), x)
      modifies this`files, this`queue
      ensures Holding(x, false) && files == old(files)[x := old(files[x]).(uses := (old(files[x].uses) + 1) % USES_LIMIT)]
      ensures x != NONE && queue == Without(old(queue), x)
    {
      ghost var s := S();
      files := files[x := files[x].(uses := (files[x].uses + 1) % USES_LIMIT)];
      queue := Without(queue, x);
      Take(s, x, S());
    }

    // The file was not used often enough to keep open.
    method Reopen(x: Ref, name: string, q: Request, now: int, env: Env, ghost h: int) returns (ok: bool, r: Out)
      requires Holding(x, false) && x != NONE && max >= 1 && EnvOk(env, owner) && h !in held
      requires name in tree && tree[name] == x && Plain(files[x]) && files[x].fd == NONE
      modifies this`files, this`tree, this`queue, this`current, this`owner, this`live, this`held
      ensures 0 <= x < |old(files)| && Uses(name, x)
      ensures Valid() && r == OpenAndStat(NONE, q.uniq, q.testDir, env) && Served(name, q, now, false, ok, r, h)
    {
      assert NameOk(S(), name);
      r := OpenAndStat(NONE, q.uniq, q.testDir, env);
      if !r.ok && (r.err == 0 || !q.errors) {
        Failed(x);
        return false, r;
      }
      assert EntryInv(S(), x, x, false);
      ToBlank(S(), x);
      Fill(x, r, q, now, h);
      Found(x, now);
      ok := r.err == 0;
      OwnedFd(S(), name);
    }

    // The entry is fresh.
    method Hit(x: Ref, name: string, q: Request, now: int, ghost h: int) returns (ok: bool, r: Out)
      requires Holding(x, false) && x != NONE && max >= 1 && h !in held && |held| < COUNT_LIMIT - 1
      requires name in tree && tree[name] == x && (Plain(files[x]) ==> files[x].fd != NONE)
      modifies this`files, this`queue, this`held
      ensures Valid() && 0 <= x < |old(files)| && Served(name, q, now, true, ok, r, h) && Uses(name, x)
      ensures var e := old(files[x]); r == if e.err == 0 then Out(true, 0, e.fd, e.uniq, e.isDir) else Out(false, e.err, NONE, q.uniq, false)
    {
      ghost var s := S();
      var e := files[x];
      assert EntryInv(s, x, x, false);
      if e.err == 0 {
        r := Out(true, 0, e.fd, e.uniq, e.isDir);
        if !e.isDir {
          CountBound(s, x);
          var f := e.(count := (e.count + 1) % COUNT_LIMIT);
          HeldMore(s, x, f, h, q.minUses);
          held := held[h := Hold(x, e.fd, q.minUses)];
          files := files[x := f];
        }
      } else {
        r := Out(false, e.err, NONE, q.uniq, false);
      }
      ok := e.err == 0;
      Found(x, now);
      OwnedFd(S(), name);
    }

    // The entry is looked at again.
    method Retest(x: Ref, name: string, q: Request, now: int, env: Env, junk: Entry, ghost h: int) returns (ok: bool, r: Out)
      requires Holding(x, false) && x != NONE && max >= 1 && EnvOk(env, owner) && h !in held && |held| < COUNT_LIMIT - 1
      requires name in tree && tree[name] == x && (Plain(files[x]) ==> files[x].fd != NONE)
      modifies this`files, this`tree, this`queue, this`current, this`owner, this`live, this`held
      ensures 0 <= x < |old(files)| && Served(name, q, now, false, ok, r, h) && Uses(name, x)
      ensures var e := old(files[x]); Valid() <==> !(Plain(e) && env.stat == Info(e.uniq, true))
      ensures !Valid() ==> Spoils(name, x)
      ensures var e := old(files[x]); r == OpenAndStat(e.fd, e.uniq, q.testDir || e.isDir, env)
      ensures Plain(old(files[x])) ==> Disposes(x, r, env)
    {
      var e := files[x];
      assert EntryInv(S(), x, x, false) && NameOk(S(), name);
      r := OpenAndStat(e.fd, e.uniq, q.testDir || e.isDir, env);
      if !r.ok && (r.err == 0 || !q.errors) {
        Failed(x);
        return false, r;
      }
      ok := r.err == 0;
      Settle(x, name, r, q, now, junk, h);
      if Inv(S(), NONE, false) { OwnedFd(S(), name); }
    }

    // What the entry becomes by an answer that is to be kept.
    method Settle(x: Ref, name: string, r: Out, q: Request, now: int, junk: Entry, ghost h: int)
      requires Holding(x, false) && x != NONE && max >= 1 && h !in held && |held| < COUNT_LIMIT - 1 && (r.err != 0 ==> !r.isDir && r.fd == NONE)
      requires name in tree && tree[name] == x && (Plain(files[x]) ==> files[x].fd != NONE)
      requires Usable(r, owner) || (Plain(files[x]) && r.err == 0 && r.fd == files[x].fd && r.uniq == files[x].uniq)
      modifies this`files, this`tree, this`queue, this`current, this`owner, this`live, this`held
      ensures 0 <= x < |old(files)| && (Valid() <==> !(r.fd != NONE && r.isDir)) && Front(name, r, now) && Anew(name, q, now) && Others(name) && Uses(name, x)
      ensures !Valid() ==> Spoils(name, x)
      ensures held == if r.err == 0 && !r.isDir then old(held)[h := Hold(tree[name], r.fd, q.minUses)] else old(held)
      ensures var e := old(files[x]); Plain(e) && r.err == 0 && !r.isDir && r.uniq == e.uniq ==> e.fd in owner && owner[e.fd] == if r.fd != e.fd then NONE else x
      ensures var e := old(files[x]); Plain(e) && !(r.err == 0 && !r.isDir && r.uniq == e.uniq) ==> GivenUp(owner, e.fd, x, e.count)
    {
      var e := files[x];
      assert EntryInv(S(), x, x, false) && NameOk(S(), name);
      if e.isDir || e.err != 0 {
        ToBlank(S(), x);
        Fill(x, r, q, now, h);
        Found(x, now);
      } else if !r.isDir && r.err == 0 && r.uniq == e.uniq {
        Renew(x, r, q, now, h);
        Found(x, now);
      } else {
        Replace(x, name, r, q, now, junk, h);
      }
    }

    // The file was changed, removed or became a directory.
    method Replace(x: Ref, name: string, r: Out, q: Request, now: int, junk: Entry, ghost h: int)
      requires Holding(x, false) && x != NONE && max >= 1 && h !in held && (r.err != 0 ==> !r.isDir)
      requires Usable(r, owner) || (r.err == 0 && r.isDir && r.fd == files[x].fd)
      requires name in tree && tree[name] == x && Plain(files[x]) && files[x].fd != NONE
      modifies this`files, this`tree, this`queue, this`current, this`owner, this`live, this`held
      ensures (Valid() <==> old(Usable(r, owner))) && Front(name, r, now) && Anew(name, q, now) && Others(name)
      ensures !Valid() ==> 0 <= x < |old(files)| && Spoils(name, x)
      ensures 0 <= x < |old(files)| && GivenUp(owner, old(files[x].fd), x, old(files[x].count)) && Uses(name, x)
      ensures held == if r.err == 0 && !r.isDir then old(held)[h := Hold(tree[name], r.fd, q.minUses)] else old(held)
    {
      ghost var s := S();
      assert EntryInv(s, x, x, false) && NameOk(s, name);
      if files[x].count == 0 {
        Closable(s, x, {});
        assert s.held - {} == s.held;
        Blanked(s, x);
        assert s.files[x := s.files[x]] == s.files;
        CloseFile(files[x].fd);
        Fill(x, r, q, now, h);
        Found(x, now);
        if r.fd != NONE && r.isDir { Spoilt(S(), x); }
      } else {
        Detach(s, x);
        LeaveTree(x);
        files := files[x := files[x].(close := true)];
        var y := Create(name, r, q, now, junk, h);
      }
    }
  }
}
