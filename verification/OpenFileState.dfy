/** The state of the open file cache of src/core/ngx_open_file_cache.c: cached entries, the tree and
    the expire queue over them, the outstanding request cleanups and the open descriptors. */
module OpenFileState {
  import opened Basics

  type Ref = int
  type Fd = int
  const NONE := -1

  datatype Entry = Entry(name: string, created: int, accessed: int, fd: Fd, uniq: int, err: nat,
                         uses: nat, count: nat, close: bool, isDir: bool, links: int)

  // A cleanup registered with a request: its entry, the descriptor handed out and min_uses.
  datatype Hold = Hold(file: Ref, fd: Fd, minUses: nat)

  // "live" are the entries not freed; "owner" gives for every open descriptor the entry that will
  // close it, or NONE when no entry will.
  datatype State = State(files: seq<Entry>, tree: map<string, Ref>, queue: seq<Ref>,
                         live: set<Ref>, held: map<int, Hold>, owner: map<Fd, Ref>)

  function Holders(s: State, r: Ref): set<int> {
    set h | h in s.held && s.held[h].file == r
  }

  ghost predicate InTree(s: State, r: Ref)
    requires 0 <= r < |s.files|
  {
    s.files[r].name in s.tree && s.tree[s.files[r].name] == r
  }

  // An entry that stands for a descriptor.
  predicate Plain(e: Entry) { e.err == 0 && !e.isDir }

  // A blank entry is one about to be filled in: its fields mean nothing yet.
  ghost predicate EntryOk(s: State, r: Ref, blank: bool) {
    && 0 <= r < |s.files| && s.files[r].count == |Holders(s, r)|
    && (InTree(s, r) || (s.files[r].count > 0 && s.files[r].close))
    && var e := s.files[r];
    if blank then InTree(s, r) && e.count == 0
    else
      && (e.fd != NONE ==> e.fd in s.owner && s.owner[e.fd] == r)
      && (!Plain(e) ==> e.count == 0 && e.fd == NONE)
      && (e.count > 0 ==> e.fd != NONE)
      && (InTree(s, r) && Plain(e) ==> !e.close)
  }

  ghost predicate EntryInv(s: State, r: Ref, x: Ref, blank: bool) { EntryOk(s, r, blank && r == x) }

  ghost predicate HoldOk(s: State, h: int)
    requires h in s.held
  {
    && s.held[h].file in s.live && s.held[h].fd in s.owner
    && (s.owner[s.held[h].fd] == NONE || s.owner[s.held[h].fd] == s.held[h].file)
  }

  ghost predicate OwnerOk(s: State, d: Fd, x: Ref, blank: bool)
    requires d in s.owner
  {
    && d != NONE
    && (s.owner[d] != NONE ==>
          && s.owner[d] in s.live && 0 <= s.owner[d] < |s.files| && s.files[s.owner[d]].fd == d
          && !(blank && s.owner[d] == x))
  }

  ghost predicate NameOk(s: State, name: string)
    requires name in s.tree
  {
    s.tree[name] in s.live && 0 <= s.tree[name] < |s.files| && s.files[s.tree[name]].name == name
  }

  ghost predicate Queued(s: State, x: Ref, r: Ref) {
    r in s.queue <==> r in s.live && 0 <= r < |s.files| && InTree(s, r) && r != x
  }

  ghost predicate Distinct(q: seq<Ref>) {
    forall i, j :: 0 <= i < j < |q| ==> q[i] != q[j]
  }

  // x is the entry in hand, off the queue, or NONE; "blank" says that it is blank.
  ghost predicate Inv(s: State, x: Ref, blank: bool) {
    && (x != NONE ==> x in s.live && 0 <= x < |s.files| && InTree(s, x))
    && Distinct(s.queue)
    && (forall r {:trigger EntryInv(s, r, x, blank)} :: r in s.live ==> EntryInv(s, r, x, blank))
    && (forall h {:trigger HoldOk(s, h)} :: h in s.held ==> HoldOk(s, h))
    && (forall d {:trigger OwnerOk(s, d, x, blank)} :: d in s.owner ==> OwnerOk(s, d, x, blank))
    && (forall n {:trigger NameOk(s, n)} :: n in s.tree ==> NameOk(s, n))
    && (forall r {:trigger Queued(s, x, r)} :: Queued(s, x, r))
  }

  // Between calls the queue and the tree hold the same entries, every descriptor handed out is open
  // while its cleanup is outstanding, and two entries never share one.
  lemma BetweenCalls(s: State)
    requires Inv(s, NONE, false)
    ensures forall r {:trigger r in s.queue} :: r in s.queue <==> r in s.tree.Values
    ensures forall h {:trigger s.held[h]} :: h in s.held ==> s.held[h].fd in s.owner
    ensures forall r, q {:trigger s.files[r], s.files[q]} :: r in s.live && q in s.live && r != q ==>
      0 <= r < |s.files| && 0 <= q < |s.files| && (s.files[r].fd == s.files[q].fd ==> s.files[r].fd == NONE)
  {
    forall r ensures r in s.queue <==> r in s.tree.Values {
      assert Queued(s, NONE, r);
      if r in s.queue { assert EntryInv(s, r, NONE, false); }
      if r in s.tree.Values {
        var n :| n in s.tree && s.tree[n] == r;
        assert NameOk(s, n);
      }
    }
    forall h | h in s.held ensures s.held[h].fd in s.owner { assert HoldOk(s, h); }
    forall r, q | r in s.live && q in s.live && r != q
      ensures 0 <= r < |s.files| && 0 <= q < |s.files| && (s.files[r].fd == s.files[q].fd ==> s.files[r].fd == NONE)
    {
      assert EntryInv(s, r, NONE, false) && EntryInv(s, q, NONE, false);
    }
  }

  // ---- the queue ----

  function Without(q: seq<Ref>, x: Ref): (r: seq<Ref>)
    ensures forall y :: y in r <==> y in q && y != x
    ensures |r| <= |q|
  {
    if q == [] then [] else if q[0] == x then Without(q[1..], x) else [q[0]] + Without(q[1..], x)
  }

  lemma {:induction false} WithoutDistinct(q: seq<Ref>, x: Ref)
    requires Distinct(q)
    ensures Distinct(Without(q, x))
  {
    if q != [] {
      assert Distinct(q[1..]);
      WithoutDistinct(q[1..], x);
      assert q[0] !in q[1..];
    }
  }

  // Only the queue, and of the entries the times and use counts, differ.
  ghost predicate SameButQueue(s: State, t: State) {
    && |t.files| == |s.files| && t.tree == s.tree && t.live == s.live && t.held == s.held && t.owner == s.owner
    && forall r {:trigger t.files[r]} :: 0 <= r < |s.files| ==>
         t.files[r] == s.files[r].(uses := t.files[r].uses, accessed := t.files[r].accessed)
  }

  lemma SameEntries(s: State, t: State, x: Ref, blank: bool)
    requires Inv(s, x, blank) && SameButQueue(s, t) && Distinct(t.queue)
    requires forall r {:trigger Queued(t, NONE, r)} :: Queued(t, NONE, r)
    requires !blank
    ensures Inv(t, NONE, false)
  {
    forall r | r in t.live ensures EntryInv(t, r, NONE, false) {
      assert EntryInv(s, r, x, false);
      assert Holders(t, r) == Holders(s, r);
    }
    forall h | h in t.held ensures HoldOk(t, h) { assert HoldOk(s, h); }
    forall d | d in t.owner ensures OwnerOk(t, d, NONE, false) { assert OwnerOk(s, d, x, blank); }
    forall n | n in t.tree ensures NameOk(t, n) { assert NameOk(s, n); }
  }

  // Taking entry x off the queue.
  lemma Take(s: State, x: Ref, t: State)
    requires Inv(s, NONE, false) && x in s.live && 0 <= x < |s.files| && InTree(s, x)
    requires SameButQueue(s, t) && t.queue == Without(s.queue, x)
    ensures Inv(t, x, false)
  {
    WithoutDistinct(s.queue, x);
    forall r | r in t.live ensures EntryInv(t, r, x, false) {
      assert EntryInv(s, r, NONE, false);
      assert Holders(t, r) == Holders(s, r);
    }
    forall h | h in t.held ensures HoldOk(t, h) { assert HoldOk(s, h); }
    forall d | d in t.owner ensures OwnerOk(t, d, x, false) { assert OwnerOk(s, d, NONE, false); }
    forall n | n in t.tree ensures NameOk(t, n) { assert NameOk(s, n); }
    forall r ensures Queued(t, x, r) { assert Queued(s, NONE, r); }
  }

  // Putting it back at the head.
  lemma Put(s: State, x: Ref, t: State)
    requires Inv(s, x, false) && x != NONE && SameButQueue(s, t) && t.queue == [x] + s.queue
    ensures Inv(t, NONE, false)
  {
    assert Queued(s, x, x);
    forall r ensures Queued(t, NONE, r) { assert Queued(s, x, r); }
    SameEntries(s, t, x, false);
  }

  // ---- entries change ----

  // Entry x becomes e; the descriptors and cleanups are as given; the tree and the queue stay.
  function Changed(s: State, x: Ref, e: Entry, held: map<int, Hold>, owner: map<Fd, Ref>): State
    requires 0 <= x < |s.files|
  {
    State(s.files[x := e], s.tree, s.queue, s.live, held, owner)
  }

  // The cleanups of the other entries and the ownership of their descriptors stay.
  ghost predicate OthersSame(s: State, x: Ref, held: map<int, Hold>, owner: map<Fd, Ref>) {
    && (forall h {:trigger h in held} {:trigger h in s.held} ::
          ((h in held && held[h].file != x) <==> (h in s.held && s.held[h].file != x)))
    && (forall h {:trigger held[h]} {:trigger s.held[h]} :: h in held && h in s.held && s.held[h].file != x ==> held[h] == s.held[h])
    && (forall d {:trigger d in owner} {:trigger owner[d]} {:trigger s.owner[d]} ::
          d in s.owner && s.owner[d] != x ==> d in owner && owner[d] == s.owner[d])
    && (forall d {:trigger d in owner} {:trigger owner[d]} ::
          d in owner && owner[d] != x && owner[d] != NONE ==> d in s.owner && s.owner[d] == owner[d])
  }

  lemma OtherEntry(s: State, x: Ref, b: bool, e: Entry, held: map<int, Hold>, owner: map<Fd, Ref>, r: Ref)
    requires Inv(s, x, b) && x != NONE && OthersSame(s, x, held, owner) && e.name == s.files[x].name
    requires r in s.live && r != x
    ensures EntryOk(Changed(s, x, e, held, owner), r, false)
  {
    var t := Changed(s, x, e, held, owner);
    assert EntryInv(s, r, x, b);
    forall h ensures h in Holders(t, r) <==> h in Holders(s, r) {
      if h in held && h in s.held && s.held[h].file != x { assert held[h] == s.held[h]; }
      assert h in held && held[h].file != x <==> h in s.held && s.held[h].file != x;
    }
    assert Holders(t, r) == Holders(s, r);
    if s.files[r].fd != NONE { assert s.owner[s.files[r].fd] == r; }
  }

  lemma OtherHold(s: State, x: Ref, b: bool, e: Entry, held: map<int, Hold>, owner: map<Fd, Ref>, h: int)
    requires Inv(s, x, b) && x != NONE && OthersSame(s, x, held, owner)
    requires h in held && held[h].file != x
    ensures HoldOk(Changed(s, x, e, held, owner), h)
  {
    assert h in s.held && HoldOk(s, h) && held[h] == s.held[h];
  }

  lemma OtherOwner(s: State, x: Ref, b: bool, e: Entry, held: map<int, Hold>, owner: map<Fd, Ref>, d: Fd)
    requires Inv(s, x, b) && x != NONE && OthersSame(s, x, held, owner)
    requires d in owner && owner[d] != x && owner[d] != NONE
    ensures OwnerOk(Changed(s, x, e, held, owner), d, x, false)
  {
    assert d in s.owner && OwnerOk(s, d, x, b);
  }

  // The invariant after a change of entry x, from what concerns x alone.
  lemma Change(s: State, x: Ref, b: bool, e: Entry, held: map<int, Hold>, owner: map<Fd, Ref>, b': bool)
    requires Inv(s, x, b) && x != NONE && OthersSame(s, x, held, owner) && e.name == s.files[x].name
    requires var t := Changed(s, x, e, held, owner);
      && EntryOk(t, x, b')
      && (forall h {:trigger HoldOk(t, h)} :: h in held && held[h].file == x ==> HoldOk(t, h))
      && (forall d {:trigger OwnerOk(t, d, x, b')} :: d in owner && (owner[d] == x || owner[d] == NONE) ==> OwnerOk(t, d, x, b'))
    ensures Inv(Changed(s, x, e, held, owner), x, b')
  {
    var t := Changed(s, x, e, held, owner);
    forall r | r in t.live ensures EntryInv(t, r, x, b') {
      if r != x { OtherEntry(s, x, b, e, held, owner, r); }
    }
    forall h | h in t.held ensures HoldOk(t, h) {
      if held[h].file != x { OtherHold(s, x, b, e, held, owner, h); }
    }
    forall d | d in t.owner ensures OwnerOk(t, d, x, b') {
      if owner[d] != x && owner[d] != NONE { OtherOwner(s, x, b, e, held, owner, d); }
    }
    forall n | n in t.tree ensures NameOk(t, n) { assert NameOk(s, n); }
    forall r ensures Queued(t, x, r) { assert Queued(s, x, r); }
  }

  // ---- the changes ----

  // The entry is no longer to be trusted: it has no cleanups, and its descriptor was closed.
  lemma Blanked(s: State, x: Ref)
    requires Inv(s, x, false) && x != NONE && s.files[x].count == 0
    ensures Inv(Changed(s, x, s.files[x], s.held, s.owner - {s.files[x].fd}), x, true)
  {
    assert EntryInv(s, x, x, false);
    var e := s.files[x];
    var owner := s.owner - {e.fd};
    var t := Changed(s, x, e, s.held, owner);
    assert t.files == s.files;
    assert Holders(t, x) == Holders(s, x);
    NoHolders(s, x);
    forall d | d in owner && (owner[d] == x || owner[d] == NONE) ensures OwnerOk(t, d, x, true) {
      assert OwnerOk(s, d, x, false);
    }
    assert e.fd in s.owner ==> OwnerOk(s, e.fd, x, false);
    Change(s, x, false, e, s.held, owner, true);
  }

  lemma NoHolders(s: State, x: Ref)
    requires |Holders(s, x)| == 0
    ensures forall h :: h in s.held ==> s.held[h].file != x
  {
    forall h | h in s.held ensures s.held[h].file != x { assert h !in Holders(s, x); }
  }

  // A blank entry gets a directory or an error, without descriptor and cleanup.
  lemma FilledPlainly(s: State, x: Ref, e: Entry)
    requires Inv(s, x, true) && x != NONE && e.name == s.files[x].name && e.count == 0 && e.fd == NONE && !Plain(e)
    ensures Inv(Changed(s, x, e, s.held, s.owner), x, false)
  {
    var t := Changed(s, x, e, s.held, s.owner);
    assert EntryInv(s, x, x, true);
    assert Holders(t, x) == Holders(s, x);
    NoHolders(s, x);
    forall d | d in s.owner && (s.owner[d] == x || s.owner[d] == NONE) ensures OwnerOk(t, d, x, false) {
      assert OwnerOk(s, d, x, true);
    }
    Change(s, x, true, e, s.held, s.owner, false);
  }

  // A blank entry gets a descriptor just opened and its first cleanup.
  lemma Filled(s: State, x: Ref, e: Entry, h: int, min: nat)
    requires Inv(s, x, true) && x != NONE && e.name == s.files[x].name && e.count == 1 && Plain(e) && !e.close
    requires e.fd != NONE && e.fd !in s.owner && h !in s.held
    ensures Inv(Changed(s, x, e, s.held[h := Hold(x, e.fd, min)], s.owner[e.fd := x]), x, false)
  {
    var held, owner := s.held[h := Hold(x, e.fd, min)], s.owner[e.fd := x];
    var t := Changed(s, x, e, held, owner);
    assert EntryInv(s, x, x, true);
    NoHolders(s, x);
    assert Holders(t, x) == {h};
    forall d | d in owner && (owner[d] == x || owner[d] == NONE) ensures OwnerOk(t, d, x, false) {
      assert d in s.owner ==> OwnerOk(s, d, x, true);
    }
    Change(s, x, true, e, held, owner, false);
  }

  // One cleanup more for the descriptor of the entry.
  lemma HeldMore(s: State, x: Ref, e: Entry, h: int, min: nat)
    requires Inv(s, x, false) && x != NONE && h !in s.held && Plain(s.files[x]) && s.files[x].fd != NONE
    requires e.name == s.files[x].name && e.count == s.files[x].count + 1 && e.fd == s.files[x].fd && Plain(e) && !e.close
    ensures Inv(Changed(s, x, e, s.held[h := Hold(x, e.fd, min)], s.owner), x, false)
  {
    var held := s.held[h := Hold(x, e.fd, min)];
    var t := Changed(s, x, e, held, s.owner);
    assert EntryInv(s, x, x, false);
    assert Holders(t, x) == Holders(s, x) + {h};
    forall g | g in held && held[g].file == x ensures HoldOk(t, g) { assert g in s.held ==> HoldOk(s, g); }
    forall d | d in s.owner && (s.owner[d] == x || s.owner[d] == NONE) ensures OwnerOk(t, d, x, false) {
      assert OwnerOk(s, d, x, false);
    }
    Change(s, x, false, e, held, s.owner, false);
  }

  // The same with another descriptor for the same file; nobody will close the old one.
  lemma HeldAnew(s: State, x: Ref, e: Entry, h: int, min: nat)
    requires Inv(s, x, false) && x != NONE && h !in s.held && Plain(s.files[x]) && s.files[x].fd != NONE
    requires e.name == s.files[x].name && e.count == s.files[x].count + 1 && e.fd != NONE && e.fd !in s.owner && Plain(e) && !e.close
    ensures Inv(Changed(s, x, e, s.held[h := Hold(x, e.fd, min)], s.owner[s.files[x].fd := NONE][e.fd := x]), x, false)
  {
    var held, owner := s.held[h := Hold(x, e.fd, min)], s.owner[s.files[x].fd := NONE][e.fd := x];
    var t := Changed(s, x, e, held, owner);
    assert EntryInv(s, x, x, false);
    assert Holders(t, x) == Holders(s, x) + {h};
    forall g | g in held && held[g].file == x ensures HoldOk(t, g) {
      assert g in s.held ==> HoldOk(s, g);
      if g in s.held { assert s.owner[held[g].fd] == x ==> OwnerOk(s, held[g].fd, x, false); }
    }
    forall d | d in owner && (owner[d] == x || owner[d] == NONE) ensures OwnerOk(t, d, x, false) {
      assert d in s.owner ==> OwnerOk(s, d, x, false);
    }
    Change(s, x, false, e, held, owner, false);
  }

  // ---- entries come and go ----

  // An entry leaves the tree while requests still use its descriptor.
  function Detached(s: State, x: Ref): State
    requires 0 <= x < |s.files|
  {
    s.(files := s.files[x := s.files[x].(close := true)], tree := s.tree - {s.files[x].name})
  }

  lemma Detach(s: State, x: Ref)
    requires Inv(s, x, false) && x != NONE && s.files[x].count > 0
    ensures Inv(Detached(s, x), NONE, false)
  {
    var t := Detached(s, x);
    forall r | r in t.live ensures EntryInv(t, r, NONE, false) {
      assert EntryInv(s, r, x, false);
      assert Holders(t, r) == Holders(s, r);
    }
    forall h | h in t.held ensures HoldOk(t, h) { assert HoldOk(s, h); }
    forall d | d in t.owner ensures OwnerOk(t, d, NONE, false) { assert OwnerOk(s, d, x, false); }
    forall n | n in t.tree ensures NameOk(t, n) { assert NameOk(s, n); }
    forall r ensures Queued(t, NONE, r) { assert Queued(s, x, r); }
  }

  // A blank entry leaves the tree and is freed; e is what its memory holds then.
  function Freed(s: State, x: Ref, e: Entry): State
    requires 0 <= x < |s.files|
  {
    s.(files := s.files[x := e], tree := s.tree - {s.files[x].name}, live := s.live - {x})
  }

  lemma Free(s: State, x: Ref, e: Entry)
    requires Inv(s, x, true) && x != NONE
    ensures Inv(Freed(s, x, e), NONE, false)
  {
    var t := Freed(s, x, e);
    assert EntryInv(s, x, x, true);
    NoHolders(s, x);
    forall r | r in t.live ensures EntryInv(t, r, NONE, false) {
      assert EntryInv(s, r, x, true);
      assert Holders(t, r) == Holders(s, r);
    }
    forall h | h in t.held ensures HoldOk(t, h) { assert HoldOk(s, h); }
    forall d | d in t.owner ensures OwnerOk(t, d, NONE, false) { assert OwnerOk(s, d, x, true); }
    forall n | n in t.tree ensures NameOk(t, n) { assert NameOk(s, n); }
    forall r ensures Queued(t, NONE, r) { assert Queued(s, x, r); }
  }

  // A new entry, its fields not filled in yet.
  function Added(s: State, e: Entry): State {
    s.(files := s.files + [e], tree := s.tree[e.name := |s.files|], live := s.live + {|s.files|})
  }

  lemma Add(s: State, e: Entry)
    requires Inv(s, NONE, false) && e.name !in s.tree && e.count == 0 && |s.files| !in s.live
    ensures Inv(Added(s, e), |s.files|, true)
  {
    var t, x := Added(s, e), |s.files|;
    forall r | r in t.live ensures EntryInv(t, r, x, true) {
      assert Holders(t, r) == Holders(s, r);
      if r != x {
        assert EntryInv(s, r, NONE, false);
      } else {
        forall h | h in s.held ensures s.held[h].file != x { assert HoldOk(s, h); }
        assert Holders(t, x) == {};
      }
    }
    forall h | h in t.held ensures HoldOk(t, h) { assert HoldOk(s, h); }
    forall d | d in t.owner ensures OwnerOk(t, d, x, true) { assert OwnerOk(s, d, NONE, false); }
    forall n | n in t.tree ensures NameOk(t, n) { assert n in s.tree ==> NameOk(s, n); }
    forall r ensures Queued(t, x, r) { assert Queued(s, NONE, r); }
  }

  // ---- cleanups ----

  // One cleanup less for an entry in the tree.
  lemma HeldLess(s: State, x: Ref, h: int)
    requires Inv(s, x, false) && x != NONE && h in s.held && s.held[h].file == x
    ensures s.files[x].count > 0
    ensures Inv(Changed(s, x, s.files[x].(count := s.files[x].count - 1), s.held - {h}, s.owner), x, false)
  {
    assert EntryInv(s, x, x, false);
    assert h in Holders(s, x);
    var e, held := s.files[x].(count := s.files[x].count - 1), s.held - {h};
    var t := Changed(s, x, e, held, s.owner);
    assert Holders(t, x) == Holders(s, x) - {h};
    forall g | g in held && held[g].file == x ensures HoldOk(t, g) { assert HoldOk(s, g); }
    forall d | d in s.owner && (s.owner[d] == x || s.owner[d] == NONE) ensures OwnerOk(t, d, x, false) {
      assert OwnerOk(s, d, x, false);
    }
    Change(s, x, false, e, held, s.owner, false);
  }

  // An entry without cleanups lets its descriptor go and stays in the tree.
  lemma ClosedUp(s: State, x: Ref)
    requires Inv(s, x, false) && x != NONE && s.files[x].count == 0
    ensures Inv(Changed(s, x, s.files[x].(fd := NONE), s.held, s.owner - {s.files[x].fd}), x, false)
  {
    var e, owner := s.files[x].(fd := NONE), s.owner - {s.files[x].fd};
    var t := Changed(s, x, e, s.held, owner);
    assert EntryInv(s, x, x, false);
    assert Holders(t, x) == Holders(s, x);
    NoHolders(s, x);
    assert s.files[x].fd in s.owner ==> OwnerOk(s, s.files[x].fd, x, false);
    forall d | d in owner && (owner[d] == x || owner[d] == NONE) ensures OwnerOk(t, d, x, false) {
      assert OwnerOk(s, d, x, false);
    }
    Change(s, x, false, e, s.held, owner, false);
  }

  // A cleanup of an entry that has left the tree; the last one closes and frees it.
  function Let(s: State, h: int, e: Entry): State
    requires h in s.held && 0 <= s.held[h].file < |s.files|
  {
    var x := s.held[h].file;
    var t := s.(files := s.files[x := e], held := s.held - {h});
    if s.files[x].count > 1 then t else t.(live := s.live - {x}, owner := s.owner - {s.files[x].fd})
  }

  lemma LetGo(s: State, h: int, e: Entry)
    requires Inv(s, NONE, false) && h in s.held && 0 <= s.held[h].file < |s.files| && !InTree(s, s.held[h].file)
    requires var f := s.files[s.held[h].file]; f.count > 1 ==> e == f.(count := f.count - 1)
    ensures Inv(Let(s, h, e), NONE, false)
  {
    var x, t := s.held[h].file, Let(s, h, e);
    assert HoldOk(s, h) && EntryInv(s, x, NONE, false);
    assert h in Holders(s, x);
    forall r | r in t.live ensures EntryInv(t, r, NONE, false) { LetEntry(s, h, e, r); }
    forall g | g in t.held ensures HoldOk(t, g) { LetHold(s, h, e, g); }
    forall d | d in t.owner ensures OwnerOk(t, d, NONE, false) { assert OwnerOk(s, d, NONE, false); }
    forall n | n in t.tree ensures NameOk(t, n) { assert NameOk(s, n); }
    forall r ensures Queued(t, NONE, r) { assert Queued(s, NONE, r); }
  }

  lemma LetEntry(s: State, h: int, e: Entry, r: Ref)
    requires Inv(s, NONE, false) && h in s.held && 0 <= s.held[h].file < |s.files| && !InTree(s, s.held[h].file)
    requires var f := s.files[s.held[h].file]; f.count > 1 ==> e == f.(count := f.count - 1)
    requires r in Let(s, h, e).live
    ensures EntryInv(Let(s, h, e), r, NONE, false)
  {
    var x, t := s.held[h].file, Let(s, h, e);
    assert EntryInv(s, r, NONE, false) && HoldOk(s, h) && EntryInv(s, x, NONE, false);
    assert h in Holders(s, x);
    assert r != x ==> Holders(t, r) == Holders(s, r);
    assert r == x ==> Holders(t, r) == Holders(s, r) - {h};
  }

  lemma LetHold(s: State, h: int, e: Entry, g: int)
    requires Inv(s, NONE, false) && h in s.held && 0 <= s.held[h].file < |s.files| && !InTree(s, s.held[h].file)
    requires g in s.held && g != h
    ensures HoldOk(Let(s, h, e), g)
  {
    var x := s.held[h].file;
    assert HoldOk(s, g) && HoldOk(s, h) && EntryInv(s, x, NONE, false);
    assert h in Holders(s, x);
    if s.files[x].count == 1 {
      OneHolder(Holders(s, x), h);
      assert g !in Holders(s, x);
    }
  }

  lemma OneHolder(a: set<int>, h: int)
    requires h in a && |a| == 1
    ensures a == {h}
  {
    var b := a - {h};
    assert |b| == 0;
  }

  // ---- closing ----

  // No outstanding cleanup stands for the descriptor.
  ghost predicate Unheld(held: map<int, Hold>, d: Fd) {
    forall h {:trigger held[h]} :: h in held ==> held[h].fd != d
  }

  lemma Closable(s: State, x: Ref, but: set<int>)
    requires Inv(s, NONE, false) || Inv(s, x, false)
    requires x in s.live && 0 <= x < |s.files| && s.files[x].fd != NONE && Holders(s, x) <= but
    ensures s.files[x].fd in s.owner && Unheld(s.held - but, s.files[x].fd)
  {
    var y := if Inv(s, NONE, false) then NONE else x;
    assert EntryInv(s, x, y, false);
    forall h | h in s.held - but ensures s.held[h].fd != s.files[x].fd {
      assert HoldOk(s, h);
      assert s.held[h].file == x ==> h in Holders(s, x);
    }
  }

  lemma CountBound(s: State, r: Ref)
    ensures |Holders(s, r)| <= |s.held|
  {
    SubsetSize(Holders(s, r), s.held.Keys);
  }
}
