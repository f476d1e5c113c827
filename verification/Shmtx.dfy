/** The shared-memory mutex of src/core/ngx_shmtx.c: atomic operations with a POSIX semaphore. */
module Shmtx {

  type Pid = p: int | 0 < p witness 1

  // The next atomic operation of a process; "reg" says it has added itself to the wait count.
  datatype Pc =
    | Idle
    | TryRead                 // ngx_shmtx_trylock
    | TryCas
    | Read(reg: bool)         // ngx_shmtx_lock: test of *mtx->lock
    | Cas(reg: bool)
    | Register                // ngx_atomic_fetch_add(mtx->wait, 1)
    | Deregister              // lock taken, ngx_atomic_fetch_add(mtx->wait, -1)
    | SemWait
    | Critical                // lock held; the next operation is the unlocking exchange
    | WakeRead                // ngx_shmtx_wakeup
    | WakeCas(seen: int)
    | Post
  {
    predicate Holding() { Deregister? || Critical? }
    predicate Waiter() { (Read? && reg) || (Cas? && reg) || Deregister? || SemWait? }
    predicate Active() { !Idle? && !SemWait? }
  }

  datatype State = State(lock: int, wait: int, sem: nat, pc: map<Pid, Pc>)

  ghost predicate Init(s: State) {
    s.lock == 0 && s.wait == 0 && s.sem == 0 && forall p :: p in s.pc ==> s.pc[p] == Idle
  }

  function Goto(s: State, p: Pid, c: Pc): State { s.(pc := s.pc[p := c]) }

  // One atomic step of process p. A failed test of the lock in the spinning phase may be
  // repeated or may end the phase.
  ghost predicate Step(s: State, t: State, p: Pid)
    requires p in s.pc
  {
    match s.pc[p]
    case Idle => t == Goto(s, p, Read(false)) || t == Goto(s, p, TryRead)
    case TryRead => t == Goto(s, p, if s.lock == 0 then TryCas else Idle)
    case TryCas => t == if s.lock == 0 then Goto(s, p, Critical).(lock := p) else Goto(s, p, Idle)
    case Read(false) =>
      if s.lock == 0 then t == Goto(s, p, Cas(false))
      else t == s || t == Goto(s, p, Register)
    case Cas(false) =>
      if s.lock == 0 then t == Goto(s, p, Critical).(lock := p)
      else t == Goto(s, p, Read(false)) || t == Goto(s, p, Register)
    case Register => t == Goto(s, p, Read(true)).(wait := s.wait + 1)
    case Read(true) => t == Goto(s, p, if s.lock == 0 then Cas(true) else SemWait)
    case Cas(true) => t == if s.lock == 0 then Goto(s, p, Deregister).(lock := p) else Goto(s, p, SemWait)
    case Deregister => t == Goto(s, p, Critical).(wait := s.wait - 1)
    case SemWait => s.sem > 0 && t == Goto(s, p, Read(false)).(sem := s.sem - 1)
    case Critical => t == if s.lock == p then Goto(s, p, WakeRead).(lock := 0) else Goto(s, p, Idle)
    case WakeRead => t == Goto(s, p, if s.wait <= 0 then Idle else WakeCas(s.wait))
    case WakeCas(w) => t == if s.wait == w then Goto(s, p, Post).(wait := w - 1) else Goto(s, p, WakeRead)
    case Post => t == Goto(s, p, Idle).(sem := s.sem + 1)
  }

  // A process can always go on, but for one that waits at a semaphore without a token.
  lemma OnlySemWaits(s: State, p: Pid)
    requires p in s.pc
    ensures (exists t :: Step(s, t, p)) <==> !(s.pc[p] == SemWait && s.sem == 0)
  {
    var c := s.pc[p];
    if c != SemWait || s.sem > 0 {
      var t := Taken(s, p);
      assert Step(s, t, p);
    }
  }

  // The step that ends a phase of spinning, where there is a choice.
  function Taken(s: State, p: Pid): State
    requires p in s.pc
  {
    match s.pc[p]
    case Idle => Goto(s, p, Read(false))
    case TryRead => Goto(s, p, if s.lock == 0 then TryCas else Idle)
    case TryCas => if s.lock == 0 then Goto(s, p, Critical).(lock := p) else Goto(s, p, Idle)
    case Read(false) => Goto(s, p, if s.lock == 0 then Cas(false) else Register)
    case Cas(false) => if s.lock == 0 then Goto(s, p, Critical).(lock := p) else Goto(s, p, Register)
    case Register => Goto(s, p, Read(true)).(wait := s.wait + 1)
    case Read(true) => Goto(s, p, if s.lock == 0 then Cas(true) else SemWait)
    case Cas(true) => if s.lock == 0 then Goto(s, p, Deregister).(lock := p) else Goto(s, p, SemWait)
    case Deregister => Goto(s, p, Critical).(wait := s.wait - 1)
    case SemWait => Goto(s, p, Read(false)).(sem := if s.sem > 0 then s.sem - 1 else 0)
    case Critical => if s.lock == p then Goto(s, p, WakeRead).(lock := 0) else Goto(s, p, Idle)
    case WakeRead => Goto(s, p, if s.wait <= 0 then Idle else WakeCas(s.wait))
    case WakeCas(w) => if s.wait == w then Goto(s, p, Post).(wait := w - 1) else Goto(s, p, WakeRead)
    case Post => Goto(s, p, Idle).(sem := s.sem + 1)
  }

  ghost predicate Next(s: State, t: State) {
    exists p: Pid :: p in s.pc && Step(s, t, p)
  }

  ghost function Waiters(s: State): set<Pid> { set p | p in s.pc && s.pc[p].Waiter() }
  ghost function Posters(s: State): set<Pid> { set p | p in s.pc && s.pc[p].Post? }

  ghost predicate Exclusive(s: State) {
    && (s.lock == 0 || s.lock in s.pc)
    && forall p {:trigger s.pc[p]} :: p in s.pc ==> (s.pc[p].Holding() <==> s.lock == p)
  }

  // Every registered waiter is matched by a unit of the wait count, by a token of the semaphore,
  // or by a post that is under way.
  ghost predicate Accounted(s: State) {
    s.wait + s.sem + |Posters(s)| == |Waiters(s)|
  }

  ghost predicate NotStranded(s: State) {
    s.lock == 0 && s.sem == 0 && (exists p :: p in s.pc && s.pc[p].SemWait?)
    ==> exists q :: q in s.pc && s.pc[q].Active()
  }

  ghost predicate Inv(s: State) {
    Exclusive(s) && Accounted(s) && NotStranded(s)
  }

  lemma InitInv(s: State)
    requires Init(s)
    ensures Inv(s)
  {
    assert Waiters(s) == {} && Posters(s) == {};
  }

  // How one step of p changes the two counted sets.
  lemma SetsAfter(s: State, p: Pid, c: Pc, t: State)
    requires p in s.pc && t.pc == s.pc[p := c]
    ensures Waiters(t) == if c.Waiter() then Waiters(s) + {p} else Waiters(s) - {p}
    ensures Posters(t) == if c.Post? then Posters(s) + {p} else Posters(s) - {p}
    ensures |Waiters(t)| - |Waiters(s)| == (if c.Waiter() then 1 else 0) - (if s.pc[p].Waiter() then 1 else 0)
    ensures |Posters(t)| - |Posters(s)| == (if c.Post? then 1 else 0) - (if s.pc[p].Post? then 1 else 0)
  {
    assert Waiters(t) == if c.Waiter() then Waiters(s) + {p} else Waiters(s) - {p};
    assert Posters(t) == if c.Post? then Posters(s) + {p} else Posters(s) - {p};
    OneMoreOrLess(Waiters(s), p);
    OneMoreOrLess(Posters(s), p);
  }

  lemma OneMoreOrLess(a: set<Pid>, p: Pid)
    ensures |a + {p}| == if p in a then |a| else |a| + 1
    ensures |a - {p}| == if p in a then |a| - 1 else |a|
  {
    if p in a {
      assert a + {p} == a;
      assert a == (a - {p}) + {p};
    } else {
      assert a - {p} == a;
    }
  }

  lemma StepAccounted(s: State, t: State, p: Pid)
    requires Inv(s) && p in s.pc && Step(s, t, p)
    ensures Accounted(t)
  {
    if t != s { SetsAfter(s, p, t.pc[p], t); }
  }

  lemma StepExclusive(s: State, t: State, p: Pid)
    requires Inv(s) && p in s.pc && Step(s, t, p)
    ensures Exclusive(t)
  {
  }

  lemma StepNotStranded(s: State, t: State, p: Pid)
    requires Inv(s) && p in s.pc && Step(s, t, p)
    ensures NotStranded(t)
  {
    if t.lock == 0 && t.sem == 0 && t != s && !t.pc[p].Active() && exists q :: q in t.pc && t.pc[q].SemWait? {
      var q :| q in t.pc && t.pc[q].SemWait?;
      if s.pc[p].WakeRead? {
        assert q in Waiters(s);
        assert |Waiters(s)| > 0;
        var r :| r in Posters(s);
        assert t.pc[r].Active();
      }
    }
  }

  lemma StepInv(s: State, t: State)
    requires Inv(s) && Next(s, t)
    ensures Inv(t)
  {
    var p: Pid :| p in s.pc && Step(s, t, p);
    StepExclusive(s, t, p);
    StepAccounted(s, t, p);
    StepNotStranded(s, t, p);
  }

  ghost predicate Linked(run: seq<State>, i: int)
    requires 0 <= i < |run| - 1
  {
    Next(run[i], run[i + 1])
  }

  ghost predicate IsRun(run: seq<State>) {
    |run| > 0 && forall i {:trigger Linked(run, i)} :: 0 <= i < |run| - 1 ==> Linked(run, i)
  }

  // Every state of every run from an initial state.
  lemma {:induction false} RunInv(run: seq<State>, k: nat)
    requires IsRun(run) && Init(run[0]) && k < |run|
    ensures Inv(run[k])
  {
    if k == 0 {
      InitInv(run[0]);
    } else {
      RunInv(run, k - 1);
      assert Linked(run, k - 1);
      StepInv(run[k - 1], run[k]);
    }
  }

  lemma MutualExclusion(run: seq<State>, k: nat, p: Pid, q: Pid)
    requires IsRun(run) && Init(run[0]) && k < |run|
    requires p in run[k].pc && q in run[k].pc && run[k].pc[p].Holding() && run[k].pc[q].Holding()
    ensures p == q
  {
    RunInv(run, k);
  }

  // ---- what a call answers ----

  // Process p makes step j of the run.
  ghost predicate Acts(run: seq<State>, j: nat, p: Pid) {
    j + 1 < |run| && p in run[j].pc && Step(run[j], run[j + 1], p)
  }

  // A step of another process leaves p where it is.
  lemma OthersStep(s: State, t: State, p: Pid)
    requires p in s.pc && Next(s, t)
    ensures p in t.pc && (t.pc[p] == s.pc[p] || Step(s, t, p))
  {
  }

  // Where a process is inside a call from state i to state k, which may be the first after its return.
  ghost predicate Within(run: seq<State>, i: nat, k: nat, p: Pid, inside: Pc -> bool) {
    i <= k < |run| && forall j {:trigger run[j]} :: i <= j < k ==> p in run[j].pc && inside(run[j].pc[p])
  }

  ghost predicate Trying(c: Pc) { c.TryRead? || c.TryCas? }

  // A process that has begun ngx_shmtx_trylock is at its first operation up to state a.
  lemma {:induction false} TryReads(run: seq<State>, i: nat, k: nat, p: Pid) returns (a: nat)
    requires IsRun(run) && Within(run, i, k, p, Trying) && i < k && run[i].pc[p] == TryRead
    ensures i <= a < k && forall j {:trigger run[j]} :: i <= j <= a ==> p in run[j].pc && run[j].pc[p] == TryRead
    ensures forall j {:trigger Acts(run, j, p)} :: i <= j < a ==> !Acts(run, j, p)
    ensures a + 1 < k ==> Acts(run, a, p) && run[a + 1].pc[p] != TryRead
    decreases k - i
  {
    a := i;
    if i + 1 < k {
      assert Linked(run, i);
      OthersStep(run[i], run[i + 1], p);
      assert Trying(run[i + 1].pc[p]);
      if run[i + 1].pc[p] == TryRead {
        a := TryReads(run, i + 1, k, p);
        assert !Acts(run, i, p);
      }
    }
  }

  // Before its second operation it stays there.
  lemma {:induction false} TryStays(run: seq<State>, b: nat, k: nat, p: Pid)
    requires IsRun(run) && Within(run, b, k, p, Trying) && b < k && run[b].pc[p] == TryCas
    ensures forall j {:trigger run[j]} :: b <= j < k ==> run[j].pc[p] == TryCas
    ensures forall j {:trigger Acts(run, j, p)} :: b <= j < k - 1 ==> !Acts(run, j, p)
    decreases k - b
  {
    if b + 1 < k {
      assert Linked(run, b);
      OthersStep(run[b], run[b + 1], p);
      assert Trying(run[b + 1].pc[p]);
      TryStays(run, b + 1, k, p);
      assert !Acts(run, b, p);
    }
  }

  // ngx_shmtx_trylock from its first operation to its return: at most two steps of its own, at a and
  // before k, and never among the waiters. It returns with the lock exactly if the lock word was 0 at
  // both, and without it otherwise.
  lemma TryLock(run: seq<State>, i: nat, k: nat, p: Pid) returns (a: nat)
    requires IsRun(run) && Within(run, i, k, p, Trying) && i < k && run[i].pc[p] == TryRead
    requires p in run[k].pc && !Trying(run[k].pc[p])
    ensures i <= a < k
    ensures forall j {:trigger Acts(run, j, p)} :: i <= j < k ==> (Acts(run, j, p) <==> j == a || j == k - 1)
    ensures forall j {:trigger run[j]} :: i <= j < k ==> !run[j].pc[p].Waiter() && !run[j].pc[p].SemWait? && !run[j].pc[p].Holding()
    ensures if run[a].lock == 0 && run[k - 1].lock == 0 then a < k - 1 && run[k].pc[p] == Critical && run[k].lock == p
      else run[k].pc[p] == Idle && run[k].lock == run[k - 1].lock
    ensures run[a].lock != 0 <==> a == k - 1
  {
    a := TryReads(run, i, k, p);
    assert Linked(run, k - 1);
    OthersStep(run[k - 1], run[k], p);
    assert Trying(run[k - 1].pc[p]);
    assert Acts(run, k - 1, p);
    if a + 1 < k {
      assert Trying(run[a + 1].pc[p]);
      TryStays(run, a + 1, k, p);
    }
  }

  ghost predicate Locking(c: Pc) { c.Read? || c.Cas? || c.Register? || c.SemWait? || c.Deregister? }

  // ngx_shmtx_lock returns only with the lock.
  lemma LockHolds(run: seq<State>, i: nat, k: nat, p: Pid)
    requires IsRun(run) && Init(run[0]) && Within(run, i, k, p, Locking) && i < k
    requires p in run[k].pc && !Locking(run[k].pc[p])
    ensures run[k].pc[p] == Critical && run[k].lock == p
  {
    assert Linked(run, k - 1);
    OthersStep(run[k - 1], run[k], p);
    assert Locking(run[k - 1].pc[p]);
    RunInv(run, k);
  }

  ghost predicate Unlocking(c: Pc) { c.Critical? || c.WakeRead? || c.WakeCas? || c.Post? }

  // ngx_shmtx_unlock by the holder returns without it.
  lemma UnlockReleases(run: seq<State>, i: nat, k: nat, p: Pid)
    requires IsRun(run) && Init(run[0]) && Within(run, i, k, p, Unlocking) && i < k && run[i].pc[p] == Critical
    requires p in run[k].pc && !Unlocking(run[k].pc[p])
    ensures run[k].pc[p] == Idle && run[k].lock != p
  {
    assert Linked(run, k - 1);
    OthersStep(run[k - 1], run[k], p);
    assert Unlocking(run[k - 1].pc[p]);
    RunInv(run, k - 1);
    RunInv(run, k);
  }

  // ---- no reachable state is a trap: every process in ngx_shmtx_lock can still get the lock ----

  ghost predicate Reaches(s: State, t: State) {
    exists run :: IsRun(run) && run[0] == s && run[|run| - 1] == t
  }

  lemma ReachSelf(s: State)
    ensures Reaches(s, s)
  {
    assert IsRun([s]);
  }

  lemma ReachStep(s: State, t: State, p: Pid)
    requires p in s.pc && Step(s, t, p)
    ensures Reaches(s, t)
  {
    var run := [s, t];
    assert IsRun(run);
  }

  lemma ReachTrans(s: State, t: State, u: State)
    requires Reaches(s, t) && Reaches(t, u)
    ensures Reaches(s, u)
  {
    var a :| IsRun(a) && a[0] == s && a[|a| - 1] == t;
    var b :| IsRun(b) && b[0] == t && b[|b| - 1] == u;
    var run := a + b[1..];
    forall i | 0 <= i < |run| - 1 ensures Linked(run, i) {
      if i + 1 < |a| {
        assert Linked(a, i);
      } else {
        assert Linked(b, i - (|a| - 1));
      }
    }
    assert IsRun(run);
    assert run[|run| - 1] == u;
  }

  lemma {:induction false} ReachInv(run: seq<State>, k: nat)
    requires IsRun(run) && Inv(run[0]) && k < |run|
    ensures Inv(run[k])
  {
    if k > 0 {
      ReachInv(run, k - 1);
      assert Linked(run, k - 1);
      StepInv(run[k - 1], run[k]);
    }
  }

  // With the lock free, a process on its way to it gets there alone.
  lemma Acquire(s: State, p: Pid) returns (t: State)
    requires p in s.pc && s.lock == 0
    requires s.pc[p].Read? || s.pc[p].Cas? || s.pc[p].Register? || s.pc[p].TryRead? || s.pc[p].TryCas?
    ensures Reaches(s, t) && p in t.pc && t.pc == s.pc[p := t.pc[p]] && t.sem == s.sem && t.lock == p && t.pc[p].Holding()
    decreases if s.pc[p].Register? then 2 else if s.pc[p].Read? || s.pc[p].TryRead? then 1 else 0
  {
    match s.pc[p]
    case Register =>
      var u := Goto(s, p, Read(true)).(wait := s.wait + 1);
      ReachStep(s, u, p);
      t := Acquire(u, p);
      ReachTrans(s, u, t);
    case Read(reg) =>
      var u := Goto(s, p, Cas(reg));
      ReachStep(s, u, p);
      t := Acquire(u, p);
      ReachTrans(s, u, t);
    case TryRead =>
      var u := Goto(s, p, TryCas);
      ReachStep(s, u, p);
      t := Acquire(u, p);
      ReachTrans(s, u, t);
    case Cas(reg) =>
      t := Goto(s, p, if reg then Deregister else Critical).(lock := p);
      ReachStep(s, t, p);
    case TryCas =>
      t := Goto(s, p, Critical).(lock := p);
      ReachStep(s, t, p);
  }

  // The holder can release the lock and comes to the wakeup.
  lemma Release(s: State, h: Pid) returns (t: State)
    requires h in s.pc && s.lock == h && s.pc[h].Holding()
    ensures Reaches(s, t) && t.pc == s.pc[h := WakeRead] && t.sem == s.sem && t.lock == 0
  {
    var u := s;
    ReachSelf(s);
    if s.pc[h].Deregister? {
      u := Goto(s, h, Critical).(wait := s.wait - 1);
      ReachStep(s, u, h);
    }
    t := Goto(u, h, WakeRead).(lock := 0);
    ReachStep(u, t, h);
    ReachTrans(s, u, t);
  }

  // While someone sleeps, a process in the wakeup leads to a token in the semaphore.
  lemma Wake(s: State, q: Pid, p: Pid) returns (t: State)
    requires Inv(s) && p in s.pc && s.pc[p].SemWait? && q in s.pc && s.lock == 0
    requires s.pc[q].WakeRead? || s.pc[q].WakeCas? || s.pc[q].Post?
    ensures Reaches(s, t) && t.sem > 0 && t.lock == 0 && p in t.pc && t.pc[p].SemWait?
    decreases if s.pc[q].WakeCas? && s.wait != s.pc[q].seen then 3
              else if s.pc[q].WakeRead? then 2 else if s.pc[q].WakeCas? then 1 else 0
  {
    match s.pc[q]
    case Post =>
      t := Goto(s, q, Idle).(sem := s.sem + 1);
      ReachStep(s, t, q);
    case WakeCas(w) =>
      var u := if s.wait == w then Goto(s, q, Post).(wait := w - 1) else Goto(s, q, WakeRead);
      assert Step(s, u, q);
      StepInv(s, u);
      ReachStep(s, u, q);
      t := Wake(u, q, p);
      ReachTrans(s, u, t);
    case WakeRead =>
      if s.wait > 0 {
        var u := Goto(s, q, WakeCas(s.wait));
        assert Step(s, u, q);
        StepInv(s, u);
        ReachStep(s, u, q);
        t := Wake(u, q, p);
        ReachTrans(s, u, t);
      } else if s.sem > 0 {
        t := s;
        ReachSelf(s);
      } else {
        assert p in Waiters(s);
        var r :| r in Posters(s);
        t := Wake(s, r, p);
      }
  }

  lemma ReachesInv(s: State, t: State)
    requires Inv(s) && Reaches(s, t)
    ensures Inv(t)
  {
    var run :| IsRun(run) && run[0] == s && run[|run| - 1] == t;
    ReachInv(run, |run| - 1);
  }

  // A sleeper can always be given a token with the lock free.
  lemma WakeSleeper(s: State, p: Pid) returns (t: State)
    requires Inv(s) && p in s.pc && s.pc[p].SemWait? && s.lock == 0
    ensures Reaches(s, t) && t.sem > 0 && t.lock == 0 && p in t.pc && t.pc[p].SemWait?
  {
    if s.sem > 0 {
      t := s;
      ReachSelf(s);
    } else {
      var q :| q in s.pc && s.pc[q].Active();
      if s.pc[q].WakeRead? || s.pc[q].WakeCas? || s.pc[q].Post? {
        t := Wake(s, q, p);
      } else {
        var u := Acquire(s, q);
        var v := Release(u, q);
        ReachTrans(s, u, v);
        ReachesInv(s, v);
        t := Wake(v, q, p);
        ReachTrans(s, v, t);
      }
    }
  }

  // From every reachable state, any process inside ngx_shmtx_lock can still reach the state of
  // holding the lock: wakeups are never lost.
  lemma NeverTrapped(run: seq<State>, k: nat, p: Pid) returns (t: State)
    requires IsRun(run) && Init(run[0]) && k < |run| && p in run[k].pc
    requires var c := run[k].pc[p]; c.Read? || c.Cas? || c.Register? || c.SemWait?
    ensures Reaches(run[k], t) && p in t.pc && t.pc[p].Holding() && t.lock == p
  {
    RunInv(run, k);
    var s := run[k];
    var u := s;
    ReachSelf(s);
    if s.lock != 0 {
      u := Release(s, s.lock);
      ReachesInv(s, u);
    }
    if u.pc[p].SemWait? {
      var v := WakeSleeper(u, p);
      ReachTrans(s, u, v);
      var w := Goto(v, p, Read(false)).(sem := v.sem - 1);
      ReachStep(v, w, p);
      ReachTrans(s, v, w);
      t := Acquire(w, p);
      ReachTrans(s, w, t);
    } else {
      t := Acquire(u, p);
      ReachTrans(s, u, t);
    }
  }

  // ---- wakeups ----

  ghost predicate WakesPositive(s: State) {
    forall p {:trigger s.pc[p]} :: p in s.pc && s.pc[p].WakeCas? ==> s.pc[p].seen > 0
  }

  lemma {:induction false} PositiveRun(run: seq<State>, k: nat)
    requires IsRun(run) && Init(run[0]) && k < |run|
    ensures WakesPositive(run[k])
  {
    if k > 0 {
      PositiveRun(run, k - 1);
      assert Linked(run, k - 1);
    }
  }

  // A process is about to post only where a waiter has neither a token nor a post on its way.
  lemma PostsForWaiter(run: seq<State>, k: nat, p: Pid)
    requires IsRun(run) && Init(run[0]) && k + 1 < |run| && p in run[k].pc && Step(run[k], run[k + 1], p)
    requires run[k].pc[p].WakeCas? && run[k + 1].pc[p] == Post
    ensures |Waiters(run[k])| > run[k].sem + |Posters(run[k])|
  {
    PositiveRun(run, k);
    RunInv(run, k);
  }
}
