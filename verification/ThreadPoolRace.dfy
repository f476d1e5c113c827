/** When the promises of src/core/ngx_thread_pool.c hold of every run: no task may be posted by two
    threads, as each of them would find it not active before it takes the mutex. */
module ThreadPoolRace {
  import opened ThreadPool

  // Every task is completed and run at most once for every successful post.
  ghost predicate Kept(s: State, t: Task) {
    s.log.Knows(t) && s.log.completions[t] <= s.log.runs[t] <= s.log.posts[t]
  }

  ghost predicate AllKept(s: State) {
    forall t {:trigger Kept(s, t)} :: t in s.log.place ==> Kept(s, t)
  }

  // No task belongs to two posters.
  ghost predicate Disjoint(s: State) {
    forall p, q, t {:trigger t in s.may[p], t in s.may[q]} ::
      p in s.posters && q in s.posters && p in s.may && q in s.may && p != q ==> !(t in s.may[p] && t in s.may[q])
  }

  // ---- posters with tasks of their own ----

  ghost predicate OwnTask(s: State, p: Tid)
    requires p in s.posters
  {
    s.posters[p].Busy() ==> p in s.may && s.posters[p].t in s.may[p]
  }

  ghost predicate OwnTasks(s: State) {
    forall p {:trigger OwnTask(s, p)} :: p in s.posters ==> OwnTask(s, p)
  }

  lemma OwnStep(s: State, s': State)
    requires OwnTasks(s) && Next(s, s')
    ensures OwnTasks(s') && s'.may == s.may && s'.posters.Keys == s.posters.Keys
  {
    forall p | p in s'.posters ensures OwnTask(s', p) { assert p in s.posters && OwnTask(s, p); }
  }

  lemma {:induction false} OwnRun(run: seq<State>, k: nat)
    requires IsRun(run) && k < |run|
    ensures OwnTasks(run[k]) && run[k].may == run[0].may && run[k].posters.Keys == run[0].posters.Keys
  {
    if k > 0 {
      OwnRun(run, k - 1);
      assert Linked(run, k - 1);
      OwnStep(run[k - 1], run[k]);
    }
  }

  lemma DisjointOne(s: State)
    requires OwnTasks(s) && Disjoint(s)
    ensures OnePoster(s)
  {
    forall p, q | p in s.posters && q in s.posters && p != q && s.posters[p].Busy() && s.posters[q].Busy()
      ensures s.posters[p].t != s.posters[q].t
    {
      assert OwnTask(s, p) && OwnTask(s, q);
      assert s.posters[p].t in s.may[p];
    }
  }

  lemma DisjointKeeps(run: seq<State>, k: nat)
    requires IsRun(run) && k < |run| && Disjoint(run[0])
    ensures OnePosterTo(run, k) && Inv(run[k]) && AllKept(run[k])
  {
    forall i | 0 <= i < k ensures OnePoster(run[i]) {
      OwnRun(run, i);
      DisjointOne(run[i]);
    }
    RunInv(run, k);
    forall t | t in run[k].log.place ensures Kept(run[k], t) { assert Entry(run[k], t); }
  }

  // ---- runs piece by piece ----

  ghost predicate Reaches(s: State, u: State) {
    exists run {:trigger Steps(run)} :: Steps(run) && run[0] == s && run[|run| - 1] == u
  }

  lemma ReachSelf(s: State)
    ensures Reaches(s, s)
  {
    assert Steps([s]);
  }

  lemma ReachNext(s: State, u: State, v: State)
    requires Reaches(s, u) && Next(u, v)
    ensures Reaches(s, v)
  {
    var run :| Steps(run) && run[0] == s && run[|run| - 1] == u;
    var more := run + [v];
    forall i | 0 <= i < |more| - 1 ensures Linked(more, i) {
      if i < |run| - 1 { assert Linked(run, i); }
    }
    assert Steps(more) && more[|more| - 1] == v;
  }

  // One step of worker w from a state that s reaches.
  lemma Work(s: State, u: State, w: Tid) returns (v: State)
    requires Reaches(s, u) && w in u.pc && WorkerReady(u, w)
    ensures v == Worked(u, w) && Reaches(s, v)
  {
    v := Worked(u, w);
    assert WorkerStep(u, v, w);
    ReachNext(s, u, v);
  }

  lemma Turn(s: State, u: State, p: Tid, c: Post, pc: map<Tid, Pc>) returns (v: State)
    requires Reaches(s, u) && p in u.posters && PostReady(u, p, c) && Wakes(u.pc, pc, u.posters[p])
    ensures v == PostDone(u, p, c, pc) && Reaches(s, v)
  {
    v := PostDone(u, p, c, pc);
    assert PostStep(u, v, p);
    ReachNext(s, u, v);
  }

  lemma Go(s: State, u: State) returns (v: State)
    requires Reaches(s, u) && (u.main == Loop ==> u.locks.done == Nobody)
    ensures v == MainDone(u) && Reaches(s, v)
  {
    v := MainDone(u);
    assert MainStep(u, v);
    ReachNext(s, u, v);
  }

  // ---- the race ----

  const FREE := Locks(Nobody, Nobody)

  // What every piece of the run below leaves alone.
  ghost predicate Same(u: State, v: State) {
    v.locks == FREE && v.main == u.main && v.may == u.may && v.maxQueue == u.maxQueue
  }

  // Counters of a task.
  ghost predicate Counts(s: State, t: Task, posts: nat, completions: nat) {
    && s.log.Knows(t) && t in s.links.next && s.log.posts[t] == posts && s.log.completions[t] == completions
  }

  // A worker finds the queue empty.
  lemma GoToSleep(s: State, u: State, w: Tid, t: Task, n: nat) returns (v: State)
    requires Reaches(s, u) && u.locks == FREE && w in u.pc && u.pc[w] == Lock && u.links.queue == EMPTY && Counts(u, t, n, 0)
    ensures Reaches(s, v) && Same(u, v) && v.pc == u.pc[w := Sleep] && v.posters == u.posters
    ensures v.waiting == u.waiting - 1 && v.links == u.links && Counts(v, t, n, 0) && v.active == u.active
  {
    v := Work(s, u, w);
    v := Work(s, v, w);
    v := Work(s, v, w);
  }

  ghost predicate OnlySleeper(s: State, w: Tid) {
    w in s.pc && s.pc[w] == Sleep && forall v {:trigger s.pc[v]} :: v in s.pc && v != w ==> !s.pc[v].Sleep?
  }

  // A poster that has passed the test puts the task on the empty queue.
  lemma PutOn(s: State, u: State, p: Tid, w: Tid, t: Task, n: nat) returns (v: State)
    requires Reaches(s, u) && u.locks == FREE && p in u.posters && u.posters[p] == PostLock(t) && OnlySleeper(u, w)
    requires u.links.queue == EMPTY && u.waiting < u.maxQueue && Counts(u, t, n, 0)
    ensures Reaches(s, v) && Same(u, v) && v.pc == u.pc[w := Woken] && v.posters == u.posters[p := Idle]
    ensures v.waiting == u.waiting + 1 && Counts(v, t, n + 1, 0)
    ensures v.links == u.links.(queue := Chain(At(t), Behind(t)), next := u.links.next[t := Nil])
  {
    v := Turn(s, u, p, PostTest(t), u.pc);
    v := Turn(s, v, p, Mark(t), v.pc);
    v := Turn(s, v, p, Signal(t), v.pc);
    assert v.pc == u.pc && v.pc[w].Sleep?;
    v := Turn(s, v, p, Enqueue(t), v.pc[w := Woken]);
    v := Turn(s, v, p, Incr, v.pc);
    v := Turn(s, v, p, PostUnlock, v.pc);
    v := Turn(s, v, p, Idle, v.pc);
  }

  // The worker takes the only task, runs it and puts it on the list of finished ones.
  lemma TakeAndRun(s: State, u: State, w: Tid, t: Task, n: nat) returns (v: State)
    requires Reaches(s, u) && u.locks == FREE && w in u.pc && u.pc[w] == Woken && Counts(u, t, n, 0)
    requires u.links.queue == Chain(At(t), Behind(t)) && u.links.next[t] == Nil
    ensures Reaches(s, v) && Same(u, v) && v.pc == u.pc[w := Lock] && v.posters == u.posters
    ensures v.waiting == u.waiting && Counts(v, t, n, 0)
    ensures v.links == Links(EMPTY, Appended(u.links.done, t), u.links.cur, NextAfter(u.links.done, u.links.next, t))
  {
    v := TakeOff(s, u, w, t, n);
    assert v.links.next[t := Nil] == u.links.next;
    v := Work(s, v, w);
    v := Work(s, v, w);
    v := Work(s, v, w);
    v := Work(s, v, w);
  }

  lemma TakeOff(s: State, u: State, w: Tid, t: Task, n: nat) returns (v: State)
    requires Reaches(s, u) && u.locks == FREE && w in u.pc && u.pc[w] == Woken && Counts(u, t, n, 0)
    requires u.links.queue == Chain(At(t), Behind(t)) && u.links.next[t] == Nil
    ensures Reaches(s, v) && Same(u, v) && v.pc == u.pc[w := Run(t)] && v.posters == u.posters
    ensures v.waiting == u.waiting && Counts(v, t, n, 0) && v.links == u.links.(queue := EMPTY)
  {
    v := Work(s, u, w);
    v := Work(s, v, w);
    v := Work(s, v, w);
    v := Work(s, v, w);
  }

  // The task leads to itself on the list of finished ones, and is completed again and again.
  lemma CompleteThrice(s: State, u: State, t: Task, n: nat) returns (v: State)
    requires Reaches(s, u) && u.locks == FREE && u.main == Loop && Counts(u, t, n, 0)
    requires u.links.done.first == At(t) && u.links.next[t] == At(t)
    ensures Reaches(s, v) && Counts(v, t, n, 3)
  {
    v := Go(s, u);
    v := Go(s, v);
    v := Go(s, v);
    assert v.main == Finish && v.links.cur == At(t) && v.links.next == u.links.next && Counts(v, t, n, 0);
    v := Go(s, v);
    assert Counts(v, t, n, 1);
    v := Go(s, v);
    assert Counts(v, t, n, 2);
    v := Go(s, v);
  }

  // Two posters find the task not active.
  lemma BothBegin(s: State, u: State, p: Tid, q: Tid, t: Task) returns (v: State)
    requires Reaches(s, u) && p in u.posters && q in u.posters && p != q && u.posters[p] == Idle && u.posters[q] == Idle
    requires p in u.may && q in u.may && t in u.may[p] && t in u.may[q] && t !in u.active && t in u.log.place
    ensures Reaches(s, v) && v == u.(posters := u.posters[p := PostLock(t)][q := PostLock(t)])
  {
    v := Turn(s, u, p, PostLock(t), u.pc);
    v := Turn(s, v, q, PostLock(t), v.pc);
  }

  // The first post and its run: the task is on the list of finished ones, and the worker sleeps.
  lemma FirstPost(s: State, w: Tid, p: Tid, q: Tid, t: Task) returns (v: State)
    requires Init(s) && w in s.pc && p in s.posters && q in s.posters && p != q && t in s.may[p] && t in s.may[q]
    ensures Reaches(s, v) && Same(s, v) && v.pc == s.pc[w := Sleep] && q in v.posters && v.posters[q] == PostLock(t)
    ensures v.waiting == -1 && Counts(v, t, 1, 0) && v.links.queue == EMPTY && v.links.done == Chain(At(t), Behind(t))
  {
    assert Blank(s, t);
    ReachSelf(s);
    v := BothBegin(s, s, p, q, t);
    v := GoToSleep(s, v, w, t, 0);
    assert OnlySleeper(v, w);
    v := PutOn(s, v, p, w, t, 0);
    v := TakeAndRun(s, v, w, t, 1);
    assert v.pc == s.pc[w := Lock] && v.waiting == 0;
    v := GoToSleep(s, v, w, t, 1);
    assert v.pc == s.pc[w := Sleep];
  }

  // Two posts of one task, and three completions.
  lemma Race(s: State, w: Tid, p: Tid, q: Tid, t: Task) returns (v: State)
    requires Init(s) && w in s.pc && p in s.posters && q in s.posters && p != q && t in s.may[p] && t in s.may[q]
    ensures Reaches(s, v) && t in v.log.place && Counts(v, t, 2, 3)
  {
    v := FirstPost(s, w, p, q, t);
    assert OnlySleeper(v, w);
    v := PutOn(s, v, q, w, t, 1);
    v := TakeAndRun(s, v, w, t, 2);
    v := CompleteThrice(s, v, t, 2);
  }

  ghost predicate AlwaysKept(s: State) {
    forall run, k: nat {:trigger run[k]} :: IsRun(run) && run[0] == s && k < |run| ==> AllKept(run[k])
  }

  // With a worker at hand: every run keeps the promises exactly if no task belongs to two posters.
  lemma OnePosterExactly(s: State)
    requires Init(s) && s.pc.Keys != {}
    ensures AlwaysKept(s) <==> Disjoint(s)
  {
    if Disjoint(s) {
      forall run, k: nat | IsRun(run) && run[0] == s && k < |run| ensures AllKept(run[k]) { DisjointKeeps(run, k); }
    } else {
      var p, q, t :| p in s.posters && q in s.posters && p in s.may && q in s.may && p != q && t in s.may[p] && t in s.may[q];
      var w :| w in s.pc.Keys;
      var v := Race(s, w, p, q, t);
      var run :| Steps(run) && run[0] == s && run[|run| - 1] == v;
      assert IsRun(run) && !Kept(run[|run| - 1], t);
    }
  }
}
