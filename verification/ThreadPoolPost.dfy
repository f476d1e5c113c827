/** ngx_thread_task_post of src/core/ngx_thread_pool.c as one call, in any run of the pool. */
module ThreadPoolPost {
  import opened ThreadPool

  lemma {:induction false} MutexRun(run: seq<State>, k: nat)
    requires IsRun(run) && k < |run|
    ensures MutexOk(run[k])
  {
    if k > 0 {
      MutexRun(run, k - 1);
      assert Linked(run, k - 1);
      MutexStep(run[k - 1], run[k]);
    }
  }

  lemma MutexStep(s: State, s': State)
    requires MutexOk(s) && Next(s, s')
    ensures MutexOk(s') && s'.maxQueue == s.maxQueue && s'.posters.Keys == s.posters.Keys
  {
    if MainStep(s, s') {
      assert s'.pc == s.pc && s'.posters == s.posters && s'.locks.mutex == s.locks.mutex;
    } else if w :| w in s.pc && WorkerStep(s, s', w) {
      WorkerMutex(s, s', w);
    } else {
      var p :| p in s.posters && PostStep(s, s', p);
      PostMutex(s, s', p);
    }
  }

  ghost predicate Holds(s: State, p: Tid) { p in s.posters && s.posters[p].HoldsMutex() }

  // Poster p holds the mutex in the states from i up to k.
  ghost predicate Throughout(run: seq<State>, i: nat, k: nat, p: Tid) {
    forall j {:trigger run[j]} :: i <= j < k && j < |run| ==> Holds(run[j], p)
  }

  // What the call that found s0 at its test has done so far.
  ghost predicate Progress(s0: State, s: State, p: Tid, t: Task) {
    var room := s0.waiting < s0.maxQueue;
    && p in s.posters && s.maxQueue == s0.maxQueue
    && match s.posters[p]
       case PostTest(u) => u == t && s.waiting == s0.waiting && s.posted == s0.posted
       case Mark(u) => u == t && room && s.waiting == s0.waiting && s.posted == s0.posted
       case Signal(u) => u == t && room && s.waiting == s0.waiting && s.posted == s0.posted
       case Enqueue(u) => u == t && room && s.waiting == s0.waiting && s.posted == s0.posted
       case Incr => room && s.waiting == s0.waiting && s.posted == s0.posted + [t]
       case _ => if room then s.waiting == s0.waiting + 1 && s.posted == s0.posted + [t] else s.waiting == s0.waiting && s.posted == s0.posted
  }

  // No other thread counts or posts meanwhile.
  lemma Alone(s: State, s': State, p: Tid)
    requires MutexOk(s) && Next(s, s') && Holds(s, p)
    ensures PostStep(s, s', p) || (p in s'.posters && s'.posters[p] == s.posters[p] && s'.waiting == s.waiting && s'.posted == s.posted && s'.maxQueue == s.maxQueue)
  {
    if w :| w in s.pc && WorkerStep(s, s', w) {
      assert s.locks.mutex == Poster(p) && !s.pc[w].HoldsMutex();
    } else if q :| q in s.posters && PostStep(s, s', q) {
      assert s.locks.mutex == Poster(p);
      assert q != p ==> !s.posters[q].HoldsMutex();
    }
  }

  lemma ProgressStep(s0: State, s: State, s': State, p: Tid, t: Task)
    requires MutexOk(s) && Next(s, s') && Holds(s, p) && Progress(s0, s, p, t)
    ensures Progress(s0, s', p, t)
  {
    Alone(s, s', p);
  }

  lemma {:induction false} ProgressRun(run: seq<State>, i: nat, k: nat, p: Tid, t: Task)
    requires IsRun(run) && i <= k < |run| && p in run[i].posters && run[i].posters[p] == PostTest(t) && Throughout(run, i, k, p)
    ensures Progress(run[i], run[k], p, t)
    decreases k - i
  {
    if k > i {
      ProgressRun(run, i, k - 1, p, t);
      MutexRun(run, k - 1);
      assert Linked(run, k - 1) && Holds(run[k - 1], p);
      ProgressStep(run[i], run[k - 1], run[k], p, t);
    }
  }

  // A post is accepted exactly if fewer tasks wait than max_queue when it holds the mutex: then the
  // task, and no other, is put on the queue and counted.
  lemma Accepted(run: seq<State>, i: nat, k: nat, p: Tid, t: Task)
    requires IsRun(run) && i < k < |run| && p in run[i].posters && run[i].posters[p] == PostTest(t)
    requires Throughout(run, i, k, p) && !Holds(run[k], p)
    ensures p in run[k].posters && run[k].posters[p] == Idle
    ensures var room := run[i].waiting < run[i].maxQueue;
      && run[k].posted == run[i].posted + (if room then [t] else [])
      && run[k].waiting == run[i].waiting + (if room then 1 else 0)
  {
    ProgressRun(run, i, k, p, t);
    MutexRun(run, k - 1);
    assert Linked(run, k - 1) && Holds(run[k - 1], p);
    Alone(run[k - 1], run[k], p);
  }
}
