/** The thread pool of src/core/ngx_thread_pool.c: worker threads, threads that post tasks, and the
    event loop that runs the completion handlers. */
module ThreadPool {
  import opened Basics

  type Tid = nat
  type Task = nat

  // Next statement of a worker in ngx_thread_pool_cycle.
  datatype Pc =
    | Lock                    // ngx_thread_mutex_lock
    | Dec                     // tp->waiting--
    | Test                    // while (tp->queue.first == NULL)
    | Sleep                   // inside ngx_thread_cond_wait, mutex released
    | Woken                   // signalled, waiting for the mutex
    | Take                    // task = tp->queue.first
    | Unlock(t: Task)
    | Run(t: Task)            // task->handler, task->next = NULL
    | DoneLock(t: Task)       // ngx_spinlock(&ngx_thread_pool_done_lock)
    | DoneAppend(t: Task)
    | DoneUnlock
  {
    predicate HoldsMutex() { Dec? || Test? || Take? || Unlock? }
    predicate HoldsDone() { DoneAppend? || DoneUnlock? }
    // Has decremented "waiting" and not yet taken a task.
    predicate Owed() { Test? || Sleep? || Woken? || Take? }
    // Awake and bound to look at the queue before sleeping.
    predicate Coming() { Woken? || Test? || Take? }
  }

  // Next statement of a poster in ngx_thread_task_post.
  datatype Post =
    | Idle                    // the test of task->event.active comes first
    | PostLock(t: Task)
    | PostTest(t: Task)       // tp->waiting >= tp->max_queue
    | Mark(t: Task)           // task->event.active = 1, task->next = NULL
    | Signal(t: Task)         // ngx_thread_cond_signal
    | Enqueue(t: Task)
    | Incr                    // tp->waiting++
    | PostUnlock
  {
    predicate HoldsMutex() { PostTest? || Mark? || Signal? || Enqueue? || Incr? || PostUnlock? }
    // Has passed the test of "active" and not yet put the task on the queue.
    predicate Before() { PostLock? || PostTest? || Mark? }
    predicate Busy() { Before() || Signal? || Enqueue? }
  }

  // Next statement of the event loop in ngx_thread_pool_handler.
  datatype Main =
    | Loop
    | TakeDone                // done lock held: the whole list is taken
    | UnlockDone
    | Finish                  // while (task)
  {
    predicate HoldsDone() { TakeDone? || UnlockDone? }
  }

  // Where a task is: in the hands of a poster, a worker, or on a list.
  datatype Place = Free | Fresh(p: Tid) | Queued | Held(w: Tid) | Ran(w: Tid) | Done | Completing

  datatype Owner = Nobody | EventLoop | Poster(p: Tid) | Worker(w: Tid)

  datatype Locks = Locks(mutex: Owner, done: Owner)

  // ---- lists of tasks linked by their field "next" ----

  datatype Link = Nil | At(t: Task)

  // The field that the next task is written to: the head of the list or "next" of its last task.
  datatype End = Head | Behind(t: Task)

  datatype Chain = Chain(first: Link, last: End)

  datatype Links = Links(queue: Chain, done: Chain, cur: Link, next: map<Task, Link>)

  const EMPTY := Chain(Nil, Head)

  // *last = task, last = &task->next
  function Appended(c: Chain, t: Task): Chain { Chain(if c.last == Head then At(t) else c.first, Behind(t)) }

  function NextAfter(c: Chain, next: map<Task, Link>, t: Task): map<Task, Link> {
    if c.last == Head then next else next[c.last.t := At(t)]
  }

  // first = first->next
  function Dropped(c: Chain, next: map<Task, Link>): Chain {
    if c.first == Nil || c.first.t !in next then c
    else if next[c.first.t] == Nil then EMPTY
    else Chain(next[c.first.t], c.last)
  }

  // ---- the history of a run ----

  // The tasks put on the queue and on the list of finished tasks and not yet taken off, and those
  // taken for completion.
  datatype Lists = Lists(queue: seq<Task>, done: seq<Task>, completing: seq<Task>)

  function Rest(q: seq<Task>): seq<Task> { if q == [] then [] else q[1..] }

  datatype Log = Log(place: map<Task, Place>, posts: map<Task, nat>, runs: map<Task, nat>, completions: map<Task, nat>)
  {
    predicate Knows(t: Task) { t in place && t in posts && t in runs && t in completions }
    function Move(t: Task, p: Place): Log { this.(place := place[t := p]) }
    function Post(t: Task): Log { Move(t, Queued).(posts := Plus(posts, t)) }
    function Run(t: Task, w: Tid): Log { Move(t, Ran(w)).(runs := Plus(runs, t)) }
    function Complete(t: Task): Log { Move(t, Free).(completions := Plus(completions, t)) }
    function TakeDone(): Log {
      this.(place := map t | t in place :: if place[t].Done? then Completing else place[t])
    }
  }

  function Plus(m: map<Task, nat>, t: Task): map<Task, nat> { if t in m then m[t := m[t] + 1] else m }

  // Each poster posts tasks of its own set "may"; these sets and maxQueue do not change.
  datatype State = State(
    locks: Locks, waiting: int, maxQueue: int, links: Links, active: set<Task>,
    pc: map<Tid, Pc>, posters: map<Tid, Post>, may: map<Tid, set<Task>>, main: Main,
    lists: Lists, log: Log, posted: seq<Task>, taken: seq<Task>)

  ghost predicate Blank(s: State, t: Task) {
    && s.log.Knows(t) && s.log.place[t] == Free && s.log.posts[t] == 0 && s.log.runs[t] == 0 && s.log.completions[t] == 0
    && t in s.links.next
  }

  ghost predicate Init(s: State) {
    && s.locks == Locks(Nobody, Nobody) && s.waiting == 0 && s.maxQueue >= 0
    && s.links.queue == EMPTY && s.links.done == EMPTY && s.links.cur == Nil
    && s.lists == Lists([], [], []) && s.active == {} && s.main == Loop
    && (forall w :: w in s.pc ==> s.pc[w] == Lock)
    && (forall p :: p in s.posters ==> s.posters[p] == Idle && p in s.may && s.may[p] <= s.log.place.Keys)
    && (forall t {:trigger Blank(s, t)} :: t in s.log.place ==> Blank(s, t))
    && s.posted == [] && s.taken == []
  }

  // ---- a step of a worker ----

  // A step waits while a lock it needs is held.
  ghost predicate WorkerReady(s: State, w: Tid)
    requires w in s.pc
  {
    match s.pc[w]
    case Lock => s.locks.mutex == Nobody
    case Woken => s.locks.mutex == Nobody
    case Take => s.links.queue.first.At?
    case DoneLock(_) => s.locks.done == Nobody
    case _ => true
  }

  function WorkerLocks(l: Locks, w: Tid, c: Pc, first: Link): Locks {
    match c
    case Lock => l.(mutex := Worker(w))
    case Woken => l.(mutex := Worker(w))
    case Test => if first == Nil then l.(mutex := Nobody) else l
    case Unlock(_) => l.(mutex := Nobody)
    case DoneLock(_) => l.(done := Worker(w))
    case DoneUnlock => l.(done := Nobody)
    case _ => l
  }

  function WorkerNext(c: Pc, first: Link): Pc {
    match c
    case Lock => Dec
    case Dec => Test
    case Test => if first == Nil then Sleep else Take
    case Sleep => Woken                            // a spurious wakeup
    case Woken => Test
    case Take => if first == Nil then Take else Unlock(first.t)
    case Unlock(t) => Run(t)
    case Run(t) => DoneLock(t)
    case DoneLock(t) => DoneAppend(t)
    case DoneAppend(t) => DoneUnlock
    case DoneUnlock => Lock
  }

  function WorkerLinks(l: Links, c: Pc): Links {
    match c
    case Take => l.(queue := Dropped(l.queue, l.next))
    case Run(t) => l.(next := l.next[t := Nil])
    case DoneAppend(t) => l.(done := Appended(l.done, t), next := NextAfter(l.done, l.next, t))
    case _ => l
  }

  function WorkerLists(l: Lists, c: Pc): Lists {
    match c
    case Take => l.(queue := Rest(l.queue))
    case DoneAppend(t) => l.(done := l.done + [t])
    case _ => l
  }

  function WorkerLog(g: Log, w: Tid, c: Pc, first: Link): Log {
    match c
    case Take => if first == Nil then g else g.Move(first.t, Held(w))
    case Run(t) => g.Run(t, w)
    case DoneAppend(t) => g.Move(t, Place.Done)
    case _ => g
  }

  function Worked(s: State, w: Tid): State
    requires w in s.pc
  {
    var c, first := s.pc[w], s.links.queue.first;
    s.(locks := WorkerLocks(s.locks, w, c, first),
       pc := s.pc[w := WorkerNext(c, first)],
       waiting := if c.Dec? then s.waiting - 1 else s.waiting,
       links := WorkerLinks(s.links, c), lists := WorkerLists(s.lists, c), log := WorkerLog(s.log, w, c, first),
       taken := if c.Take? && first.At? then s.taken + [first.t] else s.taken)
  }

  ghost predicate WorkerStep(s: State, s': State, w: Tid)
    requires w in s.pc
  {
    WorkerReady(s, w) && s' == Worked(s, w)
  }

  // ---- a step of a poster ----

  ghost predicate PostReady(s: State, p: Tid, c': Post)
    requires p in s.posters
  {
    match s.posters[p]
    case Idle => c'.PostLock? && c'.t in s.log.place && c'.t !in s.active && p in s.may && c'.t in s.may[p]
    case PostLock(t) => c' == PostTest(t) && s.locks.mutex == Nobody
    case PostTest(t) => c' == if s.waiting >= s.maxQueue then PostUnlock else Mark(t)
    case Mark(t) => c' == Signal(t)
    case Signal(t) => c' == Enqueue(t)
    case Enqueue(t) => c' == Incr
    case Incr => c' == PostUnlock
    case PostUnlock => c' == Idle
  }

  // ngx_thread_cond_signal wakes one of the sleeping workers, if there is one.
  ghost predicate Wakes(pc: map<Tid, Pc>, pc': map<Tid, Pc>, c: Post) {
    if c.Signal? && exists w :: w in pc && pc[w].Sleep?
    then exists w :: w in pc && pc[w].Sleep? && pc' == pc[w := Woken]
    else pc' == pc
  }

  function PostLocks(l: Locks, p: Tid, c: Post): Locks {
    match c
    case PostLock(_) => l.(mutex := Poster(p))
    case PostUnlock => l.(mutex := Nobody)
    case _ => l
  }

  function PostLinks(l: Links, c: Post): Links {
    match c
    case Mark(t) => l.(next := l.next[t := Nil])
    case Enqueue(t) => l.(queue := Appended(l.queue, t), next := NextAfter(l.queue, l.next, t))
    case _ => l
  }

  function PostLog(g: Log, p: Tid, c: Post): Log {
    match c
    case Mark(t) => g.Move(t, Fresh(p))
    case Enqueue(t) => g.Post(t)
    case _ => g
  }

  function PostDone(s: State, p: Tid, c': Post, pc': map<Tid, Pc>): State
    requires p in s.posters
  {
    var c := s.posters[p];
    s.(locks := PostLocks(s.locks, p, c), posters := s.posters[p := c'], pc := pc',
       waiting := if c.Incr? then s.waiting + 1 else s.waiting,
       active := if c.Mark? then s.active + {c.t} else s.active,
       links := PostLinks(s.links, c), log := PostLog(s.log, p, c),
       lists := if c.Enqueue? then s.lists.(queue := s.lists.queue + [c.t]) else s.lists,
       posted := if c.Enqueue? then s.posted + [c.t] else s.posted)
  }

  ghost predicate PostStep(s: State, s': State, p: Tid)
    requires p in s.posters
  {
    && p in s'.posters && PostReady(s, p, s'.posters[p]) && Wakes(s.pc, s'.pc, s.posters[p])
    && s' == PostDone(s, p, s'.posters[p], s'.pc)
  }

  // ---- a step of the event loop ----

  function MainNext(m: Main, cur: Link): Main {
    match m
    case Loop => TakeDone
    case TakeDone => UnlockDone
    case UnlockDone => Finish
    case Finish => if cur == Nil then Loop else Finish
  }

  // The end of the list or a task with its "next" field.
  function After(next: map<Task, Link>, cur: Link): Link {
    if cur == Nil || cur.t !in next then Nil else next[cur.t]
  }

  function MainDone(s: State): State {
    var s1 := s.(main := MainNext(s.main, s.links.cur));
    match s.main
    case Loop => s1.(locks := s.locks.(done := EventLoop))
    case TakeDone =>
      s1.(links := s.links.(cur := s.links.done.first, done := EMPTY), log := s.log.TakeDone(),
          lists := s.lists.(done := [], completing := s.lists.completing + s.lists.done))
    case UnlockDone => s1.(locks := s.locks.(done := Nobody))
    case Finish =>
      if s.links.cur == Nil then s1
      else
        var t := s.links.cur.t;
        s1.(links := s.links.(cur := After(s.links.next, s.links.cur)), log := s.log.Complete(t),
            lists := s.lists.(completing := Rest(s.lists.completing)), active := s.active - {t})
  }

  ghost predicate MainStep(s: State, s': State) {
    (s.main == Loop ==> s.locks.done == Nobody) && s' == MainDone(s)
  }

  ghost predicate Next(s: State, s': State) {
    || MainStep(s, s')
    || (exists w :: w in s.pc && WorkerStep(s, s', w))
    || exists p :: p in s.posters && PostStep(s, s', p)
  }

  // No two posters are at once between the test of a task's "active" and its place in the queue.
  ghost predicate OnePoster(s: State) {
    forall p, q {:trigger s.posters[p], s.posters[q]} ::
      p in s.posters && q in s.posters && p != q && s.posters[p].Busy() && s.posters[q].Busy() ==> s.posters[p].t != s.posters[q].t
  }

  // ---- invariants ----

  // Each lock is held exactly by the thread between taking and releasing it.
  ghost predicate MutexOk(s: State) {
    && s.locks.mutex != EventLoop
    && (forall p {:trigger s.posters[p]} :: p in s.posters ==> (s.posters[p].HoldsMutex() <==> s.locks.mutex == Poster(p)))
    && (forall w {:trigger s.pc[w]} :: w in s.pc ==> (s.pc[w].HoldsMutex() <==> s.locks.mutex == Worker(w)))
    && (s.locks.mutex.Poster? ==> s.locks.mutex.p in s.posters)
  }

  ghost predicate DoneLockOk(s: State) {
    && (s.main.HoldsDone() <==> s.locks.done == EventLoop)
    && (forall w {:trigger s.pc[w]} :: w in s.pc ==> (s.pc[w].HoldsDone() <==> s.locks.done == Worker(w)))
  }

  // A worker that saw a task in the queue still finds one.
  ghost predicate TakeOk(s: State) {
    forall w {:trigger s.pc[w]} :: w in s.pc && s.pc[w].Take? ==> s.lists.queue != []
  }

  ghost function Owed(s: State): set<Tid> { set w | w in s.pc && s.pc[w].Owed() }
  ghost function Coming(s: State): set<Tid> { set w | w in s.pc && s.pc[w].Coming() }

  // What the poster that holds the mutex is about to do.
  ghost function Posting(s: State): Post {
    if s.locks.mutex.Poster? && s.locks.mutex.p in s.posters then s.posters[s.locks.mutex.p] else Idle
  }

  // "waiting" is the queue length less the workers that counted themselves out in advance.
  ghost predicate Counted(s: State) {
    && s.waiting == |s.lists.queue| - |Owed(s)| - (if Posting(s).Incr? then 1 else 0)
    && s.waiting <= s.maxQueue
    && (Posting(s).Mark? || Posting(s).Signal? || Posting(s).Enqueue? || Posting(s).Incr? ==> s.waiting < s.maxQueue)
  }

  // While a worker sleeps, enough others are awake for the tasks in the queue.
  ghost predicate NoLostWakeup(s: State) {
    (exists w :: w in s.pc && s.pc[w].Sleep?) ==> |s.lists.queue| + (if Posting(s).Enqueue? then 1 else 0) <= |Coming(s)|
  }

  // The list holds each task with place p once, and nothing else.
  ghost predicate OnList(place: map<Task, Place>, q: seq<Task>, p: Place) {
    forall t {:trigger multiset(q)[t]} :: multiset(q)[t] == if t in place && place[t] == p then 1 else 0
  }

  ghost predicate ListsOk(s: State) {
    && OnList(s.log.place, s.lists.queue, Queued)
    && OnList(s.log.place, s.lists.done, Place.Done)
    && OnList(s.log.place, s.lists.completing, Completing)
  }

  // Task i of the list leads to the next one.
  ghost predicate LinkAt(next: map<Task, Link>, q: seq<Task>, i: int)
    requires 0 <= i < |q|
  {
    q[i] in next && next[q[i]] == if i + 1 < |q| then At(q[i + 1]) else Nil
  }

  ghost predicate Leads(first: Link, next: map<Task, Link>, q: seq<Task>) {
    && first == (if q == [] then Nil else At(q[0]))
    && forall i {:trigger LinkAt(next, q, i)} :: 0 <= i < |q| ==> LinkAt(next, q, i)
  }

  ghost predicate IsChain(c: Chain, next: map<Task, Link>, q: seq<Task>) {
    Leads(c.first, next, q) && c.last == if q == [] then Head else Behind(q[|q| - 1])
  }

  ghost predicate NextOk(next: map<Task, Link>, place: map<Task, Place>, t: Task)
    requires t in place
  {
    t in next && (place[t].Fresh? || place[t].Ran? ==> next[t] == Nil)
  }

  // The links stand for the lists.
  ghost predicate LinksOk(s: State) {
    && IsChain(s.links.queue, s.links.next, s.lists.queue)
    && IsChain(s.links.done, s.links.next, s.lists.done)
    && Leads(s.links.cur, s.links.next, s.lists.completing)
    && (s.main.Loop? || s.main.TakeDone? ==> s.lists.completing == [])
    && forall t {:trigger NextOk(s.links.next, s.log.place, t)} :: t in s.log.place ==> NextOk(s.links.next, s.log.place, t)
  }

  ghost predicate HandOf(s: State, w: Tid)
    requires w in s.pc
  {
    && (s.pc[w].Unlock? || s.pc[w].Run? ==> s.pc[w].t in s.log.place && s.log.place[s.pc[w].t] == Held(w))
    && (s.pc[w].DoneLock? || s.pc[w].DoneAppend? ==> s.pc[w].t in s.log.place && s.log.place[s.pc[w].t] == Ran(w))
  }

  ghost predicate PostHand(s: State, p: Tid)
    requires p in s.posters
  {
    && (s.posters[p].Before() ==> s.posters[p].t in s.log.place && s.log.place[s.posters[p].t] == Free)
    && (s.posters[p].Signal? || s.posters[p].Enqueue? ==> s.posters[p].t in s.log.place && s.log.place[s.posters[p].t] == Fresh(p))
  }

  ghost predicate InHand(s: State, t: Task)
    requires t in s.log.place
  {
    match s.log.place[t]
    case Held(w) => w in s.pc && (s.pc[w].Unlock? || s.pc[w].Run?) && s.pc[w].t == t
    case Ran(w) => w in s.pc && (s.pc[w].DoneLock? || s.pc[w].DoneAppend?) && s.pc[w].t == t
    case Fresh(p) => p in s.posters && (s.posters[p].Signal? || s.posters[p].Enqueue?) && s.posters[p].t == t
    case _ => true
  }

  // A task in a thread's hands is where the thread's next statement says.
  ghost predicate Hands(s: State) {
    && (forall w {:trigger HandOf(s, w)} :: w in s.pc ==> HandOf(s, w))
    && (forall p {:trigger PostHand(s, p)} :: p in s.posters ==> PostHand(s, p))
    && (forall t {:trigger InHand(s, t)} :: t in s.log.place ==> InHand(s, t))
  }

  ghost predicate Entry(s: State, t: Task)
    requires t in s.log.place
  {
    && t in s.log.posts && t in s.log.runs && t in s.log.completions
    && s.log.posts[t] == s.log.runs[t] + (if s.log.place[t] == Queued || s.log.place[t].Held? then 1 else 0)
    && s.log.runs[t] == s.log.completions[t] + (if s.log.place[t].Ran? || s.log.place[t].Done? || s.log.place[t].Completing? then 1 else 0)
    && (t in s.active <==> s.log.place[t] != Free)
  }

  // Each successful post is followed by at most one run, and that by at most one completion;
  // tasks are taken in the order of posting.
  ghost predicate Ledger(s: State) {
    && (forall t {:trigger Entry(s, t)} :: t in s.log.place ==> Entry(s, t))
    && s.posted == s.taken + s.lists.queue
  }

  ghost predicate Inv(s: State) {
    && MutexOk(s) && DoneLockOk(s) && TakeOk(s) && Counted(s) && NoLostWakeup(s)
    && ListsOk(s) && LinksOk(s) && Hands(s) && Ledger(s)
  }

  lemma InitInv(s: State)
    requires Init(s)
    ensures Inv(s)
  {
    assert Owed(s) == {};
    forall t | t in s.log.place ensures NextOk(s.links.next, s.log.place, t) && InHand(s, t) && Entry(s, t) { assert Blank(s, t); }
    forall t | t in s.log.place ensures s.log.place[t] == Free { assert Blank(s, t); }
  }

  lemma SetsAfter(s: State, w: Tid, c: Pc, s': State)
    requires w in s.pc && s'.pc == s.pc[w := c]
    ensures |Owed(s')| - |Owed(s)| == (if c.Owed() then 1 else 0) - (if s.pc[w].Owed() then 1 else 0)
    ensures |Coming(s')| - |Coming(s)| == (if c.Coming() then 1 else 0) - (if s.pc[w].Coming() then 1 else 0)
  {
    Resized(Owed(s), Owed(s'), w, c.Owed());
    Resized(Coming(s), Coming(s'), w, c.Coming());
  }

  lemma Resized(a: set<Tid>, b: set<Tid>, w: Tid, has: bool)
    requires forall v :: v in b <==> if v == w then has else v in a
    ensures |b| - |a| == (if has then 1 else 0) - (if w in a then 1 else 0)
  {
    assert b == if has then a + {w} else a - {w};
  }

  // ---- links ----

  ghost predicate Once(q: seq<Task>, t: Task) { multiset(q)[t] <= 1 }

  ghost predicate NoRepeat(q: seq<Task>) { forall t {:trigger Once(q, t)} :: Once(q, t) }

  lemma Member(place: map<Task, Place>, q: seq<Task>, p: Place, t: Task)
    requires OnList(place, q, p)
    ensures t in q <==> t in place && place[t] == p
    ensures NoRepeat(q)
  {
    assert t in q <==> multiset(q)[t] > 0;
    forall u ensures Once(q, u) { assert multiset(q)[u] == if u in place && place[u] == p then 1 else 0; }
  }

  lemma LeadsFrame(first: Link, next: map<Task, Link>, q: seq<Task>, t: Task, l: Link)
    requires Leads(first, next, q) && t !in q
    ensures Leads(first, next[t := l], q)
  {
    var next' := next[t := l];
    forall i | 0 <= i < |q| ensures LinkAt(next', q, i) { assert LinkAt(next, q, i); }
  }

  lemma LastOnce(q: seq<Task>, i: int)
    requires NoRepeat(q) && 0 <= i < |q| - 1
    ensures q[i] != q[|q| - 1]
  {
    var n := |q| - 1;
    assert q == q[..n] + [q[n]] && Once(q, q[n]);
    assert multiset(q)[q[n]] == multiset(q[..n])[q[n]] + 1;
    assert q[..n][i] in multiset(q[..n]);
  }

  lemma ChainAppend(c: Chain, next: map<Task, Link>, q: seq<Task>, t: Task)
    requires IsChain(c, next, q) && NoRepeat(q) && t !in q && t in next && next[t] == Nil
    ensures IsChain(Appended(c, t), NextAfter(c, next, t), q + [t])
  {
    var next', r := NextAfter(c, next, t), q + [t];
    forall i | 0 <= i < |r| ensures LinkAt(next', r, i) {
      if i < |q| { assert LinkAt(next, q, i); }
      if i < |q| - 1 { LastOnce(q, i); }
    }
  }

  // The write behind one list does not concern another.
  lemma OtherAppend(c: Chain, next: map<Task, Link>, q: seq<Task>, t: Task, first: Link, r: seq<Task>)
    requires IsChain(c, next, q) && Leads(first, next, r) && (q != [] ==> q[|q| - 1] !in r)
    ensures Leads(first, NextAfter(c, next, t), r)
  {
    if q != [] { LeadsFrame(first, next, r, q[|q| - 1], At(t)); }
  }

  lemma LeadsDrop(first: Link, next: map<Task, Link>, q: seq<Task>)
    requires Leads(first, next, q) && q != []
    ensures q[0] in next && Leads(next[q[0]], next, q[1..])
  {
    assert LinkAt(next, q, 0);
    forall i | 0 <= i < |q| - 1 ensures LinkAt(next, q[1..], i) { assert LinkAt(next, q, i + 1); }
  }

  lemma ChainDrop(c: Chain, next: map<Task, Link>, q: seq<Task>)
    requires IsChain(c, next, q) && q != []
    ensures IsChain(Dropped(c, next), next, q[1..])
  {
    LeadsDrop(c.first, next, q);
    assert |q| > 1 ==> q[1..][0] == q[1] && q[1..][|q| - 2] == q[|q| - 1];
  }

  // ---- locks and counters ----

  lemma WorkerMutex(s: State, s': State, w: Tid)
    requires MutexOk(s) && w in s.pc && WorkerStep(s, s', w)
    ensures MutexOk(s')
  {
  }

  lemma WorkerDoneLock(s: State, s': State, w: Tid)
    requires DoneLockOk(s) && w in s.pc && WorkerStep(s, s', w)
    ensures DoneLockOk(s')
  {
  }

  // The queue has no first task exactly if it is empty.
  lemma QueueFirst(s: State)
    requires LinksOk(s)
    ensures s.links.queue.first == if s.lists.queue == [] then Nil else At(s.lists.queue[0])
  {
  }

  lemma WorkerTake(s: State, s': State, w: Tid)
    requires MutexOk(s) && TakeOk(s) && LinksOk(s) && w in s.pc && WorkerStep(s, s', w)
    ensures TakeOk(s')
  {
    QueueFirst(s);
  }

  // A worker does not hold the mutex while a poster does.
  lemma WorkerPosting(s: State, s': State, w: Tid)
    requires MutexOk(s) && w in s.pc && WorkerStep(s, s', w)
    ensures Posting(s') == Posting(s) && (s.pc[w].HoldsMutex() || s'.pc[w].HoldsMutex() ==> Posting(s) == Idle)
  {
  }

  lemma WorkerCounts(s: State, s': State, w: Tid)
    requires MutexOk(s) && Counted(s) && LinksOk(s) && w in s.pc && WorkerStep(s, s', w)
    ensures Counted(s')
  {
    SetsAfter(s, w, s'.pc[w], s');
    WorkerPosting(s, s', w);
    QueueFirst(s);
  }

  lemma WorkerWakeup(s: State, s': State, w: Tid)
    requires MutexOk(s) && NoLostWakeup(s) && LinksOk(s) && w in s.pc && WorkerStep(s, s', w)
    ensures NoLostWakeup(s')
  {
    SetsAfter(s, w, s'.pc[w], s');
    WorkerPosting(s, s', w);
    QueueFirst(s);
    if v :| v in s'.pc && s'.pc[v].Sleep? && v != w { assert s.pc[v].Sleep?; }
  }

  lemma PostMutex(s: State, s': State, p: Tid)
    requires MutexOk(s) && p in s.posters && PostStep(s, s', p)
    ensures MutexOk(s')
  {
  }

  lemma PostDoneLock(s: State, s': State, p: Tid)
    requires DoneLockOk(s) && p in s.posters && PostStep(s, s', p)
    ensures DoneLockOk(s')
  {
  }

  lemma PostTake(s: State, s': State, p: Tid)
    requires TakeOk(s) && p in s.posters && PostStep(s, s', p)
    ensures TakeOk(s')
  {
  }

  lemma PostSets(s: State, s': State, p: Tid)
    requires p in s.posters && PostStep(s, s', p)
    ensures |Owed(s')| == |Owed(s)|
    ensures if s.posters[p].Signal? && exists w :: w in s.pc && s.pc[w].Sleep? then |Coming(s')| == |Coming(s)| + 1 else s'.pc == s.pc && Coming(s') == Coming(s)
  {
    if s.posters[p].Signal? && exists w :: w in s.pc && s.pc[w].Sleep? {
      var w :| w in s.pc && s.pc[w].Sleep? && s'.pc == s.pc[w := Woken];
      SetsAfter(s, w, Woken, s');
    } else {
      assert Owed(s') == Owed(s);
    }
  }

  // The poster that steps is the one that holds the mutex, unless it takes it or does not need it.
  lemma PostPosting(s: State, s': State, p: Tid)
    requires MutexOk(s) && p in s.posters && PostStep(s, s', p)
    ensures s.posters[p].HoldsMutex() ==> Posting(s) == s.posters[p] && Posting(s') == if s.posters[p] == PostUnlock then Idle else s'.posters[p]
    ensures s.posters[p].PostLock? ==> Posting(s) == Idle && Posting(s').PostTest?
    ensures s.posters[p].Idle? ==> Posting(s') == Posting(s)
  {
  }

  lemma PostCounts(s: State, s': State, p: Tid)
    requires MutexOk(s) && Counted(s) && p in s.posters && PostStep(s, s', p)
    ensures Counted(s')
  {
    PostSets(s, s', p);
    PostPosting(s, s', p);
  }

  lemma PostWakeup(s: State, s': State, p: Tid)
    requires MutexOk(s) && NoLostWakeup(s) && p in s.posters && PostStep(s, s', p)
    ensures NoLostWakeup(s')
  {
    PostSets(s, s', p);
    PostPosting(s, s', p);
    if v :| v in s'.pc && s'.pc[v].Sleep? { assert s.pc[v].Sleep?; }
  }

  lemma MainLocks(s: State, s': State)
    requires MutexOk(s) && DoneLockOk(s) && TakeOk(s) && Counted(s) && NoLostWakeup(s) && MainStep(s, s')
    ensures MutexOk(s') && DoneLockOk(s') && TakeOk(s') && Counted(s') && NoLostWakeup(s')
  {
    assert s'.pc == s.pc && s'.posters == s.posters && s'.locks.mutex == s.locks.mutex && s'.lists.queue == s.lists.queue;
    assert Owed(s') == Owed(s) && Coming(s') == Coming(s) && Posting(s') == Posting(s);
  }

  // ---- tasks ----

  lemma Append(place: map<Task, Place>, q: seq<Task>, p: Place, t: Task)
    requires OnList(place, q, p) && !(t in place && place[t] == p)
    ensures OnList(place[t := p], q + [t], p)
  {
  }

  lemma DropHead(place: map<Task, Place>, q: seq<Task>, p: Place, p': Place)
    requires OnList(place, q, p) && q != [] && p' != p
    ensures q[0] in place && place[q[0]] == p && OnList(place[q[0] := p'], q[1..], p)
  {
    assert q == [q[0]] + q[1..];
    assert multiset(q)[q[0]] > 0;
    assert multiset(q) == multiset{q[0]} + multiset(q[1..]);
    forall t ensures multiset(q[1..])[t] == if t in place[q[0] := p'] && place[q[0] := p'][t] == p then 1 else 0 {
      assert multiset(q)[t] == if t in place && place[t] == p then 1 else 0;
    }
  }

  // A move between two other places does not touch the list.
  lemma Elsewhere(place: map<Task, Place>, q: seq<Task>, p: Place, t: Task, p': Place)
    requires OnList(place, q, p) && !(t in place && place[t] == p) && p' != p
    ensures OnList(place[t := p'], q, p)
  {
  }

  lemma WorkerListsOk(s: State, s': State, w: Tid)
    requires ListsOk(s) && LinksOk(s) && Hands(s) && w in s.pc && WorkerStep(s, s', w)
    ensures ListsOk(s')
  {
    var c, place := s.pc[w], s.log.place;
    assert HandOf(s, w);
    QueueFirst(s);
    match c
    case Take =>
      var q := s.lists.queue;
      DropHead(place, q, Queued, Held(w));
      Elsewhere(place, s.lists.done, Place.Done, q[0], Held(w));
      Elsewhere(place, s.lists.completing, Completing, q[0], Held(w));
    case Run(t) =>
      Elsewhere(place, s.lists.queue, Queued, t, Ran(w));
      Elsewhere(place, s.lists.done, Place.Done, t, Ran(w));
      Elsewhere(place, s.lists.completing, Completing, t, Ran(w));
    case DoneAppend(t) =>
      Elsewhere(place, s.lists.queue, Queued, t, Place.Done);
      Append(place, s.lists.done, Place.Done, t);
      Elsewhere(place, s.lists.completing, Completing, t, Place.Done);
    case _ =>
  }

  // A task on none of the lists.
  lemma OffLists(s: State, t: Task)
    requires ListsOk(s) && t in s.log.place && s.log.place[t] != Queued && s.log.place[t] != Place.Done && s.log.place[t] != Completing
    ensures t !in s.lists.queue && t !in s.lists.done && t !in s.lists.completing
  {
    Member(s.log.place, s.lists.queue, Queued, t);
    Member(s.log.place, s.lists.done, Place.Done, t);
    Member(s.log.place, s.lists.completing, Completing, t);
  }

  // The lists have no task in common.
  lemma OneList(s: State, t: Task)
    requires ListsOk(s)
    ensures t in s.lists.queue ==> t !in s.lists.done && t !in s.lists.completing && t in s.log.place && s.log.place[t] == Queued
    ensures t in s.lists.done ==> t !in s.lists.completing && t in s.log.place && s.log.place[t] == Place.Done
    ensures NoRepeat(s.lists.queue) && NoRepeat(s.lists.done)
  {
    Member(s.log.place, s.lists.queue, Queued, t);
    Member(s.log.place, s.lists.done, Place.Done, t);
    Member(s.log.place, s.lists.completing, Completing, t);
  }

  // ---- the links follow the lists ----

  // "next" of a task on no list is reset.
  lemma ResetLinks(s: State, t: Task)
    requires ListsOk(s) && LinksOk(s) && t in s.log.place && s.log.place[t] != Queued && s.log.place[t] != Place.Done && s.log.place[t] != Completing
    ensures var next := s.links.next[t := Nil];
      && IsChain(s.links.queue, next, s.lists.queue) && IsChain(s.links.done, next, s.lists.done) && Leads(s.links.cur, next, s.lists.completing)
      && forall u {:trigger NextOk(next, s.log.place, u)} :: u in s.log.place ==> NextOk(next, s.log.place, u)
  {
    OffLists(s, t);
    LeadsFrame(s.links.queue.first, s.links.next, s.lists.queue, t, Nil);
    LeadsFrame(s.links.done.first, s.links.next, s.lists.done, t, Nil);
    LeadsFrame(s.links.cur, s.links.next, s.lists.completing, t, Nil);
    forall u | u in s.log.place ensures NextOk(s.links.next[t := Nil], s.log.place, u) { assert NextOk(s.links.next, s.log.place, u); }
  }

  lemma NextMoved(next: map<Task, Link>, place: map<Task, Place>, t: Task, p: Place)
    requires forall u {:trigger NextOk(next, place, u)} :: u in place ==> NextOk(next, place, u)
    requires t in next && (p.Fresh? || p.Ran? ==> next[t] == Nil)
    ensures forall u {:trigger NextOk(next, place[t := p], u)} :: u in place[t := p] ==> NextOk(next, place[t := p], u)
  {
    var place' := place[t := p];
    forall u | u in place' ensures NextOk(next, place', u) { if u != t { assert NextOk(next, place, u); } }
  }

  // A task that is on no list and whose "next" is reset joins the queue.
  lemma QueueAppend(s: State, t: Task)
    requires ListsOk(s) && LinksOk(s) && t in s.log.place && s.log.place[t].Fresh?
    ensures var next := NextAfter(s.links.queue, s.links.next, t);
      && IsChain(Appended(s.links.queue, t), next, s.lists.queue + [t]) && IsChain(s.links.done, next, s.lists.done)
      && Leads(s.links.cur, next, s.lists.completing)
      && forall u {:trigger NextOk(next, s.log.place, u)} :: u in s.log.place ==> NextOk(next, s.log.place, u)
  {
    var q := s.lists.queue;
    OffLists(s, t);
    assert NextOk(s.links.next, s.log.place, t);
    if q != [] { OneList(s, q[|q| - 1]); }
    OneList(s, t);
    ChainAppend(s.links.queue, s.links.next, q, t);
    OtherAppend(s.links.queue, s.links.next, q, t, s.links.done.first, s.lists.done);
    OtherAppend(s.links.queue, s.links.next, q, t, s.links.cur, s.lists.completing);
    var next := NextAfter(s.links.queue, s.links.next, t);
    forall u | u in s.log.place ensures NextOk(next, s.log.place, u) { assert NextOk(s.links.next, s.log.place, u); }
  }

  lemma DoneListAppend(s: State, t: Task)
    requires ListsOk(s) && LinksOk(s) && t in s.log.place && s.log.place[t].Ran?
    ensures var next := NextAfter(s.links.done, s.links.next, t);
      && IsChain(Appended(s.links.done, t), next, s.lists.done + [t]) && IsChain(s.links.queue, next, s.lists.queue)
      && Leads(s.links.cur, next, s.lists.completing)
      && forall u {:trigger NextOk(next, s.log.place, u)} :: u in s.log.place ==> NextOk(next, s.log.place, u)
  {
    var q := s.lists.done;
    OffLists(s, t);
    assert NextOk(s.links.next, s.log.place, t);
    if q != [] { OneList(s, q[|q| - 1]); }
    OneList(s, t);
    ChainAppend(s.links.done, s.links.next, q, t);
    OtherAppend(s.links.done, s.links.next, q, t, s.links.queue.first, s.lists.queue);
    OtherAppend(s.links.done, s.links.next, q, t, s.links.cur, s.lists.completing);
    var next := NextAfter(s.links.done, s.links.next, t);
    forall u | u in s.log.place ensures NextOk(next, s.log.place, u) { assert NextOk(s.links.next, s.log.place, u); }
  }

  lemma WorkerLinksOk(s: State, s': State, w: Tid)
    requires ListsOk(s) && LinksOk(s) && Hands(s) && w in s.pc && WorkerStep(s, s', w)
    ensures LinksOk(s')
  {
    var c := s.pc[w];
    assert HandOf(s, w);
    QueueFirst(s);
    match c
    case Take =>
      var q := s.lists.queue;
      ChainDrop(s.links.queue, s.links.next, q);
      LeadsDrop(s.links.queue.first, s.links.next, q);
      NextMoved(s.links.next, s.log.place, q[0], Held(w));
    case Run(t) =>
      ResetLinks(s, t);
      NextMoved(s'.links.next, s.log.place, t, Ran(w));
    case DoneAppend(t) =>
      DoneListAppend(s, t);
      assert NextOk(s'.links.next, s.log.place, t);
      NextMoved(s'.links.next, s.log.place, t, Place.Done);
    case _ =>
  }

  lemma PostLinksOk(s: State, s': State, p: Tid)
    requires ListsOk(s) && LinksOk(s) && Hands(s) && p in s.posters && PostStep(s, s', p)
    ensures LinksOk(s')
  {
    assert PostHand(s, p);
    match s.posters[p]
    case Mark(t) =>
      ResetLinks(s, t);
      NextMoved(s'.links.next, s.log.place, t, Fresh(p));
    case Enqueue(t) =>
      QueueAppend(s, t);
      assert NextOk(s'.links.next, s.log.place, t);
      NextMoved(s'.links.next, s.log.place, t, Queued);
    case _ =>
  }

  // The event loop completes the first of the tasks it has taken.
  lemma FinishFirst(s: State)
    requires ListsOk(s) && LinksOk(s) && s.main == Finish && s.links.cur != Nil
    ensures s.lists.completing != [] && s.links.cur == At(s.lists.completing[0])
    ensures s.links.cur.t in s.log.place && s.log.place[s.links.cur.t] == Completing
  {
    DropHead(s.log.place, s.lists.completing, Completing, Free);
  }

  lemma MainLinksOk(s: State, s': State)
    requires ListsOk(s) && LinksOk(s) && MainStep(s, s')
    ensures LinksOk(s')
  {
    match s.main
    case TakeDone =>
      assert [] + s.lists.done == s.lists.done;
      forall u | u in s'.log.place ensures NextOk(s'.links.next, s'.log.place, u) { assert NextOk(s.links.next, s.log.place, u); }
    case Finish =>
      if s.links.cur != Nil {
        FinishFirst(s);
        LeadsDrop(s.links.cur, s.links.next, s.lists.completing);
        NextMoved(s.links.next, s.log.place, s.links.cur.t, Free);
      }
    case _ =>
  }

  lemma PostListsOk(s: State, s': State, p: Tid)
    requires ListsOk(s) && Hands(s) && p in s.posters && PostStep(s, s', p)
    ensures ListsOk(s')
  {
    var place := s.log.place;
    assert PostHand(s, p);
    match s.posters[p]
    case Mark(t) =>
      Elsewhere(place, s.lists.queue, Queued, t, Fresh(p));
      Elsewhere(place, s.lists.done, Place.Done, t, Fresh(p));
      Elsewhere(place, s.lists.completing, Completing, t, Fresh(p));
    case Enqueue(t) =>
      Append(place, s.lists.queue, Queued, t);
      Elsewhere(place, s.lists.done, Place.Done, t, Queued);
      Elsewhere(place, s.lists.completing, Completing, t, Queued);
    case _ =>
  }

  lemma MainListsOk(s: State, s': State)
    requires ListsOk(s) && LinksOk(s) && MainStep(s, s')
    ensures ListsOk(s')
  {
    match s.main
    case Finish =>
      if s.links.cur != Nil {
        var t := s.links.cur.t;
        FinishFirst(s);
        DropHead(s.log.place, s.lists.completing, Completing, Free);
        Elsewhere(s.log.place, s.lists.queue, Queued, t, Free);
        Elsewhere(s.log.place, s.lists.done, Place.Done, t, Free);
      }
    case TakeDone => TakeDoneLists(s, s');
    case _ =>
  }

  lemma TakeDoneLists(s: State, s': State)
    requires ListsOk(s) && s.main == TakeDone && MainStep(s, s')
    ensures ListsOk(s')
  {
    var place, place' := s.log.place, s'.log.place;
    assert multiset(s'.lists.completing) == multiset(s.lists.completing) + multiset(s.lists.done);
    forall t ensures multiset(s'.lists.queue)[t] == if t in place' && place'[t] == Queued then 1 else 0 {
      assert multiset(s.lists.queue)[t] == if t in place && place[t] == Queued then 1 else 0;
    }
    forall t ensures multiset(s'.lists.completing)[t] == if t in place' && place'[t] == Completing then 1 else 0 {
      assert multiset(s.lists.done)[t] == if t in place && place[t] == Place.Done then 1 else 0;
    }
  }

  lemma WorkerHands(s: State, s': State, w: Tid)
    requires ListsOk(s) && LinksOk(s) && Hands(s) && w in s.pc && WorkerStep(s, s', w)
    ensures Hands(s')
  {
    assert HandOf(s, w);
    QueueFirst(s);
    if s.pc[w].Take? { DropHead(s.log.place, s.lists.queue, Queued, Free); }
    forall v | v in s'.pc ensures HandOf(s', v) {
      assert HandOf(s, v);
    }
    forall p | p in s'.posters ensures PostHand(s', p) {
      assert PostHand(s, p);
    }
    forall t | t in s'.log.place ensures InHand(s', t) {
      if t in s.log.place { assert InHand(s, t); }
    }
  }

  lemma PostHands(s: State, s': State, p: Tid)
    requires OnePoster(s) && Hands(s) && Ledger(s) && p in s.posters && PostStep(s, s', p)
    ensures Hands(s')
  {
    assert PostHand(s, p);
    if s'.posters[p].PostLock? { assert Entry(s, s'.posters[p].t); }
    forall v | v in s'.pc ensures HandOf(s', v) {
      assert HandOf(s, v);
    }
    forall q | q in s'.posters ensures PostHand(s', q) {
      assert PostHand(s, q);
    }
    forall t | t in s'.log.place ensures InHand(s', t) {
      if t in s.log.place { assert InHand(s, t); }
    }
  }

  lemma MainHands(s: State, s': State)
    requires ListsOk(s) && LinksOk(s) && Hands(s) && MainStep(s, s')
    ensures Hands(s')
  {
    if s.main == Finish && s.links.cur != Nil { FinishFirst(s); }
    forall v | v in s'.pc ensures HandOf(s', v) {
      assert HandOf(s, v);
    }
    forall q | q in s'.posters ensures PostHand(s', q) {
      assert PostHand(s, q);
    }
    forall t | t in s'.log.place ensures InHand(s', t) {
      if t in s.log.place { assert InHand(s, t); }
    }
  }

  lemma WorkerLedger(s: State, s': State, w: Tid)
    requires ListsOk(s) && LinksOk(s) && Hands(s) && Ledger(s) && w in s.pc && WorkerStep(s, s', w)
    ensures Ledger(s')
  {
    assert HandOf(s, w);
    QueueFirst(s);
    if s.pc[w].Take? { DropHead(s.log.place, s.lists.queue, Queued, Free); }
    forall t | t in s'.log.place ensures Entry(s', t) {
      assert Entry(s, t);
    }
  }

  lemma PostLedger(s: State, s': State, p: Tid)
    requires Hands(s) && Ledger(s) && p in s.posters && PostStep(s, s', p)
    ensures Ledger(s')
  {
    assert PostHand(s, p);
    forall t | t in s'.log.place ensures Entry(s', t) {
      assert Entry(s, t);
    }
  }

  lemma MainLedger(s: State, s': State)
    requires ListsOk(s) && LinksOk(s) && Ledger(s) && MainStep(s, s')
    ensures Ledger(s')
  {
    if s.main == Finish && s.links.cur != Nil { FinishFirst(s); }
    forall t | t in s'.log.place ensures Entry(s', t) {
      assert Entry(s, t);
    }
  }

  lemma StepInv(s: State, s': State)
    requires Inv(s) && OnePoster(s) && Next(s, s')
    ensures Inv(s')
  {
    if MainStep(s, s') {
      MainLocks(s, s'); MainListsOk(s, s'); MainLinksOk(s, s'); MainHands(s, s'); MainLedger(s, s');
    } else if w :| w in s.pc && WorkerStep(s, s', w) {
      WorkerMutex(s, s', w); WorkerDoneLock(s, s', w); WorkerTake(s, s', w); WorkerCounts(s, s', w); WorkerWakeup(s, s', w);
      WorkerListsOk(s, s', w); WorkerLinksOk(s, s', w); WorkerHands(s, s', w); WorkerLedger(s, s', w);
    } else {
      var p :| p in s.posters && PostStep(s, s', p);
      PostMutex(s, s', p); PostDoneLock(s, s', p); PostTake(s, s', p); PostCounts(s, s', p); PostWakeup(s, s', p);
      PostListsOk(s, s', p); PostLinksOk(s, s', p); PostHands(s, s', p); PostLedger(s, s', p);
    }
  }

  // ---- whole runs ----

  ghost predicate Linked(run: seq<State>, i: int)
    requires 0 <= i < |run| - 1
  {
    Next(run[i], run[i + 1])
  }

  ghost predicate Steps(run: seq<State>) {
    |run| > 0 && forall i {:trigger Linked(run, i)} :: 0 <= i < |run| - 1 ==> Linked(run, i)
  }

  ghost predicate IsRun(run: seq<State>) { Steps(run) && Init(run[0]) }

  // No task is posted by two posters at once before state k.
  ghost predicate OnePosterTo(run: seq<State>, k: nat) {
    forall i {:trigger run[i]} :: 0 <= i < k && i < |run| ==> OnePoster(run[i])
  }

  lemma {:induction false} RunInv(run: seq<State>, k: nat)
    requires IsRun(run) && k < |run| && OnePosterTo(run, k)
    ensures Inv(run[k])
  {
    if k == 0 {
      InitInv(run[0]);
    } else {
      RunInv(run, k - 1);
      assert Linked(run, k - 1);
      StepInv(run[k - 1], run[k]);
    }
  }

  // The queue can outgrow max_queue only by the number of threads.
  lemma QueueBound(run: seq<State>, k: nat)
    requires IsRun(run) && k < |run| && OnePosterTo(run, k)
    ensures |run[k].lists.queue| <= run[k].maxQueue + |run[k].pc|
  {
    RunInv(run, k);
    var s := run[k];
    assert Owed(s) <= s.pc.Keys;
    SubsetSize(Owed(s), s.pc.Keys);
  }

  // Runs follow posts and completions follow runs, one for one, for every task.
  lemma AtMostOnce(run: seq<State>, k: nat, t: Task)
    requires IsRun(run) && k < |run| && t in run[k].log.place && OnePosterTo(run, k)
    ensures run[k].log.Knows(t)
    ensures var g := run[k].log; g.completions[t] <= g.runs[t] <= g.posts[t] <= g.completions[t] + 1
    ensures t !in run[k].active ==> var g := run[k].log; g.completions[t] == g.runs[t] == g.posts[t]
    ensures run[k].taken <= run[k].posted
  {
    RunInv(run, k);
    assert Entry(run[k], t);
  }

  // With a task in the queue, not all the workers sleep.
  lemma NotAllAsleep(run: seq<State>, k: nat)
    requires IsRun(run) && k < |run| && OnePosterTo(run, k) && run[k].lists.queue != [] && run[k].pc.Keys != {}
    ensures exists w :: w in run[k].pc && !run[k].pc[w].Sleep?
  {
    RunInv(run, k);
    var s := run[k];
    var w :| w in s.pc.Keys;
    if s.pc[w].Sleep? {
      assert |Coming(s)| > 0;
      var v :| v in Coming(s);
      assert !s.pc[v].Sleep?;
    }
  }
}
