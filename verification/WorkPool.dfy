/** The work queues, the counting barrier and the tree walk that submits to them recursively
    (workqueue.c, barrier.c, fftw.c), in every interleaving of the worker threads and the walking thread. */
module WorkPool {

  type Task = nat

  // ---- the threads -------------------------------------------------------------------------------

  /** A callback submits its children one by one, next of them so far; counted says that binc has run for the next one
      but its insertion has not. */
  datatype Thread =
    | Look(draining: bool)
    | Sleeping(woken: bool)
    | Running(task: Task, next: nat, counted: bool)
    | Finished(task: Task) // the callback has returned, bdec has not run
    | Exited

  /** submitted and done record the order in which items were inserted and finished. */
  datatype Queue = Queue(entries: seq<Task>, items: int, shouldExit: bool, thread: Thread,
                         submitted: seq<Task>, done: seq<Task>)

  /** The thread that walks: it runs the root's callback itself and then waits. */
  datatype Walker = Working(next: nat, counted: bool) | AtWait | Waiting(woken: bool) | Returned

  datatype State = State(queues: seq<Queue>, count: int, walker: Walker)

  /** The barrier and the one thread that may wait on it. */
  datatype Gate = Gate(count: int, walker: Walker)

  datatype Option<T> = None | Some(value: T)

  /** Which children each callback submits, with which keys, on how many queues. */
  datatype Program = Program(nproc: nat, root: Task, kids: Task -> seq<Task>, key: Task -> nat)

  datatype Event =
    | LookAt(q: nat)
    | Wake(q: nat)
    | Spurious(q: nat)
    | Count(q: nat)
    | Submit(q: nat, to: nat)
    | Return(q: nat)
    | Bdec(q: nat)
    | Exit(q: nat)
    | WalkerCount
    | WalkerSubmit(to: nat)
    | WalkerReturn
    | Bwait
    | BwaitWake
    | BwaitSpurious

  function Start(p: Program): State {
    State(seq(p.nproc, _ => Queue([], 0, false, Look(false), [], [])), 0, Working(0, false))
  }

  /** selqueue: a non-zero key picks its queue, key 0 takes any. */
  predicate Selects(p: Program, t: Task, to: nat) {
    to < p.nproc && (p.key(t) == 0 || to == p.key(t) % p.nproc)
  }

  predicate Enabled(p: Program, s: State, e: Event) {
    match e
    case LookAt(q) => q < |s.queues| && s.queues[q].thread.Look?
    case Wake(q) => q < |s.queues| && s.queues[q].thread == Sleeping(true)
    case Spurious(q) => q < |s.queues| && s.queues[q].thread.Sleeping?
    case Count(q) =>
      q < |s.queues| && var t := s.queues[q].thread; t.Running? && t.next < |p.kids(t.task)| && !t.counted
    case Submit(q, to) =>
      && q < |s.queues| && to < |s.queues|
      && var t := s.queues[q].thread;
         t.Running? && t.next < |p.kids(t.task)| && t.counted && Selects(p, p.kids(t.task)[t.next], to)
    case Return(q) =>
      q < |s.queues| && var t := s.queues[q].thread; t.Running? && t.next == |p.kids(t.task)| && !t.counted
    case Bdec(q) => q < |s.queues| && s.queues[q].thread.Finished?
    case Exit(q) => q < |s.queues|
    case WalkerCount => s.walker.Working? && s.walker.next < |p.kids(p.root)| && !s.walker.counted
    case WalkerSubmit(to) =>
      && to < |s.queues| && s.walker.Working? && s.walker.next < |p.kids(p.root)| && s.walker.counted
      && Selects(p, p.kids(p.root)[s.walker.next], to)
    case WalkerReturn => s.walker.Working? && s.walker.next == |p.kids(p.root)| && !s.walker.counted
    case Bwait => s.walker == AtWait
    case BwaitWake => s.walker == Waiting(true)
    case BwaitSpurious => s.walker.Waiting?
  }

  function WokenThread(t: Thread): Thread {
    if t.Sleeping? then Sleeping(true) else t
  }

  // ---- the regions that run with a mutex held ------------------------------------------------------

  function Incremented(g: Gate): Gate {
    g.(count := g.count + 1)
  }

  /** The signal at zero reaches the waiter, if it sleeps. */
  function Decremented(g: Gate): Gate {
    Gate(g.count - 1, if g.count - 1 == 0 && g.walker.Waiting? then Waiting(true) else g.walker)
  }

  /** bwait's test, on entry and after each wakeup. */
  function Tested(g: Gate): Gate {
    g.(walker := if g.count > 0 then Waiting(false) else Returned)
  }

  class CountingBarrier {
    var count: int
    ghost var walker: Walker

    ghost function View(): Gate
      reads this
    {
      Gate(count, walker)
    }

    method Binc()
      modifies this`count
      ensures View() == Incremented(old(View()))
    {
      count := count + 1;
    }

    method Bdec()
      modifies this
      ensures View() == Decremented(old(View()))
    {
      count := count - 1;
      if count == 0 {
        walker := if walker.Waiting? then Waiting(true) else walker;
      }
    }

    method BwaitTest() returns (again: bool)
      modifies this`walker
      ensures View() == Tested(old(View())) && again == View().walker.Waiting?
    {
      again := count > 0;
      walker := if again then Waiting(false) else Returned;
    }
  }

  function Inserted(q: Queue, t: Task): Queue {
    q.(entries := q.entries + [t], items := q.items + 1, submitted := q.submitted + [t], thread := WokenThread(q.thread))
  }

  /** One turn of process_workqueue's loop; on an empty list the thread goes back to its own loop. */
  function Take(q: Queue): Queue {
    if q.entries != [] then
      q.(entries := q.entries[1..], items := q.items - 1, thread := Running(q.entries[0], 0, false))
    else
      q.(thread := Look(false))
  }

  function LookAtQueue(q: Queue): Queue
    requires q.thread.Look?
  {
    if q.thread.draining then Take(q)
    else if q.items == 0 then q.(thread := if q.shouldExit then Exited else Sleeping(false))
    else Take(q)
  }

  /** What the thread does when it comes back from its wait. */
  function Resumed(q: Queue): Queue {
    if q.items != 0 then Take(q) else q.(thread := Look(false))
  }

  function ToldToExit(q: Queue): Queue {
    q.(shouldExit := true, thread := WokenThread(q.thread))
  }

  class Workqueue {
    var entries: seq<Task>
    var items: int
    var shouldExit: bool
    ghost var thread: Thread
    ghost var submitted: seq<Task>
    ghost var done: seq<Task>

    ghost function View(): Queue
      reads this
    {
      Queue(entries, items, shouldExit, thread, submitted, done)
    }

    method InsertTail(t: Task)
      modifies this
      ensures View() == Inserted(old(View()), t)
    {
      entries := entries + [t];
      items := items + 1;
      submitted := submitted + [t];
      thread := WokenThread(thread);
    }

    method TakeFirst() returns (wi: Option<Task>)
      modifies this
      ensures View() == Take(old(View()))
      ensures wi == if old(entries) != [] then Some(old(entries)[0]) else None
    {
      if entries == [] {
        thread := Look(false);
        return None;
      }
      wi := Some(entries[0]);
      entries := entries[1..];
      items := items - 1;
      thread := Running(wi.value, 0, false);
    }

    /** The thread's loop from its lock to its exit, its wait, or the first item. */
    method Loop() returns (wi: Option<Task>)
      requires View().thread == Look(false)
      modifies this
      ensures View() == LookAtQueue(old(View()))
      ensures wi == if old(items) != 0 && old(entries) != [] then Some(old(entries)[0]) else None
    {
      if items == 0 {
        thread := if shouldExit then Exited else Sleeping(false);
        return None;
      }
      wi := TakeFirst();
    }

    method AfterWait() returns (wi: Option<Task>)
      modifies this
      ensures View() == Resumed(old(View()))
      ensures wi == if old(items) != 0 && old(entries) != [] then Some(old(entries)[0]) else None
    {
      if items == 0 {
        thread := Look(false);
        return None;
      }
      wi := TakeFirst();
    }

    method TellToExit()
      modifies this
      ensures View() == ToldToExit(old(View()))
    {
      shouldExit := true;
      thread := WokenThread(thread);
    }
  }

  // ---- what each event does ------------------------------------------------------------------------

  function Insert(qs: seq<Queue>, to: nat, t: Task): seq<Queue>
    requires to < |qs|
  {
    qs[to := Inserted(qs[to], t)]
  }

  /** The callback running in queue q's thread goes on to its next child. */
  function Advance(qs: seq<Queue>, q: nat, t: Thread): seq<Queue>
    requires q < |qs| && t.Running?
  {
    qs[q := qs[q].(thread := t.(next := t.next + 1, counted := false))]
  }

  function AtGate(s: State): Gate {
    Gate(s.count, s.walker)
  }

  function WithGate(s: State, g: Gate): State {
    s.(count := g.count, walker := g.walker)
  }

  function Apply(p: Program, s: State, e: Event): State
    requires Enabled(p, s, e)
  {
    match e
    case LookAt(q) => s.(queues := s.queues[q := LookAtQueue(s.queues[q])])
    case Wake(q) => s.(queues := s.queues[q := Resumed(s.queues[q])])
    case Spurious(q) => s.(queues := s.queues[q := s.queues[q].(thread := Sleeping(true))])
    case Count(q) =>
      WithGate(s.(queues := s.queues[q := s.queues[q].(thread := s.queues[q].thread.(counted := true))]),
               Incremented(AtGate(s)))
    case Submit(q, to) =>
      var t := s.queues[q].thread;
      s.(queues := Advance(Insert(s.queues, to, p.kids(t.task)[t.next]), q, t))
    case Return(q) => s.(queues := s.queues[q := s.queues[q].(thread := Finished(s.queues[q].thread.task))])
    case Bdec(q) =>
      var t := s.queues[q].thread.task;
      WithGate(s.(queues := s.queues[q := s.queues[q].(thread := Look(true), done := s.queues[q].done + [t])]),
               Decremented(AtGate(s)))
    case Exit(q) => s.(queues := s.queues[q := ToldToExit(s.queues[q])])
    case WalkerCount => WithGate(s, Incremented(AtGate(s)).(walker := s.walker.(counted := true)))
    case WalkerSubmit(to) =>
      s.(queues := Insert(s.queues, to, p.kids(p.root)[s.walker.next]),
         walker := Working(s.walker.next + 1, false))
    case WalkerReturn => s.(walker := AtWait)
    case Bwait => WithGate(s, Tested(AtGate(s)))
    case BwaitWake => WithGate(s, Tested(AtGate(s)))
    case BwaitSpurious => s.(walker := Waiting(true))
  }

  ghost predicate Run(p: Program, trace: seq<State>, es: seq<Event>) {
    && p.nproc > 0 && |trace| == |es| + 1 && trace[0] == Start(p)
    && forall i :: 0 <= i < |es| ==> Enabled(p, trace[i], es[i]) && trace[i + 1] == Apply(p, trace[i], es[i])
  }

  // ---- the invariant -----------------------------------------------------------------------------

  /** The item a thread has taken and not yet finished. */
  function Held(t: Thread): seq<Task> {
    if t.Running? || t.Finished? then [t.task] else []
  }

  /** The items of one queue between binc and bdec, counting the child its callback is about to insert. */
  function Outstanding(q: Queue): nat {
    |q.entries| + |Held(q.thread)| + (if q.thread.Running? && q.thread.counted then 1 else 0)
  }

  function Total(qs: seq<Queue>): nat {
    if qs == [] then 0 else Outstanding(qs[0]) + Total(qs[1..])
  }

  /** One queue by itself: its counter is the length of its list, its history splits in order into done, running and
      queued, and its thread does not sleep past work or the order to exit. */
  predicate QueueOk(q: Queue) {
    && q.items == |q.entries|
    && q.submitted == q.done + Held(q.thread) + q.entries
    && (q.thread == Sleeping(false) ==> q.entries == [] && !q.shouldExit)
  }

  predicate Selected(p: Program, q: Queue, i: nat) {
    forall k :: 0 <= k < |q.submitted| ==> Selects(p, q.submitted[k], i)
  }

  /** t has been inserted in some queue. */
  ghost predicate Submitted(qs: seq<Queue>, t: Task) {
    exists i :: 0 <= i < |qs| && t in qs[i].submitted
  }

  /** The first n children of t have been inserted. */
  ghost predicate KidsSubmitted(p: Program, qs: seq<Queue>, t: Task, n: nat) {
    n <= |p.kids(t)| && forall k :: 0 <= k < n ==> Submitted(qs, p.kids(t)[k])
  }

  ghost predicate ThreadKids(p: Program, qs: seq<Queue>, q: Queue) {
    && (q.thread.Running? ==> KidsSubmitted(p, qs, q.thread.task, q.thread.next))
    && (q.thread.Running? && q.thread.counted ==> q.thread.next < |p.kids(q.thread.task)|)
    && (q.thread.Finished? ==> KidsSubmitted(p, qs, q.thread.task, |p.kids(q.thread.task)|))
    && (forall t :: t in q.done ==> KidsSubmitted(p, qs, t, |p.kids(t)|))
  }

  /** The queues are good, and the first n children of the root are among what they were given. */
  ghost predicate QueuesInv(p: Program, qs: seq<Queue>, n: nat) {
    && |qs| == p.nproc
    && KidsSubmitted(p, qs, p.root, n)
    && forall i :: 0 <= i < |qs| ==> QueueOk(qs[i]) && Selected(p, qs[i], i) && ThreadKids(p, qs, qs[i])
  }

  function RootProgress(p: Program, w: Walker): nat {
    if w.Working? then w.next else |p.kids(p.root)|
  }

  ghost predicate Inv(p: Program, s: State) {
    && QueuesInv(p, s.queues, RootProgress(p, s.walker))
    && s.count == Total(s.queues) + (if s.walker.Working? && s.walker.counted then 1 else 0)
    && (s.walker == Waiting(false) ==> s.count > 0)
    && (s.walker.Returned? ==> s.count == 0)
    && (s.walker.Working? && s.walker.counted ==> s.walker.next < |p.kids(p.root)|)
  }

  // ---- every step keeps it -------------------------------------------------------------------------

  lemma {:induction false} TotalUpdate(qs: seq<Queue>, i: nat, q: Queue)
    requires i < |qs|
    ensures Total(qs[i := q]) == Total(qs) + Outstanding(q) - Outstanding(qs[i])
  {
    if i > 0 {
      assert qs[i := q][1..] == qs[1..][i - 1 := q];
      TotalUpdate(qs[1..], i - 1, q);
    } else {
      assert qs[i := q][1..] == qs[1..];
    }
  }

  lemma {:induction false} TotalZero(qs: seq<Queue>, i: nat)
    requires i < |qs| && Total(qs) == 0
    ensures Outstanding(qs[i]) == 0
  {
    if i > 0 {
      TotalZero(qs[1..], i - 1);
    }
  }

  lemma KidsSubmittedGrows(p: Program, qs: seq<Queue>, i: nat, q: Queue, t: Task, n: nat)
    requires i < |qs| && qs[i].submitted <= q.submitted && KidsSubmitted(p, qs, t, n)
    ensures KidsSubmitted(p, qs[i := q], t, n)
  {
    forall k | 0 <= k < n ensures Submitted(qs[i := q], p.kids(t)[k]) {
      var j :| 0 <= j < |qs| && p.kids(t)[k] in qs[j].submitted;
      assert p.kids(t)[k] in qs[i := q][j].submitted;
    }
  }

  lemma ThreadKidsGrows(p: Program, qs: seq<Queue>, i: nat, q: Queue, u: Queue)
    requires i < |qs| && qs[i].submitted <= q.submitted && ThreadKids(p, qs, u)
    ensures ThreadKids(p, qs[i := q], u)
  {
    if u.thread.Running? { KidsSubmittedGrows(p, qs, i, q, u.thread.task, u.thread.next); }
    if u.thread.Finished? { KidsSubmittedGrows(p, qs, i, q, u.thread.task, |p.kids(u.thread.task)|); }
    forall t | t in u.done ensures KidsSubmitted(p, qs[i := q], t, |p.kids(t)|) {
      KidsSubmittedGrows(p, qs, i, q, t, |p.kids(t)|);
    }
  }

  /** Replacing one queue by a good one whose history has not shrunk. */
  lemma UpdateQueue(p: Program, qs: seq<Queue>, n: nat, i: nat, q: Queue)
    requires QueuesInv(p, qs, n) && i < |qs| && qs[i].submitted <= q.submitted
    requires QueueOk(q) && Selected(p, q, i) && ThreadKids(p, qs, q)
    ensures QueuesInv(p, qs[i := q], n)
    ensures Total(qs[i := q]) == Total(qs) + Outstanding(q) - Outstanding(qs[i])
  {
    TotalUpdate(qs, i, q);
    KidsSubmittedGrows(p, qs, i, q, p.root, n);
    ThreadKidsGrows(p, qs, i, q, q);
    forall j | 0 <= j < |qs| && j != i ensures ThreadKids(p, qs[i := q], qs[j]) {
      ThreadKidsGrows(p, qs, i, q, qs[j]);
    }
  }

  lemma TakeOk(q: Queue)
    requires QueueOk(q) && Held(q.thread) == []
    ensures QueueOk(Take(q)) && Outstanding(Take(q)) == Outstanding(q) && Take(q).submitted == q.submitted
  {
  }

  lemma InsertOk(p: Program, qs: seq<Queue>, n: nat, to: nat, t: Task)
    requires QueuesInv(p, qs, n) && Selects(p, t, to)
    ensures QueuesInv(p, Insert(qs, to, t), n) && Total(Insert(qs, to, t)) == Total(qs) + 1
    ensures Submitted(Insert(qs, to, t), t)
  {
    var q, q' := qs[to], Inserted(qs[to], t);
    assert q'.submitted == q'.done + Held(q'.thread) + q'.entries by {
      assert q.submitted + [t] == q.done + Held(q.thread) + (q.entries + [t]);
    }
    UpdateQueue(p, qs, n, to, q');
    assert t in Insert(qs, to, t)[to].submitted;
  }

  lemma AdvanceOk(p: Program, qs: seq<Queue>, n: nat, q: nat, t: Thread)
    requires QueuesInv(p, qs, n) && q < |qs| && qs[q].thread == t && t.Running? && t.counted
    requires t.next < |p.kids(t.task)| && Submitted(qs, p.kids(t.task)[t.next])
    ensures QueuesInv(p, Advance(qs, q, t), n) && Total(Advance(qs, q, t)) == Total(qs) - 1
  {
    var u := qs[q].(thread := t.(next := t.next + 1, counted := false));
    AtQueue(p, qs, n, q);
    hide QueuesInv, Selected;
    NextKid(p, qs, qs[q], u, t);
    SameHistory(p, qs[q], u, q);
    UpdateQueue(p, qs, n, q, u);
  }

  lemma AtQueue(p: Program, qs: seq<Queue>, n: nat, q: nat)
    requires QueuesInv(p, qs, n) && q < |qs|
    ensures QueueOk(qs[q]) && Selected(p, qs[q], q) && ThreadKids(p, qs, qs[q])
  {
    hide QueueOk, Selected, ThreadKids, KidsSubmitted;
  }

  lemma NextKid(p: Program, qs: seq<Queue>, v: Queue, u: Queue, t: Thread)
    requires v.thread == t && t.Running? && t.next < |p.kids(t.task)| && Submitted(qs, p.kids(t.task)[t.next])
    requires u == v.(thread := t.(next := t.next + 1, counted := false)) && ThreadKids(p, qs, v)
    ensures ThreadKids(p, qs, u)
  {
    hide Submitted;
  }

  lemma SameHistory(p: Program, v: Queue, u: Queue, q: nat)
    requires Selected(p, v, q) && v.submitted == u.submitted
    ensures Selected(p, u, q)
  {
  }

  lemma SubmitStep(p: Program, s: State, q: nat, to: nat)
    requires Inv(p, s) && Enabled(p, s, Submit(q, to))
    ensures Inv(p, Apply(p, s, Submit(q, to)))
  {
    var t := s.queues[q].thread;
    var kid := p.kids(t.task)[t.next];
    var n := RootProgress(p, s.walker);
    InsertOk(p, s.queues, n, to, kid);
    AdvanceOk(p, Insert(s.queues, to, kid), n, q, t);
    QueuesOnly(p, s, Advance(Insert(s.queues, to, kid), q, t));
  }

  lemma QueuesOnly(p: Program, s: State, qs: seq<Queue>)
    requires Inv(p, s) && QueuesInv(p, qs, RootProgress(p, s.walker)) && Total(qs) == Total(s.queues)
    ensures Inv(p, s.(queues := qs))
  {
  }

  lemma WalkerSubmitStep(p: Program, s: State, to: nat)
    requires Inv(p, s) && Enabled(p, s, WalkerSubmit(to))
    ensures Inv(p, Apply(p, s, WalkerSubmit(to)))
  {
    InsertOk(p, s.queues, s.walker.next, to, p.kids(p.root)[s.walker.next]);
  }

  /** A step of one thread that submits nothing and leaves the count alone. */
  lemma LocalStep(p: Program, s: State, q: nat, u: Queue)
    requires Inv(p, s) && q < |s.queues| && s.queues[q].submitted == u.submitted
    requires QueueOk(u) && ThreadKids(p, s.queues, u) && Outstanding(u) == Outstanding(s.queues[q])
    ensures Inv(p, s.(queues := s.queues[q := u]))
  {
    assert Selected(p, s.queues[q], q);
    UpdateQueue(p, s.queues, RootProgress(p, s.walker), q, u);
  }

  lemma LookStep(p: Program, s: State, q: nat)
    requires Inv(p, s) && Enabled(p, s, LookAt(q))
    ensures Inv(p, Apply(p, s, LookAt(q)))
  {
    TakeOk(s.queues[q]);
    LocalStep(p, s, q, LookAtQueue(s.queues[q]));
  }

  lemma WakeStep(p: Program, s: State, q: nat)
    requires Inv(p, s) && Enabled(p, s, Wake(q))
    ensures Inv(p, Apply(p, s, Wake(q)))
  {
    TakeOk(s.queues[q]);
    LocalStep(p, s, q, Resumed(s.queues[q]));
  }

  lemma ReturnStep(p: Program, s: State, q: nat)
    requires Inv(p, s) && Enabled(p, s, Return(q))
    ensures Inv(p, Apply(p, s, Return(q)))
  {
    LocalStep(p, s, q, s.queues[q].(thread := Finished(s.queues[q].thread.task)));
  }

  lemma ExitStep(p: Program, s: State, q: nat)
    requires Inv(p, s) && Enabled(p, s, Exit(q))
    ensures Inv(p, Apply(p, s, Exit(q)))
  {
    LocalStep(p, s, q, ToldToExit(s.queues[q]));
  }

  lemma {:induction false} TotalPositive(qs: seq<Queue>, i: nat)
    requires i < |qs|
    ensures Total(qs) >= Outstanding(qs[i])
  {
    if i > 0 {
      TotalPositive(qs[1..], i - 1);
    }
  }

  lemma CountStep(p: Program, s: State, q: nat)
    requires Inv(p, s) && Enabled(p, s, Count(q))
    ensures Inv(p, Apply(p, s, Count(q)))
  {
    TotalPositive(s.queues, q);
    var u := s.queues[q].(thread := s.queues[q].thread.(counted := true));
    UpdateQueue(p, s.queues, RootProgress(p, s.walker), q, u);
  }

  lemma BdecStep(p: Program, s: State, q: nat)
    requires Inv(p, s) && Enabled(p, s, Bdec(q))
    ensures Inv(p, Apply(p, s, Bdec(q)))
  {
    TotalPositive(s.queues, q);
    var u := s.queues[q].(thread := Look(true), done := s.queues[q].done + [s.queues[q].thread.task]);
    UpdateQueue(p, s.queues, RootProgress(p, s.walker), q, u);
  }

  lemma StepKeepsInv(p: Program, s: State, e: Event)
    requires Inv(p, s) && Enabled(p, s, e)
    ensures Inv(p, Apply(p, s, e))
  {
    match e
    case LookAt(q) => LookStep(p, s, q);
    case Wake(q) => WakeStep(p, s, q);
    case Spurious(q) => LocalStep(p, s, q, s.queues[q].(thread := Sleeping(true)));
    case Return(q) => ReturnStep(p, s, q);
    case Exit(q) => ExitStep(p, s, q);
    case Count(q) => CountStep(p, s, q);
    case Bdec(q) => BdecStep(p, s, q);
    case Submit(q, to) => SubmitStep(p, s, q, to);
    case WalkerSubmit(to) => WalkerSubmitStep(p, s, to);
    case _ =>
  }

  lemma {:induction false} StartTotal(n: nat)
    ensures Total(seq(n, _ => Queue([], 0, false, Look(false), [], []))) == 0
  {
    if n > 0 {
      var f := (_: nat) => Queue([], 0, false, Look(false), [], []);
      StartTotal(n - 1);
      assert seq(n, f)[1..] == seq(n - 1, f);
      assert seq(n, f) == seq(n, _ => Queue([], 0, false, Look(false), [], []));
      assert seq(n - 1, f) == seq(n - 1, _ => Queue([], 0, false, Look(false), [], []));
    }
  }

  lemma {:induction false} RunInv(p: Program, trace: seq<State>, es: seq<Event>, i: nat)
    requires Run(p, trace, es) && i < |trace|
    ensures Inv(p, trace[i])
  {
    if i == 0 {
      StartTotal(p.nproc);
    } else {
      RunInv(p, trace, es, i - 1);
      assert Enabled(p, trace[i - 1], es[i - 1]) && trace[i] == Apply(p, trace[i - 1], es[i - 1]);
      StepKeepsInv(p, trace[i - 1], es[i - 1]);
    }
  }

  // ---- what every run guarantees -------------------------------------------------------------------

  /** The counter is the number of items between binc and bdec, wherever they are. */
  lemma CountIsOutstanding(p: Program, trace: seq<State>, es: seq<Event>, i: nat)
    requires Run(p, trace, es) && i < |trace|
    ensures trace[i].count == Total(trace[i].queues) + (if trace[i].walker.Working? && trace[i].walker.counted then 1 else 0)
  {
    RunInv(p, trace, es, i);
  }

  /** The waiting thread is never left asleep at zero, and no worker beside work or past the order to exit. */
  lemma NoLostWakeup(p: Program, trace: seq<State>, es: seq<Event>, i: nat, q: nat)
    requires Run(p, trace, es) && i < |trace| && q < p.nproc
    ensures trace[i].walker == Waiting(false) ==> trace[i].count > 0
    ensures |trace[i].queues| == p.nproc
    ensures trace[i].queues[q].thread == Sleeping(false) ==> trace[i].queues[q].items == 0 && !trace[i].queues[q].shouldExit
  {
    RunInv(p, trace, es, i);
  }

  /** Each queue's counter is its length; its items finish in the order they came, one at a time, each in exactly one place. */
  lemma QueueOrder(p: Program, trace: seq<State>, es: seq<Event>, i: nat, q: nat)
    requires Run(p, trace, es) && i < |trace| && q < p.nproc
    ensures |trace[i].queues| == p.nproc
    ensures var u := trace[i].queues[q];
            u.items == |u.entries| && u.submitted == u.done + Held(u.thread) + u.entries
  {
    RunInv(p, trace, es, i);
  }

  /** Items with the same non-zero key are all in the history of the one queue the key selects. */
  lemma SameKeySameQueue(p: Program, trace: seq<State>, es: seq<Event>, i: nat, q: nat, r: nat, t: Task, u: Task)
    requires Run(p, trace, es) && i < |trace| && q < p.nproc && r < p.nproc && p.key(t) == p.key(u) != 0
    ensures |trace[i].queues| == p.nproc
    ensures t in trace[i].queues[q].submitted && u in trace[i].queues[r].submitted ==> q == r == p.key(t) % p.nproc
  {
    RunInv(p, trace, es, i);
  }

  /** A worker thread ends only when told to, with its list empty and nothing in its hands. */
  lemma ExitsDrained(p: Program, trace: seq<State>, es: seq<Event>, i: nat, q: nat)
    requires Run(p, trace, es) && i < |es| && q < p.nproc
    ensures |trace[i].queues| == |trace[i + 1].queues| == p.nproc
    ensures trace[i + 1].queues[q].thread == Exited && trace[i].queues[q].thread != Exited ==>
      var u := trace[i + 1].queues[q];
      u.shouldExit && u.entries == [] && u.done == u.submitted
  {
    RunInv(p, trace, es, i);
    RunInv(p, trace, es, i + 1);
    assert Enabled(p, trace[i], es[i]) && trace[i + 1] == Apply(p, trace[i], es[i]);
  }

  // ---- progress -----------------------------------------------------------------------------------

  /** A thread that finds nothing comes to rest in at most two turns: asleep, or at its end if it has been told to exit. */
  lemma IdleSettles(q: Queue)
    requires QueueOk(q) && q.thread.Look? && q.entries == []
    ensures var u := LookAtQueue(q);
            (if u.thread.Look? then LookAtQueue(u) else u) == q.(thread := if q.shouldExit then Exited else Sleeping(false))
  {
  }

  /** A thread that comes back from its wait takes the first item at once, if there is one. */
  lemma WokenTakes(q: Queue)
    requires QueueOk(q) && q.thread == Sleeping(true) && q.entries != []
    ensures Resumed(q) == q.(entries := q.entries[1..], items := q.items - 1, thread := Running(q.entries[0], 0, false))
  {
  }

  /** A queue is told to exit exactly by the order to exit, at any earlier time. */
  lemma {:induction false} ToldExactly(p: Program, trace: seq<State>, es: seq<Event>, i: nat, q: nat)
    requires Run(p, trace, es) && i < |trace| && q < p.nproc
    ensures |trace[i].queues| == p.nproc
    ensures trace[i].queues[q].shouldExit <==> Exit(q) in es[..i]
  {
    RunInv(p, trace, es, i);
    if i > 0 {
      ToldExactly(p, trace, es, i - 1, q);
      assert Enabled(p, trace[i - 1], es[i - 1]) && trace[i] == Apply(p, trace[i - 1], es[i - 1]);
      ToldStep(p, trace[i - 1], es[i - 1], q);
      assert es[..i] == es[..i - 1] + [es[i - 1]];
    }
  }

  lemma ToldStep(p: Program, s: State, e: Event, q: nat)
    requires Enabled(p, s, e) && q < |s.queues|
    ensures |Apply(p, s, e).queues| == |s.queues|
    ensures Apply(p, s, e).queues[q].shouldExit <==> s.queues[q].shouldExit || e == Exit(q)
  {
  }

  /** The wait returns at a test, on entry or after a wakeup, exactly if nothing is outstanding anywhere; else it sleeps. */
  lemma WaitReturnsExactly(p: Program, trace: seq<State>, es: seq<Event>, i: nat)
    requires Run(p, trace, es) && i < |es| && (es[i] == Bwait || es[i] == BwaitWake)
    ensures trace[i + 1] == trace[i].(walker := if Total(trace[i].queues) == 0 then Returned else Waiting(false))
  {
    RunInv(p, trace, es, i);
    assert Enabled(p, trace[i], es[i]);
  }

  /** The walking thread can always go on, unless it sleeps with no wakeup on its way or has come back from its wait. */
  lemma WalkerCanMove(p: Program, trace: seq<State>, es: seq<Event>, i: nat)
    requires Run(p, trace, es) && i < |trace| && trace[i].walker != Waiting(false) && !trace[i].walker.Returned?
    ensures var s := trace[i];
      || Enabled(p, s, WalkerCount) || (exists to :: Enabled(p, s, WalkerSubmit(to)))
      || Enabled(p, s, WalkerReturn) || Enabled(p, s, Bwait) || Enabled(p, s, BwaitWake)
  {
    RunInv(p, trace, es, i);
    var s := trace[i];
    if s.walker.Working? && s.walker.counted {
      var kid := p.kids(p.root)[s.walker.next];
      var to: nat := if p.key(kid) == 0 then 0 else p.key(kid) % p.nproc;
      assert Enabled(p, s, WalkerSubmit(to));
    }
  }

  /** A sleeping worker gets a wakeup exactly when something comes to its queue, or the order to exit. */
  lemma WorkerWoken(p: Program, s: State, e: Event, q: nat)
    requires Enabled(p, s, e) && q < |s.queues| && s.queues[q].thread == Sleeping(false) && e != Spurious(q)
    ensures Apply(p, s, e).queues[q].thread == Sleeping(true)
       <==> ((e.Submit? || e.WalkerSubmit?) && e.to == q) || e == Exit(q)
    ensures Apply(p, s, e).queues[q].thread.Sleeping?
  {
  }

  /** The waiting thread gets a wakeup exactly when the counter comes to zero. */
  lemma WaiterWoken(p: Program, s: State, e: Event)
    requires Enabled(p, s, e) && s.walker == Waiting(false) && e != BwaitSpurious
    ensures Apply(p, s, e).walker == if e.Bdec? && Apply(p, s, e).count == 0 then Waiting(true) else Waiting(false)
  {
  }

  /** A step of queue q's thread, other than a wakeup nobody sent, is possible. */
  ghost predicate CanMove(p: Program, s: State, q: nat) {
    || Enabled(p, s, LookAt(q)) || Enabled(p, s, Wake(q)) || Enabled(p, s, Count(q))
    || (exists to :: Enabled(p, s, Submit(q, to)))
    || Enabled(p, s, Return(q)) || Enabled(p, s, Bdec(q))
  }

  /** The thread has ended and left items behind. */
  predicate Stranded(q: Queue) {
    q.thread.Exited? && q.entries != []
  }

  lemma {:induction false} SomeOutstanding(qs: seq<Queue>) returns (q: nat)
    requires Total(qs) > 0
    ensures q < |qs| && Outstanding(qs[q]) > 0
  {
    if Outstanding(qs[0]) > 0 {
      q := 0;
    } else {
      q := SomeOutstanding(qs[1..]);
      q := q + 1;
    }
  }

  lemma BusyCanMove(p: Program, s: State, q: nat)
    requires p.nproc > 0 && Inv(p, s) && q < |s.queues| && Outstanding(s.queues[q]) > 0
    ensures CanMove(p, s, q) || Stranded(s.queues[q])
  {
    var t := s.queues[q].thread;
    assert QueueOk(s.queues[q]) && ThreadKids(p, s.queues, s.queues[q]);
    if t.Running? && t.counted {
      var kid := p.kids(t.task)[t.next];
      var to: nat := if p.key(kid) == 0 then 0 else p.key(kid) % p.nproc;
      assert Enabled(p, s, Submit(q, to));
    }
  }

  /** While the walker sleeps with no wakeup on its way, there is work on some queue, and its thread can go on with it
      unless it has been told to exit and has ended. */
  lemma WaitingForSomething(p: Program, trace: seq<State>, es: seq<Event>, i: nat) returns (q: nat)
    requires Run(p, trace, es) && i < |trace| && trace[i].walker == Waiting(false)
    ensures q < |trace[i].queues| && Outstanding(trace[i].queues[q]) > 0
    ensures CanMove(p, trace[i], q) || Stranded(trace[i].queues[q])
  {
    hide CanMove, QueueOk;
    RunInv(p, trace, es, i);
    q := SomeOutstanding(trace[i].queues);
    BusyCanMove(p, trace[i], q);
  }

  // ---- the exit -----------------------------------------------------------------------------------

  /** Step k inserts into queue q, whose thread has already ended. */
  ghost predicate InsertsLate(trace: seq<State>, es: seq<Event>, k: nat, q: nat)
    requires k < |trace| && k < |es| && q < |trace[k].queues|
  {
    trace[k].queues[q].thread.Exited? && match es[k]
                                         case Submit(r, to) => to == q
                                         case WalkerSubmit(to) => to == q
                                         case _ => false
  }

  lemma ExitedStep(p: Program, s: State, e: Event, q: nat)
    requires Inv(p, s) && Enabled(p, s, e) && q < |s.queues| && s.queues[q].thread.Exited?
    ensures |Apply(p, s, e).queues| == |s.queues| && Apply(p, s, e).queues[q].thread.Exited?
    ensures var u := Apply(p, s, e).queues[q];
            if (e.Submit? || e.WalkerSubmit?) && e.to == q then u.entries != [] else u.entries == s.queues[q].entries
  {
  }

  lemma {:induction false} ExitedStays(p: Program, trace: seq<State>, es: seq<Event>, i: nat, j: nat, q: nat)
    requires Run(p, trace, es) && i <= j < |trace| && q < p.nproc
    ensures |trace[i].queues| == |trace[j].queues| == p.nproc
    ensures trace[i].queues[q].thread.Exited? ==> trace[j].queues[q].thread.Exited?
  {
    hide Inv, Apply;
    QueueCount(p, trace, es, i);
    if i < j {
      ExitedStays(p, trace, es, i, j - 1, q);
      RunInv(p, trace, es, j - 1);
      QueueCount(p, trace, es, j);
      assert Enabled(p, trace[j - 1], es[j - 1]) && trace[j] == Apply(p, trace[j - 1], es[j - 1]);
      if trace[i].queues[q].thread.Exited? { ExitedStep(p, trace[j - 1], es[j - 1], q); }
    }
  }

  lemma QueueCount(p: Program, trace: seq<State>, es: seq<Event>, i: nat)
    requires Run(p, trace, es) && i < |trace|
    ensures |trace[i].queues| == p.nproc
  {
    RunInv(p, trace, es, i);
  }

  /** Some step before i has inserted into q late. */
  ghost predicate LateBefore(p: Program, trace: seq<State>, es: seq<Event>, i: nat, q: nat)
    requires Run(p, trace, es) && i < |trace| && q < p.nproc
  {
    exists k: nat :: k < i && q < |trace[k].queues| && InsertsLate(trace, es, k, q)
  }

  lemma LateSplit(p: Program, trace: seq<State>, es: seq<Event>, i: nat, q: nat)
    requires Run(p, trace, es) && 0 < i < |trace| && q < p.nproc && |trace[i - 1].queues| == p.nproc
    ensures LateBefore(p, trace, es, i, q) <==> LateBefore(p, trace, es, i - 1, q) || InsertsLate(trace, es, i - 1, q)
  {
    hide InsertsLate, Run;
  }

  lemma NotYetLate(p: Program, trace: seq<State>, es: seq<Event>, i: nat, q: nat)
    requires Run(p, trace, es) && i < |trace| && q < p.nproc
    ensures |trace[i].queues| == p.nproc
    ensures !trace[i].queues[q].thread.Exited? ==> !LateBefore(p, trace, es, i, q)
  {
    hide Apply, Inv, Enabled;
    QueueCount(p, trace, es, i);
    if LateBefore(p, trace, es, i, q) {
      var k: nat :| k < i && q < |trace[k].queues| && InsertsLate(trace, es, k, q);
      ExitedStays(p, trace, es, k, i, q);
    }
  }

  /** A queue whose thread has ended holds something exactly if something was inserted after the end. */
  lemma {:induction false} LeftBehind(p: Program, trace: seq<State>, es: seq<Event>, i: nat, q: nat)
    requires Run(p, trace, es) && i < |trace| && q < p.nproc
    ensures |trace[i].queues| == p.nproc
    ensures trace[i].queues[q].thread.Exited? ==> (trace[i].queues[q].entries != [] <==> LateBefore(p, trace, es, i, q))
  {
    hide Inv, Apply, LateBefore;
    QueueCount(p, trace, es, i);
    if i > 0 {
      QueueCount(p, trace, es, i - 1);
      if trace[i - 1].queues[q].thread.Exited? {
        LeftBehind(p, trace, es, i - 1, q);
        RunInv(p, trace, es, i - 1);
        assert Enabled(p, trace[i - 1], es[i - 1]) && trace[i] == Apply(p, trace[i - 1], es[i - 1]);
        ExitedStep(p, trace[i - 1], es[i - 1], q);
        LateSplit(p, trace, es, i, q);
      } else if trace[i].queues[q].thread.Exited? {
        NotYetLate(p, trace, es, i - 1, q);
        LateSplit(p, trace, es, i, q);
        ExitsDrained(p, trace, es, i - 1, q);
      }
    }
  }

  /** Once every thread has ended, everything submitted is done if and only if nothing was submitted to a queue after its
      thread had ended. */
  lemma ExitIsComplete(p: Program, trace: seq<State>, es: seq<Event>, i: nat)
    requires Run(p, trace, es) && i < |trace|
    requires forall q :: 0 <= q < |trace[i].queues| ==> trace[i].queues[q].thread.Exited?
    ensures (forall q :: 0 <= q < |trace[i].queues| ==> trace[i].queues[q].done == trace[i].queues[q].submitted)
       <==> (forall q: nat :: q < p.nproc ==> !LateBefore(p, trace, es, i, q))
  {
    hide Run, Inv, LateBefore;
    QueueCount(p, trace, es, i);
    forall q: nat | q < p.nproc
      ensures trace[i].queues[q].done == trace[i].queues[q].submitted <==> !LateBefore(p, trace, es, i, q)
    {
      QueueOrder(p, trace, es, i, q);
      LeftBehind(p, trace, es, i, q);
    }
  }

  /** After the wait has returned nothing is submitted any more, so an exit that begins then is complete. */
  lemma {:induction false} NothingAfterTheWait(p: Program, trace: seq<State>, es: seq<Event>, i: nat, j: nat)
    requires Run(p, trace, es) && i <= j < |trace| && trace[i].walker.Returned?
    ensures trace[j].walker.Returned?
    ensures forall q :: 0 <= q < |trace[j].queues| ==> trace[j].queues[q].done == trace[j].queues[q].submitted
  {
    RunInv(p, trace, es, j);
    if i < j {
      NothingAfterTheWait(p, trace, es, i, j - 1);
      assert Enabled(p, trace[j - 1], es[j - 1]) && trace[j] == Apply(p, trace[j - 1], es[j - 1]);
    }
    forall q | 0 <= q < |trace[j].queues| ensures trace[j].queues[q].done == trace[j].queues[q].submitted {
      TotalZero(trace[j].queues, q);
      assert QueueOk(trace[j].queues[q]);
    }
  }

  /** path leads from the root down the tree of submissions. */
  predicate IsPath(p: Program, path: seq<Task>) {
    && path != [] && path[0] == p.root
    && forall k :: 0 < k < |path| ==> path[k] in p.kids(path[k - 1])
  }

  ghost predicate Done(qs: seq<Queue>, t: Task) {
    exists i :: 0 <= i < |qs| && t in qs[i].done
  }

  lemma SubmittedIsDone(p: Program, s: State, t: Task)
    requires Inv(p, s) && s.walker.Returned? && Submitted(s.queues, t)
    ensures Done(s.queues, t)
  {
    var i :| 0 <= i < |s.queues| && t in s.queues[i].submitted;
    TotalZero(s.queues, i);
    assert QueueOk(s.queues[i]);
    assert t in s.queues[i].done;
  }

  lemma {:induction false} PathIsDone(p: Program, s: State, path: seq<Task>)
    requires Inv(p, s) && s.walker.Returned? && IsPath(p, path) && |path| > 1
    ensures Done(s.queues, path[|path| - 1])
  {
    var t, kid := path[|path| - 2], path[|path| - 1];
    if |path| > 2 {
      PathIsDone(p, s, path[..|path| - 1]);
      var i :| 0 <= i < |s.queues| && t in s.queues[i].done;
      assert ThreadKids(p, s.queues, s.queues[i]);
    }
    assert KidsSubmitted(p, s.queues, t, |p.kids(t)|);
    var k :| 0 <= k < |p.kids(t)| && p.kids(t)[k] == kid;
    SubmittedIsDone(p, s, kid);
  }

  /** When the wait returns, every item submitted anywhere below the root has finished its callback. */
  lemma WaitDetectsTermination(p: Program, trace: seq<State>, es: seq<Event>, i: nat, path: seq<Task>)
    requires Run(p, trace, es) && i < |trace| && trace[i].walker.Returned? && IsPath(p, path) && |path| > 1
    ensures Done(trace[i].queues, path[|path| - 1])
    ensures trace[i].count == 0 && forall q :: 0 <= q < |trace[i].queues| ==> Outstanding(trace[i].queues[q]) == 0
  {
    RunInv(p, trace, es, i);
    PathIsDone(p, trace[i], path);
    forall q | 0 <= q < |trace[i].queues| ensures Outstanding(trace[i].queues[q]) == 0 {
      TotalZero(trace[i].queues, q);
    }
  }
}
