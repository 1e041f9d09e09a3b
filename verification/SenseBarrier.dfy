/** The sense-reversing asymmetric barrier with closure (sense.c): the mutex-held regions as code on the
    barrier's fields, and any number of workers and one coordinator running them in any interleaving. */
module SenseBarrier {

  // ---- the barrier's fields and the regions that run with its mutex held -------------------------

  datatype Shared = Shared(max: nat, val: int, sense: bool, closed: bool)

  /** How a region of await ends: with a return value, or asleep on the condition variable. */
  datatype Outcome = Return(refused: bool) | Sleep

  function Init(max: nat): Shared {
    Shared(max, max, true, false)
  }

  /** From await's lock to its return or its first sleep. The flag says that the arrival broadcasts. */
  function Enter(b: Shared, mine: bool): (Shared, Outcome, bool) {
    if b.closed then (b, Return(true), false)
    else (b.(val := b.val - 1), if b.sense != mine then Sleep else Return(false), b.val == 1)
  }

  /** From a wakeup inside await to its return or its next sleep. */
  function Resume(b: Shared, mine: bool): Outcome {
    if b.closed then Return(false) else if b.sense != mine then Sleep else Return(false)
  }

  function Go(b: Shared, mine: bool): Shared {
    b.(val := b.max, sense := mine)
  }

  class Barrier {
    var max: nat
    var val: int
    var sense: bool
    var closed: bool

    ghost function Abs(): Shared
      reads this
    {
      Shared(max, val, sense, closed)
    }

    constructor Binit(m: nat)
      ensures Abs() == Init(m)
    {
      max := m;
      val := m;
      sense := true;
      closed := false;
    }

    method AwaitEnter(mine: bool) returns (mine': bool, outcome: Outcome, broadcast: bool)
      modifies this
      ensures (Abs(), outcome, broadcast) == Enter(old(Abs()), mine)
      ensures outcome == Return(true) <==> old(closed)
      ensures mine' == if outcome == Return(false) then !mine else mine
    {
      mine', broadcast := mine, false;
      if closed {
        return mine, Return(true), false;
      }
      var v := val;
      val := val - 1;
      if v == 1 {
        broadcast := true;
      }
      if sense != mine {
        return mine, Sleep, broadcast;
      }
      return !mine, Return(false), broadcast;
    }

    method AwaitResume(mine: bool) returns (mine': bool, outcome: Outcome)
      ensures outcome == Resume(Abs(), mine) && outcome != Return(true)
      ensures mine' == if outcome == Return(false) && !closed then !mine else mine
    {
      if closed {
        return mine, Return(false);
      }
      if sense != mine {
        return mine, Sleep;
      }
      return !mine, Return(false);
    }

    method Bgo(mine: bool) returns (mine': bool)
      modifies this
      ensures Abs() == Go(old(Abs()), mine) && mine' == !mine
    {
      val := max;
      sense := mine;
      mine' := !mine;
    }

    method Bclose()
      modifies this
      ensures Abs() == old(Abs()).(closed := true)
    {
      closed := true;
    }
  }

  // ---- the threads -------------------------------------------------------------------------------

  /** Where a thread stands: outside the barrier's calls, or asleep on cv, with or without a wakeup on its way. */
  datatype Place = Outside | Asleep(woken: bool)

  /** entered and returned count the awaits a worker has begun and has come back from released. */
  datatype Worker = Worker(place: Place, sense: bool, entered: nat, returned: nat, refused: nat)

  /** passed says that bwait has returned since the last bgo; gos counts the bgos. */
  datatype Coordinator = Coordinator(place: Place, sense: bool, passed: bool, gos: nat)

  datatype State = State(b: Shared, ws: seq<Worker>, c: Coordinator)

  datatype Event =
    | Await(w: nat)      // worker w calls await
    | Wake(w: nat)       // woken worker w gets the mutex back
    | Spurious(w: nat)   // a wakeup nobody sent
    | Bwait              // the coordinator calls bwait
    | BwaitWake
    | BwaitSpurious
    | Bgo
    | Bclose

  function Start(max: nat): State {
    State(Init(max), seq(max, _ => Worker(Outside, false, 0, 0, 0)), Coordinator(Outside, false, false, 0))
  }

  function WokenPlace(p: Place): Place {
    if p.Asleep? then Asleep(true) else p
  }

  /** pthread_cond_broadcast: every sleeper gets a wakeup. */
  function Broadcast(s: State): State {
    s.(ws := seq(|s.ws|, i requires 0 <= i < |s.ws| => s.ws[i].(place := WokenPlace(s.ws[i].place))),
       c := s.c.(place := WokenPlace(s.c.place)))
  }

  predicate Enabled(s: State, e: Event) {
    match e
    case Await(w) => w < |s.ws| && s.ws[w].place == Outside
    case Wake(w) => w < |s.ws| && s.ws[w].place == Asleep(true)
    case Spurious(w) => w < |s.ws| && s.ws[w].place.Asleep?
    case Bwait => s.c.place == Outside && !s.c.passed
    case BwaitWake => s.c.place == Asleep(true)
    case BwaitSpurious => s.c.place.Asleep?
    case Bgo => s.c.place == Outside && s.c.passed
    case Bclose => true
  }

  function Released(w: Worker): Worker {
    w.(place := Outside, sense := !w.sense, returned := w.returned + 1)
  }

  function EnterWorker(w: Worker, o: Outcome): Worker {
    match o
    case Return(true) => w.(refused := w.refused + 1)
    case Return(false) => Released(w.(entered := w.entered + 1))
    case Sleep => w.(entered := w.entered + 1, place := Asleep(false))
  }

  function ResumeWorker(w: Worker, o: Outcome, closed: bool): Worker {
    match o
    case Return(true) => w.(place := Outside, refused := w.refused + 1)
    case Return(false) => if closed then w.(place := Outside) else Released(w)
    case Sleep => w.(place := Asleep(false))
  }

  function Check(s: State): Coordinator {
    if s.b.val != 0 then s.c.(place := Asleep(false)) else s.c.(place := Outside, passed := true)
  }

  function Apply(s: State, e: Event): State
    requires Enabled(s, e)
  {
    match e
    case Await(w) =>
      var (b, o, all) := Enter(s.b, s.ws[w].sense);
      var s' := if all then Broadcast(s) else s;
      s'.(b := b, ws := s'.ws[w := EnterWorker(s.ws[w], o)])
    case Wake(w) =>
      s.(ws := s.ws[w := ResumeWorker(s.ws[w], Resume(s.b, s.ws[w].sense), s.b.closed)])
    case Spurious(w) => s.(ws := s.ws[w := s.ws[w].(place := Asleep(true))])
    case Bwait => s.(c := Check(s))
    case BwaitWake => s.(c := Check(s))
    case BwaitSpurious => s.(c := s.c.(place := Asleep(true)))
    case Bgo =>
      var s' := Broadcast(s);
      s'.(b := Go(s.b, s.c.sense), c := Coordinator(Outside, !s.c.sense, false, s.c.gos + 1))
    case Bclose => Broadcast(s).(b := s.b.(closed := true))
  }

  /** The states some interleaving reaches. */
  ghost predicate Run(max: nat, trace: seq<State>, es: seq<Event>) {
    && |trace| == |es| + 1 && trace[0] == Start(max)
    && forall i :: 0 <= i < |es| ==> Enabled(trace[i], es[i]) && trace[i + 1] == Apply(trace[i], es[i])
  }

  // ---- lock-step ---------------------------------------------------------------------------------

  function Odd(n: nat): bool {
    if n == 0 then false else !Odd(n - 1)
  }

  /** Worker w while g phases have been released: it is one call behind, level, or has arrived for the next phase. */
  predicate InStep(w: Worker, g: nat) {
    && w.sense == Odd(w.returned)
    && match w.place
       case Outside => w.entered == w.returned == g
       case Asleep(woken) =>
         w.entered == w.returned + 1 && (w.returned == g || (w.entered == g && woken))
  }

  function Arrived(ws: seq<Worker>, g: nat): nat {
    if ws == [] then 0 else (if ws[0].entered == g + 1 then 1 else 0) + Arrived(ws[1..], g)
  }

  /** The lock-step invariant, while the barrier is open. */
  ghost predicate LockStep(s: State) {
    && s.b.max == |s.ws|
    && s.b.sense == !Odd(s.c.gos) && s.c.sense == Odd(s.c.gos)
    && (forall w :: 0 <= w < |s.ws| ==> InStep(s.ws[w], s.c.gos))
    && s.b.val == |s.ws| - Arrived(s.ws, s.c.gos)
    && (s.c.passed ==> s.b.val == 0)
    && (s.c.place.Asleep? ==> !s.c.passed)
  }

  /** No sleeper waits for something that has already happened. */
  ghost predicate NoLostWakeup(s: State) {
    && (forall w :: 0 <= w < |s.ws| && s.ws[w].place == Asleep(false) ==> !s.b.closed && s.b.sense != s.ws[w].sense)
    && (s.c.place == Asleep(false) ==> s.b.val != 0)
  }

  lemma {:induction false} ArrivedUpdate(ws: seq<Worker>, g: nat, i: nat, w: Worker)
    requires i < |ws|
    ensures Arrived(ws[i := w], g) == Arrived(ws, g)
      + (if w.entered == g + 1 then 1 else 0) - (if ws[i].entered == g + 1 then 1 else 0)
  {
    if i > 0 {
      assert ws[i := w][1..] == ws[1..][i - 1 := w];
      ArrivedUpdate(ws[1..], g, i - 1, w);
    } else {
      assert ws[i := w][1..] == ws[1..];
    }
  }

  /** The count depends on the entered fields only. */
  lemma {:induction false} ArrivedSame(ws: seq<Worker>, vs: seq<Worker>, g: nat)
    requires |ws| == |vs| && forall i :: 0 <= i < |ws| ==> ws[i].entered == vs[i].entered
    ensures Arrived(ws, g) == Arrived(vs, g)
  {
    if ws != [] {
      ArrivedSame(ws[1..], vs[1..], g);
    }
  }

  lemma {:induction false} ArrivedBounds(ws: seq<Worker>, g: nat)
    ensures Arrived(ws, g) <= |ws|
    ensures Arrived(ws, g) == |ws| <==> forall i :: 0 <= i < |ws| ==> ws[i].entered == g + 1
    ensures Arrived(ws, g) == 0 <==> forall i :: 0 <= i < |ws| ==> ws[i].entered != g + 1
  {
    if ws != [] {
      ArrivedBounds(ws[1..], g);
      assert ws == [ws[0]] + ws[1..];
    }
  }

  lemma {:induction false} StartArrived(max: nat)
    ensures Arrived(Start(max).ws, 0) == 0
  {
    ArrivedBounds(Start(max).ws, 0);
  }

  lemma AwaitKeepsLockStep(s: State, w: nat)
    requires LockStep(s) && !s.b.closed && Enabled(s, Await(w))
    ensures LockStep(Apply(s, Await(w)))
  {
    var (b, o, all) := Enter(s.b, s.ws[w].sense);
    var s1 := if all then Broadcast(s) else s;
    var w' := EnterWorker(s.ws[w], o);
    assert InStep(s.ws[w], s.c.gos);
    assert o == Sleep;
    ArrivedSame(s.ws, s1.ws, s.c.gos);
    ArrivedUpdate(s1.ws, s.c.gos, w, w');
    ArrivedBounds(s1.ws[w := w'], s.c.gos);
    ArrivedBounds(s.ws, s.c.gos);
    forall i | 0 <= i < |s.ws| ensures InStep(s1.ws[i], s.c.gos) {
      assert InStep(s.ws[i], s.c.gos);
    }
  }

  lemma WakeKeepsLockStep(s: State, w: nat)
    requires LockStep(s) && !s.b.closed && Enabled(s, Wake(w))
    ensures LockStep(Apply(s, Wake(w)))
  {
    assert InStep(s.ws[w], s.c.gos);
    ArrivedUpdate(s.ws, s.c.gos, w, ResumeWorker(s.ws[w], Resume(s.b, s.ws[w].sense), false));
  }

  lemma GoKeepsLockStep(s: State)
    requires LockStep(s) && Enabled(s, Bgo)
    ensures LockStep(Apply(s, Bgo))
  {
    ArrivedBounds(s.ws, s.c.gos);
    var s' := Apply(s, Bgo);
    forall i | 0 <= i < |s.ws| ensures InStep(s'.ws[i], s'.c.gos) {
      assert InStep(s.ws[i], s.c.gos);
    }
    ArrivedBounds(s'.ws, s'.c.gos);
  }

  /** Every step of an open barrier keeps the workers in step. */
  lemma StepKeepsLockStep(s: State, e: Event)
    requires LockStep(s) && !s.b.closed && Enabled(s, e) && e != Bclose
    ensures LockStep(Apply(s, e))
  {
    match e
    case Await(w) => AwaitKeepsLockStep(s, w);
    case Wake(w) => WakeKeepsLockStep(s, w);
    case Spurious(w) =>
      assert InStep(s.ws[w], s.c.gos);
      ArrivedUpdate(s.ws, s.c.gos, w, s.ws[w].(place := Asleep(true)));
    case Bgo => GoKeepsLockStep(s);
    case _ =>
  }

  /** Every step, before and after closure, keeps sleepers from missing what they wait for. */
  lemma StepKeepsWakeups(s: State, e: Event)
    requires NoLostWakeup(s) && Enabled(s, e)
    ensures NoLostWakeup(Apply(s, e))
  {
  }

  lemma StepKeepsClosed(s: State, e: Event)
    requires Enabled(s, e)
    ensures |Apply(s, e).ws| == |s.ws|
    ensures Apply(s, e).b.closed <==> s.b.closed || e == Bclose
  {
  }

  /** In every run, at every moment: in step while the barrier is open, and no lost wakeup ever. */
  lemma {:induction false} RunInvariant(max: nat, trace: seq<State>, es: seq<Event>, i: nat)
    requires Run(max, trace, es) && i < |trace|
    ensures |trace[i].ws| == max
    ensures !trace[i].b.closed ==> LockStep(trace[i])
    ensures NoLostWakeup(trace[i])
  {
    if i == 0 {
      StartArrived(max);
    } else {
      RunInvariant(max, trace, es, i - 1);
      var s, e := trace[i - 1], es[i - 1];
      assert Enabled(s, e) && trace[i] == Apply(s, e);
      StepKeepsClosed(s, e);
      StepKeepsWakeups(s, e);
      if !trace[i].b.closed {
        StepKeepsLockStep(s, e);
      }
    }
  }

  // ---- what the invariant means --------------------------------------------------------------------

  /** In every run, while the barrier is open: no worker has come back from more awaits than there were bgos, missed a
      phase, or begun one beyond the next; and val is max less the arrivals of the current phase. */
  lemma RunPhases(max: nat, trace: seq<State>, es: seq<Event>, i: nat, w: nat)
    requires Run(max, trace, es) && i < |trace| && w < max && !trace[i].b.closed
    ensures |trace[i].ws| == max
    ensures var s := trace[i];
            s.ws[w].returned <= s.c.gos <= s.ws[w].entered <= s.c.gos + 1 && s.ws[w].entered <= s.ws[w].returned + 1
    ensures trace[i].b.val == max - Arrived(trace[i].ws, trace[i].c.gos)
  {
    RunInvariant(max, trace, es, i);
    assert InStep(trace[i].ws[w], trace[i].c.gos);
  }

  /** The k-th bgo of an open barrier finds every worker inside its k-th await, and its return from there comes later. */
  lemma GoFindsAllArrived(max: nat, trace: seq<State>, es: seq<Event>, i: nat, w: nat)
    requires Run(max, trace, es) && i < |es| && es[i] == Bgo && w < max && !trace[i].b.closed
    ensures |trace[i].ws| == max
    ensures var k := trace[i].c.gos + 1;
            && trace[i + 1].c.gos == k
            && trace[i].ws[w].place.Asleep? && trace[i].ws[w].entered == k && trace[i].ws[w].returned == k - 1
  {
    RunInvariant(max, trace, es, i);
    ArrivedBounds(trace[i].ws, trace[i].c.gos);
    assert InStep(trace[i].ws[w], trace[i].c.gos);
    assert Enabled(trace[i], es[i]);
  }

  /** A coordinator that sleeps with no wakeup on its way waits for a worker that can still move. */
  lemma SomeoneCanArrive(max: nat, trace: seq<State>, es: seq<Event>, i: nat)
    requires Run(max, trace, es) && i < |trace| && !trace[i].b.closed && trace[i].c.place == Asleep(false)
    ensures exists w: nat :: w < max && (Enabled(trace[i], Await(w)) || Enabled(trace[i], Wake(w)))
  {
    var s := trace[i];
    RunInvariant(max, trace, es, i);
    ArrivedBounds(s.ws, s.c.gos);
    var w :| 0 <= w < |s.ws| && s.ws[w].entered != s.c.gos + 1;
    assert InStep(s.ws[w], s.c.gos);
    assert Enabled(s, Await(w)) || Enabled(s, Wake(w));
  }

  /** A sleeping worker gets a wakeup exactly at a bgo, at a bclose, and when the last arrival is counted. */
  lemma WorkerWoken(s: State, e: Event, w: nat)
    requires Enabled(s, e) && w < |s.ws| && s.ws[w].place == Asleep(false) && e != Spurious(w)
    ensures Apply(s, e).ws[w].place.Asleep?
    ensures Apply(s, e).ws[w].place == Asleep(true)
       <==> e == Bgo || e == Bclose || (e.Await? && !s.b.closed && Apply(s, e).b.val == 0)
  {
  }

  /** bwait returns, at once or from a wakeup, exactly if every worker has begun its await of the coming phase; else the
      coordinator sleeps. */
  lemma BwaitReturnsExactly(max: nat, trace: seq<State>, es: seq<Event>, i: nat)
    requires Run(max, trace, es) && i < |es| && (es[i] == Bwait || es[i] == BwaitWake) && !trace[i].b.closed
    ensures var s := trace[i];
            trace[i + 1] == s.(c := if forall w :: 0 <= w < |s.ws| ==> s.ws[w].entered == s.c.gos + 1
                                    then s.c.(place := Outside, passed := true) else s.c.(place := Asleep(false)))
  {
    RunInvariant(max, trace, es, i);
    ArrivedBounds(trace[i].ws, trace[i].c.gos);
    assert Enabled(trace[i], es[i]);
  }

  /** A worker woken before its release sleeps again, with no wakeup on its way. */
  lemma SleepsAgain(s: State, w: nat)
    requires Enabled(s, Wake(w)) && !s.b.closed && s.b.sense != s.ws[w].sense
    ensures Apply(s, Wake(w)).ws[w] == s.ws[w].(place := Asleep(false))
  {
  }

  // ---- every phase can end ---------------------------------------------------------------------------

  /** es leads from s to t. */
  ghost predicate Leads(s: State, es: seq<Event>, t: State)
    decreases |es|
  {
    if es == [] then s == t else Enabled(s, es[0]) && Leads(Apply(s, es[0]), es[1..], t)
  }

  /** The steps the workers have to take until all have arrived for the phase after g. */
  function Todo(ws: seq<Worker>, g: nat): nat {
    if ws == [] then 0
    else (if ws[0].entered == g + 1 then 0 else if ws[0].place.Asleep? then 2 else 1) + Todo(ws[1..], g)
  }

  lemma {:induction false} TodoUpdate(ws: seq<Worker>, vs: seq<Worker>, g: nat, i: nat)
    requires |ws| == |vs| && i < |ws| && Todo([vs[i]], g) < Todo([ws[i]], g)
    requires forall j :: 0 <= j < |ws| && j != i ==>
      ws[j].entered == vs[j].entered && (ws[j].place.Asleep? <==> vs[j].place.Asleep?)
    ensures Todo(vs, g) < Todo(ws, g)
  {
    if i > 0 {
      TodoUpdate(ws[1..], vs[1..], g, i - 1);
    } else {
      TodoSame(ws[1..], vs[1..], g);
    }
  }

  lemma {:induction false} TodoSame(ws: seq<Worker>, vs: seq<Worker>, g: nat)
    requires |ws| == |vs|
    requires forall j :: 0 <= j < |ws| ==> ws[j].entered == vs[j].entered && (ws[j].place.Asleep? <==> vs[j].place.Asleep?)
    ensures Todo(vs, g) == Todo(ws, g)
  {
    if ws != [] { TodoSame(ws[1..], vs[1..], g); }
  }

  lemma {:induction false} TodoZero(ws: seq<Worker>, g: nat)
    ensures Todo(ws, g) == 0 <==> forall i :: 0 <= i < |ws| ==> ws[i].entered == g + 1
  {
    if ws != [] {
      TodoZero(ws[1..], g);
      assert ws == [ws[0]] + ws[1..];
    }
  }

  /** A worker that has not arrived can take a step towards it. */
  lemma OneArrives(s: State, w: nat) returns (e: Event)
    requires LockStep(s) && !s.b.closed && w < |s.ws| && s.ws[w].entered != s.c.gos + 1
    ensures (e == Await(w) || e == Wake(w)) && Enabled(s, e)
    ensures Todo(Apply(s, e).ws, s.c.gos) < Todo(s.ws, s.c.gos) && Apply(s, e).c.gos == s.c.gos
  {
    assert InStep(s.ws[w], s.c.gos);
    e := if s.ws[w].place == Outside then Await(w) else Wake(w);
    TodoUpdate(s.ws, Apply(s, e).ws, s.c.gos, w);
  }

  /** Once all have arrived the coordinator can test, unless it has, and release them. */
  lemma ReleaseFollows(s: State) returns (es: seq<Event>, t: State)
    requires LockStep(s) && NoLostWakeup(s) && !s.b.closed && Todo(s.ws, s.c.gos) == 0
    ensures Leads(s, es, t) && t.c.gos == s.c.gos + 1
  {
    TodoZero(s.ws, s.c.gos);
    ArrivedBounds(s.ws, s.c.gos);
    if s.c.passed {
      es, t := [Bgo], Apply(s, Bgo);
    } else {
      var e := if s.c.place == Outside then Bwait else BwaitWake;
      var u := Apply(s, e);
      es, t := [e, Bgo], Apply(u, Bgo);
      assert [e, Bgo][1..] == [Bgo] && Leads(u, [Bgo], t);
    }
  }

  lemma {:induction false} PhaseCanEnd(s: State) returns (es: seq<Event>, t: State)
    requires LockStep(s) && NoLostWakeup(s) && !s.b.closed
    ensures Leads(s, es, t) && t.c.gos == s.c.gos + 1
    decreases Todo(s.ws, s.c.gos)
  {
    hide LockStep, NoLostWakeup, Apply;
    TodoZero(s.ws, s.c.gos);
    if Todo(s.ws, s.c.gos) == 0 {
      es, t := ReleaseFollows(s);
    } else {
      var w :| 0 <= w < |s.ws| && s.ws[w].entered != s.c.gos + 1;
      var e := OneArrives(s, w);
      StepKeepsLockStep(s, e);
      StepKeepsWakeups(s, e);
      StepKeepsClosed(s, e);
      var more;
      more, t := PhaseCanEnd(Apply(s, e));
      es := [e] + more;
      assert es[1..] == more;
    }
  }

  /** From every state that a run reaches with the barrier open, the run can go on to the next bgo. */
  lemma NextPhasePossible(max: nat, trace: seq<State>, es: seq<Event>, i: nat) returns (more: seq<Event>, t: State)
    requires Run(max, trace, es) && i < |trace| && !trace[i].b.closed
    ensures Leads(trace[i], more, t) && t.c.gos == trace[i].c.gos + 1
  {
    RunInvariant(max, trace, es, i);
    more, t := PhaseCanEnd(trace[i]);
  }

  // ---- closure -------------------------------------------------------------------------------------

  /** On a closed barrier a new await is refused at once, a worker inside leaves at its wakeup, and nobody falls asleep. */
  lemma ClosedStep(s: State, e: Event, w: nat)
    requires s.b.closed && NoLostWakeup(s) && Enabled(s, e) && w < |s.ws|
    ensures var v, v' := s.ws[w], Apply(s, e).ws[w];
            && (e == Await(w) ==> v' == v.(refused := v.refused + 1))
            && (e == Wake(w) ==> v' == v.(place := Outside))
            && (e != Await(w) && e != Wake(w) ==> v' == v)
            && v.place != Asleep(false)
  {
  }

  lemma {:induction false} RunClosed(max: nat, trace: seq<State>, es: seq<Event>, i: nat, j: nat, w: nat)
    requires Run(max, trace, es) && i <= j < |trace| && trace[i].b.closed && w < max
    ensures trace[j].b.closed && |trace[i].ws| == |trace[j].ws| == max
    ensures trace[j].ws[w].place == Outside || trace[j].ws[w].place == trace[i].ws[w].place == Asleep(true)
    ensures trace[j].ws[w].entered == trace[i].ws[w].entered && trace[j].ws[w].sense == trace[i].ws[w].sense
  {
    hide LockStep, Apply, NoLostWakeup;
    RunInvariant(max, trace, es, i);
    RunInvariant(max, trace, es, j);
    if i < j {
      RunClosed(max, trace, es, i, j - 1, w);
      RunInvariant(max, trace, es, j - 1);
      assert Enabled(trace[j - 1], es[j - 1]) && trace[j] == Apply(trace[j - 1], es[j - 1]);
      StepKeepsClosed(trace[j - 1], es[j - 1]);
      ClosedStep(trace[j - 1], es[j - 1], w);
    }
  }

  /** The barrier is closed from the first bclose on, and not before. */
  lemma {:induction false} ClosedExactly(max: nat, trace: seq<State>, es: seq<Event>, i: nat)
    requires Run(max, trace, es) && i < |trace|
    ensures trace[i].b.closed <==> Bclose in es[..i]
  {
    if i > 0 {
      ClosedExactly(max, trace, es, i - 1);
      assert Enabled(trace[i - 1], es[i - 1]) && trace[i] == Apply(trace[i - 1], es[i - 1]);
      StepKeepsClosed(trace[i - 1], es[i - 1]);
      assert es[..i] == es[..i - 1] + [es[i - 1]];
    }
  }

  /** bclose may come at any time, and wakes every sleeper. */
  lemma CloseAnyTime(s: State)
    ensures Enabled(s, Bclose)
    ensures var t := Apply(s, Bclose);
      && t.b == s.b.(closed := true) && |t.ws| == |s.ws|
      && (t.c.place == Outside || t.c.place == Asleep(true))
      && forall w :: 0 <= w < |s.ws| ==> t.ws[w] == s.ws[w].(place := if s.ws[w].place == Outside then Outside else Asleep(true))
  {
  }

  /** The calls of await that worker w has made on the barrier while it was closed, or open, as c says. */
  function Calls(trace: seq<State>, es: seq<Event>, i: nat, w: nat, c: bool): nat
    requires i < |trace| == |es| + 1
  {
    if i == 0 then 0
    else Calls(trace, es, i - 1, w, c) + if es[i - 1] == Await(w) && trace[i - 1].b.closed == c then 1 else 0
  }

  lemma StepCounts(s: State, e: Event, w: nat)
    requires Enabled(s, e) && w < |s.ws|
    ensures |Apply(s, e).ws| == |s.ws|
    ensures Apply(s, e).ws[w].refused == s.ws[w].refused + if e == Await(w) && s.b.closed then 1 else 0
    ensures Apply(s, e).ws[w].entered == s.ws[w].entered + if e == Await(w) && !s.b.closed then 1 else 0
  {
  }

  /** In every run await answers true exactly as often as it was called on a closed barrier: a worker that was inside when
      the barrier closed is let go with the answer of a release. */
  lemma {:induction false} RefusedExactly(max: nat, trace: seq<State>, es: seq<Event>, i: nat, w: nat)
    requires Run(max, trace, es) && i < |trace| && w < max
    ensures |trace[i].ws| == max
    ensures trace[i].ws[w].refused == Calls(trace, es, i, w, true)
    ensures trace[i].ws[w].entered == Calls(trace, es, i, w, false)
  {
    if i > 0 {
      RefusedExactly(max, trace, es, i - 1, w);
      assert Enabled(trace[i - 1], es[i - 1]) && trace[i] == Apply(trace[i - 1], es[i - 1]);
      StepCounts(trace[i - 1], es[i - 1], w);
    }
  }
}
