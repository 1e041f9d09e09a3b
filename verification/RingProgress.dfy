/** When the two threads of pwc.c come to a standstill: the exact states, a run that gets there, and the exact condition
    under which main returns once the walk is over. */
module RingProgress {
  import opened Rings

  // ---- standstill ----------------------------------------------------------------------------------------------------

  /** No thread has a step that changes anything, and the walk is not the one to move. */
  ghost predicate Stuck(s: State)
    requires Sized(s)
  {
    !s.main.Calling? && MainNext(s) == s && IoNext(s) == s
  }

  /** The I/O thread cannot push on, and main, which alone could make room, waits for it. */
  predicate Deadlocked(s: State) {
    s.io.Waiting? && Full(s.out) && (s.main.Joining? || (s.main.Spinning? && Full(s.inn)))
  }

  /** In every run the threads stand still exactly when main has returned or they wait for each other. */
  lemma StuckExactly(es: seq<Event>)
    ensures Stuck(Run(es)) <==> Run(es).main.Finished? || Deadlocked(Run(es))
  {
    hide Run, InSide, OutSide, FlowInv, Slot, Counted;
    RunInv(es);
    RingBounds(es);
  }

  /** The rings never hold more than they have room for. */
  lemma RingBounds(es: seq<Event>)
    ensures var s := Run(es);
      && s.inn.done <= s.inn.tail <= s.inn.head <= s.inn.done + FIFO_SIZE - 1
      && s.out.done <= s.out.tail <= s.out.head <= s.out.done + FIFO_SIZE - 1
  {
    hide Run, FlowInv, ExitInv, Slot, Item;
    RunInv(es);
  }

  // ---- a deadlock ----------------------------------------------------------------------------------------------------

  lemma RunSnoc(es: seq<Event>, e: Event)
    ensures Run(es + [e]) == Apply(Run(es), e)
  {
    assert (es + [e])[..|es|] == es;
  }

  /** Where the threads and the rings stand, but for what is in the slots. */
  predicate Stands(s: State, main: MainPc, io: IoPc, pushed: nat, released: nat, taken: nat, sent: nat) {
    && s.main == main && s.io == io && !s.shouldExit && !s.seen && s.out.done == 0
    && s.inn.head == pushed && s.inn.done == released && s.inn.tail == taken && s.out.head == sent
  }

  /** The walk finds one more file, and push has room for it. */
  lemma PushOne(es: seq<Event>, f: File, io: IoPc, pushed: nat, released: nat, taken: nat, sent: nat) returns (fs: seq<Event>)
    requires Stands(Run(es), Calling, io, pushed, released, taken, sent) && pushed != released + 511 && sent <= 256
    ensures Stands(Run(fs), Calling, io, pushed + 1, released, taken, sent)
  {
    hide Run, Slot, Counted, Held;
    RunSnoc(es, NextFile(f));
    fs := es + [NextFile(f)];
    for k := 0 to 4
      invariant Stands(Run(fs), if k == 0 then Spinning(f) else if k == 1 then Writing(f) else if k == 2 then Publishing(f)
                                else if k == 3 then Checking else Calling, io,
                       if k < 3 then pushed else pushed + 1, released, taken, sent)
    {
      RunSnoc(fs, MainStep);
      fs := fs + [MainStep];
    }
  }

  lemma PushMany(es: seq<Event>, f: File, io: IoPc, pushed: nat, released: nat, taken: nat, sent: nat, k: nat)
    returns (fs: seq<Event>)
    requires Stands(Run(es), Calling, io, pushed, released, taken, sent) && pushed + k <= released + 511 && sent <= 256
    ensures Stands(Run(fs), Calling, io, pushed + k, released, taken, sent)
  {
    hide Run;
    fs := es;
    for j := 0 to k
      invariant Stands(Run(fs), Calling, io, pushed + j, released, taken, sent)
    {
      fs := PushOne(fs, f, io, pushed + j, released, taken, sent);
    }
  }

  function IoRun(s: State, n: nat): (t: State)
    requires Sized(s)
    ensures Sized(t)
    decreases n
  {
    if n == 0 then s else IoRun(IoNext(s), n - 1)
  }

  function Repeat(e: Event, n: nat): seq<Event> {
    if n == 0 then [] else [e] + Repeat(e, n - 1)
  }

  lemma {:induction false} RunIo(es: seq<Event>, n: nat)
    ensures Run(es + Repeat(IoStep, n)) == IoRun(Run(es), n)
    decreases n
  {
    hide Run, IoNext;
    if n == 0 {
      assert es + [] == es;
    } else {
      RunSnoc(es, IoStep);
      RunIo(es + [IoStep], n - 1);
      assert es + Repeat(IoStep, n) == es + [IoStep] + Repeat(IoStep, n - 1);
    }
  }

  /** One item from ring to ring takes the I/O thread six steps, if there is room. */
  lemma MoveOne(s: State, main: MainPc, pushed: nat, released: nat, taken: nat, sent: nat)
    requires Sized(s) && Stands(s, main, LoopTest, pushed, released, taken, sent) && pushed != taken && sent != 511
    ensures Stands(IoRun(s, 6), main, LoopTest, pushed, released, taken + 1, sent + 1)
  {
    hide Slot, Counted, Held;
    var s1 := IoNext(s);
    var s2 := IoNext(s1);
    var s3 := IoNext(s2);
    var s4 := IoNext(s3);
    var s5 := IoNext(s4);
    var s6 := IoNext(s5);
    assert IoRun(s6, 0) == s6;
    assert IoRun(s5, 1) == s6;
    assert IoRun(s4, 2) == s6;
    assert IoRun(s3, 3) == s6;
    assert IoRun(s2, 4) == s6;
    assert IoRun(s1, 5) == s6;
  }

  lemma MoveMany(es: seq<Event>, main: MainPc, pushed: nat, released: nat, taken: nat, sent: nat, k: nat)
    returns (fs: seq<Event>)
    requires Stands(Run(es), main, LoopTest, pushed, released, taken, sent) && taken + k <= pushed && sent + k <= 511
    ensures Stands(Run(fs), main, LoopTest, pushed, released, taken + k, sent + k)
  {
    hide Run, IoRun;
    fs := es;
    for j := 0 to k
      invariant Stands(Run(fs), main, LoopTest, pushed, released, taken + j, sent + j)
    {
      MoveOne(Run(fs), main, pushed, released, taken + j, sent + j);
      RunIo(fs, 6);
      fs := fs + Repeat(IoStep, 6);
    }
  }

  /** The I/O thread looks into the first ring and finds something. */
  lemma BeginDrain(es: seq<Event>, main: MainPc, pushed: nat, released: nat, taken: nat, sent: nat) returns (fs: seq<Event>)
    requires Stands(Run(es), main, LoadExit, pushed, released, taken, sent) && pushed != taken
    ensures Stands(Run(fs), main, LoopTest, pushed, released, taken, sent)
  {
    hide Run, Slot, Counted, Held;
    RunSnoc(es, IoStep);
    fs := es + [IoStep];
    RunSnoc(fs, IoStep);
    fs := fs + [IoStep];
  }

  /** It has drained it and gives its slots back. */
  lemma EndDrain(es: seq<Event>, main: MainPc, pushed: nat, released: nat, sent: nat) returns (fs: seq<Event>)
    requires Stands(Run(es), main, LoopTest, pushed, released, pushed, sent)
    ensures Stands(Run(fs), main, LoadExit, pushed, pushed, pushed, sent)
  {
    hide Run, Slot, Counted, Held;
    RunSnoc(es, IoStep);
    fs := es + [IoStep];
    RunSnoc(fs, IoStep);
    fs := fs + [IoStep];
    RunSnoc(fs, IoStep);
    fs := fs + [IoStep];
  }

  /** With 513 files the program can deadlock, whatever they hold: main pushes 511 while the I/O thread, one behind, does
      not run, then waits for room; the I/O thread, releasing nothing before it has drained the ring, fills the other. */
  lemma DeadlockReachable(f: File) returns (es: seq<Event>)
    ensures Deadlocked(Run(es)) && Run(es).main.Spinning? && |Walked(es)| == 513
  {
    hide Run, Walked, Slot, Counted, Held, Stands;
    es := [];
    assert Stands(Run(es), Calling, LoadExit, 0, 0, 0, 0) by { BeginsEmpty(); }
    es := PushMany(es, f, LoadExit, 0, 0, 0, 0, 1);
    es := BeginDrain(es, Calling, 1, 0, 0, 0);
    es := MoveMany(es, Calling, 1, 0, 0, 0, 1);
    es := EndDrain(es, Calling, 1, 0, 1);
    es := PushMany(es, f, LoadExit, 1, 1, 1, 1, 511);
    RunSnoc(es, NextFile(f));
    es := es + [NextFile(f)];
    OneFileMore(Run(es[..|es| - 1]), f, 512, 1, 1, 1);
    assert es[..|es| - 1] + [NextFile(f)] == es;
    es := BeginDrain(es, Spinning(f), 512, 1, 1, 1);
    es := MoveMany(es, Spinning(f), 512, 1, 1, 1, 510);
    SentCount(es);
    es := LastItem(es, f);
    SentIsWalked(es);
  }

  lemma BeginsEmpty()
    ensures Stands(Run([]), Calling, LoadExit, 0, 0, 0, 0)
  {
  }

  lemma OneFileMore(s: State, f: File, pushed: nat, released: nat, taken: nat, sent: nat)
    requires Sized(s) && Stands(s, Calling, LoadExit, pushed, released, taken, sent)
    ensures Stands(Apply(s, NextFile(f)), Spinning(f), LoadExit, pushed, released, taken, sent)
  {
  }

  lemma SentCount(es: seq<Event>)
    ensures |Run(es).inn.sent| == Run(es).inn.head
  {
    hide Run, Slot, Item, FlowInv, ExitInv;
    RunInv(es);
  }

  /** The item for which the second ring has no room. */
  lemma LastItem(es: seq<Event>, f: File) returns (fs: seq<Event>)
    requires Stands(Run(es), Spinning(f), LoopTest, 512, 1, 511, 511)
    ensures Deadlocked(Run(fs)) && Run(fs).main == Spinning(f)
    ensures Run(fs).inn.sent == Run(es).inn.sent && Run(es).inn.head == 512
  {
    hide Run, Slot, Counted, Held;
    fs := es;
    for k := 0 to 3
      invariant var s := Run(fs); s.main == Spinning(f) && s.inn.head == 512 && s.inn.done == 1 && s.out.head == 511 && s.out.done == 0
      invariant var s := Run(fs); s.inn.tail == if k == 0 then 511 else 512
      invariant Run(fs).inn.sent == Run(es).inn.sent
      invariant k == 0 ==> Run(fs).io.LoopTest?
      invariant k == 1 ==> Run(fs).io.Counting?
      invariant k == 2 ==> Run(fs).io.Copying?
      invariant k == 3 ==> Run(fs).io.Waiting?
    {
      RunSnoc(fs, IoStep);
      fs := fs + [IoStep];
    }
  }

  // ---- the end of the walk -----------------------------------------------------------------------------------------------

  /** What the I/O thread still has to push on, and what the second ring has room for. */
  function Left(s: State): int {
    s.inn.head - s.inn.tail + if HoldsIn(s.io) then 1 else 0
  }

  function Room(s: State): int {
    FIFO_SIZE - 1 - (s.out.head - s.out.done)
  }

  /** While main waits for the I/O thread, both shrink together. */
  lemma IoKeepsBalance(s: State)
    requires Sized(s) && s.main.Joining?
    ensures IoNext(s).main.Joining? && Room(IoNext(s)) - Left(IoNext(s)) == Room(s) - Left(s)
  {
    hide Slot, Counted, Held;
  }

  lemma ExitedLeavesNothing(s: State)
    requires Sized(s) && Inv(s) && s.io.Exited?
    ensures Left(s) == 0 <= Room(s)
  {
    hide Slot, Item, Counted, Held, FlowInv;
  }

  function Stage(io: IoPc): nat {
    match io
    case LoadExit => 11 case IfTest => 10 case LoopTest => 9 case Counting => 8 case Copying => 7 case Waiting(g) => 6
    case Filling(g) => 5 case Sending(g) => 4 case StoreDone => 3 case Decide => 2 case Exited => 0
  }

  /** 0 once the local copy of should_exit_ is set, 1 just before it is read, 2 until then. */
  function Unseen(s: State): nat {
    if s.seen then 0 else if s.io.LoadExit? then 1 else 2
  }

  /** With room for what is left, each step of the I/O thread brings it nearer to its exit. */
  lemma IoComesNearer(s: State)
    requires Sized(s) && Inv(s) && s.main.Joining? && !s.io.Exited? && Left(s) <= Room(s)
    ensures 0 <= Left(IoNext(s)) <= Left(s)
    ensures Left(IoNext(s)) == Left(s) ==>
      Unseen(IoNext(s)) < Unseen(s) || (Unseen(IoNext(s)) == Unseen(s) && Stage(IoNext(s).io) < Stage(s.io))
  {
    hide Slot, Item, Counted, Held, FlowInv;
  }

  lemma {:induction false} IoExits(s: State) returns (n: nat)
    requires Sized(s) && Inv(s) && s.main.Joining? && Left(s) <= Room(s)
    ensures IoRun(s, n).io.Exited? && IoRun(s, n).main.Joining? && Inv(IoRun(s, n))
    decreases if Left(s) >= 0 then Left(s) else 0, Unseen(s), Stage(s.io)
  {
    hide Inv, IoNext;
    if s.io.Exited? {
      n := 0;
    } else {
      LeftIsNat(s);
      IoComesNearer(s);
      IoKeepsBalance(s);
      StepKeepsInv(s, IoStep);
      n := IoExits(IoNext(s));
      n := n + 1;
    }
  }

  lemma LeftIsNat(s: State)
    requires Sized(s) && Inv(s)
    ensures Left(s) >= 0
  {
    hide Slot, Item, Counted, Held, FlowInv, ExitInv;
  }

  function MainRun(s: State, n: nat): (t: State)
    requires Sized(s)
    ensures Sized(t)
    decreases n
  {
    if n == 0 then s else MainRun(MainNext(s), n - 1)
  }

  lemma {:induction false} RunMain(es: seq<Event>, n: nat)
    ensures Run(es + Repeat(MainStep, n)) == MainRun(Run(es), n)
    decreases n
  {
    hide Run, MainNext;
    if n == 0 {
      assert es + [] == es;
    } else {
      RunSnoc(es, MainStep);
      RunMain(es + [MainStep], n - 1);
      assert es + Repeat(MainStep, n) == es + [MainStep] + Repeat(MainStep, n - 1);
    }
  }

  lemma AfterExit(s: State)
    requires Sized(s) && Inv(s) && s.io.Exited?
    ensures s.shouldExit && s.out.tail <= s.out.head
  {
    hide Slot, Item, Counted, Held, FlowInv;
  }

  function MainStage(main: MainPc): nat {
    match main
    case Joining => 5 case ReapIf => 4 case ReapLoop => 2 case Printing => 3 case ReapDone => 1 case _ => 0
  }

  /** After that main reaps what is there and returns. */
  lemma {:induction false} MainReturns(s: State) returns (n: nat)
    requires Sized(s) && s.io.Exited? && s.shouldExit && s.out.tail <= s.out.head
    requires s.main.Joining? || s.main.ReapIf? || s.main.ReapLoop? || s.main.Printing? || s.main.ReapDone? || s.main.Finished?
    ensures MainRun(s, n).main.Finished?
    decreases s.out.head - s.out.tail, MainStage(s.main)
  {
    hide Slot, Held;
    if s.main.Finished? {
      n := 0;
    } else {
      n := MainReturns(MainNext(s));
      n := n + 1;
    }
  }

  /** Whatever happens while main waits, it goes on waiting unless there was room for what was left. */
  lemma {:induction false} WaitsForever(es: seq<Event>, more: seq<Event>)
    requires Run(es).main.Joining? && Left(Run(es)) > Room(Run(es))
    ensures var s := Run(es + more); s.main.Joining? && Left(s) > Room(s)
  {
    if more == [] {
      assert es + more == es;
    } else {
      var p, e := more[..|more| - 1], more[|more| - 1];
      WaitsForever(es, p);
      assert es + more == es + p + [e];
      RunSnoc(es + p, e);
      RunInv(es + p);
      hide Run, Inv, IoNext;
      var s := Run(es + p);
      if s.io.Exited? { ExitedLeavesNothing(s); }
      IoKeepsBalance(s);
    }
  }

  /** Once the walk is over, main returns in some continuation, and then by the I/O thread running to its end and main
      after it, if and only if the second ring has room for everything still to be counted; else it never does. */
  lemma ReturnsExactly(es: seq<Event>)
    requires Run(es).main.Joining?
    ensures (exists more :: Run(es + more).main.Finished?) <==> Left(Run(es)) <= Room(Run(es))
    ensures Left(Run(es)) <= Room(Run(es)) ==> exists n: nat, k: nat :: MainRun(IoRun(Run(es), n), k).main.Finished?
  {
    hide Run, Inv, IoRun, MainRun, Left, Room;
    RunInv(es);
    if Left(Run(es)) <= Room(Run(es)) {
      var n := IoExits(Run(es));
      AfterExit(IoRun(Run(es), n));
      var k := MainReturns(IoRun(Run(es), n));
      var io, main := Repeat(IoStep, n), Repeat(MainStep, k);
      RunIo(es, n);
      RunMain(es + io, k);
      assert es + (io + main) == es + io + main;
    } else {
      forall more ensures !Run(es + more).main.Finished? { WaitsForever(es, more); }
    }
  }
}
