/** Two single-producer, single-consumer rings in a row (pwc.c): the main thread pushes files into the first, the I/O
    thread counts their lines and pushes them into the second, the main thread reaps that. Slots are written at
    head + 1 and read at tail, so each ring delivers one item late. */
module Rings {

  const FIFO_SIZE := 512

  datatype File = File(path: string, data: string, lines: nat)

  /** A slot nothing has been stored in. */
  const BLANK := File("", "", 0)

  function Newlines(data: string): nat {
    multiset(data)['\n']
  }

  function Counted(f: File): File {
    f.(lines := Newlines(f.data))
  }

  // ---- counting lines --------------------------------------------------------------------------------------

  /** memchr: the first newline at or after base, |data| if there is none. */
  function MemChr(data: string, base: nat): (k: nat)
    requires base <= |data|
    ensures base <= k <= |data| && (k < |data| ==> data[k] == '\n') && '\n' !in data[base..k]
    decreases |data| - base
  {
    if base == |data| || data[base] == '\n' then base else MemChr(data, base + 1)
  }

  lemma Skip(data: string, base: nat, found: nat)
    requires base <= found <= |data| && '\n' !in data[base..found]
    ensures found == |data| ==> Newlines(data[base..]) == 0
    ensures found < |data| && data[found] == '\n' ==> Newlines(data[base..]) == 1 + Newlines(data[found + 1..])
  {
    assert data[base..] == data[base..found] + data[found..];
    if found < |data| {
      assert data[found..] == [data[found]] + data[found + 1..];
    }
  }

  method Lines(data: string) returns (ctr: nat)
    ensures ctr == Newlines(data)
  {
    hide Newlines;
    assert data[0..] == data;
    ctr := 0;
    var base := 0;
    while true
      invariant base <= |data| && ctr + Newlines(data[base..]) == Newlines(data)
      decreases |data| - base
    {
      var found := MemChr(data, base);
      Skip(data, base, found);
      if found == |data| { break; }
      ctr := ctr + 1;
      base := found + 1;
    }
  }

  // ---- one ring ----------------------------------------------------------------------------------------------

  /** head and done are shared, tail belongs to the consumer; sent is everything published so far. */
  datatype Ring = Ring(slots: seq<File>, head: nat, done: nat, tail: nat, sent: seq<File>)

  function Slot(n: nat): (k: nat)
    ensures k < FIFO_SIZE
  {
    n % FIFO_SIZE
  }

  lemma SlotsDiffer(a: nat, b: nat)
    requires a < b < a + FIFO_SIZE
    ensures Slot(a) != Slot(b)
  {
    assert a == a / FIFO_SIZE * FIFO_SIZE + a % FIFO_SIZE;
    assert b == b / FIFO_SIZE * FIFO_SIZE + b % FIFO_SIZE;
  }

  /** What a reader of position t finds: the t-th file pushed, counting from one, and before that the blank. */
  function Item(sent: seq<File>, t: nat): File
    requires t <= |sent|
  {
    if t == 0 then BLANK else sent[t - 1]
  }

  predicate Full(r: Ring) {
    r.head - r.done == FIFO_SIZE - 1
  }

  function Fill(r: Ring, f: File): Ring
    requires |r.slots| == FIFO_SIZE
  {
    r.(slots := r.slots[Slot(r.head + 1) := f])
  }

  function Publish(r: Ring, f: File): Ring {
    r.(head := r.head + 1, sent := r.sent + [f])
  }

  function Take(r: Ring): Ring {
    r.(tail := r.tail + 1)
  }

  /** The slot the consumer took last. */
  function Held(r: Ring): File
    requires |r.slots| == FIFO_SIZE && r.tail > 0
  {
    r.slots[Slot(r.tail - 1)]
  }

  function Mark(r: Ring, f: File): Ring
    requires |r.slots| == FIFO_SIZE && r.tail > 0
  {
    r.(slots := r.slots[Slot(r.tail - 1) := f])
  }

  function Release(r: Ring): Ring {
    r.(done := r.tail)
  }

  // ---- the same, step by step on the shared array ------------------------------------------------------------------

  class Fifo {
    const slots: array<File>
    var head: nat
    var done: nat
    var tail: nat
    ghost var sent: seq<File>

    constructor ()
      ensures Valid() && fresh(slots) && View() == EmptyRing()
    {
      slots := new File[FIFO_SIZE](_ => BLANK);
      head, done, tail, sent := 0, 0, 0, [];
      new;
      assert slots[..] == EmptyRing().slots;
    }

    predicate Valid() {
      slots.Length == FIFO_SIZE
    }

    ghost function View(): Ring
      reads this, slots
    {
      Ring(slots[..], head, done, tail, sent)
    }

    /** push: the test it spins on, the store to the slot, the store to the head. */
    method Blocked() returns (full: bool)
      ensures full == Full(View())
    {
      full := head - done == FIFO_SIZE - 1;
    }

    method Store(f: File)
      requires Valid()
      modifies slots
      ensures View() == Fill(old(View()), f)
    {
      slots[Slot(head + 1)] := f;
      assert slots[..] == old(slots[..])[Slot(head + 1) := f];
    }

    method Advance(ghost f: File)
      modifies this`head, this`sent
      ensures View() == Publish(old(View()), f)
    {
      head := head + 1;
      sent := sent + [f];
    }

    /** The consumer: one position on; then, on the I/O thread, the lines counted in place. */
    method TakeNext() returns (i: nat)
      requires Valid()
      modifies this`tail
      ensures View() == Take(old(View())) && i == Slot(tail - 1) && slots[i] == Held(View())
    {
      i := Slot(tail);
      tail := tail + 1;
    }

    method CountLines(i: nat)
      requires Valid() && tail > 0 && i == Slot(tail - 1)
      modifies slots
      ensures View() == Mark(old(View()), Counted(Held(old(View()))))
    {
      var n := Lines(slots[i].data);
      slots[i] := slots[i].(lines := n);
      assert slots[..] == old(slots[..])[i := slots[i]];
    }

    method StoreDone()
      modifies this`done
      ensures View() == Release(old(View()))
    {
      done := tail;
    }
  }

  /** ready: the producer has seen room. holding: the consumer has taken a slot it has not released. */
  ghost predicate RingInv(r: Ring, ready: bool, holding: bool) {
    && |r.slots| == FIFO_SIZE && |r.sent| == r.head
    && r.done <= r.tail <= r.head < r.done + FIFO_SIZE
    && (ready ==> r.head + 1 < r.done + FIFO_SIZE)
    && (holding ==> r.done < r.tail)
    && forall t :: r.tail <= t <= r.head ==> r.slots[Slot(t)] == Item(r.sent, t)
  }

  /** What the producer has stored but not published yet. */
  predicate Staged(r: Ring, f: File)
    requires |r.slots| == FIFO_SIZE
  {
    r.slots[Slot(r.head + 1)] == f
  }

  lemma FillKeeps(r: Ring, f: File, holding: bool)
    requires RingInv(r, true, holding)
    ensures RingInv(Fill(r, f), true, holding) && Staged(Fill(r, f), f)
    ensures holding ==> Held(Fill(r, f)) == Held(r)
  {
    hide Slot;
    if holding { SlotsDiffer(r.tail - 1, r.head + 1); }
    forall t | r.tail <= t <= r.head ensures Fill(r, f).slots[Slot(t)] == Item(r.sent, t) {
      SlotsDiffer(t, r.head + 1);
    }
  }

  lemma PublishKeeps(r: Ring, f: File, holding: bool)
    requires RingInv(r, true, holding) && Staged(r, f)
    ensures RingInv(Publish(r, f), false, holding)
    ensures holding ==> Held(Publish(r, f)) == Held(r)
    ensures forall t :: 0 <= t <= |r.sent| ==> Item(Publish(r, f).sent, t) == Item(r.sent, t)
  {
    hide Slot;
  }

  /** Read number t returns push number t. */
  lemma TakeKeeps(r: Ring, ready: bool, holding: bool)
    requires RingInv(r, ready, holding) && r.head != r.tail
    ensures RingInv(Take(r), ready, true) && Held(Take(r)) == Item(r.sent, r.tail)
  {
    hide Slot;
  }

  lemma MarkKeeps(r: Ring, f: File, ready: bool)
    requires RingInv(r, ready, true)
    ensures RingInv(Mark(r, f), ready, true) && Held(Mark(r, f)) == f
    ensures forall g :: ready && Staged(r, g) ==> Staged(Mark(r, f), g)
  {
    hide Slot;
    if ready { SlotsDiffer(r.tail - 1, r.head + 1); }
    forall t | r.tail <= t <= r.head ensures Mark(r, f).slots[Slot(t)] == Item(r.sent, t) {
      SlotsDiffer(r.tail - 1, t);
    }
  }

  /** The slot the producer writes next is one its consumer neither holds nor has yet to read. */
  ghost predicate Untorn(r: Ring, holding: bool) {
    && (holding ==> r.tail > 0 && Slot(r.head + 1) != Slot(r.tail - 1))
    && forall t :: r.tail <= t <= r.head ==> Slot(r.head + 1) != Slot(t)
  }

  lemma NoTear(r: Ring, holding: bool)
    requires RingInv(r, true, holding)
    ensures Untorn(r, holding)
  {
    hide Slot, Item;
    if holding { SlotsDiffer(r.tail - 1, r.head + 1); }
    forall t | r.tail <= t <= r.head ensures Slot(r.head + 1) != Slot(t) {
      SlotsDiffer(t, r.head + 1);
    }
  }

  // ---- the two threads ------------------------------------------------------------------------------------------

  /** Calling: between callbacks. From Joining on, should_exit_ is set and nothing more is pushed. */
  datatype MainPc =
    | Calling | Spinning(f: File) | Writing(f: File) | Publishing(f: File) | Checking
    | ReapIf | ReapLoop | Printing | ReapDone | Joining | Finished

  datatype IoPc =
    | LoadExit | IfTest | LoopTest | Counting | Copying | Waiting(g: File) | Filling(g: File) | Sending(g: File)
    | StoreDone | Decide | Exited

  /** inn and out are fifo_ and wfifo_; seen is the I/O thread's local copy of should_exit_. */
  datatype State = State(inn: Ring, out: Ring, main: MainPc, io: IoPc, shouldExit: bool, seen: bool, reaped: seq<File>)

  /** The choices are the file walk's: the next file, something that is not a file, or the end. */
  datatype Event = NextFile(f: File) | NotAFile | WalkEnds | MainStep | IoStep

  function EmptyRing(): (r: Ring)
    ensures RingInv(r, false, false)
  {
    Ring(seq(FIFO_SIZE, _ => BLANK), 0, 0, 0, [])
  }

  function Start(): State {
    State(EmptyRing(), EmptyRing(), Calling, LoadExit, false, false, [])
  }

  ghost predicate Sized(s: State) {
    && |s.inn.slots| == FIFO_SIZE && |s.out.slots| == FIFO_SIZE
    && (s.io.Counting? || s.io.Copying? ==> s.inn.tail > 0)
    && (s.main.Printing? ==> s.out.tail > 0)
  }

  function MainNext(s: State): (t: State)
    requires Sized(s)
    ensures Sized(t)
  {
    match s.main
    case Calling => s
    case Spinning(f) => if Full(s.inn) then s else s.(main := Writing(f))
    case Writing(f) => s.(inn := Fill(s.inn, f), main := Publishing(f))
    case Publishing(f) => s.(inn := Publish(s.inn, f), main := Checking)
    case Checking => s.(main := if s.out.head - s.out.done > FIFO_SIZE / 2 then ReapIf else Calling)
    case ReapIf => if s.out.head != s.out.tail then s.(main := ReapLoop) else s.(main := AfterReap(s))
    case ReapLoop => if s.out.head != s.out.tail then s.(out := Take(s.out), main := Printing) else s.(main := ReapDone)
    case Printing => s.(reaped := s.reaped + [Held(s.out)], main := ReapLoop)
    case ReapDone => s.(out := Release(s.out), main := AfterReap(s))
    case Joining => if s.io.Exited? then s.(main := ReapIf) else s
    case Finished => s
  }

  function AfterReap(s: State): MainPc {
    if s.shouldExit then Finished else Calling
  }

  function IoNext(s: State): (t: State)
    requires Sized(s)
    ensures Sized(t)
  {
    match s.io
    case LoadExit => s.(seen := s.shouldExit, io := IfTest)
    case IfTest => s.(io := if s.inn.head != s.inn.tail then LoopTest else Decide)
    case LoopTest => if s.inn.head != s.inn.tail then s.(inn := Take(s.inn), io := Counting) else s.(io := StoreDone)
    case Counting => s.(inn := Mark(s.inn, Counted(Held(s.inn))), io := Copying)
    case Copying => s.(io := Waiting(Held(s.inn)))
    case Waiting(g) => if Full(s.out) then s else s.(io := Filling(g))
    case Filling(g) => s.(out := Fill(s.out, g), io := Sending(g))
    case Sending(g) => s.(out := Publish(s.out, g), io := LoopTest)
    case StoreDone => s.(inn := Release(s.inn), io := Decide)
    case Decide => s.(io := if s.seen then Exited else LoadExit)
    case Exited => s
  }

  function Apply(s: State, e: Event): (t: State)
    requires Sized(s)
    ensures Sized(t)
  {
    match e
    case NextFile(f) => if s.main.Calling? then s.(main := Spinning(f)) else s
    case NotAFile => if s.main.Calling? then s.(main := Checking) else s
    case WalkEnds => if s.main.Calling? then s.(main := Joining, shouldExit := true) else s
    case MainStep => MainNext(s)
    case IoStep => IoNext(s)
  }

  function Run(es: seq<Event>): (s: State)
    ensures Sized(s)
  {
    if es == [] then Start() else Apply(Run(es[..|es| - 1]), es[|es| - 1])
  }

  // ---- the invariant -----------------------------------------------------------------------------------------------

  predicate HoldsIn(io: IoPc) {
    io.Counting? || io.Copying? || io.Waiting? || io.Filling? || io.Sending?
  }

  predicate HasRoom(main: MainPc) {
    main.Writing? || main.Publishing?
  }

  predicate HasRoomOut(io: IoPc) {
    io.Filling? || io.Sending?
  }

  predicate Carries(io: IoPc) {
    io.Waiting? || io.Filling? || io.Sending?
  }

  /** The first ring, what the producer has staged in it, and what the consumer has in hand. */
  ghost predicate InSide(r: Ring, main: MainPc, io: IoPc) {
    && RingInv(r, HasRoom(main), HoldsIn(io))
    && (main.Publishing? ==> Staged(r, main.f))
    && (io.Counting? ==> Held(r) == Item(r.sent, r.tail - 1))
    && (io.Copying? ==> Held(r) == Counted(Item(r.sent, r.tail - 1)))
    && (Carries(io) ==> io.g == Counted(Item(r.sent, r.tail - 1)))
  }

  /** The second ring likewise. */
  ghost predicate OutSide(r: Ring, main: MainPc, io: IoPc) {
    && RingInv(r, HasRoomOut(io), main.Printing?)
    && (io.Sending? ==> Staged(r, io.g))
    && (main.Printing? ==> Held(r) == Item(r.sent, r.tail - 1))
  }

  /** Everything taken from the first ring is sent on or in hand; everything taken from the second is reaped or in
      hand. */
  ghost predicate CountsInv(s: State) {
    && |s.inn.sent| == s.inn.head >= s.inn.tail && |s.out.sent| == s.out.head >= s.out.tail
    && s.inn.tail == |s.out.sent| + (if HoldsIn(s.io) then 1 else 0)
    && s.out.tail == |s.reaped| + (if s.main.Printing? then 1 else 0)
  }

  /** And in order. */
  ghost predicate InOrder(pushed: seq<File>, sent: seq<File>, reaped: seq<File>) {
    && |reaped| <= |sent| <= |pushed|
    && (forall u :: 0 <= u < |sent| ==> sent[u] == Counted(Item(pushed, u)))
    && (forall t :: 0 <= t < |reaped| ==> reaped[t] == Item(sent, t))
  }

  ghost predicate FlowInv(s: State) {
    CountsInv(s) && InOrder(s.inn.sent, s.out.sent, s.reaped)
  }

  /** should_exit_ is set once the walk is over; once the I/O thread has seen it, its next drain is complete. */
  ghost predicate ExitInv(s: State) {
    && (s.seen ==> s.shouldExit)
    && (s.shouldExit ==> !(s.main.Calling? || s.main.Spinning? || s.main.Writing? || s.main.Publishing? || s.main.Checking?))
    && (s.main.Joining? || s.main.Finished? ==> s.shouldExit)
    && (s.shouldExit && !s.main.Joining? ==> s.io.Exited?)
    && (s.io.Exited? ==> s.seen)
    && (s.seen && (s.io.StoreDone? || s.io.Decide? || s.io.Exited?) ==> s.inn.tail == s.inn.head)
    && (s.main.Finished? ==> s.out.tail == s.out.head)
    && (s.main.ReapDone? && s.shouldExit ==> s.out.tail == s.out.head)
  }

  ghost predicate Inv(s: State) {
    InSide(s.inn, s.main, s.io) && OutSide(s.out, s.main, s.io) && FlowInv(s) && ExitInv(s)
  }

  // ---- every step keeps it -------------------------------------------------------------------------------------------

  lemma InFill(r: Ring, f: File, io: IoPc)
    requires InSide(r, Writing(f), io)
    ensures InSide(Fill(r, f), Publishing(f), io)
  {
    hide Slot, Item, Counted;
    FillKeeps(r, f, HoldsIn(io));
  }

  lemma InPublish(r: Ring, f: File, io: IoPc)
    requires InSide(r, Publishing(f), io)
    ensures InSide(Publish(r, f), Checking, io)
  {
    hide Slot, Item, Counted;
    PublishKeeps(r, f, HoldsIn(io));
  }

  lemma InTake(r: Ring, main: MainPc)
    requires InSide(r, main, LoopTest) && r.head != r.tail
    ensures InSide(Take(r), main, Counting)
  {
    hide Slot, Item, Counted;
    TakeKeeps(r, HasRoom(main), false);
  }

  lemma InMark(r: Ring, main: MainPc)
    requires InSide(r, main, Counting)
    ensures InSide(Mark(r, Counted(Held(r))), main, Copying)
  {
    hide Slot, Item, Counted;
    MarkKeeps(r, Counted(Held(r)), HasRoom(main));
  }

  lemma OutFill(r: Ring, main: MainPc, g: File)
    requires OutSide(r, main, Filling(g))
    ensures OutSide(Fill(r, g), main, Sending(g))
  {
    hide Slot, Item;
    FillKeeps(r, g, main.Printing?);
  }

  lemma OutPublish(r: Ring, main: MainPc, g: File)
    requires OutSide(r, main, Sending(g))
    ensures OutSide(Publish(r, g), main, LoopTest)
  {
    hide Slot, Item;
    PublishKeeps(r, g, main.Printing?);
  }

  lemma OutTake(r: Ring, io: IoPc)
    requires OutSide(r, ReapLoop, io) && r.head != r.tail
    ensures OutSide(Take(r), Printing, io)
  {
    hide Slot, Item;
    TakeKeeps(r, HasRoomOut(io), false);
  }

  lemma InRoom(r: Ring, f: File, io: IoPc)
    requires InSide(r, Spinning(f), io) && !Full(r)
    ensures InSide(r, Writing(f), io)
  {
    hide Slot, Item, Counted;
  }

  lemma InCopy(r: Ring, main: MainPc)
    requires InSide(r, main, Copying)
    ensures InSide(r, main, Waiting(Held(r)))
  {
    hide Slot, Item, Counted;
  }

  lemma InRelease(r: Ring, main: MainPc)
    requires InSide(r, main, StoreDone)
    ensures InSide(Release(r), main, Decide)
  {
    hide Slot, Item, Counted;
  }

  lemma OutRoom(r: Ring, main: MainPc, g: File)
    requires OutSide(r, main, Waiting(g)) && !Full(r)
    ensures OutSide(r, main, Filling(g))
  {
    hide Slot, Item;
  }

  lemma OutRelease(r: Ring, main: MainPc, io: IoPc)
    requires OutSide(r, ReapDone, io) && !main.Printing?
    ensures OutSide(Release(r), main, io)
  {
    hide Slot, Item;
  }

  /** A thread that stores nothing and takes nothing leaves both sides as they are. */
  lemma InOther(r: Ring, main: MainPc, io: IoPc, main2: MainPc, io2: IoPc)
    requires InSide(r, main, io) && (main2 == main || !HasRoom(main2))
    requires io2 == io || !HoldsIn(io2) || (Carries(io) && Carries(io2) && io.g == io2.g)
    ensures InSide(r, main2, io2)
  {
    hide Slot, Item, Counted;
  }

  lemma OutOther(r: Ring, main: MainPc, io: IoPc, main2: MainPc, io2: IoPc)
    requires OutSide(r, main, io)
    requires (main2.Printing? ==> main2 == main) && (HasRoomOut(io2) ==> io2 == io)
    ensures OutSide(r, main2, io2)
  {
    hide Slot, Item;
  }

  lemma MainKeepsSides(s: State)
    requires Sized(s) && Inv(s)
    ensures InSide(MainNext(s).inn, MainNext(s).main, MainNext(s).io)
    ensures OutSide(MainNext(s).out, MainNext(s).main, MainNext(s).io)
  {
    hide Fill, Publish, Take, Held, Release, InSide, OutSide, FlowInv, ExitInv;
    var m := MainNext(s).main;
    if !HasRoom(m) { InOther(s.inn, s.main, s.io, m, s.io); }
    if !m.Printing? { OutOther(s.out, s.main, s.io, m, s.io); }
    match s.main
    case Spinning(f) => if !Full(s.inn) { InRoom(s.inn, f, s.io); }
    case Writing(f) => InFill(s.inn, f, s.io);
    case Publishing(f) => InPublish(s.inn, f, s.io);
    case ReapLoop => if s.out.head != s.out.tail { OutTake(s.out, s.io); }
    case ReapDone => OutRelease(s.out, m, s.io);
    case _ =>
  }

  lemma IoKeepsSides(s: State)
    requires Sized(s) && Inv(s)
    ensures InSide(IoNext(s).inn, IoNext(s).main, IoNext(s).io)
    ensures OutSide(IoNext(s).out, IoNext(s).main, IoNext(s).io)
  {
    hide Fill, Publish, Take, Mark, Held, Release, InSide, OutSide, FlowInv, ExitInv;
    var i := IoNext(s).io;
    if !HoldsIn(i) || Carries(s.io) { InOther(s.inn, s.main, s.io, s.main, i); }
    if !HasRoomOut(i) { OutOther(s.out, s.main, s.io, s.main, i); }
    match s.io
    case LoopTest => if s.inn.head != s.inn.tail { InTake(s.inn, s.main); }
    case Counting => InMark(s.inn, s.main);
    case Copying => InCopy(s.inn, s.main);
    case Waiting(g) => if !Full(s.out) { OutRoom(s.out, s.main, g); }
    case Filling(g) => OutFill(s.out, s.main, g);
    case Sending(g) => OutPublish(s.out, s.main, g);
    case StoreDone => InRelease(s.inn, s.main);
    case _ =>
  }

  lemma OneMorePushed(pushed: seq<File>, sent: seq<File>, reaped: seq<File>, f: File)
    requires InOrder(pushed, sent, reaped)
    ensures InOrder(pushed + [f], sent, reaped)
  {
    hide Counted;
  }

  lemma OneMoreSent(pushed: seq<File>, sent: seq<File>, reaped: seq<File>, g: File)
    requires InOrder(pushed, sent, reaped) && |sent| < |pushed| && g == Counted(Item(pushed, |sent|))
    ensures InOrder(pushed, sent + [g], reaped)
  {
    hide Counted;
  }

  lemma OneMoreReaped(pushed: seq<File>, sent: seq<File>, reaped: seq<File>, g: File)
    requires InOrder(pushed, sent, reaped) && |reaped| < |sent| && g == Item(sent, |reaped|)
    ensures InOrder(pushed, sent, reaped + [g])
  {
    hide Counted, Item;
  }

  lemma MainKeepsFlow(s: State)
    requires Sized(s) && Inv(s)
    ensures FlowInv(MainNext(s))
  {
    hide Slot, Counted, Held, InOrder, ExitInv, InSide, Item;
    match s.main
    case Publishing(f) => OneMorePushed(s.inn.sent, s.out.sent, s.reaped, f);
    case Printing => OneMoreReaped(s.inn.sent, s.out.sent, s.reaped, Held(s.out));
    case _ =>
  }

  lemma IoKeepsFlow(s: State)
    requires Sized(s) && Inv(s)
    ensures FlowInv(IoNext(s))
  {
    hide Slot, Counted, Held, InOrder, ExitInv, OutSide, Item;
    match s.io
    case Sending(g) => OneMoreSent(s.inn.sent, s.out.sent, s.reaped, g);
    case _ =>
  }

  lemma MainKeepsExit(s: State)
    requires Sized(s) && Inv(s)
    ensures ExitInv(MainNext(s))
  {
    hide Slot, Counted, Held, Mark, FlowInv, InSide, OutSide;
  }

  lemma IoKeepsExit(s: State)
    requires Sized(s) && Inv(s)
    ensures ExitInv(IoNext(s))
  {
    hide Slot, Counted, Held, FlowInv, InSide, OutSide;
  }

  lemma StartInv()
    ensures Inv(Start())
  {
  }

  lemma {:induction false} RunInv(es: seq<Event>)
    ensures Inv(Run(es))
  {
    hide Inv, Apply;
    if es == [] {
      StartInv();
    } else {
      RunInv(es[..|es| - 1]);
      StepKeepsInv(Run(es[..|es| - 1]), es[|es| - 1]);
    }
  }

  lemma StepKeepsInv(s: State, e: Event)
    requires Sized(s) && Inv(s)
    ensures Inv(Apply(s, e))
  {
    match e
    case MainStep =>
      MainKeepsSides(s); MainKeepsFlow(s); MainKeepsExit(s);
    case IoStep =>
      IoKeepsSides(s); IoKeepsFlow(s); IoKeepsExit(s);
    case _ =>
      ChoiceKeepsInv(s, e);
  }

  lemma ChoiceKeepsInv(s: State, e: Event)
    requires Sized(s) && Inv(s) && !e.MainStep? && !e.IoStep?
    ensures Inv(Apply(s, e))
  {
    hide InSide, OutSide;
    var m := Apply(s, e).main;
    if m != s.main {
      InOther(s.inn, s.main, s.io, m, s.io);
      OutOther(s.out, s.main, s.io, m, s.io);
    }
  }

  // ---- what every run delivers ------------------------------------------------------------------------------------------

  /** The files the walk has handed to push. */
  function Walked(es: seq<Event>): seq<File> {
    if es == [] then []
    else
      var p, e := es[..|es| - 1], es[|es| - 1];
      if e.NextFile? && Run(p).main.Calling? then Walked(p) + [e.f] else Walked(p)
  }

  predicate Pushing(main: MainPc) {
    main.Spinning? || main.Writing? || main.Publishing?
  }

  lemma {:induction false} SentIsWalked(es: seq<Event>)
    ensures var s := Run(es); Walked(es) == s.inn.sent + if Pushing(s.main) then [s.main.f] else []
  {
    if es != [] {
      var p, e := es[..|es| - 1], es[|es| - 1];
      SentIsWalked(p);
      SentStep(Run(p), e);
    }
  }

  lemma SentStep(s: State, e: Event)
    requires Sized(s)
    ensures var t := Apply(s, e);
            (t.inn.sent + if Pushing(t.main) then [t.main.f] else [])
            == s.inn.sent + if Pushing(s.main) then [s.main.f] else if e.NextFile? && s.main.Calling? then [e.f] else []
  {
    hide Slot, Counted, Held;
  }

  /** Each ring is one item late, so the whole is two late. */
  function Delayed(files: seq<File>): (r: seq<File>)
    ensures |r| == |files| + 2
  {
    [BLANK, BLANK] + seq(|files|, i requires 0 <= i < |files| => Counted(files[i]))
  }

  lemma OrderIsDelay(pushed: seq<File>, sent: seq<File>, reaped: seq<File>)
    requires InOrder(pushed, sent, reaped)
    ensures reaped == Delayed(pushed)[..|reaped|]
  {
    assert Counted(BLANK) == BLANK;
    hide Counted;
  }

  /** In every interleaving what has been reaped is two blanks and then the walked files with their line counts, in
      order, cut short. */
  lemma ReapedInOrder(es: seq<Event>)
    ensures var s := Run(es); |s.reaped| <= |Walked(es)| && s.reaped == Delayed(Walked(es))[..|s.reaped|]
  {
    hide InSide, OutSide, ExitInv;
    var s := Run(es);
    RunInv(es);
    SentIsWalked(es);
    OrderIsDelay(s.inn.sent, s.out.sent, s.reaped);
    assert Delayed(s.inn.sent) <= Delayed(Walked(es));
  }

  /** When main returns, exactly the last two files have not been reported. */
  lemma LastTwoUnreported(es: seq<Event>)
    requires Run(es).main.Finished?
    ensures Run(es).reaped == Delayed(Walked(es))[..|Walked(es)|]
  {
    hide InSide, OutSide, InOrder, Delayed;
    RunInv(es);
    SentIsWalked(es);
    ReapedInOrder(es);
  }

  /** The I/O thread is draining the first ring. */
  predicate Draining(io: IoPc) {
    io.LoopTest? || HoldsIn(io) || io.StoreDone?
  }

  /** Main is reaping the second. */
  predicate Reaping(main: MainPc) {
    main.ReapLoop? || main.Printing? || main.ReapDone?
  }

  /** Outside the drains every slot read has been given back. */
  predicate GivenBack(s: State) {
    (!Draining(s.io) ==> s.inn.done == s.inn.tail) && (!Reaping(s.main) ==> s.out.done == s.out.tail)
  }

  lemma StepGivesBack(s: State, e: Event)
    requires Sized(s) && GivenBack(s)
    ensures GivenBack(Apply(s, e))
  {
    hide Slot, Counted, Held;
  }

  lemma {:induction false} NothingHeld(es: seq<Event>)
    ensures GivenBack(Run(es))
  {
    hide GivenBack, Apply;
    if es == [] {
      assert GivenBack(Start()) by { StartGivenBack(); }
    } else {
      NothingHeld(es[..|es| - 1]);
      StepGivesBack(Run(es[..|es| - 1]), es[|es| - 1]);
    }
  }

  lemma StartGivenBack()
    ensures GivenBack(Start())
  {
  }

  /** So while the I/O thread is not draining, push is blocked only by 511 files that have not been read; wpush, while main
      is not reaping, likewise. And main goes back to the walk unreaped only with at most half of the second ring taken. */
  lemma BlockedMeansUnread(es: seq<Event>)
    ensures var s := Run(es);
      && (!Draining(s.io) ==> (Full(s.inn) <==> |s.inn.sent| == s.inn.tail + 511))
      && (!Reaping(s.main) ==> (Full(s.out) <==> |s.out.sent| == s.out.tail + 511))
      && (s.main.Checking? ==> (MainNext(s).main.Calling? <==> |s.out.sent| <= s.out.tail + 256))
  {
    hide Run, Slot, Item, Counted, Held;
    RunInv(es);
    NothingHeld(es);
  }

  /** In every interleaving no slot is written under its reader. */
  lemma NothingTorn(es: seq<Event>)
    ensures Run(es).main.Writing? ==> Untorn(Run(es).inn, HoldsIn(Run(es).io))
    ensures Run(es).io.Filling? ==> Untorn(Run(es).out, Run(es).main.Printing?)
  {
    hide Untorn, RingInv, FlowInv, ExitInv, Item, Held, Staged, Run;
    var s := Run(es);
    RunInv(es);
    if s.main.Writing? { NoTear(s.inn, HoldsIn(s.io)); }
    if s.io.Filling? { NoTear(s.out, s.main.Printing?); }
  }

  /** The I/O thread's read number t finds file t of the walk; number 0 finds the blank slot. */
  lemma ReadFindsPush(es: seq<Event>)
    requires Run(es).io.Counting?
    ensures var r := Run(es).inn; 0 < r.tail <= |Walked(es)| && Held(r) == Item(Walked(es), r.tail - 1)
  {
    hide Slot, FlowInv, ExitInv, Staged, Held;
    RunInv(es);
    SentIsWalked(es);
  }
}
