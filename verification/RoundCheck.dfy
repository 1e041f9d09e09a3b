/** The rounds of pcpucheck.cc: the main thread publishes a buffer and its hashes, every CPU's checker hashes what it
    reads there, compares, and acknowledges; no round begins before the last one is acknowledged by all. */
module RoundCheck {
  import opened NumberTheory
  import opened MachineWords
  import opened Detection
  import H = Hashes
  import W = WordHashes

  /** The number of checker threads, max_loops, the size of the buffer, and the two hash functions. */
  datatype Setup = Setup(cpus: U32, rounds: nat, size: nat, hash: seq<Byte> -> U64, mhash: seq<Byte> -> U32)

  /** The program's own: FNV-1a on chars that may be signed, and murmur3 with seed 1. */
  function Program(cpus: U32, rounds: nat, size: nat, signed: bool): Setup {
    Setup(cpus, rounds, size, x => H.Fnv64(x, signed), x => W.Murmur(x, 1))
  }

  datatype Args = Args(hash: U64, mhash: U32, dst: nat, size: nat)

  /** The bytes that reach a CPU in its two passes over a buffer; faulty hardware may deliver anything. */
  datatype Look = Look(fnv: seq<Byte>, mur: seq<Byte>)

  datatype Pc = Poll | Compare | Fnv | Mur(seen: seq<Byte>) | Judge(look: Look) | SetLast | Ack | Leaving | Gone

  /** log holds the looks that passed both comparisons. */
  datatype Checker = Checker(pc: Pc, last: nat, log: seq<Look>)

  datatype MainPc =
    | Prepare | Copy | SetAck | SetHash | SetMHash | SetDst | SetSize | SetGo | Waiting | Recheck | Raise | Joining

  datatype State = State(main: MainPc, round: nat, misalign: nat, source: seq<Look>, buffer: seq<Byte>,
                         go: nat, ack: U32, args: Args, exit: bool, aborted: bool, checkers: seq<Checker>)

  /** One step of a thread; a and b are the bytes its reads of a buffer return, if it reads one. */
  datatype Event = Main(a: seq<Byte>, b: seq<Byte>) | Check(c: nat, a: seq<Byte>)

  const MAX_MISALIGN := 64

  function Start(u: Setup): State {
    State(Prepare, 0, 0, [], [], 0, 0, Args(0, 0, 0, 0), false, false, seq(u.cpus, _ => Checker(Poll, 0, [])))
  }

  function MainNext(u: Setup, s: State, a: seq<Byte>, b: seq<Byte>): State {
    match s.main
    case Prepare =>
      if s.round >= u.rounds then s.(main := Raise)
      else if |a| == |b| == u.size then s.(source := s.source + [Look(a, b)], main := Copy) else s
    case Copy => s.(buffer := a, main := SetAck)
    case SetAck => s.(ack := u.cpus, main := SetHash)
    case SetHash =>
      if s.round < |s.source| then s.(args := s.args.(hash := u.hash(s.source[s.round].fnv)), main := SetMHash) else s
    case SetMHash =>
      if s.round < |s.source| then s.(args := s.args.(mhash := u.mhash(s.source[s.round].mur)), main := SetDst) else s
    case SetDst => s.(args := s.args.(dst := s.misalign), main := SetSize)
    case SetSize => s.(args := s.args.(size := u.size), main := SetGo)
    case SetGo => s.(go := s.round + 1, main := Waiting)
    case Waiting => if s.ack == 0 then s.(main := Recheck) else s
    case Recheck =>
      if |a| != u.size || s.round >= |s.source| then s
      else if u.hash(a) != u.hash(s.source[s.round].fnv) then s.(aborted := true)
      else s.(round := s.round + 1, misalign := (s.misalign + 1) % MAX_MISALIGN, main := Prepare)
    case Raise => s.(exit := true, main := Joining)
    case Joining => s
  }

  function Decrement(x: U32): U32 {
    if x == 0 then TWO_32 - 1 else x - 1
  }

  /** g_ack-- on a 32-bit word. */
  lemma DecrementIs(x: U32)
    ensures Add32(Decrement(x), 1) == x
  {
  }

  function With(s: State, i: nat, c: Checker): State
    requires i < |s.checkers|
  {
    s.(checkers := s.checkers[i := c])
  }

  function CheckNext(u: Setup, s: State, i: nat, a: seq<Byte>): State
    requires i < |s.checkers|
  {
    var c := s.checkers[i];
    match c.pc
    case Poll => With(s, i, c.(pc := if s.exit then Leaving else Compare))
    case Compare => With(s, i, c.(pc := if c.last == s.go then Poll else Fnv))
    case Fnv => if |a| == s.args.size then With(s, i, c.(pc := Mur(a))) else s
    case Mur(f) => if |a| == s.args.size then With(s, i, c.(pc := Judge(Look(f, a)))) else s
    case Judge(l) =>
      if u.hash(l.fnv) == s.args.hash && u.mhash(l.mur) == s.args.mhash
      then With(s, i, c.(log := c.log + [l], pc := SetLast)) else s.(aborted := true)
    case SetLast => With(s, i, c.(last := s.go, pc := Ack))
    case Ack => With(s, i, c.(pc := Poll)).(ack := Decrement(s.ack))
    case Leaving => With(s, i, c.(pc := Gone)).(ack := Decrement(s.ack))
    case Gone => s
  }

  function Apply(u: Setup, s: State, e: Event): State {
    if s.aborted then s
    else match e
         case Main(a, b) => MainNext(u, s, a, b)
         case Check(i, a) => if i < |s.checkers| then CheckNext(u, s, i, a) else s
  }

  function Run(u: Setup, es: seq<Event>): State {
    if es == [] then Start(u) else Apply(u, Run(u, es[..|es| - 1]), es[|es| - 1])
  }

  /** The two passes and the two comparisons of a checker that is not going to abort. */
  method Examine(look: Look, signed: bool, args: Args) returns (same: bool)
    ensures same <==> H.Fnv64(look.fnv, signed) == args.hash && W.Murmur(look.mur, 1) == args.mhash
  {
    var hash := H.FNV1A_64(look.fnv, signed);
    var mhash := W.Murmur3_32(look.mur, 1);
    if args.hash != hash {
      return false;
    }
    if args.mhash != mhash {
      return false;
    }
    return true;
  }

  // ---- the invariant --------------------------------------------------------------------------------------------

  /** The look agrees with the source in both hashes. */
  predicate Vouched(u: Setup, l: Look, source: Look) {
    |l.fnv| == |source.fnv| && |l.mur| == |source.mur| && u.hash(l.fnv) == u.hash(source.fnv) && u.mhash(l.mur) == u.mhash(source.mur)
  }

  predicate Hashing(c: Checker) {
    c.pc.Fnv? || c.pc.Mur? || c.pc.Judge?
  }

  /** Still to acknowledge the round that go names. */
  predicate Pending(c: Checker, go: nat) {
    c.last != go || c.pc.Ack?
  }

  function Count(cs: seq<Checker>, go: nat): (k: nat)
    ensures k <= |cs|
  {
    if cs == [] then 0 else (if Pending(cs[0], go) then 1 else 0) + Count(cs[1..], go)
  }

  /** Where a checker can be, given whether main waits for the round go. */
  ghost predicate PlaceOk(c: Checker, waiting: bool, exit: bool, go: nat) {
    match c.pc
    case Poll => c.last == go || (waiting && c.last + 1 == go)
    case Compare => c.last == go || (waiting && c.last + 1 == go)
    case Fnv => waiting && c.last + 1 == go
    case Mur(f) => waiting && c.last + 1 == go
    case Judge(l) => waiting && c.last + 1 == go
    case SetLast => waiting && c.last + 1 == go
    case Ack => waiting && c.last == go
    case Leaving => exit && c.last == go
    case Gone => exit && c.last == go
  }

  /** One look for every round acknowledged, in order, each vouched for. */
  ghost predicate LogOk(u: Setup, c: Checker, source: seq<Look>) {
    && |c.log| == c.last + (if c.pc.SetLast? then 1 else 0) <= |source|
    && forall j :: 0 <= j < |c.log| ==> Vouched(u, c.log[j], source[j])
  }

  ghost predicate SizesOk(u: Setup, c: Checker) {
    (c.pc.Mur? ==> |c.pc.seen| == u.size) && (c.pc.Judge? ==> |c.pc.look.fnv| == |c.pc.look.mur| == u.size)
  }

  ghost predicate CheckersInv(u: Setup, s: State) {
    forall i :: 0 <= i < |s.checkers| ==>
      && PlaceOk(s.checkers[i], s.main.Waiting?, s.exit, s.go)
      && LogOk(u, s.checkers[i], s.source) && SizesOk(u, s.checkers[i])
  }

  function Rank(m: MainPc): nat {
    match m
    case Prepare => 0 case Copy => 1 case SetAck => 2 case SetHash => 3 case SetMHash => 4 case SetDst => 5
    case SetSize => 6 case SetGo => 7 case Waiting => 8 case Recheck => 9 case Raise => 0 case Joining => 0
  }

  ghost predicate MainInv(u: Setup, s: State) {
    && |s.checkers| == u.cpus
    && s.go == s.round + (if s.main.Waiting? || s.main.Recheck? then 1 else 0)
    && |s.source| == s.round + (if Rank(s.main) > 0 then 1 else 0)
    && (forall k :: 0 <= k < |s.source| ==> |s.source[k].fnv| == |s.source[k].mur| == u.size)
    && s.exit == s.main.Joining?
    && (Rank(s.main) > 3 ==> s.args.hash == u.hash(s.source[s.round].fnv))
    && (Rank(s.main) > 4 ==> s.args.mhash == u.mhash(s.source[s.round].mur))
    && (Rank(s.main) > 5 ==> s.args.dst == s.misalign)
    && (Rank(s.main) > 6 ==> s.args.size == u.size)
    && (3 <= Rank(s.main) <= 7 ==> s.ack == u.cpus)
    && (s.main.Waiting? ==> s.ack == Count(s.checkers, s.go))
  }

  ghost predicate Inv(u: Setup, s: State) {
    MainInv(u, s) && CheckersInv(u, s)
  }

  lemma {:induction false} CountAll(cs: seq<Checker>, go: nat)
    requires forall i :: 0 <= i < |cs| ==> Pending(cs[i], go)
    ensures Count(cs, go) == |cs|
  {
    if cs != [] { CountAll(cs[1..], go); }
  }

  lemma {:induction false} CountNone(cs: seq<Checker>, go: nat, i: nat)
    requires Count(cs, go) == 0 && i < |cs|
    ensures !Pending(cs[i], go)
  {
    if i > 0 { CountNone(cs[1..], go, i - 1); }
  }

  lemma {:induction false} CountUpdate(cs: seq<Checker>, go: nat, i: nat, c: Checker)
    requires i < |cs|
    ensures Count(cs[i := c], go) + (if Pending(cs[i], go) then 1 else 0) == Count(cs, go) + (if Pending(c, go) then 1 else 0)
  {
    if i == 0 {
      assert cs[i := c][1..] == cs[1..];
    } else {
      assert cs[i := c][1..] == cs[1..][i - 1 := c];
      CountUpdate(cs[1..], go, i - 1, c);
    }
  }

  // ---- every step keeps it -----------------------------------------------------------------------------------------

  lemma LogKeeps(u: Setup, c: Checker, source: seq<Look>, l: Look)
    requires LogOk(u, c, source)
    ensures LogOk(u, c, source + [l])
  {
    hide Vouched;
  }

  lemma AtChecker(u: Setup, s: State, i: nat)
    requires Inv(u, s) && i < |s.checkers|
    ensures PlaceOk(s.checkers[i], s.main.Waiting?, s.exit, s.go) && LogOk(u, s.checkers[i], s.source)
    ensures SizesOk(u, s.checkers[i])
  {
    hide PlaceOk, LogOk, SizesOk;
  }

  lemma MainKeepsCheckers(u: Setup, s: State, a: seq<Byte>, b: seq<Byte>)
    requires Inv(u, s)
    ensures CheckersInv(u, MainNext(u, s, a, b))
  {
    hide LogOk, SizesOk;
    var t := MainNext(u, s, a, b);
    forall i | 0 <= i < |s.checkers|
      ensures PlaceOk(t.checkers[i], t.main.Waiting?, t.exit, t.go) && LogOk(u, t.checkers[i], t.source)
      ensures SizesOk(u, t.checkers[i])
    {
      var c := s.checkers[i];
      AtChecker(u, s, i);
      if s.main.Prepare? { LogKeeps(u, c, s.source, Look(a, b)); }
      if s.main.Waiting? && s.ack == 0 { CountNone(s.checkers, s.go, i); }
    }
  }

  lemma MainKeepsMain(u: Setup, s: State, a: seq<Byte>, b: seq<Byte>)
    requires Inv(u, s)
    ensures MainInv(u, MainNext(u, s, a, b))
  {
    hide LogOk, CheckersInv, Count;
    if s.main.SetGo? {
      AllPending(u, s);
    }
  }

  lemma AllPending(u: Setup, s: State)
    requires Inv(u, s) && s.main.SetGo?
    ensures Count(s.checkers, s.round + 1) == u.cpus
  {
    hide LogOk, Count;
    CountAll(s.checkers, s.round + 1);
  }

  /** Replacing one checker by one that fits, and accounting for it in g_ack. */
  lemma OneChecker(u: Setup, s: State, i: nat, c: Checker, k: U32)
    requires Inv(u, s) && i < |s.checkers|
    requires PlaceOk(c, s.main.Waiting?, s.exit, s.go) && LogOk(u, c, s.source) && SizesOk(u, c)
    requires s.main.Waiting? ==>
               k + (if Pending(s.checkers[i], s.go) then 1 else 0) == s.ack + (if Pending(c, s.go) then 1 else 0)
    requires s.main.Waiting? || s.main.Joining? || k == s.ack
    ensures Inv(u, With(s, i, c).(ack := k))
  {
    hide PlaceOk, LogOk, SizesOk, Pending;
    CountUpdate(s.checkers, s.go, i, c);
  }

  lemma CountedOne(u: Setup, s: State, i: nat)
    requires Inv(u, s) && s.main.Waiting? && i < |s.checkers| && Pending(s.checkers[i], s.go)
    ensures s.ack > 0
  {
    hide PlaceOk, LogOk, SizesOk, Pending;
    if s.ack == 0 { CountNone(s.checkers, s.go, i); }
  }

  lemma Published(u: Setup, s: State)
    requires Inv(u, s) && s.main.Waiting?
    ensures |s.source| == s.round + 1 == s.go
    ensures |s.source[s.round].fnv| == |s.source[s.round].mur| == u.size
    ensures s.args == Args(u.hash(s.source[s.round].fnv), u.mhash(s.source[s.round].mur), s.misalign, u.size)
  {
    hide CheckersInv;
  }

  lemma AbortKeeps(u: Setup, s: State)
    requires Inv(u, s)
    ensures Inv(u, s.(aborted := true))
  {
    hide PlaceOk, LogOk, SizesOk;
  }

  lemma LookPasses(u: Setup, s: State, c: Checker)
    requires Inv(u, s) && s.main.Waiting? && c.pc.Judge? && SizesOk(u, c) && LogOk(u, c, s.source) && c.last + 1 == s.go
    requires u.hash(c.pc.look.fnv) == s.args.hash && u.mhash(c.pc.look.mur) == s.args.mhash
    ensures LogOk(u, c.(log := c.log + [c.pc.look], pc := SetLast), s.source)
  {
    hide Inv;
    Published(u, s);
  }

  lemma ExitIsJoining(u: Setup, s: State, i: nat)
    requires Inv(u, s) && i < |s.checkers|
    ensures s.exit || s.checkers[i].pc.Leaving? ==> s.main.Joining?
  {
    hide LogOk, SizesOk;
  }

  lemma QuietStep(u: Setup, s: State, i: nat, a: seq<Byte>)
    requires Inv(u, s) && i < |s.checkers|
    requires var pc := s.checkers[i].pc; pc.Poll? || pc.Compare? || pc.Fnv? || pc.Mur? || pc.SetLast?
    ensures Inv(u, CheckNext(u, s, i, a))
  {
    hide Inv, Vouched;
    AtChecker(u, s, i);
    var c, t := s.checkers[i], CheckNext(u, s, i, a);
    if s.main.Waiting? { Published(u, s); }
    ExitIsJoining(u, s, i);
    if t != s {
      OneChecker(u, s, i, t.checkers[i], s.ack);
    }
  }

  lemma AckStep(u: Setup, s: State, i: nat, a: seq<Byte>)
    requires Inv(u, s) && i < |s.checkers| && (s.checkers[i].pc.Ack? || s.checkers[i].pc.Leaving?)
    ensures Inv(u, CheckNext(u, s, i, a))
  {
    hide Inv, Vouched;
    AtChecker(u, s, i);
    var c, t := s.checkers[i], CheckNext(u, s, i, a);
    if s.main.Waiting? && c.pc.Ack? { CountedOne(u, s, i); }
    ExitIsJoining(u, s, i);
    OneChecker(u, s, i, t.checkers[i], t.ack);
  }

  lemma JudgeStep(u: Setup, s: State, i: nat, a: seq<Byte>)
    requires Inv(u, s) && i < |s.checkers| && s.checkers[i].pc.Judge?
    ensures Inv(u, CheckNext(u, s, i, a))
  {
    hide Inv, LogOk;
    AtChecker(u, s, i);
    var c, t := s.checkers[i], CheckNext(u, s, i, a);
    if u.hash(c.pc.look.fnv) == s.args.hash && u.mhash(c.pc.look.mur) == s.args.mhash {
      LookPasses(u, s, c);
      OneChecker(u, s, i, t.checkers[i], s.ack);
    } else {
      AbortKeeps(u, s);
    }
  }

  lemma BothHalves(u: Setup, s: State)
    requires MainInv(u, s) && CheckersInv(u, s)
    ensures Inv(u, s)
  {
  }

  lemma GoneStays(u: Setup, s: State, i: nat, a: seq<Byte>)
    requires i < |s.checkers| && s.checkers[i].pc.Gone?
    ensures CheckNext(u, s, i, a) == s
  {
  }

  lemma StepKeepsInv(u: Setup, s: State, e: Event)
    requires Inv(u, s)
    ensures Inv(u, Apply(u, s, e))
  {
    hide Inv, MainNext, CheckNext;
    if !s.aborted {
      match e
      case Main(a, b) =>
        MainKeepsMain(u, s, a, b);
        MainKeepsCheckers(u, s, a, b);
        BothHalves(u, MainNext(u, s, a, b));
      case Check(i, a) =>
        if i < |s.checkers| {
          match s.checkers[i].pc
          case Ack => AckStep(u, s, i, a);
          case Leaving => AckStep(u, s, i, a);
          case Judge(l) => JudgeStep(u, s, i, a);
          case Gone => GoneStays(u, s, i, a);
          case _ => QuietStep(u, s, i, a);
        }
    }
  }

  lemma StartInv(u: Setup)
    ensures Inv(u, Start(u))
  {
  }

  lemma {:induction false} RunInv(u: Setup, es: seq<Event>)
    ensures Inv(u, Run(u, es))
  {
    hide Inv, Apply;
    if es == [] {
      StartInv(u);
    } else {
      RunInv(u, es[..|es| - 1]);
      StepKeepsInv(u, Run(u, es[..|es| - 1]), es[|es| - 1]);
    }
  }

  // ---- what every run guarantees ---------------------------------------------------------------------------------

  /** While main waits, g_ack is the number of checkers still to acknowledge. */
  lemma AckCountsDown(u: Setup, es: seq<Event>)
    ensures var s := Run(u, es); s.main.Waiting? ==> s.ack == Count(s.checkers, s.go)
  {
    hide CheckersInv, Count, Run;
    RunInv(u, es);
  }

  /** Main leaves its wait in round k only after every checker has hashed the buffers of rounds 0 to k once each, in
      order, and none is hashing any more. */
  lemma RoundIsComplete(u: Setup, es: seq<Event>, i: nat)
    requires var s := Run(u, es); s.main.Recheck? && i < |s.checkers|
    ensures var s := Run(u, es);
      && |s.checkers[i].log| == s.round + 1 == |s.source| && !Hashing(s.checkers[i])
      && forall j :: 0 <= j <= s.round ==> Vouched(u, s.checkers[i].log[j], s.source[j])
  {
    hide Vouched, SizesOk, Run;
    RunInv(u, es);
  }

  /** While any checker is hashing, main is waiting: none of its steps touches the arguments or the buffer, and the
      arguments are the current round's. */
  lemma StableWhileHashing(u: Setup, es: seq<Event>, i: nat, a: seq<Byte>, b: seq<Byte>)
    requires var s := Run(u, es); i < |s.checkers| && Hashing(s.checkers[i])
    ensures var s, t := Run(u, es), Apply(u, Run(u, es), Main(a, b));
      && t.args == s.args && t.buffer == s.buffer && t.go == s.go && t.source == s.source
      && |s.source| == s.round + 1 == s.go
      && s.args == Args(u.hash(s.source[s.round].fnv), u.mhash(s.source[s.round].mur), s.misalign, u.size)
  {
    hide Vouched, SizesOk, LogOk, Run, Inv;
    RunInv(u, es);
    AtChecker(u, Run(u, es), i);
    Published(u, Run(u, es));
  }

  /** The destination moves one byte on with each round, and starts again after 64; the rounds are those asked for. */
  ghost predicate RoundsOk(u: Setup, s: State) {
    && s.misalign == s.round % 64 && s.round <= u.rounds
    && (Rank(s.main) > 0 ==> s.round < u.rounds)
    && (s.main.Raise? || s.main.Joining? ==> s.round == u.rounds)
  }

  lemma StepKeepsRounds(u: Setup, s: State, e: Event)
    requires RoundsOk(u, s)
    ensures RoundsOk(u, Apply(u, s, e))
  {
  }

  lemma {:induction false} RunRounds(u: Setup, es: seq<Event>)
    ensures RoundsOk(u, Run(u, es))
  {
    hide RoundsOk, Apply;
    if es == [] {
      StartRounds(u);
    } else {
      RunRounds(u, es[..|es| - 1]);
      StepKeepsRounds(u, Run(u, es[..|es| - 1]), es[|es| - 1]);
    }
  }

  lemma StartRounds(u: Setup)
    ensures RoundsOk(u, Run(u, []))
  {
  }

  /** Main tells the checkers to exit only after the rounds asked for, every one of them vouched for by every checker. */
  lemma ExitAfterAllRounds(u: Setup, es: seq<Event>, i: nat)
    requires var s := Run(u, es); s.exit && i < |s.checkers|
    ensures var s := Run(u, es);
      && |s.checkers[i].log| == s.round == u.rounds == |s.source|
      && forall j :: 0 <= j < u.rounds ==> Vouched(u, s.checkers[i].log[j], s.source[j])
  {
    hide Vouched, SizesOk, Run;
    RunInv(u, es);
    RunRounds(u, es);
    AtChecker(u, Run(u, es), i);
  }

  /** In this step a thread compares what it has read of the current round's buffer with the source, and a hash differs. */
  ghost predicate Differs(u: Setup, s: State, e: Event) {
    s.round < |s.source| && var source := s.source[s.round];
      match e
      case Main(a, b) => s.main.Recheck? && |a| == u.size && u.hash(a) != u.hash(source.fnv)
      case Check(i, a) =>
        i < |s.checkers| && s.checkers[i].pc.Judge? && var l := s.checkers[i].pc.look;
          u.hash(l.fnv) != u.hash(source.fnv) || u.mhash(l.mur) != u.mhash(source.mur)
  }

  lemma MainAborts(u: Setup, s: State, a: seq<Byte>, b: seq<Byte>)
    requires Inv(u, s) && !s.aborted
    ensures MainNext(u, s, a, b).aborted <==> Differs(u, s, Main(a, b))
  {
    hide CheckersInv;
  }

  lemma CheckAborts(u: Setup, s: State, i: nat, a: seq<Byte>)
    requires Inv(u, s) && !s.aborted && i < |s.checkers|
    ensures CheckNext(u, s, i, a).aborted <==> Differs(u, s, Check(i, a))
  {
    hide Inv, LogOk;
    AtChecker(u, s, i);
    if s.checkers[i].pc.Judge? { Published(u, s); }
  }

  /** The step before position k of the run is such a step, the program still running. */
  ghost predicate DiffersAt(u: Setup, es: seq<Event>, k: nat) {
    k < |es| && !Run(u, es[..k]).aborted && Differs(u, Run(u, es[..k]), es[k])
  }

  lemma AbortStep(u: Setup, s: State, e: Event)
    requires Inv(u, s)
    ensures Apply(u, s, e).aborted <==> s.aborted || Differs(u, s, e)
  {
    hide Inv, Differs, MainNext, CheckNext;
    if !s.aborted {
      match e
      case Main(a, b) => MainAborts(u, s, a, b);
      case Check(i, a) => if i < |s.checkers| { CheckAborts(u, s, i, a); } else { NoChecker(u, s, i, a); }
    }
  }

  lemma NoChecker(u: Setup, s: State, i: nat, a: seq<Byte>)
    requires i >= |s.checkers|
    ensures !Differs(u, s, Check(i, a))
  {
  }

  /** The program aborts if and only if some comparison meets a hash other than the source's: bytes that arrive unchanged
      never stop it. */
  lemma {:induction false} AbortsExactly(u: Setup, es: seq<Event>)
    ensures Run(u, es).aborted <==> exists k :: DiffersAt(u, es, k)
  {
    hide Inv, Apply, Differs;
    if es != [] {
      var p, n := es[..|es| - 1], |es| - 1;
      RunInv(u, p);
      AbortsExactly(u, p);
      AbortStep(u, Run(u, p), es[n]);
      forall k: nat | k < n ensures DiffersAt(u, p, k) <==> DiffersAt(u, es, k) { assert p[..k] == es[..k]; }
      assert Differs(u, Run(u, p), es[n]) && !Run(u, p).aborted <==> DiffersAt(u, es, n);
      if Run(u, es).aborted && Run(u, p).aborted {
        var k :| DiffersAt(u, p, k);
        assert DiffersAt(u, es, k);
      }
    } else {
      StartRuns(u);
    }
  }

  lemma StartRuns(u: Setup)
    ensures !Run(u, []).aborted
  {
  }

  // ---- progress ---------------------------------------------------------------------------------------------------

  /** The steps a checker has before it, until it has acknowledged the round that go names, or has left. */
  function ToGo(c: Checker, go: nat, exit: bool): nat {
    match c.pc
    case Poll => if exit then 2 else if c.last == go then 0 else 7
    case Compare => if exit then 3 else if c.last == go then 0 else 6
    case Fnv => 5 case Mur(f) => 4 case Judge(l) => 3 case SetLast => 2 case Ack => 1
    case Leaving => 1 case Gone => 0
  }

  function AllToGo(cs: seq<Checker>, go: nat, exit: bool): nat {
    if cs == [] then 0 else ToGo(cs[0], go, exit) + AllToGo(cs[1..], go, exit)
  }

  lemma {:induction false} OneLess(cs: seq<Checker>, go: nat, exit: bool, i: nat, c: Checker)
    requires i < |cs| && ToGo(c, go, exit) < ToGo(cs[i], go, exit)
    ensures AllToGo(cs[i := c], go, exit) < AllToGo(cs, go, exit)
  {
    if i == 0 {
      assert cs[i := c][1..] == cs[1..];
    } else {
      assert cs[i := c][1..] == cs[1..][i - 1 := c];
      OneLess(cs[1..], go, exit, i - 1, c);
    }
  }

  /** Main has told the checkers to exit, and all have. */
  predicate Over(s: State) {
    s.exit && forall i :: 0 <= i < |s.checkers| ==> s.checkers[i].pc.Gone?
  }

  /** How far main has come in its round. */
  function Stage(m: MainPc): nat {
    if m.Joining? then 11 else if m.Raise? then 10 else Rank(m)
  }

  /** t is nearer to the end than s: more rounds, a later stage, or fewer steps before the checkers; or it has aborted. */
  ghost predicate Nearer(u: Setup, s: State, t: State) {
    || t.aborted
    || t.round > s.round
    || (t.round == s.round && Stage(t.main) > Stage(s.main))
    || (t.round == s.round && Stage(t.main) == Stage(s.main)
        && AllToGo(t.checkers, t.go, t.exit) < AllToGo(s.checkers, s.go, s.exit))
  }

  /** Outside its two waits main can go on. */
  lemma MainCanMove(u: Setup, s: State) returns (e: Event)
    requires Inv(u, s) && RoundsOk(u, s) && !s.aborted && !s.main.Joining? && (s.main.Waiting? ==> s.ack == 0)
    ensures Nearer(u, s, Apply(u, s, e))
  {
    hide CheckersInv, AllToGo;
    var x := seq(u.size, _ => 0);
    e := Main(x, x);
  }

  /** A checker that has not acknowledged, or not left, can go on. */
  lemma CheckerCanMove(u: Setup, s: State, i: nat) returns (e: Event)
    requires Inv(u, s) && !s.aborted && i < |s.checkers|
    requires (s.main.Waiting? && Pending(s.checkers[i], s.go)) || (s.main.Joining? && !s.checkers[i].pc.Gone?)
    ensures Nearer(u, s, Apply(u, s, e))
  {
    hide Inv, LogOk, SizesOk, AllToGo;
    AtChecker(u, s, i);
    ExitIsJoining(u, s, i);
    if s.main.Joining? { JoiningIsExit(u, s); }
    var x := seq(s.args.size, _ => 0);
    e := Check(i, x);
    var t := CheckNext(u, s, i, x);
    if !t.aborted { OneLess(s.checkers, s.go, s.exit, i, t.checkers[i]); }
  }

  lemma JoiningIsExit(u: Setup, s: State)
    requires Inv(u, s) && s.main.Joining?
    ensures s.exit
  {
    hide CheckersInv;
  }

  lemma {:induction false} SomePending(cs: seq<Checker>, go: nat) returns (i: nat)
    requires Count(cs, go) > 0
    ensures i < |cs| && Pending(cs[i], go)
  {
    if Pending(cs[0], go) {
      i := 0;
    } else {
      i := SomePending(cs[1..], go);
      i := i + 1;
    }
  }

  /** In every run, until the program has aborted or is over, some thread has a step that brings it nearer to its end. */
  lemma NeverStuck(u: Setup, es: seq<Event>) returns (e: Event)
    requires !Run(u, es).aborted && !Over(Run(u, es))
    ensures Nearer(u, Run(u, es), Run(u, es + [e]))
  {
    hide Inv, Nearer, Run, Apply;
    var s := Run(u, es);
    RunInv(u, es);
    RunRounds(u, es);
    if s.main.Waiting? && s.ack > 0 {
      AckCountsDown(u, es);
      var i := SomePending(s.checkers, s.go);
      e := CheckerCanMove(u, s, i);
    } else if s.main.Joining? {
      JoiningIsExit(u, s);
      var i :| 0 <= i < |s.checkers| && !s.checkers[i].pc.Gone?;
      e := CheckerCanMove(u, s, i);
    } else {
      e := MainCanMove(u, s);
    }
    OneMore(u, es, e);
  }

  lemma OneMore(u: Setup, es: seq<Event>, e: Event)
    ensures Run(u, es + [e]) == Apply(u, Run(u, es), e)
  {
    assert (es + [e])[..|es|] == es;
  }

  /** So from every state a run reaches it can go on to its end, or aborts. */
  lemma {:induction false} CanEnd(u: Setup, es: seq<Event>) returns (more: seq<Event>)
    ensures es <= more && (Run(u, more).aborted || Over(Run(u, more)))
    decreases u.rounds - Run(u, es).round, 11 - Stage(Run(u, es).main),
              AllToGo(Run(u, es).checkers, Run(u, es).go, Run(u, es).exit)
  {
    hide Run, Over, AllToGo;
    if Run(u, es).aborted || Over(Run(u, es)) {
      more := es;
    } else {
      var e := NeverStuck(u, es);
      RunRounds(u, es + [e]);
      if Run(u, es + [e]).aborted { more := es + [e]; } else { more := CanEnd(u, es + [e]); }
    }
  }

  /** The bytes of the last copy. */
  function Copied(u: Setup, es: seq<Event>): seq<Byte> {
    if es == [] then []
    else
      var p, e := es[..|es| - 1], es[|es| - 1];
      if e.Main? && Run(u, p).main.Copy? && !Run(u, p).aborted then e.a else Copied(u, p)
  }

  /** Nothing but the copy writes the buffer. */
  lemma {:induction false} BufferIsCopied(u: Setup, es: seq<Event>)
    ensures Run(u, es).buffer == Copied(u, es)
  {
    if es != [] {
      var p, e := es[..|es| - 1], es[|es| - 1];
      BufferIsCopied(u, p);
      hide Run, Copied;
      BufferStep(u, Run(u, p), e);
    }
  }

  lemma BufferStep(u: Setup, s: State, e: Event)
    ensures Apply(u, s, e).buffer == if e.Main? && s.main.Copy? && !s.aborted then e.a else s.buffer
  {
  }

  /** In the program itself no look that passed differs from the source in one byte, nor for murmur3 within one aligned
      word or the tail. */
  lemma PassedMeansClose(u: Setup, signed: bool, es: seq<Event>, i: nat, j: nat, k: nat)
    requires u == Program(u.cpus, u.rounds, u.size, signed)
    requires var s := Run(u, es); i < |s.checkers| && j < |s.checkers[i].log|
    ensures var s := Run(u, es); j < |s.source| && Close(s.checkers[i].log[j], s.source[j], k)
  {
    hide Run, Inv, Close, Program;
    RunInv(u, es);
    AtChecker(u, Run(u, es), i);
    VouchedMeansClose(u, signed, Run(u, es).checkers[i].log[j], Run(u, es).source[j], k);
  }

  ghost predicate Close(l: Look, source: Look, k: nat) {
    && !DifferAt(l.fnv, source.fnv, k)
    && (k <= |l.mur| / 4 ==>
          !W.DifferWithin(l.mur, source.mur, 4 * k, if k < |l.mur| / 4 then 4 * k + 4 else |l.mur|))
  }

  lemma VouchedMeansClose(u: Setup, signed: bool, l: Look, source: Look, k: nat)
    requires u == Program(u.cpus, u.rounds, u.size, signed) && Vouched(u, l, source)
    ensures Close(l, source, k)
  {
    hide H.Fnv64, H.Fnv32, W.Murmur;
    var hi := if k < |l.mur| / 4 then 4 * k + 4 else |l.mur|;
    if DifferAt(l.fnv, source.fnv, k) {
      H.FnvDetects(l.fnv, source.fnv, k, signed);
    }
    if k <= |l.mur| / 4 && W.DifferWithin(l.mur, source.mur, 4 * k, hi) {
      W.MurmurDetects(l.mur, source.mur, k, 1);
    }
  }
}
