/** The vector-based race detector of san/tsan.c: a row of sequence numbers for every CPU, a table that remembers the
    last writer of each address, and exactly which races the check on a read can and cannot see. */
module RaceDetector {

  const N := 4
  const M := 10000

  type Cpu = c: nat | c < N
  type Address = nat

  datatype Location = Location(addr: Address, cpu: Cpu, seqno: nat)

  /** vec is g_vectortab, table is g_locations; a new table holds M blank entries for address 0. */
  datatype State = State(vec: seq<seq<nat>>, table: seq<Location>, rotor: nat)

  ghost predicate Shaped(s: State) {
    |s.table| == M && |s.vec| == N && forall r :: 0 <= r < N ==> |s.vec[r]| == N
  }

  /** Acquire loads and release stores; with any weaker order the hooks trap instead. */
  datatype Event =
    | Boot(cpu: Cpu)
    | Read(cpu: Cpu, addr: Address)
    | Write(cpu: Cpu, addr: Address)
    | Load(cpu: Cpu, addr: Address)
    | Store(cpu: Cpu, addr: Address)

  function Initial(): (s: State)
    ensures Shaped(s)
  {
    State([[0, 0, 0, 0], [0, 0, 0, 0], [0, 0, 0, 0], [0, 0, 0, 0]], seq(M, _ => Location(0, 0, 0)), 0)
  }

  // ---- what the hooks do -------------------------------------------------------------------------------

  /** The first entry for a at or after i. */
  function First(t: seq<Location>, a: Address, i: nat): (k: nat)
    requires i <= |t|
    ensures i <= k <= |t| && (k < |t| ==> t[k].addr == a)
    ensures forall j :: i <= j < k ==> t[j].addr != a
    decreases |t| - i
  {
    if i == |t| || t[i].addr == a then i else First(t, a, i + 1)
  }

  function Slot(rotor: nat): (k: nat)
    ensures k < M
  {
    rotor % M
  }

  /** find(): an entry for a exists afterwards, if need be in place of whatever the rotor points at. */
  function Located(s: State, a: Address): (t: State)
    requires Shaped(s)
    ensures Shaped(t) && t.vec == s.vec && First(t.table, a, 0) < M
  {
    if First(s.table, a, 0) < M then s
    else
      var t := s.table[Slot(s.rotor) := Location(a, 0, 0)];
      assert t[Slot(s.rotor)].addr == a;
      State(s.vec, t, s.rotor + 1)
  }

  function Entry(s: State, a: Address): Location
    requires Shaped(s) && First(s.table, a, 0) < M
  {
    s.table[First(s.table, a, 0)]
  }

  function SetVec(s: State, r: Cpu, w: Cpu, n: nat): (t: State)
    requires Shaped(s)
    ensures Shaped(t) && t.table == s.table && t.rotor == s.rotor
    ensures forall p: Cpu, q: Cpu :: t.vec[p][q] == if p == r && q == w then n else s.vec[p][q]
  {
    var row: seq<nat> := s.vec[r][w := n];
    s.(vec := s.vec[r := row])
  }

  /** The number a write or store takes is the one before the increment. */
  function Stamp(s: State, c: Cpu, a: Address): (t: State)
    requires Shaped(s)
    ensures Shaped(t)
  {
    var l := Located(SetVec(s, c, c, s.vec[c][c] + 1), a);
    l.(table := l.table[First(l.table, a, 0) := Location(a, c, s.vec[c][c])])
  }

  function Acquire(s: State, c: Cpu, a: Address): (t: State)
    requires Shaped(s)
    ensures Shaped(t)
  {
    var l := Located(s, a);
    var e := Entry(l, a);
    if e.seqno != 0 then SetVec(l, c, e.cpu, e.seqno) else l
  }

  function Apply(s: State, e: Event): (t: State)
    requires Shaped(s)
    ensures Shaped(t)
  {
    match e
    case Boot(c) => SetVec(s, c, c, s.vec[c][c] + 1)
    case Read(c, a) => Located(s, a)
    case Write(c, a) => Stamp(s, c, a)
    case Load(c, a) => Acquire(s, c, a)
    case Store(c, a) => Stamp(s, c, a)
  }

  /** The trap in read1: last synchronised with the writer before it did this write. */
  predicate Flags(s: State, c: Cpu, a: Address)
    requires Shaped(s)
  {
    var e := Entry(Located(s, a), a);
    s.vec[c][e.cpu] < e.seqno
  }

  datatype Order = Relaxed | Consume | Acq | Rel | AcqRel | SeqCst

  class Detector {
    const vectors: array<seq<nat>>
    const locations: array<Location>
    var rotor: nat

    constructor ()
      ensures fresh(vectors) && fresh(locations) && Valid() && Snapshot() == Initial()
    {
      vectors := new seq<nat>[N](_ => [0, 0, 0, 0]);
      locations := new Location[M](_ => Location(0, 0, 0));
      rotor := 0;
      new;
      assert Snapshot().table == Initial().table;
      assert Snapshot().vec == Initial().vec;
    }

    ghost predicate Valid()
      reads this, vectors, locations
    {
      Shaped(Snapshot())
    }

    ghost function Snapshot(): State
      reads this, vectors, locations
    {
      State(vectors[..], locations[..], rotor)
    }

    method CpuBoot(c: Cpu)
      requires Valid()
      modifies vectors
      ensures Valid() && Snapshot() == Apply(old(Snapshot()), Boot(c))
    {
      vectors[c] := vectors[c][c := vectors[c][c] + 1];
      assert vectors[..] == old(vectors[..])[c := vectors[c]];
    }

    method Find(addr: Address) returns (l: nat)
      requires Valid()
      modifies locations, this`rotor
      ensures Valid() && Snapshot() == Located(old(Snapshot()), addr)
      ensures l == First(Snapshot().table, addr, 0) < M
    {
      l := M;
      var i := 0;
      while i < M
        invariant 0 <= i <= M && First(locations[..], addr, i) == First(locations[..], addr, 0)
      {
        if locations[i].addr == addr {
          l := i;
          break;
        }
        i := i + 1;
      }
      if l == M {
        l := Slot(rotor);
        rotor := rotor + 1;
        locations[l] := Location(addr, 0, 0);
        assert locations[..] == old(locations[..])[l := locations[l]];
        NewEntryIsFirst(old(locations[..]), addr, l);
      }
    }

    method Read1(c: Cpu, addr: Address) returns (trap: bool)
      requires Valid()
      modifies locations, this`rotor
      ensures Valid() && Snapshot() == Apply(old(Snapshot()), Read(c, addr))
      ensures trap == Flags(old(Snapshot()), c, addr)
    {
      var l := Find(addr);
      trap := vectors[c][locations[l].cpu] < locations[l].seqno;
    }

    /** What write1 and a release store have in common. */
    method TakeNumber(c: Cpu, addr: Address)
      requires Valid()
      modifies vectors, locations, this`rotor
      ensures Valid() && Snapshot() == Stamp(old(Snapshot()), c, addr)
    {
      var nseq := vectors[c][c];
      CpuBoot(c);
      var l := Find(addr);
      locations[l] := Location(addr, c, nseq);
      assert locations[..] == Located(Apply(old(Snapshot()), Boot(c)), addr).table[l := locations[l]];
    }

    method Write1(c: Cpu, addr: Address)
      requires Valid()
      modifies vectors, locations, this`rotor
      ensures Valid() && Snapshot() == Apply(old(Snapshot()), Write(c, addr))
    {
      TakeNumber(c, addr);
    }

    method Atomic8Load(c: Cpu, addr: Address, order: Order) returns (trap: bool)
      requires Valid()
      modifies vectors, locations, this`rotor
      ensures Valid() && trap == (order !in {SeqCst, Acq, AcqRel})
      ensures Snapshot() == if trap then old(Snapshot()) else Apply(old(Snapshot()), Load(c, addr))
    {
      trap := order !in {SeqCst, Acq, AcqRel};
      if !trap {
        var l := Find(addr);
        var e := locations[l];
        if e.seqno != 0 {
          vectors[c] := vectors[c][e.cpu := e.seqno];
          assert vectors[..] == old(vectors[..])[c := vectors[c]];
        }
      }
    }

    method Atomic8Store(c: Cpu, addr: Address, order: Order) returns (trap: bool)
      requires Valid()
      modifies vectors, locations, this`rotor
      ensures Valid() && trap == (order !in {SeqCst, Rel, AcqRel})
      ensures Snapshot() == if trap then old(Snapshot()) else Apply(old(Snapshot()), Store(c, addr))
    {
      trap := order !in {SeqCst, Rel, AcqRel};
      if !trap {
        TakeNumber(c, addr);
      }
    }
  }

  lemma NewEntryIsFirst(t: seq<Location>, a: Address, l: nat)
    requires l < |t| && First(t, a, 0) == |t|
    ensures First(t[l := Location(a, 0, 0)], a, 0) == l
  {
    var u := t[l := Location(a, 0, 0)];
    var k := First(u, a, 0);
    assert u[l].addr == a;
  }

  // ---- histories ---------------------------------------------------------------------------------------

  function After(run: seq<Event>): (s: State)
    ensures Shaped(s)
  {
    if run == [] then Initial() else Apply(After(Front(run)), Last(run))
  }

  function Front(run: seq<Event>): (p: seq<Event>)
    requires run != []
    ensures |p| == |run| - 1 && p == run[..|p|]
  {
    run[..|run| - 1]
  }

  function Last(run: seq<Event>): Event
    requires run != []
  {
    run[|run| - 1]
  }

  predicate Stamps(e: Event, a: Address) {
    (e.Write? || e.Store?) && e.addr == a
  }

  /** The position of the last write or store to a, -1 if there is none. */
  function LastTo(run: seq<Event>, a: Address): (i: int)
    ensures -1 <= i < |run| && (i >= 0 ==> Stamps(run[i], a))
    ensures forall k :: i < k < |run| ==> !Stamps(run[k], a)
  {
    if run == [] then -1 else if Stamps(Last(run), a) then |run| - 1 else LastTo(Front(run), a)
  }

  /** Every step is in order, and no CPU acquires a store of its own that the table remembers. */
  ghost predicate Proper(run: seq<Event>, atomics: set<Address>) {
    run != [] ==> Proper(Front(run), atomics) && Allowed(Front(run), Last(run), atomics)
  }

  ghost predicate Allowed(p: seq<Event>, e: Event, atomics: set<Address>) {
    InOrder(p, e, atomics) && !AcquiresOwn(p, e)
  }

  /** A CPU boots once, before it does anything else, and addresses are either plain or atomic. */
  ghost predicate InOrder(p: seq<Event>, e: Event, atomics: set<Address>) {
    && (e.Boot? <==> Boot(e.cpu) !in p)
    && (e.Read? || e.Write? ==> e.addr !in atomics)
    && (e.Load? || e.Store? ==> e.addr in atomics)
  }

  predicate AcquiresOwn(p: seq<Event>, e: Event) {
    e.Load? && Remembered(p, e.addr) >= 0 && p[Remembered(p, e.addr)].cpu == e.cpu
  }

  /** The entry of b is the one the rotor gives away when e needs a new one. */
  predicate Evicts(s: State, e: Event, b: Address)
    requires Shaped(s)
  {
    && !e.Boot? && First(s.table, e.addr, 0) == M
    && First(s.table, b, 0) == Slot(s.rotor)
  }

  /** LastTo, unless the table has forgotten it since. */
  function Remembered(run: seq<Event>, b: Address): (i: int)
    ensures i == -1 || i == LastTo(run, b)
  {
    if run == [] then -1
    else if Stamps(Last(run), b) then |run| - 1
    else if Evicts(After(Front(run)), Last(run), b) then -1
    else Remembered(Front(run), b)
  }

  /** The store by w that the latest acquire load by r of any store by w returned, -1 if there is none. */
  function Heard(run: seq<Event>, r: Cpu, w: Cpu): (j: int)
    ensures -1 <= j < |run|
  {
    if run == [] then -1
    else
      var p, e := Front(run), Last(run);
      if e.Load? && e.cpu == r && Remembered(p, e.addr) >= 0 && p[Remembered(p, e.addr)].cpu == w
      then Remembered(p, e.addr) else Heard(p, r, w)
  }

  /** The number that event i took. */
  function Number(run: seq<Event>, i: nat): nat
    requires i < |run|
  {
    After(run[..i]).vec[run[i].cpu][run[i].cpu]
  }

  // ---- one step of the table -----------------------------------------------------------------------------

  /** Only the first entry for an address is ever used; any further one is blank. */
  ghost predicate Shadowed(t: seq<Location>) {
    forall i, j :: 0 <= i < j < |t| && t[i].addr == t[j].addr ==> t[j].cpu == 0 && t[j].seqno == 0
  }

  /** What the table knows about a. */
  function Lookup(s: State, a: Address): Location
    requires Shaped(s)
  {
    if First(s.table, a, 0) < M then Entry(s, a) else Location(a, 0, 0)
  }

  lemma FirstIs(t: seq<Location>, a: Address, k: nat)
    requires k < |t| && t[k].addr == a && forall j :: 0 <= j < k ==> t[j].addr != a
    ensures First(t, a, 0) == k
  {
  }

  lemma LocatedKeeps(s: State, a: Address, b: Address)
    requires Shaped(s) && Shadowed(s.table)
    ensures Shadowed(Located(s, a).table)
    ensures Lookup(Located(s, a), a) == Lookup(s, a)
    ensures Lookup(Located(s, a), b)
         == if First(s.table, a, 0) == M && First(s.table, b, 0) == Slot(s.rotor) then Location(b, 0, 0) else Lookup(s, b)
  {
    if First(s.table, a, 0) == M {
      var v, k := Slot(s.rotor), First(s.table, b, 0);
      var t := Located(s, a).table;
      FirstIs(t, a, v);
      if k < M && k != v {
        FirstIs(t, b, k);
      } else if k == v {
        var l := First(t, b, 0);
        assert l < M ==> s.table[v].addr == s.table[l].addr == b;
      }
    }
  }

  lemma RecordKeeps(t: seq<Location>, a: Address, b: Address, l: Location)
    requires Shadowed(t) && First(t, a, 0) < |t| && l.addr == a
    ensures Shadowed(t[First(t, a, 0) := l])
    ensures First(t[First(t, a, 0) := l], b, 0) == First(t, b, 0)
  {
    var k := First(t, a, 0);
    var u := t[k := l];
    forall i, j | 0 <= i < j < |u| && u[i].addr == u[j].addr ensures u[j].cpu == 0 && u[j].seqno == 0 {
      assert t[i].addr == t[j].addr;
    }
    if First(t, b, 0) < |t| {
      FirstIs(u, b, First(t, b, 0));
    }
  }

  lemma LookupAfter(s: State, e: Event, b: Address)
    requires Shaped(s) && Shadowed(s.table)
    ensures Shadowed(Apply(s, e).table)
    ensures Lookup(Apply(s, e), b)
         == if Stamps(e, b) then Location(b, e.cpu, s.vec[e.cpu][e.cpu])
            else if Evicts(s, e, b) then Location(b, 0, 0)
            else Lookup(s, b)
  {
    hide First, Slot, Shadowed;
    if !e.Boot? {
      LocatedKeeps(s, e.addr, b);
    }
    if e.Write? || e.Store? {
      var n := s.vec[e.cpu][e.cpu];
      var v := SetVec(s, e.cpu, e.cpu, n + 1);
      LocatedKeeps(v, e.addr, b);
      RecordKeeps(Located(v, e.addr).table, e.addr, b, Location(e.addr, e.cpu, n));
      OneFirst(Located(v, e.addr).table, e.addr, b);
    }
  }

  /** Two addresses have different first entries. */
  lemma OneFirst(t: seq<Location>, a: Address, b: Address)
    requires First(t, a, 0) < |t|
    ensures a != b ==> First(t, b, 0) != First(t, a, 0)
  {
  }

  /** Own entries count up; foreign entries change only by acquire loads. */
  lemma VecAfter(s: State, e: Event, r: Cpu, w: Cpu)
    requires Shaped(s) && Shadowed(s.table)
    ensures Apply(s, e).vec[r][w]
         == if e.Read? || e.cpu != r then s.vec[r][w]
            else if !e.Load? then (if r == w then s.vec[r][w] + 1 else s.vec[r][w])
            else if Lookup(s, e.addr).seqno != 0 && Lookup(s, e.addr).cpu == w then Lookup(s, e.addr).seqno
            else s.vec[r][w]
  {
    hide First, Slot, Shadowed;
    if e.Load? {
      LocatedKeeps(s, e.addr, e.addr);
    }
  }

  // ---- what the state says about the history ----------------------------------------------------------------

  lemma {:induction false} NumberOfFront(run: seq<Event>, i: nat)
    requires i < |run| - 1
    ensures Front(run)[i] == run[i] && Number(Front(run), i) == Number(run, i)
  {
    assert Front(run)[..i] == run[..i];
  }

  lemma NothingYet(b: Address)
    ensures Shadowed(Initial().table) && Lookup(Initial(), b) == Location(b, 0, 0)
  {
  }

  lemma {:induction false} TableRemembers(run: seq<Event>, b: Address)
    ensures Shadowed(After(run).table)
    ensures var i := Remembered(run, b);
            Lookup(After(run), b) == if i < 0 then Location(b, 0, 0) else Location(b, run[i].cpu, Number(run, i))
  {
    hide Number, Evicts, First, Stamps, Apply, Lookup, LastTo, Shadowed;
    if run == [] {
      NothingYet(b);
    } else {
      var p := Front(run);
      TableRemembers(p, b);
      LookupAfter(After(p), Last(run), b);
      var i := Remembered(p, b);
      if i >= 0 { NumberOfFront(run, i); }
      LastNumber(run);
    }
  }

  lemma LastNumber(run: seq<Event>)
    requires run != []
    ensures Number(run, |run| - 1) == After(Front(run)).vec[Last(run).cpu][Last(run).cpu]
  {
  }

  lemma {:induction false} ProperPrefix(run: seq<Event>, atomics: set<Address>, i: nat)
    requires Proper(run, atomics) && i <= |run|
    ensures Proper(run[..i], atomics)
    ensures i < |run| ==> Allowed(run[..i], run[i], atomics)
  {
    if i < |run| {
      if i < |run| - 1 { ProperPrefix(Front(run), atomics, i); }
      assert Front(run)[..i] == run[..i];
    } else {
      assert run[..i] == run;
    }
  }

  /** A CPU's own counter never goes down, and every number it gives out is used once. */
  lemma OwnNeverFalls(p: seq<Event>, e: Event, atomics: set<Address>, c: Cpu)
    requires Proper(p, atomics) && Allowed(p, e, atomics)
    ensures After(p).vec[c][c] <= Apply(After(p), e).vec[c][c]
    ensures (e.Boot? || e.Write? || e.Store?) && e.cpu == c ==> Apply(After(p), e).vec[c][c] == After(p).vec[c][c] + 1
  {
    hide Number, Evicts, First, Apply, Lookup, Shadowed;
    if !e.Boot? {
      TableRemembers(p, e.addr);
    } else {
      TableRemembers(p, 0);
    }
    VecAfter(After(p), e, c, c);
  }

  lemma {:induction false} OwnPositive(run: seq<Event>, atomics: set<Address>, c: Cpu)
    requires Proper(run, atomics) && Boot(c) in run
    ensures After(run).vec[c][c] > 0
  {
    hide Apply;
    var p, e := Front(run), Last(run);
    OwnNeverFalls(p, e, atomics, c);
    assert run == p + [e];
    if e != Boot(c) {
      OwnPositive(p, atomics, c);
    }
  }

  lemma NumberPositive(run: seq<Event>, atomics: set<Address>, i: nat)
    requires Proper(run, atomics) && i < |run| && !run[i].Boot?
    ensures Number(run, i) > 0
  {
    ProperPrefix(run, atomics, i);
    OwnPositive(run[..i], atomics, run[i].cpu);
  }

  lemma {:induction false} OwnGrows(run: seq<Event>, atomics: set<Address>, i: nat, c: Cpu)
    requires Proper(run, atomics) && i < |run|
    ensures After(run[..i]).vec[c][c] <= After(run).vec[c][c]
    ensures (run[i].Write? || run[i].Store?) && run[i].cpu == c ==> After(run[..i]).vec[c][c] < After(run).vec[c][c]
  {
    hide Apply;
    var p, e := Front(run), Last(run);
    OwnNeverFalls(p, e, atomics, c);
    if i < |p| {
      assert p[..i] == run[..i];
      OwnGrows(p, atomics, i, c);
    } else {
      assert run[..i] == p;
    }
  }

  /** The boots, writes and stores of c. */
  function Taken(run: seq<Event>, c: Cpu): nat {
    if run == [] then 0
    else Taken(Front(run), c) + if Last(run).cpu == c && !Last(run).Read? && !Last(run).Load? then 1 else 0
  }

  /** A CPU's own counter is the number of its boots, writes and stores. */
  lemma {:induction false} CounterCounts(run: seq<Event>, atomics: set<Address>, c: Cpu)
    requires Proper(run, atomics)
    ensures After(run).vec[c][c] == Taken(run, c)
  {
    if run != [] {
      var p, e := Front(run), Last(run);
      CounterCounts(p, atomics, c);
      hide Apply, First, Lookup, Shadowed;
      var a := if e.Boot? then 0 else e.addr;
      TableRemembers(p, a);
      VecAfter(After(p), e, c, c);
    }
  }

  /** Of two writes or stores by one CPU the later has the larger number. */
  lemma NumbersIncrease(run: seq<Event>, atomics: set<Address>, i: nat, j: nat)
    requires Proper(run, atomics) && i < j < |run| && run[i].cpu == run[j].cpu && (run[i].Write? || run[i].Store?)
    ensures Number(run, i) < Number(run, j)
  {
    ProperPrefix(run, atomics, j);
    assert run[..j][..i] == run[..i];
    OwnGrows(run[..j], atomics, i, run[i].cpu);
  }

  /** A foreign entry is the number of the store last heard of. */
  lemma {:induction false} VectorRemembers(run: seq<Event>, atomics: set<Address>, r: Cpu, w: Cpu)
    requires Proper(run, atomics) && r != w
    ensures var j := Heard(run, r, w);
            After(run).vec[r][w] == if j < 0 then 0 else Number(run, j)
  {
    hide Number, Evicts, First, Apply, Lookup, Shadowed;
    if run != [] {
      var p, e := Front(run), Last(run);
      VectorRemembers(p, atomics, r, w);
      var a := if e.Boot? then 0 else e.addr;
      TableRemembers(p, a);
      VecAfter(After(p), e, r, w);
      var i, j := Remembered(p, a), Heard(p, r, w);
      if j >= 0 { NumberOfFront(run, j); }
      if i >= 0 {
        NumberOfFront(run, i);
        NumberPositive(p, atomics, i);
      }
    }
  }

  // ---- what the check on a read means ------------------------------------------------------------------------

  /** Event k is an acquire load by r that returns what store j put there. */
  predicate Acquires(run: seq<Event>, r: Cpu, j: nat, k: nat) {
    && j < k < |run| && run[j].Store? && run[k] == Load(r, run[j].addr)
    && LastTo(run[..k], run[j].addr) == j
  }

  lemma StampedAtomic(run: seq<Event>, atomics: set<Address>, j: nat)
    requires Proper(run, atomics) && j < |run| && !run[j].Boot?
    ensures (run[j].Read? || run[j].Write?) <==> run[j].addr !in atomics
  {
    ProperPrefix(run, atomics, j);
  }

  lemma {:induction false} HeardWasAcquired(run: seq<Event>, atomics: set<Address>, r: Cpu, w: Cpu)
    returns (k: nat)
    requires Proper(run, atomics) && Heard(run, r, w) >= 0
    ensures run[Heard(run, r, w)].cpu == w && Acquires(run, r, Heard(run, r, w), k)
  {
    var p, e := Front(run), Last(run);
    var j := Heard(run, r, w);
    if e.Load? && e.cpu == r && Remembered(p, e.addr) >= 0 && p[Remembered(p, e.addr)].cpu == w {
      k := |p|;
      StampedAtomic(run, atomics, j);
      assert run[..k] == p;
    } else {
      k := HeardWasAcquired(p, atomics, r, w);
      assert run[..k] == p[..k];
    }
  }

  /** A read of x traps exactly if the table still knows the last write of x, another CPU did it, and the store of
      that CPU the reader heard of most recently came before it. */
  lemma ReadVerdict(run: seq<Event>, atomics: set<Address>, r: Cpu, x: Address)
    requires Proper(run, atomics) && x !in atomics
    ensures Flags(After(run), r, x)
       <==> var i := Remembered(run, x); i >= 0 && run[i].cpu != r && Heard(run, r, run[i].cpu) < i
  {
    hide Number, Evicts, First, Apply, Lookup, Shadowed, Heard;
    TableRemembers(run, x);
    LocatedKeeps(After(run), x, x);
    SameEntry(After(run), x);
    var i := Remembered(run, x);
    if i >= 0 {
      var w := run[i].cpu;
      NumberOwn(run, i);
      if w == r {
        OwnGrows(run, atomics, i, w);
      } else {
        VectorRemembers(run, atomics, r, w);
        NumberPositive(run, atomics, i);
        var j := Heard(run, r, w);
        if j >= 0 {
          var k := HeardWasAcquired(run, atomics, r, w);
          if j < i { NumbersIncrease(run, atomics, j, i); }
          if i < j { NumbersIncrease(run, atomics, i, j); }
          NotBoth(run, atomics, i, j);
        }
      }
    }
  }

  lemma NumberOwn(run: seq<Event>, i: nat)
    requires i < |run|
    ensures Number(run, i) == After(run[..i]).vec[run[i].cpu][run[i].cpu]
  {
  }

  lemma SameEntry(s: State, a: Address)
    requires Shaped(s)
    ensures Lookup(Located(s, a), a) == Entry(Located(s, a), a)
  {
  }

  /** Nothing is both stored to and written. */
  lemma NotBoth(run: seq<Event>, atomics: set<Address>, i: nat, j: nat)
    requires Proper(run, atomics) && i < |run| && j < |run| && run[j].Store?
    requires (run[i].Write? || run[i].Store?) && run[i].addr !in atomics
    ensures i != j
  {
    ProperPrefix(run, atomics, j);
  }

  /** Event k acquires store j, which w made. */
  predicate AcquiresFrom(run: seq<Event>, r: Cpu, w: Cpu, j: nat, k: nat) {
    Acquires(run, r, j, k) && run[j].cpu == w
  }

  /** r has acquired a store that the CPU of event i released after event i. */
  ghost predicate SynchronisedAfter(run: seq<Event>, r: Cpu, i: nat)
    requires i < |run|
  {
    exists j: nat, k: nat :: i < j && AcquiresFrom(run, r, run[i].cpu, j, k)
  }

  /** No missed race: if another CPU wrote x last, the table has not lost x, and the read does not trap, then the
      reader has acquired a store the writer released after that write. */
  lemma NoMissedRace(run: seq<Event>, atomics: set<Address>, r: Cpu, x: Address)
    requires Proper(run, atomics) && x !in atomics
    requires Remembered(run, x) >= 0 && run[LastTo(run, x)].cpu != r
    requires !Flags(After(run), r, x)
    ensures SynchronisedAfter(run, r, LastTo(run, x))
  {
    hide Remembered, Heard, Flags, LastTo, Proper;
    var i := Remembered(run, x);
    var w := run[i].cpu;
    ReadVerdict(run, atomics, r, x);
    var k := HeardWasAcquired(run, atomics, r, w);
    assert AcquiresFrom(run, r, w, Heard(run, r, w), k);
    NotBoth(run, atomics, i, Heard(run, r, w));
  }
}
