/** How far the detector of san/tsan.c can be trusted: when its table forgets nothing, exactly which steps of the program
    blind it, exactly when it raises a false alarm, and why taking a number outside the lock is harmless. */
module RaceLimits {
  import opened RaceDetector

  // ---- when the table forgets nothing -------------------------------------------------------------------------

  function Seen(run: seq<Event>): set<Address> {
    if run == [] then {}
    else if Last(run).Boot? then Seen(Front(run))
    else Seen(Front(run)) + {Last(run).addr}
  }

  /** Entries are claimed from the bottom up, one for each address. */
  ghost predicate Filled(s: State, seen: set<Address>) {
    Shaped(s) && 0 !in seen && s.rotor == |seen| <= M && Claimed(s.table, s.rotor, seen) && Found(s.table, seen)
  }

  ghost predicate Claimed(t: seq<Location>, n: nat, seen: set<Address>) {
    forall i :: 0 <= i < |t| ==> if i < n then t[i].addr in seen else t[i].addr == 0
  }

  ghost predicate Found(t: seq<Location>, seen: set<Address>) {
    forall a :: a in seen ==> First(t, a, 0) < |t|
  }

  lemma LocatedFills(s: State, seen: set<Address>, a: Address)
    requires Filled(s, seen) && a != 0 && |seen + {a}| <= M
    ensures Filled(Located(s, a), seen + {a})
    ensures First(s.table, a, 0) == M ==> s.table[Slot(s.rotor)].addr == 0
  {
    hide First, Claimed, Found, Slot;
    KnownIffSeen(s, seen, a);
    if a in seen {
      assert seen + {a} == seen;
    } else {
      SlotBelow(s.rotor);
      ClaimOne(s.table, s.rotor, seen, a);
      UnclaimedAt(s.table, s.rotor, seen, s.rotor);
    }
  }

  lemma UnclaimedAt(t: seq<Location>, n: nat, seen: set<Address>, i: nat)
    requires Claimed(t, n, seen) && n <= i < |t|
    ensures t[i].addr == 0
  {
  }

  lemma KnownIffSeen(s: State, seen: set<Address>, a: Address)
    requires Filled(s, seen) && a != 0
    ensures a in seen <==> First(s.table, a, 0) < M
  {
    var k := First(s.table, a, 0);
    assert k < M ==> s.table[k].addr == a;
  }

  lemma SlotBelow(rotor: nat)
    requires rotor < M
    ensures Slot(rotor) == rotor
  {
  }

  lemma ClaimOne(t: seq<Location>, n: nat, seen: set<Address>, a: Address)
    requires n < |t| && Claimed(t, n, seen) && Found(t, seen) && 0 !in seen
    ensures Claimed(t[n := Location(a, 0, 0)], n + 1, seen + {a}) && Found(t[n := Location(a, 0, 0)], seen + {a})
  {
    hide First;
    var u := t[n := Location(a, 0, 0)];
    assert u[n].addr == a;
    forall b | b in seen ensures First(u, b, 0) < |u| {
      assert u[First(t, b, 0)].addr == b;
    }
  }

  lemma SameAddresses(s: State, t: State, seen: set<Address>)
    requires Filled(s, seen) && Shaped(t) && t.rotor == s.rotor
    requires forall i :: 0 <= i < M ==> t.table[i].addr == s.table[i].addr
    ensures Filled(t, seen)
  {
    forall a | a in seen ensures First(t.table, a, 0) < M {
      FirstIs(t.table, a, First(s.table, a, 0));
    }
  }

  lemma StepFills(s: State, seen: set<Address>, e: Event, b: Address)
    requires Filled(s, seen) && !e.Boot? && e.addr != 0 && |seen + {e.addr}| <= M && b != 0
    ensures Filled(Apply(s, e), seen + {e.addr}) && !Evicts(s, e, b)
  {
    hide First, Slot, Claimed, Found;
    var a := e.addr;
    LocatedFills(s, seen, a);
    if e.Write? || e.Store? {
      var v := SetVec(s, e.cpu, e.cpu, s.vec[e.cpu][e.cpu] + 1);
      SameAddresses(s, v, seen);
      LocatedFills(v, seen, a);
      SameAddresses(Located(v, a), Stamp(s, e.cpu, a), seen + {a});
    } else {
      SameAddresses(Located(s, a), Apply(s, e), seen + {a});
    }
  }

  lemma InitiallyFilled()
    ensures Filled(Initial(), {})
  {
  }

  lemma BootFills(s: State, seen: set<Address>, e: Event, b: Address)
    requires Filled(s, seen) && e.Boot?
    ensures Filled(Apply(s, e), seen) && !Evicts(s, e, b)
  {
    SameAddresses(s, Apply(s, e), seen);
  }

  /** Unless a run touches more than M addresses, every entry stays. */
  lemma {:induction false} NothingForgotten(run: seq<Event>, b: Address)
    requires 0 !in Seen(run) && |Seen(run)| <= M
    ensures Filled(After(run), Seen(run))
    ensures b != 0 ==> Remembered(run, b) == LastTo(run, b)
  {
    hide Filled, Apply, Evicts;
    if run == [] {
      InitiallyFilled();
    } else {
      var p, e := Front(run), Last(run);
      Fewer(Seen(p), Seen(run));
      NothingForgotten(p, b);
      if e.Boot? {
        BootFills(After(p), Seen(run), e, b);
      } else {
        StepFills(After(p), Seen(p), e, if b == 0 then 1 else b);
      }
    }
  }

  lemma Fewer<T>(x: set<T>, y: set<T>)
    requires x <= y
    ensures |x| <= |y|
  {
    assert y == x + (y - x);
  }

  // ---- why no CPU may acquire its own store -----------------------------------------------------------------------

  /** One event on a table with room to spare: what becomes of b's entry. */
  lemma Follow(p: seq<Event>, e: Event, b: Address, names: set<Address>)
    requires !e.Boot? && b != 0 && 0 !in names && |names| <= M && Seen(p) <= names && e.addr in names
    ensures Seen(p + [e]) <= names
    ensures Lookup(After(p + [e]), b)
         == if Stamps(e, b) then Location(b, e.cpu, After(p).vec[e.cpu][e.cpu]) else Lookup(After(p), b)
  {
    hide First, Slot, Filled, Shadowed, Lookup, Apply;
    assert Front(p + [e]) == p;
    Fewer(Seen(p), names);
    Fewer(Seen(p) + {e.addr}, names);
    NothingForgotten(p, b);
    TableRemembers(p, b);
    StepFills(After(p), Seen(p), e, b);
    LookupAfter(After(p), e, b);
  }

  /** And what becomes of a cell of the sequence number table. */
  lemma FollowVec(p: seq<Event>, e: Event, r: Cpu, w: Cpu)
    ensures After(p + [e]).vec[r][w]
         == if e.Read? || e.cpu != r then After(p).vec[r][w]
            else if !e.Load? then (if r == w then After(p).vec[r][w] + 1 else After(p).vec[r][w])
            else if Lookup(After(p), e.addr).seqno != 0 && Lookup(After(p), e.addr).cpu == w
            then Lookup(After(p), e.addr).seqno else After(p).vec[r][w]
  {
    hide First, Slot, Shadowed, Lookup, Apply;
    assert Front(p + [e]) == p;
    TableRemembers(p, 0);
    VecAfter(After(p), e, r, w);
  }

  /** An entry with a number on it is not disturbed by an acquire load of its own address, nor by a boot. */
  lemma EntryStays(p: seq<Event>, e: Event, b: Address)
    requires (e.Load? && e.addr == b && Lookup(After(p), b).seqno != 0) || e.Boot?
    ensures Lookup(After(p + [e]), b) == Lookup(After(p), b)
  {
    hide First, Slot, Shadowed, Apply;
    assert Front(p + [e]) == p;
    TableRemembers(p, b);
    LookupAfter(After(p), e, b);
  }

  /** A write is known by the number its CPU's counter had. */
  lemma EntryWritten(p: seq<Event>, c: Cpu, x: Address)
    ensures Lookup(After(p + [Write(c, x)]), x) == Location(x, c, After(p).vec[c][c])
    ensures Remembered(p + [Write(c, x)], x) == LastTo(p + [Write(c, x)], x) == |p|
  {
    hide First, Slot, Shadowed, Apply, Lookup, After;
    assert Front(p + [Write(c, x)]) == p;
    TableRemembers(p + [Write(c, x)], x);
  }

  lemma LoadHears(p: seq<Event>, r: Cpu, f: Address)
    requires Lookup(After(p), f).seqno > 0
    ensures After(p + [Load(r, f)]).vec[r][Lookup(After(p), f).cpu] == Lookup(After(p), f).seqno
  {
    FollowVec(p, Load(r, f), r, Lookup(After(p), f).cpu);
  }

  lemma RowUntouched(p: seq<Event>, e: Event, r: Cpu, w: Cpu)
    requires e.cpu != r
    ensures After(p + [e]).vec[r][w] == After(p).vec[r][w]
  {
    FollowVec(p, e, r, w);
  }

  /** If c's counter is no larger than the number on its own store to f, a CPU that acquires f does not trap on what c
      writes next. */
  lemma StaleCounterHides(q: seq<Event>, c: Cpu, r: Cpu, f: Address, x: Address)
    requires c != r && After(q).vec[c][c] == Lookup(After(q), f).seqno > 0 && Lookup(After(q), f).cpu == c
    ensures !Flags(After(q + [Load(r, f)] + [Write(c, x)]), r, x)
  {
    hide After, Lookup, LastTo, Remembered, Flags;
    var p := q + [Load(r, f)];
    LoadHears(q, r, f);
    RowUntouched(q, Load(r, f), c, c);
    EntryWritten(p, c, x);
    RowUntouched(p, Write(c, x), r, c);
    FlagsByLookup(p + [Write(c, x)], r, x);
  }

  lemma FlagsByLookup(run: seq<Event>, r: Cpu, x: Address)
    ensures var e := Lookup(After(run), x); Flags(After(run), r, x) <==> After(run).vec[r][e.cpu] < e.seqno
  {
    hide After, First, Shadowed, Lookup;
    TableRemembers(run, x);
    LocatedKeeps(After(run), x, x);
    SameEntry(After(run), x);
  }

  lemma NothingLater(run: seq<Event>, r: Cpu)
    requires run != []
    ensures !SynchronisedAfter(run, r, |run| - 1)
  {
  }

  /** Acquiring a remembered store of one's own takes one's counter back to the number of that store. */
  lemma OwnLoadRewinds(p: seq<Event>, atomics: set<Address>, c: Cpu, f: Address)
    requires Proper(p, atomics) && AcquiresOwn(p, Load(c, f))
    ensures var s := After(p + [Load(c, f)]); s.vec[c][c] == Lookup(s, f).seqno > 0 && Lookup(s, f).cpu == c
  {
    hide After, Lookup, First, Shadowed, LastTo, Remembered, Number;
    TableRemembers(p, f);
    NumberPositive(p, atomics, Remembered(p, f));
    LoadHears(p, c, f);
    EntryStays(p, Load(c, f), f);
  }

  /** q, an acquire of f by r, and a write of x by c. */
  function ThenRace(q: seq<Event>, c: Cpu, r: Cpu, f: Address, x: Address): seq<Event> {
    q + [Load(r, f)] + [Write(c, x)]
  }

  lemma RaceIsMissed(q: seq<Event>, c: Cpu, r: Cpu, f: Address, x: Address)
    requires c != r && After(q).vec[c][c] == Lookup(After(q), f).seqno > 0 && Lookup(After(q), f).cpu == c
    ensures LastTo(ThenRace(q, c, r, f, x), x) == |q| + 1 && Missed(ThenRace(q, c, r, f, x), r, x)
  {
    hide After, Lookup, LastTo, Remembered, Flags, SynchronisedAfter;
    StaleCounterHides(q, c, r, f, x);
    EntryWritten(q + [Load(r, f)], c, x);
    NothingLater(ThenRace(q, c, r, f, x), r);
  }

  /** After any proper run, acquiring a remembered store of one's own hides a race: another CPU that acquires the same
      store does not trap on what the first one writes next, though nothing orders the two. */
  lemma OwnLoadHidesARace(p: seq<Event>, atomics: set<Address>, c: Cpu, r: Cpu, f: Address, x: Address)
    requires Proper(p, atomics) && AcquiresOwn(p, Load(c, f)) && c != r
    ensures var run := p + [Load(c, f)] + [Load(r, f)] + [Write(c, x)];
      LastTo(run, x) == |p| + 2 && !Flags(After(run), r, x) && !SynchronisedAfter(run, r, |p| + 2)
  {
    hide After, Lookup, LastTo, Remembered, Flags, SynchronisedAfter;
    OwnLoadRewinds(p, atomics, c, f);
    RaceIsMissed(p + [Load(c, f)], c, r, f, x);
  }

  /** A read of x by r would not trap, though another CPU wrote x last and r has not synchronised with it since. */
  ghost predicate Missed(run: seq<Event>, r: Cpu, x: Address) {
    && LastTo(run, x) >= 0 && run[LastTo(run, x)].cpu != r
    && !Flags(After(run), r, x) && !SynchronisedAfter(run, r, LastTo(run, x))
  }

  /** No race on a plain address would be missed. */
  ghost predicate Sound(run: seq<Event>, atomics: set<Address>) {
    forall r: Cpu, x: Address :: x !in atomics ==> !Missed(run, r, x)
  }

  /** q goes on from p by allowed steps. */
  ghost predicate Continues(p: seq<Event>, q: seq<Event>, atomics: set<Address>) {
    |p| <= |q| && q[..|p|] == p && forall i :: |p| <= i < |q| ==> Allowed(q[..i], q[i], atomics)
  }

  /** The run touches few enough addresses for the table to keep them all. */
  ghost predicate Roomy(run: seq<Event>) {
    0 !in Seen(run) && |Seen(run)| <= 10000
  }

  /** Nothing that may follow p within M addresses makes the detector miss a race. */
  ghost predicate Safe(p: seq<Event>, atomics: set<Address>) {
    forall q :: Continues(p, q, atomics) && Roomy(q) ==> Sound(q, atomics)
  }

  /** Within M addresses, p can still be followed by an access to a plain address. */
  ghost predicate PlainLeft(p: seq<Event>, atomics: set<Address>) {
    |Seen(p)| < M || exists x :: x in Seen(p) && x !in atomics
  }

  lemma {:induction false} ContinuesProper(p: seq<Event>, q: seq<Event>, atomics: set<Address>)
    requires Proper(p, atomics) && Continues(p, q, atomics)
    ensures Proper(q, atomics)
    decreases |q|
  {
    hide Allowed;
    if |q| == |p| {
      assert q == p;
    } else {
      var f := Front(q);
      assert f[..|p|] == p;
      forall i | |p| <= i < |f| ensures Allowed(f[..i], f[i], atomics) {
        assert f[..i] == q[..i];
      }
      ContinuesProper(p, f, atomics);
      assert q[..|f|] == f;
    }
  }

  lemma {:induction false} StampSeen(run: seq<Event>, i: nat)
    requires i < |run| && !run[i].Boot?
    ensures run[i].addr in Seen(run)
  {
    if i < |run| - 1 { StampSeen(Front(run), i); }
  }

  lemma {:induction false} SeenPrefix(run: seq<Event>, i: nat)
    requires i <= |run|
    ensures Seen(run[..i]) <= Seen(run)
  {
    if i < |run| {
      SeenPrefix(Front(run), i);
      assert Front(run)[..i] == run[..i];
    } else {
      assert run[..i] == run;
    }
  }

  lemma ProperIsSafe(p: seq<Event>, atomics: set<Address>)
    requires Proper(p, atomics)
    ensures Safe(p, atomics)
  {
    hide Proper, Continues, Flags, SynchronisedAfter, LastTo, Remembered, Seen, Filled;
    forall q | Continues(p, q, atomics) && Roomy(q) ensures Sound(q, atomics) {
      ContinuesProper(p, q, atomics);
      forall r: Cpu, x: Address | x !in atomics ensures !Missed(q, r, x) {
        if Missed(q, r, x) {
          StampSeen(q, LastTo(q, x));
          NothingForgotten(q, x);
          NoMissedRace(q, atomics, r, x);
        }
      }
    }
  }

  /** When every address is atomic and the table is full, there is nothing left to miss. */
  lemma FullIsSafe(p: seq<Event>, atomics: set<Address>)
    requires !PlainLeft(p, atomics)
    ensures Safe(p, atomics)
  {
    hide Continues, Flags, SynchronisedAfter, LastTo, Seen;
    forall q | Continues(p, q, atomics) && Roomy(q) ensures Sound(q, atomics) {
      ContinuesPrefix(p, q, atomics);
      SeenPrefix(q, |p|);
      SameSize(Seen(p), Seen(q));
      forall r: Cpu, x: Address | x !in atomics ensures !Missed(q, r, x) {
        if LastTo(q, x) >= 0 { StampSeen(q, LastTo(q, x)); }
      }
    }
  }

  lemma ContinuesPrefix(p: seq<Event>, q: seq<Event>, atomics: set<Address>)
    requires Continues(p, q, atomics)
    ensures |p| <= |q| && q[..|p|] == p
  {
  }

  lemma SameSize<T>(x: set<T>, y: set<T>)
    requires x <= y && |y| <= |x|
    ensures x == y
  {
    assert y == x + (y - x);
  }

  lemma PlainLeftPrefix(run: seq<Event>, atomics: set<Address>, i: nat)
    requires Roomy(run) && PlainLeft(run, atomics) && i <= |run|
    ensures Roomy(run[..i]) && PlainLeft(run[..i], atomics)
  {
    hide Seen;
    var a, b := Seen(run[..i]), Seen(run);
    SeenPrefix(run, i);
    Fewer(a, b);
    if |b| == M {
      var x :| x in b && x !in atomics;
      if x !in a { Fewer(a, b - {x}); }
    }
  }

  lemma {:induction false} Outside(s: set<nat>) returns (x: nat)
    ensures forall y :: y in s ==> y < x
  {
    if s == {} {
      x := 0;
    } else {
      var y :| y in s;
      var z := Outside(s - {y});
      x := if z > y then z else y + 1;
      assert s == (s - {y}) + {y};
    }
  }

  lemma ContinueOnce(p: seq<Event>, q: seq<Event>, e: Event, atomics: set<Address>)
    requires Continues(p, q, atomics) && Allowed(q, e, atomics)
    ensures Continues(p, q + [e], atomics)
  {
    hide Allowed;
    var f := q + [e];
    forall i | |p| <= i < |f| ensures Allowed(f[..i], f[i], atomics) {
      if i < |q| { assert f[..i] == q[..i]; } else { assert f[..i] == q; }
    }
  }

  /** Acquiring somebody else's store is allowed. */
  lemma ForeignLoadAllowed(p: seq<Event>, atomics: set<Address>, r: Cpu, f: Address)
    requires Boot(r) in p && f in atomics && Lookup(After(p), f).seqno > 0 && Lookup(After(p), f).cpu != r
    ensures Allowed(p, Load(r, f), atomics)
  {
    hide After, Lookup, Remembered, Number;
    TableRemembers(p, f);
  }

  /** A plain address that may still be written. */
  lemma PlainAddress(p: seq<Event>, atomics: set<Address>) returns (x: Address)
    requires Roomy(p) && PlainLeft(p, atomics)
    ensures x !in atomics && x != 0 && |Seen(p) + {x}| <= M
  {
    if |Seen(p)| < M {
      x := Outside(atomics + {0});
    } else {
      x :| x in Seen(p) && x !in atomics;
      assert Seen(p) + {x} == Seen(p);
    }
  }

  lemma SeenOneMore(p: seq<Event>, e: Event)
    ensures Seen(p + [e]) == if e.Boot? then Seen(p) else Seen(p) + {e.addr}
  {
    assert Front(p + [e]) == p;
  }

  /** p, and a boot of r if that has not happened yet. */
  function Booted(p: seq<Event>, r: Cpu): (q: seq<Event>)
    ensures Boot(r) in q && forall e :: e in p ==> e in q
  {
    if Boot(r) in p then p else p + [Boot(r)]
  }

  lemma BootedKeeps(p: seq<Event>, atomics: set<Address>, r: Cpu, c: Cpu, f: Address)
    requires c != r
    ensures Continues(p, Booted(p, r), atomics) && Seen(Booted(p, r)) == Seen(p)
    ensures After(Booted(p, r)).vec[c][c] == After(p).vec[c][c]
    ensures Lookup(After(Booted(p, r)), f) == Lookup(After(p), f)
  {
    hide After, Lookup, Seen;
    ContinuesSelf(p, atomics);
    if Boot(r) !in p {
      PlainAllowed(p, Boot(r), atomics);
      ContinueOnce(p, p, Boot(r), atomics);
      SeenOneMore(p, Boot(r));
      RowUntouched(p, Boot(r), c, c);
      EntryStays(p, Boot(r), f);
    }
  }

  /** From a counter that has been taken back, two more steps lead to a race that is missed. */
  lemma RewoundUnsafe(p: seq<Event>, atomics: set<Address>, c: Cpu, f: Address)
    requires Boot(c) in p && f in atomics && f in Seen(p) && Roomy(p) && PlainLeft(p, atomics)
    requires After(p).vec[c][c] == Lookup(After(p), f).seqno > 0 && Lookup(After(p), f).cpu == c
    ensures !Safe(p, atomics)
  {
    hide After, Lookup, Missed, Continues, Seen, Booted;
    var r: Cpu := if c == 0 then 1 else 0;
    var x := PlainAddress(p, atomics);
    var p2, p3, q := Booted(p, r), Booted(p, r) + [Load(r, f)], ThenRace(Booted(p, r), c, r, f, x);
    BootedKeeps(p, atomics, r, c, f);
    RaceIsMissed(p2, c, r, f, x);
    ForeignLoadAllowed(p2, atomics, r, f);
    ContinueOnce(p, p2, Load(r, f), atomics);
    PlainAllowed(p3, Write(c, x), atomics);
    ContinueOnce(p, p3, Write(c, x), atomics);
    SeenOneMore(p2, Load(r, f));
    SeenOneMore(p3, Write(c, x));
    assert Seen(p) + {f} + {x} == Seen(p) + {x};
    assert Continues(p, q, atomics) && Roomy(q) && !Sound(q, atomics);
  }

  lemma OwnLoadUnsafe(p: seq<Event>, atomics: set<Address>, c: Cpu, f: Address)
    requires Proper(p, atomics) && InOrder(p, Load(c, f), atomics) && AcquiresOwn(p, Load(c, f))
    requires Roomy(p + [Load(c, f)]) && PlainLeft(p + [Load(c, f)], atomics)
    ensures !Safe(p + [Load(c, f)], atomics)
  {
    hide After, Lookup, Safe, PlainLeft, AcquiresOwn, Seen, Proper;
    OwnLoadRewinds(p, atomics, c, f);
    SeenOneMore(p, Load(c, f));
    RewoundUnsafe(p + [Load(c, f)], atomics, c, f);
  }

  lemma ContinuesSelf(p: seq<Event>, atomics: set<Address>)
    ensures Continues(p, p, atomics)
  {
  }

  lemma PlainAllowed(p: seq<Event>, e: Event, atomics: set<Address>)
    requires InOrder(p, e, atomics) && !e.Load?
    ensures Allowed(p, e, atomics)
  {
  }

  /** Step i acquires a remembered store of its own CPU while a plain address can still be accessed. */
  ghost predicate Blinds(run: seq<Event>, i: nat, atomics: set<Address>)
    requires i < |run|
  {
    AcquiresOwn(run[..i], run[i]) && PlainLeft(run[..i + 1], atomics)
  }

  /** After a proper run, a step in order leaves the detector sound for everything that may follow within M addresses if
      and only if it does not acquire a remembered store of its own CPU while a plain address can still be accessed. */
  lemma SafeExactly(p: seq<Event>, e: Event, atomics: set<Address>)
    requires Proper(p, atomics) && InOrder(p, e, atomics) && Roomy(p + [e])
    ensures Safe(p + [e], atomics) <==> !(AcquiresOwn(p, e) && PlainLeft(p + [e], atomics))
  {
    hide Safe, Roomy, PlainLeft;
    if !PlainLeft(p + [e], atomics) {
      FullIsSafe(p + [e], atomics);
    } else if AcquiresOwn(p, e) {
      OwnLoadUnsafe(p, atomics, e.cpu, e.addr);
    } else {
      assert Front(p + [e]) == p;
      ProperIsSafe(p + [e], atomics);
    }
  }

  ghost predicate Orderly(run: seq<Event>, atomics: set<Address>) {
    forall i :: 0 <= i < |run| ==> InOrder(run[..i], run[i], atomics)
  }

  /** Of the runs that keep to M addresses, the detector can be trusted, at every moment and for all that may follow
      within M addresses, with exactly those in which no step acquires a remembered store of its own CPU while a plain
      address can still be accessed. */
  lemma {:induction false} TrustedExactly(run: seq<Event>, atomics: set<Address>)
    requires Orderly(run, atomics) && Roomy(run)
    ensures (forall i :: 0 <= i <= |run| ==> Safe(run[..i], atomics))
       <==> (forall i :: 0 <= i < |run| ==> !Blinds(run, i, atomics))
  {
    hide Safe, Blinds, InOrder, Roomy;
    if run == [] {
      ProperIsSafe([], atomics);
      assert run[..0] == [];
    } else {
      var p, e := Front(run), Last(run);
      RoomyFront(run);
      OrderlyFront(run, atomics);
      TrustedExactly(p, atomics);
      forall i | 0 <= i <= |p| ensures p[..i] == run[..i] {}
      forall i | 0 <= i < |p| ensures Blinds(p, i, atomics) <==> Blinds(run, i, atomics) { BlindsFront(run, i, atomics); }
      if forall i :: 0 <= i < |p| ==> !Blinds(run, i, atomics) { TrustedLast(run, atomics); }
      assert run[..|run|] == run;
    }
  }

  lemma OrderlyFront(run: seq<Event>, atomics: set<Address>)
    requires run != [] && Orderly(run, atomics)
    ensures Orderly(Front(run), atomics) && InOrder(Front(run), Last(run), atomics)
  {
    hide InOrder;
    var p := Front(run);
    forall i | 0 <= i < |p| ensures InOrder(p[..i], p[i], atomics) { assert p[..i] == run[..i]; }
    assert run[..|p|] == p;
  }

  lemma BlindsFront(run: seq<Event>, i: nat, atomics: set<Address>)
    requires i < |run| - 1
    ensures Blinds(Front(run), i, atomics) <==> Blinds(run, i, atomics)
  {
    assert Front(run)[..i] == run[..i] && Front(run)[..i + 1] == run[..i + 1];
  }

  lemma TrustedLast(run: seq<Event>, atomics: set<Address>)
    requires run != [] && Orderly(run, atomics) && Roomy(run)
    requires forall i :: 0 <= i < |run| - 1 ==> !Blinds(run, i, atomics)
    ensures Safe(run, atomics) <==> !Blinds(run, |run| - 1, atomics)
  {
    hide Safe, InOrder, Roomy, PlainLeft, AcquiresOwn;
    var p, e := Front(run), Last(run);
    assert run[..|p|] == p && run[..|p| + 1] == run == p + [e];
    if PlainLeft(run, atomics) {
      forall i | 0 <= i < |p| ensures !AcquiresOwn(p[..i], p[i]) {
        PlainLeftPrefix(run, atomics, i + 1);
        assert p[..i] == run[..i] && !Blinds(run, i, atomics);
      }
      OrderlyFront(run, atomics);
      NeverOwnIsProper(p, atomics);
      SafeExactly(p, e, atomics);
    } else {
      FullIsSafe(run, atomics);
    }
  }

  lemma {:induction false} NeverOwnIsProper(run: seq<Event>, atomics: set<Address>)
    requires Orderly(run, atomics) && forall i :: 0 <= i < |run| ==> !AcquiresOwn(run[..i], run[i])
    ensures Proper(run, atomics)
  {
    hide AcquiresOwn, InOrder;
    if run != [] {
      var p := Front(run);
      forall i | 0 <= i < |p| ensures p[..i] == run[..i] {}
      NeverOwnIsProper(p, atomics);
      assert run[..|p|] == p;
    }
  }

  // ---- beyond M addresses ---------------------------------------------------------------------------------------------

  /** c reads k addresses from base on. */
  function Reads(c: Cpu, base: nat, k: nat): (run: seq<Event>)
    ensures |run| == k && forall j :: 0 <= j < k ==> run[j] == Read(c, base + j)
  {
    if k == 0 then [] else Reads(c, base, k - 1) + [Read(c, base + k - 1)]
  }

  function SlotAfter(rotor: nat, j: nat): (k: nat)
    ensures k < M
  {
    Slot(rotor + j)
  }

  /** k claims on from table t: the slots they have gone over hold new addresses, the others what they held. */
  ghost predicate Overrun(s: State, t: State, base: nat, k: nat) {
    && Shaped(s) && Shaped(t) && s.rotor == t.rotor + k
    && (forall i :: 0 <= i < M ==> s.table[i].addr < base + k)
    && (forall j :: 0 <= j < k ==> s.table[SlotAfter(t.rotor, j)].addr >= base)
  }

  lemma OverrunStep(s: State, t: State, c: Cpu, base: nat, k: nat)
    requires Overrun(s, t, base, k)
    ensures Overrun(Apply(s, Read(c, base + k)), t, base, k + 1)
  {
    hide Slot;
  }

  lemma OverrunStart(s: State, base: nat)
    requires Shaped(s) && forall i :: 0 <= i < M ==> s.table[i].addr < base
    ensures Overrun(s, s, base, 0)
  {
  }

  lemma {:induction false} ReadsOverrun(p: seq<Event>, c: Cpu, base: nat, k: nat)
    requires forall i :: 0 <= i < M ==> After(p).table[i].addr < base
    ensures Overrun(After(p + Reads(c, base, k)), After(p), base, k)
  {
    hide After, Overrun, Apply;
    if k == 0 {
      assert p + Reads(c, base, k) == p;
      OverrunStart(After(p), base);
    } else {
      ReadsOverrun(p, c, base, k - 1);
      assert p + Reads(c, base, k) == p + Reads(c, base, k - 1) + [Read(c, base + k - 1)];
      AfterOneMore(p + Reads(c, base, k - 1), Read(c, base + k - 1));
      OverrunStep(After(p + Reads(c, base, k - 1)), After(p), c, base, k - 1);
    }
  }

  lemma SlotOnto(rotor: nat, i: nat) returns (j: nat)
    requires i < M
    ensures j < M && SlotAfter(rotor, j) == i
  {
    var r := rotor % M;
    j := if i >= r then i - r else i + M - r;
    assert rotor + j == M * (if i >= r then rotor / M else rotor / M + 1) + i;
  }

  /** M claims replace the whole table. */
  lemma AllReplaced(s: State, t: State, base: nat, x: Address)
    requires Overrun(s, t, base, M) && x < base
    ensures First(s.table, x, 0) == M
  {
    hide SlotAfter;
    var i := First(s.table, x, 0);
    if i < M { var j := SlotOnto(t.rotor, i); }
  }

  lemma TopAddress(s: State) returns (b: nat)
    requires Shaped(s)
    ensures forall i :: 0 <= i < M ==> s.table[i].addr < b
  {
    var addrs := set i | 0 <= i < M :: s.table[i].addr;
    b := Outside(addrs);
    forall i | 0 <= i < M ensures s.table[i].addr < b { assert s.table[i].addr in addrs; }
  }

  lemma {:induction false} ReadsAllowed(p: seq<Event>, q: seq<Event>, c: Cpu, base: nat, k: nat, atomics: set<Address>)
    requires Continues(p, q, atomics) && Boot(c) in q && forall a :: a in atomics ==> a < base
    ensures Continues(p, q + Reads(c, base, k), atomics)
  {
    hide Continues;
    if k == 0 {
      assert q + Reads(c, base, k) == q;
    } else {
      ReadsAllowed(p, q, c, base, k - 1, atomics);
      var f := q + Reads(c, base, k - 1);
      PlainAllowed(f, Read(c, base + k - 1), atomics);
      ContinueOnce(p, f, Read(c, base + k - 1), atomics);
      assert q + Reads(c, base, k) == f + [Read(c, base + k - 1)];
    }
  }

  lemma ReadsChangeNothing(p: seq<Event>, c: Cpu, x: Address, base: nat, k: nat, r: Cpu)
    ensures var q := p + [Write(c, x)] + Reads(c, base, k);
            LastTo(q, x) == |p| && q[|p|] == Write(c, x) && !SynchronisedAfter(q, r, |p|)
  {
    hide LastTo;
    var q := p + [Write(c, x)] + Reads(c, base, k);
    LastIs(q, x, |p|);
  }

  /** Beyond M addresses nothing helps: after any proper run, a write followed by M reads of new plain addresses, none of
      them an own acquire, is a race that is missed. */
  lemma ForgettingHidesARace(p: seq<Event>, atomics: set<Address>, c: Cpu, r: Cpu) returns (q: seq<Event>, x: Address)
    requires Proper(p, atomics) && Boot(c) in p && c != r
    ensures Continues(p, q, atomics) && Proper(q, atomics) && x !in atomics
    ensures LastTo(q, x) == |p| && Missed(q, r, x)
  {
    hide After, Continues, SynchronisedAfter, LastTo, Proper, Flags, Overrun, First, Reads;
    x := Outside(atomics);
    var q0 := p + [Write(c, x)];
    var top := TopAddress(After(q0));
    var base := if top > x then top else x + 1;
    q := q0 + Reads(c, base, M);
    ContinuesSelf(p, atomics);
    PlainAllowed(p, Write(c, x), atomics);
    ContinueOnce(p, p, Write(c, x), atomics);
    ReadsAllowed(p, q0, c, base, M, atomics);
    ContinuesProper(p, q, atomics);
    ReadsOverrun(q0, c, base, M);
    AllReplaced(After(q), After(q0), base, x);
    FlagsByLookup(q, r, x);
    ReadsChangeNothing(p, c, x, base, M, r);
  }

  /** So no run is safe without that bound. */
  lemma NoneSafeBeyond(p: seq<Event>, atomics: set<Address>)
    requires Proper(p, atomics)
    ensures exists q :: Continues(p, q, atomics) && Proper(q, atomics) && !Sound(q, atomics)
  {
    hide After, Continues, Missed, Proper;
    var b := Booted(p, 0);
    BootedKeeps(p, atomics, 0, 1, 0);
    ContinuesProper(p, b, atomics);
    var q, x := ForgettingHidesARace(b, atomics, 0, 1);
    ContinuesTwice(p, b, q, atomics);
  }

  lemma ContinuesTwice(p: seq<Event>, b: seq<Event>, q: seq<Event>, atomics: set<Address>)
    requires Continues(p, b, atomics) && Continues(b, q, atomics)
    ensures Continues(p, q, atomics)
  {
    hide Allowed;
    assert q[..|p|] == b[..|p|];
    forall i | |p| <= i < |q| ensures Allowed(q[..i], q[i], atomics) {
      if i < |b| { assert q[..i] == b[..i] && q[i] == b[i]; }
    }
  }

  /** CPU 0 releases f, then g; CPU 1 acquires g; CPU 0 acquires its own f, which takes its counter back, and writes
      x under a number already used. */
  function OwnLoad(f: Address, g: Address, x: Address): seq<Event> {
    [Boot(0), Boot(1), Store(0, f), Store(0, g), Load(1, g), Load(0, f), Write(0, x)]
  }

  lemma BootTouchesNothing(p: seq<Event>, c: Cpu)
    ensures Seen(p + [Boot(c)]) == Seen(p)
  {
    assert Front(p + [Boot(c)]) == p;
  }

  lemma BeforeAnything()
    ensures After([]).vec[0][0] == 0 && Seen([]) == {}
  {
  }

  /** Both stores are numbered, and CPU 1 hears of the second. */
  lemma OwnLoadBegins(f: Address, g: Address, x: Address)
    requires 0 !in {f, g, x} && f != g && f != x && g != x
    ensures var p := OwnLoad(f, g, x)[..5];
            Seen(p) <= {f, g, x} && After(p).vec[1][0] == 2 && Lookup(After(p), f) == Location(f, 0, 1)
  {
    hide After, Lookup, Seen;
    var names := {f, g, x};
    var p0: seq<Event> := [];
    var p1, p2 := p0 + [Boot(0)], p0 + [Boot(0)] + [Boot(1)];
    FollowVec(p0, Boot(0), 0, 0);
    FollowVec(p1, Boot(1), 0, 0);
    BeforeAnything();
    BootTouchesNothing(p0, 0);
    BootTouchesNothing(p1, 1);
    var p3, p4 := p2 + [Store(0, f)], p2 + [Store(0, f)] + [Store(0, g)];
    Follow(p2, Store(0, f), f, names);
    FollowVec(p2, Store(0, f), 0, 0);
    Follow(p3, Store(0, g), f, names);
    Follow(p3, Store(0, g), g, names);
    Follow(p4, Load(1, g), f, names);
    FollowVec(p4, Load(1, g), 1, 0);
    assert OwnLoad(f, g, x)[..5] == p4 + [Load(1, g)];
  }

  /** Two CPUs boot and go on with accesses of the right kind. */
  lemma TwoBoots(run: seq<Event>, atomics: set<Address>)
    requires |run| >= 2 && run[0] == Boot(0) && run[1] == Boot(1)
    requires forall i :: 2 <= i < |run| ==>
      && !run[i].Boot? && run[i].cpu <= 1
      && (run[i].Read? || run[i].Write? <==> run[i].addr !in atomics)
    ensures Orderly(run, atomics)
  {
    forall i | 0 <= i < |run| ensures InOrder(run[..i], run[i], atomics) {
      assert i >= 1 ==> run[..i][0] == Boot(0);
      assert i >= 2 ==> run[..i][1] == Boot(1);
    }
  }

  lemma OwnLoadOrderly(f: Address, g: Address, x: Address)
    requires 0 !in {f, g, x} && f != g && f != x && g != x
    ensures var run := OwnLoad(f, g, x);
            Orderly(run, {f, g}) && Roomy(run) && AcquiresOwn(run[..5], run[5]) && LastTo(run, x) == 6
  {
    hide After, LastTo, Remembered, Seen, Filled, Orderly;
    var run := OwnLoad(f, g, x);
    TwoBoots(run, {f, g});
    SeenWithin(run, {f, g, x});
    Fewer(Seen(run), {f, g, x});
    SeenWithin(run[..5], {f, g});
    Fewer(Seen(run[..5]), {f, g});
    NothingForgotten(run[..5], f);
    LastIs(run[..5], f, 2);
    LastIs(run, x, 6);
  }

  /** The read by CPU 1 of what CPU 0 has just written does not trap, though nothing orders the two. */
  lemma OwnLoadExample(f: Address, g: Address, x: Address)
    requires 0 !in {f, g, x} && f != g && f != x && g != x
    ensures var run := OwnLoad(f, g, x);
            && Orderly(run, {f, g}) && Roomy(run) && AcquiresOwn(run[..5], run[5]) && run[5] == Load(0, f)
            && LastTo(run, x) == 6 && Missed(run, 1, x)
  {
    hide After, Lookup, Seen, First, AcquiresOwn, Orderly, Roomy;
    OwnLoadOrderly(f, g, x);
    var names := {f, g, x};
    var run := OwnLoad(f, g, x);
    var p5, p6 := run[..5], run[..5] + [Load(0, f)];
    OwnLoadBegins(f, g, x);
    Follow(p5, Load(0, f), f, names);
    FollowVec(p5, Load(0, f), 0, 0);
    FollowVec(p5, Load(0, f), 1, 0);
    Follow(p6, Write(0, x), x, names);
    FollowVec(p6, Write(0, x), 1, 0);
    assert run == p6 + [Write(0, x)];
    TableRemembers(run, x);
    LocatedKeeps(After(run), x, x);
    SameEntry(After(run), x);
  }

  // ---- when a trap is a false alarm ------------------------------------------------------------------------------------

  /** l is the last position where r acquires a store of w, and h is that store. */
  ghost predicate Latest(run: seq<Event>, r: Cpu, w: Cpu, h: nat, l: nat) {
    AcquiresFrom(run, r, w, h, l) && forall j: nat, k: nat :: AcquiresFrom(run, r, w, j, k) ==> k <= l
  }

  lemma AcquireOfFront(run: seq<Event>, r: Cpu, w: Cpu, j: nat, k: nat)
    requires k < |run| - 1
    ensures AcquiresFrom(Front(run), r, w, j, k) <==> AcquiresFrom(run, r, w, j, k)
  {
    hide LastTo;
    assert Front(run)[..k] == run[..k];
  }

  /** What the last event acquires. */
  lemma AcquireLast(run: seq<Event>, atomics: set<Address>, r: Cpu, w: Cpu)
    requires Proper(run, atomics) && Roomy(run) && run != []
    ensures var p, e := Front(run), Last(run);
      if e.Load? && e.cpu == r && Remembered(p, e.addr) >= 0 && p[Remembered(p, e.addr)].cpu == w
      then AcquiresFrom(run, r, w, Remembered(p, e.addr), |p|)
      else forall j: nat :: !AcquiresFrom(run, r, w, j, |p|)
  {
    hide Seen, Filled, After, LastTo, Remembered;
    var p, e := Front(run), Last(run);
    assert run[..|p|] == p;
    if e.Load? {
      RoomyFront(run);
      NothingForgotten(p, e.addr);
      var i := Remembered(p, e.addr);
      if i >= 0 { ProperPrefix(run, atomics, i); }
    }
  }

  lemma RoomyFront(run: seq<Event>)
    requires run != [] && Roomy(run)
    ensures Roomy(Front(run)) && (Last(run).Boot? || Last(run).addr != 0)
  {
    Fewer(Seen(Front(run)), Seen(run));
  }

  lemma {:induction false} HeardIsLatest(run: seq<Event>, atomics: set<Address>, r: Cpu, w: Cpu) returns (l: nat)
    requires Proper(run, atomics) && Roomy(run) && Heard(run, r, w) >= 0
    ensures Latest(run, r, w, Heard(run, r, w), l)
  {
    hide Seen, After, LastTo, Remembered, AcquiresFrom, Roomy;
    var p, e := Front(run), Last(run);
    AcquireLast(run, atomics, r, w);
    if e.Load? && e.cpu == r && Remembered(p, e.addr) >= 0 && p[Remembered(p, e.addr)].cpu == w {
      l := |p|;
      forall j: nat, k: nat | AcquiresFrom(run, r, w, j, k) ensures k <= l { AcquireBounds(run, r, w, j, k); }
    } else {
      RoomyFront(run);
      l := HeardIsLatest(p, atomics, r, w);
      AcquireBounds(p, r, w, Heard(p, r, w), l);
      AcquireOfFront(run, r, w, Heard(p, r, w), l);
      forall j: nat, k: nat | AcquiresFrom(run, r, w, j, k) ensures k <= l {
        AcquireBounds(run, r, w, j, k);
        if k < |p| { AcquireOfFront(run, r, w, j, k); }
      }
    }
  }

  lemma AcquireBounds(run: seq<Event>, r: Cpu, w: Cpu, j: nat, k: nat)
    requires AcquiresFrom(run, r, w, j, k)
    ensures j < k < |run|
  {
  }

  lemma {:induction false} HeardNothing(run: seq<Event>, atomics: set<Address>, r: Cpu, w: Cpu, j: nat, k: nat)
    requires Proper(run, atomics) && Roomy(run) && AcquiresFrom(run, r, w, j, k)
    ensures Heard(run, r, w) >= 0
  {
    hide Seen, After, LastTo, Remembered, AcquiresFrom, Roomy;
    AcquireBounds(run, r, w, j, k);
    AcquireLast(run, atomics, r, w);
    RoomyFront(run);
    if k < |run| - 1 {
      AcquireOfFront(run, r, w, j, k);
      HeardNothing(Front(run), atomics, r, w, j, k);
    }
  }

  lemma LatestIsHeard(run: seq<Event>, atomics: set<Address>, r: Cpu, w: Cpu, h: nat, l: nat)
    requires Proper(run, atomics) && Roomy(run) && Latest(run, r, w, h, l)
    ensures Heard(run, r, w) == h
  {
    hide Heard, LastTo, Roomy, Proper;
    HeardNothing(run, atomics, r, w, h, l);
    var m := HeardIsLatest(run, atomics, r, w);
  }

  /** In terms of the history alone: a read traps if and only if another CPU wrote x last and the store of that CPU the
      reader acquired last, if any, came before the write. */
  lemma TrapsExactly(run: seq<Event>, atomics: set<Address>, r: Cpu, x: Address)
    requires Proper(run, atomics) && Roomy(run) && x !in atomics && x != 0
    ensures Flags(After(run), r, x)
       <==> var i := LastTo(run, x);
            i >= 0 && run[i].cpu != r && forall h: nat, l: nat :: Latest(run, r, run[i].cpu, h, l) ==> h < i
  {
    hide Heard, LastTo, Remembered, Flags, After, Latest, Proper;
    ReadVerdict(run, atomics, r, x);
    NothingForgotten(run, x);
    var i := LastTo(run, x);
    if i >= 0 {
      var w := run[i].cpu;
      forall h: nat, l: nat | Latest(run, r, w, h, l) ensures Heard(run, r, w) == h { LatestIsHeard(run, atomics, r, w, h, l); }
      if Heard(run, r, w) >= 0 { var m := HeardIsLatest(run, atomics, r, w); }
      if Heard(run, r, w) == i { NotItself(run, atomics, r, x); }
    }
  }

  lemma NotItself(run: seq<Event>, atomics: set<Address>, r: Cpu, x: Address)
    requires Proper(run, atomics) && x !in atomics && LastTo(run, x) >= 0
    ensures Heard(run, r, run[LastTo(run, x)].cpu) != LastTo(run, x)
  {
    hide Heard, Proper;
    var i := LastTo(run, x);
    if Heard(run, r, run[i].cpu) == i {
      var k := HeardWasAcquired(run, atomics, r, run[i].cpu);
      NotBoth(run, atomics, i, i);
    }
  }

  /** A trap is a false alarm, the reader having synchronised with the writer since, exactly if the reader acquired a
      store from after the write and after that an older one, which took its vector back. */
  lemma FalseAlarmExactly(run: seq<Event>, atomics: set<Address>, r: Cpu, x: Address)
    requires Proper(run, atomics) && Roomy(run) && x !in atomics && x != 0
    requires LastTo(run, x) >= 0 && run[LastTo(run, x)].cpu != r
    ensures Flags(After(run), r, x) && SynchronisedAfter(run, r, LastTo(run, x))
       <==> Regressed(run, r, LastTo(run, x))
  {
    hide Heard, LastTo, Flags, After, Latest, Proper, AcquiresFrom, Roomy;
    TrapsExactly(run, atomics, r, x);
    var i := LastTo(run, x);
    var w := run[i].cpu;
    if Flags(After(run), r, x) && SynchronisedAfter(run, r, i) {
      var j: nat, k: nat :| i < j && AcquiresFrom(run, r, w, j, k);
      HeardNothing(run, atomics, r, w, j, k);
      var l := HeardIsLatest(run, atomics, r, w);
      LatestOrder(run, r, w, j, k, Heard(run, r, w), l);
    }
    if Regressed(run, r, i) {
      var j: nat, k: nat, h: nat, l: nat :| h < i < j && k < l && AcquiresFrom(run, r, w, j, k) && Latest(run, r, w, h, l);
      LatestIsHeard(run, atomics, r, w, h, l);
      forall h': nat, l': nat | Latest(run, r, w, h', l') ensures h' < i { LatestIsHeard(run, atomics, r, w, h', l'); }
    }
  }

  ghost predicate Regressed(run: seq<Event>, r: Cpu, i: nat)
    requires i < |run|
  {
    exists j: nat, k: nat, h: nat, l: nat ::
      h < i < j && k < l && AcquiresFrom(run, r, run[i].cpu, j, k) && Latest(run, r, run[i].cpu, h, l)
  }

  lemma LatestOrder(run: seq<Event>, r: Cpu, w: Cpu, j: nat, k: nat, h: nat, l: nat)
    requires AcquiresFrom(run, r, w, j, k) && Latest(run, r, w, h, l) && h < j
    ensures k < l
  {
    hide LastTo;
  }

  /** CPU 1 acquires g, stored after the write to x, and then f, stored before it. */
  function BackwardLoads(f: Address, g: Address, x: Address): seq<Event> {
    [Boot(0), Boot(1), Store(0, f), Write(0, x), Store(0, g), Load(1, g), Load(1, f)]
  }

  lemma LastIs(run: seq<Event>, a: Address, i: nat)
    requires i < |run| && Stamps(run[i], a) && forall k :: i < k < |run| ==> !Stamps(run[k], a)
    ensures LastTo(run, a) == i
  {
    assert Stamps(run[i], a);
  }

  lemma {:induction false} SeenWithin(run: seq<Event>, names: set<Address>)
    requires forall i :: 0 <= i < |run| && !run[i].Boot? ==> run[i].addr in names
    ensures Seen(run) <= names
  {
    if run != [] { SeenWithin(Front(run), names); }
  }

  /** CPU 0 stamps, CPU 1 loads. */
  lemma OthersLoad(run: seq<Event>)
    requires forall i :: 0 <= i < |run| ==>
      (run[i].Write? || run[i].Store? ==> run[i].cpu == 0) && (run[i].Load? ==> run[i].cpu == 1)
    ensures forall i :: 0 <= i < |run| ==> !AcquiresOwn(run[..i], run[i])
  {
    hide Remembered, LastTo;
    forall i | 0 <= i < |run| ensures !AcquiresOwn(run[..i], run[i]) {
      if run[i].Load? {
        var k := Remembered(run[..i], run[i].addr);
        assert k >= 0 ==> Stamps(run[..i][k], run[i].addr);
      }
    }
  }

  lemma BackwardLoadsProper(f: Address, g: Address, x: Address)
    requires 0 !in {f, g, x} && f != g && f != x && g != x
    ensures Proper(BackwardLoads(f, g, x), {f, g}) && Roomy(BackwardLoads(f, g, x))
  {
    hide Seen, AcquiresOwn, Orderly, Proper;
    var run := BackwardLoads(f, g, x);
    TwoBoots(run, {f, g});
    OthersLoad(run);
    SeenWithin(run, {f, g, x});
    Fewer(Seen(run), {f, g, x});
    NeverOwnIsProper(run, {f, g});
  }

  lemma BackwardLoadsRegress(f: Address, g: Address, x: Address)
    requires 0 !in {f, g, x} && f != g && f != x && g != x
    ensures LastTo(BackwardLoads(f, g, x), x) == 3 && Regressed(BackwardLoads(f, g, x), 1, 3)
  {
    hide LastTo;
    var run := BackwardLoads(f, g, x);
    LastIs(run, x, 3);
    LastIs(run[..5], g, 4);
    LastIs(run[..6], f, 2);
    assert AcquiresFrom(run, 1, 0, 4, 5) && Latest(run, 1, 0, 2, 6);
  }

  lemma FalseAlarmExample(f: Address, g: Address, x: Address)
    requires 0 !in {f, g, x} && f != g && f != x && g != x
    ensures var run := BackwardLoads(f, g, x);
      && Proper(run, {f, g}) && LastTo(run, x) == 3
      && Flags(After(run), 1, x) && SynchronisedAfter(run, 1, 3)
  {
    hide Seen, Flags, After, Remembered, Regressed;
    var run := BackwardLoads(f, g, x);
    BackwardLoadsProper(f, g, x);
    BackwardLoadsRegress(f, g, x);
    FalseAlarmExactly(run, {f, g}, 1, x);
  }

  // ---- a write in two steps ------------------------------------------------------------------------------------------------

  /** write1 increments the CPU's counter before it takes the lock; everything else is one step. */
  datatype HalfEvent = Whole(e: Event) | TakeNumber(cpu: Cpu) | Record(cpu: Cpu, addr: Address)

  /** taken holds the local nseq of each CPU. */
  datatype HalfState = HalfState(s: State, taken: seq<nat>)

  function Recorded(s: State, c: Cpu, a: Address, n: nat): (t: State)
    requires Shaped(s)
    ensures Shaped(t) && t.vec == s.vec
  {
    var l := Located(s, a);
    l.(table := l.table[First(l.table, a, 0) := Location(a, c, n)])
  }

  function HalfApply(t: HalfState, h: HalfEvent): (u: HalfState)
    requires Shaped(t.s) && |t.taken| == N
    ensures Shaped(u.s) && |u.taken| == N
  {
    match h
    case Whole(e) => t.(s := Apply(t.s, e))
    case TakeNumber(c) => HalfState(SetVec(t.s, c, c, t.s.vec[c][c] + 1), t.taken[c := t.s.vec[c][c]])
    case Record(c, a) => t.(s := Recorded(t.s, c, a, t.taken[c]))
  }

  function HalfAfter(hs: seq<HalfEvent>): (t: HalfState)
    ensures Shaped(t.s) && |t.taken| == N
  {
    if hs == [] then HalfState(Initial(), [0, 0, 0, 0]) else HalfApply(HalfAfter(hs[..|hs| - 1]), hs[|hs| - 1])
  }

  /** The CPUs between the two halves of a write. */
  function Between(hs: seq<HalfEvent>): set<Cpu> {
    if hs == [] then {}
    else
      var p, h := hs[..|hs| - 1], hs[|hs| - 1];
      match h
      case Whole(e) => Between(p)
      case TakeNumber(c) => Between(p) + {c}
      case Record(c, a) => Between(p) - {c}
  }

  /** A CPU does nothing else between the halves. */
  ghost predicate Halved(hs: seq<HalfEvent>) {
    hs != [] ==>
      var p, h := hs[..|hs| - 1], hs[|hs| - 1];
      Halved(p) && match h
                   case Whole(e) => e.cpu !in Between(p) && !e.Write?
                   case TakeNumber(c) => c !in Between(p)
                   case Record(c, a) => c in Between(p)
  }

  /** The same run with each write in one step, where it is recorded. */
  function Merged(hs: seq<HalfEvent>): seq<Event> {
    if hs == [] then []
    else
      var p, h := hs[..|hs| - 1], hs[|hs| - 1];
      match h
      case Whole(e) => Merged(p) + [e]
      case TakeNumber(c) => Merged(p)
      case Record(c, a) => Merged(p) + [Write(c, a)]
  }

  /** The same tables, but for the counters of the CPUs between the halves, which are one ahead of what they took. */
  ghost predicate Ahead(t: HalfState, s: State, between: set<Cpu>) {
    && Shaped(t.s) && Shaped(s) && |t.taken| == N
    && t.s.table == s.table && t.s.rotor == s.rotor
    && (forall p: Cpu, q: Cpu :: t.s.vec[p][q] == s.vec[p][q] + if p == q && p in between then 1 else 0)
    && (forall c: Cpu :: c in between ==> t.taken[c] == s.vec[c][c])
  }

  lemma WholeStaysAhead(t: HalfState, s: State, between: set<Cpu>, e: Event)
    requires Ahead(t, s, between) && e.cpu !in between
    ensures Ahead(HalfApply(t, Whole(e)), Apply(s, e), between)
  {
    hide First, Slot;
  }

  lemma RecordCatchesUp(t: HalfState, s: State, between: set<Cpu>, c: Cpu, a: Address)
    requires Ahead(t, s, between) && c in between
    ensures Ahead(HalfApply(t, Record(c, a)), Apply(s, Write(c, a)), between - {c})
  {
    hide First, Slot;
  }

  lemma TakeGoesAhead(t: HalfState, s: State, between: set<Cpu>, c: Cpu)
    requires Ahead(t, s, between) && c !in between
    ensures Ahead(HalfApply(t, TakeNumber(c)), s, between + {c})
  {
  }

  lemma {:induction false} HalvesStayAhead(hs: seq<HalfEvent>)
    requires Halved(hs)
    ensures Ahead(HalfAfter(hs), After(Merged(hs)), Between(hs))
  {
    hide Ahead, HalfApply, Apply;
    if hs == [] {
      NothingAhead();
    } else {
      var p, h := hs[..|hs| - 1], hs[|hs| - 1];
      HalvesStayAhead(p);
      match h
      case Whole(e) =>
        WholeStaysAhead(HalfAfter(p), After(Merged(p)), Between(p), e);
        AfterOneMore(Merged(p), e);
      case TakeNumber(c) =>
        TakeGoesAhead(HalfAfter(p), After(Merged(p)), Between(p), c);
      case Record(c, a) =>
        RecordCatchesUp(HalfAfter(p), After(Merged(p)), Between(p), c, a);
        AfterOneMore(Merged(p), Write(c, a));
    }
  }

  lemma NothingAhead()
    ensures Ahead(HalfState(Initial(), [0, 0, 0, 0]), Initial(), {})
  {
  }

  lemma AfterOneMore(p: seq<Event>, e: Event)
    ensures After(p + [e]) == Apply(After(p), e)
  {
    assert Front(p + [e]) == p;
  }

  /** No CPU's check on a read can tell whether writes take their numbers inside or outside the lock: the verdict is that
      of the run in which each write is one step. */
  lemma HalvesDoNotShow(hs: seq<HalfEvent>, r: Cpu, x: Address)
    requires Halved(hs) && r !in Between(hs)
    ensures Flags(HalfAfter(hs).s, r, x) <==> Flags(After(Merged(hs)), r, x)
  {
    hide HalfAfter, After, First, Slot;
    HalvesStayAhead(hs);
  }
}
