# Verification of the hard parts of xtest

The repository is a collection of small, self-contained C and C++ programs. This project models the ones whose
correctness is not obvious from reading them and proves what they are for. `dafny verify dfyconfig.toml` checks it all.

Loops and in-place updates are methods on arrays and class fields, proved against specification functions and
predicates. Threads are step systems: a state with every thread's program counter, one event for each mutex-held
region (split at every condition wait) or each atomic access, and theorems about every run.

| cluster | modules | main results |
|---|---|---|
| primality (`test_prime.c`, `146.c`, `prime.c`) | NumberTheory, ModularPower, MillerRabin, SieveTheory, BitSieve, PrimalityTest, HybridPrimality, CandidateSieve | no prime is ever rejected, and exactly when; what acceptance beyond the table means, in powers; exactly when a power overflows; the hybrid test is exact; the plain and the wheel sieve leave the same bytes; the early start of the candidate sieve is harmless |
| barrier with closure (`sense.c`) | SenseBarrier | lock step of all workers in every interleaving, no lost wakeup, every phase can end, clean closure |
| work pool (`workqueue.c`, `barrier.c`, `fftw.c`) | WorkPool | waiting on the barrier detects the end of the whole tree of submissions; the waiter never waits for nothing; per-key order; exactly when an exit leaves nothing behind |
| race detector (`san/tsan.c`) | RaceDetector, RaceLimits | when a read is flagged, exactly, in terms of the history; within the table's M addresses, no missed race, and exactly which programs that holds for; beyond them, a missed race after every run; exactly when a flag is a false alarm |
| two chained rings (`pwc.c`) | Rings, RingProgress | nothing torn or overwritten; order; each ring is one item late, so the last two files are never reported; the exact standstills, a run into a deadlock, and exactly when main returns |
| hashing rounds (`pcpucheck.cc`) | RoundCheck | every checker hashes every round's buffer exactly once; exactly when the program aborts; it never comes to a standstill; what a passed round rules out |
| MD5 (`cphash.cc`) | Md5Transform, Md5Stream, Md5Published | streaming over any cut of the message is RFC 1321; a published digest |
| hashes (`hashes.c`, `murmur3.c`) | MachineWords, Detection, Hashes, WordHashes, FastHash, HashValues | changes of bounded extent are never missed, in buffers of any length; every step can be undone; published values |
| matrix multiply (`mxm.c`, `mxm2.c`) | MatMul | the blocked form adds exactly the product, and equals the plain form |
| squares (`211.c`) | Reciprocity, Residues, Squares, DivisorSquares | the Jacobi loop multiplies for every odd modulus and recognises the residues of every odd prime, over a proved quadratic reciprocity; what the filters let through, exactly; the sum over all divisors |
| memoised recurrence (`443.c`) | MemoGcd | the memo is always right; linear against exponential call counts; the increments are 1 or prime |

Machine integers are modelled where they matter: signed 128-bit overflow in the modular power is an outcome of its own,
32- and 64-bit words wrap, loop indices are shown to stay in range.

Where the code and what is said about it differ:

- The comment at `test_prime.c:164` calls nine bases "100% deterministic for all 64-bit ints". The modular power works
  in signed 128-bit arithmetic, which overflows beyond the modulus 13043817825332782213: `ModularPower.FitsExactly` and
  `FitsRange` give the exact condition, `PrimalityTest.NotAll64BitNumbersFit` a number on which the first base already
  overflows. What is proved of the bases is that they reject no prime.
- Both primality tests reject 17 if their table ends at or below it; `PrimalityTest.NeverRejectsPrimes` and
  `HybridPrimality.ExactIffTableLargeEnough` say that a table limit above 17 is exactly what they need.
- `pwc.c` stores at `head + 1` and reads at `tail`. Its rings are queues that run one item late, and the theorems say so.
  Its threads can deadlock: the I/O thread gives slots back only after a whole drain, and main makes room in the second
  ring only between two pushes. `RingProgress.DeadlockReachable` has a run with 513 files that ends so, and
  `RingProgress.StuckExactly` and `RingProgress.ReturnsExactly` say exactly when it happens.
- `sense.c:16-17` promises that closure makes new awaits fail. A worker already waiting is let go with the same return
  value as a release (`sense.c:46-48`), as modelled.
- In `443.c` the search for a common divisor answers 1 if an argument is 0, the fast routine the other argument.
- `san/tsan.c` misses races in two ways. Its table has room for M = 10000 addresses; beyond them `find` reclaims entries
  (`san/tsan.c:51-56`), and any proper run with a CPU that has booted goes on to a missed race with no unusual step in it:
  `RaceLimits.ForgettingHidesARace`. Within M addresses it can be trusted as long as no CPU acquires a store of its own
  that the table still remembers, and after the first such step no longer, unless no plain address can be accessed any
  more: `RaceLimits.SafeExactly` and `RaceLimits.TrustedExactly`. Because an acquire load assigns the number it finds
  (`san/tsan.c:108`), acquiring an older store later makes it flag a read that is in order:
  `RaceLimits.FalseAlarmExactly`.
- `workqueue_exit` joins the threads one by one; an item submitted to a queue whose thread has ended stays there.
  `WorkPool.ExitIsComplete` says that this is the only way an exit is incomplete, `WorkPool.NothingAfterTheWait` that it
  cannot happen once the wait on the barrier has returned.

## Model

| member | source | states |
|---|---|---|
| ModularPower.ModExp | test_prime.c:40-52 | a value that comes out is base^exp modulo mod; none of the 128-bit products overflows if (mod - 1)^2 < 2^127 |
| ModularPower.ModExpTurn | 146.c:27-31 | one turn of square-and-multiply keeps result * b^exp modulo mod |
| ModularPower.ModExpLoopMeaning | 146.c:22-34 | from any point of the loop the value returned is result * b^exp modulo mod |
| ModularPower.ModExpMeaning | test_prime.c:40-52 | the power theorem for all bases, exponents and moduli, with the range that cannot overflow |
| ModularPower.FitsExactly | test_prime.c:43-49 | no base and exponent overflow for a modulus if and only if (mod - 1)^2 < 2^127 |
| ModularPower.FitsRange | test_prime.c:43-49 | for 64-bit moduli that means exactly those up to 13043817825332782213, so all up to 2^63 |
| ModularPower.OverflowsExactly | test_prime.c:40-52 | the power overflows if and only if, at some binary digit of the exponent, the repeated square is too large to be squared, or to be multiplied by the result so far |
| NumberTheory.Fermat | test_prime.c:124-130 | Fermat's little theorem, which the witness test rests on |
| NumberTheory.RootsOfOne | test_prime.c:125-130 | modulo a prime only 1 and -1 square to 1 |
| MillerRabin.OddPartTwos | test_prime.c:117-122 | n - 1 is the odd part found, doubled as often as counted |
| MillerRabin.SquareStep | test_prime.c:128 | the unsigned 128-bit squaring does not wrap and is the next square of the sequence |
| MillerRabin.MillerRabinTest | test_prime.c:116-132 | answers 1 exactly for strong probable primes to base a, unless the power overflows, and overflows exactly then |
| MillerRabin.SquareIsPower | test_prime.c:124-130 | the r-th squaring is a^(d * 2^r) modulo n |
| MillerRabin.LastSquare | test_prime.c:124-130 | for a prime n not dividing a the squarings end in 1 |
| MillerRabin.SquareRoot | test_prime.c:125-130 | for a prime n a squaring that gives 1 started from 1 or n - 1 |
| MillerRabin.WalkBack | test_prime.c:125-130 | so the sequence starts with 1 or passes through n - 1 |
| MillerRabin.PrimesPass | test_prime.c:116-132 | no prime is rejected, for any base it does not divide |
| MillerRabin.StrongExactly | test_prime.c:116-132 | for odd n the squarings decide the strong test in powers, however n - 1 is split into an odd part and a power of two |
| PrimalityTest.IsPrimeTest | test_prime.c:135-173 | the whole test: table, small divisors, nine bases; its verdict, exactly when it overflows instead, and that it does not for any n in the table or in range |
| PrimalityTest.PrimeAccepted | test_prime.c:135-173 | every prime in the table or above 17 is accepted |
| PrimalityTest.NeverRejectsPrimes | test_prime.c:141-151 | all primes are accepted if and only if the table limit is above 17 |
| PrimalityTest.AcceptedExactly | test_prime.c:152-173 | an odd n beyond the table is accepted if and only if nothing from 3 to 17 divides it and it passes the strong test, in powers, to every prime base below n and up to 23 |
| PrimalityTest.OverflowsInOrder | test_prime.c:152-173 | such an n that nothing from 3 to 17 divides overflows the test if and only if the power to some prime base up to 23 does, n passing the test to every smaller prime base |
| PrimalityTest.NotAll64BitNumbersFit | test_prime.c:164-170 | a 64-bit number with no small factor on which the first base overflows |
| SieveTheory.NextOnTrack | test_prime.c:63 | stepping an inner loop visits exactly the arithmetic progression |
| SieveTheory.SurvivesIffPrime | test_prime.c:61-67 | what survives striking up to the square root is 1 or prime |
| SieveTheory.SurvivesStep | test_prime.c:61-66 | what one outer turn removes |
| SieveTheory.TrackIsMultiples | test_prime.c:63 | the inner loop visits exactly the multiples from the square on |
| SieveTheory.RootRange | test_prime.c:61 | below 2^63 no index square wraps |
| BitSieve.CoversExactly | test_prime.c:55-68 | the plain sieve touches nothing beyond its bits(limit) bytes if and only if no odd composite below the limit has its bit there |
| BitSieve.HoldsAllExactly | test_prime.c:36-38 | every odd number below the limit has its bit in those bytes if and only if the limit is 16k or 16k + 1 |
| BitSieve.SetBit | test_prime.c:23-34 | sets or clears the bit of one odd number and no other; even numbers are left alone |
| BitSieve.SetBitView | test_prime.c:14-34 | the same of the byte sequence, read back through the bit test |
| BitSieve.FillOnes | test_prime.c:59 | afterwards every odd number's bit is set |
| BitSieve.Strike | test_prime.c:63-65 | clears exactly the odd numbers of a progression below the limit |
| BitSieve.SweptAt | test_prime.c:62 | when the sweep has come to i, the bit of i says whether i is an odd prime |
| BitSieve.SweptStep | test_prime.c:61-67 | one outer turn of either sieve moves the sweep on |
| BitSieve.SweptDone | test_prime.c:61 | a sweep up to the square root leaves exactly 1 and the odd primes |
| BitSieve.Sieve | test_prime.c:55-68 | whatever the buffer held, the bit of every odd n in it is set iff n is 1 or prime, for every limit on which the code stays inside it |
| BitSieve.OddTrackIsMultiples | test_prime.c:103 | steps of 2i from an odd multiple of an odd i visit exactly the odd multiples |
| BitSieve.StrikeThreeFive | test_prime.c:93-96 | striking 3 and 5 and putting them back starts the wheel correctly |
| BitSieve.WheelTurn | test_prime.c:98-109 | a gap leads from one number prime to 30 to the next, over nothing prime |
| BitSieve.WheelVisits | test_prime.c:98-109 | the wheel visits exactly the integers from 7 on that are prime to 30 |
| BitSieve.WheelSieve | test_prime.c:87-111 | the wheel sieve satisfies the plain sieve's specification, for every such limit of at least 16 |
| BitSieve.SievedUnique | test_prime.c:197 | that specification fixes every byte |
| BitSieve.CompareSieves | test_prime.c:182-197 | the assertion of the driver: equal bytes |
| HybridPrimality.MarkCandidates | 146.c:9-11 | a zeroed table is marked at 2 and the odd numbers |
| HybridPrimality.Strike | 146.c:15-17 | zeroes exactly the multiples from the square on |
| HybridPrimality.Sieve | 146.c:5-20 | the table is 1 exactly at the primes |
| HybridPrimality.TrialRange | 146.c:50 | no trial divisor's square wraps for any n whose powers are in range |
| HybridPrimality.IsPrimeTest | 146.c:36-57 | the recursive test terminates with the verdict of its specification, or with an overflow, exactly when that says so |
| HybridPrimality.TrialDivision | 146.c:50-55 | the loop finds an accepted divisor if there is one with a square up to n |
| HybridPrimality.PrimeAccepted | 146.c:36-57 | no prime above 17 fails the small divisors, the Fermat filter or trial division |
| HybridPrimality.VerdictExactly | 146.c:36-57 | the verdict for every number and every table limit: primality, but that primes up to 17 are rejected unless the table holds them |
| HybridPrimality.OverflowsOn | 146.c:36-57 | it overflows exactly on numbers beyond the table without a divisor up to 17, if a turn of the power of 2 does or the number is a prime from (2^32 - 1)^2 on |
| HybridPrimality.AcceptedExactly | 146.c:36-57 | with a table limit above 17 the verdict is primality, for all n |
| HybridPrimality.ExactIffTableLargeEnough | 146.c:37-47 | it is exact on all n if and only if the limit is above 17 |
| CandidateSieve.Seq.AddEl | prime.c:10-12 | appends one element |
| CandidateSieve.Collect | prime.c:19-23 | the list is 2, 3 and the candidates below the limit, in order |
| CandidateSieve.ListedIsCandidates | prime.c:19-23 | entry k of the list in closed form |
| CandidateSieve.ListedExactly | prime.c:19-23 | membership in the list, both ways |
| CandidateSieve.StartsInTime | prime.c:27 | the square of entry i lies at or after index i * i, and i * i does not wrap when it matters |
| CandidateSieve.StrikeFrom | prime.c:27-31 | zeroes exactly the proper multiples from the start index on |
| CandidateSieve.SweptStep | prime.c:25-31 | one outer turn keeps primes and strikes what it must |
| CandidateSieve.StrikeAll | prime.c:25-31 | the outer loop sweeps the whole list |
| CandidateSieve.SweptDone | prime.c:25-31 | afterwards an entry is 0 exactly if its original value is no prime |
| CandidateSieve.SieveOfErat | prime.c:14-32 | at the end entry k is its original value if that is prime and 0 if not |
| CandidateSieve.LeftAreThePrimes | prime.c:14-32 | so for limits from 4 on the numbers left are the primes below the limit |
| SenseBarrier.Barrier.Binit | sense.c:57-62 | the initial fields |
| SenseBarrier.Barrier.AwaitEnter | sense.c:34-53 | await up to its return or first sleep: true if and only if closed, else one arrival counted, broadcast on the last |
| SenseBarrier.Barrier.AwaitResume | sense.c:44-54 | await from a wakeup to its return or next sleep; it never answers true |
| SenseBarrier.Barrier.Bgo | sense.c:71-78 | the counter reset, the sense handed over and flipped |
| SenseBarrier.Barrier.Bclose | sense.c:81-86 | only the closed flag changes |
| SenseBarrier.StepKeepsLockStep | sense.c:34-78 | every step of an open barrier keeps all workers in step and the counter right |
| SenseBarrier.StepKeepsWakeups | sense.c:34-86 | every step, also after closure, leaves no sleeper waiting for something that has happened |
| SenseBarrier.RunInvariant | sense.c:34-86 | both, in every state of every run |
| SenseBarrier.RunPhases | sense.c:34-78 | no worker returns ahead of its bgo, misses a phase or gets two ahead; val is max less the current arrivals |
| SenseBarrier.GoFindsAllArrived | sense.c:64-78 | the k-th bgo finds every worker inside its k-th await |
| SenseBarrier.SomeoneCanArrive | sense.c:64-69 | a coordinator asleep without a wakeup waits for a worker that can move |
| SenseBarrier.WorkerWoken | sense.c:39-42 | a sleeping worker gets a wakeup exactly at a bgo, a bclose, or the arrival that makes the count complete |
| SenseBarrier.BwaitReturnsExactly | sense.c:64-69 | bwait returns if and only if every worker has begun its await of the coming phase, else it sleeps |
| SenseBarrier.SleepsAgain | sense.c:44-53 | a worker woken before its release sleeps again |
| SenseBarrier.NextPhasePossible | sense.c:34-78 | from every state reached with the barrier open the run can go on to the next bgo |
| SenseBarrier.ClosedStep | sense.c:34-55 | once closed, a new await is refused at once, a worker inside leaves at its wakeup, nobody falls asleep |
| SenseBarrier.RunClosed | sense.c:34-86 | so in every run after closure every worker is outside or about to leave |
| SenseBarrier.CloseAnyTime | sense.c:81-86 | bclose may come at any time; it wakes every sleeper and changes nothing else |
| SenseBarrier.ClosedExactly | sense.c:81-86 | the barrier is closed from the first bclose on and not before |
| SenseBarrier.RefusedExactly | sense.c:34-55 | in every run await answers true exactly as often as it was called on a closed barrier |
| WorkPool.CountingBarrier.Binc | barrier.c:11-15 | the region is the step system's effect on counter and waiter |
| WorkPool.CountingBarrier.Bdec | barrier.c:17-26 | likewise, waking a sleeping waiter exactly when the counter comes to zero |
| WorkPool.CountingBarrier.BwaitTest | barrier.c:6-7 | the waiter sleeps while the counter is positive and returns otherwise |
| WorkPool.Workqueue.InsertTail | workqueue.c:97-100 | the region is the step system's insertion: at the tail, counted, the thread woken |
| WorkPool.Workqueue.TakeFirst | workqueue.c:56-65 | the region is the step system's take: the head, which is handed on, or back to the loop from an empty list |
| WorkPool.Workqueue.Loop | workqueue.c:113-128 | from the lock to the exit, the wait or the first item, which is the one handed on |
| WorkPool.Workqueue.AfterWait | workqueue.c:120-130 | from a wakeup to the first item, which is the one handed on, or the end of the turn |
| WorkPool.Workqueue.TellToExit | workqueue.c:144-147 | the order to exit, the thread woken |
| WorkPool.StepKeepsInv | workqueue.c:42-134 | every step of any thread keeps the pool's invariant |
| WorkPool.RunInv | workqueue.c:42-134 | the invariant in every run |
| WorkPool.CountIsOutstanding | barrier.c:11-26 | the counter is the number of items between binc and bdec, wherever they are |
| WorkPool.NoLostWakeup | barrier.c:4-9 | the waiter is never left asleep at zero, a worker never beside work or past the order to exit |
| WorkPool.QueueOrder | workqueue.c:52-73 | each queue's items are done, running or queued, in submission order, one at a time; wq_items is the list length |
| WorkPool.SameKeySameQueue | workqueue.c:75-86 | items with equal non-zero keys are on the one queue the key selects |
| WorkPool.ExitsDrained | workqueue.c:113-131 | a worker ends only when told to, with an empty list and nothing running |
| WorkPool.WaitingForSomething | barrier.c:6-7 | while the waiter sleeps, some queue has work and its thread can go on with it, or has ended and left it |
| WorkPool.WaitReturnsExactly | barrier.c:4-9 | the wait returns at a test if and only if nothing is outstanding anywhere, else it sleeps |
| WorkPool.WalkerCanMove | fftw.c:110-130 | the walking thread has a step unless it sleeps without a wakeup or has returned |
| WorkPool.IdleSettles | workqueue.c:113-128 | a thread that finds nothing is asleep, or at its end if told to exit, after at most two turns |
| WorkPool.WokenTakes | workqueue.c:120-128 | a woken thread takes the first item at once |
| WorkPool.WorkerWoken | workqueue.c:97-100 | a sleeping worker gets a wakeup exactly when an item comes to its queue, or the order to exit |
| WorkPool.WaiterWoken | barrier.c:17-26 | the waiter gets a wakeup exactly when the counter comes to zero |
| WorkPool.ToldExactly | workqueue.c:144-147 | a queue is told to exit exactly by an earlier order to exit |
| WorkPool.LeftBehind | workqueue.c:113-134 | the queue of a thread that has ended holds something exactly if something came after the end |
| WorkPool.ExitIsComplete | workqueue.c:136-150 | once all threads have ended, everything submitted is done if and only if nothing was submitted to a queue after its thread's end |
| WorkPool.NothingAfterTheWait | fftw.c:125-129 | after the wait everything submitted is done, for good, so an exit is complete |
| WorkPool.PathIsDone | fftw.c:78-107 | once the walk has returned, everything along any path of submissions is done |
| WorkPool.WaitDetectsTermination | fftw.c:110-130 | when the wait returns, every item submitted anywhere below the root has finished its callback |
| RaceDetector.Detector.constructor | san/tsan.c:28-38 | zeroed tables |
| RaceDetector.Detector.CpuBoot | san/tsan.c:147 | a CPU's own counter goes up by one |
| RaceDetector.Detector.Find | san/tsan.c:41-58 | the first entry for the address, or the one at the rotor, blanked |
| RaceDetector.Detector.Read1 | san/tsan.c:62-74 | traps exactly if the reader's entry for the last writer is below the number of the write |
| RaceDetector.Detector.Write1 | san/tsan.c:77-89 | takes a number and records it as the last write |
| RaceDetector.Detector.Atomic8Load | san/tsan.c:92-113 | with an acquire order copies the number of the last store into the reader's row, else traps |
| RaceDetector.Detector.Atomic8Store | san/tsan.c:115-132 | with a release order takes and records a number, else traps |
| RaceDetector.LocatedKeeps | san/tsan.c:41-58 | find changes what is known of no address but the one whose entry it reclaims |
| RaceDetector.LookupAfter | san/tsan.c:62-132 | what each hook does to the entry of every address |
| RaceDetector.VecAfter | san/tsan.c:62-132 | and to every cell of the sequence number table |
| RaceDetector.TableRemembers | san/tsan.c:34-38 | in every run an entry is the CPU and number of the last write or store, unless reclaimed |
| RaceDetector.NumbersIncrease | san/tsan.c:83-87 | a CPU's later writes and stores carry larger numbers |
| RaceDetector.CounterCounts | san/tsan.c:82-132 | a CPU's own counter is the number of its boots, writes and stores |
| RaceDetector.VectorRemembers | san/tsan.c:103-109 | a foreign cell is the number of the store most recently heard of |
| RaceDetector.HeardWasAcquired | san/tsan.c:98-109 | that store was the last one at its address when the reader acquired it |
| RaceDetector.ReadVerdict | san/tsan.c:62-74 | a read traps if and only if the last write is known, foreign, and later than the store of its CPU last heard of |
| RaceDetector.NoMissedRace | san/tsan.c:62-74 | an unflagged read of another CPU's write follows an acquire of a store released after that write |
| RaceLimits.NothingForgotten | san/tsan.c:51-56 | with at most M addresses in use no entry is ever reclaimed |
| RaceLimits.OwnLoadRewinds | san/tsan.c:103-109 | acquiring a remembered store of one's own sets one's counter back to its number |
| RaceLimits.OwnLoadHidesARace | san/tsan.c:103-109 | after any proper run, that hides a race in a run of two further steps |
| RaceLimits.SafeExactly | san/tsan.c:62-132 | after any proper run, a step leaves every continuation within M addresses free of missed races if and only if it does not acquire a remembered store of its own CPU while a plain address can still be accessed |
| RaceLimits.TrustedExactly | san/tsan.c:62-132 | a run within M addresses is safe in that sense at every moment if and only if no step of it does that |
| RaceLimits.OwnLoadExample | san/tsan.c:103-109 | an orderly run of seven events within M addresses, whose event 5 acquires its own CPU's store and whose event 6 is a race that is missed |
| RaceLimits.ForgettingHidesARace | san/tsan.c:51-56 | after any proper run, a write by any CPU that has booted and M reads of new plain addresses hide that write from every other CPU |
| RaceLimits.NoneSafeBeyond | san/tsan.c:51-56 | so every proper run has a proper continuation with a missed race, if it may use more than M addresses |
| RaceLimits.TrapsExactly | san/tsan.c:62-74 | the trap as a property of the history alone, while the table keeps all addresses |
| RaceLimits.FalseAlarmExactly | san/tsan.c:108 | while the table keeps all addresses, a flagged read is synchronised if and only if a store from after the write was acquired and an older one after it |
| RaceLimits.FalseAlarmExample | san/tsan.c:108 | a proper run of seven events with a false alarm |
| RaceLimits.HalvesStayAhead | san/tsan.c:82-88 | a run with writes in two steps and the run with each in one differ only in the counters of CPUs between the steps |
| RaceLimits.HalvesDoNotShow | san/tsan.c:82-88 | so no check on a read can tell that numbers are taken outside the lock |
| Rings.Lines | pwc.c:41-56 | the number of newlines in the file |
| Rings.Fifo.Blocked | pwc.c:83-85 | the spin test |
| Rings.Fifo.Store | pwc.c:87-88 | stores at head + 1, modulo the size |
| Rings.Fifo.Advance | pwc.c:89 | publishes |
| Rings.Fifo.TakeNext | pwc.c:68 | takes the slot at the old tail |
| Rings.Fifo.CountLines | pwc.c:70 | counts in place, in the slot held |
| Rings.Fifo.StoreDone | pwc.c:73 | releases everything taken |
| Rings.FillKeeps | pwc.c:83-89 | a store disturbs neither unread slots nor the one held |
| Rings.TakeKeeps | pwc.c:67-68 | read number t returns push number t, the blank slot for t = 0 |
| Rings.MarkKeeps | pwc.c:70 | counting in place disturbs neither unread nor staged slots |
| Rings.NoTear | pwc.c:83-89 | the slot about to be written is neither held nor unread |
| Rings.StepKeepsInv | pwc.c:58-122 | every step of either thread keeps both rings' invariants |
| Rings.RunInv | pwc.c:58-164 | in every interleaving |
| Rings.NothingTorn | pwc.c:82-101 | no slot of either ring is ever written under its reader |
| Rings.ReadFindsPush | pwc.c:66-70 | what the I/O thread's read t finds, in terms of the files walked |
| Rings.ReapedInOrder | pwc.c:108-122 | what has been reaped is two blanks and then the files with their line counts, in order, cut short |
| Rings.LastTwoUnreported | pwc.c:152-164 | when main returns exactly the last two files are missing |
| Rings.NothingHeld | pwc.c:62-77 | in every run, outside the drains every slot read has been given back |
| Rings.BlockedMeansUnread | pwc.c:82-93 | so outside the drains a push is blocked only by 511 unread files, and main goes on unreaped only with at most 256 in the second ring |
| RingProgress.StuckExactly | pwc.c:58-164 | in every run the threads stand still exactly when main has returned, or the I/O thread waits for room in the second ring and main for it |
| RingProgress.DeadlockReachable | pwc.c:82-101 | a run with 513 files, whatever they hold, that ends in such a deadlock |
| RingProgress.ReturnsExactly | pwc.c:152-164 | once the walk is over main can return, and then does when the threads just run, if and only if the second ring has room for everything still to be counted |
| RoundCheck.Examine | pcpucheck.cc:139-148 | the two passes agree with the published hashes |
| RoundCheck.StepKeepsInv | pcpucheck.cc:124-264 | every step of main or a checker keeps the protocol's invariant |
| RoundCheck.RunInv | pcpucheck.cc:124-264 | in every interleaving |
| RoundCheck.AckCountsDown | pcpucheck.cc:230-240 | while main waits, g_ack is the number of checkers still to acknowledge |
| RoundCheck.RoundIsComplete | pcpucheck.cc:237-240 | main leaves its wait only after every checker has hashed every buffer so far exactly once, in order |
| RoundCheck.StableWhileHashing | pcpucheck.cc:230-240 | while any checker hashes, no step of main touches the arguments, the buffer or g_go |
| RoundCheck.AbortsExactly | pcpucheck.cc:139-148 | the program aborts if and only if some comparison meets a hash other than the source's |
| RoundCheck.RunRounds | pcpucheck.cc:206-258 | the destination moves on one byte with each round and starts again after 64; no more rounds than asked for |
| RoundCheck.ExitAfterAllRounds | pcpucheck.cc:260-263 | the checkers are told to exit only after all rounds, each vouched for by every checker |
| RoundCheck.NeverStuck | pcpucheck.cc:124-264 | in every run, until it has aborted or is over, some thread has a step that brings the program nearer to its end |
| RoundCheck.CanEnd | pcpucheck.cc:124-264 | so from every state reached the run can go on until all rounds are done and every checker has left, or aborts |
| RoundCheck.BufferIsCopied | pcpucheck.cc:228 | the buffer holds the bytes of the last copy |
| RoundCheck.DecrementIs | pcpucheck.cc:130 | g_ack-- on a 32-bit word |
| RoundCheck.PassedMeansClose | pcpucheck.cc:139-148 | what a checker read in a passed round does not differ from the source in one byte, nor within one aligned word |
| Md5Transform.StepAgrees | cphash.cc:100-103 | STEP is one operation of section 3.4 of RFC 1321 |
| Md5Transform.AuxiliaryAgrees | cphash.cc:91-95 | the shortened F, G, H, H2 and I are the functions of the RFC |
| Md5Transform.RotateAgrees | cphash.cc:102 | the shifts and the or of STEP are the circular shift |
| Md5Transform.SetAgrees | cphash.cc:126-131 | SET reads a word with its low-order byte first |
| Md5Transform.FourSteps | cphash.cc:100-103 | four STEPs with their own words, constants and shifts, the words changing roles, are four operations |
| Md5Transform.Round1 | cphash.cc:160-176 | the unrolled round is the RFC's, with its word order and table |
| Md5Transform.Round2 | cphash.cc:178-194 | likewise |
| Md5Transform.Round3 | cphash.cc:196-212 | likewise, with the alternating H and H2 |
| Md5Transform.Round4 | cphash.cc:214-230 | likewise |
| Md5Transform.Transform | cphash.cc:154-237 | one turn of body's loop is the compression function |
| Md5Stream.PaddedIsWhole | cphash.cc:305-316 | message, padding and length fill whole blocks |
| Md5Stream.FoldConcat | cphash.cc:154-238 | folding over whole blocks can be cut anywhere between them |
| Md5Stream.Context.MD5Init | cphash.cc:248-257 | a context fed nothing |
| Md5Stream.Context.Body | cphash.cc:141-246 | folds the compression function; called on non-zero multiples of 64 only |
| Md5Stream.Context.CountBytes | cphash.cc:264-267 | the split counter with its 29-bit carry stays the byte count modulo 2^61 |
| Md5Stream.CountLemma | cphash.cc:265-267 | the arithmetic of the carry |
| Md5Stream.Context.MD5Update | cphash.cc:259-291 | the context holds the message fed so far and the new bytes |
| Md5Stream.Context.MD5Final | cphash.cc:299-330 | the digest of the whole message fed; the context is wiped |
| Md5Stream.LengthLemma | cphash.cc:318-320 | the two words written are the length in bits modulo 2^64 |
| Md5Stream.Stream | cphash.cc:248-330 | for any cut of any message into updates the result is the one-shot digest |
| Md5Stream.Out | cphash.cc:293-297 | OUT writes a word with its low-order byte first |
| Md5Published.DigestOfLettersAndDigits | cphash.cc:248-330 | MD5 of the letters and digits is the digest that section A.5 of RFC 1321 publishes, over two blocks and their 128 operations |
| MachineWords.XorShiftInjective | hashes.c:21-23 | x ^= x >> s loses nothing |
| MachineWords.MulInjective | hashes.c:37 | multiplication by an invertible word loses nothing |
| MachineWords.RotateInjective | murmur3.c:18-21 | rotation loses nothing |
| MachineWords.UnshiftUndoes | hashes.c:21-23 | x ^= x >> s undone |
| Detection.StatesStayApart | hashes.c:72-75 | different states stay different under common input |
| Detection.OneElementShows | hashes.c:72-75 | one changed element changes the final state, whatever surrounds it |
| Hashes.FNV1A_32 | hashes.c:69-77 | computes the 32-bit hash, for signed and unsigned char |
| Hashes.FNV1A_64 | hashes.c:81-89 | and the 64-bit one |
| Hashes.FnvDetects | hashes.c:69-89 | one changed byte changes both, in buffers of any length |
| Hashes.FnvReadsBack | hashes.c:69-89 | from the hashes with and without the last byte, that byte can be read back by one multiplication and one exclusive or |
| HashValues.Foobar32 | hashes.c:69-77 | the published 32-bit value of "foobar" |
| HashValues.Foobar64 | hashes.c:81-89 | the published 64-bit value |
| HashValues.FnvOfHighByte32 | hashes.c:73 | the byte 255, as signed and as unsigned char |
| HashValues.FnvOfHighByte64 | hashes.c:85 | likewise in 64 bits |
| Hashes.JenkinsOneAtATimeHash | hashes.c:91-103 | computes the one-at-a-time hash |
| Hashes.JenkinsStepInjective | hashes.c:95-97 | its step loses neither state nor byte |
| Hashes.JenkinsDetects | hashes.c:91-103 | one changed byte changes it |
| Hashes.JenkinsReadsBack | hashes.c:91-103 | the finish can be undone, and from the states with and without the last byte that byte read back |
| HashValues.JenkinsOfA | hashes.c:91-103 | the published value of "a" |
| WordHashes.Murmur3_32 | murmur3.c:8-44 | computes murmur3 |
| WordHashes.Gather | murmur3.c:26-31 | the tail loop collects the tail bytes, low-order first |
| WordHashes.MurmurStepInjective | murmur3.c:15-22 | a block step loses neither state nor block |
| WordHashes.FmixInjective | murmur3.c:38-42 | the finaliser loses nothing |
| WordHashes.MurmurDetects | murmur3.c:8-44 | a change within one aligned word, or within the tail, changes it |
| WordHashes.MurmurReadsBack | murmur3.c:8-44 | the finish can be undone, and from the states with and without the last word that word read back |
| WordHashes.MurmurTailReadsBack | murmur3.c:25-36 | and the tail from the hash and the state before it |
| HashValues.MurmurOfHello | murmur3.c:8-44 | the published value of "Hello, world!" with seed 0x9747b28c |
| FastHash.FastHash | hashes.c:25-56 | computes fasthash64 |
| FastHash.GatherTail | hashes.c:43-50 | the falling-through switch collects the tail bytes, low-order first |
| FastHash.MixInjective | hashes.c:20-23 | the mix loses nothing |
| FastHash.FastHashDetects | hashes.c:25-56 | a change within one aligned word, or within the tail, changes it |
| FastHash.FastReadsBack | hashes.c:25-56 | each word can be read back from the states around it, and the tail from the hash and the state before it |
| HashValues.FastOfHello | hashes.c:25-56 | the value of "Hello, world!" with seed 1 |
| MatMul.PositionsFit | mxm.c:6-8 | the int position of every cell is in range if and only if there are at most 2^31 cells |
| MatMul.VInjective | mxm.c:6-8 | different cells have different positions |
| MatMul.RowMajor | mxm.c:6-8 | rows lie one after the other |
| MatMul.DotOfUnit | mxm2.c:12-29 | multiplied with a unit column, a row of A gives one of its entries as it lies in memory |
| MatMul.MultiplyPlain | mxm2.c:12-29 | adds to every cell the sum over k modulo 2^32 |
| MatMul.Pack | mxm.c:23-32 | the packed block is the transpose of the block of B |
| MatMul.Sums | mxm.c:37-48 | the four temporaries hold four cells plus their share of the sums |
| MatMul.Quad | mxm.c:37-53 | one 2 x 2 tile gains its share and no other cell changes |
| MatMul.Block | mxm.c:35-55 | the tiles cover a block of C once each |
| MatMul.BlockDepth | mxm.c:22-56 | the blocks along k add up to the whole sum |
| MatMul.MultiplyBlocked | mxm.c:12-59 | for dimensions divisible by 128, adds to every cell the sum over k modulo 2^32 |
| MatMul.AddRows | mxm.c:20 | what disjoint rows gain adds up |
| MatMul.AddDepth | mxm.c:22 | what consecutive ranges of k contribute adds up |
| MatMul.AddedUnique | mxm2.c:12-29 | that specification fixes every cell |
| MatMul.SameProduct | mxm2.c:12-29 | the two programs leave equal results |
| Squares.Jacobi | 211.c:23-47 | the loop computes the symbol by its two rules |
| Squares.ZeroMeansCommonFactor | 211.c:23-47 | for odd n it is 0 if and only if the arguments have a common factor |
| Reciprocity.MinusMultiplies | 211.c:23-47 | multiplications by coprime numbers multiply their signs on half of the residues |
| Reciprocity.MinusTwo | 211.c:30-35 | the rule for a factor of two: negative exactly for moduli 3 and 5 modulo 8 |
| Reciprocity.MinusReciprocal | 211.c:37-42 | the rule for the exchange, quadratic reciprocity for coprime odd numbers: the signs differ exactly if both are 3 modulo 4 |
| Residues.MinusMeansNoSquare | 211.c:64-67 | modulo an odd prime the sign is negative exactly for the numbers no square is congruent to |
| Squares.SymbolIsSign | 211.c:23-47 | for coprime arguments the two rules compute that sign |
| Squares.SymbolMultiplies | 211.c:23-47 | for every odd modulus the answers multiply |
| Squares.SymbolPeriodic | 211.c:23-47 | and depend on the remainder only |
| Squares.SymbolOfSquare | 211.c:23-47 | for every odd modulus the answer for a square is 1 if its root is coprime to the modulus and 0 if not |
| Squares.MinusOneMeansNoResidue | 211.c:64-67 | for every odd prime the answer is -1 exactly for what no square is congruent to |
| Squares.PassesExactly | 211.c:54-67 | the filters let through exactly the numbers that are squares modulo 8, 11 and 17 |
| Squares.SquaresPass | 211.c:54-67 | so they turn no square of any size away |
| Squares.TestSquare | 211.c:49-71 | for any root at most 2^32 the test says whether it squares to v; it decides squareness if and only if the roots of squares are right |
| DivisorSquares.OnlyCofactor | 211.c:13-17 | between two consecutive quotients lies at most one divisor, the cofactor |
| DivisorSquares.NextShare | 211.c:12-19 | one turn adds a divisor and its cofactor once each |
| DivisorSquares.SumOfSquares | 211.c:4-21 | the loop up to the root sums the squares of all divisors, modulo 2^64 |
| MemoGcd.Gcd | 443.c:12-20 | the greatest common divisor of positive arguments, 1 if one is zero |
| MemoGcd.GcdFast | 443.c:23-33 | Euclid's algorithm |
| NumberTheory.GcdOfIsGreatest | 443.c:23-33 | which finds the greatest common divisor |
| MemoGcd.CompareGcds | 443.c:12-33 | exactly when the two routines agree |
| MemoGcd.Plain | 443.c:36-40 | the recurrence, in exactly 2^(n - 3) - 1 calls |
| MemoGcd.IncrementsArePrime | 443.c:36-40 | from g(9) = 27 on, as long as 3n is below 2^64, each increment is 1 or a prime, and after a prime g(n) is 3n |
| MemoGcd.FirstValues | 443.c:36-40 | the values from g(5) to g(9) |
| MemoGcd.Memo.GFast | 443.c:42-53 | the same value after any history, the memo right again, in exactly 2(n - base) + 1 calls |
| MemoGcd.Memo.Build | 443.c:64-76 | building the table takes three calls for each value |

## Left out

- The sufficiency of the nine bases for 64-bit integers (`test_prime.c:164`): it rests on an exhaustive computation.
- PrimalityTest.IsPrimeTest: does not say what happens after an overflow, which C leaves undefined; it stops there.
- HybridPrimality.IsPrimeTest: does not say what happens after an overflow, nor after a trial divisor of 2^32, whose
  square wraps.
- BitSieve.Sieve: says nothing of limits for which an odd composite below the limit has its bit beyond the buffer, nor do
  the wheel, which also needs a buffer of at least one byte, and the driver: `bits` rounds down (`test_prime.c:36-38`), and
  there the code writes outside its buffer.
- The `check` loop of `146.c` and the searches of the puzzle programs, digit sums, counters: easy or finite.
- `sieve.c` and `146x.c`: their strict bound on the square root is not right for every limit.
- Squares.TestSquare: floating point is not modelled; the result of `sqrt` is an argument, and the contract says which
  results make the test right. DivisorSquares.SumOfSquares takes an exact root.
- Files, directories, mappings, sockets, affinity, copying routines, witness buffer and random contents: input and output.
- Weak memory and OpenMP: atomics interleave sequentially consistently, parallel loops run in order.
- Threads are step systems on values; the classes beside them carry the code of the mutex-held or atomic regions. Steps
  on one thread's private variables are merged with the shared access they accompany.
- Fairness in `pwc.c`: nothing is said of a thread that is never scheduled. Wrap-around of its int counters.
- Bwait after closure: `bwait` does not look at `closed`, so nothing is claimed of it then.
- The growth of `rover` (`workqueue.c:77-80`): key 0 may pick any queue. `PWQ::Run` passes key 0 always.
- Items without a barrier, and the joining order of `workqueue_exit`: the order to exit may come at any time.
- The data a callback works on: a callback is the list of items it submits.
- The values atomics carry in `san/tsan.c`, and counters beyond 2^31 - 1 operations of one CPU.
- RaceDetector.NoMissedRace: says nothing of chains over a third CPU, which the code does not track either.
- `fasthash32` and the SSE 4.2 checksum of `hashes.c`: a truncation and a hardware instruction.
- Loads of aligned words are little-endian, as on x86; an or or exclusive or of words without common bits is a sum in
  `murmur3.c`'s tail and rotation.
- RoundCheck.PassedMeansClose: the bytes a CPU reads are arbitrary; what is ruled out is what the hashes cannot miss.
- `Randomize` and the copy routines of `pcpucheck.cc`: any source contents are allowed.
- MatMul.MultiplyBlocked: indices are unbounded integers; `MatMul.PositionsFit` says for which sizes the source's ints
  stay in range, which those used do.
- MatMul.MultiplyPlain: likewise.
- The deduplication of `cphash.cc`, the copies of these routines in other files, assembly, timing: not about meaning.
