/**
 The shared-memory mutex of ngx_shmtx.c, in the variant with atomic operations and a POSIX
 semaphore, as a state machine over the atomic steps of any number of processes.

 Each access to the lock word, the wait counter or the semaphore is one step; the read of a word
 and the compare-and-set that follows it are two.  Steps of different processes interleave freely.
 */
module Shmtx {

  /** Where a process is.  A name ending in `Read` is a plain read, in `Cas` a compare-and-set. */
  datatype Pc =
    | Idle
    | TryRead | TryCas                      // ngx_shmtx_trylock
    | LockRead | LockCas                    // the test at the head of ngx_shmtx_lock's loop
    | SpinRead(n: nat) | SpinCas(n: nat)    // the tests between pauses
    | Announce                              // about to add one to the wait counter
    | LastRead | LastCas                    // the test after that
    | Sleep                                 // in sem_wait
    | Hold
    | WakeRead | WakeCas(seen: nat) | Post  // ngx_shmtx_wakeup
    | Dead

  /** Fixed for a mutex: several processors, a working semaphore, the bound of the spin loop. */
  datatype Config = Config(smp: bool, semaphore: bool, spin: nat)

  datatype State = State(lock: nat, wait: nat, sem: nat, pid: seq<nat>, pc: seq<Pc>)

  datatype Event =
    | Run(i: nat)                  // the next step of a process that is inside an operation
    | Trylock(i: nat)
    | Lock(i: nat)
    | Unlock(i: nat)               // by the holder
    | StrayUnlock(i: nat)          // by a process that does not hold the lock
    | ForceUnlock(i: nat, victim: nat)
    | SemError(i: nat)             // sem_wait returns without having taken a post
    | Crash(i: nat)

  function At(s: State, i: nat, pc: Pc): State
    requires i < |s.pc|
  {
    s.(pc := s.pc[i := pc])
  }

  /** A test of the lock word: `hit` when it is free, `miss` otherwise. */
  function Test(s: State, i: nat, hit: Pc, miss: Pc): State
    requires i < |s.pc|
  {
    At(s, i, if s.lock == 0 then hit else miss)
  }

  /** A compare-and-set of the lock word from 0 to the pid of process `i`. */
  function Take(s: State, i: nat, miss: Pc): State
    requires i < |s.pc| && |s.pid| == |s.pc|
  {
    if s.lock == 0 then At(s, i, Hold).(lock := s.pid[i]) else At(s, i, miss)
  }

  /** Where a process goes after a failed test with pause length `n` still to come. */
  function Missed(c: Config, n: nat): Pc {
    if c.smp && n < c.spin then SpinRead(n)
    else if c.semaphore then Announce
    else LockRead
  }

  function Step(c: Config, s: State, i: nat): State
    requires i < |s.pc| && |s.pid| == |s.pc|
  {
    match s.pc[i]
    case TryRead => Test(s, i, TryCas, Idle)
    case TryCas => Take(s, i, Idle)
    case LockRead => Test(s, i, LockCas, Missed(c, 1))
    case LockCas => Take(s, i, Missed(c, 1))
    case SpinRead(n) => Test(s, i, SpinCas(n), Missed(c, 2 * n))
    case SpinCas(n) => Take(s, i, Missed(c, 2 * n))
    case Announce => At(s, i, LastRead).(wait := s.wait + 1)
    case LastRead => Test(s, i, LastCas, Sleep)
    case LastCas => Take(s, i, Sleep)
    case Sleep => if s.sem > 0 then At(s, i, LockRead).(sem := s.sem - 1) else s
    case WakeRead => At(s, i, if !c.semaphore || s.wait == 0 then Idle else WakeCas(s.wait))
    case WakeCas(w) =>
      if s.wait == w && w > 0 then At(s, i, Post).(wait := w - 1) else At(s, i, WakeRead)
    case Post => At(s, i, Idle).(sem := s.sem + 1)
    case Idle => s
    case Hold => s
    case Dead => s
  }

  /** Clears the lock word if it holds `pid`, and then goes on to wake a sleeper. */
  function Release(s: State, i: nat, pid: nat): State
    requires i < |s.pc|
  {
    if s.lock == pid then At(s, i, WakeRead).(lock := 0) else At(s, i, Idle)
  }

  /** An event that is not possible in a state leaves it unchanged. */
  function Next(c: Config, s: State, e: Event): State
    requires |s.pid| == |s.pc|
  {
    if e.i >= |s.pc| then s
    else match e
      case Run(i) => Step(c, s, i)
      case Trylock(i) => if s.pc[i] == Idle then At(s, i, TryRead) else s
      case Lock(i) => if s.pc[i] == Idle then At(s, i, LockRead) else s
      case Unlock(i) => if s.pc[i] == Hold then Release(s, i, s.pid[i]) else s
      case StrayUnlock(i) => if s.pc[i] == Idle then Release(s, i, s.pid[i]) else s
      case ForceUnlock(i, v) =>
        if s.pc[i] == Idle && v < |s.pc| && s.pc[v] == Dead then Release(s, i, s.pid[v]) else s
      case SemError(i) => if s.pc[i] == Sleep then At(s, i, LockRead) else s
      case Crash(i) => if s.pc[i] == Hold || s.pc[i] == Idle || s.pc[i] == Sleep then At(s, i, Dead) else s
  }

  function After(c: Config, s: State, run: seq<Event>): State
    requires |s.pid| == |s.pc|
    ensures |After(c, s, run).pid| == |After(c, s, run).pc| == |s.pc|
    decreases |run|
  {
    if run == [] then s else After(c, Next(c, s, run[0]), run[1..])
  }

  /** The mutex is free, nobody waits, and every process is idle under its own non-zero pid. */
  ghost predicate Initial(s: State) {
    && |s.pid| == |s.pc| && s.lock == 0 && s.wait == 0 && s.sem == 0
    && (forall i | 0 <= i < |s.pc| :: s.pc[i] == Idle)
    && Pids(s.pid)
  }

  ghost predicate Pids(pid: seq<nat>) {
    (forall i | 0 <= i < |pid| :: pid[i] != 0) && (forall i, j | 0 <= i < j < |pid| :: pid[i] != pid[j])
  }

  // ------------------------------------------------------------------ counting

  function Tally(pcs: seq<Pc>, f: Pc -> nat): nat {
    if pcs == [] then 0 else f(pcs[0]) + Tally(pcs[1..], f)
  }

  /** In `sem_wait`, or on the way there after being counted in `wait`. */
  function Committed(pc: Pc): nat {
    if pc == LastRead || pc == LastCas || pc == Sleep then 1 else 0
  }

  /** A post taken out of the wait counter that has not reached the semaphore. */
  function Posting(pc: Pc): nat { if pc == Post then 1 else 0 }

  lemma {:induction false} TallyUpdate(pcs: seq<Pc>, f: Pc -> nat, i: nat, x: Pc)
    requires i < |pcs|
    ensures Tally(pcs[i := x], f) == Tally(pcs, f) - f(pcs[i]) + f(x)
    ensures f(pcs[i]) <= Tally(pcs, f)
  {
    var pcs' := pcs[i := x];
    if i == 0 {
      assert pcs'[1..] == pcs[1..];
    } else {
      assert pcs'[1..] == pcs[1..][i - 1 := x];
      TallyUpdate(pcs[1..], f, i - 1, x);
    }
  }

  /** A positive tally has a witness. */
  lemma {:induction false} TallyWitness(pcs: seq<Pc>, f: Pc -> nat) returns (i: nat)
    requires Tally(pcs, f) > 0
    ensures i < |pcs| && f(pcs[i]) > 0
  {
    if f(pcs[0]) > 0 {
      i := 0;
    } else {
      var j := TallyWitness(pcs[1..], f);
      i := j + 1;
    }
  }

  lemma {:induction false} TallyZero(pcs: seq<Pc>, f: Pc -> nat)
    requires forall i | 0 <= i < |pcs| :: f(pcs[i]) == 0
    ensures Tally(pcs, f) == 0
  {
    if pcs != [] { TallyZero(pcs[1..], f); }
  }

  // ---------------------------------------------------------------- invariant

  /** The lock word names the process that holds the mutex, or one that died. */
  ghost predicate Owned(s: State)
    requires |s.pid| == |s.pc|
  {
    && (forall i | 0 <= i < |s.pc| :: s.pc[i] == Hold ==> s.lock == s.pid[i])
    && (s.lock != 0 ==> exists i | 0 <= i < |s.pc| :: s.lock == s.pid[i] && (s.pc[i] == Hold || s.pc[i] == Dead))
  }

  /** Sleepers never outnumber the posts that are due, under way or available. */
  ghost predicate Covered(s: State) {
    Tally(s.pc, Committed) <= s.wait + s.sem + Tally(s.pc, Posting)
  }

  /** A process that will look at the lock word again, or wake somebody, without help. */
  predicate Active(pc: Pc) {
    pc != Idle && pc != Sleep && pc != Dead && pc != Hold
  }

  /** With the mutex free, a sleeper has a post available or an active process. */
  ghost predicate Awaited(s: State) {
    s.lock == 0 && (exists i | 0 <= i < |s.pc| :: s.pc[i] == Sleep) ==>
      s.sem > 0 || exists j | 0 <= j < |s.pc| :: Active(s.pc[j])
  }

  /** Not on the path to the semaphore. */
  predicate Waitless(pc: Pc) { pc != Announce && Committed(pc) == 0 }

  ghost predicate Inv(c: Config, s: State) {
    && |s.pid| == |s.pc| && Pids(s.pid)
    && Owned(s) && Covered(s) && Awaited(s)
    && (!c.semaphore ==> forall i | 0 <= i < |s.pc| :: Waitless(s.pc[i]))
  }

  lemma InitialInv(c: Config, s: State)
    requires Initial(s)
    ensures Inv(c, s)
  {
    TallyZero(s.pc, Committed);
    TallyZero(s.pc, Posting);
  }

  /** Only process `i` moves, and pids never change. */
  ghost predicate OneMoves(s: State, s': State, i: nat) {
    s'.pid == s.pid && |s'.pc| == |s.pc| && i < |s.pc| && s'.pc == s.pc[i := s'.pc[i]]
  }

  /** How a step of process `i` may change the lock word. */
  ghost predicate LockMove(s: State, s': State, i: nat)
    requires OneMoves(s, s', i) && |s.pid| == |s.pc|
  {
    var x, y := s.pc[i], s'.pc[i];
    && (x != Dead || y == Dead)
    && (|| (s'.lock == s.lock && (y == Hold ==> x == Hold) && (x == Hold ==> y == Hold || y == Dead || s.lock != s.pid[i]))
        || (s.lock == 0 && s'.lock == s.pid[i] && y == Hold && x != Hold)
        || (s'.lock == 0 && y == WakeRead && ((x == Hold && s.lock == s.pid[i])
                                             || (x == Idle && (s.lock == s.pid[i] || DeadOwner(s))))))
  }

  ghost predicate DeadOwner(s: State)
    requires |s.pid| == |s.pc|
  {
    exists v | 0 <= v < |s.pc| :: s.pc[v] == Dead && s.pid[v] == s.lock
  }

  /** How a step may change the counters. */
  ghost predicate CountMove(s: State, s': State, i: nat)
    requires OneMoves(s, s', i)
  {
    var x, y := s.pc[i], s'.pc[i];
    Committed(y) + s.wait + s.sem + Posting(x) <= Committed(x) + s'.wait + s'.sem + Posting(y)
  }

  /** A process comes to rest only when the lock is taken, when it has posted, or when nobody is counted. */
  ghost predicate RestMove(s: State, s': State, i: nat)
    requires OneMoves(s, s', i)
  {
    var x, y := s.pc[i], s'.pc[i];
    Active(y) || s'.sem > 0 || s'.lock != 0 ||
    (x == WakeRead && y == Idle && s'.wait == 0) ||
    (!Active(x) && s.lock == s'.lock && s.sem == s'.sem && (y == Sleep ==> x == Sleep))
  }

  /** A step or event is one move of one process. */
  ghost predicate Moves(c: Config, s: State, s': State, i: nat)
    requires |s.pid| == |s.pc|
  {
    && OneMoves(s, s', i) && LockMove(s, s', i) && CountMove(s, s', i)
    && if c.semaphore then RestMove(s, s', i) else Waitless(s.pc[i]) ==> Waitless(s'.pc[i])
  }

  lemma TestMoves(c: Config, s: State, i: nat, hit: Pc, miss: Pc)
    requires i < |s.pc| && |s.pid| == |s.pc| && Active(hit) && hit != WakeRead && Waitless(hit) == Waitless(s.pc[i])
    requires Active(s.pc[i]) && (!c.semaphore ==> Waitless(s.pc[i]) ==> Waitless(miss)) && miss != Hold
    requires Posting(s.pc[i]) == Posting(hit) == Posting(miss) == 0 && Committed(hit) == Committed(s.pc[i]) == Committed(miss)
    ensures Moves(c, s, Test(s, i, hit, miss), i)
  {
    assert s.pc[i := hit][i] == hit && s.pc[i := miss][i] == miss;
  }

  lemma TakeMoves(c: Config, s: State, i: nat, miss: Pc)
    requires i < |s.pc| && |s.pid| == |s.pc| && s.pid[i] != 0
    requires Active(s.pc[i]) && (!c.semaphore ==> Waitless(s.pc[i]) ==> Waitless(miss)) && miss != Hold
    requires Posting(s.pc[i]) == Posting(miss) == 0 && Committed(s.pc[i]) == Committed(miss)
    ensures Moves(c, s, Take(s, i, miss), i)
  {
    assert s.pc[i := Hold][i] == Hold && s.pc[i := miss][i] == miss;
  }

  lemma StepMoves(c: Config, s: State, i: nat)
    requires i < |s.pc| && |s.pid| == |s.pc| && s.pid[i] != 0
    ensures Step(c, s, i) == s || Moves(c, s, Step(c, s, i), i)
  {
    hide Moves, Test, Take;
    match s.pc[i]
    case TryRead => TestMoves(c, s, i, TryCas, Idle);
    case TryCas => TakeMoves(c, s, i, Idle);
    case LockRead => TestMoves(c, s, i, LockCas, Missed(c, 1));
    case LockCas => TakeMoves(c, s, i, Missed(c, 1));
    case SpinRead(n) => TestMoves(c, s, i, SpinCas(n), Missed(c, 2 * n));
    case SpinCas(n) => TakeMoves(c, s, i, Missed(c, 2 * n));
    case LastRead => TestMoves(c, s, i, LastCas, Sleep);
    case LastCas => TakeMoves(c, s, i, Sleep);
    case _ => CounterMoves(c, s, i);
  }

  lemma CounterMoves(c: Config, s: State, i: nat)
    requires i < |s.pc| && |s.pid| == |s.pc|
    requires s.pc[i] == Announce || s.pc[i] == Sleep || s.pc[i] == WakeRead || s.pc[i].WakeCas? || s.pc[i] == Post
      || s.pc[i] == Idle || s.pc[i] == Hold || s.pc[i] == Dead
    ensures Step(c, s, i) == s || Moves(c, s, Step(c, s, i), i)
  {
  }

  lemma NextMoves(c: Config, s: State, e: Event)
    requires |s.pid| == |s.pc| && Pids(s.pid)
    ensures Next(c, s, e) == s || Moves(c, s, Next(c, s, e), e.i)
  {
    if e.i < |s.pc| {
      if e.Run? {
        hide Moves, Step;
        StepMoves(c, s, e.i);
      } else {
        hide Step;
        EventMoves(c, s, e);
      }
    }
  }

  lemma EventMoves(c: Config, s: State, e: Event)
    requires |s.pid| == |s.pc| && e.i < |s.pc| && !e.Run?
    ensures Next(c, s, e) == s || Moves(c, s, Next(c, s, e), e.i)
  {
    hide Step;
  }

  lemma OwnedKept(s: State, s': State, i: nat)
    requires |s.pid| == |s.pc| && Pids(s.pid) && Owned(s) && OneMoves(s, s', i) && LockMove(s, s', i)
    ensures Owned(s')
  {
    if s'.lock != 0 {
      if s.lock == 0 {
        assert s'.lock == s'.pid[i] && s'.pc[i] == Hold;
      } else {
        var k :| 0 <= k < |s.pc| && s.lock == s.pid[k] && (s.pc[k] == Hold || s.pc[k] == Dead);
        assert s'.lock == s'.pid[k] && (s'.pc[k] == Hold || s'.pc[k] == Dead);
      }
    }
    forall j | 0 <= j < |s'.pc| && s'.pc[j] == Hold ensures s'.lock == s'.pid[j] {
      if j != i {
        assert s.pc[j] == Hold && s.lock == s.pid[j] != 0;
      }
    }
  }

  lemma CoveredKept(s: State, s': State, i: nat)
    requires Covered(s) && OneMoves(s, s', i) && CountMove(s, s', i)
    ensures Covered(s')
  {
    TallyUpdate(s.pc, Committed, i, s'.pc[i]);
    TallyUpdate(s.pc, Posting, i, s'.pc[i]);
  }

  lemma AwaitedKept(s: State, s': State, i: nat)
    requires Awaited(s) && Covered(s') && OneMoves(s, s', i) && RestMove(s, s', i)
    ensures Awaited(s')
  {
    if s'.lock == 0 && s'.sem == 0 && !Active(s'.pc[i]) && exists k | 0 <= k < |s'.pc| :: s'.pc[k] == Sleep {
      var k: nat :| k < |s'.pc| && s'.pc[k] == Sleep;
      if s'.wait == 0 {
        TallyUpdate(s'.pc, Committed, k, Sleep);
        var j := TallyWitness(s'.pc, Posting);
        assert Active(s'.pc[j]);
      } else {
        assert s.pc[k] == Sleep;
        var j :| 0 <= j < |s.pc| && Active(s.pc[j]);
        assert Active(s'.pc[j]);
      }
    } else {
      assert Active(s'.pc[i]) ==> exists j | 0 <= j < |s'.pc| :: Active(s'.pc[j]);
    }
  }

  lemma NextInv(c: Config, s: State, e: Event)
    requires Inv(c, s)
    ensures Inv(c, Next(c, s, e))
  {
    hide Next, LockMove, CountMove, RestMove, Covered, Owned, Awaited;
    var s' := Next(c, s, e);
    NextMoves(c, s, e);
    if s' != s {
      Shape(s, s', e.i);
      OwnedKept(s, s', e.i);
      CoveredKept(s, s', e.i);
      if c.semaphore { AwaitedKept(s, s', e.i); } else { WaitlessAwaited(s'); }
    }
  }

  lemma Shape(s: State, s': State, i: nat)
    requires OneMoves(s, s', i)
    ensures s'.pid == s.pid && |s'.pc| == |s.pc| && i < |s.pc| && forall j | 0 <= j < |s.pc| && j != i :: s'.pc[j] == s.pc[j]
  {
  }

  lemma WaitlessAwaited(s: State)
    requires forall i | 0 <= i < |s.pc| :: Waitless(s.pc[i])
    ensures Awaited(s)
  {
  }

  lemma {:induction false} RunInv(c: Config, s: State, run: seq<Event>)
    requires Inv(c, s)
    ensures Inv(c, After(c, s, run))
    decreases |run|
  {
    if run != [] {
      NextInv(c, s, run[0]);
      RunInv(c, Next(c, s, run[0]), run[1..]);
    }
  }

  ghost predicate Reachable(c: Config, s: State) {
    exists s0, run :: Initial(s0) && s == After(c, s0, run)
  }

  lemma ReachableInv(c: Config, s: State)
    requires Reachable(c, s)
    ensures Inv(c, s)
  {
    var s0, run :| Initial(s0) && s == After(c, s0, run);
    InitialInv(c, s0);
    RunInv(c, s0, run);
  }

  // ------------------------------------------------------------------ theorems

  lemma IdleDoesNotOwn(s: State)
    requires |s.pid| == |s.pc| && Pids(s.pid) && Owned(s) && s.lock != 0
    ensures forall i | 0 <= i < |s.pc| && s.pid[i] == s.lock :: s.pc[i] == Hold || s.pc[i] == Dead
  {
  }

  /** At most one process holds the mutex. */
  lemma MutualExclusion(c: Config, s: State, i: nat, j: nat)
    requires Reachable(c, s) && i < |s.pc| && j < |s.pc| && s.pc[i] == s.pc[j] == Hold
    ensures i == j && |s.pid| == |s.pc| && s.lock == s.pid[i]
  {
    ReachableInv(c, s);
    assert s.lock == s.pid[i] == s.pid[j];
  }

  /** The lock word leaves a holder's pid only by the holder's own unlock, or by force after its death. */
  lemma OnlyOwnerReleases(c: Config, s: State, e: Event)
    requires Reachable(c, s) && |s.pid| == |s.pc| && s.lock != 0 && Next(c, s, e).lock != s.lock
    ensures Next(c, s, e).lock == 0 && e.i < |s.pc|
    ensures || (e.Unlock? && s.pc[e.i] == Hold && s.pid[e.i] == s.lock)
            || (e.ForceUnlock? && e.victim < |s.pc| && s.pc[e.victim] == Dead && s.pid[e.victim] == s.lock)
  {
    ReachableInv(c, s);
    IdleDoesNotOwn(s);
  }

  /** Processes committed to sleeping never outnumber wait + semaphore + posts in flight. */
  lemma SleepersCovered(c: Config, s: State)
    requires Reachable(c, s)
    ensures Tally(s.pc, Committed) <= s.wait + s.sem + Tally(s.pc, Posting)
  {
    ReachableInv(c, s);
  }

  /** No lost wake-up: a free mutex, a sleeper without a post, and everybody else at rest cannot occur. */
  lemma NoLostWakeup(c: Config, s: State, i: nat)
    requires Reachable(c, s) && i < |s.pc| && s.pc[i] == Sleep && s.lock == 0 && s.sem == 0
    ensures exists j | 0 <= j < |s.pc| :: Active(s.pc[j])
  {
    ReachableInv(c, s);
  }

  // ---------------------------------------------------------- no sleeper is stranded

  lemma Unroll(c: Config, s: State, e: Event, rest: seq<Event>)
    requires |s.pid| == |s.pc|
    ensures After(c, s, [e] + rest) == After(c, Next(c, s, e), rest)
  {
    assert ([e] + rest)[1..] == rest;
  }

  /** With the mutex free and a post available, sleeper `i` gets the mutex in three steps. */
  lemma TakesPost(c: Config, s: State, i: nat) returns (run: seq<Event>)
    requires |s.pid| == |s.pc| && i < |s.pc| && s.pc[i] == Sleep && s.lock == 0 && s.sem > 0
    ensures After(c, s, run).pc[i] == Hold
  {
    var e := Run(i);
    var s1 := Next(c, s, e);
    assert s1.pc[i] == LockRead && s1.lock == 0;
    var s2 := Next(c, s1, e);
    assert s2.pc[i] == LockCas && s2.lock == 0;
    var s3 := Next(c, s2, e);
    assert s3.pc[i] == Hold;
    Unroll(c, s2, e, []);
    Unroll(c, s1, e, [e]);
    Unroll(c, s, e, [e] + [e]);
    run := [e] + ([e] + [e]);
    assert After(c, s3, []) == s3;
    assert [e] == [e] + [];
  }

  /** Steps that process `j` needs at most before it posts. */
  function Distance(s: State, pc: Pc): nat {
    match pc
    case WakeCas(w) => if w == s.wait && w > 0 then 1 else 3
    case WakeRead => 2
    case TryCas => 4
    case LockCas => 4
    case SpinCas(_) => 4
    case LastCas => 4
    case TryRead => 5
    case LockRead => 5
    case SpinRead(_) => 5
    case LastRead => 5
    case Announce => 6
    case _ => 0
  }

  /** With the mutex free, the next move of an active process that is not posting brings a post nearer. */
  lemma Nearer(c: Config, s: State, j: nat) returns (e: Event, e': Event)
    requires Inv(c, s) && c.semaphore && j < |s.pc| && Active(s.pc[j]) && s.pc[j] != Post && s.lock == 0 && s.wait > 0
    ensures var s' := Next(c, Next(c, s, e), e');
      && |s'.pc| == |s.pc| && s'.lock == 0 && s'.sem == s.sem && Active(s'.pc[j]) && Distance(s', s'.pc[j]) < Distance(s, s.pc[j])
      && (forall k | 0 <= k < |s.pc| && k != j :: s'.pc[k] == s.pc[k])
  {
    e := Run(j);
    var s1 := Next(c, s, e);
    if s1.pc[j] == Hold {
      e' := Unlock(j);
      assert s1.lock == s1.pid[j];
    } else {
      e' := Run(|s.pc|);
      assert Next(c, s1, e') == s1;
    }
  }

  /** Some schedule lets sleeper `i` of a free mutex hold it, with `j` active. */
  lemma {:induction false} Rescue(c: Config, s: State, i: nat, j: nat) returns (run: seq<Event>)
    requires Inv(c, s) && c.semaphore && s.lock == 0 && i < |s.pc| && s.pc[i] == Sleep && j < |s.pc| && Active(s.pc[j])
    ensures |After(c, s, run).pc| == |s.pc| && After(c, s, run).pc[i] == Hold
    decreases Distance(s, s.pc[j])
  {
    if s.sem > 0 {
      run := TakesPost(c, s, i);
    } else if Tally(s.pc, Posting) > 0 {
      var k := TallyWitness(s.pc, Posting);
      var e := Run(k);
      var rest := TakesPost(c, Next(c, s, e), i);
      run := [e] + rest;
      Unroll(c, s, e, rest);
    } else {
      TallyUpdate(s.pc, Committed, i, Sleep);
      TallyUpdate(s.pc, Posting, j, s.pc[j]);
      var e, e' := Nearer(c, s, j);
      var s1 := Next(c, s, e);
      NextInv(c, s, e);
      NextInv(c, s1, e');
      var rest := Rescue(c, Next(c, s1, e'), i, j);
      run := [e] + ([e'] + rest);
      Unroll(c, s, e, [e'] + rest);
      Unroll(c, s1, e', rest);
    }
  }

  /** The mutex is free, its holder lives, or an idle process can force it open. */
  ghost predicate CanOpen(s: State) {
    s.lock == 0 || (exists h | 0 <= h < |s.pc| :: s.pc[h] == Hold) || (exists m | 0 <= m < |s.pc| :: s.pc[m] == Idle)
  }

  /** From every reachable state, a sleeper can still come to hold the mutex. */
  lemma NoSleeperStranded(c: Config, s: State, i: nat) returns (run: seq<Event>)
    requires Reachable(c, s) && i < |s.pc| && s.pc[i] == Sleep && CanOpen(s)
    ensures |s.pid| == |s.pc| && After(c, s, run).pc[i] == Hold
  {
    ReachableInv(c, s);
    assert c.semaphore || Waitless(s.pc[i]);
    if s.lock == 0 {
      if s.sem > 0 {
        run := TakesPost(c, s, i);
      } else {
        var j :| 0 <= j < |s.pc| && Active(s.pc[j]);
        run := Rescue(c, s, i, j);
      }
    } else {
      var e, j := Opens(c, s);
      var s1 := Next(c, s, e);
      NextInv(c, s, e);
      var rest := Rescue(c, s1, i, j);
      run := [e] + rest;
      Unroll(c, s, e, rest);
    }
  }

  lemma Opens(c: Config, s: State) returns (e: Event, j: nat)
    requires Inv(c, s) && CanOpen(s) && s.lock != 0
    ensures var s' := Next(c, s, e);
      && s'.lock == 0 && j < |s.pc| == |s'.pc| && s'.pc[j] == WakeRead
      && forall k | 0 <= k < |s.pc| && s.pc[k] == Sleep :: s'.pc[k] == Sleep
  {
    hide Step, Covered, Awaited;
    var o :| 0 <= o < |s.pc| && s.lock == s.pid[o] && (s.pc[o] == Hold || s.pc[o] == Dead);
    if s.pc[o] == Hold {
      e, j := Unlock(o), o;
    } else {
      var m :| 0 <= m < |s.pc| && s.pc[m] == Idle;
      e, j := ForceUnlock(m, o), m;
    }
  }

  // ------------------------------------------------------ fairness does not help a sleeper

  /** Every event of the run has an effect, the run ends in `t`, and process 1 holds the mutex nowhere on the way. */
  ghost predicate PassedOver(c: Config, s: State, run: seq<Event>, t: State)
    requires |s.pid| == |s.pc| == 2
    decreases |run|
  {
    s.pc[1] != Hold && if run == [] then s == t else Next(c, s, run[0]) != s && PassedOver(c, Next(c, s, run[0]), run[1..], t)
  }

  lemma NextSize(c: Config, s: State, e: Event)
    requires |s.pid| == |s.pc|
    ensures |Next(c, s, e).pid| == |Next(c, s, e).pc| == |s.pc|
  {
  }

  lemma PassedStep(c: Config, s: State, e: Event, s': State, rest: seq<Event>, t: State)
    requires |s.pid| == |s.pc| == 2 && s.pc[1] != Hold && Next(c, s, e) == s' != s
    requires |s'.pid| == |s'.pc| == 2 && PassedOver(c, s', rest, t)
    ensures PassedOver(c, s, [e] + rest, t)
  {
    hide Next;
    assert ([e] + rest)[1..] == rest;
  }

  lemma PassedNone(c: Config, s: State)
    requires |s.pid| == |s.pc| == 2 && s.pc[1] != Hold
    ensures PassedOver(c, s, [], s)
  {
  }

  lemma {:induction false} PassedJoin(c: Config, s: State, a: seq<Event>, t: State, b: seq<Event>, u: State)
    requires |s.pid| == |s.pc| == 2 && PassedOver(c, s, a, t) && |t.pid| == |t.pc| == 2 && PassedOver(c, t, b, u)
    ensures PassedOver(c, s, a + b, u)
    decreases |a|
  {
    hide Next;
    if a == [] {
      assert a + b == b;
    } else {
      NextSize(c, s, a[0]);
      PassedJoin(c, Next(c, s, a[0]), a[1..], t, b, u);
      PassedStep(c, s, a[0], Next(c, s, a[0]), a[1..] + b, u);
      assert [a[0]] + (a[1..] + b) == a + b;
    }
  }

  /** Process 1 spins while process 0 holds the mutex. */
  function Misses(c: Config, n: nat): seq<Event>
    requires n > 0
    decreases if n < c.spin then c.spin - n else 0
  {
    if c.smp && n < c.spin then [Run(1)] + Misses(c, 2 * n) else []
  }

  function Contest(wait: nat, sem: nat, p: Pc, q: Pc): State { State(if p == Hold then 7 else 0, wait, sem, [7, 9], [p, q]) }

  lemma {:induction false} SpinsInVain(c: Config, n: nat)
    requires c.semaphore && n > 0
    ensures PassedOver(c, Contest(0, 0, Hold, Missed(c, n)), Misses(c, n), Contest(0, 0, Hold, Announce))
    decreases if n < c.spin then c.spin - n else 0
  {
    var t := Contest(0, 0, Hold, Announce);
    if c.smp && n < c.spin {
      SpinsInVain(c, 2 * n);
      Enter(c, 0, 0, Hold, SpinRead(n), Run(1), 0, 0, Hold, Missed(c, 2 * n), Misses(c, 2 * n), t);
    } else {
      PassedNone(c, t);
    }
  }

  /** One event, and then the rest of the run. */
  lemma Enter(c: Config, wait: nat, sem: nat, p: Pc, q: Pc, e: Event, wait': nat, sem': nat, p': Pc, q': Pc, rest: seq<Event>, t: State)
    requires Next(c, Contest(wait, sem, p, q), e) == Contest(wait', sem', p', q') && q != Hold && (p != p' || q != q')
    requires PassedOver(c, Contest(wait', sem', p', q'), rest, t)
    ensures PassedOver(c, Contest(wait, sem, p, q), [e] + rest, t)
  {
    hide Next, PassedOver;
    assert Contest(wait, sem, p, q).pc[0] == p && Contest(wait, sem, p, q).pc[1] == q;
    assert Contest(wait', sem', p', q').pc[0] == p' && Contest(wait', sem', p', q').pc[1] == q';
    PassedStep(c, Contest(wait, sem, p, q), e, Contest(wait', sem', p', q'), rest, t);
  }

  const LOCK_AGAIN: seq<Event> := [Lock(0)] + ([Run(0)] + ([Run(0)] + []))

  /** The holder releases the mutex, wakes the sleeper and takes the mutex again. */
  const AGAIN: seq<Event> := [Unlock(0)] + ([Run(0)] + ([Run(0)] + ([Run(0)] + LOCK_AGAIN)))

  lemma Locks(c: Config, sem: nat, q: Pc)
    requires q != Hold
    ensures PassedOver(c, Contest(0, sem, Idle, q), LOCK_AGAIN, Contest(0, sem, Hold, q))
  {
    hide PassedOver;
    var t := Contest(0, sem, Hold, q);
    PassedNone(c, t);
    Enter(c, 0, sem, LockCas, q, Run(0), 0, sem, Hold, q, [], t);
    Enter(c, 0, sem, LockRead, q, Run(0), 0, sem, LockCas, q, [Run(0)] + [], t);
    Enter(c, 0, sem, Idle, q, Lock(0), 0, sem, LockRead, q, [Run(0)] + ([Run(0)] + []), t);
  }

  lemma Posts(c: Config)
    ensures PassedOver(c, Contest(1, 0, WakeCas(1), Sleep), [Run(0)] + ([Run(0)] + LOCK_AGAIN), Contest(0, 1, Hold, Sleep))
  {
    hide PassedOver;
    var t := Contest(0, 1, Hold, Sleep);
    Locks(c, 1, Sleep);
    Enter(c, 0, 0, Post, Sleep, Run(0), 0, 1, Idle, Sleep, LOCK_AGAIN, t);
    Enter(c, 1, 0, WakeCas(1), Sleep, Run(0), 0, 0, Post, Sleep, [Run(0)] + LOCK_AGAIN, t);
  }

  lemma TakesAgain(c: Config)
    requires c.semaphore
    ensures PassedOver(c, Contest(1, 0, Hold, Sleep), AGAIN, Contest(0, 1, Hold, Sleep))
  {
    hide PassedOver;
    var t := Contest(0, 1, Hold, Sleep);
    Posts(c);
    Enter(c, 1, 0, WakeRead, Sleep, Run(0), 1, 0, WakeCas(1), Sleep, [Run(0)] + ([Run(0)] + LOCK_AGAIN), t);
    Enter(c, 1, 0, Hold, Sleep, Unlock(0), 1, 0, WakeRead, Sleep, [Run(0)] + ([Run(0)] + ([Run(0)] + LOCK_AGAIN)), t);
  }

  /** From a test of the taken mutex to sem_wait. */
  function GivesUp(c: Config): seq<Event> { [Run(1)] + (Misses(c, 1) + ([Run(1)] + ([Run(1)] + []))) }

  lemma SleepsAgain(c: Config)
    requires c.semaphore
    ensures PassedOver(c, Contest(0, 0, Hold, LockRead), GivesUp(c), Contest(1, 0, Hold, Sleep))
  {
    hide PassedOver, Misses;
    var t := Contest(1, 0, Hold, Sleep);
    PassedNone(c, t);
    Enter(c, 1, 0, Hold, LastRead, Run(1), 1, 0, Hold, Sleep, [], t);
    Enter(c, 0, 0, Hold, Announce, Run(1), 1, 0, Hold, LastRead, [Run(1)] + [], t);
    SpinsInVain(c, 1);
    PassedJoin(c, Contest(0, 0, Hold, Missed(c, 1)), Misses(c, 1), Contest(0, 0, Hold, Announce), [Run(1)] + ([Run(1)] + []), t);
    Enter(c, 0, 0, Hold, LockRead, Run(1), 0, 0, Hold, Missed(c, 1), Misses(c, 1) + ([Run(1)] + ([Run(1)] + [])), t);
  }

  /** A round in which both processes take steps and the sleeper, woken, comes too late. */
  function Round(c: Config): seq<Event> { AGAIN + ([Run(1)] + GivesUp(c)) }

  function Rounds(c: Config, k: nat): seq<Event> { if k == 0 then [] else Round(c) + Rounds(c, k - 1) }

  lemma RoundTaken(c: Config)
    requires c.semaphore
    ensures PassedOver(c, Contest(1, 0, Hold, Sleep), Round(c), Contest(1, 0, Hold, Sleep))
  {
    hide PassedOver, GivesUp;
    var s := Contest(1, 0, Hold, Sleep);
    TakesAgain(c);
    SleepsAgain(c);
    Enter(c, 0, 1, Hold, Sleep, Run(1), 0, 0, Hold, LockRead, GivesUp(c), s);
    PassedJoin(c, s, AGAIN, Contest(0, 1, Hold, Sleep), [Run(1)] + GivesUp(c), s);
  }

  lemma {:induction false} LateEachTime(c: Config, k: nat)
    requires c.semaphore
    ensures PassedOver(c, Contest(1, 0, Hold, Sleep), Rounds(c, k), Contest(1, 0, Hold, Sleep))
  {
    hide PassedOver, Round;
    var s := Contest(1, 0, Hold, Sleep);
    if k == 0 {
      PassedNone(c, s);
    } else {
      LateEachTime(c, k - 1);
      RoundTaken(c);
      PassedJoin(c, s, Round(c), s, Rounds(c, k - 1), s);
    }
  }

  lemma {:induction false} PassedAfter(c: Config, s: State, run: seq<Event>, t: State)
    requires |s.pid| == |s.pc| == 2 && PassedOver(c, s, run, t)
    ensures After(c, s, run) == t
    decreases |run|
  {
    hide Next;
    if run != [] {
      NextSize(c, s, run[0]);
      PassedAfter(c, Next(c, s, run[0]), run[1..], t);
    }
  }

  lemma ContestReached(c: Config)
    requires c.semaphore
    ensures Reachable(c, Contest(1, 0, Hold, Sleep))
  {
    hide PassedOver, GivesUp, After;
    var s0, s := Contest(0, 0, Idle, Idle), Contest(1, 0, Hold, Sleep);
    SleepsAgain(c);
    Enter(c, 0, 0, Hold, Idle, Lock(1), 0, 0, Hold, LockRead, GivesUp(c), s);
    Locks(c, 0, Idle);
    PassedJoin(c, s0, LOCK_AGAIN, Contest(0, 0, Hold, Idle), [Lock(1)] + GivesUp(c), s);
    PassedAfter(c, s0, LOCK_AGAIN + ([Lock(1)] + GivesUp(c)), s);
    assert Initial(s0);
  }

  /**
   A sleeper need not ever get the mutex, however often each process runs: with a semaphore, a
   reachable state comes back after any number of rounds in which both processes take steps, none
   of them idle, without the sleeper having held the mutex.
   */
  lemma FairnessIsNotEnough(c: Config, k: nat)
    requires c.semaphore
    ensures exists s ::
      Reachable(c, s) && |s.pid| == |s.pc| == 2 && s.pc[1] == Sleep && CanOpen(s) && PassedOver(c, s, Rounds(c, k), s)
    ensures Unlock(0) in Round(c) && Run(1) in Round(c)
  {
    hide PassedOver, Rounds, Reachable;
    var s := Contest(1, 0, Hold, Sleep);
    ContestReached(c);
    LateEachTime(c, k);
    assert s.pc[0] == Hold && s.pc[1] == Sleep;
    assert AGAIN[0] == Unlock(0) && ([Run(1)] + GivesUp(c))[0] == Run(1);
  }

  lemma {:induction false} AfterMore(c: Config, s: State, run: seq<Event>, e: Event)
    requires |s.pid| == |s.pc|
    ensures After(c, s, run + [e]) == Next(c, After(c, s, run), e)
    decreases |run|
  {
    hide Next;
    if run == [] {
      assert run + [e] == [e] + [];
      Unroll(c, s, e, []);
    } else {
      NextSize(c, s, run[0]);
      AfterMore(c, Next(c, s, run[0]), run[1..], e);
      assert run + [e] == [run[0]] + (run[1..] + [e]);
      Unroll(c, s, run[0], run[1..] + [e]);
    }
  }

  lemma ReachableNext(c: Config, s: State, e: Event)
    requires Reachable(c, s) && |s.pid| == |s.pc|
    ensures Reachable(c, Next(c, s, e))
  {
    hide Next, Pids;
    var s0, run :| Initial(s0) && s == After(c, s0, run);
    AfterMore(c, s0, run, e);
  }

  lemma NobodyLeft(s: State)
    requires s == Contest(1, 0, WakeRead, Sleep)
    ensures !Awaited(At(s, 0, Dead))
  {
    assert At(s, 0, Dead).pc[1] == Sleep;
  }

  lemma Unlocks(c: Config)
    ensures Next(c, Contest(1, 0, Hold, Sleep), Unlock(0)) == Contest(1, 0, WakeRead, Sleep)
  {
  }

  /**
   Why crashes inside an operation are excluded: a holder that dies between clearing the lock
   word and posting leaves a sleeper whom nobody will wake.
   */
  lemma CrashInWakeupLosesIt(c: Config)
    requires c.semaphore
    ensures exists s :: Reachable(c, s) && |s.pc| == 2 && s.pc[0] == WakeRead && !Awaited(At(s, 0, Dead))
  {
    hide Next, Reachable, Awaited;
    var s := Contest(1, 0, WakeRead, Sleep);
    ContestReached(c);
    Unlocks(c);
    ReachableNext(c, Contest(1, 0, Hold, Sleep), Unlock(0));
    NobodyLeft(s);
    assert s.pc[0] == WakeRead;
  }
}
