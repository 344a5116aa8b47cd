/** Sleep locks (kernel/sleeplock.c): acquiresleep, releasesleep and holdingsleep as programs of
    any number of threads, over the steps of SleepWakeup.  The condition of lock r is that its
    field locked is 0. */
module SleepLocks {
  import opened SleepWakeup

  /** The statement a thread comes to next. */
  datatype Phase =
    | Idle
    | AcqCall(r: int)              // acquiresleep: acquire(&lk->lk)
    | AcqTest(r: int)              // while (lk->locked) sleep(lk, &lk->lk)
    | AcqSet(r: int)               // lk->locked = 1
    | AcqPid(r: int)               // lk->pid = myproc()->pid
    | AcqDone(r: int)              // release(&lk->lk)
    | RelCall(r: int)              // releasesleep: acquire(&lk->lk)
    | RelClear(r: int)             // lk->locked = 0
    | RelPid(r: int)               // lk->pid = 0
    | RelWake(r: int)              // wakeup(lk)
    | RelDone(r: int)              // the rest of wakeup, release(&lk->lk)
    | HoldCall(r: int)             // holdingsleep: acquire(&lk->lk)
    | HoldRead(r: int)             // r = lk->locked && (lk->pid == myproc()->pid)
    | HoldDone(r: int, holds: bool)  // release(&lk->lk)
    | Told(r: int, holds: bool)    // holdingsleep has returned

  /** locks are the channels that are sleep locks; pid their pid fields.  mine[p] are the locks
      for which a call of acquiresleep by p has returned and p has not called releasesleep since. */
  datatype LState = LState(sys: State, phase: seq<Phase>, pid: seq<int>, mine: seq<set<int>>, locks: set<int>)

  datatype LStep =
    | Sys(t: Step)                     // inside sleep, wakeup and the scheduler, or of other code
    | CallAcquire(p: int, r: int)
    | CallRelease(p: int, r: int)
    | CallHolding(p: int, r: int)
    | Go(p: int)                       // the next statement of the call p is in

  function Actor(step: LStep): int
  {
    match step
    case Sys(t) => t.p
    case CallAcquire(p, _) => p
    case CallRelease(p, _) => p
    case CallHolding(p, _) => p
    case Go(p) => p
  }

  function PidOf(p: int): int { p + 1 }

  ghost predicate LSized(s: LState)
  {
    && Sized(s.sys) && |s.phase| == |s.mine| == |s.sys.pc| && |s.pid| == |s.sys.ready|
    && (forall r :: r in s.locks ==> 0 <= r < |s.sys.ready|)
  }

  ghost predicate LProc(s: LState, p: int) { LSized(s) && 0 <= p < |s.phase| }

  ghost predicate LLock(s: LState, r: int) { LSized(s) && r in s.locks }

  /** Not inside one of the three functions. */
  predicate Out(ph: Phase) { ph.Idle? || ph.Told? }

  // ---- the steps ----

  /** Other code does not touch the fields of sleep locks, nor sleep on them. */
  predicate Elsewhere(t: Step, locks: set<int>)
  {
    t.Acquire? || t.Release? || ((t.MakeTrue? || t.MakeFalse? || t.Test? || t.CallWakeup?) && t.r !in locks)
  }

  ghost predicate Enabled(s: LState, step: LStep)
  {
    LProc(s, Actor(step)) && var p := Actor(step);
    match step
    case Sys(t) => Inner(t) || (Out(s.phase[p]) && Elsewhere(t, s.locks))
    case CallAcquire(_, r) => Out(s.phase[p]) && s.sys.pc[p] == Outside && r in s.locks
    case CallRelease(_, r) => Out(s.phase[p]) && s.sys.pc[p] == Outside && r in s.locks && (r in s.mine[p] || s.phase[p] == Told(r, true))
    case CallHolding(_, r) => Out(s.phase[p]) && s.sys.pc[p] == Outside && r in s.locks
    case Go(_) => !Out(s.phase[p]) && LLock(s, s.phase[p].r) && (s.sys.pc[p].Inside? || s.sys.pc[p] == Outside)
  }

  /** What a step does to the state of SleepWakeup. */
  ghost function WorkOf(s: LState, step: LStep): Work
    requires Enabled(s, step)
  {
    match step
    case Sys(t) => Does(t)
    case Go(p) =>
      var r := s.phase[p].r;
      (match s.phase[p]
       case AcqCall(_) => Does(Acquire(p, s.sys.lockOf[r]))
       case AcqTest(_) => if s.sys.ready[r] then Nothing else Does(Test(p, r))
       case AcqSet(_) => Does(MakeFalse(p, r))
       case AcqDone(_) => Does(Release(p))
       case RelCall(_) => Does(Acquire(p, s.sys.lockOf[r]))
       case RelClear(_) => Does(MakeTrue(p, r))
       case RelWake(_) => Does(CallWakeup(p, r))
       case RelDone(_) => Does(Release(p))
       case HoldCall(_) => Does(Acquire(p, s.sys.lockOf[r]))
       case HoldDone(_, _) => Does(Release(p))
       case _ => Nothing)
    case _ => Nothing
  }

  ghost function PhaseAfter(s: LState, step: LStep): Phase
    requires Enabled(s, step)
  {
    match step
    case Sys(t) => s.phase[t.p]
    case CallAcquire(_, r) => AcqCall(r)
    case CallRelease(_, r) => RelCall(r)
    case CallHolding(_, r) => HoldCall(r)
    case Go(p) =>
      var r := s.phase[p].r;
      match s.phase[p]
      case AcqCall(_) => AcqTest(r)
      case AcqTest(_) => if s.sys.ready[r] then AcqSet(r) else AcqTest(r)
      case AcqSet(_) => AcqPid(r)
      case AcqPid(_) => AcqDone(r)
      case AcqDone(_) => Idle
      case RelCall(_) => RelClear(r)
      case RelClear(_) => RelPid(r)
      case RelPid(_) => RelWake(r)
      case RelWake(_) => RelDone(r)
      case RelDone(_) => Idle
      case HoldCall(_) => HoldRead(r)
      case HoldRead(_) => HoldDone(r, !s.sys.ready[r] && s.pid[r] == PidOf(p))
      case HoldDone(_, holds) => Told(r, holds)
      case _ => Idle
  }

  ghost function PidAfter(s: LState, step: LStep): seq<int>
    requires Enabled(s, step)
  {
    if step.Go? && s.phase[step.p].AcqPid? then s.pid[s.phase[step.p].r := PidOf(step.p)]
    else if step.Go? && s.phase[step.p].RelPid? then s.pid[s.phase[step.p].r := 0]
    else s.pid
  }

  ghost function MineAfter(s: LState, step: LStep): set<int>
    requires Enabled(s, step)
  {
    var mine := s.mine[Actor(step)];
    if step.CallRelease? then mine - {step.r}
    else if step.Go? && s.phase[step.p].AcqDone? then mine + {s.phase[step.p].r}
    else mine
  }

  ghost predicate LNext(s: LState, s': LState, step: LStep)
  {
    && Enabled(s, step)
    && SysMove(s.sys, s'.sys, WorkOf(s, step))
    && var p := Actor(step);
       s' == LState(s'.sys, s.phase[p := PhaseAfter(s, step)], PidAfter(s, step), s.mine[p := MineAfter(s, step)], s.locks)
  }

  // ---- the invariant ----

  /** Outside the three functions a thread has nothing to do with sleep locks. */
  ghost predicate Foreign(pc: Pc, locks: set<int>)
  {
    match pc
    case Outside => true
    case Inside(_, owes) => owes !! locks
    case Waking(_, owes, r, _) => owes !! locks && r !in locks
    case WakingLocked(_, owes, r, _) => owes !! locks && r !in locks
    case Tested(r) => r !in locks
    case Both(r) => r !in locks
    case Own(r) => r !in locks
    case Leaving(r) => r !in locks
    case Away(r) => r !in locks
    case Back(r) => r !in locks
    case Relock(r) => r !in locks
  }

  /** In sleep(lk), or about to test locked. */
  ghost predicate InTest(pc: Pc, l: int, r: int)
  {
    pc == Inside(l, {}) || pc == Tested(r) || pc == Both(r) || pc == Own(r) || pc == Leaving(r) || pc == Away(r) || pc == Back(r) || pc == Relock(r)
  }

  ghost predicate InWakeup(pc: Pc, l: int, r: int)
  {
    match pc
    case Inside(m, owes) => m == l && owes == {}
    case Waking(m, owes, q, _) => m == l && owes == {} && q == r
    case WakingLocked(m, owes, q, _) => m == l && owes == {} && q == r
    case _ => false
  }

  ghost predicate PhaseAt(s: LState, p: int)
  {
    LProc(s, p) ==>
      && s.mine[p] <= s.locks
      && var pc, ph := s.sys.pc[p], s.phase[p];
      if Out(ph) then Foreign(pc, s.locks) && (ph.Told? ==> (ph.holds <==> ph.r in s.mine[p]))
      else
        && ph.r in s.locks && var r, l := ph.r, s.sys.lockOf[ph.r];
        match ph
        case AcqCall(_) => pc == Outside
        case RelCall(_) => pc == Outside && r !in s.mine[p]
        case HoldCall(_) => pc == Outside
        case AcqTest(_) => InTest(pc, l, r)
        case AcqSet(_) => pc == Inside(l, {}) && s.sys.ready[r]
        case AcqPid(_) => pc == Inside(l, {}) && r !in s.mine[p]
        case AcqDone(_) => pc == Inside(l, {}) && r !in s.mine[p]
        case RelClear(_) => pc == Inside(l, {}) && r !in s.mine[p]
        case RelPid(_) => pc == Inside(l, {r}) && s.sys.ready[r]
        case RelWake(_) => pc == Inside(l, {r})
        case RelDone(_) => InWakeup(pc, l, r)
        case HoldDone(_, holds) => pc == Inside(l, {}) && (holds <==> r in s.mine[p])
        case _ => pc == Inside(l, {})
  }

  /** p has set locked and not cleared it since. */
  ghost predicate Owns(s: LState, p: int, r: int)
  {
    LProc(s, p) && (r in s.mine[p] || s.phase[p] == AcqPid(r) || s.phase[p] == AcqDone(r) || s.phase[p] == RelCall(r) || s.phase[p] == RelClear(r))
  }

  ghost predicate OwnAt(s: LState, p: int, r: int)
  {
    Owns(s, p, r) && LLock(s, r) ==> !s.sys.ready[r] && (s.phase[p] != AcqPid(r) ==> s.pid[r] == PidOf(p))
  }

  ghost predicate OneAt(s: LState, p: int, q: int, r: int)
  {
    Owns(s, p, r) && Owns(s, q, r) && LLock(s, r) ==> p == q
  }

  ghost predicate TakenAt(s: LState, r: int)
  {
    LLock(s, r) && !s.sys.ready[r] ==> exists p :: Owns(s, p, r)
  }

  ghost predicate LInv(s: LState)
  {
    && LSized(s) && Inv(s.sys)
    && (forall p {:trigger PhaseAt(s, p)} :: PhaseAt(s, p))
    && (forall p, r {:trigger OwnAt(s, p, r)} :: OwnAt(s, p, r))
    && (forall p, q, r {:trigger OneAt(s, p, q, r)} :: OneAt(s, p, q, r))
    && (forall r {:trigger TakenAt(s, r)} :: TakenAt(s, r))
  }

  // ---- every step keeps it ----

  /** What any step leaves alone. */
  ghost predicate LFrame(s: LState, s': LState, a: int)
  {
    && LSized(s) && LSized(s') && LProc(s, a) && |s'.phase| == |s.phase| && s'.locks == s.locks && s'.sys.lockOf == s.sys.lockOf && |s'.pid| == |s.pid|
    && (forall p :: 0 <= p < |s.phase| && p != a ==> s'.phase[p] == s.phase[p] && s'.mine[p] == s.mine[p] && s'.sys.pc[p] == s.sys.pc[p])
  }

  lemma LFramed(s: LState, s': LState, step: LStep)
    requires LInv(s) && LNext(s, s', step)
    ensures LFrame(s, s', Actor(step)) && Inv(s'.sys)
  {
    hide PhaseAt, OwnAt, OneAt, TakenAt, LockAt, PlockAt, ThreadAt, HeardAt;
    var w := WorkOf(s, step);
    if w.Does? {
      Framed(s.sys, s'.sys, w.t);
      Keeps(s.sys, s'.sys, w.t);
    }
  }

  /** Only the two assignments in the code change whether a sleep lock is locked. */
  lemma ReadySame(s: LState, s': LState, step: LStep, r: int)
    requires LInv(s) && LNext(s, s', step) && LFrame(s, s', Actor(step)) && LLock(s, r)
    requires !(step.Go? && (s.phase[step.p] == AcqSet(r) || s.phase[step.p] == RelClear(r)))
    ensures s'.sys.ready[r] == s.sys.ready[r]
  {
    hide PhaseAt, OwnAt, OneAt, TakenAt, Inv;
  }

  lemma InsideOwn(s: LState, p: int)
    requires LInv(s) && LProc(s, p) && (s.phase[p].AcqSet? || s.phase[p].RelClear? || s.phase[p].RelPid? || s.phase[p].AcqPid? || s.phase[p].HoldRead?)
    ensures LLock(s, s.phase[p].r) && s.sys.pc[p].Inside? && s.sys.pc[p].l == s.sys.lockOf[s.phase[p].r]
    ensures 0 <= s.sys.lockOf[s.phase[p].r] < |s.sys.lock|
  {
    assert PhaseAt(s, p);
  }

  /** While one thread is at an assignment to a lock's fields no other is at one. */
  lemma OneWriter(s: LState, p: int, q: int)
    requires LInv(s) && LProc(s, p) && LProc(s, q)
    requires s.phase[p].AcqSet? || s.phase[p].RelClear? || s.phase[p].RelPid? || s.phase[p].AcqPid? || s.phase[p].HoldRead?
    requires s.phase[q].AcqSet? || s.phase[q].RelClear? || s.phase[q].RelPid? || s.phase[q].AcqPid? || s.phase[q].HoldRead?
    requires s.phase[p].r == s.phase[q].r
    ensures p == q
  {
    InsideOwn(s, p);
    InsideOwn(s, q);
    OneInside(s.sys, p, q, s.sys.lockOf[s.phase[p].r]);
  }

  lemma OtherPhase(s: LState, s': LState, step: LStep, p: int)
    requires LInv(s) && LNext(s, s', step) && LFrame(s, s', Actor(step)) && LProc(s, p) && p != Actor(step)
    ensures PhaseAt(s', p)
  {
    assert PhaseAt(s, p);
    var ph := s.phase[p];
    if ph.AcqSet? || ph.RelPid? {
      if step.Go? && (s.phase[step.p] == AcqSet(ph.r) || s.phase[step.p] == RelClear(ph.r)) { OneWriter(s, step.p, p); }
      ReadySame(s, s', step, ph.r);
    }
    hide LInv, LNext, Foreign, InTest, InWakeup;
  }

  lemma SysPhase(s: LState, s': LState, step: LStep)
    requires LInv(s) && LNext(s, s', step) && LFrame(s, s', Actor(step)) && step.Sys?
    ensures PhaseAt(s', step.t.p)
  {
    var p, ph := step.t.p, s.phase[step.t.p];
    assert PhaseAt(s, p) && ThreadAt(s.sys, p);
    hide LInv, LFrame;
  }

  lemma CallPhase(s: LState, s': LState, step: LStep)
    requires LInv(s) && LNext(s, s', step) && LFrame(s, s', Actor(step)) && (step.CallAcquire? || step.CallRelease? || step.CallHolding?)
    ensures PhaseAt(s', step.p)
  {
    assert PhaseAt(s, step.p);
    hide LInv, LFrame;
  }

  /** What holdingsleep reads is whether the caller holds the lock. */
  lemma ReadRight(s: LState, p: int, r: int)
    requires LInv(s) && LProc(s, p) && s.phase[p] == HoldRead(r) && LLock(s, r)
    ensures !s.sys.ready[r] && s.pid[r] == PidOf(p) <==> r in s.mine[p]
  {
    if r in s.mine[p] { assert Owns(s, p, r) && OwnAt(s, p, r); }
    if !s.sys.ready[r] && s.pid[r] == PidOf(p) {
      assert TakenAt(s, r);
      var q :| Owns(s, q, r);
      assert OwnAt(s, q, r);
      if s.phase[q] == AcqPid(r) { OneWriter(s, p, q); }
    }
  }

  /** A thread that finds the lock free does not hold it. */
  lemma FreeNotMine(s: LState, p: int, r: int)
    requires LInv(s) && LProc(s, p) && LLock(s, r) && s.sys.ready[r]
    ensures r !in s.mine[p]
  {
    if r in s.mine[p] { assert Owns(s, p, r) && OwnAt(s, p, r); }
  }

  lemma GoPhase(s: LState, s': LState, step: LStep)
    requires LInv(s) && LNext(s, s', step) && LFrame(s, s', Actor(step)) && step.Go?
    ensures PhaseAt(s', step.p)
  {
    var p, ph := step.p, s.phase[step.p];
    assert PhaseAt(s, p);
    if ph.HoldRead? { ReadRight(s, p, ph.r); }
    if s.sys.ready[ph.r] { FreeNotMine(s, p, ph.r); }
    if ph.AcqTest? || ph.RelPid? { ReadySame(s, s', step, ph.r); }
    hide LInv, LFrame;
  }

  lemma KeepsPhases(s: LState, s': LState, step: LStep)
    requires LInv(s) && LNext(s, s', step) && LFrame(s, s', Actor(step))
    ensures forall p :: PhaseAt(s', p)
  {
    forall p ensures PhaseAt(s', p) {
      hide LInv, LNext, PhaseAt;
      if LProc(s', p) {
        if p != Actor(step) { OtherPhase(s, s', step, p); }
        else if step.Sys? { SysPhase(s, s', step); }
        else if step.Go? { GoPhase(s, s', step); }
        else { CallPhase(s, s', step); }
      } else {
        NoThread(s', p);
      }
    }
  }

  lemma NoThread(s: LState, p: int)
    requires !LProc(s, p)
    ensures PhaseAt(s, p)
  {
  }

  // ---- who holds a lock ----

  /** The thread that sets locked finds it clear, so nobody owns the lock. */
  lemma NobodyYet(s: LState, p: int, r: int, q: int)
    requires LInv(s) && LProc(s, p) && s.phase[p] == AcqSet(r) && LLock(s, r)
    ensures !Owns(s, q, r)
  {
    assert PhaseAt(s, p) && OwnAt(s, q, r);
  }

  /** Who owns a lock afterwards owned it before, or has just set locked. */
  lemma OwnedBefore(s: LState, s': LState, step: LStep, p: int, r: int)
    requires LInv(s) && LNext(s, s', step) && LFrame(s, s', Actor(step)) && LLock(s, r) && Owns(s', p, r)
    ensures Owns(s, p, r) || (step == Go(p) && s.phase[p] == AcqSet(r))
  {
    if p == Actor(step) { assert PhaseAt(s, p); }
    hide LInv, SysMove;
  }

  /** And who owned it before still does, unless it has just cleared locked. */
  lemma OwnedStill(s: LState, s': LState, step: LStep, p: int, r: int)
    requires LInv(s) && LNext(s, s', step) && LFrame(s, s', Actor(step)) && LLock(s, r) && Owns(s, p, r)
    ensures Owns(s', p, r) || (step == Go(p) && s.phase[p] == RelClear(r))
  {
    if p == Actor(step) { assert PhaseAt(s, p); }
    hide LInv, SysMove;
  }

  lemma SetsLocked(s: LState, s': LState, p: int, r: int)
    requires LInv(s) && LProc(s, p) && LLock(s, r) && LNext(s, s', Go(p)) && LFrame(s, s', p) && s.phase[p] == AcqSet(r)
    ensures !s'.sys.ready[r] && s'.phase[p] == AcqPid(r) && s'.pid == s.pid && r !in s'.mine[p]
  {
    assert PhaseAt(s, p);
    FreeNotMine(s, p, r);
    hide LInv;
  }

  lemma ClearsLocked(s: LState, s': LState, p: int, r: int)
    requires LInv(s) && LProc(s, p) && LLock(s, r) && LNext(s, s', Go(p)) && LFrame(s, s', p) && s.phase[p] == RelClear(r)
    ensures s'.sys.ready[r] && Owns(s, p, r) && !Owns(s', p, r)
  {
    assert PhaseAt(s, p);
    hide LInv;
  }

  lemma KeepsOwn(s: LState, s': LState, step: LStep, p: int, r: int)
    requires LInv(s) && LNext(s, s', step) && LFrame(s, s', Actor(step))
    ensures OwnAt(s', p, r)
  {
    if Owns(s', p, r) && LLock(s', r) {
      OwnedBefore(s, s', step, p, r);
      if step == Go(p) && s.phase[p] == AcqSet(r) {
        SetsLocked(s, s', p, r);
      } else {
        assert OwnAt(s, p, r);
        if step.Go? && s.phase[step.p] == AcqSet(r) { NobodyYet(s, step.p, r, p); }
        if step.Go? && s.phase[step.p] == RelClear(r) {
          assert OneAt(s, p, step.p, r);
          ClearsLocked(s, s', step.p, r);
        }
        ReadySame(s, s', step, r);
        PidSame(s, s', step, p, r);
      }
    }
  }

  /** The pid of a lock that is held is its holder's. */
  lemma PidSame(s: LState, s': LState, step: LStep, p: int, r: int)
    requires LInv(s) && LNext(s, s', step) && LFrame(s, s', Actor(step)) && LLock(s, r) && Owns(s, p, r) && Owns(s', p, r)
    ensures s'.phase[p] != AcqPid(r) ==> s'.pid[r] == PidOf(p)
  {
    assert OwnAt(s, p, r);
    var a := Actor(step);
    assert PhaseAt(s, a) && PhaseAt(s, p);
    if step.Go? && s.phase[a] == AcqPid(r) { assert Owns(s, a, r) && OneAt(s, p, a, r); }
    hide LInv, SysMove;
  }

  lemma KeepsOne(s: LState, s': LState, step: LStep, p: int, q: int, r: int)
    requires LInv(s) && LNext(s, s', step) && LFrame(s, s', Actor(step))
    ensures OneAt(s', p, q, r)
  {
    if Owns(s', p, r) && Owns(s', q, r) && LLock(s', r) {
      OwnedBefore(s, s', step, p, r);
      OwnedBefore(s, s', step, q, r);
      assert OneAt(s, p, q, r);
      if step.Go? && s.phase[step.p] == AcqSet(r) {
        NobodyYet(s, step.p, r, p);
        NobodyYet(s, step.p, r, q);
      }
    }
  }

  lemma KeepsTaken(s: LState, s': LState, step: LStep, r: int)
    requires LInv(s) && LNext(s, s', step) && LFrame(s, s', Actor(step))
    ensures TakenAt(s', r)
  {
    if LLock(s', r) && !s'.sys.ready[r] {
      if step.Go? && s.phase[step.p] == AcqSet(r) {
        SetsLocked(s, s', step.p, r);
        assert Owns(s', step.p, r);
      } else {
        if step.Go? && s.phase[step.p] == RelClear(r) { ClearsLocked(s, s', step.p, r); }
        ReadySame(s, s', step, r);
        assert TakenAt(s, r);
        var p :| Owns(s, p, r);
        OwnedStill(s, s', step, p, r);
        assert Owns(s', p, r);
      }
    }
  }

  /** Every step of every thread keeps the invariant. */
  lemma LKeeps(s: LState, s': LState, step: LStep)
    requires LInv(s) && LNext(s, s', step)
    ensures LInv(s')
  {
    LFramed(s, s', step);
    KeepsPhases(s, s', step);
    forall p, r ensures OwnAt(s', p, r) { KeepsOwn(s, s', step, p, r); }
    forall p, q, r ensures OneAt(s', p, q, r) { KeepsOne(s, s', step, p, q, r); }
    forall r ensures TakenAt(s', r) { KeepsTaken(s, s', step, r); }
    hide LNext, PhaseAt, OwnAt, OneAt, TakenAt, Inv;
  }

  // ---- whole runs ----

  ghost predicate LInit(s: LState)
  {
    && LSized(s) && Init(s.sys)
    && (forall p :: 0 <= p < |s.phase| ==> s.phase[p] == Idle && s.mine[p] == {})
    && (forall r :: r in s.locks ==> s.sys.ready[r])
  }

  datatype LRun = LStart | LThen(before: LRun, s: LState, step: LStep)

  ghost predicate LLeads(run: LRun, first: LState, s: LState)
  {
    match run
    case LStart => LInit(first) && s == first
    case LThen(before, t, step) => LLeads(before, first, t) && LNext(t, s, step)
  }

  lemma {:induction false} LRunKeeps(run: LRun, first: LState, s: LState)
    requires LLeads(run, first, s)
    ensures LInv(s)
  {
    match run
    case LStart =>
      RunKeeps(Start, first.sys, s.sys);
      forall p ensures PhaseAt(s, p) {}
      forall p, r ensures OwnAt(s, p, r) {}
      forall p, q, r ensures OneAt(s, p, q, r) {}
      forall r ensures TakenAt(s, r) {}
    case LThen(before, t, step) =>
      hide LNext, LInv;
      LRunKeeps(before, first, t);
      LKeeps(t, s, step);
  }

  /** A run of the three functions, seen as a run of SleepWakeup. */
  ghost function Seen(run: LRun): Run
  {
    match run
    case LStart => Start
    case LThen(before, t, step) =>
      if Enabled(t, step) && WorkOf(t, step).Does? then Then(Seen(before), t.sys, WorkOf(t, step).t) else Seen(before)
  }

  lemma {:induction false} SeenLeads(run: LRun, first: LState, s: LState)
    requires LLeads(run, first, s)
    ensures Leads(Seen(run), first.sys, s.sys)
  {
    match run
    case LStart =>
    case LThen(before, t, step) => SeenLeads(before, first, t); hide Next, Init, WorkOf;
  }

  /** In every interleaving at most one thread is between the return of acquiresleep and its call
      of releasesleep. */
  lemma OneSleepHolder(run: LRun, first: LState, s: LState, p: int, q: int, r: int)
    requires LLeads(run, first, s) && LProc(s, p) && LProc(s, q) && LLock(s, r) && r in s.mine[p] && r in s.mine[q]
    ensures p == q
  {
    LRunKeeps(run, first, s);
    assert Owns(s, p, r) && Owns(s, q, r) && OneAt(s, p, q, r);
  }

  /** holdingsleep tells a thread the truth about itself. */
  lemma HoldingRight(run: LRun, first: LState, s: LState, p: int, r: int, holds: bool)
    requires LLeads(run, first, s) && LProc(s, p) && s.phase[p] == Told(r, holds)
    ensures holds <==> r in s.mine[p]
  {
    LRunKeeps(run, first, s);
    assert PhaseAt(s, p);
  }

  /** While nobody holds the lock, everyone who sleeps waiting for it is about to be woken by a
      thread in releasesleep. */
  lemma FreeWakes(run: LRun, first: LState, s: LState, p: int, r: int)
    requires LLeads(run, first, s) && LProc(s, p) && LLock(s, r) && s.sys.status[p] == Sleeping && s.sys.chan[p] == r
    requires forall q :: !Owns(s, q, r)
    ensures exists q :: q != p && Pending(s.sys, q, r, p) && LProc(s, q) && s.phase[q] in {RelPid(r), RelWake(r), RelDone(r)}
  {
    LRunKeeps(run, first, s);
    SeenLeads(run, first, s);
    assert TakenAt(s, r);
    NoLostWakeup(Seen(run), first.sys, s.sys, p, r);
    var q :| q != p && Pending(s.sys, q, r, p);
    assert PhaseAt(s, q);
    OwesItself(s, q, r, p);
  }

  lemma OwesItself(s: LState, q: int, r: int, p: int)
    requires LProc(s, q) && PhaseAt(s, q) && Pending(s.sys, q, r, p) && LLock(s, r)
    ensures s.phase[q] in {RelPid(r), RelWake(r), RelDone(r)}
  {
  }
}
