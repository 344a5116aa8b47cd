/** sleep and wakeup (kernel/proc.c 641-686) as a step relation over any number of processes,
    locks and channels, and why no wakeup is lost. */
module SleepWakeup {

  const FREE := -1

  datatype Status = Running | Runnable | Sleeping

  /** Where the kernel thread of a process is.  owes are the channels whose condition it has made
      true since it last called wakeup on them. */
  datatype Pc =
    | Outside
    | Inside(l: int, owes: set<int>)                     // holds lock l
    | Tested(r: int)                                     // holds its lock, has found condition r false and called sleep
    | Both(r: int)                                       // holds that lock and its own p->lock
    | Own(r: int)                                        // has released that lock
    | Leaving(r: int)                                    // SLEEPING; p->lock is still held across swtch
    | Away(r: int)                                       // switched out; the scheduler has released p->lock
    | Back(r: int)                                       // switched in again, p->lock held
    | Relock(r: int)                                     // acquiring the lock again
    | Waking(l: int, owes: set<int>, r: int, i: int)     // in wakeup(r), about to lock slot i
    | WakingLocked(l: int, owes: set<int>, r: int, i: int)

  /** lockOf is fixed: the lock that protects each condition, whose channel bears its number. */
  datatype State = State(
    status: seq<Status>, chan: seq<int>, plock: seq<int>, pc: seq<Pc>,
    lock: seq<int>, ready: seq<bool>, lockOf: seq<int>)

  ghost predicate Sized(s: State)
  {
    && |s.status| == |s.chan| == |s.plock| == |s.pc| && |s.ready| == |s.lockOf|
    && forall r :: 0 <= r < |s.lockOf| ==> 0 <= s.lockOf[r] < |s.lock|
  }

  ghost predicate Proc(s: State, p: int) { 0 <= p < |s.pc| && Sized(s) }

  ghost predicate Chan(s: State, r: int) { 0 <= r < |s.ready| && Sized(s) }

  // ---- the steps ----

  datatype Step =
    | Acquire(p: int, l: int)              // acquire(lk)
    | Release(p: int)                      // release(lk), with no wakeup owed
    | MakeTrue(p: int, r: int)             // under its lock, condition r becomes true
    | MakeFalse(p: int, r: int)
    | Test(p: int, r: int)                 // condition r is false: sleep(r, lk)
    | LockOwn(p: int)                      // sleep: acquire(&p->lock)
    | DropLock(p: int)                     // sleep: release(lk)
    | GoToSleep(p: int)                    // sleep: p->chan = chan; p->state = SLEEPING
    | SwitchedOut(p: int)                  // scheduler, after swtch: release(&p->lock)
    | SwitchIn(p: int)                     // scheduler: acquire(&p->lock), RUNNING, swtch
    | TidyUp(p: int)                       // sleep: p->chan = 0; release(&p->lock)
    | Retake(p: int)                       // sleep: acquire(lk)
    | CallWakeup(p: int, r: int)           // wakeup(r)
    | LockSlot(p: int)                     // wakeup: acquire(&proc[i].lock)
    | WakeSlot(p: int)                     // wakeup: test, maybe RUNNABLE, release, next slot
    | EndWakeup(p: int)
    | Kill(p: int)                         // kill: a sleeper is made RUNNABLE under its lock

  ghost predicate Next(s: State, s': State, step: Step)
  {
    && Proc(s, step.p)
    && var p := step.p;
    match step
    case Acquire(_, l) =>
      s.pc[p] == Outside && 0 <= l < |s.lock| && s.lock[l] == FREE && s' == s.(pc := s.pc[p := Inside(l, {})], lock := s.lock[l := p])
    case Release(_) =>
      s.pc[p].Inside? && s.pc[p].owes == {} && 0 <= s.pc[p].l < |s.lock| && s' == s.(pc := s.pc[p := Outside], lock := s.lock[s.pc[p].l := FREE])
    case MakeTrue(_, r) =>
      Chan(s, r) && s.pc[p].Inside? && s.pc[p].l == s.lockOf[r]
      && s' == s.(pc := s.pc[p := Inside(s.pc[p].l, s.pc[p].owes + {r})], ready := s.ready[r := true])
    case MakeFalse(_, r) =>
      Chan(s, r) && s.pc[p].Inside? && s.pc[p].l == s.lockOf[r] && s' == s.(ready := s.ready[r := false])
    case Test(_, r) =>
      Chan(s, r) && s.pc[p].Inside? && s.pc[p].l == s.lockOf[r] && s.pc[p].owes == {} && !s.ready[r] && s' == s.(pc := s.pc[p := Tested(r)])
    case LockOwn(_) =>
      s.pc[p].Tested? && s.plock[p] == FREE && s' == s.(pc := s.pc[p := Both(s.pc[p].r)], plock := s.plock[p := p])
    case DropLock(_) =>
      s.pc[p].Both? && Chan(s, s.pc[p].r) && s' == s.(pc := s.pc[p := Own(s.pc[p].r)], lock := s.lock[s.lockOf[s.pc[p].r] := FREE])
    case GoToSleep(_) =>
      s.pc[p].Own? && s' == s.(pc := s.pc[p := Leaving(s.pc[p].r)], chan := s.chan[p := s.pc[p].r], status := s.status[p := Sleeping])
    case SwitchedOut(_) =>
      s.pc[p].Leaving? && s' == s.(pc := s.pc[p := Away(s.pc[p].r)], plock := s.plock[p := FREE])
    case SwitchIn(_) =>
      s.pc[p].Away? && s.status[p] == Runnable && s.plock[p] == FREE
      && s' == s.(pc := s.pc[p := Back(s.pc[p].r)], plock := s.plock[p := p], status := s.status[p := Running])
    case TidyUp(_) =>
      s.pc[p].Back? && s' == s.(pc := s.pc[p := Relock(s.pc[p].r)], plock := s.plock[p := FREE], chan := s.chan[p := FREE])
    case Retake(_) =>
      s.pc[p].Relock? && Chan(s, s.pc[p].r) && s.lock[s.lockOf[s.pc[p].r]] == FREE
      && s' == s.(pc := s.pc[p := Inside(s.lockOf[s.pc[p].r], {})], lock := s.lock[s.lockOf[s.pc[p].r] := p])
    case CallWakeup(_, r) =>
      s.pc[p].Inside? && s' == s.(pc := s.pc[p := Waking(s.pc[p].l, s.pc[p].owes - {r}, r, 0)])
    case LockSlot(_) =>
      s.pc[p].Waking? && 0 <= s.pc[p].i < |s.pc| && s.plock[s.pc[p].i] == FREE
      && s' == s.(pc := s.pc[p := WakingLocked(s.pc[p].l, s.pc[p].owes, s.pc[p].r, s.pc[p].i)], plock := s.plock[s.pc[p].i := p])
    case WakeSlot(_) =>
      s.pc[p].WakingLocked? && 0 <= s.pc[p].i < |s.pc| && var i := s.pc[p].i;
      s' == s.(pc := s.pc[p := Waking(s.pc[p].l, s.pc[p].owes, s.pc[p].r, i + 1)], plock := s.plock[i := FREE],
               status := if s.status[i] == Sleeping && s.chan[i] == s.pc[p].r then s.status[i := Runnable] else s.status)
    case EndWakeup(_) =>
      s.pc[p].Waking? && s.pc[p].i == |s.pc| && s' == s.(pc := s.pc[p := Inside(s.pc[p].l, s.pc[p].owes)])
    case Kill(_) =>
      s.plock[p] == FREE && s.status[p] == Sleeping && s' == s.(status := s.status[p := Runnable])
  }

  // ---- the invariant ----

  /** The thread at pc holds lock l. */
  ghost predicate HasLock(s: State, pc: Pc, l: int)
  {
    match pc
    case Inside(l', _) => l' == l
    case Tested(r) => Chan(s, r) && s.lockOf[r] == l
    case Both(r) => Chan(s, r) && s.lockOf[r] == l
    case Waking(l', _, _, _) => l' == l
    case WakingLocked(l', _, _, _) => l' == l
    case _ => false
  }

  /** The thread of q, at pc, holds the lock of process p. */
  ghost predicate HasProc(pc: Pc, q: int, p: int)
  {
    match pc
    case Both(_) => q == p
    case Own(_) => q == p
    case Leaving(_) => q == p
    case Back(_) => q == p
    case WakingLocked(_, _, _, i) => i == p
    case _ => false
  }

  ghost predicate LockAt(s: State, p: int, l: int)
  {
    Proc(s, p) && 0 <= l < |s.lock| ==> (s.lock[l] == p <==> HasLock(s, s.pc[p], l))
  }

  ghost predicate PlockAt(s: State, q: int, p: int)
  {
    Proc(s, q) && Proc(s, p) ==> (s.plock[p] == q <==> HasProc(s.pc[q], q, p))
  }

  ghost predicate ThreadAt(s: State, p: int)
  {
    Proc(s, p) ==>
      match s.pc[p]
      case Outside => s.status[p] == Running
      case Inside(l, owes) => s.status[p] == Running && 0 <= l < |s.lock| && forall r :: r in owes ==> Chan(s, r) && s.lockOf[r] == l
      case Tested(r) => s.status[p] == Running && Chan(s, r) && !s.ready[r]
      case Both(r) => s.status[p] == Running && Chan(s, r) && !s.ready[r]
      case Own(r) => s.status[p] == Running && Chan(s, r)
      case Leaving(r) => s.status[p] == Sleeping && Chan(s, r) && s.chan[p] == r
      case Away(r) => s.status[p] != Running && Chan(s, r) && s.chan[p] == r
      case Back(r) => s.status[p] == Running && Chan(s, r)
      case Relock(r) => s.status[p] == Running && Chan(s, r)
      case Waking(l, owes, r, i) => s.status[p] == Running && 0 <= l < |s.lock| && 0 <= i <= |s.pc| && forall r :: r in owes ==> Chan(s, r) && s.lockOf[r] == l
      case WakingLocked(l, owes, r, i) => s.status[p] == Running && 0 <= l < |s.lock| && 0 <= i < |s.pc| && forall r :: r in owes ==> Chan(s, r) && s.lockOf[r] == l
  }

  /** q has yet to call wakeup(r), or is in it and has not passed slot p. */
  ghost predicate Pending(s: State, q: int, r: int, p: int)
  {
    Proc(s, q) &&
    match s.pc[q]
    case Inside(_, owes) => r in owes
    case Waking(_, owes, r', i) => r in owes || (r' == r && i <= p)
    case WakingLocked(_, owes, r', i) => r in owes || (r' == r && i <= p)
    case _ => false
  }

  /** p has let go of the lock under which it found condition r false, and will not look again
      before it is woken. */
  ghost predicate Committed(s: State, p: int, r: int)
  {
    Proc(s, p) && (s.pc[p] == Own(r) || (s.status[p] == Sleeping && (s.pc[p] == Leaving(r) || s.pc[p] == Away(r))))
  }

  ghost predicate HeardAt(s: State, p: int, r: int)
  {
    Committed(s, p, r) && Chan(s, r) && s.ready[r] ==> exists q :: Pending(s, q, r, p)
  }

  ghost predicate Inv(s: State)
  {
    && Sized(s)
    && (forall p, l {:trigger LockAt(s, p, l)} :: LockAt(s, p, l))
    && (forall q, p {:trigger PlockAt(s, q, p)} :: PlockAt(s, q, p))
    && (forall p {:trigger ThreadAt(s, p)} :: ThreadAt(s, p))
    && (forall p, r {:trigger HeardAt(s, p, r)} :: HeardAt(s, p, r))
  }

  // ---- every step keeps it ----

  /** Threads other than the one that steps, and the fixed parts. */
  ghost predicate Frame(s: State, s': State, a: int)
  {
    Sized(s) && Sized(s') && Proc(s, a) && |s'.pc| == |s.pc| && |s'.lock| == |s.lock| && s'.lockOf == s.lockOf && |s'.ready| == |s.ready|
    && forall p :: 0 <= p < |s.pc| && p != a ==> s'.pc[p] == s.pc[p]
  }

  lemma Framed(s: State, s': State, step: Step)
    requires Inv(s) && Next(s, s', step)
    ensures Frame(s, s', step.p)
  {
    assert ThreadAt(s, step.p);
  }

  /** Steps that neither take nor give up a condition's lock. */
  lemma SameLocks(s: State, s': State, a: int)
    requires Inv(s) && Frame(s, s', a) && s'.lock == s.lock && forall l :: HasLock(s', s'.pc[a], l) == HasLock(s, s.pc[a], l)
    ensures forall p, l :: LockAt(s', p, l)
  {
    forall p, l ensures LockAt(s', p, l) {
      assert LockAt(s, p, l);
    }
  }

  lemma TakesLock(s: State, s': State, a: int, l0: int)
    requires Inv(s) && Frame(s, s', a) && 0 <= l0 < |s.lock| && s.lock[l0] == FREE && s'.lock == s.lock[l0 := a]
    requires forall l :: HasLock(s', s'.pc[a], l) == (HasLock(s, s.pc[a], l) || l == l0)
    ensures forall p, l :: LockAt(s', p, l)
  {
    forall p, l ensures LockAt(s', p, l) {
      assert LockAt(s, p, l);
    }
  }

  lemma GivesLock(s: State, s': State, a: int, l0: int)
    requires Inv(s) && Frame(s, s', a) && 0 <= l0 < |s.lock| && HasLock(s, s.pc[a], l0) && s'.lock == s.lock[l0 := FREE]
    requires forall l :: HasLock(s', s'.pc[a], l) == (HasLock(s, s.pc[a], l) && l != l0)
    ensures forall p, l :: LockAt(s', p, l)
  {
    forall p, l ensures LockAt(s', p, l) {
      assert LockAt(s, p, l) && LockAt(s, a, l);
    }
  }

  lemma KeepsLocks(s: State, s': State, step: Step)
    requires Inv(s) && Next(s, s', step)
    ensures forall p, l :: LockAt(s', p, l)
  {
    Framed(s, s', step);
    var a := step.p;
    assert ThreadAt(s, a);
    match step
    case Acquire(_, l) => TakesLock(s, s', a, l);
    case Release(_) => GivesLock(s, s', a, s.pc[a].l);
    case DropLock(_) => GivesLock(s, s', a, s.lockOf[s.pc[a].r]);
    case Retake(_) => TakesLock(s, s', a, s.lockOf[s.pc[a].r]);
    case _ => SameLocks(s, s', a);
  }

  lemma SamePlocks(s: State, s': State, a: int)
    requires Inv(s) && Frame(s, s', a) && s'.plock == s.plock && forall p :: HasProc(s'.pc[a], a, p) == HasProc(s.pc[a], a, p)
    ensures forall q, p :: PlockAt(s', q, p)
  {
    forall q, p ensures PlockAt(s', q, p) {
      assert PlockAt(s, q, p);
    }
  }

  lemma TakesPlock(s: State, s': State, a: int, i: int)
    requires Inv(s) && Frame(s, s', a) && 0 <= i < |s.plock| && s.plock[i] == FREE && s'.plock == s.plock[i := a]
    requires forall p :: HasProc(s'.pc[a], a, p) == (HasProc(s.pc[a], a, p) || p == i)
    ensures forall q, p :: PlockAt(s', q, p)
  {
    forall q, p ensures PlockAt(s', q, p) {
      assert PlockAt(s, q, p);
    }
  }

  lemma GivesPlock(s: State, s': State, a: int, i: int)
    requires Inv(s) && Frame(s, s', a) && 0 <= i < |s.plock| && HasProc(s.pc[a], a, i) && s'.plock == s.plock[i := FREE]
    requires forall p :: HasProc(s'.pc[a], a, p) == (HasProc(s.pc[a], a, p) && p != i)
    ensures forall q, p :: PlockAt(s', q, p)
  {
    forall q, p ensures PlockAt(s', q, p) {
      assert PlockAt(s, q, p) && PlockAt(s, a, p);
    }
  }

  lemma KeepsPlocks(s: State, s': State, step: Step)
    requires Inv(s) && Next(s, s', step)
    ensures forall q, p :: PlockAt(s', q, p)
  {
    Framed(s, s', step);
    var a := step.p;
    assert ThreadAt(s, a);
    match step
    case LockOwn(_) => TakesPlock(s, s', a, a);
    case SwitchedOut(_) => GivesPlock(s, s', a, a);
    case SwitchIn(_) => TakesPlock(s, s', a, a);
    case TidyUp(_) => GivesPlock(s, s', a, a);
    case LockSlot(_) => TakesPlock(s, s', a, s.pc[a].i);
    case WakeSlot(_) => GivesPlock(s, s', a, s.pc[a].i);
    case _ => SamePlocks(s, s', a);
  }

  /** A thread that does not step, whose own fields do not change either. */
  lemma SameThread(s: State, s': State, a: int, p: int)
    requires ThreadAt(s, p) && Frame(s, s', a) && Proc(s, p) && p != a
    requires s'.status[p] == s.status[p] && s'.chan[p] == s.chan[p]
    requires forall r :: (s.pc[p] == Tested(r) || s.pc[p] == Both(r)) && Chan(s, r) ==> s'.ready[r] == s.ready[r]
    ensures ThreadAt(s', p)
  {
  }

  lemma WokenThread(s: State, s': State, a: int, p: int)
    requires ThreadAt(s, p) && Frame(s, s', a) && Proc(s, p) && p != a && s.pc[p].Away?
    requires s'.status[p] == Runnable && s'.chan[p] == s.chan[p]
    ensures ThreadAt(s', p)
  {
  }

  /** Only a thread that has been switched out is asleep while its lock is free for others. */
  lemma OnlyAway(s: State, q: int, p: int)
    requires Inv(s) && Proc(s, p) && s.status[p] == Sleeping && (s.plock[p] == FREE || (Proc(s, q) && q != p && s.plock[p] == q))
    ensures s.pc[p].Away?
  {
    assert ThreadAt(s, p) && PlockAt(s, p, p);
  }

  /** A condition found false under its lock stays so while others step. */
  lemma StillFalse(s: State, s': State, step: Step, p: int, r: int)
    requires Inv(s) && Next(s, s', step) && Proc(s, p) && p != step.p && Chan(s, r) && (s.pc[p] == Tested(r) || s.pc[p] == Both(r))
    ensures Chan(s', r) && s'.ready[r] == s.ready[r]
  {
    assert ThreadAt(s, step.p) && LockAt(s, p, s.lockOf[r]) && LockAt(s, step.p, s.lockOf[r]);
  }

  lemma SameFields(s: State, s': State, step: Step, p: int)
    requires Inv(s) && Next(s, s', step) && Proc(s, p) && p != step.p
    ensures |s'.status| == |s.status| && |s'.chan| == |s.chan| && s'.chan[p] == s.chan[p]
    ensures s'.status[p] == s.status[p] || (s'.status[p] == Runnable && s.pc[p].Away?)
  {
    assert ThreadAt(s, step.p);
    if step.WakeSlot? && s.pc[step.p].i == p && s.status[p] == Sleeping {
      assert PlockAt(s, step.p, p);
      OnlyAway(s, step.p, p);
    }
  }

  lemma OtherThread(s: State, s': State, step: Step, p: int)
    requires Inv(s) && Next(s, s', step) && Frame(s, s', step.p) && Proc(s, p) && p != step.p
    ensures ThreadAt(s', p)
  {
    assert ThreadAt(s, p);
    SameFields(s, s', step, p);
    forall r | (s.pc[p] == Tested(r) || s.pc[p] == Both(r)) && Chan(s, r) ensures s'.ready[r] == s.ready[r] {
      StillFalse(s, s', step, p, r);
    }
    hide Next;
    if s'.status[p] == s.status[p] { SameThread(s, s', step.p, p); } else { WokenThread(s, s', step.p, p); }
  }

  lemma OwnThread(s: State, s': State, step: Step)
    requires Inv(s) && Next(s, s', step) && Frame(s, s', step.p)
    ensures ThreadAt(s', step.p)
  {
    var a := step.p;
    assert ThreadAt(s, a);
    if step.Kill? { OnlyAway(s, a, a); }
    hide LockAt, PlockAt, HeardAt;
  }

  lemma KeepsThreads(s: State, s': State, step: Step)
    requires Inv(s) && Next(s, s', step)
    ensures forall p :: ThreadAt(s', p)
  {
    Framed(s, s', step);
    forall p ensures ThreadAt(s', p) {
      if Proc(s, p) {
        if p == step.p { OwnThread(s, s', step); } else { OtherThread(s, s', step, p); }
      }
    }
  }

  /** A wakeup still to come stays so, unless it has just passed the slot. */
  lemma StillPending(s: State, s': State, step: Step, q: int, r: int, p: int)
    requires Inv(s) && Next(s, s', step) && Frame(s, s', step.p) && Pending(s, q, r, p) && Proc(s, p)
    ensures Pending(s', q, r, p) || (step.WakeSlot? && q == step.p && s.pc[q].r == r && s.pc[q].i == p)
  {
    assert ThreadAt(s, q);
  }

  /** When a condition becomes true the thread that made it so owes a wakeup. */
  lemma NowTrue(s: State, s': State, step: Step, r: int)
    requires Inv(s) && Next(s, s', step) && Chan(s, r) && Chan(s', r) && s'.ready[r] && !s.ready[r]
    ensures forall p :: Pending(s', step.p, r, p)
  {
    assert ThreadAt(s, step.p);
  }

  /** Who is committed now and was not before had found the condition false, and it still is. */
  lemma NewlyCommitted(s: State, s': State, step: Step, p: int, r: int)
    requires Inv(s) && Next(s, s', step) && Committed(s', p, r) && !Committed(s, p, r) && Chan(s, r) && Frame(s, s', step.p)
    ensures !s'.ready[r]
  {
    assert ThreadAt(s, p) && ThreadAt(s, step.p);
  }

  /** A slot that wakeup has just dealt with does not go on sleeping. */
  lemma Dealt(s: State, s': State, step: Step, p: int, r: int)
    requires Inv(s) && Next(s, s', step) && Frame(s, s', step.p) && step.WakeSlot? && s.pc[step.p].r == r && s.pc[step.p].i == p
    ensures !Committed(s', p, r)
  {
    assert ThreadAt(s, p) && ThreadAt(s, step.p) && PlockAt(s, step.p, p) && PlockAt(s, p, p);
  }

  lemma KeepsHeard(s: State, s': State, step: Step)
    requires Inv(s) && Next(s, s', step)
    ensures forall p, r :: HeardAt(s', p, r)
  {
    Framed(s, s', step);
    forall p, r ensures HeardAt(s', p, r) {
      if Committed(s', p, r) && Chan(s', r) && s'.ready[r] {
        if !s.ready[r] {
          NowTrue(s, s', step, r);
          assert Pending(s', step.p, r, p);
        } else {
          if !Committed(s, p, r) { NewlyCommitted(s, s', step, p, r); }
          assert HeardAt(s, p, r);
          var q :| Pending(s, q, r, p);
          StillPending(s, s', step, q, r, p);
          if step.WakeSlot? && q == step.p && s.pc[q].r == r && s.pc[q].i == p { Dealt(s, s', step, p, r); }
        }
      }
    }
  }

  /** Every step keeps the invariant. */
  lemma Keeps(s: State, s': State, step: Step)
    requires Inv(s) && Next(s, s', step)
    ensures Inv(s')
  {
    Framed(s, s', step);
    KeepsLocks(s, s', step);
    KeepsPlocks(s, s', step);
    KeepsThreads(s, s', step);
    KeepsHeard(s, s', step);
    hide Next, LockAt, PlockAt, ThreadAt, HeardAt;
  }

  // ---- whole runs ----

  ghost predicate Init(s: State)
  {
    && Sized(s)
    && (forall p :: 0 <= p < |s.pc| ==> s.pc[p] == Outside && s.status[p] == Running && s.plock[p] == FREE)
    && (forall l :: 0 <= l < |s.lock| ==> s.lock[l] == FREE)
  }

  datatype Run = Start | Then(before: Run, s: State, step: Step)

  /** The run starts at an initial state and ends at s, one step after another. */
  ghost predicate Leads(run: Run, first: State, s: State)
  {
    match run
    case Start => Init(first) && s == first
    case Then(before, t, step) => Leads(before, first, t) && Next(t, s, step)
  }

  lemma {:induction false} RunKeeps(run: Run, first: State, s: State)
    requires Leads(run, first, s)
    ensures Inv(s)
  {
    match run
    case Start =>
      forall p, l ensures LockAt(s, p, l) {}
      forall q, p ensures PlockAt(s, q, p) {}
      forall p ensures ThreadAt(s, p) {}
      forall p, r ensures HeardAt(s, p, r) {}
    case Then(before, t, step) =>
      RunKeeps(before, first, t);
      Keeps(t, s, step);
  }

  /** No lost wakeup: in every interleaving, while a process sleeps on a channel whose condition
      has become true, some wakeup of that channel has yet to reach it. */
  lemma NoLostWakeup(run: Run, first: State, s: State, p: int, r: int)
    requires Leads(run, first, s) && Proc(s, p) && Chan(s, r)
    requires s.status[p] == Sleeping && s.chan[p] == r && s.ready[r]
    ensures exists q :: q != p && Pending(s, q, r, p)
  {
    RunKeeps(run, first, s);
    assert ThreadAt(s, p) && HeardAt(s, p, r);
    var q :| Pending(s, q, r, p);
  }

  /** A lock is held by one thread at a time, in every interleaving. */
  lemma OneHolder(run: Run, first: State, s: State, p: int, q: int, l: int)
    requires Leads(run, first, s) && Proc(s, p) && Proc(s, q) && 0 <= l < |s.lock|
    requires HasLock(s, s.pc[p], l) && HasLock(s, s.pc[q], l)
    ensures p == q
  {
    RunKeeps(run, first, s);
    assert LockAt(s, p, l) && LockAt(s, q, l);
  }

  // ---- for programs built on these steps ----

  /** Steps that sleep, wakeup, the scheduler and kill take for a thread, whatever it is in. */
  predicate Inner(t: Step)
  {
    t.LockOwn? || t.DropLock? || t.GoToSleep? || t.SwitchedOut? || t.SwitchIn? || t.TidyUp? || t.Retake?
    || t.LockSlot? || t.WakeSlot? || t.EndWakeup? || t.Kill?
  }

  /** What a step of a program built on these does to their state. */
  datatype Work = Nothing | Does(t: Step)

  ghost predicate SysMove(s: State, s': State, w: Work)
  {
    match w
    case Nothing => s' == s
    case Does(t) => Next(s, s', t)
  }

  /** Two threads inside with the same spin lock are one. */
  lemma OneInside(s: State, p: int, q: int, l: int)
    requires Inv(s) && Proc(s, p) && Proc(s, q) && s.pc[p].Inside? && s.pc[q].Inside? && s.pc[p].l == s.pc[q].l == l && 0 <= l < |s.lock|
    ensures p == q
  {
    assert LockAt(s, p, l) && LockAt(s, q, l);
  }

  /** The lock given up although wakeups are owed, as pipewrite does when its process has been
      killed. */
  ghost function Abandoned(s: State, p: int): State
    requires Proc(s, p) && s.pc[p].Inside? && 0 <= s.pc[p].l < |s.lock|
  {
    s.(pc := s.pc[p := Outside], lock := s.lock[s.pc[p].l := FREE])
  }
}
