/** CPUs, kernel threads and the locks handed across swtch (kernel/proc.c 122-168, 333-686,
    kernel/spinlock.c 24-84, kernel/intr.c 17-45) as a step relation over any number of
    processes and CPUs. */
module Scheduler {

  const FREE := -1
  const NOPROC := -1

  datatype Status = UNUSED | SLEEPING | RUNNABLE | RUNNING | ZOMBIE

  /** Why a thread called sched, or KFirst for one that starts at forkret. */
  datatype Kont = KYield | KSleep | KWait | KExit | KFirst

  /** Where the kernel thread of a process is, as far as process locks go. */
  datatype Pc =
    | Unborn                   // no thread
    | Off(k: Kont)             // switched out
    | On(k: Kont)              // just switched in, inside sched or forkret
    | Running                  // holds no process lock
    | YieldHeld                // yield: has its own lock
    | SleepHeld                // sleep: has its own lock and still the caller's
    | SleepOnly                // sleep: has its own lock
    | Relock                   // sleep: about to take the caller's lock again
    | WaitHeld                 // wait: has its own lock
    | WaitChild(q: int)        // wait: and that of a child
    | ExitParent(q: int)       // exit: has its parent's lock
    | ExitBoth(q: int)         // exit: and its own
    | ExitZombie(q: int)       // exit: has become a ZOMBIE
    | Waking(q: int)           // wakeup or kill: has the lock of a slot
    | Forking(q: int)          // fork: has the lock of a slot
    | Switching(k: Kont)       // about to swtch to the scheduler

  /** Where the scheduler of a CPU is; Away while the CPU runs a process. */
  datatype SPc = Loop | Taken(p: int) | Giving(p: int) | Back(p: int) | Away

  /** intena is what push_off saved; others counts the locks held that are no process locks. */
  datatype Cpu = Cpu(run: int, proc: int, spc: SPc, noff: int, intena: bool, intr: bool, others: int)

  /** saved is sched's local copy of intena; want is the interrupt state the thread had before
      it took its first lock; at is the CPU it runs on. */
  datatype Proc = Proc(status: Status, asleepOn: int, parent: int, pc: Pc, saved: bool, want: bool, at: int)

  datatype State = State(cpus: seq<Cpu>, procs: seq<Proc>, lock: seq<int>)

  // ---- intr.c ----

  function PushOff(c: Cpu): Cpu
  {
    c.(intena := if c.noff == 0 then c.intr else c.intena, intr := false, noff := c.noff + 1)
  }

  function PopOff(c: Cpu): Cpu
  {
    c.(noff := c.noff - 1, intr := c.intr || (c.noff == 1 && c.intena))
  }

  // ---- who holds what ----

  ghost predicate IsCpu(s: State, c: int) { 0 <= c < |s.cpus| }

  ghost predicate IsProc(s: State, p: int) { 0 <= p < |s.procs| && |s.lock| == |s.procs| }

  /** The thread of p, at pc, holds the lock of q. */
  ghost predicate Holds(pc: Pc, p: int, q: int)
  {
    match pc
    case On(_) => q == p
    case YieldHeld => q == p
    case SleepHeld => q == p
    case SleepOnly => q == p
    case WaitHeld => q == p
    case WaitChild(r) => q == p || q == r
    case ExitParent(r) => q == r
    case ExitBoth(r) => q == p || q == r
    case ExitZombie(r) => q == p || q == r
    case Waking(r) => q == r
    case Forking(r) => q == r
    case Switching(_) => q == p
    case _ => false
  }

  function HeldCount(pc: Pc): int
  {
    match pc
    case Unborn => 0
    case Off(_) => 0
    case Running => 0
    case Relock => 0
    case WaitChild(_) => 2
    case ExitBoth(_) => 2
    case ExitZombie(_) => 2
    case _ => 1
  }

  ghost predicate Live(pc: Pc) { !pc.Unborn? && !pc.Off? }

  /** CPU c holds the lock of process q: its thread does, or its scheduler. */
  ghost predicate CpuHolds(s: State, c: int, q: int)
  {
    IsCpu(s, c) &&
    if s.cpus[c].run >= 0 then IsProc(s, s.cpus[c].run) && Holds(s.procs[s.cpus[c].run].pc, s.cpus[c].run, q)
    else (s.cpus[c].spc == Taken(q) || s.cpus[c].spc == Giving(q) || s.cpus[c].spc == Back(q))
  }

  /** CPU c runs on the kernel stack of p, or translates by its kernel page table. */
  ghost predicate Uses(s: State, c: int, p: int)
  {
    IsCpu(s, c) &&
    if s.cpus[c].run >= 0 then s.cpus[c].run == p else s.cpus[c].spc == Giving(p) || s.cpus[c].spc == Back(p)
  }

  // ---- the invariant ----

  ghost predicate LockAt(s: State, c: int, q: int)
  {
    IsCpu(s, c) && IsProc(s, q) ==> (s.lock[q] == c <==> CpuHolds(s, c, q))
  }

  ghost predicate CpuAt(s: State, c: int)
  {
    IsCpu(s, c) ==>
      var cpu := s.cpus[c];
      && (cpu.noff > 0 ==> !cpu.intr) && cpu.others >= 0
      && if cpu.run >= 0 then
           && IsProc(s, cpu.run) && var p := s.procs[cpu.run];
           && p.at == c && Live(p.pc) && cpu.spc == Away && cpu.proc == cpu.run
           && cpu.noff == cpu.others + HeldCount(p.pc)
           && (p.pc.Running? || p.pc.Waking? || p.pc.Forking? || cpu.others == if p.pc.SleepHeld? then 1 else 0)
           && (if cpu.noff == 0 then cpu.intr == p.want else if p.pc.On? then p.saved == p.want || p.pc.k.KFirst? else cpu.intena == p.want)
         else
           && cpu.run == NOPROC && cpu.others == 0
           && match cpu.spc
              case Loop => cpu.noff == 0 && cpu.proc == NOPROC
              case Taken(p) => cpu.noff == 1 && cpu.proc == NOPROC && IsProc(s, p)
              case Giving(p) => cpu.noff == 1 && cpu.proc == p && IsProc(s, p) && s.procs[p].pc.Off? && s.procs[p].status == RUNNING && !s.procs[p].pc.k.KExit?
              case Back(p) => cpu.noff == 1 && cpu.proc == p && IsProc(s, p) && s.procs[p].pc.Off? && s.procs[p].status != RUNNING
              case Away => false
  }

  /** The scheduler that holds the lock of p is about to switch to it. */
  ghost predicate Chosen(s: State, p: int)
  {
    IsProc(s, p) && IsCpu(s, s.lock[p]) && s.cpus[s.lock[p]].run < 0 && s.cpus[s.lock[p]].spc == Giving(p)
  }

  ghost predicate StatusOk(s: State, p: int)
    requires IsProc(s, p)
  {
    var q := s.procs[p];
    match q.pc
    case Unborn => q.status == UNUSED
    case Off(k) =>
      if k.KExit? then q.status == ZOMBIE
      else (q.status == RUNNABLE || ((k.KSleep? || k.KWait?) && q.status == SLEEPING) || (q.status == RUNNING && Chosen(s, p)))
    case On(k) => q.status == RUNNING && !k.KExit?
    case Switching(k) => q.status == (if k.KYield? then RUNNABLE else if k.KExit? then ZOMBIE else SLEEPING) && !k.KFirst?
    case ExitZombie(_) => q.status == ZOMBIE
    case _ => q.status == RUNNING
  }

  ghost predicate ProcAt(s: State, p: int)
  {
    IsProc(s, p) ==>
      var q := s.procs[p];
      && StatusOk(s, p)
      && (if Live(q.pc) then IsCpu(s, q.at) && s.cpus[q.at].run == p else q.at == FREE)
      && (q.pc.Off? && !q.pc.k.KFirst? ==> q.saved == q.want)
      && (q.pc.WaitChild? || q.pc.ExitBoth? || q.pc.ExitZombie? || q.pc.ExitParent? ==> q.pc.q != p)
      && (q.pc.WaitChild? || q.pc.ExitBoth? || q.pc.ExitZombie? || q.pc.ExitParent? || q.pc.Waking? || q.pc.Forking? ==> IsProc(s, q.pc.q))
  }

  ghost predicate Inv(s: State)
  {
    && |s.lock| == |s.procs|
    && (forall c, q {:trigger LockAt(s, c, q)} :: LockAt(s, c, q))
    && (forall c {:trigger CpuAt(s, c)} :: CpuAt(s, c))
    && (forall p {:trigger ProcAt(s, p)} :: ProcAt(s, p))
    && (forall p :: 0 <= p < |s.lock| ==> s.lock[p] == FREE || IsCpu(s, s.lock[p]))
  }

  // ---- the steps ----

  datatype Step =
    | IntrOn(c: int)                        // scheduler: intr_on
    | Take(c: int, q: int)                  // scheduler: acquire(&p->lock)
    | Skip(c: int)                          // scheduler: not RUNNABLE, release
    | Give(c: int)                          // scheduler: RUNNING, c->proc = p
    | SwtchIn(c: int)                       // scheduler: swtch to p
    | TakeBack(c: int)                      // scheduler, after swtch: c->proc = 0, release
    | LockOther(c: int)                     // acquire and release of locks that are no process locks
    | UnlockOther(c: int)
    | SetIntr(c: int, on: bool)             // intr_on, intr_off outside locks
    | Yield(c: int)                         // yield: acquire
    | YieldSet(c: int)                      // yield: RUNNABLE
    | Sleep(c: int)                         // sleep: acquire own lock
    | SleepDrop(c: int)                     // sleep: release the caller's lock
    | SleepSet(c: int, chan: int)           // sleep: SLEEPING
    | Retake(c: int)                        // sleep: acquire the caller's lock
    | Wait(c: int)                          // wait: acquire own lock
    | LookAt(c: int, q: int)                // wait: acquire a child's
    | Reap(c: int)                          // wait: freeproc, release the child's
    | PassBy(c: int)                        // wait: not a ZOMBIE, or its status cannot be copied; release the child's
    | WaitSleep(c: int)                     // wait: sleep(p, &p->lock)
    | WaitEnd(c: int)                       // wait: release own lock and return
    | ExitP(c: int, q: int)                 // exit: acquire the parent's lock
    | ExitB(c: int)                         // exit: acquire own lock
    | Reparent(c: int, q: int, init: int)   // exit: a child is given to init, under its lock
    | ExitZ(c: int)                         // exit: wakeup1(parent), ZOMBIE
    | ExitR(c: int)                         // exit: release the parent's lock
    | LockSlot(c: int, q: int)              // wakeup, kill: acquire a slot's lock
    | Wake(c: int, wake: bool)              // wakeup, kill: a sleeper made RUNNABLE, or not; release
    | Fork(c: int, q: int)                  // allocproc: acquire a slot's lock
    | Born(c: int)                          // fork: a slot that was UNUSED is RUNNABLE; release
    | NotBorn(c: int)                       // allocproc or fork fails; release
    | SwtchOut(c: int)                      // sched: swtch to the scheduler
    | Resume(c: int)                        // sched returns, or forkret begins

  /** A step of a scheduler. */
  ghost predicate SchedNext(s: State, s': State, step: Step)
  {
    && IsCpu(s, step.c) && s.cpus[step.c].run == NOPROC
    && var c, cpu := step.c, s.cpus[step.c];
    match step
    case IntrOn(_) => cpu.spc == Loop && s' == s.(cpus := s.cpus[c := cpu.(intr := true)])
    case Take(_, q) =>
      cpu.spc == Loop && IsProc(s, q) && s.lock[q] == FREE
      && s' == s.(cpus := s.cpus[c := PushOff(cpu).(spc := Taken(q))], lock := s.lock[q := c])
    case Skip(_) =>
      cpu.spc.Taken? && IsProc(s, cpu.spc.p) && s.procs[cpu.spc.p].status != RUNNABLE
      && s' == s.(cpus := s.cpus[c := PopOff(cpu).(spc := Loop)], lock := s.lock[cpu.spc.p := FREE])
    case Give(_) =>
      cpu.spc.Taken? && IsProc(s, cpu.spc.p) && s.procs[cpu.spc.p].status == RUNNABLE
      && s' == s.(cpus := s.cpus[c := cpu.(spc := Giving(cpu.spc.p), proc := cpu.spc.p)],
                  procs := s.procs[cpu.spc.p := s.procs[cpu.spc.p].(status := RUNNING)])
    case SwtchIn(_) =>
      cpu.spc.Giving? && IsProc(s, cpu.spc.p) && s.procs[cpu.spc.p].pc.Off?
      && s' == s.(cpus := s.cpus[c := cpu.(spc := Away, run := cpu.spc.p)],
                  procs := s.procs[cpu.spc.p := s.procs[cpu.spc.p].(pc := On(s.procs[cpu.spc.p].pc.k), at := c)])
    case TakeBack(_) =>
      cpu.spc.Back? && IsProc(s, cpu.spc.p)
      && s' == s.(cpus := s.cpus[c := PopOff(cpu).(spc := Loop, proc := NOPROC)], lock := s.lock[cpu.spc.p := FREE])
    case _ => false
  }

  /** The new state when the thread of CPU c becomes proc and the CPU becomes cpu. */
  ghost function Put(s: State, c: int, cpu: Cpu, proc: Proc): State
    requires IsCpu(s, c) && IsProc(s, s.cpus[c].run)
  {
    s.(cpus := s.cpus[c := cpu], procs := s.procs[s.cpus[c].run := proc])
  }

  ghost function Take'(s: State, c: int, proc: Proc, q: int): State
    requires IsCpu(s, c) && IsProc(s, s.cpus[c].run) && IsProc(s, q)
  {
    Put(s, c, PushOff(s.cpus[c]), proc).(lock := s.lock[q := c])
  }

  ghost function Drop(s: State, c: int, proc: Proc, q: int): State
    requires IsCpu(s, c) && IsProc(s, s.cpus[c].run) && IsProc(s, q)
  {
    Put(s, c, PopOff(s.cpus[c]), proc).(lock := s.lock[q := FREE])
  }

  ghost function Also(s: State, q: int, proc: Proc): State
    requires IsProc(s, q)
  {
    s.(procs := s.procs[q := proc])
  }

  /** A step of the thread that runs on a CPU. */
  ghost predicate ThreadNext(s: State, s': State, step: Step)
  {
    && IsCpu(s, step.c) && IsProc(s, s.cpus[step.c].run)
    && var c, cpu, p := step.c, s.cpus[step.c], s.cpus[step.c].run;
    var me := s.procs[p];
    match step
    case LockOther(_) => me.pc.Running? && s' == Put(s, c, PushOff(cpu).(others := cpu.others + 1), me)
    case UnlockOther(_) => me.pc.Running? && cpu.others > 0 && s' == Put(s, c, PopOff(cpu).(others := cpu.others - 1), me)
    case SetIntr(_, on) => me.pc.Running? && cpu.noff == 0 && s' == Put(s, c, cpu.(intr := on), me.(want := on))
    case Yield(_) => me.pc.Running? && cpu.noff == 0 && s.lock[p] == FREE && s' == Take'(s, c, me.(pc := YieldHeld), p)
    case YieldSet(_) => me.pc.YieldHeld? && s' == Put(s, c, cpu, me.(pc := Switching(KYield), status := RUNNABLE))
    case Sleep(_) => me.pc.Running? && cpu.noff == 1 && s.lock[p] == FREE && s' == Take'(s, c, me.(pc := SleepHeld), p)
    case SleepDrop(_) => me.pc.SleepHeld? && s' == Put(s, c, PopOff(cpu).(others := cpu.others - 1), me.(pc := SleepOnly))
    case SleepSet(_, chan) => me.pc.SleepOnly? && s' == Put(s, c, cpu, me.(pc := Switching(KSleep), status := SLEEPING, asleepOn := chan))
    case Retake(_) => me.pc.Relock? && s' == Put(s, c, PushOff(cpu).(others := cpu.others + 1), me.(pc := Running))
    case Wait(_) => me.pc.Running? && cpu.noff == 0 && s.lock[p] == FREE && s' == Take'(s, c, me.(pc := WaitHeld), p)
    case LookAt(_, q) => me.pc.WaitHeld? && IsProc(s, q) && q != p && s.procs[q].parent == p && s.lock[q] == FREE && s' == Take'(s, c, me.(pc := WaitChild(q)), q)
    case Reap(_) =>
      me.pc.WaitChild? && IsProc(s, me.pc.q) && me.pc.q != p && s.procs[me.pc.q].status == ZOMBIE
      && s' == Also(Drop(s, c, me.(pc := WaitHeld), me.pc.q), me.pc.q, s.procs[me.pc.q].(status := UNUSED, pc := Unborn, parent := NOPROC, asleepOn := 0))
    case PassBy(_) => me.pc.WaitChild? && IsProc(s, me.pc.q) && s' == Drop(s, c, me.(pc := WaitHeld), me.pc.q)
    case WaitSleep(_) => me.pc.WaitHeld? && s' == Put(s, c, cpu, me.(pc := Switching(KWait), status := SLEEPING, asleepOn := p))
    case WaitEnd(_) => me.pc.WaitHeld? && s' == Drop(s, c, me.(pc := Running), p)
    case ExitP(_, q) => me.pc.Running? && cpu.noff == 0 && IsProc(s, q) && q != p && s.lock[q] == FREE && s' == Take'(s, c, me.(pc := ExitParent(q)), q)
    case ExitB(_) => me.pc.ExitParent? && s.lock[p] == FREE && s' == Take'(s, c, me.(pc := ExitBoth(me.pc.q)), p)
    case Reparent(_, q, init) => me.pc.ExitBoth? && IsProc(s, q) && q != p && s.procs[q].parent == p && s.lock[q] == FREE && s' == Also(s, q, s.procs[q].(parent := init))
    case ExitZ(_) =>
      me.pc.ExitBoth? && IsProc(s, me.pc.q) && me.pc.q != p && var pp := s.procs[me.pc.q];
      s' == Also(Put(s, c, cpu, me.(pc := ExitZombie(me.pc.q), status := ZOMBIE)), me.pc.q,
                 if pp.asleepOn == me.pc.q && pp.status == SLEEPING then pp.(status := RUNNABLE) else pp)
    case ExitR(_) => me.pc.ExitZombie? && IsProc(s, me.pc.q) && s' == Drop(s, c, me.(pc := Switching(KExit)), me.pc.q)
    case LockSlot(_, q) => me.pc.Running? && IsProc(s, q) && s.lock[q] == FREE && s' == Take'(s, c, me.(pc := Waking(q)), q)
    case Wake(_, wake) =>
      me.pc.Waking? && IsProc(s, me.pc.q) && var q := s.procs[me.pc.q];
      if wake && q.status == SLEEPING && me.pc.q != p then s' == Also(Drop(s, c, me.(pc := Running), me.pc.q), me.pc.q, q.(status := RUNNABLE))
      else s' == Drop(s, c, me.(pc := Running), me.pc.q)
    case Fork(_, q) => me.pc.Running? && IsProc(s, q) && s.lock[q] == FREE && s' == Take'(s, c, me.(pc := Forking(q)), q)
    case Born(_) =>
      me.pc.Forking? && IsProc(s, me.pc.q) && me.pc.q != p && s.procs[me.pc.q].status == UNUSED
      && s' == Also(Drop(s, c, me.(pc := Running), me.pc.q), me.pc.q, s.procs[me.pc.q].(status := RUNNABLE, pc := Off(KFirst), parent := p))
    case NotBorn(_) => me.pc.Forking? && IsProc(s, me.pc.q) && s' == Drop(s, c, me.(pc := Running), me.pc.q)
    case SwtchOut(_) =>
      me.pc.Switching? && s' == Put(s, c, cpu.(run := NOPROC, spc := Back(p)), me.(pc := Off(me.pc.k), saved := cpu.intena, at := FREE))
    case Resume(_) =>
      me.pc.On? && var back := if me.pc.k.KFirst? then s else s.(cpus := s.cpus[c := cpu.(intena := me.saved)]);
      if me.pc.k.KWait? then s' == Put(back, c, back.cpus[c], me.(pc := WaitHeld, asleepOn := 0))
      else if me.pc.k.KSleep? then s' == Drop(back, c, me.(pc := Relock, asleepOn := 0), p)
      else s' == Drop(back, c, me.(pc := Running, want := if me.pc.k.KFirst? then cpu.intena else me.want), p)
    case _ => false
  }

  ghost predicate Next(s: State, s': State, step: Step)
  {
    SchedNext(s, s', step) || ThreadNext(s, s', step)
  }

  // ---- every step keeps the invariant ----

  /** What a step on CPU c leaves alone: the other CPUs, and where their threads are. */
  ghost predicate Frame(s: State, s': State, c: int)
  {
    && IsCpu(s, c) && |s'.cpus| == |s.cpus| && |s'.procs| == |s.procs| == |s.lock| == |s'.lock|
    && (forall d :: 0 <= d < |s.cpus| && d != c ==> s'.cpus[d] == s.cpus[d])
    && (forall p :: 0 <= p < |s.procs| && Live(s.procs[p].pc) && s.procs[p].at != c ==>
          s'.procs[p].pc == s.procs[p].pc && s'.procs[p].at == s.procs[p].at)
    && (forall p :: 0 <= p < |s.lock| ==> s'.lock[p] == s.lock[p] || s'.lock[p] == c || s'.lock[p] == FREE)
  }

  predicate Takes(step: Step)
  {
    step.Yield? || step.Sleep? || step.Wait? || step.LookAt? || step.ExitP? || step.ExitB? || step.LockSlot? || step.Fork?
  }

  predicate Gives(step: Step)
  {
    step.Reap? || step.PassBy? || step.WaitEnd? || step.ExitR? || step.Wake? || step.Born? || step.NotBorn?
  }

  /** The ZOMBIE that wait has locked is switched out for good. */
  lemma ReapedZombie(s: State, c: int)
    requires Inv(s) && IsCpu(s, c) && IsProc(s, s.cpus[c].run) && s.procs[s.cpus[c].run].pc.WaitChild? && IsProc(s, s.procs[s.cpus[c].run].pc.q)
    requires s.procs[s.procs[s.cpus[c].run].pc.q].status == ZOMBIE
    ensures s.procs[s.procs[s.cpus[c].run].pc.q].pc == Off(KExit)
  {
    var p := s.cpus[c].run;
    var q := s.procs[p].pc.q;
    assert CpuAt(s, c) && ProcAt(s, p) && ProcAt(s, q) && LockAt(s, c, q);
    assert LockAt(s, s.procs[q].at, q);
  }

  lemma FramedSched(s: State, s': State, step: Step)
    requires Inv(s) && SchedNext(s, s', step)
    ensures Frame(s, s', step.c)
  {
    assert CpuAt(s, step.c);
  }

  lemma FramedTake(s: State, s': State, step: Step)
    requires Inv(s) && ThreadNext(s, s', step) && Takes(step)
    ensures Frame(s, s', step.c)
  {
    assert CpuAt(s, step.c) && ProcAt(s, s.cpus[step.c].run);
  }

  lemma FramedGive(s: State, s': State, step: Step)
    requires Inv(s) && ThreadNext(s, s', step) && Gives(step)
    ensures Frame(s, s', step.c)
  {
    var p := s.cpus[step.c].run;
    assert CpuAt(s, step.c) && ProcAt(s, p);
    if step.Reap? { ReapedZombie(s, step.c); }
    if step.Born? { assert ProcAt(s, s.procs[p].pc.q); }
  }

  lemma FramedKeep(s: State, s': State, step: Step)
    requires Inv(s) && ThreadNext(s, s', step) && !Takes(step) && !Gives(step)
    ensures Frame(s, s', step.c)
  {
    assert CpuAt(s, step.c) && ProcAt(s, s.cpus[step.c].run);
  }

  lemma Framed(s: State, s': State, step: Step)
    requires Inv(s) && Next(s, s', step)
    ensures Frame(s, s', step.c)
  {
    hide ThreadNext, SchedNext, Inv, Frame, Takes, Gives;
    if SchedNext(s, s', step) { FramedSched(s, s', step); }
    else if Takes(step) { FramedTake(s, s', step); }
    else if Gives(step) { FramedGive(s, s', step); }
    else { FramedKeep(s, s', step); }
  }

  /** Other CPUs hold what they held. */
  lemma SameHolds(s: State, s': State, c: int, d: int, q: int)
    requires Inv(s) && Frame(s, s', c) && d != c
    ensures CpuHolds(s', d, q) == CpuHolds(s, d, q)
  {
    assert CpuAt(s, d);
  }

  lemma LocksSame(s: State, s': State, c: int)
    requires Inv(s) && Frame(s, s', c) && s'.lock == s.lock && forall q :: CpuHolds(s', c, q) == CpuHolds(s, c, q)
    ensures forall d, q :: LockAt(s', d, q)
  {
    forall d, q ensures LockAt(s', d, q) {
      assert LockAt(s, d, q);
      if d != c { SameHolds(s, s', c, d, q); }
    }
  }

  lemma LocksTaken(s: State, s': State, c: int, x: int)
    requires Inv(s) && Frame(s, s', c) && 0 <= x < |s.lock| && s.lock[x] == FREE && s'.lock == s.lock[x := c]
    requires forall q :: CpuHolds(s', c, q) == (CpuHolds(s, c, q) || q == x)
    ensures forall d, q :: LockAt(s', d, q)
  {
    forall d, q ensures LockAt(s', d, q) {
      assert LockAt(s, d, q);
      if d != c { SameHolds(s, s', c, d, q); }
    }
  }

  lemma LocksGiven(s: State, s': State, c: int, x: int)
    requires Inv(s) && Frame(s, s', c) && 0 <= x < |s.lock| && CpuHolds(s, c, x) && s'.lock == s.lock[x := FREE]
    requires forall q :: CpuHolds(s', c, q) == (CpuHolds(s, c, q) && q != x)
    ensures forall d, q :: LockAt(s', d, q)
  {
    forall d, q ensures LockAt(s', d, q) {
      assert LockAt(s, d, q) && LockAt(s, c, q);
      if d != c { SameHolds(s, s', c, d, q); }
    }
  }

  lemma SchedLocks(s: State, s': State, step: Step)
    requires Inv(s) && SchedNext(s, s', step)
    ensures forall d, q :: LockAt(s', d, q)
  {
    FramedSched(s, s', step);
    var c := step.c;
    assert CpuAt(s, c);
    match step
    case Take(_, q) => LocksTaken(s, s', c, q);
    case Skip(_) => LocksGiven(s, s', c, s.cpus[c].spc.p);
    case TakeBack(_) => LocksGiven(s, s', c, s.cpus[c].spc.p);
    case _ => LocksSame(s, s', c);
  }

  lemma TakeLocks(s: State, s': State, step: Step)
    requires Inv(s) && ThreadNext(s, s', step) && Takes(step)
    ensures forall d, q :: LockAt(s', d, q)
  {
    FramedTake(s, s', step);
    var c := step.c;
    var p := s.cpus[c].run;
    assert CpuAt(s, c) && ProcAt(s, p);
    var x := if step.LookAt? || step.ExitP? || step.LockSlot? || step.Fork? then step.q else p;
    assert forall q :: CpuHolds(s', c, q) == (CpuHolds(s, c, q) || q == x);
    hide ThreadNext;
    LocksTaken(s, s', c, x);
  }

  lemma GiveLocks(s: State, s': State, step: Step)
    requires Inv(s) && ThreadNext(s, s', step) && Gives(step)
    ensures forall d, q :: LockAt(s', d, q)
  {
    FramedGive(s, s', step);
    var c := step.c;
    var p := s.cpus[c].run;
    assert CpuAt(s, c) && ProcAt(s, p);
    LocksGiven(s, s', c, if step.WaitEnd? then p else s.procs[p].pc.q);
  }

  lemma KeepLocks(s: State, s': State, step: Step)
    requires Inv(s) && ThreadNext(s, s', step) && !Takes(step) && !Gives(step)
    ensures forall d, q :: LockAt(s', d, q)
  {
    FramedKeep(s, s', step);
    var c := step.c;
    var p := s.cpus[c].run;
    assert CpuAt(s, c) && ProcAt(s, p);
    if step.Resume? && !s.procs[p].pc.k.KWait? { LocksGiven(s, s', c, p); } else { LocksSame(s, s', c); }
  }

  lemma NextLocks(s: State, s': State, step: Step)
    requires Inv(s) && Next(s, s', step)
    ensures forall d, q :: LockAt(s', d, q)
  {
    hide ThreadNext, SchedNext, Inv, LockAt, Takes, Gives;
    if SchedNext(s, s', step) { SchedLocks(s, s', step); }
    else if Takes(step) { TakeLocks(s, s', step); }
    else if Gives(step) { GiveLocks(s, s', step); }
    else { KeepLocks(s, s', step); }
  }

  /** Processes that do not run on CPU c change only while it holds their lock, and never in what
      their own thread has put aside. */
  ghost predicate ProcFrame(s: State, s': State, c: int)
  {
    && IsCpu(s, c) && |s'.procs| == |s.procs| == |s.lock| == |s'.lock|
    && forall x :: 0 <= x < |s.procs| && x != s.cpus[c].run ==>
         && s'.procs[x].want == s.procs[x].want && s'.procs[x].saved == s.procs[x].saved
         && (s.lock[x] != c ==>
               && s'.procs[x].status == s.procs[x].status && s'.procs[x].pc == s.procs[x].pc && s'.procs[x].at == s.procs[x].at
               && (s'.lock[x] == s.lock[x] || (s.lock[x] == FREE && s'.lock[x] == c)))
  }

  lemma ProcFrameSched(s: State, s': State, step: Step)
    requires Inv(s) && SchedNext(s, s', step)
    ensures ProcFrame(s, s', step.c)
  {
    var c := step.c;
    assert CpuAt(s, c);
    if !s.cpus[c].spc.Loop? && !s.cpus[c].spc.Away? { assert LockAt(s, c, s.cpus[c].spc.p); }
  }

  lemma ProcFrameTake(s: State, s': State, step: Step)
    requires Inv(s) && ThreadNext(s, s', step) && Takes(step)
    ensures ProcFrame(s, s', step.c)
  {
  }

  lemma ProcFrameGive(s: State, s': State, step: Step)
    requires Inv(s) && ThreadNext(s, s', step) && Gives(step)
    ensures ProcFrame(s, s', step.c)
  {
    var c := step.c;
    var p := s.cpus[c].run;
    assert ProcAt(s, p) && CpuAt(s, c);
    if !step.WaitEnd? { assert LockAt(s, c, s.procs[p].pc.q); }
  }

  lemma ProcFrameKeep(s: State, s': State, step: Step)
    requires Inv(s) && ThreadNext(s, s', step) && !Takes(step) && !Gives(step)
    ensures ProcFrame(s, s', step.c)
  {
    var c := step.c;
    var p := s.cpus[c].run;
    assert ProcAt(s, p) && CpuAt(s, c);
    if step.ExitZ? { assert LockAt(s, c, s.procs[p].pc.q); }
  }

  lemma ProcFramed(s: State, s': State, step: Step)
    requires Inv(s) && Next(s, s', step)
    ensures ProcFrame(s, s', step.c)
  {
    hide ThreadNext, SchedNext, Inv, ProcFrame, Takes, Gives;
    if SchedNext(s, s', step) { ProcFrameSched(s, s', step); }
    else if Takes(step) { ProcFrameTake(s, s', step); }
    else if Gives(step) { ProcFrameGive(s, s', step); }
    else { ProcFrameKeep(s, s', step); }
  }

  /** The other CPUs notice nothing. */
  lemma OtherCpu(s: State, s': State, c: int, d: int)
    requires Inv(s) && Frame(s, s', c) && ProcFrame(s, s', c) && IsCpu(s, d) && d != c
    ensures CpuAt(s', d)
  {
    assert CpuAt(s, d) && CpuAt(s, c);
    var cpu := s.cpus[d];
    if cpu.run >= 0 {
      assert ProcAt(s, cpu.run);
    } else if !cpu.spc.Loop? && !cpu.spc.Away? {
      assert LockAt(s, d, cpu.spc.p) && ProcAt(s, cpu.spc.p);
    }
  }

  lemma OwnCpuSched(s: State, s': State, step: Step)
    requires Inv(s) && SchedNext(s, s', step)
    ensures CpuAt(s', step.c)
  {
    var c := step.c;
    assert CpuAt(s, c);
    if !s.cpus[c].spc.Loop? && !s.cpus[c].spc.Away? { assert ProcAt(s, s.cpus[c].spc.p) && LockAt(s, c, s.cpus[c].spc.p); }
    if step.Give? { Startable(s, c, s.cpus[c].spc.p); }
  }

  /** A RUNNABLE process whose lock a scheduler holds has been switched out. */
  lemma Startable(s: State, c: int, p: int)
    requires Inv(s) && IsCpu(s, c) && s.cpus[c].run < 0 && IsProc(s, p) && s.lock[p] == c && s.procs[p].status == RUNNABLE
    ensures s.procs[p].pc.Off? && !s.procs[p].pc.k.KExit?
  {
    assert ProcAt(s, p) && LockAt(s, s.procs[p].at, p) && CpuAt(s, s.procs[p].at);
  }

  lemma OwnCpuTake(s: State, s': State, step: Step)
    requires Inv(s) && ThreadNext(s, s', step) && Takes(step)
    ensures CpuAt(s', step.c)
  {
    assert CpuAt(s, step.c) && ProcAt(s, s.cpus[step.c].run);
  }

  lemma OwnCpuGive(s: State, s': State, step: Step)
    requires Inv(s) && ThreadNext(s, s', step) && Gives(step)
    ensures CpuAt(s', step.c)
  {
    var p := s.cpus[step.c].run;
    assert CpuAt(s, step.c) && ProcAt(s, p);
    hide Inv, LockAt, StatusOk;
    if step.Reap? { OwnReap(s, s', step); }
    else if step.Wake? { OwnWake(s, s', step); }
  }

  lemma OwnReap(s: State, s': State, step: Step)
    requires CpuAt(s, step.c) && ThreadNext(s, s', step) && step.Reap?
    ensures CpuAt(s', step.c)
  {
  }

  lemma OwnWake(s: State, s': State, step: Step)
    requires CpuAt(s, step.c) && ThreadNext(s, s', step) && step.Wake?
    ensures CpuAt(s', step.c)
  {
  }

  lemma OwnCpuKeep(s: State, s': State, step: Step)
    requires Inv(s) && ThreadNext(s, s', step) && !Takes(step) && !Gives(step)
    ensures CpuAt(s', step.c)
  {
    assert CpuAt(s, step.c) && ProcAt(s, s.cpus[step.c].run);
    hide Inv, LockAt;
    if step.SwtchOut? { OwnOut(s, s', step); }
    else if step.Resume? { OwnResume(s, s', step); }
    else { OwnKeep(s, s', step); }
  }

  lemma OwnOut(s: State, s': State, step: Step)
    requires CpuAt(s, step.c) && ThreadNext(s, s', step) && step.SwtchOut? && ProcAt(s, s.cpus[step.c].run)
    ensures CpuAt(s', step.c)
  {
  }

  lemma OwnResume(s: State, s': State, step: Step)
    requires CpuAt(s, step.c) && ThreadNext(s, s', step) && step.Resume?
    ensures CpuAt(s', step.c)
  {
  }

  lemma OwnKeep(s: State, s': State, step: Step)
    requires CpuAt(s, step.c) && ThreadNext(s, s', step) && !Takes(step) && !Gives(step) && !step.SwtchOut? && !step.Resume? && ProcAt(s, s.cpus[step.c].run)
    ensures CpuAt(s', step.c)
  {
    hide StatusOk;
  }

  lemma NoCpu(s: State, c: int)
    requires !IsCpu(s, c)
    ensures CpuAt(s, c)
  {
  }

  lemma NextCpus(s: State, s': State, step: Step)
    requires Inv(s) && Next(s, s', step)
    ensures forall d :: CpuAt(s', d)
  {
    Framed(s, s', step);
    ProcFramed(s, s', step);
    hide ThreadNext, SchedNext, Inv, Takes, Gives, CpuAt, ProcFrame;
    forall d ensures CpuAt(s', d) {
      if !IsCpu(s, d) {
        NoCpu(s', d);
      } else if d != step.c {
        OtherCpu(s, s', step.c, d);
      } else if SchedNext(s, s', step) { OwnCpuSched(s, s', step); }
      else if Takes(step) { OwnCpuTake(s, s', step); }
      else if Gives(step) { OwnCpuGive(s, s', step); }
      else { OwnCpuKeep(s, s', step); }
    }
  }

  // ---- the processes ----

  /** A process that the step does not touch. */
  lemma OtherProc(s: State, s': State, c: int, x: int)
    requires ProcAt(s, x) && IsProc(s, x) && |s'.lock| == |s'.procs| == |s.procs| && Frame(s, s', c) && x != s.cpus[c].run
    requires s'.procs[x].status == s.procs[x].status && s'.procs[x].pc == s.procs[x].pc && s'.procs[x].at == s.procs[x].at
    requires s'.procs[x].saved == s.procs[x].saved && s'.procs[x].want == s.procs[x].want
    requires Chosen(s, x) ==> Chosen(s', x)
    ensures ProcAt(s', x)
  {
  }

  lemma StillChosen(s: State, s': State, c: int, x: int)
    requires Inv(s) && IsProc(s, x) && Frame(s, s', c) && ProcFrame(s, s', c) && x != s.cpus[c].run && s.lock[x] != c && Chosen(s, x)
    ensures Chosen(s', x)
  {
  }

  /** A sleeper whose lock another CPU holds has been switched out. */
  lemma SleeperOff(s: State, c: int, x: int)
    requires Inv(s) && IsCpu(s, c) && IsProc(s, x) && s.cpus[c].run != x && s.lock[x] == c && s.procs[x].status == SLEEPING
    ensures s.procs[x].pc.Off?
  {
    assert ProcAt(s, x) && LockAt(s, s.procs[x].at, x);
  }

  /** What becomes of a process whose lock the CPU of the step holds. */
  lemma HeldProc(s: State, s': State, step: Step, x: int)
    requires Inv(s) && ThreadNext(s, s', step) && Frame(s, s', step.c) && IsProc(s, x) && x != s.cpus[step.c].run && s.lock[x] == step.c
    ensures ProcAt(s', x)
  {
    var c := step.c;
    var p := s.cpus[c].run;
    assert ProcAt(s, x) && CpuAt(s, c) && LockAt(s, c, x);
    if step.Reap? {
      ReapedZombie(s, c);
      assert ProcAt(s, s.procs[p].pc.q);
    }
    if s.procs[x].status == SLEEPING { SleeperOff(s, c, x); }
    hide Inv, LockAt, CpuAt;
    if step.Reap? || step.Born? || step.Wake? || step.ExitZ? { ChangedProc(s, s', step, x); }
    else { UnchangedProc(s, s', step, x); }
  }

  lemma UnchangedProc(s: State, s': State, step: Step, x: int)
    requires ThreadNext(s, s', step) && Frame(s, s', step.c) && IsProc(s, x) && x != s.cpus[step.c].run && ProcAt(s, x) && CpuAt(s, step.c)
    requires !(step.Reap? || step.Born? || step.Wake? || step.ExitZ?) && s.lock[x] == step.c
    ensures ProcAt(s', x)
  {
    OtherProc(s, s', step.c, x) by { hide ProcAt; }
  }

  lemma ChangedProc(s: State, s': State, step: Step, x: int)
    requires ThreadNext(s, s', step) && Frame(s, s', step.c) && IsProc(s, x) && x != s.cpus[step.c].run && ProcAt(s, x) && CpuAt(s, step.c)
    requires s.lock[x] == step.c && (step.Reap? || step.Born? || step.Wake? || step.ExitZ?)
    requires step.Reap? && x == s.procs[s.cpus[step.c].run].pc.q ==> s.procs[x].pc == Off(KExit)
    requires s.procs[x].status == SLEEPING ==> s.procs[x].pc.Off?
    ensures ProcAt(s', x)
  {
    if step.Reap? { ReapedProc(s, s', step, x); }
    else if step.Born? { BornProc(s, s', step, x); }
    else { WokenProc(s, s', step, x); }
  }

  lemma ReapedProc(s: State, s': State, step: Step, x: int)
    requires ThreadNext(s, s', step) && Frame(s, s', step.c) && IsProc(s, x) && x != s.cpus[step.c].run && ProcAt(s, x) && CpuAt(s, step.c)
    requires s.lock[x] == step.c && step.Reap? && (x == s.procs[s.cpus[step.c].run].pc.q ==> s.procs[x].pc == Off(KExit))
    ensures ProcAt(s', x)
  {
  }

  lemma BornProc(s: State, s': State, step: Step, x: int)
    requires ThreadNext(s, s', step) && Frame(s, s', step.c) && IsProc(s, x) && x != s.cpus[step.c].run && ProcAt(s, x) && CpuAt(s, step.c)
    requires s.lock[x] == step.c && step.Born?
    ensures ProcAt(s', x)
  {
  }

  lemma WokenProc(s: State, s': State, step: Step, x: int)
    requires ThreadNext(s, s', step) && Frame(s, s', step.c) && IsProc(s, x) && x != s.cpus[step.c].run && ProcAt(s, x) && CpuAt(s, step.c)
    requires s.lock[x] == step.c && (step.Wake? || step.ExitZ?) && (s.procs[x].status == SLEEPING ==> s.procs[x].pc.Off?)
    ensures ProcAt(s', x)
  {
  }

  lemma OwnProcTake(s: State, s': State, step: Step)
    requires Inv(s) && ThreadNext(s, s', step) && Takes(step)
    ensures ProcAt(s', s.cpus[step.c].run)
  {
    assert CpuAt(s, step.c) && ProcAt(s, s.cpus[step.c].run);
    hide Inv, LockAt;
  }

  lemma OwnProcGive(s: State, s': State, step: Step)
    requires Inv(s) && ThreadNext(s, s', step) && Gives(step)
    ensures ProcAt(s', s.cpus[step.c].run)
  {
    assert CpuAt(s, step.c) && ProcAt(s, s.cpus[step.c].run);
    hide Inv, LockAt;
  }

  lemma OwnProcKeep(s: State, s': State, step: Step)
    requires Inv(s) && ThreadNext(s, s', step) && !Takes(step) && !Gives(step)
    ensures ProcAt(s', s.cpus[step.c].run)
  {
    assert CpuAt(s, step.c) && ProcAt(s, s.cpus[step.c].run);
    hide Inv, LockAt;
  }

  lemma SchedProc(s: State, s': State, step: Step, x: int)
    requires Inv(s) && SchedNext(s, s', step) && Frame(s, s', step.c) && IsProc(s, x) && s.lock[x] == step.c
    ensures ProcAt(s', x)
  {
    assert ProcAt(s, x) && CpuAt(s, step.c) && LockAt(s, step.c, x);
    if step.Give? { Startable(s, step.c, x); }
    hide Inv, LockAt;
  }

  lemma NoProc(s: State, p: int)
    requires !IsProc(s, p)
    ensures ProcAt(s, p)
  {
  }

  lemma SchedIdle(s: State, s': State, step: Step)
    requires SchedNext(s, s', step)
    ensures !IsProc(s, s.cpus[step.c].run)
  {
  }

  lemma NextProcs(s: State, s': State, step: Step)
    requires Inv(s) && Next(s, s', step)
    ensures forall x :: ProcAt(s', x)
  {
    Framed(s, s', step);
    ProcFramed(s, s', step);
    var c := step.c;
    forall x ensures ProcAt(s', x) {
      assert ProcAt(s, x);
      hide ThreadNext, SchedNext, Inv, Takes, Gives, CpuAt, LockAt, ProcAt;
      if !IsProc(s, x) { NoProc(s', x); }
      else if x == s.cpus[c].run {
        if SchedNext(s, s', step) { SchedIdle(s, s', step); }
        else if Takes(step) { OwnProcTake(s, s', step); }
        else if Gives(step) { OwnProcGive(s, s', step); }
        else { OwnProcKeep(s, s', step); }
      } else if s.lock[x] == c {
        if SchedNext(s, s', step) { SchedProc(s, s', step, x); } else { HeldProc(s, s', step, x); }
      } else {
        if Chosen(s, x) { StillChosen(s, s', c, x); }
        OtherProc(s, s', c, x);
      }
    }
  }

  lemma NextOwners(s: State, s': State, step: Step)
    requires Inv(s) && Next(s, s', step)
    ensures forall p :: 0 <= p < |s'.lock| ==> s'.lock[p] == FREE || IsCpu(s', s'.lock[p])
  {
    Framed(s, s', step);
    hide Next, LockAt, CpuAt, ProcAt;
  }

  /** Every step keeps the invariant. */
  lemma Keeps(s: State, s': State, step: Step)
    requires Inv(s) && Next(s, s', step)
    ensures Inv(s')
  {
    Framed(s, s', step);
    NextLocks(s, s', step);
    NextCpus(s, s', step);
    NextProcs(s, s', step);
    NextOwners(s, s', step);
    hide Next, LockAt, CpuAt, ProcAt;
  }

  // ---- whole runs ----

  /** At boot: every CPU in its scheduler, no process but perhaps some waiting to start. */
  ghost predicate Init(s: State)
  {
    && |s.lock| == |s.procs|
    && (forall c :: 0 <= c < |s.cpus| ==>
          s.cpus[c].run == NOPROC && s.cpus[c].proc == NOPROC && s.cpus[c].spc == Loop && s.cpus[c].noff == 0 && s.cpus[c].others == 0)
    && (forall p :: 0 <= p < |s.procs| ==>
          s.lock[p] == FREE && s.procs[p].at == FREE
          && ((s.procs[p].pc == Unborn && s.procs[p].status == UNUSED) || (s.procs[p].pc == Off(KFirst) && s.procs[p].status == RUNNABLE)))
  }

  datatype Run = Start | Then(before: Run, s: State, step: Step)

  ghost predicate Leads(run: Run, first: State, s: State)
  {
    match run
    case Start => Init(first) && s == first
    case Then(before, t, step) => Leads(before, first, t) && Next(t, s, step)
  }

  lemma {:induction false} RunKeeps(run: Run, first: State, s: State)
    requires Leads(run, first, s)
    ensures Inv(s)
  {
    match run
    case Start =>
      forall c, q ensures LockAt(s, c, q) {}
      forall c ensures CpuAt(s, c) {}
      forall p ensures ProcAt(s, p) {}
    case Then(before, t, step) =>
      hide Next, Inv;
      RunKeeps(before, first, t);
      Keeps(t, s, step);
  }

  /** In every reachable state at most one CPU runs on a process's kernel stack or translates by
      its kernel page table, and so at most one runs the process. */
  lemma OneCpu(run: Run, first: State, s: State, c: int, d: int, p: int)
    requires Leads(run, first, s) && Uses(s, c, p) && Uses(s, d, p) && IsProc(s, p)
    ensures c == d
  {
    RunKeeps(run, first, s);
    assert CpuAt(s, c) && CpuAt(s, d) && LockAt(s, c, p) && LockAt(s, d, p) && ProcAt(s, p);
    hide Leads;
  }

  /** Throughout a switch, on either side of swtch, the CPU holds the process's lock and no
      other, with interrupts off; and what sched would panic about is never the case. */
  lemma Handoff(run: Run, first: State, s: State, c: int, p: int)
    requires Leads(run, first, s) && IsCpu(s, c) && IsProc(s, p)
    requires if s.cpus[c].run >= 0 then s.cpus[c].run == p && (s.procs[p].pc.Switching? || s.procs[p].pc.On?)
             else s.cpus[c].spc == Giving(p) || s.cpus[c].spc == Back(p)
    ensures s.lock[p] == c && s.cpus[c].noff == 1 && !s.cpus[c].intr && s.cpus[c].proc == p
    ensures forall q :: IsProc(s, q) && s.lock[q] == c ==> q == p
    ensures s.cpus[c].run < 0 && s.cpus[c].spc == Back(p) ==> s.procs[p].status != RUNNING
    ensures s.cpus[c].run == p && s.procs[p].pc.Switching? ==> s.procs[p].status != RUNNING
  {
    RunKeeps(run, first, s);
    hide Leads;
    assert CpuAt(s, c) && LockAt(s, c, p) && ProcAt(s, p);
    forall q | IsProc(s, q) && s.lock[q] == c ensures q == p { assert LockAt(s, c, q); }
  }

  /** wait reaches freeproc only for a process that no CPU is using in any way: not its kernel
      stack, not its kernel page table, not as the scheduler's current process. */
  lemma ReapSafe(run: Run, first: State, s: State, c: int, d: int)
    requires Leads(run, first, s) && IsCpu(s, c) && IsCpu(s, d) && IsProc(s, s.cpus[c].run) && s.procs[s.cpus[c].run].pc.WaitChild?
    requires IsProc(s, s.procs[s.cpus[c].run].pc.q) && s.procs[s.procs[s.cpus[c].run].pc.q].status == ZOMBIE
    ensures !Uses(s, d, s.procs[s.cpus[c].run].pc.q) && s.cpus[d].proc != s.procs[s.cpus[c].run].pc.q
  {
    RunKeeps(run, first, s);
    hide Leads;
    var q := s.procs[s.cpus[c].run].pc.q;
    ReapedZombie(s, c);
    assert CpuAt(s, c) && CpuAt(s, d) && ProcAt(s, q) && LockAt(s, c, q) && LockAt(s, d, q);
  }

  /** When a thread has given up its last lock, interrupts are as they were when it took its
      first, whatever CPU it has come back on and whatever threads ran there meanwhile. */
  lemma InterruptsRestored(run: Run, first: State, s: State, c: int)
    requires Leads(run, first, s) && IsCpu(s, c) && IsProc(s, s.cpus[c].run) && s.cpus[c].noff == 0
    ensures s.cpus[c].intr == s.procs[s.cpus[c].run].want
  {
    RunKeeps(run, first, s);
    assert CpuAt(s, c);
  }

  lemma OwnWant(s: State, s': State, step: Step)
    requires ThreadNext(s, s', step) && !step.SetIntr? && (step.Resume? ==> s.procs[s.cpus[step.c].run].pc != On(KFirst))
    requires |s'.procs| == |s.procs|
    requires Takes(step) || Gives(step) ==> CpuAt(s, step.c) && ProcAt(s, s.cpus[step.c].run)
    ensures s'.procs[s.cpus[step.c].run].want == s.procs[s.cpus[step.c].run].want
  {
    hide CpuAt, StatusOk;
  }

  /** Only SetIntr, and starting to run for the first time, change that state. */
  lemma WantKept(s: State, s': State, step: Step, p: int)
    requires Inv(s) && Next(s, s', step) && IsProc(s, p) && |s'.procs| == |s.procs|
    requires s'.procs[p].want != s.procs[p].want
    ensures IsCpu(s, step.c) && s.cpus[step.c].run == p && (step.SetIntr? || (step.Resume? && s.procs[p].pc == On(KFirst)))
  {
    ProcFramed(s, s', step);
    assert CpuAt(s, step.c) && ProcAt(s, p);
    hide Inv, CpuAt, ProcAt, ThreadNext;
    if ThreadNext(s, s', step) && s.cpus[step.c].run == p && !step.SetIntr? && !(step.Resume? && s.procs[p].pc == On(KFirst)) {
      OwnWant(s, s', step);
    }
  }
}
