/** Any number of threads that visit a pipe (kernel/pipe.c 48-120), in every interleaving, over
    the steps of SleepWakeup.  Channel NREAD's condition is that a sleeping reader may go on,
    channel NWRITE's that a sleeping writer may.  What the visits do is what Pipe proves of
    pipewrite, piperead and pipeclose. */
module PipeRuns {
  import opened SleepWakeup
  import opened Pipe

  /** A visit that began with the ring start and has done the first k of its acts. */
  datatype Plan = NoPlan | Visiting(start: Ring, acts: seq<Act>, k: int)

  datatype PState = PState(sys: State, ring: Ring, plan: seq<Plan>)

  datatype PStep =
    | Sys(t: Step)                       // inside sleep, wakeup and the scheduler, or of other code
    | Begin(p: int, acts: seq<Act>)      // under the lock; acts are what the call is going to do
    | Perform(p: int)                    // the next act of the visit
    | Leave(p: int)                      // release(&pi->lock)

  function Actor(step: PStep): int
  {
    match step
    case Sys(t) => t.p
    case Begin(p, _) => p
    case Perform(p) => p
    case Leave(p) => p
  }

  ghost predicate PSized(s: PState)
  {
    Sized(s.sys) && |s.plan| == |s.sys.pc| && |s.sys.ready| >= 2 && s.sys.lockOf[NREAD] == s.sys.lockOf[NWRITE] && Fine(s.ring)
  }

  ghost predicate PProc(s: PState, p: int) { PSized(s) && 0 <= p < |s.plan| }

  /** pi->lock */
  ghost function PipeLock(s: PState): int
    requires PSized(s)
  {
    s.sys.lockOf[NREAD]
  }

  predicate IsPipe(c: int) { c == NREAD || c == NWRITE }

  // ---- the steps ----

  predicate Elsewhere(t: Step)
  {
    t.Acquire? || t.Release? || ((t.MakeTrue? || t.MakeFalse? || t.Test? || t.CallWakeup?) && !IsPipe(t.r))
  }

  ghost predicate Enabled(s: PState, step: PStep)
  {
    PProc(s, Actor(step)) && var p := Actor(step);
    match step
    case Sys(t) => Inner(t) || (s.plan[p].NoPlan? && Elsewhere(t))
    case Begin(_, acts) => s.plan[p].NoPlan? && s.sys.pc[p] == Inside(PipeLock(s), {}) && Lawful(s.ring, acts)
    case Perform(_) => s.plan[p].Visiting? && 0 <= s.plan[p].k < |s.plan[p].acts| && s.sys.pc[p].Inside?
    case Leave(_) => s.plan[p].Visiting? && s.plan[p].k == |s.plan[p].acts| && s.sys.pc[p].Inside?
  }

  ghost function RingAfter(s: PState, step: PStep): Ring
    requires Enabled(s, step)
  {
    if step.Perform? then Do(s.ring, s.plan[step.p].acts[s.plan[step.p].k]) else s.ring
  }

  ghost function Flips(p: int, c: int, before: bool, after: bool): Work
  {
    if before == after then Nothing else if after then Does(MakeTrue(p, c)) else Does(MakeFalse(p, c))
  }

  /** What a step does to the state of SleepWakeup: an act that changes whether sleepers may go
      on makes that condition true or false. */
  ghost function WorkOf(s: PState, step: PStep): Work
    requires Enabled(s, step)
  {
    match step
    case Sys(t) => Does(t)
    case Begin(_, _) => Nothing
    case Leave(p) => Does(Release(p))
    case Perform(p) =>
      var a, r' := s.plan[p].acts[s.plan[p].k], RingAfter(s, step);
      if a.Wake? then Does(CallWakeup(p, a.c))
      else if a.Sleep? then Does(Test(p, a.c))
      else if Can(s.ring, NREAD) != Can(r', NREAD) then Flips(p, NREAD, Can(s.ring, NREAD), Can(r', NREAD))
      else Flips(p, NWRITE, Can(s.ring, NWRITE), Can(r', NWRITE))
  }

  ghost function PlanAfter(s: PState, step: PStep): Plan
    requires Enabled(s, step)
  {
    match step
    case Sys(t) => s.plan[t.p]
    case Begin(_, acts) => Visiting(s.ring, acts, 0)
    case Leave(_) => NoPlan
    case Perform(p) =>
      var plan := s.plan[p];
      if plan.acts[plan.k].Sleep? then NoPlan else plan.(k := plan.k + 1)
  }

  ghost predicate PNext(s: PState, s': PState, step: PStep)
  {
    && Enabled(s, step)
    && SysMove(s.sys, s'.sys, WorkOf(s, step))
    && s' == PState(s'.sys, RingAfter(s, step), s.plan[Actor(step) := PlanAfter(s, step)])
  }

  // ---- the invariant ----

  /** Owing no wakeup of the pipe, and not in one. */
  ghost predicate Apart(pc: Pc)
  {
    match pc
    case Inside(_, owes) => NREAD !in owes && NWRITE !in owes
    case Waking(_, owes, c, _) => NREAD !in owes && NWRITE !in owes && !IsPipe(c)
    case WakingLocked(_, owes, c, _) => NREAD !in owes && NWRITE !in owes && !IsPipe(c)
    case _ => true
  }

  /** Holding the lock, and owing what the visit owes. */
  ghost predicate Within(pc: Pc, l: int, owed: set<int>)
  {
    match pc
    case Inside(m, owes) => m == l && owes == owed
    case Waking(m, owes, c, _) => m == l && owes == owed && IsPipe(c)
    case WakingLocked(m, owes, c, _) => m == l && owes == owed && IsPipe(c)
    case _ => false
  }

  ghost predicate Sound(plan: Plan, ring: Ring)
  {
    plan.Visiting? && Fine(plan.start) && Lawful(plan.start, plan.acts) && 0 <= plan.k <= |plan.acts|
    && !Slept(plan.acts[..plan.k]) && After(plan.start, plan.acts[..plan.k]).r == ring
  }

  ghost predicate PlanAt(s: PState, p: int)
  {
    PProc(s, p) ==>
      if s.plan[p].NoPlan? then Apart(s.sys.pc[p])
      else Sound(s.plan[p], s.ring) && Within(s.sys.pc[p], PipeLock(s), After(s.plan[p].start, s.plan[p].acts[..s.plan[p].k]).owes)
  }

  ghost predicate Agree(s: PState)
  {
    PSized(s) && Held(s.ring) <= PIPESIZE && s.sys.ready[NREAD] == Can(s.ring, NREAD) && s.sys.ready[NWRITE] == Can(s.ring, NWRITE)
  }

  ghost predicate PInv(s: PState)
  {
    && PSized(s) && Inv(s.sys) && Agree(s)
    && (forall p {:trigger PlanAt(s, p)} :: PlanAt(s, p))
  }

  // ---- every step keeps it ----

  ghost predicate PFrame(s: PState, s': PState, a: int)
  {
    && PSized(s) && PSized(s') && PProc(s, a) && |s'.plan| == |s.plan| && s'.sys.lockOf == s.sys.lockOf && |s'.sys.ready| == |s.sys.ready|
    && (forall p :: 0 <= p < |s.plan| && p != a ==> s'.plan[p] == s.plan[p] && s'.sys.pc[p] == s.sys.pc[p])
  }

  lemma PFramed(s: PState, s': PState, step: PStep)
    requires PInv(s) && PNext(s, s', step)
    ensures PFrame(s, s', Actor(step)) && Inv(s'.sys)
  {
    hide PlanAt, LockAt, PlockAt, ThreadAt, HeardAt, Do, Agree;
    var w := WorkOf(s, step);
    if w.Does? {
      Framed(s.sys, s'.sys, w.t);
      Keeps(s.sys, s'.sys, w.t);
    }
  }

  /** The next act of a lawful visit. */
  lemma {:induction false} Prefix(r: Ring, acts: seq<Act>, k: int)
    requires Fine(r) && Lawful(r, acts) && 0 <= k < |acts|
    ensures !Slept(acts[..k]) && May(After(r, acts[..k]), acts[k])
    ensures After(r, acts[..k + 1]) == Done(After(r, acts[..k]), acts[k]) && (Slept(acts[..k + 1]) <==> acts[k].Sleep?)
    decreases |acts|
  {
    var before := acts[..|acts| - 1];
    if k < |acts| - 1 {
      Prefix(r, before, k);
      assert before[..k] == acts[..k] && before[..k + 1] == acts[..k + 1];
    } else {
      assert acts[..k + 1] == acts && acts[..k + 1][..k] == acts[..k];
    }
  }

  /** An act changes at most one of the two conditions. */
  lemma OneFlip(r: Ring, owes: set<int>, a: Act)
    requires Fine(r) && Held(r) <= PIPESIZE && May(Visit(r, owes), a)
    ensures Can(Do(r, a), NREAD) == Can(r, NREAD) || Can(Do(r, a), NWRITE) == Can(r, NWRITE)
    ensures Held(Do(r, a)) <= PIPESIZE
  {
    HeldAfter(r, a);
    FullHeld(r);
    FullHeld(Do(r, a));
  }

  /** A thread in a visit holds the lock, so it is the only one. */
  lemma OneVisitor(s: PState, p: int, q: int)
    requires PInv(s) && PProc(s, p) && PProc(s, q) && s.plan[p].Visiting? && s.plan[q].Visiting?
    ensures p == q
  {
    assert PlanAt(s, p) && PlanAt(s, q);
    assert LockAt(s.sys, p, PipeLock(s)) && LockAt(s.sys, q, PipeLock(s));
  }

  lemma OtherPlan(s: PState, s': PState, step: PStep, p: int)
    requires PInv(s) && PNext(s, s', step) && PFrame(s, s', Actor(step)) && PProc(s, p) && p != Actor(step)
    ensures PlanAt(s', p)
  {
    assert PlanAt(s, p);
    if s.plan[p].Visiting? && step.Perform? { OneVisitor(s, p, step.p); }
    hide PInv, Apart, Within, Sound;
  }

  lemma SysPlan(s: PState, s': PState, step: PStep)
    requires PInv(s) && PNext(s, s', step) && PFrame(s, s', Actor(step)) && step.Sys?
    ensures PlanAt(s', step.t.p)
  {
    assert PlanAt(s, step.t.p) && ThreadAt(s.sys, step.t.p);
    hide PInv, Sound, After;
  }

  lemma BeginPlan(s: PState, s': PState, step: PStep)
    requires PInv(s) && PNext(s, s', step) && PFrame(s, s', Actor(step)) && step.Begin?
    ensures PlanAt(s', step.p)
  {
    assert step.acts[..0] == [];
    Begun(s.ring);
  }

  /** A thread about to act is in the middle of a sound visit. */
  lemma AtAct(s: PState, p: int)
    requires PInv(s) && PProc(s, p) && s.plan[p].Visiting? && s.plan[p].k < |s.plan[p].acts|
    ensures var plan := s.plan[p];
      && 0 <= plan.k && Fine(plan.start) && Sound(plan, s.ring)
      && var v, a := After(plan.start, plan.acts[..plan.k]), plan.acts[plan.k];
      && v.r == s.ring && May(v, a) && After(plan.start, plan.acts[..plan.k + 1]) == Done(v, a)
      && (Slept(plan.acts[..plan.k + 1]) <==> a.Sleep?) && Within(s.sys.pc[p], PipeLock(s), v.owes)
  {
    assert PlanAt(s, p);
    Prefix(s.plan[p].start, s.plan[p].acts, s.plan[p].k);
  }

  /** The state of SleepWakeup after a step of thread p that only it takes part in. */
  ghost function Stepped(s: State, p: int, w: Work): State
    requires Proc(s, p) && s.pc[p].Inside? && 0 <= s.pc[p].l < |s.lock|
    requires w.Does? && (w.t.MakeTrue? || w.t.MakeFalse?) ==> 0 <= w.t.r < |s.ready|
  {
    if w.Nothing? then s
    else
      var l, owes := s.pc[p].l, s.pc[p].owes;
      match w.t
      case MakeTrue(_, c) => s.(pc := s.pc[p := Inside(l, owes + {c})], ready := s.ready[c := true])
      case MakeFalse(_, c) => s.(ready := s.ready[c := false])
      case Test(_, c) => s.(pc := s.pc[p := Tested(c)])
      case CallWakeup(_, c) => s.(pc := s.pc[p := Waking(l, owes - {c}, c, 0)])
      case Release(_) => s.(pc := s.pc[p := Outside], lock := s.lock[l := FREE])
      case _ => s
  }

  lemma IsStepped(s: State, s': State, p: int, w: Work)
    requires Sized(s) && Proc(s, p) && s.pc[p].Inside? && SysMove(s, s', w)
    requires w.Does? ==> w.t.p == p && (w.t.MakeTrue? || w.t.MakeFalse? || w.t.Test? || w.t.CallWakeup? || w.t.Release?)
    requires 0 <= s.pc[p].l < |s.lock|
    ensures w.Does? && (w.t.MakeTrue? || w.t.MakeFalse?) ==> 0 <= w.t.r < |s.ready|
    ensures s' == Stepped(s, p, w)
  {
  }

  lemma OtherReady(s: State, s': State, t: Step, c: int)
    requires SleepWakeup.Next(s, s', t) && (Inner(t) || Elsewhere(t)) && IsPipe(c) && 0 <= c < |s.ready|
    ensures |s'.ready| == |s.ready| && s'.ready[c] == s.ready[c]
  {
  }

  lemma PerformPlan(s: PState, s': PState, step: PStep)
    requires PInv(s) && PNext(s, s', step) && PFrame(s, s', Actor(step)) && step.Perform?
    ensures PlanAt(s', step.p)
  {
    var p, plan := step.p, s.plan[step.p];
    AtAct(s, p);
    var v, a := After(plan.start, plan.acts[..plan.k]), plan.acts[plan.k];
    OneFlip(s.ring, v.owes, a);
    assert ThreadAt(s.sys, p);
    IsStepped(s.sys, s'.sys, p, WorkOf(s, step));
    hide PInv, After, Do, Can, Lawful, Slept, SleepWakeup.Next, SysMove, Held;
  }

  lemma LeavePlan(s: PState, s': PState, step: PStep)
    requires PInv(s) && PNext(s, s', step) && PFrame(s, s', Actor(step)) && step.Leave?
    ensures PlanAt(s', step.p)
  {
    hide PInv, After;
  }

  lemma KeepsPlans(s: PState, s': PState, step: PStep)
    requires PInv(s) && PNext(s, s', step) && PFrame(s, s', Actor(step))
    ensures forall p :: PlanAt(s', p)
  {
    forall p ensures PlanAt(s', p) {
      hide PInv, PNext, PlanAt;
      if PProc(s', p) {
        if p != Actor(step) { OtherPlan(s, s', step, p); }
        else if step.Sys? { SysPlan(s, s', step); }
        else if step.Begin? { BeginPlan(s, s', step); }
        else if step.Perform? { PerformPlan(s, s', step); }
        else { LeavePlan(s, s', step); }
      } else {
        NoThread(s', p);
      }
    }
  }

  lemma NoThread(s: PState, p: int)
    requires !PProc(s, p)
    ensures PlanAt(s, p)
  {
  }

  lemma PerformAgree(s: PState, s': PState, step: PStep)
    requires PInv(s) && PNext(s, s', step) && PFrame(s, s', Actor(step)) && step.Perform?
    ensures Agree(s')
  {
    AtAct(s, step.p);
    var plan := s.plan[step.p];
    OneFlip(s.ring, After(plan.start, plan.acts[..plan.k]).owes, plan.acts[plan.k]);
    assert ThreadAt(s.sys, step.p);
    IsStepped(s.sys, s'.sys, step.p, WorkOf(s, step));
    hide PInv, PlanAt, After, Do, Can, Lawful, Slept, Held, Sound, Within, May, SleepWakeup.Next, SysMove;
  }

  lemma KeepsAgree(s: PState, s': PState, step: PStep)
    requires PInv(s) && PNext(s, s', step) && PFrame(s, s', Actor(step))
    ensures Agree(s')
  {
    if step.Perform? {
      PerformAgree(s, s', step);
    } else if step.Sys? {
      OtherReady(s.sys, s'.sys, step.t, NREAD);
      OtherReady(s.sys, s'.sys, step.t, NWRITE);
      hide PlanAt, Do, Can, Held, SleepWakeup.Next;
    } else {
      hide PlanAt, Do, Can, Held;
    }
  }

  /** Every step of every thread keeps the invariant. */
  lemma PKeeps(s: PState, s': PState, step: PStep)
    requires PInv(s) && PNext(s, s', step)
    ensures PInv(s')
  {
    PFramed(s, s', step);
    KeepsPlans(s, s', step);
    KeepsAgree(s, s', step);
    hide PNext, PlanAt, Agree, Inv;
  }

  // ---- whole runs ----

  ghost predicate PInit(s: PState)
  {
    && PSized(s) && Init(s.sys) && Agree(s)
    && (forall p :: 0 <= p < |s.plan| ==> s.plan[p].NoPlan?)
  }

  datatype PRun = PStart | PThen(before: PRun, s: PState, step: PStep)

  ghost predicate PLeads(run: PRun, first: PState, s: PState)
  {
    match run
    case PStart => PInit(first) && s == first
    case PThen(before, t, step) => PLeads(before, first, t) && PNext(t, s, step)
  }

  lemma {:induction false} PRunKeeps(run: PRun, first: PState, s: PState)
    requires PLeads(run, first, s)
    ensures PInv(s)
  {
    match run
    case PStart =>
      RunKeeps(Start, first.sys, s.sys);
      forall p ensures PlanAt(s, p) {}
    case PThen(before, t, step) =>
      hide PNext, PInv;
      PRunKeeps(before, first, t);
      PKeeps(t, s, step);
  }

  /** A run of visits, seen as a run of SleepWakeup. */
  ghost function Seen(run: PRun): Run
  {
    match run
    case PStart => Start
    case PThen(before, t, step) =>
      if Enabled(t, step) && WorkOf(t, step).Does? then Then(Seen(before), t.sys, WorkOf(t, step).t) else Seen(before)
  }

  lemma {:induction false} SeenLeads(run: PRun, first: PState, s: PState)
    requires PLeads(run, first, s)
    ensures Leads(Seen(run), first.sys, s.sys)
  {
    match run
    case PStart =>
    case PThen(before, t, step) => SeenLeads(before, first, t); hide SleepWakeup.Next, Init, WorkOf;
  }

  /** Only threads in a visit owe a wakeup of the pipe or are in one. */
  lemma InVisit(s: PState, q: int, c: int, p: int)
    requires PInv(s) && IsPipe(c) && Pending(s.sys, q, c, p)
    ensures PProc(s, q) && s.plan[q].Visiting?
  {
    assert PlanAt(s, q);
  }

  /** No lost wakeup in pipes: while a process sleeps on &pi->nread or &pi->nwrite although it may
      go on, a thread that is visiting the pipe has yet to wake it. */
  lemma PipeWakes(run: PRun, first: PState, s: PState, p: int, c: int)
    requires PLeads(run, first, s) && PProc(s, p) && IsPipe(c) && s.sys.status[p] == Sleeping && s.sys.chan[p] == c && Can(s.ring, c)
    ensures exists q :: q != p && PProc(s, q) && s.plan[q].Visiting? && Pending(s.sys, q, c, p)
  {
    PRunKeeps(run, first, s);
    SeenLeads(run, first, s);
    NoLostWakeup(Seen(run), first.sys, s.sys, p, c);
    var q :| q != p && Pending(s.sys, q, c, p);
    InVisit(s, q, c, p);
  }

  /** A visit never waits for SleepWakeup to allow its next act, and at its end it can release the
      lock exactly if it is settled. */
  lemma GoesOn(s: PState, p: int)
    requires PInv(s) && PProc(s, p) && s.plan[p].Visiting? && s.sys.pc[p].Inside?
    ensures s.plan[p].k < |s.plan[p].acts| ==> exists s' :: PNext(s, s', Perform(p))
    ensures s.plan[p].k == |s.plan[p].acts| && Fine(s.plan[p].start) ==>
      ((exists s' :: PNext(s, s', Leave(p))) <==> Settled(s.plan[p].start, s.plan[p].acts))
  {
    var plan := s.plan[p];
    assert PlanAt(s, p) && ThreadAt(s.sys, p);
    var step := if plan.k < |plan.acts| then Perform(p) else Leave(p);
    if plan.k < |plan.acts| {
      AtAct(s, p);
      PerformWorks(s, p);
      var s' := PState(Stepped(s.sys, p, WorkOf(s, step)), RingAfter(s, step), s.plan[p := PlanAfter(s, step)]);
      assert PNext(s, s', step);
    } else {
      assert plan.acts[..plan.k] == plan.acts;
      if Settled(plan.start, plan.acts) {
        var s' := PState(Stepped(s.sys, p, WorkOf(s, step)), RingAfter(s, step), s.plan[p := PlanAfter(s, step)]);
        assert PNext(s, s', step);
      }
    }
  }

  lemma PerformWorks(s: PState, p: int)
    requires PInv(s) && PProc(s, p) && s.plan[p].Visiting? && s.sys.pc[p].Inside? && 0 <= s.plan[p].k < |s.plan[p].acts|
    ensures var w := WorkOf(s, Perform(p));
      && 0 <= s.sys.pc[p].l < |s.sys.lock| && (w.Does? && (w.t.MakeTrue? || w.t.MakeFalse?) ==> 0 <= w.t.r < |s.sys.ready|)
      && SysMove(s.sys, Stepped(s.sys, p, w), w)
  {
    AtAct(s, p);
    assert ThreadAt(s.sys, p);
    hide PInv, After, Lawful, Slept, Held, Do;
  }

  // ---- pipewrite's return from a full pipe ----

  /** When a visit gives the lock up without the wakeups it owes, that is harmless exactly if
      nobody sleeps for them. */
  lemma GivesUp(s: PState, p: int)
    requires PInv(s) && PProc(s, p) && s.plan[p].Visiting? && s.plan[p].k == |s.plan[p].acts| && s.sys.pc[p].Inside?
    requires 0 <= s.sys.pc[p].l < |s.sys.lock|
    ensures (forall q, c :: HeardAt(Abandoned(s.sys, p), q, c)) <==>
            (forall q, c :: c in s.sys.pc[p].owes && IsPipe(c) && Can(s.ring, c) ==> !Committed(s.sys, q, c))
  {
    var t, owes := Abandoned(s.sys, p), s.sys.pc[p].owes;
    assert PlanAt(s, p) && ThreadAt(s.sys, p);
    if forall q, c :: HeardAt(t, q, c) {
      forall q, c | c in owes && IsPipe(c) && Can(s.ring, c) ensures !Committed(s.sys, q, c) {
        if Committed(s.sys, q, c) { NobodyElse(s, p, q, c); }
      }
    }
    if forall q, c :: c in owes && IsPipe(c) && Can(s.ring, c) ==> !Committed(s.sys, q, c) {
      forall q, c ensures HeardAt(t, q, c) {
        if Committed(t, q, c) && Chan(t, c) && t.ready[c] { StillHeard(s, p, q, c); }
      }
    }
  }

  /** A sleeper that p owed a wakeup has no other coming. */
  lemma NobodyElse(s: PState, p: int, q: int, c: int)
    requires PInv(s) && PProc(s, p) && s.plan[p].Visiting? && s.sys.pc[p].Inside? && 0 <= s.sys.pc[p].l < |s.sys.lock|
    requires IsPipe(c) && Can(s.ring, c) && Committed(s.sys, q, c)
    ensures !HeardAt(Abandoned(s.sys, p), q, c)
  {
    var t := Abandoned(s.sys, p);
    assert ThreadAt(s.sys, p) && ThreadAt(s.sys, q);
    forall x ensures !Pending(t, x, c, q) {
      if Pending(t, x, c, q) {
        assert x != p && Pending(s.sys, x, c, q);
        InVisit(s, x, c, q);
        OneVisitor(s, p, x);
        assert false;
      }
    }
    hide LockAt, PlockAt, ThreadAt, PlanAt;
  }

  lemma StillHeard(s: PState, p: int, q: int, c: int)
    requires PInv(s) && PProc(s, p) && s.plan[p].Visiting? && s.sys.pc[p].Inside? && 0 <= s.sys.pc[p].l < |s.sys.lock|
    requires Chan(s.sys, c) && s.sys.ready[c] && Committed(Abandoned(s.sys, p), q, c)
    requires c in s.sys.pc[p].owes && IsPipe(c) && Can(s.ring, c) ==> !Committed(s.sys, q, c)
    ensures HeardAt(Abandoned(s.sys, p), q, c)
  {
    assert PlanAt(s, p) && HeardAt(s.sys, q, c);
    assert Committed(s.sys, q, c);
    var x :| Pending(s.sys, x, c, q);
    if x == p { OwedIsPipe(s.plan[p].start, s.plan[p].acts[..s.plan[p].k]); }
    assert Pending(Abandoned(s.sys, p), x, c, q);
  }

  lemma {:induction false} OwedIsPipe(r: Ring, acts: seq<Act>)
    requires Fine(r)
    ensures After(r, acts).owes <= {NREAD, NWRITE}
    decreases |acts|
  {
    if acts != [] { OwedIsPipe(r, acts[..|acts| - 1]); }
  }
}
