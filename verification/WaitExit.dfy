/** wait and exit (kernel/proc.c 382-525) as programs over the steps of Scheduler: in which order
    wait looks at the slots, which parent exit locks, and to whom it gives its children. */
module WaitExit {
  import opened Scheduler

  /** scan[p] is the slot that wait's loop of process p has come to, or more than there are slots
      when wait is about to return; known[p] is original_parent in exit, or NOPROC. */
  datatype WState = WState(sys: State, scan: seq<int>, known: seq<int>, init: int)

  datatype WStep =
    | Sys(t: Step)       // a step of Scheduler
    | Advance(c: int)    // wait: np->parent != p, np++
    | Read(c: int)       // exit: original_parent = p->parent, under p's lock

  function CpuOf(step: WStep): int
  {
    match step
    case Sys(t) => t.c
    case Advance(c) => c
    case Read(c) => c
  }

  ghost predicate WSized(w: WState)
  {
    |w.scan| == |w.known| == |w.sys.procs| == |w.sys.lock|
  }

  ghost predicate Active(w: WState, c: int)
  {
    WSized(w) && IsCpu(w.sys, c) && IsProc(w.sys, w.sys.cpus[c].run)
  }

  /** What the programs of wait and exit demand of a step of Scheduler. */
  ghost predicate Ordered(w: WState, t: Step)
  {
    var s := w.sys;
    t.LookAt? || t.WaitSleep? || t.ExitP? || t.Reparent? ==>
      Active(w, t.c) && var p := s.cpus[t.c].run;
      match t
      case LookAt(_, q) => q == w.scan[p]
      case WaitSleep(_) => w.scan[p] == |s.procs|
      case ExitP(_, q) => q == w.known[p] && p != w.init
      case Reparent(_, _, i) => i == w.init
      case _ => true
  }

  ghost function ScanAfter(w: WState, t: Step): seq<int>
  {
    var s := w.sys;
    if !Active(w, t.c) then w.scan
    else
      var p := s.cpus[t.c].run;
      match t
      case Wait(_) => w.scan[p := 0]
      case PassBy(_) =>
        if s.procs[p].pc.WaitChild? && IsProc(s, s.procs[p].pc.q) && s.procs[s.procs[p].pc.q].status != ZOMBIE then w.scan[p := w.scan[p] + 1]
        else w.scan[p := |s.procs| + 1]
      case Reap(_) => w.scan[p := |s.procs| + 1]
      case Resume(_) => if s.procs[p].pc == On(KWait) then w.scan[p := 0] else w.scan
      case _ => w.scan
  }

  ghost function KnownAfter(w: WState, t: Step): seq<int>
  {
    var s := w.sys;
    if !Active(w, t.c) then w.known
    else
      var p := s.cpus[t.c].run;
      match t
      case Reap(_) => if s.procs[p].pc.WaitChild? && IsProc(s, s.procs[p].pc.q) then w.known[s.procs[p].pc.q := NOPROC] else w.known
      case Born(_) => if s.procs[p].pc.Forking? && IsProc(s, s.procs[p].pc.q) then w.known[s.procs[p].pc.q := NOPROC] else w.known
      case _ => w.known
  }

  ghost predicate WNext(w: WState, w': WState, step: WStep)
  {
    match step
    case Sys(t) => Ordered(w, t) && Next(w.sys, w'.sys, t) && w' == WState(w'.sys, ScanAfter(w, t), KnownAfter(w, t), w.init)
    case Advance(c) =>
      Active(w, c) && var p := w.sys.cpus[c].run;
      w.sys.procs[p].pc.WaitHeld? && 0 <= w.scan[p] < |w.sys.procs| && w.sys.procs[w.scan[p]].parent != p
      && w' == w.(scan := w.scan[p := w.scan[p] + 1])
    case Read(c) =>
      Active(w, c) && var p := w.sys.cpus[c].run;
      w.sys.procs[p].pc.Running? && w.sys.lock[p] == FREE && w' == w.(known := w.known[p := w.sys.procs[p].parent])
  }

  // ---- the invariant ----

  predicate InExit(pc: Pc) { pc.ExitParent? || pc.ExitBoth? || pc.ExitZombie? }

  /** A parent changes only into init. */
  ghost predicate KnowsAt(w: WState, p: int)
  {
    WSized(w) && IsProc(w.sys, p) ==>
      && (w.known[p] != NOPROC ==> w.sys.procs[p].parent == w.known[p] || w.sys.procs[p].parent == w.init)
      && (InExit(w.sys.procs[p].pc) ==> w.sys.procs[p].pc.q == w.known[p] && p != w.init && w.known[p] != NOPROC)
  }

  /** Asleep in wait, and so on the address of its own slot. */
  ghost predicate InWait(q: Proc)
  {
    q.status == SLEEPING && (q.pc == Off(KWait) || q.pc == Switching(KWait))
  }

  ghost predicate ChanAt(s: State, p: int)
  {
    IsProc(s, p) && InWait(s.procs[p]) ==> s.procs[p].asleepOn == p
  }

  /** Process p would not see that q is a ZOMBIE before it sleeps: it sleeps already, or its loop
      is past q. */
  ghost predicate Missed(w: WState, p: int, q: int)
    requires WSized(w) && IsProc(w.sys, p)
  {
    var pc := w.sys.procs[p].pc;
    InWait(w.sys.procs[p]) || ((pc.WaitHeld? || pc.WaitChild?) && q < w.scan[p] <= |w.sys.procs|)
  }

  ghost predicate HeardAt(w: WState, p: int, q: int)
  {
    WSized(w) && IsProc(w.sys, p) && IsProc(w.sys, q) && p != w.init && w.sys.procs[q].parent == p && w.sys.procs[q].status == ZOMBIE ==>
      !Missed(w, p, q)
  }

  ghost predicate ScanAt(w: WState, p: int)
  {
    WSized(w) && IsProc(w.sys, p) && w.sys.procs[p].pc.WaitChild? ==> w.scan[p] == w.sys.procs[p].pc.q
  }

  ghost predicate WInv(w: WState)
  {
    && WSized(w) && Inv(w.sys)
    && (forall p {:trigger KnowsAt(w, p)} :: KnowsAt(w, p))
    && (forall p {:trigger ChanAt(w.sys, p)} :: ChanAt(w.sys, p))
    && (forall p {:trigger ScanAt(w, p)} :: ScanAt(w, p))
    && (forall p, q {:trigger HeardAt(w, p, q)} :: HeardAt(w, p, q))
  }

  // ---- what a step of Scheduler does to one process ----

  /** Of a process other than the one that runs. */
  ghost predicate OtherMove(s: State, s': State, t: Step, x: int)
    requires IsCpu(s, t.c) && IsProc(s, s.cpus[t.c].run) && IsProc(s, x) && IsProc(s', x)
  {
    var me, a, b := s.procs[s.cpus[t.c].run], s.procs[x], s'.procs[x];
    var mine := (me.pc.WaitChild? || me.pc.Forking? || me.pc.ExitBoth?) && x == me.pc.q;
    && (b == a || t.Reap? || t.Born? || t.Wake? || t.ExitZ? || t.Reparent?)
    && (t.Reparent? ==> b == a || b == a.(parent := t.init))
    && (t.Wake? || t.ExitZ? ==> b == a || b == a.(status := RUNNABLE))
    && (t.Reap? ==> if mine then b.status == UNUSED && b.pc == Unborn && b.parent == NOPROC else b == a)
    && (t.Born? ==> if mine then b.status == RUNNABLE && b.pc == Off(KFirst) else b == a)
    && (t.ExitZ? && mine ==> b.status != SLEEPING || b.asleepOn != x)
  }

  lemma OtherMoves(s: State, s': State, t: Step, x: int)
    requires ThreadNext(s, s', t) && IsProc(s, x) && IsProc(s', x) && x != s.cpus[t.c].run
    ensures OtherMove(s, s', t, x)
  {
  }

  /** Of the process that runs. */
  ghost predicate OwnMove(s: State, s': State, t: Step, p: int)
    requires IsProc(s, p) && IsProc(s', p)
  {
    var a, b := s.procs[p], s'.procs[p];
    && b.parent == a.parent && (b.status == ZOMBIE ==> a.status == ZOMBIE || t.ExitZ?)
    && (InWait(b) ==> if t.WaitSleep? then a.pc.WaitHeld? && b.asleepOn == p else InWait(a) && b.asleepOn == a.asleepOn)
    && (b.pc.WaitHeld? ==> t.Wait? || ((t.Reap? || t.PassBy?) && a.pc.WaitChild? && IsProc(s, a.pc.q)) || (t.Resume? && a.pc == On(KWait)))
    && (b.pc.WaitChild? ==> t.LookAt? && a.pc.WaitHeld? && b.pc.q == t.q)
    && (t.Reap? ==> a.pc.WaitChild? && IsProc(s, a.pc.q)) && (t.Born? ==> a.pc.Forking? && IsProc(s, a.pc.q)) && (t.ExitZ? ==> a.pc.ExitBoth?)
    && (InExit(b.pc) ==> if t.ExitP? then b.pc.q == t.q && IsProc(s, t.q) else InExit(a.pc) && b.pc.q == a.pc.q)
  }

  lemma OwnTakes(s: State, s': State, t: Step)
    requires ThreadNext(s, s', t) && Takes(t) && |s'.procs| == |s.procs| == |s'.lock| && ProcAt(s, s.cpus[t.c].run)
    ensures OwnMove(s, s', t, s.cpus[t.c].run)
  {
  }

  lemma OwnGives(s: State, s': State, t: Step)
    requires ThreadNext(s, s', t) && Gives(t) && |s'.procs| == |s.procs| == |s'.lock| && ProcAt(s, s.cpus[t.c].run)
    ensures OwnMove(s, s', t, s.cpus[t.c].run)
  {
  }

  lemma OwnKeeps(s: State, s': State, t: Step)
    requires ThreadNext(s, s', t) && !Takes(t) && !Gives(t) && |s'.procs| == |s.procs| == |s'.lock| && ProcAt(s, s.cpus[t.c].run)
    ensures OwnMove(s, s', t, s.cpus[t.c].run)
  {
  }

  lemma OwnMoves(s: State, s': State, t: Step)
    requires ThreadNext(s, s', t) && |s'.procs| == |s.procs| == |s'.lock| && ProcAt(s, s.cpus[t.c].run)
    ensures OwnMove(s, s', t, s.cpus[t.c].run)
  {
    hide ThreadNext, ProcAt, OwnMove, Takes, Gives;
    if Takes(t) { OwnTakes(s, s', t); } else if Gives(t) { OwnGives(s, s', t); } else { OwnKeeps(s, s', t); }
  }

  /** Of any process while a scheduler steps. */
  ghost predicate Idle(a: Proc, b: Proc)
  {
    b == a || (b.parent == a.parent && b.status == RUNNING && !InExit(b.pc) && !b.pc.WaitHeld? && !b.pc.WaitChild?)
  }

  lemma SchedMoves(s: State, s': State, t: Step, x: int)
    requires Inv(s) && SchedNext(s, s', t) && IsProc(s, x) && IsProc(s', x)
    ensures Idle(s.procs[x], s'.procs[x])
  {
    assert CpuAt(s, t.c);
    if t.Give? { Startable'(s, t.c); }
    hide Inv;
  }

  lemma Startable'(s: State, c: int)
    requires Inv(s) && IsCpu(s, c) && s.cpus[c].run < 0 && s.cpus[c].spc.Taken? && IsProc(s, s.cpus[c].spc.p)
    requires s.procs[s.cpus[c].spc.p].status == RUNNABLE
    ensures s.procs[s.cpus[c].spc.p].pc.Off?
  {
    assert LockAt(s, c, s.cpus[c].spc.p);
    Startable(s, c, s.cpus[c].spc.p);
  }

  // ---- every step keeps it ----

  /** The sizes, and the invariant of Scheduler. */
  lemma WFramed(w: WState, w': WState, t: Step)
    requires WInv(w) && WNext(w, w', Sys(t))
    ensures Inv(w'.sys) && WSized(w') && |w'.sys.procs| == |w.sys.procs|
  {
    Keeps(w.sys, w'.sys, t);
    Framed(w.sys, w'.sys, t);
    hide Next, Inv, Frame;
  }

  /** Who steps, and the moves of all. */
  ghost predicate Moved(w: WState, w': WState, t: Step)
  {
    var s, s' := w.sys, w'.sys;
    && WSized(w) && WSized(w') && |s'.procs| == |s.procs| && Ordered(w, t) && w' == WState(s', ScanAfter(w, t), KnownAfter(w, t), w.init)
    && if Active(w, t.c) then
         && OwnMove(s, s', t, s.cpus[t.c].run)
         && forall x :: IsProc(s, x) && x != s.cpus[t.c].run ==> OtherMove(s, s', t, x)
       else forall x :: IsProc(s, x) ==> Idle(s.procs[x], s'.procs[x])
  }

  lemma AllMoved(w: WState, w': WState, t: Step)
    requires WInv(w) && WNext(w, w', Sys(t)) && WSized(w') && |w'.sys.procs| == |w.sys.procs|
    ensures Moved(w, w', t)
  {
    var s, s' := w.sys, w'.sys;
    hide ThreadNext, SchedNext, OwnMove, OtherMove, ProcAt, LockAt, CpuAt, Ordered, Idle;
    if ThreadNext(s, s', t) {
      Runs(s, s', t);
      assert ProcAt(s, s.cpus[t.c].run);
      OwnMoves(s, s', t);
      forall x | IsProc(s, x) && x != s.cpus[t.c].run ensures OtherMove(s, s', t, x) { OtherMoves(s, s', t, x); }
    } else {
      SchedIdle(s, s', t);
      forall x | IsProc(s, x) ensures Idle(s.procs[x], s'.procs[x]) { SchedMoves(s, s', t, x); }
    }
  }

  lemma Runs(s: State, s': State, t: Step)
    requires ThreadNext(s, s', t)
    ensures IsCpu(s, t.c) && IsProc(s, s.cpus[t.c].run)
  {
  }

  lemma MoveOf(w: WState, w': WState, t: Step, x: int)
    requires Moved(w, w', t)
    ensures IsProc(w.sys, x) <==> IsProc(w'.sys, x)
    ensures IsProc(w.sys, x) ==>
      if !Active(w, t.c) then Idle(w.sys.procs[x], w'.sys.procs[x])
      else if x == w.sys.cpus[t.c].run then OwnMove(w.sys, w'.sys, t, x) else OtherMove(w.sys, w'.sys, t, x)
  {
    hide OwnMove, OtherMove, Idle;
  }

  lemma NextKnows(w: WState, w': WState, t: Step, x: int)
    requires WInv(w) && Moved(w, w', t)
    ensures KnowsAt(w', x)
  {
    assert KnowsAt(w, x);
    MoveOf(w, w', t, x);
    hide Inv;
  }

  lemma NextChan(w: WState, w': WState, t: Step, x: int)
    requires WInv(w) && Moved(w, w', t)
    ensures ChanAt(w'.sys, x)
  {
    assert ChanAt(w.sys, x);
    MoveOf(w, w', t, x);
    hide Inv, ScanAfter, KnownAfter;
  }

  lemma NextScan(w: WState, w': WState, t: Step, x: int)
    requires WInv(w) && Moved(w, w', t)
    ensures ScanAt(w', x)
  {
    assert ScanAt(w, x);
    MoveOf(w, w', t, x);
    hide Inv, KnownAfter;
  }

  /** While q exits it holds its parent's lock, so the parent is not in wait, or sleeps there. */
  lemma ParentOut(w: WState, c: int, q: int, p: int)
    requires WInv(w) && Active(w, c) && w.sys.cpus[c].run == q && w.sys.procs[q].pc == ExitBoth(p) && IsProc(w.sys, p) && p != q
    ensures var pc := w.sys.procs[p].pc; !pc.WaitHeld? && !pc.WaitChild? && !pc.Switching?
  {
    assert CpuAt(w.sys, c) && LockAt(w.sys, c, p) && ProcAt(w.sys, p) && LockAt(w.sys, w.sys.procs[p].at, p);
  }

  /** A child that was a ZOMBIE before the step. */
  lemma StillHeard(w: WState, w': WState, t: Step, p: int, q: int)
    requires WInv(w) && Moved(w, w', t) && IsProc(w.sys, p) && IsProc(w.sys, q) && p != w.init
    requires w.sys.procs[q].parent == p && w.sys.procs[q].status == ZOMBIE && w'.sys.procs[q].status == ZOMBIE
    ensures !Missed(w', p, q)
  {
    assert HeardAt(w, p, q) && ScanAt(w, p);
    hide Inv, KnownAfter;
  }

  /** A child that becomes one. */
  lemma NewZombie(w: WState, w': WState, t: Step, p: int, q: int)
    requires WInv(w) && Moved(w, w', t) && IsProc(w.sys, p) && IsProc(w.sys, q) && p != w.init && p != q
    requires Active(w, t.c) && w.sys.cpus[t.c].run == q && t.ExitZ? && w.sys.procs[q].pc.ExitBoth? && w.sys.procs[q].parent == p
    ensures !Missed(w', p, q)
  {
    assert KnowsAt(w, q) && ChanAt(w.sys, p);
    ParentOut(w, t.c, q, p);
    hide Inv, KnownAfter;
  }

  lemma NextHeard(w: WState, w': WState, t: Step, p: int, q: int)
    requires WInv(w) && Moved(w, w', t)
    ensures HeardAt(w', p, q)
  {
    MoveOf(w, w', t, q);
    MoveOf(w, w', t, p);
    if IsProc(w'.sys, p) && IsProc(w'.sys, q) && p != w.init && w'.sys.procs[q].parent == p && w'.sys.procs[q].status == ZOMBIE {
      WasChild(w, w', t, p, q);
      if w.sys.procs[q].status == ZOMBIE { StillHeard(w, w', t, p, q); } else { NewZombie(w, w', t, p, q); }
    }
    hide WInv, Moved, Missed;
  }

  lemma WasChild(w: WState, w': WState, t: Step, p: int, q: int)
    requires WInv(w) && Moved(w, w', t) && IsProc(w.sys, p) && IsProc(w.sys, q) && IsProc(w'.sys, q) && p != w.init
    requires w'.sys.procs[q].parent == p && w'.sys.procs[q].status == ZOMBIE
    ensures w.sys.procs[q].parent == p
    ensures w.sys.procs[q].status == ZOMBIE || (Active(w, t.c) && w.sys.cpus[t.c].run == q && t.ExitZ? && w.sys.procs[q].pc.ExitBoth? && p != q)
  {
    MoveOf(w, w', t, q);
    assert KnowsAt(w, q) && ProcAt(w.sys, q);
    hide Inv, ScanAfter, KnownAfter;
  }

  lemma SysKeeps(w: WState, w': WState, t: Step)
    requires WInv(w) && WNext(w, w', Sys(t))
    ensures WInv(w')
  {
    WFramed(w, w', t);
    AllMoved(w, w', t);
    hide Moved, KnowsAt, ChanAt, ScanAt, HeardAt, Inv, WNext;
    forall x ensures KnowsAt(w', x) { NextKnows(w, w', t, x); }
    forall x ensures ChanAt(w'.sys, x) { NextChan(w, w', t, x); }
    forall x ensures ScanAt(w', x) { NextScan(w, w', t, x); }
    forall p, q ensures HeardAt(w', p, q) { NextHeard(w, w', t, p, q); }
  }

  /** Every step of every process keeps the invariant. */
  lemma WKeeps(w: WState, w': WState, step: WStep)
    requires WInv(w) && WNext(w, w', step)
    ensures WInv(w')
  {
    if step.Sys? {
      SysKeeps(w, w', step.t);
    } else {
      var p := w.sys.cpus[CpuOf(step)].run;
      assert ProcAt(w.sys, p);
      forall x ensures KnowsAt(w', x) { assert KnowsAt(w, x); }
      forall x ensures ScanAt(w', x) { assert ScanAt(w, x); }
      forall x, q ensures HeardAt(w', x, q) { assert HeardAt(w, x, q); }
      hide Inv, ProcAt;
    }
  }

  // ---- whole runs ----

  ghost predicate WInit(w: WState)
  {
    && WSized(w) && Init(w.sys) && forall p :: 0 <= p < |w.known| ==> w.known[p] == NOPROC
  }

  datatype WRun = WStart | WThen(before: WRun, w: WState, step: WStep)

  ghost predicate WLeads(run: WRun, first: WState, w: WState)
  {
    match run
    case WStart => WInit(first) && w == first
    case WThen(before, v, step) => WLeads(before, first, v) && WNext(v, w, step)
  }

  lemma {:induction false} WRunKeeps(run: WRun, first: WState, w: WState)
    requires WLeads(run, first, w)
    ensures WInv(w)
  {
    match run
    case WStart =>
      RunKeeps(Start, first.sys, w.sys);
      forall p ensures KnowsAt(w, p) {}
      forall p ensures ChanAt(w.sys, p) {}
      forall p ensures ScanAt(w, p) {}
      forall p, q ensures HeardAt(w, p, q) {}
    case WThen(before, v, step) =>
      hide WNext, WInv;
      WRunKeeps(before, first, v);
      WKeeps(v, w, step);
  }

  /** No exit is missed: in every interleaving no process but init sleeps in wait while one of its
      children is a ZOMBIE. */
  lemma NoMissedExit(run: WRun, first: WState, w: WState, p: int, q: int)
    requires WLeads(run, first, w) && IsProc(w.sys, p) && IsProc(w.sys, q) && p != w.init
    requires InWait(w.sys.procs[p]) && w.sys.procs[q].parent == p
    ensures w.sys.procs[q].status != ZOMBIE
  {
    WRunKeeps(run, first, w);
    assert HeardAt(w, p, q);
  }

  /** The parent whose lock exit holds is the parent it wakes, unless that is init by now. */
  lemma RightParent(run: WRun, first: WState, w: WState, p: int)
    requires WLeads(run, first, w) && IsProc(w.sys, p) && InExit(w.sys.procs[p].pc)
    ensures p != w.init && (w.sys.procs[p].parent == w.sys.procs[p].pc.q || w.sys.procs[p].parent == w.init)
  {
    WRunKeeps(run, first, w);
    assert KnowsAt(w, p);
  }
}
