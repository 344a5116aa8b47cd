/** Pipes (kernel/pipe.c 48-120, libs/pipe.h): a ring of 512 bytes between two 32-bit counters
    that wrap around, and what a visit to a pipe under its lock does for those who sleep on it. */
module Pipe {

  const PIPESIZE := 512
  const U32 := 0x1_0000_0000

  // ---- counters that wrap ----

  /** The byte at stream position k lies in slot k mod 512, whatever the counters have lost. */
  lemma SlotOf(k: nat)
    ensures k % U32 % PIPESIZE == k % PIPESIZE
  {
    assert k == U32 * (k / U32) + k % U32;
    assert U32 * (k / U32) == PIPESIZE * (U32 / PIPESIZE * (k / U32));
  }

  /** As long as the pipe holds at most 512 bytes the wrapped counters tell empty from full. */
  lemma Wrapped(w: nat, r: nat)
    requires r <= w <= r + PIPESIZE
    ensures (w % U32 - r % U32) % U32 == w - r
    ensures w % U32 == r % U32 <==> w == r
    ensures w % U32 == (r % U32 + PIPESIZE) % U32 <==> w == r + PIPESIZE
  {
    var d := w - r;
    assert w == r + d;
    if r % U32 + d < U32 {
      WrapLow(r, d);
    } else {
      WrapHigh(r, d);
    }
  }

  lemma WrapLow(r: nat, d: nat)
    requires r % U32 + d < U32
    ensures (r + d) % U32 == r % U32 + d
  {
    var q := r / U32;
    assert r + d == U32 * q + (r % U32 + d);
  }

  lemma WrapHigh(r: nat, d: nat)
    requires r % U32 + d >= U32 && d <= PIPESIZE
    ensures (r + d) % U32 == r % U32 + d - U32
  {
    var q := r / U32;
    assert r + d == U32 * (q + 1) + (r % U32 + d - U32);
  }

  lemma Bump(k: nat)
    ensures (k % U32 + 1) % U32 == (k + 1) % U32
  {
    if k % U32 + 1 < U32 { WrapLow(k, 1); } else { WrapHigh(k, 1); }
  }

  // ---- what the pipe holds ----

  ghost predicate SlotAt(data: seq<int>, written: seq<int>, taken: seq<int>, k: int)
  {
    |taken| <= k < |written| && 0 <= k && |data| == PIPESIZE ==> data[k % PIPESIZE] == written[k]
  }

  /** written are all bytes ever accepted, taken those ever removed. */
  ghost predicate Holds(data: seq<int>, nread: int, nwrite: int, written: seq<int>, taken: seq<int>)
  {
    && |data| == PIPESIZE && taken <= written && |written| <= |taken| + PIPESIZE
    && nwrite == |written| % U32 && nread == |taken| % U32
    && forall k {:trigger SlotAt(data, written, taken, k)} :: SlotAt(data, written, taken, k)
  }

  lemma Accepted(data: seq<int>, nread: int, nwrite: int, written: seq<int>, taken: seq<int>, ch: int)
    requires Holds(data, nread, nwrite, written, taken) && nwrite != (nread + PIPESIZE) % U32
    ensures 0 <= nwrite % PIPESIZE < |data|
    ensures Holds(data[nwrite % PIPESIZE := ch], nread, (nwrite + 1) % U32, written + [ch], taken)
  {
    var data', written' := data[nwrite % PIPESIZE := ch], written + [ch];
    Wrapped(|written|, |taken|);
    SlotOf(|written|);
    Bump(|written|);
    forall k ensures SlotAt(data', written', taken, k) {
      assert SlotAt(data, written, taken, k);
      if |taken| <= k < |written| { Apart(k, |written|); }
    }
  }

  lemma Apart(j: int, k: int)
    requires 0 <= j < k < j + PIPESIZE
    ensures j % PIPESIZE != k % PIPESIZE
  {
  }

  lemma Removed(data: seq<int>, nread: int, nwrite: int, written: seq<int>, taken: seq<int>)
    requires Holds(data, nread, nwrite, written, taken) && nread != nwrite
    ensures 0 <= nread % PIPESIZE < |data| && |taken| < |written|
    ensures data[nread % PIPESIZE] == written[|taken|]
    ensures Holds(data, (nread + 1) % U32, nwrite, written, taken + [written[|taken|]])
  {
    Wrapped(|written|, |taken|);
    SlotOf(|taken|);
    Bump(|taken|);
    assert SlotAt(data, written, taken, |taken|);
    var taken' := taken + [written[|taken|]];
    assert taken' <= written by { assert written[..|taken|] == taken; assert written[..|taken| + 1] == taken'; }
    forall k ensures SlotAt(data, written, taken', k) { assert SlotAt(data, written, taken, k); }
  }

  // ---- what a visit does, in order ----

  /** The channels &pi->nread and &pi->nwrite. */
  const NREAD := 0
  const NWRITE := 1

  datatype Ring = Ring(data: seq<int>, nread: int, nwrite: int, readopen: bool, writeopen: bool)

  ghost predicate Fine(r: Ring)
  {
    |r.data| == PIPESIZE && 0 <= r.nread < U32 && 0 <= r.nwrite < U32
  }

  /** How many bytes the ring holds. */
  function Held(r: Ring): int
  {
    if r.nread <= r.nwrite then r.nwrite - r.nread else r.nwrite - r.nread + U32
  }

  /** A counter goes up by one. */
  lemma OneUp(x: int)
    requires 0 <= x < U32
    ensures (x + 1) % U32 == if x == U32 - 1 then 0 else x + 1
  {
  }

  predicate Empty(r: Ring) { r.nread == r.nwrite }

  predicate Full(r: Ring) { r.nwrite == (r.nread + PIPESIZE) % U32 }

  /** Whether a process that sleeps on channel c may go on. */
  predicate Can(r: Ring, c: int)
  {
    if c == NREAD then !Empty(r) || !r.writeopen else !Full(r) || !r.readopen
  }

  /** One byte stored, one taken, an end closed, wakeup(c), sleep(c, &pi->lock). */
  datatype Act = Store(ch: int) | Take | Shut(writable: bool) | Wake(c: int) | Sleep(c: int)

  function Do(r: Ring, a: Act): (r': Ring)
    requires Fine(r)
    ensures Fine(r')
  {
    match a
    case Store(ch) => r.(data := r.data[r.nwrite % PIPESIZE := ch], nwrite := (r.nwrite + 1) % U32)
    case Take => r.(nread := (r.nread + 1) % U32)
    case Shut(writable) => if writable then r.(writeopen := false) else r.(readopen := false)
    case _ => r
  }

  /** owes are the channels whose sleepers could not go on and now can, with no wakeup since. */
  datatype Visit = Visit(r: Ring, owes: set<int>)

  function Done(v: Visit, a: Act): (v': Visit)
    requires Fine(v.r)
    ensures Fine(v'.r)
  {
    var r' := Do(v.r, a);
    Visit(r', if a.Wake? then v.owes - {a.c}
              else v.owes + (if !Can(v.r, NREAD) && Can(r', NREAD) then {NREAD} else {}) + (if !Can(v.r, NWRITE) && Can(r', NWRITE) then {NWRITE} else {}))
  }

  function After(r: Ring, acts: seq<Act>): (v: Visit)
    requires Fine(r)
    ensures Fine(v.r)
    decreases |acts|
  {
    if acts == [] then Visit(r, {}) else Done(After(r, acts[..|acts| - 1]), acts[|acts| - 1])
  }

  predicate Slept(acts: seq<Act>) { acts != [] && acts[|acts| - 1].Sleep? }

  /** No store into a full ring, none taken out of an empty one, and sleep only on a condition
      that is false, with no wakeup owed. */
  predicate May(v: Visit, a: Act)
  {
    match a
    case Store(_) => !Full(v.r)
    case Take => !Empty(v.r)
    case Shut(_) => true
    case Wake(c) => c == NREAD || c == NWRITE
    case Sleep(c) => (c == NREAD || c == NWRITE) && !Can(v.r, c) && v.owes == {}
  }

  ghost predicate Lawful(r: Ring, acts: seq<Act>)
    requires Fine(r)
    decreases |acts|
  {
    acts == [] || (var before := acts[..|acts| - 1]; Lawful(r, before) && !Slept(before) && May(After(r, before), acts[|acts| - 1]))
  }

  lemma FullHeld(r: Ring)
    requires Fine(r)
    ensures Full(r) <==> Held(r) == PIPESIZE
    ensures Empty(r) <==> Held(r) == 0
  {
    assert (r.nread + PIPESIZE) % U32 == if r.nread + PIPESIZE < U32 then r.nread + PIPESIZE else r.nread + PIPESIZE - U32;
  }

  /** What a visit does to the number of bytes. */
  lemma HeldAfter(r: Ring, a: Act)
    requires Fine(r) && Held(r) <= PIPESIZE
    ensures a.Store? ==> Held(Do(r, a)) == Held(r) + 1
    ensures a.Take? && !Empty(r) ==> Held(Do(r, a)) == Held(r) - 1
    ensures !a.Store? && !a.Take? ==> Held(Do(r, a)) == Held(r)
  {
    OneUp(r.nread);
    OneUp(r.nwrite);
  }

  /** The visit ends with a sleep, or leaves nobody unwoken. */
  ghost predicate Settled(r: Ring, acts: seq<Act>)
    requires Fine(r)
  {
    Slept(acts) || After(r, acts).owes == {}
  }

  lemma Snoc(r: Ring, acts: seq<Act>, a: Act)
    requires Fine(r) && Lawful(r, acts) && !Slept(acts) && May(After(r, acts), a)
    ensures Lawful(r, acts + [a]) && After(r, acts + [a]) == Done(After(r, acts), a) && (Slept(acts + [a]) <==> a.Sleep?)
  {
    assert (acts + [a])[..|acts + [a]| - 1] == acts;
  }

  lemma Begun(r: Ring)
    requires Fine(r)
    ensures Lawful(r, []) && After(r, []) == Visit(r, {}) && !Slept([])
  {
  }

  /** Why a visit to the pipe under its lock ended: all is done; the pipe is full or empty, and
      the process goes to sleep; a byte could not be copied; or the call gives up with -1. */
  datatype End = Finished | Asleep | Fault | GivenUp

  /** The visits of pipewrite after which a wakeup is missing: the pipe was empty, the bytes fill
      it and do not all fit, and the process has been killed or nobody can read any more. */
  predicate Unwoken(r: Ring, given: int, n: int, killed: bool)
  {
    Empty(r) && r.writeopen && n > PIPESIZE && given >= PIPESIZE && (killed || !r.readopen)
  }

  class Pipe {
    var data: seq<int>
    var nread: int
    var nwrite: int
    var readopen: bool
    var writeopen: bool
    ghost var written: seq<int>
    ghost var taken: seq<int>

    ghost predicate Valid()
      reads this
    {
      Holds(data, nread, nwrite, written, taken)
    }

    function Now(): Ring
      reads this
    {
      Ring(data, nread, nwrite, readopen, writeopen)
    }

    lemma NowFine()
      requires Valid()
      ensures Fine(Now())
    {
    }

    /** pipealloc */
    constructor ()
      ensures Valid() && written == [] && taken == [] && Now() == Ring(seq(PIPESIZE, i => 0), 0, 0, true, true)
    {
      data := seq(PIPESIZE, i => 0);
      nread, nwrite := 0, 0;
      readopen, writeopen := true, true;
      written, taken := [], [];
    }

    /** One visit of pipewrite under the lock, from the byte i on: bytes are what copyin2 gives
        before it fails (all n if it does not). */
    method Write(bytes: seq<int>, n: int, i0: int, killed: bool) returns (end: End, i: int, acts: seq<Act>)
      requires Valid() && 0 <= i0 <= |bytes| <= n
      modifies `data, `nwrite, `written
      ensures Valid() && i0 <= i <= |bytes|
      ensures written == old(written) + bytes[i0..i]
      ensures end == Finished ==> i == n
      ensures end == Fault ==> i == |bytes| < n
      ensures end == Asleep ==> i < n && !Can(Now(), NWRITE) && !killed
      ensures end == GivenUp ==> i < n && Full(Now()) && (!readopen || killed)
      ensures Fine(old(Now())) && Lawful(old(Now()), acts) && After(old(Now()), acts).r == Now() && (Slept(acts) <==> end == Asleep)
      // a wakeup is missing exactly after such a call
      ensures Settled(old(Now()), acts) <==> !Unwoken(old(Now()), |bytes| - i0, n - i0, killed)
      ensures !Settled(old(Now()), acts) ==> end == GivenUp && After(old(Now()), acts).owes == {NREAD} && Can(Now(), NREAD)
    {
      hide Holds, After, Lawful;
      NowFine();
      ghost var r0, w0 := Now(), written;
      Begun(r0);
      InRing(data, nread, nwrite, written, taken);
      acts := [];
      i := i0;
      while i < n
        invariant Valid() && i0 <= i <= |bytes| && written == w0 + bytes[i0..i] && Fine(r0)
        invariant Lawful(r0, acts) && !Slept(acts) && After(r0, acts) == Visit(Now(), if Can(Now(), NREAD) && !Can(r0, NREAD) then {NREAD} else {})
        invariant |written| - |taken| == |w0| - |taken| + (i - i0)
        invariant i > i0 ==> !Empty(Now())
      {
        InRing(data, nread, nwrite, written, taken);
        if nwrite == (nread + PIPESIZE) % U32 {
          if !readopen || killed {
            end := GivenUp;
            return;
          }
          Snoc(r0, acts, Wake(NREAD));
          acts := acts + [Wake(NREAD)];
          Snoc(r0, acts, Sleep(NWRITE));
          acts := acts + [Sleep(NWRITE)];
          end := Asleep;
          return;
        }
        if i >= |bytes| {
          end := Fault;
          Snoc(r0, acts, Wake(NREAD));
          acts := acts + [Wake(NREAD)];
          return;
        }
        Accepted(data, nread, nwrite, written, taken, bytes[i]);
        NotEmpty(data, nread, nwrite, written, taken, bytes[i]);
        Snoc(r0, acts, Store(bytes[i]));
        acts := acts + [Store(bytes[i])];
        data := data[nwrite % PIPESIZE := bytes[i]];
        nwrite := (nwrite + 1) % U32;
        written := written + [bytes[i]];
        i := i + 1;
      }
      InRing(data, nread, nwrite, written, taken);
      end := Finished;
      Snoc(r0, acts, Wake(NREAD));
      acts := acts + [Wake(NREAD)];
    }

    /** One visit of piperead under the lock: room is how many bytes copyout2 can deliver before
        it fails.  A byte whose delivery fails is gone from the pipe all the same. */
    method Read(n: int, room: int, killed: bool) returns (end: End, got: seq<int>, acts: seq<Act>)
      requires Valid() && 0 <= n && 0 <= room
      modifies `nread, `taken
      ensures Valid() && |got| <= n && |got| <= room
      ensures |old(taken)| + |got| + (if end == Fault then 1 else 0) <= |written|
      ensures taken == old(taken) + got + if end == Fault then [written[|old(taken)| + |got|]] else []
      ensures end == Asleep || end == GivenUp ==> got == [] && nread == nwrite && writeopen && (killed <==> end == GivenUp)
      ensures end == Finished ==> |got| == n || (nread == nwrite && (got == [] ==> !writeopen))
      ensures end == Fault ==> |got| == room < n
      ensures Fine(old(Now())) && Lawful(old(Now()), acts) && After(old(Now()), acts).r == Now() && (Slept(acts) <==> end == Asleep)
      ensures Settled(old(Now()), acts)
    {
      hide Holds, After, Lawful, Done, Do, Owed;
      NowFine();
      ghost var r0 := Now();
      Begun(r0);
      NoOwed(r0);
      got, acts := [], [];
      NoMore(data, nread, nwrite, written, taken);
      if nread == nwrite && writeopen {
        if killed { return GivenUp, got, acts; }
        Snoc(r0, acts, Sleep(NREAD));
        SleepKeeps(r0, NREAD);
        return Asleep, got, acts + [Sleep(NREAD)];
      }
      while |got| < n
        invariant Valid() && |got| <= n && |got| <= room && taken == old(taken) + got && |taken| <= |written| && Fine(r0)
        invariant got == [] ==> nread != nwrite || !writeopen
        invariant Lawful(r0, acts) && !Slept(acts) && After(r0, acts) == Visit(Now(), Owed(r0, Now()))
        invariant Can(Now(), NWRITE) || Now() == r0
      {
        NowFine();
        if nread == nwrite { break; }
        Removed(data, nread, nwrite, written, taken);
        NoMore(data, nread, nwrite, written, taken);
        Taking(r0, Now());
        Snoc(r0, acts, Take);
        acts := acts + [Take];
        var ch := data[nread % PIPESIZE];
        nread := (nread + 1) % U32;
        taken := taken + [ch];
        if |got| >= room {
          end := Fault;
          WokenUp(r0, Now());
          Snoc(r0, acts, Wake(NWRITE));
          acts := acts + [Wake(NWRITE)];
          return;
        }
        got := got + [ch];
      }
      end := Finished;
      WokenUp(r0, Now());
      Snoc(r0, acts, Wake(NWRITE));
      acts := acts + [Wake(NWRITE)];
    }

    /** pipeclose: who waits for the closed end is woken; the page goes when both are closed. */
    method Close(writable: bool) returns (freed: bool, acts: seq<Act>)
      requires Valid()
      modifies `readopen, `writeopen
      ensures Valid() && (writable ==> !writeopen && readopen == old(readopen)) && (!writable ==> !readopen && writeopen == old(writeopen))
      ensures freed <==> !readopen && !writeopen
      ensures Fine(old(Now())) && Lawful(old(Now()), acts) && After(old(Now()), acts).r == Now() && !Slept(acts)
      ensures Settled(old(Now()), acts) && Can(Now(), if writable then NREAD else NWRITE)
    {
      hide Holds, After, Lawful;
      NowFine();
      ghost var r0 := Now();
      Begun(r0);
      Snoc(r0, [], Shut(writable));
      acts := [] + [Shut(writable)];
      var c;
      if writable {
        writeopen := false;
        c := NREAD;
      } else {
        readopen := false;
        c := NWRITE;
      }
      Snoc(r0, acts, Wake(c));
      acts := acts + [Wake(c)];
      freed := !readopen && !writeopen;
    }
  }

  /** A killed process writes 513 bytes to an empty pipe: there are 512 bytes to read, and nobody
      who sleeps for them has been woken. */
  method KilledWriter() returns (acts: seq<Act>)
    ensures var r := Ring(seq(PIPESIZE, i => 0), 0, 0, true, true);
      && Fine(r) && Lawful(r, acts) && !Slept(acts)
      && After(r, acts).owes == {NREAD} && Can(After(r, acts).r, NREAD)
  {
    hide After, Lawful;
    var p := new Pipe();
    var end, i;
    end, i, acts := p.Write(seq(513, i => 0), 513, 0, true);
  }

  lemma NoMore(data: seq<int>, nread: int, nwrite: int, written: seq<int>, taken: seq<int>)
    requires Holds(data, nread, nwrite, written, taken)
    ensures taken <= written && |written| <= |taken| + PIPESIZE && (nwrite - nread) % U32 == |written| - |taken|
    ensures 0 <= nread < U32 && 0 <= nwrite < U32 && |written| - |taken| == if nread <= nwrite then nwrite - nread else nwrite - nread + U32
  {
    Wrapped(|written|, |taken|);
  }

  lemma InRing(data: seq<int>, nread: int, nwrite: int, written: seq<int>, taken: seq<int>)
    requires Holds(data, nread, nwrite, written, taken)
    ensures 0 <= |written| - |taken| <= PIPESIZE && 0 <= nread < U32 && 0 <= nwrite < U32
    ensures nread == nwrite <==> |written| == |taken|
    ensures nwrite == (nread + PIPESIZE) % U32 <==> |written| == |taken| + PIPESIZE
  {
    Wrapped(|written|, |taken|);
  }

  ghost function Owed(r0: Ring, r: Ring): set<int>
  {
    if Can(r, NWRITE) && !Can(r0, NWRITE) then {NWRITE} else {}
  }

  /** After a byte is taken the ring is not full. */
  lemma Taking(r0: Ring, r: Ring)
    requires Fine(r0) && Fine(r) && Held(r) <= PIPESIZE && !Empty(r) && (Can(r, NWRITE) || r == r0)
    ensures Do(r, Take) == r.(nread := (r.nread + 1) % U32) && Can(Do(r, Take), NWRITE)
    ensures Done(Visit(r, Owed(r0, r)), Take) == Visit(Do(r, Take), Owed(r0, Do(r, Take)))
  {
    HeldAfter(r, Take);
    FullHeld(Do(r, Take));
  }

  lemma SleepKeeps(r: Ring, c: int)
    requires Fine(r)
    ensures Done(Visit(r, {}), Sleep(c)) == Visit(r, {})
  {
  }

  lemma NoOwed(r: Ring)
    ensures Owed(r, r) == {}
  {
  }

  lemma WokenUp(r0: Ring, r: Ring)
    requires Fine(r)
    ensures Done(Visit(r, Owed(r0, r)), Wake(NWRITE)) == Visit(r, {})
  {
  }

  lemma NotEmpty(data: seq<int>, nread: int, nwrite: int, written: seq<int>, taken: seq<int>, ch: int)
    requires Holds(data, nread, nwrite, written, taken) && nwrite != (nread + PIPESIZE) % U32
    ensures (nwrite + 1) % U32 != nread
  {
    Accepted(data, nread, nwrite, written, taken, ch);
    Wrapped(|written| + 1, |taken|);
  }
}
