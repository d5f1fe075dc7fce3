/** sleep and wakeup under a spinlock, for any number of processes.

  A spinlock lk guards some data; processes that hold it may change the data, wake a
  channel or go to sleep on one. Each action of kernel/proc.c that another CPU can see
  is one step: taking or dropping lk or ptable.lock, one write of the data, one slot of
  wakeup1's scan. The scheduler's own hold of ptable.lock is folded into Park and Pick.
 */
module Monitor {
  import opened Common

  datatype Run = RUNNING | RUNNABLE | SLEEPING

  /** Where a process is. `owed` are the channels whose sleepers' condition it has made
      false since it last woke them. */
  datatype Phase<C> =
    | Outside
    | Inside(owed: set<C>)
    | Waking(chan: C, at: nat, owed: set<C>)   // holds both locks, scanning slot `at`
    | Going(chan: C)                           // in sleep, holds both locks
    | Parking(chan: C)                         // in sleep, lk dropped, not yet SLEEPING
    | Parked(chan: C)                          // in sched
    | Back                                     // sched has returned, holds ptable.lock

  datatype Proc<C> = Proc(st: Run, phase: Phase<C>)

  datatype State<D, C> = State(data: D, lk: Option<nat>, pt: Option<nat>, procs: seq<Proc<C>>)

  datatype Event<D, C> =
    | Acquire(p: nat)
    | Release(p: nat)
    | Update(p: nat, d: D)
    | Wake(p: nat, chan: C)
    | Scan(p: nat)
    | Sleep(p: nat, chan: C)
    | Drop(p: nat)
    | Park(p: nat)
    | Pick(p: nat)
    | Return(p: nat)
    | Kill(p: nat)
    | Elsewhere(p: nat, st: Run)   // scheduling and sleeping outside this lock

  predicate HoldsLk<C>(ph: Phase<C>) { ph.Inside? || ph.Waking? || ph.Going? }

  predicate HoldsPt<C>(ph: Phase<C>) { ph.Waking? || ph.Going? || ph.Parking? || ph.Back? }

  predicate Runs<D, C>(s: State<D, C>, p: nat) {
    p < |s.procs| && s.procs[p].st == RUNNING
  }

  predicate Enabled<D, C(==)>(s: State<D, C>, e: Event<D, C>) {
    match e
    case Acquire(p) => Runs(s, p) && s.procs[p].phase.Outside? && s.lk == None
    case Release(p) => Runs(s, p) && s.procs[p].phase.Inside?
    case Update(p, _) => Runs(s, p) && s.procs[p].phase.Inside?
    case Wake(p, _) => Runs(s, p) && s.procs[p].phase.Inside? && s.pt == None
    case Scan(p) => Runs(s, p) && s.procs[p].phase.Waking?
    case Sleep(p, _) => Runs(s, p) && s.procs[p].phase.Inside? && s.pt == None
    case Drop(p) => Runs(s, p) && s.procs[p].phase.Going?
    case Park(p) => Runs(s, p) && s.procs[p].phase.Parking?
    case Pick(p) => p < |s.procs| && s.procs[p].st == RUNNABLE && s.procs[p].phase.Parked? && s.pt == None
    case Return(p) => Runs(s, p) && s.procs[p].phase.Back?
    case Kill(p) => p < |s.procs| && s.pt == None
    case Elsewhere(p, _) => p < |s.procs| && s.procs[p].phase.Outside? && s.pt == None
  }

  /** Channels whose condition the change from d to d' makes false. */
  function Broken<D, C>(cond: (D, C) -> bool, chans: set<C>, d: D, d': D): set<C> {
    set c | c in chans && cond(d, c) && !cond(d', c)
  }

  predicate Asleep<C(==)>(pr: Proc<C>, c: C) {
    pr.st == SLEEPING && pr.phase == Parked(c)
  }

  function Move<D, C>(s: State<D, C>, p: nat, pr: Proc<C>): State<D, C>
    requires p < |s.procs|
  {
    s.(procs := s.procs[p := pr])
  }

  /** The effect of a step. wakeup1 turns a sleeper on its channel RUNNABLE, and stops
      after the last slot. */
  function Next<D, C>(cond: (D, C) -> bool, chans: set<C>, s: State<D, C>, e: Event<D, C>): State<D, C>
    requires Enabled(s, e)
  {
    match e
    case Acquire(p) => Move(s, p, Proc(RUNNING, Inside({}))).(lk := Some(p))
    case Release(p) => Move(s, p, Proc(RUNNING, Outside)).(lk := None)
    case Update(p, d) =>
      Move(s, p, Proc(RUNNING, Inside(s.procs[p].phase.owed + Broken(cond, chans, s.data, d)))).(data := d)
    case Wake(p, c) => Move(s, p, Proc(RUNNING, Waking(c, 0, s.procs[p].phase.owed - {c}))).(pt := Some(p))
    case Scan(p) =>
      var ph := s.procs[p].phase;
      if ph.at < |s.procs| then
        var woken := if Asleep(s.procs[ph.at], ph.chan) then Move(s, ph.at, s.procs[ph.at].(st := RUNNABLE)) else s;
        Move(woken, p, Proc(RUNNING, ph.(at := ph.at + 1)))
      else Move(s, p, Proc(RUNNING, Inside(ph.owed))).(pt := None)
    case Sleep(p, c) => Move(s, p, Proc(RUNNING, Going(c))).(pt := Some(p))
    case Drop(p) => Move(s, p, Proc(RUNNING, Parking(s.procs[p].phase.chan))).(lk := None)
    case Park(p) => Move(s, p, Proc(SLEEPING, Parked(s.procs[p].phase.chan))).(pt := None)
    case Pick(p) => Move(s, p, Proc(RUNNING, Back)).(pt := Some(p))
    case Return(p) => Move(s, p, Proc(RUNNING, Outside)).(pt := None)
    case Kill(p) => Move(s, p, s.procs[p].(st := if s.procs[p].st == SLEEPING then RUNNABLE else s.procs[p].st))
    case Elsewhere(p, st) => Move(s, p, Proc(st, Outside))
  }

  /** p waits on c: asleep, or past the point of dropping lk. */
  predicate Waits<C(==)>(pr: Proc<C>, c: C) {
    pr.phase == Parking(c) || Asleep(pr, c)
  }

  ghost predicate NoWaiter<D, C(!new)>(s: State<D, C>, c: C) {
    forall p {:trigger s.procs[p]} :: 0 <= p < |s.procs| ==> !Waits(s.procs[p], c)
  }

  /** Nothing is owed to anybody who waits on one of the channels in `good`. */
  ghost predicate Settled<D(!new), C(!new)>(good: set<C>, s: State<D, C>, owed: set<C>) {
    forall c {:trigger c in owed} :: c in owed && c in good ==> NoWaiter(s, c)
  }

  /** The discipline: no sleep without its condition, and lk is not dropped while a woken
      condition is owed to somebody who waits. It is asked for the channels in `good`. */
  ghost predicate Polite<D(!new), C(!new)>(cond: (D, C) -> bool, good: set<C>, s: State<D, C>, e: Event<D, C>)
    requires Enabled(s, e)
  {
    match e
    case Release(p) => Settled(good, s, s.procs[p].phase.owed)
    case Sleep(p, c) => cond(s.data, c) && Settled(good, s, s.procs[p].phase.owed)
    case _ => true
  }

  /** The holder of lk has still to wake slot p on channel c. */
  predicate Owes<D, C(==)>(s: State<D, C>, p: nat, c: C) {
    s.lk.Some? && s.lk.value < |s.procs| &&
    match s.procs[s.lk.value].phase
    case Inside(owed) => c in owed
    case Waking(b, at, owed) => c in owed || (c == b && at <= p)
    case _ => false
  }

  predicate LockOk<D, C>(s: State<D, C>, p: nat)
    requires p < |s.procs|
  {
    && (HoldsLk(s.procs[p].phase) <==> s.lk == Some(p))
    && (HoldsPt(s.procs[p].phase) <==> s.pt == Some(p))
  }

  ghost predicate LocksOk<D, C(!new)>(s: State<D, C>) {
    && (s.lk.Some? ==> s.lk.value < |s.procs|)
    && (s.pt.Some? ==> s.pt.value < |s.procs|)
    && (forall p {:trigger s.procs[p]} :: 0 <= p < |s.procs| ==> LockOk(s, p))
  }

  ghost predicate WaiterOk<D, C(!new)>(cond: (D, C) -> bool, chans: set<C>, good: set<C>, s: State<D, C>, p: nat)
    requires p < |s.procs|
  {
    && (s.procs[p].phase.Going? ==> s.procs[p].phase.chan in chans && cond(s.data, s.procs[p].phase.chan))
    && (s.procs[p].phase.Parking? || (s.procs[p].phase.Parked? && s.procs[p].st == SLEEPING) ==>
          var c := s.procs[p].phase.chan;
          c in chans && (c in good ==> cond(s.data, c) || Owes(s, p, c)))
  }

  ghost predicate Inv<D, C(!new)>(cond: (D, C) -> bool, chans: set<C>, good: set<C>, s: State<D, C>) {
    && LocksOk(s)
    && forall p {:trigger s.procs[p]} :: 0 <= p < |s.procs| ==> WaiterOk(cond, chans, good, s, p)
  }

  lemma StepLock<D, C(!new)>(cond: (D, C) -> bool, chans: set<C>, s: State<D, C>, e: Event<D, C>, q: nat)
    requires LocksOk(s) && Enabled(s, e) && q < |s.procs|
    ensures |Next(cond, chans, s, e).procs| == |s.procs| && LockOk(Next(cond, chans, s, e), q)
  {
    assert LockOk(s, q) && LockOk(s, e.p);
  }

  lemma StepLocks<D, C(!new)>(cond: (D, C) -> bool, chans: set<C>, s: State<D, C>, e: Event<D, C>)
    requires LocksOk(s) && Enabled(s, e)
    ensures LocksOk(Next(cond, chans, s, e)) && |Next(cond, chans, s, e).procs| == |s.procs|
  {
    var s' := Next(cond, chans, s, e);
    assert LockOk(s, e.p);
    forall q | 0 <= q < |s'.procs| ensures LockOk(s', q) {
      StepLock(cond, chans, s, e, q);
    }
  }

  lemma StepWaiter<D(!new), C(!new)>(cond: (D, C) -> bool, chans: set<C>, good: set<C>, s: State<D, C>, e: Event<D,
                     C>, q: nat)
    requires Inv(cond, chans, good, s) && Enabled(s, e) && Polite(cond, good, s, e) && q < |s.procs|
    requires e.Sleep? ==> e.chan in chans
    ensures q < |Next(cond, chans, s, e).procs| && WaiterOk(cond, chans, good, Next(cond, chans, s, e), q)
  {
    assert WaiterOk(cond, chans, good, s, q);
  }

  lemma StepKeeps<D(!new), C(!new)>(cond: (D, C) -> bool, chans: set<C>, good: set<C>, s: State<D, C>, e: Event<D, C>)
    requires Inv(cond, chans, good, s) && Enabled(s, e) && Polite(cond, good, s, e)
    requires e.Sleep? ==> e.chan in chans
    ensures Inv(cond, chans, good, Next(cond, chans, s, e)) && |Next(cond, chans, s, e).procs| == |s.procs|
  {
    var s' := Next(cond, chans, s, e);
    StepLocks(cond, chans, s, e);
    forall q | 0 <= q < |s'.procs| ensures WaiterOk(cond, chans, good, s', q) {
      StepWaiter(cond, chans, good, s, e, q);
    }
  }

  /** No missed wakeup: when the lock is free, whoever waits on c has its condition. */
  lemma NoMissedWakeup<D, C(!new)>(cond: (D, C) -> bool, chans: set<C>, good: set<C>, s: State<D, C>, p: nat, c: C)
    requires Inv(cond, chans, good, s) && s.lk == None && p < |s.procs| && Waits(s.procs[p], c) && c in good
    ensures cond(s.data, c)
  {
    assert WaiterOk(cond, chans, good, s, p);
  }

  /** kill: the process is not asleep afterwards, wherever it is, and no other changes. */
  lemma KillWakes<D, C(!new)>(cond: (D, C) -> bool, chans: set<C>, s: State<D, C>, p: nat)
    requires p < |s.procs| && s.pt == None
    ensures Enabled(s, Kill(p))
    ensures var s' := Next(cond, chans, s, Kill(p));
            && |s'.procs| == |s.procs| && s'.procs[p].st != SLEEPING && s'.procs[p].phase == s.procs[p].phase
            && (s.procs[p].st != SLEEPING ==> s'.procs[p] == s.procs[p])
            && s'.data == s.data && s'.lk == s.lk && s'.pt == s.pt
            && forall q :: 0 <= q < |s.procs| && q != p ==> s'.procs[q] == s.procs[q]
  {
  }

  /** Whoever has slept is picked before it runs. */
  ghost predicate Rested<D(!new), C(!new)>(s: State<D, C>) {
    forall p {:trigger s.procs[p]} :: 0 <= p < |s.procs| && s.procs[p].phase.Parked? ==> s.procs[p].st != RUNNING
  }

  lemma StepRested<D(!new), C(!new)>(cond: (D, C) -> bool, chans: set<C>, s: State<D, C>, e: Event<D, C>)
    requires Rested(s) && Enabled(s, e)
    ensures Rested(Next(cond, chans, s, e))
  {
  }
}
