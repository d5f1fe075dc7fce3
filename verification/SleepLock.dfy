/** Sleep locks: acquiresleep, releasesleep and holdingsleep by any number of processes,
  killed at any time, over the sleep/wakeup steps of Monitor.
 */
module SleepLock {
  import opened Common
  import M = Monitor

  /** The guarded fields of struct sleeplock. Process p has pid p + 1. */
  datatype Data = Data(locked: bool, pid: nat)

  datatype Chan = Lk   // the address of the lock itself

  /** What a process is doing with the lock. */
  datatype Pc =
    | Free        // does not hold it
    | Want        // in acquiresleep, up to leaving the while loop
    | Took        // locked is set
    | Named       // pid is set
    | Held        // holds it
    | Give        // in releasesleep, about to take the inner lock
    | Giving      // holds the inner lock
    | Cleared     // locked is cleared
    | Unnamed     // pid is cleared
    | Woke        // in wakeup or past it

  datatype State = State(m: M.State<Data, Chan>, pcs: seq<Pc>)

  /** Call starts acquiresleep or releasesleep; Go is the process's next step in it.
      Elsewhere is anything that happens to it outside the inner lock: preemption and
      scheduling at any time, sleep on other channels when it is in neither call. */
  datatype Event = Call(p: nat) | Go(p: nat) | Pick(p: nat) | Kill(p: nat) | Elsewhere(p: nat, st: M.Run)

  const CHANS: set<Chan> := {Lk}

  function Cond(): (Data, Chan) -> bool {
    (d: Data, c: Chan) => d.locked
  }

  predicate Runs(s: State, p: nat) {
    p < |s.pcs| == |s.m.procs| && s.m.procs[p].st == M.RUNNING
  }

  /** The step the code takes next, and where it leads. */
  function Action(s: State, p: nat): Option<(M.Event<Data, Chan>, Pc)>
    requires Runs(s, p)
  {
    var pc := s.pcs[p];
    match s.m.procs[p].phase
    case Outside =>
      if pc == Want then Some((M.Acquire(p), Want))
      else if pc == Give then Some((M.Acquire(p), Giving))
      else None
    case Inside(_) => (
      match pc
      case Want =>
        if s.m.data.locked then Some((M.Sleep(p, Lk), Want))
        else Some((M.Update(p, s.m.data.(locked := true)), Took))
      case Took => Some((M.Update(p, s.m.data.(pid := p + 1)), Named))
      case Named => Some((M.Release(p), Held))
      case Giving => Some((M.Update(p, s.m.data.(locked := false)), Cleared))
      case Cleared => Some((M.Update(p, s.m.data.(pid := 0)), Unnamed))
      case Unnamed => Some((M.Wake(p, Lk), Woke))
      case Woke => Some((M.Release(p), Free))
      case _ => None)
    case Waking(_, _, _) => Some((M.Scan(p), pc))
    case Going(_) => Some((M.Drop(p), pc))
    case Parking(_) => Some((M.Park(p), pc))
    case Parked(_) => None
    case Back => Some((M.Return(p), pc))
  }

  predicate Enabled(s: State, e: Event) {
    |s.pcs| == |s.m.procs| &&
    match e
    case Call(p) => Runs(s, p) && (s.pcs[p] == Free || s.pcs[p] == Held)
    case Go(p) => Runs(s, p) && Action(s, p).Some? && M.Enabled(s.m, Action(s, p).value.0)
    case Pick(p) => M.Enabled(s.m, M.Pick(p))
    case Kill(p) => M.Enabled(s.m, M.Kill(p))
    case Elsewhere(p, st) =>
      && p < |s.pcs| && M.Enabled(s.m, M.Elsewhere(p, st))
      && (s.pcs[p] == Free || s.pcs[p] == Held || st != M.SLEEPING)
  }

  function Step(s: State, e: M.Event<Data, Chan>): M.State<Data, Chan>
    requires M.Enabled(s.m, e)
  {
    M.Next(Cond(), CHANS, s.m, e)
  }

  function Next(s: State, e: Event): State
    requires Enabled(s, e)
  {
    match e
    case Call(p) => s.(pcs := s.pcs[p := if s.pcs[p] == Free then Want else Give])
    case Go(p) => State(Step(s, Action(s, p).value.0), s.pcs[p := Action(s, p).value.1])
    case Pick(p) => s.(m := Step(s, M.Pick(p)))
    case Kill(p) => s.(m := Step(s, M.Kill(p)))
    case Elsewhere(p, st) => s.(m := Step(s, M.Elsewhere(p, st)))
  }

  /** initsleeplock, with n processes that have nothing to do with the lock yet. */
  function Init(n: nat): State {
    State(M.State(Data(false, 0), None, None, seq(n, _ => M.Proc(M.RUNNABLE, M.Outside))), seq(n, _ => Free))
  }

  /** The state after a run, if every event was enabled when its turn came. */
  function Run(n: nat, events: seq<Event>): Option<State>
    decreases |events|
  {
    if events == [] then Some(Init(n))
    else
      var e := events[|events| - 1];
      match Run(n, events[..|events| - 1])
      case None => None
      case Some(s) => if Enabled(s, e) then Some(Next(s, e)) else None
  }

  // -------------------------------------------------------------- invariant

  /** locked is the process's doing. */
  predicate Owner(pc: Pc) { pc.Took? || pc.Named? || pc.Held? || pc.Give? || pc.Giving? }

  ghost predicate ProcOk(s: State, p: nat)
    requires p < |s.pcs| == |s.m.procs|
  {
    var ph := s.m.procs[p].phase;
    match s.pcs[p]
    case Free => ph.Outside?
    case Want => !ph.Waking? && (ph.Inside? ==> ph.owed == {})
    case Took => ph == M.Inside({}) && s.m.data.locked
    case Named => ph == M.Inside({}) && s.m.data == Data(true, p + 1)
    case Held => ph.Outside? && s.m.data == Data(true, p + 1)
    case Give => ph.Outside? && s.m.data == Data(true, p + 1)
    case Giving => ph == M.Inside({}) && s.m.data == Data(true, p + 1)
    case Cleared => ph.Inside? && ph.owed <= CHANS && s.m.data == Data(false, p + 1)
    case Unnamed => ph.Inside? && ph.owed <= CHANS && s.m.data == Data(false, 0)
    case Woke => ((ph.Inside? && ph.owed == {}) || (ph.Waking? && ph.owed == {})) && s.m.data == Data(false, 0)
  }

  ghost predicate Inv(s: State) {
    && |s.pcs| == |s.m.procs| && M.Inv(Cond(), CHANS, CHANS, s.m)
    && (forall p {:trigger s.pcs[p]} :: 0 <= p < |s.pcs| ==> ProcOk(s, p))
    && (forall p, q {:trigger s.pcs[p], s.pcs[q]} ::
          0 <= p < |s.pcs| && 0 <= q < |s.pcs| && Owner(s.pcs[p]) && Owner(s.pcs[q]) ==> p == q)
    && (s.m.data.locked ==> exists p :: 0 <= p < |s.pcs| && Owner(s.pcs[p]))
    && (s.m.lk == None && !s.m.data.locked ==> s.m.data.pid == 0)
  }

  lemma GoPolite(s: State, p: nat)
    requires Inv(s) && Runs(s, p) && Action(s, p).Some? && M.Enabled(s.m, Action(s, p).value.0)
    ensures M.Polite(Cond(), CHANS, s.m, Action(s, p).value.0)
  {
  }

  lemma GoProc(s: State, p: nat, q: nat)
    requires Inv(s) && Enabled(s, Go(p)) && q < |s.pcs|
    ensures ProcOk(Next(s, Go(p)), q)
  {
    assert ProcOk(s, p) && ProcOk(s, q);
    assert Owner(s.pcs[p]) && Owner(s.pcs[q]) ==> p == q;
  }

  /** locked goes up with a new owner and down with the last. */
  lemma GoOwners(s: State, p: nat)
    requires Inv(s) && Enabled(s, Go(p))
    ensures var s' := Next(s, Go(p));
            && |s'.pcs| == |s.pcs| == |s'.m.procs|
            && (forall q :: 0 <= q < |s.pcs| && q != p ==> s'.pcs[q] == s.pcs[q])
            && (Owner(s'.pcs[p]) && !Owner(s.pcs[p]) ==> !s.m.data.locked)
            && (s'.m.data.locked && !s.m.data.locked ==> Owner(s'.pcs[p]))
            && (s'.m.data.locked && Owner(s.pcs[p]) ==> Owner(s'.pcs[p]))
            && (s'.m.lk == None && !s'.m.data.locked ==> s'.m.data.pid == 0)
  {
    assert ProcOk(s, p);
    assert M.LockOk(s.m, p);
  }

  lemma GoKeeps(s: State, p: nat)
    requires Inv(s) && Enabled(s, Go(p))
    ensures Inv(Next(s, Go(p)))
  {
    var s' := Next(s, Go(p));
    GoPolite(s, p);
    M.StepKeeps(Cond(), CHANS, CHANS, s.m, Action(s, p).value.0);
    forall q | 0 <= q < |s'.pcs| ensures ProcOk(s', q) {
      GoProc(s, p, q);
    }
    GoOwners(s, p);
    forall q | 0 <= q < |s.pcs| && Owner(s.pcs[q]) ensures s.m.data.locked {
      assert ProcOk(s, q);
    }
    if s'.m.data.locked {
      var o := if s.m.data.locked then var o :| 0 <= o < |s.pcs| && Owner(s.pcs[o]); o else p;
      assert Owner(s'.pcs[o]);
    }
  }

  lemma CallKeeps(s: State, p: nat)
    requires Inv(s) && Enabled(s, Call(p))
    ensures Inv(Next(s, Call(p)))
  {
    var s' := Next(s, Call(p));
    assert ProcOk(s, p);
    assert Owner(s'.pcs[p]) == Owner(s.pcs[p]);
    forall q | 0 <= q < |s'.pcs| ensures ProcOk(s', q) && Owner(s'.pcs[q]) == Owner(s.pcs[q]) {
      assert ProcOk(s, q);
    }
    if s'.m.data.locked {
      var o :| 0 <= o < |s.pcs| && Owner(s.pcs[o]);
      assert Owner(s'.pcs[o]);
    }
  }

  /** Scheduling, killing and sleeping elsewhere touch neither the lock nor its users. */
  lemma OtherKeeps(s: State, f: M.Event<Data, Chan>)
    requires Inv(s) && M.Enabled(s.m, f) && (f.Pick? || f.Kill? || f.Elsewhere?)
    ensures Inv(s.(m := Step(s, f)))
  {
    var s' := s.(m := Step(s, f));
    M.StepKeeps(Cond(), CHANS, CHANS, s.m, f);
    forall q | 0 <= q < |s'.pcs| ensures ProcOk(s', q) {
      assert ProcOk(s, q);
    }
  }

  lemma StepKeeps(s: State, e: Event)
    requires Inv(s) && Enabled(s, e)
    ensures Inv(Next(s, e)) && |Next(s, e).pcs| == |s.pcs|
  {
    match e
    case Go(p) => GoKeeps(s, p);
    case Call(p) => CallKeeps(s, p);
    case Pick(p) => OtherKeeps(s, M.Pick(p));
    case Kill(p) => OtherKeeps(s, M.Kill(p));
    case Elsewhere(p, st) => OtherKeeps(s, M.Elsewhere(p, st));
  }

  lemma InitOk(n: nat)
    ensures Inv(Init(n))
  {
    var s := Init(n);
    forall p | 0 <= p < n ensures M.LockOk(s.m, p) && M.WaiterOk(Cond(), CHANS, CHANS, s.m, p) && ProcOk(s, p) {
      assert s.m.procs[p] == M.Proc(M.RUNNABLE, M.Outside) && s.pcs[p] == Free;
    }
  }

  lemma {:induction false} RunKeeps(n: nat, events: seq<Event>)
    requires Run(n, events).Some?
    ensures Inv(Run(n, events).value) && |Run(n, events).value.pcs| == n
    decreases |events|
  {
    if events == [] {
      InitOk(n);
    } else {
      RunKeeps(n, events[..|events| - 1]);
      StepKeeps(Run(n, events[..|events| - 1]).value, events[|events| - 1]);
    }
  }

  // -------------------------------------------------------------- properties

  /** In every reachable state at most one process holds the lock. */
  lemma MutualExclusion(n: nat, events: seq<Event>, s: State, p: nat, q: nat)
    requires Run(n, events) == Some(s) && p < n && q < n && |s.pcs| == n
    requires s.pcs[p] == Held && s.pcs[q] == Held
    ensures p == q && s.m.data.locked
  {
    RunKeeps(n, events);
    assert ProcOk(s, p);
  }

  /** Whenever the inner spinlock is free, a process asleep on the lock means that the
      lock is held, by a process that is not itself asleep on it. */
  lemma SleeperMeansHeld(n: nat, events: seq<Event>, s: State, p: nat)
    requires Run(n, events) == Some(s) && s.m.lk == None && p < n && |s.pcs| == |s.m.procs| == n
    requires M.Asleep(s.m.procs[p], Lk)
    ensures s.m.data.locked
    ensures exists q :: 0 <= q < n && Owner(s.pcs[q]) && s.m.procs[q].phase.Outside?
  {
    RunKeeps(n, events);
    M.NoMissedWakeup(Cond(), CHANS, CHANS, s.m, p, Lk);
    var q :| 0 <= q < |s.pcs| && Owner(s.pcs[q]);
    assert ProcOk(s, q);
  }

  lemma OwnerNamed(s: State, q: nat)
    requires Inv(s) && s.m.lk == None && q < |s.pcs| && Owner(s.pcs[q])
    ensures s.pcs[q] == Held || s.pcs[q] == Give
    ensures s.m.data == Data(true, q + 1)
  {
  }

  /** What holdingsleep computes, for a process outside acquiresleep and releasesleep, is
      whether it holds the lock. */
  lemma HoldingExact(n: nat, events: seq<Event>, s: State, p: nat)
    requires Run(n, events) == Some(s) && s.m.lk == None && p < n && |s.pcs| == n
    requires s.pcs[p] == Free || s.pcs[p] == Held
    ensures (s.m.data.locked && s.m.data.pid == p + 1) <==> s.pcs[p] == Held
  {
    RunKeeps(n, events);
    if s.pcs[p] == Held {
      OwnerNamed(s, p);
    } else if s.m.data.locked {
      var q :| 0 <= q < |s.pcs| && Owner(s.pcs[q]);
      OwnerNamed(s, q);
    }
  }

  // --------------------------------------------------------- calls and returns

  predicate Acquiring(pc: Pc) { pc.Want? || pc.Took? || pc.Named? }

  predicate Releasing(pc: Pc) { pc.Give? || pc.Giving? || pc.Cleared? || pc.Unnamed? || pc.Woke? }

  /** A call goes on until it returns: acquiresleep with the lock held in the caller's
      name, releasesleep with the lock free. */
  lemma Returns(n: nat, events: seq<Event>, s: State, p: nat)
    requires Run(n, events) == Some(s) && Enabled(s, Go(p))
    ensures var s' := Next(s, Go(p));
            && p < |s.pcs| == |s'.pcs|
            && (Acquiring(s.pcs[p]) ==> Acquiring(s'.pcs[p]) || (s'.pcs[p] == Held && s'.m.data == Data(true, p + 1)))
            && (Releasing(s.pcs[p]) ==> Releasing(s'.pcs[p]) || (s'.pcs[p] == Free && s'.m.data == Data(false, 0)))
            && (Acquiring(s.pcs[p]) || Releasing(s.pcs[p]))
  {
    RunKeeps(n, events);
    assert ProcOk(s, p);
  }

  lemma RestedStep(s: State, e: Event)
    requires M.Rested(s.m) && Enabled(s, e)
    ensures M.Rested(Next(s, e).m)
  {
    match e
    case Call(_) =>
    case Go(p) => M.StepRested(Cond(), CHANS, s.m, Action(s, p).value.0);
    case Pick(p) => M.StepRested(Cond(), CHANS, s.m, M.Pick(p));
    case Kill(p) => M.StepRested(Cond(), CHANS, s.m, M.Kill(p));
    case Elsewhere(p, st) => M.StepRested(Cond(), CHANS, s.m, M.Elsewhere(p, st));
  }

  lemma {:induction false} RunRested(n: nat, events: seq<Event>)
    requires Run(n, events).Some?
    ensures M.Rested(Run(n, events).value.m)
    decreases |events|
  {
    if events != [] {
      RunRested(n, events[..|events| - 1]);
      RestedStep(Run(n, events[..|events| - 1]).value, events[|events| - 1]);
    }
  }

  /** What the machine admits in every state it reaches, of a process that runs: a call if
      it is in none, and the next step of its call if no other process holds a spinlock. */
  lemma Admits(n: nat, events: seq<Event>, s: State, p: nat)
    requires Run(n, events) == Some(s) && p < |s.m.procs| == |s.pcs| && s.m.procs[p].st == M.RUNNING
    ensures s.pcs[p] == Free || s.pcs[p] == Held <==> Enabled(s, Call(p))
    ensures Acquiring(s.pcs[p]) || Releasing(s.pcs[p]) ==>
              (s.m.lk in {None, Some(p)} && s.m.pt in {None, Some(p)} ==> Enabled(s, Go(p)))
  {
    RunKeeps(n, events);
    RunRested(n, events);
    assert ProcOk(s, p) && M.LockOk(s.m, p);
  }
}
