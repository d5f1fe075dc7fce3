/** fork, exit and wait by any number of processes. What holds ptable.lock throughout is
  one step, with the effect that ProcTable proves of its loops; fork's writes to the new
  slot, which are made without the lock, are steps of their own.
 */
module ExitWait {
  import opened Common
  import opened ProcTable

  /** What kernel code a process is in. parentSet: fork has written np->parent. */
  datatype Pc = User | Forking(np: nat, parentSet: bool) | InWait

  datatype State = State(slots: seq<Slot>, pcs: seq<Pc>, nextpid: nat)

  datatype Event =
    | Alloc(p: nat, np: nat)       // fork: allocproc
    | AllocFail(p: nat)            // fork fails after allocproc
    | SetParent(p: nat)
    | Publish(p: nat)              // fork: np->state = RUNNABLE
    | Exit(p: nat)
    | Reap(p: nat, z: nat)         // wait finds a zombie
    | Refuse(p: nat)               // wait returns -1
    | Sleep(p: nat)                // wait goes to sleep
    | Pick(p: nat)
    | Yield(p: nat)
    | SleepOn(p: nat, id: nat)     // sleep and wakeup for other reasons
    | Wakeup(id: nat)
    | Kill(pid: nat)

  predicate Live(st: ProcState) { st == SLEEPING || st == RUNNABLE || st == RUNNING }

  predicate PastEmbryo(st: ProcState) { Live(st) || st == ZOMBIE }

  predicate Runs(s: State, p: nat) {
    p < |s.slots| == |s.pcs| && s.slots[p].state == RUNNING
  }

  /** p holds ptable.lock in wait: called now, or back from sleep. */
  predicate Waits(s: State, p: nat) {
    p < |s.slots| == |s.pcs| &&
    ((s.slots[p].state == RUNNING && s.pcs[p] == User) || (s.slots[p].state == RUNNABLE && s.pcs[p] == InWait))
  }

  predicate HasChild(slots: seq<Slot>, p: nat) {
    exists i :: 0 <= i < |slots| && slots[i].parent == Some(p)
  }

  predicate HasZombie(slots: seq<Slot>, p: nat) {
    exists i :: 0 <= i < |slots| && ZombieChild(slots[i], p)
  }

  predicate Enabled(s: State, e: Event) {
    |s.slots| == |s.pcs| &&
    match e
    case Alloc(p, np) => Runs(s, p) && s.pcs[p] == User && np < |s.slots| && s.slots[np].state == UNUSED
    case AllocFail(p) => Runs(s, p) && s.pcs[p].Forking? && !s.pcs[p].parentSet && s.pcs[p].np < |s.slots|
    case SetParent(p) => Runs(s, p) && s.pcs[p].Forking? && !s.pcs[p].parentSet && s.pcs[p].np < |s.slots|
    case Publish(p) => Runs(s, p) && s.pcs[p].Forking? && s.pcs[p].parentSet && s.pcs[p].np < |s.slots|
    case Exit(p) => Runs(s, p) && s.pcs[p] == User && p != INIT && s.slots[p].parent.Some?
    case Reap(p, z) => Waits(s, p) && z < |s.slots| && ZombieChild(s.slots[z], p)
    case Refuse(p) => Waits(s, p) && !HasZombie(s.slots, p) && (!HasChild(s.slots, p) || s.slots[p].killed)
    case Sleep(p) => Waits(s, p) && !HasZombie(s.slots, p) && HasChild(s.slots, p) && !s.slots[p].killed
    case Pick(p) => p < |s.slots| && s.slots[p].state == RUNNABLE && s.pcs[p] != InWait
    case Yield(p) => Runs(s, p)
    case SleepOn(p, _) => Runs(s, p)
    case Wakeup(_) => true
    case Kill(_) => true
  }

  function WakeAll(slots: seq<Slot>, c: Chan): seq<Slot> {
    seq(|slots|, i requires 0 <= i < |slots| => WakeSlot(slots[i], c))
  }

  function ExitAll(slots: seq<Slot>, p: nat): seq<Slot>
    requires p < |slots| && slots[p].parent.Some?
  {
    seq(|slots|, i requires 0 <= i < |slots| => ExitSlot(slots, p, i))
  }

  function Update(s: State, p: nat, sl: Slot): State
    requires p < |s.slots|
  {
    s.(slots := s.slots[p := sl])
  }

  /** p running again, out of wait. */
  function Returned(s: State, p: nat): State
    requires p < |s.slots| == |s.pcs|
  {
    Update(s, p, s.slots[p].(state := RUNNING, chan := NoChan)).(pcs := s.pcs[p := User])
  }

  function Next(s: State, e: Event): State
    requires Enabled(s, e)
  {
    match e
    case Alloc(p, np) =>
      Update(s, np, s.slots[np].(state := EMBRYO, pid := s.nextpid)).(nextpid := s.nextpid + 1,
          pcs := s.pcs[p := Forking(np, false)])
    case AllocFail(p) => Update(s, s.pcs[p].np, s.slots[s.pcs[p].np].(state := UNUSED)).(pcs := s.pcs[p := User])
    case SetParent(p) =>
      Update(s, s.pcs[p].np, s.slots[s.pcs[p].np].(parent := Some(p))).(pcs := s.pcs[p := Forking(s.pcs[p].np, true)])
    case Publish(p) => Update(s, s.pcs[p].np, s.slots[s.pcs[p].np].(state := RUNNABLE)).(pcs := s.pcs[p := User])
    case Exit(p) => s.(slots := ExitAll(s.slots, p))
    case Reap(p, z) => Update(Returned(s, p), z, Freed(Returned(s, p).slots[z]))
    case Refuse(p) => Returned(s, p)
    case Sleep(p) => Update(s, p, s.slots[p].(state := SLEEPING, chan := ProcChan(p))).(pcs := s.pcs[p := InWait])
    case Pick(p) => Update(s, p, s.slots[p].(state := RUNNING, chan := NoChan))
    case Yield(p) => Update(s, p, s.slots[p].(state := RUNNABLE))
    case SleepOn(p, id) => Update(s, p, s.slots[p].(state := SLEEPING, chan := OtherChan(id)))
    case Wakeup(id) => s.(slots := WakeAll(s.slots, OtherChan(id)))
    case Kill(pid) => s.(slots := Killed(s.slots, pid))
  }

  /** After userinit: init is RUNNABLE in slot 0 with pid 1. */
  function Init(n: nat): State
    requires n > 0
  {
    State([Slot(RUNNABLE, 1, None, NoChan, false)] + seq(n - 1, _ => Slot(UNUSED, 0, None, NoChan, false)),
        seq(n, _ => User), 2)
  }

  function Run(n: nat, events: seq<Event>): Option<State>
    requires n > 0
    decreases |events|
  {
    if events == [] then Some(Init(n))
    else
      var e := events[|events| - 1];
      match Run(n, events[..|events| - 1])
      case None => None
      case Some(s) => if Enabled(s, e) then Some(Next(s, e)) else None
  }

  // ------------------------------------------------------------------ invariant

  /** Kinship: pids grow from parent to child, and only fork has a child in EMBRYO. */
  predicate KinOk(s: State, i: nat)
    requires i < |s.slots| == |s.pcs|
  {
    var sl := s.slots[i];
    && sl.pid < s.nextpid
    && (sl.state == UNUSED ==> sl.parent == None)
    && (sl.state == EMBRYO && sl.parent.Some? ==>
          sl.parent.value < |s.pcs| && s.pcs[sl.parent.value] == Forking(i, true))
    && (i != INIT && sl.state != UNUSED ==> sl.pid > s.slots[INIT].pid)
    && (i != INIT && PastEmbryo(sl.state) ==> ParentOk(s, i))
    && (!Live(sl.state) ==> s.pcs[i] == User)
    && (s.pcs[i].Forking? ==> ForkOk(s, i))
  }

  /** Sleep: only wait sleeps on a process, its own, with a child and no zombie child. */
  predicate NapOk(s: State, i: nat)
    requires i < |s.slots| == |s.pcs|
  {
    var sl := s.slots[i];
    && (s.pcs[i] == InWait ==> sl.state != RUNNING)
    && (sl.state == SLEEPING && sl.chan.ProcChan? ==> sl.chan.slot == i && s.pcs[i] == InWait)
    && (sl.state == SLEEPING && s.pcs[i] == InWait ==>
         sl.chan == ProcChan(i) && HasChild(s.slots, i) && !HasZombie(s.slots, i))
  }

  predicate SlotOk(s: State, i: nat)
    requires i < |s.slots| == |s.pcs|
  {
    KinOk(s, i) && NapOk(s, i)
  }

  /** The parent is alive, no zombie, and older. */
  predicate ParentOk(s: State, i: nat)
    requires i < |s.slots|
  {
    var sl := s.slots[i];
    sl.parent.Some? && sl.parent.value < |s.slots| && Live(s.slots[sl.parent.value].state)
        && s.slots[sl.parent.value].pid < sl.pid
  }

  predicate ForkOk(s: State, p: nat)
    requires p < |s.pcs| && s.pcs[p].Forking?
  {
    var np := s.pcs[p].np;
    np < |s.slots| && np != INIT && p < |s.slots| && s.slots[np].state == EMBRYO && s.slots[p].pid < s.slots[np].pid
    && s.slots[np].parent == if s.pcs[p].parentSet then Some(p) else None
  }

  ghost predicate Inv(s: State) {
    && 0 < |s.slots| == |s.pcs| && Live(s.slots[INIT].state) && s.slots[INIT].parent == None
    && (forall i {:trigger SlotOk(s, i)} :: 0 <= i < |s.slots| ==> SlotOk(s, i))
    && (forall p, q {:trigger s.pcs[p], s.pcs[q]} :: 0 <= p < q < |s.pcs| && s.pcs[p].Forking? && s.pcs[q].Forking? ==>
          s.pcs[p].np != s.pcs[q].np)
  }

  lemma KinFact(s: State, i: nat)
    requires Inv(s) && i < |s.slots|
    ensures KinOk(s, i)
  {
    assert SlotOk(s, i);
  }

  /** The kinship of i, of its parent and of the slot it is filling. */
  lemma KinAround(s: State, i: nat)
    requires Inv(s) && i < |s.slots|
    ensures KinOk(s, i)
    ensures s.slots[i].parent.Some? && s.slots[i].parent.value < |s.slots| ==> KinOk(s, s.slots[i].parent.value)
    ensures s.pcs[i].Forking? ==> KinOk(s, s.pcs[i].np)
  {
    KinFact(s, i);
    if s.slots[i].parent.Some? && s.slots[i].parent.value < |s.slots| {
      KinFact(s, s.slots[i].parent.value);
    }
    if s.pcs[i].Forking? {
      KinFact(s, s.pcs[i].np);
    }
  }

  lemma KidsKept(t: seq<Slot>, t': seq<Slot>, i: nat)
    requires |t| == |t'|
    requires forall k {:trigger t'[k]} :: 0 <= k < |t| ==> (t[k].parent == Some(i) ==> t'[k].parent == Some(i))
    requires forall k {:trigger t'[k]} :: 0 <= k < |t| ==> (ZombieChild(t'[k], i) ==> ZombieChild(t[k], i))
    ensures HasChild(t, i) ==> HasChild(t', i)
    ensures !HasZombie(t, i) ==> !HasZombie(t', i)
  {
    if HasChild(t, i) {
      var k :| 0 <= k < |t| && t[k].parent == Some(i);
      assert t'[k].parent == Some(i);
    }
  }

  predicate SameKin(s: State, s': State, k: nat)
    requires k < |s.slots| == |s'.slots| == |s.pcs| == |s'.pcs|
  {
    var a, b := s.slots[k], s'.slots[k];
    && a.parent == b.parent && a.pid == b.pid && (a.state == b.state || (Live(a.state) && Live(b.state)))
    && (s.pcs[k].Forking? || s'.pcs[k].Forking? ==> s.pcs[k] == s'.pcs[k])
  }

  /** The part of SlotOk that is about a process's own sleep. */
  predicate RestOk(s: State, s': State, i: nat)
    requires i < |s'.slots| == |s'.pcs|
  {
    var sl := s'.slots[i];
    && (!Live(sl.state) ==> s'.pcs[i] == User)
    && (s'.pcs[i] == InWait ==> sl.state != RUNNING)
    && (sl.state == SLEEPING && sl.chan.ProcChan? ==> sl.chan.slot == i && s'.pcs[i] == InWait)
    && (sl.state == SLEEPING && s'.pcs[i] == InWait ==>
         sl.chan == ProcChan(i) && HasChild(s.slots, i) && !HasZombie(s.slots, i))
  }

  /** If kinship and life are as before, only each process's own sleep is in question. */
  lemma KinKept(s: State, s': State, i: nat)
    requires Inv(s) && i < |s.slots| == |s'.slots| == |s.pcs| == |s'.pcs| && s'.nextpid == s.nextpid
    requires forall k {:trigger SameKin(s, s', k)} :: 0 <= k < |s.slots| ==> SameKin(s, s', k)
    requires RestOk(s, s', i)
    ensures SlotOk(s', i)
  {
    assert SlotOk(s, i) && SameKin(s, s', i) && SameKin(s, s', INIT);
    var par := s.slots[i].parent;
    if par.Some? && par.value < |s.slots| {
      assert SameKin(s, s', par.value);
    }
    if s.pcs[i].Forking? {
      assert SameKin(s, s', s.pcs[i].np);
    }
    forall k | 0 <= k < |s.slots| ensures s'.slots[k].parent == s.slots[k].parent
        && (ZombieChild(s'.slots[k], i) ==> ZombieChild(s.slots[k], i)) {
      assert SameKin(s, s', k);
    }
    KidsKept(s.slots, s'.slots, i);
  }

  /** Scheduling, sleeping, waking, killing, and wait without a reaping. */
  lemma PlainStep(s: State, e: Event)
    requires Inv(s) && Enabled(s, e)
    requires e.Pick? || e.Yield? || e.SleepOn? || e.Wakeup? || e.Kill? || e.Refuse? || e.Sleep?
    ensures Inv(Next(s, e))
  {
    var s' := Next(s, e);
    forall k | 0 <= k < |s.slots| ensures SameKin(s, s', k) && RestOk(s, s', k) {
      assert SlotOk(s, k);
    }
    assert SameKin(s, s', INIT);
    forall i | 0 <= i < |s'.slots| ensures SlotOk(s', i) {
      KinKept(s, s', i);
    }
    forall k | 0 <= k < |s.slots| ensures s'.pcs[k].Forking? ==> s'.pcs[k] == s.pcs[k] {
      assert SameKin(s, s', k);
    }
  }

  /** fork's four steps change one slot, which no sleeper has for a child. */
  lemma AllocKin(s: State, p: nat, np: nat, i: nat)
    requires Inv(s) && Enabled(s, Alloc(p, np)) && i < |s.slots|
    ensures KinOk(Next(s, Alloc(p, np)), i)
  {
    KinAround(s, i);
    KinFact(s, p);
    KinFact(s, np);
    KinFact(s, INIT);
  }

  lemma FailKin(s: State, p: nat, i: nat)
    requires Inv(s) && Enabled(s, AllocFail(p)) && i < |s.slots|
    ensures KinOk(Next(s, AllocFail(p)), i)
  {
    KinAround(s, i);
    KinAround(s, p);
    KinFact(s, INIT);
    assert s.pcs[i].Forking? && i != p ==> s.pcs[i].np != s.pcs[p].np;
  }

  lemma ParentKin(s: State, p: nat, i: nat)
    requires Inv(s) && Enabled(s, SetParent(p)) && i < |s.slots|
    ensures KinOk(Next(s, SetParent(p)), i)
  {
    KinAround(s, i);
    KinAround(s, p);
    KinFact(s, INIT);
    assert s.pcs[i].Forking? && i != p ==> s.pcs[i].np != s.pcs[p].np;
  }

  lemma PublishKin(s: State, p: nat, i: nat)
    requires Inv(s) && Enabled(s, Publish(p)) && i < |s.slots|
    ensures KinOk(Next(s, Publish(p)), i)
  {
    KinAround(s, i);
    KinAround(s, p);
    KinFact(s, INIT);
    assert s.pcs[i].Forking? && i != p ==> s.pcs[i].np != s.pcs[p].np;
  }

  lemma ForkNap(s: State, e: Event, i: nat)
    requires Inv(s) && Enabled(s, e) && i < |s.slots|
    requires e.Alloc? || e.AllocFail? || e.SetParent? || e.Publish?
    ensures NapOk(Next(s, e), i)
  {
    var s' := Next(s, e);
    var np := if e.Alloc? then e.np else s.pcs[e.p].np;
    assert SlotOk(s, i) && SlotOk(s, e.p) && SlotOk(s, np);
    if s'.pcs[i] == InWait && s'.slots[i].state == SLEEPING {
      KidsKept(s.slots, s'.slots, i);
    }
  }

  lemma ForkKeeps(s: State, e: Event)
    requires Inv(s) && Enabled(s, e)
    requires e.Alloc? || e.AllocFail? || e.SetParent? || e.Publish?
    ensures Inv(Next(s, e))
  {
    var s' := Next(s, e);
    forall i | 0 <= i < |s'.slots| ensures SlotOk(s', i) {
      if e.Alloc? {
        AllocKin(s, e.p, e.np, i);
      } else if e.AllocFail? {
        FailKin(s, e.p, i);
      } else if e.SetParent? {
        ParentKin(s, e.p, i);
      } else {
        PublishKin(s, e.p, i);
      }
      ForkNap(s, e, i);
    }
    assert SlotOk(s, e.p) && SlotOk(s, INIT);
    forall q | 0 <= q < |s.pcs| && s.pcs[q].Forking?
      ensures s.pcs[q].np < |s.slots| && s.slots[s.pcs[q].np].state == EMBRYO
    {
      assert SlotOk(s, q);
    }
  }

  /** What exit by p does to kinship in slot k. */
  predicate Adopted(a: Slot, b: Slot, p: nat, k: nat) {
    && b.pid == a.pid && b.parent == (if a.parent == Some(p) then Some(INIT) else a.parent)
    && (if k == p then b.state == ZOMBIE else a.state == b.state || (Live(a.state) && Live(b.state)))
  }

  lemma ExitKinFrom(s: State, s': State, p: nat, i: nat)
    requires Inv(s) && Enabled(s, Exit(p)) && i < |s.slots| == |s'.slots| && s'.pcs == s.pcs && s'.nextpid == s.nextpid
    requires forall k {:trigger s'.slots[k]} :: 0 <= k < |s.slots| ==> Adopted(s.slots[k], s'.slots[k], p, k)
    ensures KinOk(s', i)
  {
    KinAround(s, i);
    KinFact(s, p);
    KinFact(s, INIT);
    assert Adopted(s.slots[INIT], s'.slots[INIT], p, INIT);
    var par := s.slots[i].parent;
    if par.Some? && par.value < |s.slots| {
      assert Adopted(s.slots[par.value], s'.slots[par.value], p, par.value);
    }
  }

  /** Who had p for a parent now has init. */
  lemma ExitKin(s: State, p: nat, i: nat)
    requires Inv(s) && Enabled(s, Exit(p)) && i < |s.slots|
    ensures KinOk(Next(s, Exit(p)), i)
  {
    var s' := Next(s, Exit(p));
    forall k | 0 <= k < |s.slots| ensures Adopted(s.slots[k], s'.slots[k], p, k) {
    }
    ExitKinFrom(s, s', p, i);
  }

  /** Whoever had to be told of a zombie is awake. */
  lemma ExitNap(s: State, p: nat, i: nat)
    requires Inv(s) && Enabled(s, Exit(p)) && i < |s.slots|
    ensures NapOk(Next(s, Exit(p)), i)
  {
    var s' := Next(s, Exit(p));
    assert SlotOk(s, i) && SlotOk(s, p);
    if s'.slots[i].state == SLEEPING && s'.pcs[i] == InWait {
      assert s.slots[p].parent != Some(i);
      assert i == INIT ==> !Orphans(s.slots, p, |s.slots|);
      forall k | 0 <= k < |s.slots|
        ensures (s.slots[k].parent == Some(i) ==> s'.slots[k].parent == Some(i))
             && (ZombieChild(s'.slots[k], i) ==> ZombieChild(s.slots[k], i)) {
        assert i == INIT ==> !ZombieChild(s.slots[k], p);
      }
      KidsKept(s.slots, s'.slots, i);
    }
  }

  lemma ExitKeeps(s: State, p: nat)
    requires Inv(s) && Enabled(s, Exit(p))
    ensures Inv(Next(s, Exit(p)))
  {
    var s' := Next(s, Exit(p));
    forall i | 0 <= i < |s'.slots| ensures SlotOk(s', i) {
      ExitKin(s, p, i);
      ExitNap(s, p, i);
    }
    assert SlotOk(s, INIT);
  }

  /** A zombie has no children, so its slot can go. */
  lemma ReapKin(s: State, p: nat, z: nat, i: nat)
    requires Inv(s) && Enabled(s, Reap(p, z)) && i < |s.slots|
    ensures KinOk(Next(s, Reap(p, z)), i)
  {
    KinAround(s, i);
    KinFact(s, p);
    KinFact(s, z);
    KinFact(s, INIT);
  }

  lemma ReapNap(s: State, p: nat, z: nat, i: nat)
    requires Inv(s) && Enabled(s, Reap(p, z)) && i < |s.slots|
    ensures NapOk(Next(s, Reap(p, z)), i)
  {
    var s' := Next(s, Reap(p, z));
    assert SlotOk(s, i) && SlotOk(s, p) && SlotOk(s, z);
    if s'.slots[i].state == SLEEPING && s'.pcs[i] == InWait {
      KidsKept(s.slots, s'.slots, i);
    }
  }

  lemma ReapKeeps(s: State, p: nat, z: nat)
    requires Inv(s) && Enabled(s, Reap(p, z))
    ensures Inv(Next(s, Reap(p, z)))
  {
    var s' := Next(s, Reap(p, z));
    forall i | 0 <= i < |s'.slots| ensures SlotOk(s', i) {
      ReapKin(s, p, z, i);
      ReapNap(s, p, z, i);
    }
    assert SlotOk(s, z) && SlotOk(s, p);
  }

  lemma StepKeeps(s: State, e: Event)
    requires Inv(s) && Enabled(s, e)
    ensures Inv(Next(s, e))
  {
    match e
    case Alloc(_, _) => ForkKeeps(s, e);
    case AllocFail(_) => ForkKeeps(s, e);
    case SetParent(_) => ForkKeeps(s, e);
    case Publish(_) => ForkKeeps(s, e);
    case Exit(p) => ExitKeeps(s, p);
    case Reap(p, z) => ReapKeeps(s, p, z);
    case _ => PlainStep(s, e);
  }

  lemma {:induction false} RunKeeps(n: nat, events: seq<Event>)
    requires n > 0 && Run(n, events).Some?
    ensures Inv(Run(n, events).value)
    decreases |events|
  {
    if events == [] {
      var s := Init(n);
      forall i | 0 <= i < n ensures SlotOk(s, i) {
        assert s.pcs[i] == User;
      }
    } else {
      RunKeeps(n, events[..|events| - 1]);
      StepKeeps(Run(n, events[..|events| - 1]).value, events[|events| - 1]);
    }
  }

  // ------------------------------------------------------------------ properties

  /** In every reachable state a process past EMBRYO other than init has a parent that is
      alive and no zombie. */
  lemma ParentAlive(n: nat, events: seq<Event>, s: State, i: nat)
    requires n > 0 && Run(n, events) == Some(s) && i < |s.slots| && i != INIT && PastEmbryo(s.slots[i].state)
    ensures s.slots[i].parent.Some? && s.slots[i].parent.value < |s.slots|
    ensures Live(s.slots[s.slots[i].parent.value].state)
  {
    RunKeeps(n, events);
    assert SlotOk(s, i);
  }

  /** The k-th ancestor of slot i. */
  function Ancestor(slots: seq<Slot>, i: nat, k: nat): Option<nat>
    decreases k
  {
    if i >= |slots| then None
    else if k == 0 then Some(i)
    else if slots[i].parent.Some? then Ancestor(slots, slots[i].parent.value, k - 1) else None
  }

  lemma {:induction false} ChainFrom(s: State, i: nat) returns (k: nat)
    requires Inv(s) && i < |s.slots| && PastEmbryo(s.slots[i].state)
    ensures Ancestor(s.slots, i, k) == Some(INIT)
    decreases s.slots[i].pid
  {
    assert SlotOk(s, i);
    if i == INIT {
      return 0;
    }
    k := ChainFrom(s, s.slots[i].parent.value);
    k := k + 1;
  }

  /** ... and its chain of parents leads to init. */
  lemma ChainReachesInit(n: nat, events: seq<Event>, s: State, i: nat)
    requires n > 0 && Run(n, events) == Some(s) && i < |s.slots| && PastEmbryo(s.slots[i].state)
    ensures exists k: nat :: Ancestor(s.slots, i, k) == Some(INIT)
  {
    RunKeeps(n, events);
    var k := ChainFrom(s, i);
  }

  /** A process asleep in wait has a child, and no child that has exited. */
  lemma WaiterHasChild(n: nat, events: seq<Event>, s: State, i: nat)
    requires n > 0 && Run(n, events) == Some(s) && i < |s.slots| == |s.pcs|
    requires s.slots[i].state == SLEEPING && s.pcs[i] == InWait
    ensures HasChild(s.slots, i) && !HasZombie(s.slots, i)
  {
    RunKeeps(n, events);
    assert SlotOk(s, i);
  }

  // --------------------------------------------------------------------- kill

  /** No two slots have the same pid, but for 0. */
  ghost predicate PidsOk(s: State) {
    && 0 < |s.slots| && s.slots[INIT].pid > 0
    && (forall i {:trigger s.slots[i]} :: 0 <= i < |s.slots| ==> s.slots[i].pid < s.nextpid)
    && (forall i, j {:trigger s.slots[i], s.slots[j]} :: 0 <= i < j < |s.slots| && s.slots[i].pid != 0 ==>
          s.slots[i].pid != s.slots[j].pid)
  }

  lemma OnePid(s: State, s': State, k: nat)
    requires PidsOk(s) && |s'.slots| == |s.slots| && k < |s.slots| && k != INIT && s.nextpid <= s'.nextpid
    requires forall i {:trigger s'.slots[i]} :: 0 <= i < |s.slots| && i != k ==> s'.slots[i].pid == s.slots[i].pid
    requires s'.slots[k].pid == 0 || s'.slots[k].pid == s.nextpid < s'.nextpid
    ensures PidsOk(s')
  {
  }

  lemma SamePids(s: State, s': State)
    requires PidsOk(s) && |s'.slots| == |s.slots| && s'.nextpid == s.nextpid
    requires forall i {:trigger s'.slots[i]} :: 0 <= i < |s.slots| ==> s'.slots[i].pid == s.slots[i].pid
    ensures PidsOk(s')
  {
  }

  lemma StepPids(s: State, e: Event)
    requires Inv(s) && PidsOk(s) && Enabled(s, e)
    ensures PidsOk(Next(s, e))
  {
    if e.Alloc? {
      OnePid(s, Next(s, e), e.np);
    } else if e.Reap? {
      OnePid(s, Next(s, e), e.z);
    } else {
      SamePids(s, Next(s, e));
    }
  }

  lemma {:induction false} RunPids(n: nat, events: seq<Event>)
    requires n > 0 && Run(n, events).Some?
    ensures PidsOk(Run(n, events).value)
    decreases |events|
  {
    if events != [] {
      RunPids(n, events[..|events| - 1]);
      RunKeeps(n, events[..|events| - 1]);
      StepPids(Run(n, events[..|events| - 1]).value, events[|events| - 1]);
    }
  }

  /** Whenever ptable.lock is free a kill may come. Right after it nobody with that pid is
      asleep. A process with that pid is marked and RUNNABLE if it was asleep; nothing
      else of it changes, and no other process. Pid 0 is that of free slots. */
  lemma KillWakes(n: nat, events: seq<Event>, s: State, pid: nat) returns (s': State)
    requires n > 0 && Run(n, events) == Some(s)
    ensures Run(n, events + [Kill(pid)]) == Some(s') && |s'.slots| == |s.slots| && s'.pcs == s.pcs
    ensures forall i :: 0 <= i < |s.slots| && s.slots[i].pid == pid ==> s'.slots[i].state != SLEEPING
    ensures forall i :: 0 <= i < |s.slots| && s.slots[i].pid == pid != 0 ==>
              s'.slots[i] == s.slots[i].(killed := true,
                                         state := if s.slots[i].state == SLEEPING then RUNNABLE else s.slots[i].state)
    ensures forall i :: 0 <= i < |s.slots| && s.slots[i].pid != pid ==> s'.slots[i] == s.slots[i]
  {
    RunPids(n, events);
    RunKeeps(n, events);
    s' := Next(s, Kill(pid));
    assert (events + [Kill(pid)])[..|events|] == events;
    forall i | 0 <= i < |s.slots| && s.slots[i].pid == pid
      ensures (pid != 0 ==> i == FirstWith(s.slots, pid)) && (pid == 0 ==> s.slots[i].state == UNUSED)
    {
      assert SlotOk(s, i);
    }
  }

  /** What a pass of wait comes to, by the table alone: exactly one of its three ends, and
      sleep only for a process that is not killed. */
  lemma WaitDecides(s: State, p: nat)
    requires Waits(s, p)
    ensures forall z: nat :: Enabled(s, Reap(p, z)) <==>
              z < |s.slots| && s.slots[z].parent == Some(p) && s.slots[z].state == ZOMBIE
    ensures Enabled(s, Sleep(p)) <==>
              && (forall z :: 0 <= z < |s.slots| && s.slots[z].parent == Some(p) ==> s.slots[z].state != ZOMBIE)
              && (exists z :: 0 <= z < |s.slots| && s.slots[z].parent == Some(p)) && !s.slots[p].killed
    ensures Enabled(s, Refuse(p)) <==> !Enabled(s, Sleep(p)) && !exists z: nat :: Enabled(s, Reap(p, z))
  {
    assert forall z :: 0 <= z < |s.slots| ==>
        (ZombieChild(s.slots[z], p) <==> s.slots[z].parent == Some(p) && s.slots[z].state == ZOMBIE);
    if HasZombie(s.slots, p) {
      var z :| 0 <= z < |s.slots| && ZombieChild(s.slots[z], p);
      assert Enabled(s, Reap(p, z));
    }
  }

  // ------------------------------------------------------------- fork and exit

  /** The end of fork: a RUNNABLE child of the process that forked, with a pid that no
      other slot has; nobody else changes. */
  lemma Forked(n: nat, events: seq<Event>, s: State, p: nat)
    requires n > 0 && Run(n, events) == Some(s) && Enabled(s, Publish(p))
    ensures var s', np := Next(s, Publish(p)), s.pcs[p].np;
            && np < |s'.slots| == |s.slots| && np != p && s.slots[np].state == EMBRYO
            && s'.slots[np].state == RUNNABLE && s'.slots[np].parent == Some(p) && s'.pcs[p] == User
            && s'.slots[np].pid > s'.slots[p].pid
            && forall i :: 0 <= i < |s.slots| && i != np ==>
                 s'.slots[i] == s.slots[i] && s'.slots[i].pid != s'.slots[np].pid
  {
    RunKeeps(n, events);
    RunPids(n, events);
    assert SlotOk(s, p) && SlotOk(s, INIT) && SlotOk(s, s.pcs[p].np);
  }

  /** The end of exit: a ZOMBIE whose parent is not asleep in wait, whose children are
      init's, and init is not asleep in wait if one of them is a zombie. */
  lemma Exited(n: nat, events: seq<Event>, s: State, p: nat)
    requires n > 0 && Run(n, events) == Some(s) && Enabled(s, Exit(p))
    ensures var s', q := Next(s, Exit(p)), s.slots[p].parent.value;
            && |s'.slots| == |s.slots| && q < |s.slots| && s'.slots[p].state == ZOMBIE && s'.slots[p].parent == Some(q)
            && !(s'.slots[q].state == SLEEPING && s'.slots[q].chan == ProcChan(q))
            && (forall i :: 0 <= i < |s.slots| ==>
                  && s'.slots[i].parent == (if s.slots[i].parent == Some(p) then Some(INIT) else s.slots[i].parent)
                  && (s.slots[i].parent == Some(p) && s.slots[i].state == ZOMBIE ==>
                        !(s'.slots[INIT].state == SLEEPING && s'.slots[INIT].chan == ProcChan(INIT))))
  {
    RunKeeps(n, events);
    assert SlotOk(s, p) && SlotOk(s, INIT);
    var s' := Next(s, Exit(p));
    forall i | 0 <= i < |s.slots| && s.slots[i].parent == Some(p) && s.slots[i].state == ZOMBIE
      ensures Orphans(s.slots, p, |s.slots|)
    {
      assert ZombieChild(s.slots[i], p);
    }
  }
}
