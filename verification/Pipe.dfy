/** A pipe used by any number of readers and writers, step by step, over the sleep/wakeup
  steps of Monitor and the ring of PipeRing.
 */
module Pipe {
  import opened Common
  import opened PipeRing
  import M = Monitor

  datatype Chan = Nread | Nwrite   // the addresses of the two counters

  datatype Pc =
    | Idle
    | Writing(buf: seq<byte>, i: nat)   // pipewrite's loops
    | Napping(buf: seq<byte>, i: nat)   // ring full, readers woken, about to sleep
    | Wrote                             // pipewrite's last wakeup and release
    | Reading(n: nat)                   // piperead's wait loop
    | Copying(n: nat, i: nat)           // piperead's copy loop
    | Drained                           // piperead's wakeup and release
    | Closing(writable: bool)
    | Flagged(writable: bool)           // pipeclose, the end's flag cleared
    | Closed                            // pipeclose's wakeup and release

  /** rfd and wfd: the file at that end still has references. written and read record the
      bytes in the order in which they went through the ring. */
  datatype State = State(m: M.State<Data, Chan>, pcs: seq<Pc>, killed: seq<bool>, rfd: bool, wfd: bool,
                         written: seq<byte>, read: seq<byte>)

  datatype Event =
    | Write(p: nat, buf: seq<byte>)
    | Read(p: nat, n: nat)
    | Close(p: nat, writable: bool)
    | Go(p: nat)
    | Pick(p: nat)
    | Kill(p: nat)
    | Elsewhere(p: nat, st: M.Run)

  const CHANS: set<Chan> := {Nread, Nwrite}

  /** Readers sleep while the ring is empty and a writer may come, writers while it is
      full and a reader may come. */
  predicate MayWait(d: Data, c: Chan) {
    if c == Nread then Empty(d) && d.writeopen else Full(d) && d.readopen
  }

  function Cond(): (Data, Chan) -> bool {
    (d: Data, c: Chan) => MayWait(d, c)
  }

  /** Closing an end concerns those who sleep at the other. */
  function EndChan(writable: bool): Chan { if writable then Nread else Nwrite }

  predicate Reader(pc: Pc) { pc.Reading? || pc.Copying? || pc.Drained? }

  predicate Writer(pc: Pc) { pc.Writing? || pc.Napping? || pc.Wrote? }

  /** An action: a step of the monitor, the next control point, and the byte moved. */
  datatype Act = Act(e: M.Event<Data, Chan>, pc: Pc, put: seq<byte>, got: seq<byte>)

  function Plain(e: M.Event<Data, Chan>, pc: Pc): Act { Act(e, pc, [], []) }

  predicate Runs(s: State, p: nat) {
    p < |s.pcs| == |s.m.procs| == |s.killed| && s.m.procs[p].st == M.RUNNING && |s.m.data.data| == PIPESIZE
  }

  /** What a process does next while it holds the lock. */
  function InsideAction(d: Data, pc: Pc, p: nat, killed: bool): Option<Act>
    requires |d.data| == PIPESIZE
  {
    match pc
    case Writing(buf, i) =>
      if i >= |buf| then Some(Plain(M.Wake(p, Nread), Wrote))
      else if Full(d) then
        if !d.readopen || killed then Some(Plain(M.Release(p), Idle))
        else Some(Plain(M.Wake(p, Nread), Napping(buf, i)))
      else Some(Act(M.Update(p, Push(d, buf[i])), Writing(buf, i + 1), [buf[i]], []))
    case Napping(buf, i) => Some(Plain(M.Sleep(p, Nwrite), Writing(buf, i)))
    case Reading(n) =>
      if Empty(d) && d.writeopen then
        if killed then Some(Plain(M.Release(p), Idle)) else Some(Plain(M.Sleep(p, Nread), pc))
      else CopyAction(d, p, n, 0)
    case Copying(n, i) => CopyAction(d, p, n, i)
    case Closing(w) =>
      Some(Plain(M.Update(p, if w then d.(writeopen := false) else d.(readopen := false)), Flagged(w)))
    case Flagged(w) => Some(Plain(M.Wake(p, EndChan(w)), Closed))
    case Idle => None
    case _ => Some(Plain(M.Release(p), Idle))
  }

  function CopyAction(d: Data, p: nat, n: nat, i: nat): Option<Act>
    requires |d.data| == PIPESIZE
  {
    if i >= n || Empty(d) then Some(Plain(M.Wake(p, Nwrite), Drained))
    else Some(Act(M.Update(p, Pop(d)), Copying(n, i + 1), [], [Front(d)]))
  }

  function Action(s: State, p: nat): Option<Act>
    requires Runs(s, p)
  {
    var pc := s.pcs[p];
    match s.m.procs[p].phase
    case Outside => if pc == Idle then None else Some(Plain(M.Acquire(p), pc))
    case Inside(_) => InsideAction(s.m.data, pc, p, s.killed[p])
    case Waking(_, _, _) => Some(Plain(M.Scan(p), pc))
    case Going(_) => Some(Plain(M.Drop(p), pc))
    case Parking(_) => Some(Plain(M.Park(p), pc))
    case Parked(_) => None
    case Back => Some(Plain(M.Return(p), pc))
  }

  /** A killed process starts no more calls but closes its files. A file is closed when the
      last reference goes, so not while a call on it is under way. */
  predicate Enabled(s: State, e: Event) {
    |s.pcs| == |s.m.procs| == |s.killed| &&
    match e
    case Write(p, _) => Runs(s, p) && s.pcs[p] == Idle && !s.killed[p] && s.wfd
    case Read(p, _) => Runs(s, p) && s.pcs[p] == Idle && !s.killed[p] && s.rfd
    case Close(p, w) =>
      Runs(s, p) && s.pcs[p] == Idle && (if w then s.wfd else s.rfd)
      && forall q :: 0 <= q < |s.pcs| ==> if w then !Writer(s.pcs[q]) else !Reader(s.pcs[q])
    case Go(p) => Runs(s, p) && Action(s, p).Some? && M.Enabled(s.m, Action(s, p).value.e)
    case Pick(p) => M.Enabled(s.m, M.Pick(p))
    case Kill(p) => M.Enabled(s.m, M.Kill(p))
    case Elsewhere(p, st) =>
      p < |s.pcs| && M.Enabled(s.m, M.Elsewhere(p, st)) && (s.pcs[p] == Idle || st != M.SLEEPING)
  }

  function Step(s: State, e: M.Event<Data, Chan>): M.State<Data, Chan>
    requires M.Enabled(s.m, e)
  {
    M.Next(Cond(), CHANS, s.m, e)
  }

  function Next(s: State, e: Event): State
    requires Enabled(s, e)
  {
    match e
    case Write(p, buf) => s.(pcs := s.pcs[p := Writing(buf, 0)])
    case Read(p, n) => s.(pcs := s.pcs[p := Reading(n)])
    case Close(p, w) => s.(pcs := s.pcs[p := Closing(w)], rfd := s.rfd && w, wfd := s.wfd && !w)
    case Go(p) =>
      var a := Action(s, p).value;
      s.(m := Step(s, a.e), pcs := s.pcs[p := a.pc], written := s.written + a.put, read := s.read + a.got)
    case Pick(p) => s.(m := Step(s, M.Pick(p)))
    case Kill(p) => s.(m := Step(s, M.Kill(p)), killed := s.killed[p := true])
    case Elsewhere(p, st) => s.(m := Step(s, M.Elsewhere(p, st)))
  }

  /** pipealloc, with n processes. */
  function Init(n: nat): State {
    State(M.State(Data(seq(PIPESIZE, _ => 0), 0, 0, true, true), None, None,
        seq(n, _ => M.Proc(M.RUNNABLE, M.Outside))),
          seq(n, _ => Idle), seq(n, _ => false), true, true, [], [])
  }

  function Run(n: nat, events: seq<Event>): Option<State>
    decreases |events|
  {
    if events == [] then Some(Init(n))
    else
      var e := events[|events| - 1];
      match Run(n, events[..|events| - 1])
      case None => None
      case Some(s) => if Enabled(s, e) then Some(Next(s, e)) else None
  }

  // ----------------------------------------------------- order, kills included

  /** What a step does to the ring is what it reports to have moved. */
  lemma GoMoves(s: State, p: nat)
    requires Enabled(s, Go(p))
    ensures var a, d := Action(s, p).value, Next(s, Go(p)).m.data;
            if a.put != [] then a.got == [] && |a.put| == 1 && !Full(s.m.data) && d == Push(s.m.data, a.put[0])
            else if a.got != [] then !Empty(s.m.data) && a.got == [Front(s.m.data)] && d == Pop(s.m.data)
            else d.data == s.m.data.data && d.nread == s.m.data.nread && d.nwrite == s.m.data.nwrite
  {
  }

  lemma StepFifo(s: State, e: Event)
    requires Enabled(s, e) && Fifo(s.m.data, s.written, s.read)
    ensures var s' := Next(s, e); Fifo(s'.m.data, s'.written, s'.read)
  {
    if e.Go? {
      var a := Action(s, e.p).value;
      var s' := Next(s, e);
      GoMoves(s, e.p);
      if a.put != [] {
        PushKeeps(s.m.data, s.written, s.read, a.put[0]);
        assert a.put == [a.put[0]] && s'.read == s.read;
      } else if a.got != [] {
        PopKeeps(s.m.data, s.written, s.read);
        assert s'.written == s.written;
      } else {
        assert s'.written == s.written && s'.read == s.read;
      }
    }
  }

  /** In every run, with kills and closes and counters that wrap: the bytes read are the
      first of the bytes written, in order, and the counters' distance is their number. */
  lemma {:induction false} FirstInFirstOut(n: nat, events: seq<Event>)
    requires Run(n, events).Some?
    ensures var s := Run(n, events).value;
            && s.read <= s.written && Fifo(s.m.data, s.written, s.read)
            && (s.m.data.nwrite - s.m.data.nread) % WRAP == |s.written| - |s.read| <= PIPESIZE
    decreases |events|
  {
    if events != [] {
      FirstInFirstOut(n, events[..|events| - 1]);
      StepFifo(Run(n, events[..|events| - 1]).value, events[|events| - 1]);
    }
    var s := Run(n, events).value;
    CountersTell(s.m.data, s.written, s.read);
  }

  // ------------------------------------------------------------------ sleepers

  /** In wakeup or past it, with nothing else owed. */
  predicate Woke(ph: M.Phase<Chan>) {
    (ph.Inside? || ph.Waking?) && ph.owed == {}
  }

  /** In the sleep calls of a wait loop, or about to test its condition. */
  predicate Loops(ph: M.Phase<Chan>, c: Chan, owed: set<Chan>) {
    && !ph.Waking? && (ph.Inside? ==> ph.owed <= owed)
    && (ph.Going? || ph.Parking? || ph.Parked? ==> ph.chan == c)
  }

  predicate ProcOk(s: State, p: nat)
    requires p < |s.pcs| == |s.m.procs| == |s.killed|
  {
    var ph := s.m.procs[p].phase;
    match s.pcs[p]
    case Idle => ph.Outside?
    case Writing(_, _) => Loops(ph, Nwrite, {Nread})
    case Napping(_, _) => Woke(ph) && Full(s.m.data) && s.m.data.readopen
    case Wrote => Woke(ph)
    case Reading(_) => Loops(ph, Nread, {}) && s.rfd
    case Copying(_, _) => ph.Inside? && ph.owed <= {Nwrite} && s.rfd
    case Drained => Woke(ph) && s.rfd
    case Closing(w) => (ph.Outside? || (ph.Inside? && ph.owed == {})) && (!w ==> !s.rfd)
    case Flagged(w) => ph.Inside? && ph.owed <= {EndChan(w)} && (!w ==> !s.rfd)
    case Closed => Woke(ph)
  }

  /** `good` are the channels whose sleepers always have their cause. */
  ghost predicate Inv(s: State, good: set<Chan>) {
    && |s.pcs| == |s.m.procs| == |s.killed| && |s.m.data.data| == PIPESIZE
    && M.Inv(Cond(), CHANS, good, s.m)
    && (forall p {:trigger s.pcs[p]} :: 0 <= p < |s.pcs| ==> ProcOk(s, p))
    && (!s.m.data.readopen ==> !s.rfd)
    && s.m.data.nread < WRAP && s.m.data.nwrite < WRAP
  }

  /** Once the read end is closed nobody waits for bytes. */
  lemma NoReaderWaits(s: State, good: set<Chan>)
    requires Inv(s, good) && !s.rfd
    ensures M.NoWaiter(s.m, Nread)
  {
    forall p | 0 <= p < |s.m.procs| ensures !M.Waits(s.m.procs[p], Nread) {
      assert ProcOk(s, p);
    }
  }

  /** A killed writer is about to leave a full ring while a reader waits: the one branch
      that drops the lock without a wakeup. */
  ghost predicate Strands(s: State, e: Event) {
    && e.Go? && Runs(s, e.p) && s.m.procs[e.p].phase.Inside? && s.pcs[e.p].Writing?
    && s.pcs[e.p].i < |s.pcs[e.p].buf| && Full(s.m.data) && (!s.m.data.readopen || s.killed[e.p])
    && !M.NoWaiter(s.m, Nread)
  }

  lemma GoPolite(s: State, p: nat, good: set<Chan>)
    requires Inv(s, good) && Enabled(s, Go(p)) && (Nread in good ==> !Strands(s, Go(p)))
    ensures M.Polite(Cond(), good, s.m, Action(s, p).value.e)
  {
    assert ProcOk(s, p);
    if !s.rfd {
      NoReaderWaits(s, good);
    }
  }

  /** A byte written can only let readers down, a byte read only writers. */
  lemma BrokenBy(d: Data, pc: Pc, p: nat, killed: bool)
    requires |d.data| == PIPESIZE && InsideAction(d, pc, p, killed).Some?
             && InsideAction(d, pc, p, killed).value.e.Update?
    ensures var b := M.Broken(Cond(), CHANS, d, InsideAction(d, pc, p, killed).value.e.d);
            && (pc.Writing? ==> b <= {Nread})
            && (pc.Reading? || pc.Copying? ==> b <= {Nwrite})
            && (pc.Closing? ==> b <= {EndChan(pc.writable)})
  {
  }

  lemma GoInside(s: State, p: nat, good: set<Chan>)
    requires Inv(s, good) && Enabled(s, Go(p)) && s.m.procs[p].phase.Inside?
    ensures ProcOk(Next(s, Go(p)), p)
  {
    assert ProcOk(s, p);
    if Action(s, p).value.e.Update? {
      BrokenBy(s.m.data, s.pcs[p], p, s.killed[p]);
    }
  }

  lemma GoSelf(s: State, p: nat, good: set<Chan>)
    requires Inv(s, good) && Enabled(s, Go(p))
    ensures ProcOk(Next(s, Go(p)), p)
  {
    assert ProcOk(s, p);
    if s.m.procs[p].phase.Inside? {
      GoInside(s, p, good);
    }
  }

  lemma GoOther(s: State, p: nat, q: nat, good: set<Chan>)
    requires Inv(s, good) && Enabled(s, Go(p)) && q < |s.pcs| && p != q
    ensures ProcOk(Next(s, Go(p)), q)
  {
    assert ProcOk(s, p) && ProcOk(s, q);
    assert M.LockOk(s.m, p) && M.LockOk(s.m, q);
    var s' := Next(s, Go(p));
    assert s'.m.procs[q].phase == s.m.procs[q].phase;
    assert s.pcs[q].Napping? ==> s'.m.data == s.m.data;
  }

  lemma GoKeeps(s: State, p: nat, good: set<Chan>)
    requires Inv(s, good) && Enabled(s, Go(p)) && (Nread in good ==> !Strands(s, Go(p)))
    ensures Inv(Next(s, Go(p)), good)
  {
    var s' := Next(s, Go(p));
    GoPolite(s, p, good);
    M.StepKeeps(Cond(), CHANS, good, s.m, Action(s, p).value.e);
    forall q | 0 <= q < |s'.pcs| ensures ProcOk(s', q) {
      if q == p {
        GoSelf(s, p, good);
      } else {
        GoOther(s, p, q, good);
      }
    }
    assert ProcOk(s, p);
  }

  /** Events that are no step of pipe code. */
  lemma OtherKeeps(s: State, e: Event, good: set<Chan>)
    requires Inv(s, good) && Enabled(s, e) && !e.Go?
    ensures Inv(Next(s, e), good)
  {
    var s' := Next(s, e);
    match e {
      case Pick(p) => M.StepKeeps(Cond(), CHANS, good, s.m, M.Pick(p));
      case Kill(p) => M.StepKeeps(Cond(), CHANS, good, s.m, M.Kill(p));
      case Elsewhere(p, st) => M.StepKeeps(Cond(), CHANS, good, s.m, M.Elsewhere(p, st));
      case _ =>
    }
    forall q | 0 <= q < |s'.pcs| ensures ProcOk(s', q) {
      assert ProcOk(s, q);
    }
  }

  lemma InitOk(n: nat)
    ensures Inv(Init(n), CHANS)
  {
    var s := Init(n);
    forall p | 0 <= p < n ensures M.LockOk(s.m, p) && M.WaiterOk(Cond(), CHANS, CHANS, s.m, p) && ProcOk(s, p) {
      assert s.m.procs[p] == M.Proc(M.RUNNABLE, M.Outside) && s.pcs[p] == Idle;
    }
  }

  /** No step of the run strands a reader. */
  ghost predicate NeverStrands(n: nat, events: seq<Event>)
    decreases |events|
  {
    events != [] ==>
      var before := events[..|events| - 1];
      && NeverStrands(n, before)
      && (Run(n, before).Some? ==> !Strands(Run(n, before).value, events[|events| - 1]))
  }

  lemma StepKeeps(s: State, e: Event, good: set<Chan>)
    requires Inv(s, good) && Enabled(s, e) && (Nread in good ==> !Strands(s, e))
    ensures Inv(Next(s, e), good)
  {
    if e.Go? {
      GoKeeps(s, e.p, good);
    } else {
      OtherKeeps(s, e, good);
    }
  }

  lemma FewerGood(s: State)
    requires Inv(s, CHANS)
    ensures Inv(s, {Nwrite})
  {
    forall p | 0 <= p < |s.m.procs| ensures M.WaiterOk(Cond(), CHANS, {Nwrite}, s.m, p) {
      assert M.WaiterOk(Cond(), CHANS, CHANS, s.m, p);
    }
    forall p | 0 <= p < |s.pcs| ensures ProcOk(s, p) {
    }
  }

  /** Writers are never let down; readers are not as long as no step strands one. */
  lemma {:induction false} RunKeeps(n: nat, events: seq<Event>, good: set<Chan>)
    requires Run(n, events).Some? && (good == {Nwrite} || (good == CHANS && NeverStrands(n, events)))
    ensures Inv(Run(n, events).value, good)
    decreases |events|
  {
    if events == [] {
      InitOk(n);
      FewerGood(Init(n));
    } else {
      RunKeeps(n, events[..|events| - 1], good);
      StepKeeps(Run(n, events[..|events| - 1]).value, events[|events| - 1], good);
    }
  }

  /** Whenever the pipe's lock is free, whoever waits on c has cause to. */
  ghost predicate Caused(s: State, c: Chan) {
    s.m.lk == None && !M.NoWaiter(s.m, c) ==> MayWait(s.m.data, c)
  }

  lemma InvCaused(s: State, good: set<Chan>, c: Chan)
    requires Inv(s, good) && c in good
    ensures Caused(s, c)
  {
    if s.m.lk == None && !M.NoWaiter(s.m, c) {
      var p :| 0 <= p < |s.m.procs| && M.Waits(s.m.procs[p], c);
      M.NoMissedWakeup(Cond(), CHANS, good, s.m, p, c);
    }
  }

  /** Whenever the pipe's lock is free, a writer asleep means a full ring and an open read
      end, in every run, kills included. A reader asleep means an empty ring and an open
      write end as long as no writer was killed out of a full ring under its eyes. */
  lemma SleepersHaveCause(n: nat, events: seq<Event>, s: State, p: nat)
    requires Run(n, events) == Some(s) && s.m.lk == None && p < |s.m.procs|
    ensures M.Asleep(s.m.procs[p], Nwrite) ==> |s.written| - |s.read| == PIPESIZE && s.m.data.readopen
    ensures NeverStrands(n, events) && M.Asleep(s.m.procs[p], Nread) ==> |s.written| == |s.read| && s.m.data.writeopen
  {
    FirstInFirstOut(n, events);
    CountersTell(s.m.data, s.written, s.read);
    if M.Asleep(s.m.procs[p], Nwrite) {
      RunKeeps(n, events, {Nwrite});
      M.NoMissedWakeup(Cond(), CHANS, {Nwrite}, s.m, p, Nwrite);
    }
    if NeverStrands(n, events) && M.Asleep(s.m.procs[p], Nread) {
      RunKeeps(n, events, CHANS);
      M.NoMissedWakeup(Cond(), CHANS, CHANS, s.m, p, Nread);
    }
  }

  /** A stranding step drops the lock, and the reader goes on waiting at a full ring. */
  lemma StrandingShows(s: State, e: Event)
    requires Inv(s, {Nwrite}) && Enabled(s, e) && Strands(s, e)
    ensures Next(s, e).m.data == s.m.data && !Caused(Next(s, e), Nread)
  {
    var s' := Next(s, e);
    assert Action(s, e.p).value.e == M.Release(e.p);
    var q :| 0 <= q < |s.m.procs| && M.Waits(s.m.procs[q], Nread);
    assert M.LockOk(s.m, e.p);
    assert s'.m.procs[q] == s.m.procs[q];
  }

  /** Every state of the run, its first and its last included. */
  ghost predicate AlwaysCaused(n: nat, events: seq<Event>)
    decreases |events|
  {
    && (events != [] ==> AlwaysCaused(n, events[..|events| - 1]))
    && (Run(n, events).Some? ==> Caused(Run(n, events).value, Nread))
  }

  /** Readers always have cause to wait exactly in the runs in which no step strands one. */
  lemma {:induction false} ReadersExactly(n: nat, events: seq<Event>)
    requires Run(n, events).Some?
    ensures AlwaysCaused(n, events) <==> NeverStrands(n, events)
    decreases |events|
  {
    if events == [] {
      RunKeeps(n, events, CHANS);
      InvCaused(Run(n, events).value, CHANS, Nread);
    } else {
      var before, e := events[..|events| - 1], events[|events| - 1];
      var s := Run(n, before).value;
      ReadersExactly(n, before);
      if NeverStrands(n, events) {
        RunKeeps(n, events, CHANS);
        InvCaused(Run(n, events).value, CHANS, Nread);
      } else if Strands(s, e) {
        RunKeeps(n, before, {Nwrite});
        StrandingShows(s, e);
      }
    }
  }

  // ---------------------------------------------------------- a killed writer

  lemma RunThen(n: nat, events: seq<Event>, s: State, e: Event)
    requires Run(n, events) == Some(s) && Enabled(s, e)
    ensures Run(n, events + [e]) == Some(Next(s, e))
  {
  }

  /** Process 0 asleep for bytes, process 1 in pipewrite with k bytes in the ring. */
  ghost predicate Filled(s: State, buf: seq<byte>, k: nat) {
    && |s.pcs| == |s.m.procs| == |s.killed| == 2 && |s.m.data.data| == PIPESIZE
    && s.m.lk == Some(1) && s.m.pt == None && M.Asleep(s.m.procs[0], Nread)
    && s.m.procs[1].st == M.RUNNING && s.m.procs[1].phase.Inside? && s.pcs[1] == Writing(buf, k)
    && s.m.data.nread == 0 && s.m.data.nwrite == k
  }

  /** Process 0 in piperead in the given phase, process 1 yet to start. */
  ghost predicate Waiting(s: State, st: M.Run, ph: M.Phase<Chan>) {
    && |s.pcs| == |s.m.procs| == |s.killed| == 2 && |s.m.data.data| == PIPESIZE
    && s.m.lk == (if M.HoldsLk(ph) then Some(0) else None) && s.m.pt == (if M.HoldsPt(ph) then Some(0) else None)
    && s.m.procs == [M.Proc(st, ph), M.Proc(M.RUNNABLE, M.Outside)]
    && s.pcs == [Reading(1), Idle] && s.killed == [false, false] && s.wfd
    && s.m.data.nread == 0 == s.m.data.nwrite && s.m.data.writeopen
  }

  /** The reader's way to sleep: acquire, find the ring empty, sleep. */
  lemma WaitingStep(s: State, ph: M.Phase<Chan>) returns (st: M.Run, ph': M.Phase<Chan>)
    requires Waiting(s, M.RUNNING, ph) && ph in {M.Outside, M.Inside({}), M.Going(Nread), M.Parking(Nread)}
    ensures Enabled(s, Go(0)) && Waiting(Next(s, Go(0)), st, ph')
    ensures st == if ph == M.Parking(Nread) then M.SLEEPING else M.RUNNING
    ensures ph' == if ph == M.Outside then M.Inside({}) else if ph == M.Inside({}) then M.Going(Nread)
                   else if ph == M.Going(Nread) then M.Parking(Nread) else M.Parked(Nread)
  {
    assert Empty(s.m.data);
    st := if ph == M.Parking(Nread) then M.SLEEPING else M.RUNNING;
    ph' := if ph == M.Outside then M.Inside({}) else if ph == M.Inside({}) then M.Going(Nread)
           else if ph == M.Going(Nread) then M.Parking(Nread) else M.Parked(Nread);
    var s' := Next(s, Go(0));
    assert s'.m.procs == [M.Proc(st, ph'), M.Proc(M.RUNNABLE, M.Outside)];
    assert s'.pcs == [Reading(1), Idle];
  }

  lemma ReaderStarts() returns (events: seq<Event>, s: State)
    ensures Run(2, events) == Some(s) && Waiting(s, M.RUNNING, M.Outside)
  {
    events, s := [], Init(2);
    assert s.m.procs == [M.Proc(M.RUNNABLE, M.Outside), M.Proc(M.RUNNABLE, M.Outside)];
    events, s := Then(events, s, Elsewhere(0, M.RUNNING));
    events, s := Then(events, s, Read(0, 1));
    assert s.m.procs == [M.Proc(M.RUNNING, M.Outside), M.Proc(M.RUNNABLE, M.Outside)];
    assert s.pcs == [Reading(1), Idle];
  }

  lemma ReaderAsleep() returns (events: seq<Event>, s: State)
    ensures Run(2, events) == Some(s) && Waiting(s, M.SLEEPING, M.Parked(Nread))
  {
    events, s := ReaderStarts();
    var st, ph := WaitingStep(s, M.Outside);
    events, s := Then(events, s, Go(0));
    st, ph := WaitingStep(s, ph);
    events, s := Then(events, s, Go(0));
    st, ph := WaitingStep(s, ph);
    events, s := Then(events, s, Go(0));
    st, ph := WaitingStep(s, ph);
    events, s := Then(events, s, Go(0));
  }

  lemma WriterStarts(s: State, buf: seq<byte>) returns (s1: State, s2: State, s3: State)
    requires Waiting(s, M.SLEEPING, M.Parked(Nread))
    ensures Enabled(s, Elsewhere(1, M.RUNNING)) && s1 == Next(s, Elsewhere(1, M.RUNNING))
    ensures Enabled(s1, Write(1, buf)) && s2 == Next(s1, Write(1, buf))
    ensures Enabled(s2, Go(1)) && s3 == Next(s2, Go(1)) && Filled(s3, buf, 0)
  {
    s1 := Next(s, Elsewhere(1, M.RUNNING));
    s2 := Next(s1, Write(1, buf));
    s3 := Next(s2, Go(1));
  }

  lemma FilledStep(s: State, buf: seq<byte>, k: nat)
    requires Filled(s, buf, k) && k < PIPESIZE < |buf|
    ensures Enabled(s, Go(1)) && Filled(Next(s, Go(1)), buf, k + 1)
  {
    assert !Full(s.m.data);
    assert Action(s, 1).value.e == M.Update(1, Push(s.m.data, buf[k]));
  }

  lemma KilledStep(s: State, buf: seq<byte>)
    requires Filled(s, buf, PIPESIZE) && PIPESIZE < |buf|
    ensures Enabled(s, Kill(1)) && Enabled(Next(s, Kill(1)), Go(1))
    ensures var s' := Next(Next(s, Kill(1)), Go(1));
            |s'.m.procs| == 2 && s'.m.lk == None && M.Asleep(s'.m.procs[0], Nread) && Full(s'.m.data)
  {
    assert Full(s.m.data);
    var s1 := Next(s, Kill(1));
    assert Action(s1, 1).value.e == M.Release(1);
  }

  lemma Then(events: seq<Event>, s: State, e: Event) returns (events': seq<Event>, s': State)
    requires Run(2, events) == Some(s) && Enabled(s, e)
    ensures Run(2, events') == Some(s') && s' == Next(s, e) && events' == events + [e]
  {
    RunThen(2, events, s, e);
    return events + [e], Next(s, e);
  }

  lemma {:induction false} FilledUpTo(buf: seq<byte>, k: nat) returns (events: seq<Event>, s: State)
    requires k <= PIPESIZE < |buf|
    ensures Run(2, events) == Some(s) && Filled(s, buf, k)
  {
    if k == 0 {
      events, s := ReaderAsleep();
      var _, _, _ := WriterStarts(s, buf);
      events, s := Then(events, s, Elsewhere(1, M.RUNNING));
      events, s := Then(events, s, Write(1, buf));
      events, s := Then(events, s, Go(1));
    } else {
      events, s := FilledUpTo(buf, k - 1);
      FilledStep(s, buf, k - 1);
      events, s := Then(events, s, Go(1));
    }
  }

  /** With a kill the reader's half fails: a writer killed at a full ring returns without
      waking readers, and one may be left asleep, the lock free, with bytes to read. */
  lemma KilledWriterStrandsReader(buf: seq<byte>) returns (events: seq<Event>, s: State)
    requires PIPESIZE < |buf|
    ensures Run(2, events) == Some(s) && |s.m.procs| == 2
    ensures s.m.lk == None && M.Asleep(s.m.procs[0], Nread) && Full(s.m.data)
  {
    events, s := FilledUpTo(buf, PIPESIZE);
    KilledStep(s, buf);
    events, s := Then(events, s, Kill(1));
    events, s := Then(events, s, Go(1));
  }
}
