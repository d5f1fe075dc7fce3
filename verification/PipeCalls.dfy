/** What one call of pipewrite or piperead does, over every run: the events tell what was
  asked of the call, the growth of the streams tells what it moved.
 */
module PipeCalls {
  import opened Common
  import opened PipeRing
  import opened Pipe
  import M = Monitor

  /** What b has beyond a. */
  function More<T>(a: seq<T>, b: seq<T>): seq<T> {
    if |a| <= |b| then b[|a|..] else []
  }

  /** The buffer of p's last write call. */
  function Asked(events: seq<Event>, p: nat): seq<byte> {
    if events == [] then []
    else
      var e := events[|events| - 1];
      if e.Write? && e.p == p then e.buf else Asked(events[..|events| - 1], p)
  }

  /** The number of bytes p's last read call asked for. */
  function Wanted(events: seq<Event>, p: nat): nat {
    if events == [] then 0
    else
      var e := events[|events| - 1];
      if e.Read? && e.p == p then e.n else Wanted(events[..|events| - 1], p)
  }

  /** The bytes that p's last write call has added to what was written. */
  function Given(n: nat, events: seq<Event>, p: nat): seq<byte>
    requires Run(n, events).Some?
    decreases |events|
  {
    if events == [] then []
    else
      var before, e := events[..|events| - 1], events[|events| - 1];
      if e.Write? && e.p == p then []
      else if e == Go(p) then
        Given(n, before, p) + More(Run(n, before).value.written, Run(n, events).value.written)
      else Given(n, before, p)
  }

  /** The bytes that p's last read call has added to what was read. */
  function Taken(n: nat, events: seq<Event>, p: nat): seq<byte>
    requires Run(n, events).Some?
    decreases |events|
  {
    if events == [] then []
    else
      var before, e := events[..|events| - 1], events[|events| - 1];
      if e.Read? && e.p == p then []
      else if e == Go(p) then Taken(n, before, p) + More(Run(n, before).value.read, Run(n, events).value.read)
      else Taken(n, before, p)
  }

  // ----------------------------------------------------------------- pipewrite

  /** How far a write call is: all of `buf` when it is past its loop. */
  predicate WriteOk(pc: Pc, buf: seq<byte>, given: seq<byte>) {
    match pc
    case Writing(b, i) => b == buf && i <= |buf| && given == buf[..i]
    case Napping(b, i) => b == buf && i <= |buf| && given == buf[..i]
    case Wrote => given == buf
    case _ => given <= buf
  }

  lemma WriteStep(s: State, p: nat, buf: seq<byte>, given: seq<byte>)
    requires Enabled(s, Go(p)) && WriteOk(s.pcs[p], buf, given)
    ensures WriteOk(Next(s, Go(p)).pcs[p], buf, given + More(s.written, Next(s, Go(p)).written))
  {
    WriteEffect(s, p);
    var a := Action(s, p).value;
    assert given + [] == given;
    if s.m.procs[p].phase.Inside? && a.put != [] {
      assert buf[..s.pcs[p].i + 1] == buf[..s.pcs[p].i] + [buf[s.pcs[p].i]];
    }
  }

  lemma WriteEffect(s: State, p: nat)
    requires Enabled(s, Go(p))
    ensures var a, s' := Action(s, p).value, Next(s, Go(p));
            && s'.pcs[p] == a.pc && More(s.written, s'.written) == a.put
            && (!s.m.procs[p].phase.Inside? ==> a.put == [] && a.pc == s.pcs[p])
  {
  }

  /** In every run, kills and other calls in between included: what process p's write call
      has put into the pipe are the first bytes of its buffer, as many as its index says,
      and all of them once it is past its loop. */
  lemma {:induction false} WriteCall(n: nat, events: seq<Event>, s: State, p: nat)
    requires Run(n, events) == Some(s) && p < |s.pcs|
    ensures WriteOk(s.pcs[p], Asked(events, p), Given(n, events, p))
    decreases |events|
  {
    if events != [] {
      var before, e := events[..|events| - 1], events[|events| - 1];
      var s0 := Run(n, before).value;
      assert s == Next(s0, e);
      WriteCall(n, before, s0, p);
      if e == Go(p) {
        WriteStep(s0, p, Asked(before, p), Given(n, before, p));
      }
    }
  }

  /** How pipewrite returns: all bytes written, or some left because the ring is full and
      the read end closed or the process killed. */
  lemma WriteReturns(n: nat, events: seq<Event>, s: State, p: nat)
    requires Run(n, events) == Some(s) && Enabled(s, Go(p)) && Writer(s.pcs[p]) && Next(s, Go(p)).pcs[p] == Idle
    ensures Given(n, events + [Go(p)], p) == Given(n, events, p)
    ensures if s.pcs[p].Wrote? then Given(n, events, p) == Asked(events, p)
            else && Given(n, events, p) < Asked(events, p)
                 && Full(s.m.data) && (!s.m.data.readopen || s.killed[p])
  {
    WriteCall(n, events, s, p);
    RunThen(n, events, s, Go(p));
    assert (events + [Go(p)])[..|events|] == events;
    assert Next(s, Go(p)).written == s.written + [];
  }

  // ------------------------------------------------------------------ piperead

  function Tail<T>(s: seq<T>, k: nat): seq<T>
    requires k <= |s|
  {
    s[|s| - k..]
  }

  /** How far a read call is. While it copies it holds the lock, so that its bytes are the
      last ones read; it stops short of n only at an empty ring, and with no byte at all
      only if no more can come. */
  predicate ReadOk(d: Data, read: seq<byte>, pc: Pc, n: nat, taken: seq<byte>) {
    && |taken| <= n
    && match pc
       case Reading(k) => k == n && taken == []
       case Copying(k, i) => k == n && |taken| == i <= |read| && 0 < i && taken == Tail(read, i)
       case Drained =>
         && |taken| <= |read| && taken == Tail(read, |taken|)
         && (|taken| < n ==> Empty(d)) && (taken == [] && 0 < n ==> !d.writeopen)
       case _ => true
  }

  lemma TailGrows(read: seq<byte>, taken: seq<byte>, x: byte)
    requires |taken| <= |read| && taken == Tail(read, |taken|)
    ensures taken + [x] == Tail(read + [x], |taken| + 1)
  {
  }

  lemma CopyOk(d: Data, read: seq<byte>, p: nat, n: nat, taken: seq<byte>)
    requires |d.data| == PIPESIZE && |taken| <= n && |taken| <= |read| && taken == Tail(read, |taken|)
    requires taken == [] && Empty(d) ==> !d.writeopen
    ensures var a := CopyAction(d, p, n, |taken|).value;
            ReadOk(if a.e.Update? then a.e.d else d, read + a.got, a.pc, n, taken + a.got)
  {
    var a := CopyAction(d, p, n, |taken|).value;
    if a.got == [] {
      assert read + a.got == read && taken + a.got == taken;
    } else {
      TailGrows(read, taken, a.got[0]);
    }
  }

  lemma InsideOk(d: Data, read: seq<byte>, pc: Pc, p: nat, killed: bool, n: nat, taken: seq<byte>)
    requires |d.data| == PIPESIZE && ReadOk(d, read, pc, n, taken) && InsideAction(d, pc, p, killed).Some?
    ensures var a := InsideAction(d, pc, p, killed).value;
            ReadOk(if a.e.Update? then a.e.d else d, read + a.got, a.pc, n, taken + a.got)
  {
    var a := InsideAction(d, pc, p, killed).value;
    if pc.Copying? || (pc.Reading? && !(Empty(d) && d.writeopen)) {
      CopyOk(d, read, p, n, taken);
    } else {
      assert read + a.got == read && taken + a.got == taken;
    }
  }

  lemma GoEffect(s: State, p: nat)
    requires Enabled(s, Go(p))
    ensures var a, s' := Action(s, p).value, Next(s, Go(p));
            && s'.m.data == (if a.e.Update? then a.e.d else s.m.data) && s'.pcs[p] == a.pc
            && s'.read == s.read + a.got && More(s.read, s'.read) == a.got
            && (!s.m.procs[p].phase.Inside? ==> a.got == [] && a.pc == s.pcs[p] && !a.e.Update?)
  {
  }

  lemma ReadStep(s: State, p: nat, n: nat, taken: seq<byte>)
    requires Enabled(s, Go(p)) && ReadOk(s.m.data, s.read, s.pcs[p], n, taken)
    ensures var s' := Next(s, Go(p));
            ReadOk(s'.m.data, s'.read, s'.pcs[p], n, taken + More(s.read, s'.read))
  {
    GoEffect(s, p);
    if s.m.procs[p].phase.Inside? {
      InsideOk(s.m.data, s.read, s.pcs[p], p, s.killed[p], n, taken);
    } else {
      assert taken + [] == taken;
    }
  }

  /** While p copies, no other process moves a byte or closes an end. */
  lemma ReadKept(s: State, q: nat, p: nat, n: nat, taken: seq<byte>)
    requires Inv(s, {Nwrite}) && Enabled(s, Go(q)) && q != p && p < |s.pcs|
             && ReadOk(s.m.data, s.read, s.pcs[p], n, taken)
    ensures ReadOk(Next(s, Go(q)).m.data, Next(s, Go(q)).read, s.pcs[p], n, taken)
  {
    assert ProcOk(s, p) && ProcOk(s, q);
    assert M.LockOk(s.m, p) && M.LockOk(s.m, q);
    if s.pcs[p].Copying? || s.pcs[p].Drained? {
      assert Next(s, Go(q)).read == s.read && Next(s, Go(q)).m.data == s.m.data;
    }
  }

  lemma NoMove(s: State, e: Event)
    requires Enabled(s, e) && !e.Go?
    ensures Next(s, e).m.data == s.m.data && Next(s, e).read == s.read
  {
  }

  /** In every run: the bytes handed to process p's read call are consecutive bytes of the
      stream, the next ones at the time; there are as many as its index says, never more
      than asked for, and fewer only for want of bytes. */
  lemma {:induction false} ReadCall(n: nat, events: seq<Event>, s: State, p: nat)
    requires Run(n, events) == Some(s) && p < |s.pcs|
    ensures ReadOk(s.m.data, s.read, s.pcs[p], Wanted(events, p), Taken(n, events, p))
    decreases |events|
  {
    if events != [] {
      var before, e := events[..|events| - 1], events[|events| - 1];
      var s0 := Run(n, before).value;
      assert s == Next(s0, e);
      ReadCall(n, before, s0, p);
      RunKeeps(n, before, {Nwrite});
      if e == Go(p) {
        ReadStep(s0, p, Wanted(before, p), Taken(n, before, p));
      } else if e.Go? {
        ReadKept(s0, e.p, p, Wanted(before, p), Taken(n, before, p));
      } else {
        NoMove(s0, e);
      }
    }
  }

  lemma ReturnStep(s: State, p: nat)
    requires Enabled(s, Go(p)) && Reader(s.pcs[p]) && Next(s, Go(p)).pcs[p] == Idle
    ensures Action(s, p).value.got == [] && !s.pcs[p].Copying?
    ensures s.pcs[p].Reading? ==> s.killed[p] && Empty(s.m.data) && s.m.data.writeopen
  {
  }

  lemma TakenStays(n: nat, events: seq<Event>, s: State, p: nat)
    requires Run(n, events) == Some(s) && Enabled(s, Go(p)) && Action(s, p).value.got == []
    ensures Run(n, events + [Go(p)]).Some? && Taken(n, events + [Go(p)], p) == Taken(n, events, p)
  {
    RunThen(n, events, s, Go(p));
    assert (events + [Go(p)])[..|events|] == events;
    GoEffect(s, p);
  }

  lemma DrainedBytes(d: Data, written: seq<byte>, read: seq<byte>, n: nat, taken: seq<byte>)
    requires |d.data| == PIPESIZE && Fifo(d, written, read) && ReadOk(d, read, Drained, n, taken)
    ensures |taken| <= |read| <= |written| && taken == written[|read| - |taken|..|read|]
    ensures |taken| < n ==> |read| == |written|
  {
    CountersTell(d, written, read);
    assert Tail(read, |taken|) == written[|read| - |taken|..|read|];
  }

  /** How piperead returns: killed at an empty ring with no byte; else with the next bytes
      of what was written, as many as asked for or until the ring is empty, and with none
      of some asked for only at the end of the stream. */
  lemma ReadReturns(n: nat, events: seq<Event>, s: State, p: nat)
    requires Run(n, events) == Some(s) && Enabled(s, Go(p)) && Reader(s.pcs[p]) && Next(s, Go(p)).pcs[p] == Idle
    ensures Run(n, events + [Go(p)]).Some? && Taken(n, events + [Go(p)], p) == Taken(n, events, p)
    ensures var taken, want := Taken(n, events, p), Wanted(events, p);
            if s.pcs[p].Reading? then taken == [] && s.killed[p] && Empty(s.m.data) && s.m.data.writeopen
            else
              && |taken| <= want && |taken| <= |s.read| <= |s.written|
              && taken == s.written[|s.read| - |taken|..|s.read|]
              && (|taken| < want ==> |s.read| == |s.written|)
              && (taken == [] && 0 < want ==> !s.m.data.writeopen)
  {
    ReadCall(n, events, s, p);
    ReturnStep(s, p);
    TakenStays(n, events, s, p);
    if s.pcs[p].Drained? {
      FirstInFirstOut(n, events);
      DrainedBytes(s.m.data, s.written, s.read, Wanted(events, p), Taken(n, events, p));
    }
  }

  // ----------------------------------------------------------------- pipeclose

  /** Somebody has closed that end. */
  predicate HasClosed(events: seq<Event>, writable: bool) {
    exists k :: 0 <= k < |events| && events[k].Close? && events[k].writable == writable
  }

  /** Nobody is between closing that file and clearing the pipe's flag. */
  predicate Settled(s: State, writable: bool) {
    forall p :: 0 <= p < |s.pcs| ==> s.pcs[p] != Closing(writable)
  }

  predicate EndOk(s: State, writable: bool, closed: bool) {
    var fd, open := if writable then s.wfd else s.rfd, if writable then s.m.data.writeopen else s.m.data.readopen;
    && (fd <==> !closed) && (fd ==> open && Settled(s, writable)) && (!fd && Settled(s, writable) ==> !open)
  }

  lemma {:induction false} ClosedSnoc(events: seq<Event>, writable: bool)
    requires events != []
    ensures var e := events[|events| - 1];
            HasClosed(events, writable) <==>
              HasClosed(events[..|events| - 1], writable) || (e.Close? && e.writable == writable)
  {
    var before := events[..|events| - 1];
    if HasClosed(events, writable) {
      var k :| 0 <= k < |events| && events[k].Close? && events[k].writable == writable;
      assert k < |before| ==> before[k] == events[k];
    }
    if k :| 0 <= k < |before| && before[k].Close? && before[k].writable == writable {
      assert events[k] == before[k];
    }
  }

  /** The one step that touches the flags. */
  lemma GoEnds(s: State, p: nat)
    requires Enabled(s, Go(p))
    ensures var s', pc := Next(s, Go(p)), s.pcs[p];
            && |s'.pcs| == |s.pcs| && s'.wfd == s.wfd && s'.rfd == s.rfd
            && if pc.Closing? && s.m.procs[p].phase.Inside? then
                 && s'.pcs[p] == Flagged(pc.writable)
                 && s'.m.data.writeopen == (s.m.data.writeopen && !pc.writable)
                 && s'.m.data.readopen == (s.m.data.readopen && pc.writable)
               else
                 && (s'.pcs[p] == pc || (!pc.Closing? && !s'.pcs[p].Closing?))
                 && s'.m.data.writeopen == s.m.data.writeopen && s'.m.data.readopen == s.m.data.readopen
  {
  }

  lemma EndGo(s: State, p: nat, w: bool, closed: bool)
    requires Enabled(s, Go(p)) && EndOk(s, w, closed)
    ensures EndOk(Next(s, Go(p)), w, closed)
  {
    var s' := Next(s, Go(p));
    GoEnds(s, p);
    assert forall q :: 0 <= q < |s.pcs| && q != p ==> s'.pcs[q] == s.pcs[q];
  }

  lemma EndStep(s: State, e: Event, w: bool, closed: bool)
    requires Enabled(s, e) && EndOk(s, w, closed)
    ensures EndOk(Next(s, e), w, closed || (e.Close? && e.writable == w))
  {
    if e.Go? {
      EndGo(s, e.p, w, closed);
    } else {
      NoMove(s, e);
      var s' := Next(s, e);
      assert forall p :: 0 <= p < |s.pcs| && p != e.p ==> s'.pcs[p] == s.pcs[p];
      if e.Close? {
        assert s'.pcs[e.p] == Closing(e.writable);
      }
    }
  }

  /** In every run: an end of the pipe is open as long as nobody has closed the file there,
      and closed once whoever did has got to clearing its flag; the other end is not
      touched. */
  lemma {:induction false} EndsAgree(n: nat, events: seq<Event>, s: State, w: bool)
    requires Run(n, events) == Some(s)
    ensures EndOk(s, w, HasClosed(events, w))
    decreases |events|
  {
    if events == [] {
      assert forall p :: 0 <= p < n ==> s.pcs[p] == Idle;
    } else {
      EndsAgree(n, events[..|events| - 1], Run(n, events[..|events| - 1]).value, w);
      ClosedSnoc(events, w);
      EndStep(Run(n, events[..|events| - 1]).value, events[|events| - 1], w, HasClosed(events[..|events| - 1], w));
    }
  }

  // ----------------------------------------------------------------- admission

  lemma RestedStep(s: State, e: Event)
    requires M.Rested(s.m) && Enabled(s, e)
    ensures M.Rested(Next(s, e).m)
  {
    match e
    case Go(p) => M.StepRested(Cond(), CHANS, s.m, Action(s, p).value.e);
    case Pick(p) => M.StepRested(Cond(), CHANS, s.m, M.Pick(p));
    case Kill(p) => M.StepRested(Cond(), CHANS, s.m, M.Kill(p));
    case Elsewhere(p, st) => M.StepRested(Cond(), CHANS, s.m, M.Elsewhere(p, st));
    case _ =>
  }

  lemma {:induction false} RunRested(n: nat, events: seq<Event>)
    requires Run(n, events).Some?
    ensures M.Rested(Run(n, events).value.m)
    decreases |events|
  {
    if events != [] {
      RunRested(n, events[..|events| - 1]);
      RestedStep(Run(n, events[..|events| - 1]).value, events[|events| - 1]);
    }
  }

  /** What the machine admits in every state it reaches: a call by any process that runs,
      is in none, is not killed and has the end open; and the next step of any call whose
      process runs and finds neither lock held by another. */
  lemma Admits(n: nat, events: seq<Event>, s: State, p: nat)
    requires Run(n, events) == Some(s) && p < |s.pcs| && |s.m.procs| == |s.pcs| == |s.killed|
    requires s.m.procs[p].st == M.RUNNING
    ensures s.pcs[p] == Idle && !s.killed[p] && s.wfd ==> forall buf :: Enabled(s, Write(p, buf))
    ensures s.pcs[p] == Idle && !s.killed[p] && s.rfd ==> forall k: nat :: Enabled(s, Read(p, k))
    ensures s.pcs[p] != Idle && s.m.lk in {None, Some(p)} && s.m.pt in {None, Some(p)} ==> Enabled(s, Go(p))
  {
    RunKeeps(n, events, {Nwrite});
    RunRested(n, events);
    assert ProcOk(s, p) && M.LockOk(s.m, p);
  }
}
