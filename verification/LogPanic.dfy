/** How large the log must be: when log_write's "too big a transaction" panic can
  strike a well-behaved caller, and when its unlocked test lets the log be outgrown. */
module LogPanic {
  import opened LogMachine
  import opened LogSafety

  /** A run from boot in which no system call has logged more than its budget. */
  ghost predicate Modest(L: Layout, s0: State, es: seq<Event>) {
    Init(L, s0) && Exec(L, s0, es).At? && !Exec(L, s0, es).state.greedy
  }

  /** No such run brings a system call that has budget left, and is about to log a
      block it has not logged before, to the panic in log_write. */
  ghost predicate NewBlocksNeverPanic(L: Layout) {
    forall s0, es, i, b ::
      && Modest(L, s0, es)
      && Exec(L, s0, es).state.phase.Running?
      && 0 <= i < |Exec(L, s0, es).state.ops|
      && L.Home(b) && b !in Exec(L, s0, es).state.ops[i].logged
      && WithinBudget(Exec(L, s0, es).state.ops[i], b)
      ==> !LogFull(L, Exec(L, s0, es).state)
  }

  ghost predicate NeverOverruns(L: Layout) {
    forall s0, es :: Modest(L, s0, es) ==> !Exec(L, s0, es).state.overrun
  }

  const NBUF: nat := 3 * MAXOPBLOCKS

  /** With `nbuf` buffers: a block that is logged has one, and every step of a commit finds
      one more for the block it reads. Without it bget panics and nothing more is written. */
  ghost predicate Buffered(L: Layout, nbuf: nat, s0: State, es: seq<Event>)
    requires L.Wf() && |s0.disk| == L.blocks
    decreases |es|
  {
    es != [] ==>
      var before := es[..|es| - 1];
      && Buffered(L, nbuf, s0, before)
      && (Exec(L, s0, before).At? ==> HasBuffer(nbuf, Exec(L, s0, before).state, es[|es| - 1]))
  }

  predicate HasBuffer(nbuf: nat, s: State, e: Event) {
    && (e.Step? ==> |s.cache| < nbuf)
    && (e.Append? ==> |s.cache.Keys + {e.block}| <= nbuf)
  }

  /** Crash atomicity of every run within budgets, on a machine with `nbuf` buffers. */
  ghost predicate AlwaysAtomic(L: Layout, nbuf: nat) {
    forall s0, es :: Modest(L, s0, es) && Buffered(L, nbuf, s0, es) ==> AtomicAt(L, s0, Exec(L, s0, es).state)
  }

  // ------------------------------------------------------------ filling the log

  /** The j-th block outside the log area. */
  function HomeAt(L: Layout, j: nat): (b: int)
    ensures j < L.blocks - L.size && L.Wf() ==> L.Home(b)
  {
    if j < L.start then j else j + L.size
  }

  function Filler(v: int): Block {
    seq(WORDS, _ => v)
  }

  function Blank(L: Layout): (s: State)
    requires L.Wf()
    ensures Init(L, s)
  {
    State(seq(L.blocks, _ => Filler(0)), map[], [], [], Crashed, [], [], [], false, false)
  }

  /** Some run from a blank disk, with `nbuf` buffers, reaches `s`. */
  ghost predicate Reached(L: Layout, nbuf: nat, s: State)
    requires L.Wf()
  {
    exists es :: Run(L, nbuf, es, s)
  }

  /** The quantifier keeps the run folded in proofs that only need to know it exists. */
  ghost predicate Run(L: Layout, nbuf: nat, es: seq<Event>, s: State)
    requires L.Wf()
  {
    forall fs {:trigger Buffered(L, nbuf, Blank(L), fs)} :: fs == es ==>
      Exec(L, Blank(L), fs) == At(s) && Buffered(L, nbuf, Blank(L), fs)
  }

  lemma Unfold(L: Layout, nbuf: nat, s: State) returns (es: seq<Event>)
    requires L.Wf() && Reached(L, nbuf, s)
    ensures Exec(L, Blank(L), es) == At(s) && Buffered(L, nbuf, Blank(L), es)
  {
    es :| Run(L, nbuf, es, s);
    assert Buffered(L, nbuf, Blank(L), es);
  }

  lemma Fold(L: Layout, nbuf: nat, es: seq<Event>, s: State)
    requires L.Wf() && Exec(L, Blank(L), es) == At(s) && Buffered(L, nbuf, Blank(L), es)
    ensures Reached(L, nbuf, s)
  {
    assert Run(L, nbuf, es, s);
  }

  lemma Go(L: Layout, nbuf: nat, s: State, e: Event) returns (s': State)
    requires L.Wf() && Reached(L, nbuf, s) && |s.disk| == L.blocks && Enabled(L, s, e)
    requires HasBuffer(nbuf, s, e)
    ensures s' == Next(L, s, e) && Reached(L, nbuf, s')
  {
    var es := Unfold(L, nbuf, s);
    ExecSnoc(L, Blank(L), es, e);
    assert (es + [e])[..|es|] == es;
    s' := Next(L, s, e);
    Fold(L, nbuf, es + [e], s');
  }

  function Share(k: nat, o: nat): nat
    requires o < 3
  {
    (k + 2 - o) / 3
  }

  /** `k` blocks are logged and pinned, none is committed. */
  ghost predicate Logged(L: Layout, s: State, k: nat) {
    && |s.disk| == L.blocks && |s.lh| == k && s.done == [] && !s.greedy
    && (forall j :: 0 <= j < k ==> s.lh[j] == HomeAt(L, j))
    && s.cache.Keys == Blocks(s.lh) && (forall b :: b in s.lh ==> b in s.cache && s.cache[b] == Filler(1))
    && (L.start < |s.disk| ==> Header(s.disk[L.start]) == [])
  }

  ghost predicate Filled(L: Layout, s: State, k: nat) {
    && s.phase.Running? && |s.ops| == 3 && Logged(L, s, k)
    && (forall o :: 0 <= o < 3 ==> |s.ops[o].logged| == Share(k, o) && !s.ops[o].passed)
    && (forall o :: 0 <= o < 3 ==> forall b :: b in s.ops[o].logged ==> b in s.lh)
    && (k > 0 ==> HomeAt(L, 0) in s.ops[0].logged)
  }

  lemma Booted(L: Layout, nbuf: nat) returns (s: State)
    requires L.Wf() && nbuf > 0
    ensures Reached(L, nbuf, s) && s.phase.Running? && s.ops == [] && Logged(L, s, 0)
  {
    s := Blank(L);
    assert Exec(L, s, []) == At(s) && Buffered(L, nbuf, s, []);
    Fold(L, nbuf, [], s);
    s := Go(L, nbuf, s, Step);
    s := Go(L, nbuf, s, Step);
  }

  /** The kernel boots and three system calls begin. */
  lemma ThreeBegin(L: Layout, nbuf: nat) returns (s: State)
    requires L.Wf() && nbuf > 0
    ensures Reached(L, nbuf, s) && Filled(L, s, 0)
  {
    s := Booted(L, nbuf);
    s := Go(L, nbuf, s, Begin);
    s := Go(L, nbuf, s, Begin);
    s := Go(L, nbuf, s, Begin);
  }

  lemma {:induction false} BlocksSize(lh: seq<int>)
    ensures |Blocks(lh)| <= |lh|
    ensures Distinct(lh) ==> |Blocks(lh)| == |lh|
  {
    if lh != [] {
      var rest := lh[..|lh| - 1];
      BlocksSize(rest);
      assert Blocks(lh) == Blocks(rest) + {lh[|lh| - 1]};
      AddedSize(Blocks(rest), lh[|lh| - 1]);
    }
  }

  /** HomeAt names no block twice. */
  lemma NewHome(L: Layout, s: State, k: nat)
    requires Logged(L, s, k)
    ensures HomeAt(L, k) !in s.lh
  {
  }

  ghost predicate Roomy(s: State, o: nat)
    requires o < |s.ops|
  {
    |s.ops[o].logged| < MAXOPBLOCKS && forall b :: b in s.ops[o].logged ==> b in s.lh
  }

  /** Operation `o`, past the test, appends the next block. */
  lemma AppendOne(L: Layout, nbuf: nat, s: State, k: nat, o: nat) returns (t: State)
    requires L.Wf() && k < LOGSIZE <= L.blocks - L.size && Logged(L, s, k) && Reached(L, nbuf, s) && k < nbuf
    requires s.phase.Running? && o < |s.ops| && s.ops[o].passed && Roomy(s, o)
    ensures Reached(L, nbuf, t) && Logged(L, t, k + 1) && t.phase.Running? && t.lh == s.lh + [HomeAt(L, k)]
    ensures t.ops == s.ops[o := Op(s.ops[o].id, s.ops[o].logged + {HomeAt(L, k)}, false)]
    ensures |t.ops[o].logged| == |s.ops[o].logged| + 1
    ensures k + 1 >= L.size ==> t.overrun
  {
    AddedSize(s.ops[o].logged, HomeAt(L, k));
    BlocksSize(s.lh);
    AddedSize(s.cache.Keys, HomeAt(L, k));
    AppendLogs(L, s, k, o);
    t := Go(L, nbuf, s, Append(o, HomeAt(L, k), Filler(1)));
  }

  lemma AppendLogs(L: Layout, s: State, k: nat, o: nat)
    requires L.Wf() && k < LOGSIZE <= L.blocks - L.size && Logged(L, s, k)
    requires s.phase.Running? && o < |s.ops| && s.ops[o].passed && |s.ops[o].logged| < MAXOPBLOCKS
    ensures var e := Append(o, HomeAt(L, k), Filler(1));
            && Enabled(L, s, e) && Logged(L, Next(L, s, e), k + 1) && Next(L, s, e).lh == s.lh + [HomeAt(L, k)]
            && Next(L, s, e).ops == s.ops[o := Op(s.ops[o].id, s.ops[o].logged + {HomeAt(L, k)}, false)]
            && Next(L, s, e).phase.Running? && (k + 1 >= L.size ==> Next(L, s, e).overrun)
  {
    NewHome(L, s, k);
    AddedSize(s.ops[o].logged, HomeAt(L, k));
    LoggedNext(L, s, Next(L, s, Append(o, HomeAt(L, k), Filler(1))), k);
  }

  lemma LoggedNext(L: Layout, s: State, t: State, k: nat)
    requires Logged(L, s, k) && t.disk == s.disk && t.lh == s.lh + [HomeAt(L, k)] && t.done == [] && !t.greedy
    requires t.cache == s.cache[HomeAt(L, k) := Filler(1)]
    ensures Logged(L, t, k + 1)
  {
    var b := HomeAt(L, k);
    assert Blocks(t.lh) == Blocks(s.lh) + {b};
    assert t.cache.Keys == s.cache.Keys + {b};
  }

  /** Operation `o` passes the test. */
  lemma PassOne(L: Layout, nbuf: nat, s: State, k: nat, o: nat) returns (t: State)
    requires L.Wf() && Logged(L, s, k) && Reached(L, nbuf, s) && s.phase.Running?
    requires o < |s.ops| && !s.ops[o].passed && k < LOGSIZE && k + 1 < L.size
    ensures Reached(L, nbuf, t) && Logged(L, t, k) && t.phase.Running? && t.lh == s.lh
    ensures t.ops == s.ops[o := s.ops[o].(passed := true)]
  {
    t := Go(L, nbuf, s, Test(o));
  }

  lemma InTurn(k: nat, o: nat)
    requires k < LOGSIZE && o < 3
    ensures Share(k + 1, o) == if o == k % 3 then Share(k, o) + 1 else Share(k, o)
    ensures Share(k, k % 3) < MAXOPBLOCKS
  {
  }

  /** The three system calls log `k` distinct blocks in turn. */
  lemma {:induction false} FillingRuns(L: Layout, nbuf: nat, k: nat) returns (s: State)
    requires L.Wf() && k < L.size && k <= LOGSIZE <= L.blocks - L.size && nbuf > 0 && k <= nbuf
    ensures Reached(L, nbuf, s) && Filled(L, s, k)
  {
    if k == 0 {
      s := ThreeBegin(L, nbuf);
    } else {
      var before := FillingRuns(L, nbuf, k - 1);
      s := FillOne(L, nbuf, before, k - 1);
    }
  }

  lemma FillOne(L: Layout, nbuf: nat, s: State, k: nat) returns (t: State)
    requires L.Wf() && k < LOGSIZE <= L.blocks - L.size && k + 1 < L.size && Filled(L, s, k) && Reached(L, nbuf, s)
    requires k < nbuf
    ensures Reached(L, nbuf, t) && Filled(L, t, k + 1)
  {
    var o := k % 3;
    InTurn(k, o);
    var p := PassOne(L, nbuf, s, k, o);
    t := AppendOne(L, nbuf, p, k, o);
    forall i | 0 <= i < 3
      ensures |t.ops[i].logged| == Share(k + 1, i) && !t.ops[i].passed
      ensures forall b :: b in t.ops[i].logged ==> b in t.lh
    {
      InTurn(k, i);
      assert i != o ==> t.ops[i] == s.ops[i];
      assert s.lh <= t.lh && HomeAt(L, k) in t.lh;
    }
  }

  // ------------------------------------------------------------------- panics

  /** With a log of LOGSIZE blocks, as mkfs lays it out, the last of thirty
      budgeted writes panics. */
  lemma SmallLogPanics(L: Layout)
    requires L.Wf() && L.size <= LOGSIZE <= L.blocks - L.size
    ensures !NewBlocksNeverPanic(L)
  {
    var k := L.size - 1;
    var s := FillingRuns(L, NBUF, k);
    var b := HomeAt(L, k);
    NewHome(L, s, k);
    AddedSize(s.ops[2].logged, b);
    var es := Unfold(L, NBUF, s);
    assert b !in s.ops[2].logged && WithinBudget(s.ops[2], b) && LogFull(L, s);
  }

  lemma LargeLogSafe(L: Layout)
    requires L.Wf() && L.size >= LOGSIZE + 1
    ensures NewBlocksNeverPanic(L)
  {
    forall s0, es, i, b |
      && Modest(L, s0, es)
      && Exec(L, s0, es).state.phase.Running?
      && 0 <= i < |Exec(L, s0, es).state.ops|
      && L.Home(b) && b !in Exec(L, s0, es).state.ops[i].logged
      && WithinBudget(Exec(L, s0, es).state.ops[i], b)
      ensures !LogFull(L, Exec(L, s0, es).state)
    {
      RunReserves(L, s0, es);
      RoomForNew(Exec(L, s0, es).state, i, b);
    }
  }

  /** A caller within budget that logs a new block is safe from the panic exactly
      when the log has more than LOGSIZE blocks. */
  lemma PanicExactly(L: Layout)
    requires L.Wf() && LOGSIZE <= L.blocks - L.size
    ensures NewBlocksNeverPanic(L) <==> L.size >= LOGSIZE + 1
  {
    if L.size >= LOGSIZE + 1 {
      LargeLogSafe(L);
    } else {
      SmallLogPanics(L);
    }
  }

  /** Relogging a block costs no budget, yet log_write tests for room before it
      looks for the block: whatever the size of a log that takes blocks at all, a
      run reaches a full log in which relogging panics. */
  lemma RelogPanics(L: Layout)
    requires L.Wf() && L.size >= 2 && LOGSIZE <= L.blocks - L.size
    ensures exists s, i, b :: Reached(L, NBUF, s) && 0 <= i < |s.ops| && !s.ops[i].passed
              && b in s.ops[i].logged && WithinBudget(s.ops[i], b) && LogFull(L, s)
  {
    var k := if L.size - 1 < LOGSIZE then L.size - 1 else LOGSIZE;
    var s := FillingRuns(L, NBUF, k);
    var b := HomeAt(L, 0);
    AddedSize(s.ops[0].logged, b);
    assert LogFull(L, s) && WithinBudget(s.ops[0], b);
  }

  // ----------------------------------------------------------------- overruns

  ghost predicate Outgrown(L: Layout, s: State) {
    && s.phase.Running? && |s.ops| == 3 && Logged(L, s, L.size) && s.overrun
    && forall o :: 0 <= o < 3 ==> !s.ops[o].passed
  }

  /** Room for one block is left, and two system calls both pass the test. */
  lemma BothPass(L: Layout, nbuf: nat) returns (s: State)
    requires L.size <= nbuf && L.Wf() && 2 <= L.size <= LOGSIZE <= L.blocks - L.size
    ensures Reached(L, nbuf, s) && Logged(L, s, L.size - 2) && s.phase.Running? && |s.ops| == 3
    ensures s.ops[1].passed && s.ops[2].passed && !s.ops[0].passed && Roomy(s, 1) && Roomy(s, 2)
  {
    s := FillingRuns(L, nbuf, L.size - 2);
    s := PassOne(L, nbuf, s, L.size - 2, 1);
    s := PassOne(L, nbuf, s, L.size - 2, 2);
  }

  /** Then both append. */
  lemma OverrunningRuns(L: Layout, nbuf: nat) returns (s: State)
    requires L.size <= nbuf && L.Wf() && 2 <= L.size <= LOGSIZE <= L.blocks - L.size
    ensures Reached(L, nbuf, s) && Outgrown(L, s)
  {
    var k := L.size - 2;
    var both := BothPass(L, nbuf);
    var one := AppendOne(L, nbuf, both, k, 1);
    assert one.ops[2] == both.ops[2] && one.ops[0] == both.ops[0];
    assert Roomy(one, 2);
    s := AppendOne(L, nbuf, one, k + 1, 2);
    assert s.ops[1] == one.ops[1] && s.ops[0] == one.ops[0];
  }

  /** The log list can outgrow the log exactly when the log has data blocks and no
      more blocks than LOGSIZE. */
  lemma OverrunExactly(L: Layout)
    requires L.Wf() && LOGSIZE <= L.blocks - L.size
    ensures NeverOverruns(L) <==> SafeSize(L)
  {
    if SafeSize(L) {
      forall s0, es | Modest(L, s0, es) ensures !Exec(L, s0, es).state.overrun {
        RunReserves(L, s0, es);
      }
    } else {
      var s := OverrunningRuns(L, NBUF);
      var es := Unfold(L, NBUF, s);
      assert Exec(L, Blank(L), es).state.overrun;
    }
  }

  ghost predicate Copied(L: Layout, s: State, t: nat) {
    && Logged(L, s, L.size) && s.phase == AfterCopy(t, L.size, WritingLog(t), WritingHead)
    && (0 < t && L.start + t < |s.disk| ==> s.disk[L.start + t] == Filler(1))
  }

  lemma CopyNext(L: Layout, s: State, t: nat)
    requires L.Wf() && t < L.size <= LOGSIZE <= L.blocks - L.size && L.start + L.size < L.blocks
    requires Copied(L, s, t)
    ensures Enabled(L, s, Step) && Copied(L, Next(L, s, Step), t + 1)
  {
    assert s.lh[t] == HomeAt(L, t) && s.lh[t] in s.lh;
  }

  /** The outgrown log is committed: the calls end and `t` buffers are copied. */
  lemma {:induction false} CopyingRuns(L: Layout, nbuf: nat, t: nat) returns (s: State)
    requires L.size < nbuf && L.Wf() && 2 <= L.size <= LOGSIZE <= L.blocks - L.size && L.start + L.size < L.blocks
             && t <= L.size
    ensures Reached(L, nbuf, s) && Copied(L, s, t)
  {
    if t == 0 {
      s := OverrunningRuns(L, nbuf);
      s := Go(L, nbuf, s, End(0));
      s := Go(L, nbuf, s, End(0));
      s := Go(L, nbuf, s, End(0));
    } else {
      s := CopyingRuns(L, nbuf, t - 1);
      CopyNext(L, s, t - 1);
      BlocksSize(s.lh);
      s := Go(L, nbuf, s, Step);
    }
  }

  lemma RecoverEmpty(L: Layout, d: Disk, b: nat)
    requires L.start < |d| && Header(d[L.start]) == [] && b < |d| && b != L.start
    ensures Recover(L, d)[b] == d[b]
  {
  }

  lemma Corrupted(L: Layout, s0: State, s: State, b: nat)
    requires L.Wf() && |s0.disk| == |s.disk| == L.blocks && L.Home(b) && s.done == []
    requires Header(s0.disk[L.start]) == [] && Header(s.disk[L.start]) == [] && s.disk[b] != s0.disk[b]
    ensures !AtomicAt(L, s0, s)
  {
    RecoverEmpty(L, s.disk, b);
    RecoverEmpty(L, s0.disk, b);
    assert Perform(Recover(L, s0.disk), s.done) == Recover(L, s0.disk);
  }

  /** The last copy lands on the block after the log, a home block nobody wrote and
      nobody committed. */
  lemma SmallLogCorrupts(L: Layout, nbuf: nat)
    requires L.Wf() && 2 <= L.size <= LOGSIZE <= L.blocks - L.size && L.start + L.size < L.blocks && L.size < nbuf
    ensures !AlwaysAtomic(L, nbuf)
  {
    var s := CopyingRuns(L, nbuf, L.size);
    assert s.disk[L.start + L.size][0] == 1 && Blank(L).disk[L.start + L.size][0] == 0;
    Corrupted(L, Blank(L), s, L.start + L.size);
    var es := Unfold(L, nbuf, s);
    assert Modest(L, Blank(L), es);
  }

  // ---------------------------------------- an overrun that no buffer is left for

  /** The log has been outgrown and not yet committed; as many blocks are pinned as the
      log has. */
  ghost predicate Limbo(L: Layout, s: State, d0: Disk) {
    && L.Wf() && |s.disk| == L.blocks && Recoverable(L, s.disk, Perform(d0, s.done)) && History(s)
    && (s.phase.Running? || (s.phase == WritingLog(0) && s.ops == []))
    && s.lh != [] && |s.cache| >= L.size
  }

  ghost function Forgiven(s: State): State {
    s.(overrun := false)
  }

  /** What a run with few buffers keeps, overruns included. */
  ghost predicate Sound(L: Layout, s: State, d0: Disk) {
    Inv(L, Forgiven(s), d0) || Limbo(L, s, d0)
  }

  lemma OverrunPins(L: Layout, s: State, d0: Disk, i: nat, b: int, data: Block)
    requires Inv(L, s, d0) && Enabled(L, s, Append(i, b, data)) && !Next(L, s, Append(i, b, data)).greedy
    requires Outgrows(L, Absorb(s.lh, b))
    ensures Limbo(L, Next(L, s, Append(i, b, data)), d0)
  {
    AppendKeepsReserved(L, s, i, b, data);
    AppendKeepsHistory(L, s, i, b, data);
    BlocksSize(s.lh);
    AddedSize(s.cache.Keys, b);
    assert s.cache[b := data].Keys == s.cache.Keys + {b};
  }

  lemma LimboEnds(L: Layout, s: State, d0: Disk)
    requires Limbo(L, s, d0)
    ensures Inv(L, Forgiven(Next(L, s, Crash)), d0)
  {
    var s' := Forgiven(Next(L, s, Crash));
    HistoryFrame(s, s');
    assert s.done + [] == s.done;
  }

  lemma LimboKeeps(L: Layout, nbuf: nat, s: State, d0: Disk, e: Event)
    requires Limbo(L, s, d0) && Enabled(L, s, e) && HasBuffer(nbuf, s, e) && nbuf <= L.size && !e.Crash?
    ensures Limbo(L, Next(L, s, e), d0)
  {
    match e
    case Begin =>
      BeginKeepsHistory(L, s);
    case Test(i) =>
      TestKeepsHistory(L, s, i);
    case Append(i, b, data) =>
      AppendKeepsHistory(L, s, i, b, data);
      AddedSize(s.cache.Keys, b);
      assert s.cache[b := data].Keys == s.cache.Keys + {b};
    case End(i) =>
      EndKeepsHistory(L, s, i);
    case Step =>
  }

  lemma ForgivenNext(L: Layout, s: State, e: Event)
    requires L.Wf() && |s.disk| == L.blocks && Enabled(L, s, e)
    ensures Enabled(L, Forgiven(s), e)
    ensures Forgiven(Next(L, s, e)) == Forgiven(Next(L, Forgiven(s), e))
    ensures Next(L, s, e) == Next(L, Forgiven(s), e).(overrun := Next(L, s, e).overrun)
    ensures Next(L, Forgiven(s), e).overrun <==> e.Append? && Outgrows(L, Absorb(s.lh, e.block))
    ensures Next(L, Forgiven(s), e).greedy == Next(L, s, e).greedy
  {
  }

  lemma SoundKeeps(L: Layout, nbuf: nat, s: State, d0: Disk, e: Event)
    requires Sound(L, s, d0) && L.Wf() && |s.disk| == L.blocks && Enabled(L, s, e) && HasBuffer(nbuf, s, e)
    requires nbuf <= L.size && !Next(L, s, e).greedy
    ensures Sound(L, Next(L, s, e), d0)
  {
    if Inv(L, Forgiven(s), d0) {
      ForgivenNext(L, s, e);
      EventKeeps(L, Forgiven(s), d0, e);
      if Next(L, Forgiven(s), e).overrun {
        OverrunPins(L, Forgiven(s), d0, e.i, e.block, e.data);
        LimboOnly(L, Next(L, Forgiven(s), e), d0, Next(L, s, e).overrun);
      }
    } else if e.Crash? {
      LimboEnds(L, s, d0);
    } else {
      LimboKeeps(L, nbuf, s, d0, e);
    }
  }

  lemma LimboOnly(L: Layout, s: State, d0: Disk, overrun: bool)
    requires Limbo(L, s, d0)
    ensures Limbo(L, s.(overrun := overrun), d0)
  {
    HistoryFrame(s, s.(overrun := overrun));
  }

  lemma GreedyStays(L: Layout, s: State, e: Event)
    requires L.Wf() && |s.disk| == L.blocks && Enabled(L, s, e)
    ensures s.greedy ==> Next(L, s, e).greedy
  {
  }

  lemma {:induction false} FewBuffersSound(L: Layout, nbuf: nat, s0: State, es: seq<Event>)
    requires Modest(L, s0, es) && Buffered(L, nbuf, s0, es) && nbuf <= L.size
    ensures Sound(L, Exec(L, s0, es).state, Recover(L, s0.disk))
  {
    if es == [] {
      InitInv(L, s0);
      assert Forgiven(s0) == s0;
    } else {
      var before, e := es[..|es| - 1], es[|es| - 1];
      var s := Exec(L, s0, before).state;
      GreedyStays(L, s, e);
      FewBuffersSound(L, nbuf, s0, before);
      SoundKeeps(L, nbuf, s, Recover(L, s0.disk), e);
      assert Exec(L, s0, es).state == Next(L, s, e);
    }
  }

  lemma SoundAtomic(L: Layout, s0: State, s: State)
    requires Bootable(L, s0.disk) && |s.disk| == L.blocks && Sound(L, s, Recover(L, s0.disk))
    ensures AtomicAt(L, s0, s)
  {
    RecoverReaches(L, s.disk, Perform(Recover(L, s0.disk), s.done));
    forall op | 0 <= op < |s.issued| ensures OfOp(s.done, op) == [] || OfOp(s.done, op) == s.issued[op] {
      assert Atomic(Forgiven(s), op) || Atomic(s, op);
    }
  }

  /** Crash atomicity holds of every run within budgets exactly at the safe sizes, and
      where the overrun leaves the commit no buffer to start with. The log lies in front of
      other blocks. */
  lemma AtomicExactly(L: Layout, nbuf: nat)
    requires L.Wf() && LOGSIZE <= L.blocks - L.size && L.start + L.size < L.blocks
    ensures AlwaysAtomic(L, nbuf) <==> SafeSize(L) || nbuf <= L.size
  {
    if SafeSize(L) || nbuf <= L.size {
      forall s0, es | Modest(L, s0, es) && Buffered(L, nbuf, s0, es)
        ensures AtomicAt(L, s0, Exec(L, s0, es).state)
      {
        if SafeSize(L) {
          CrashAtomicity(L, s0, es);
        } else {
          FewBuffersSound(L, nbuf, s0, es);
          SoundAtomic(L, s0, Exec(L, s0, es).state);
        }
      }
    } else {
      SmallLogCorrupts(L, nbuf);
    }
  }

  /** With the kernel's NBUF buffers and a log of LOGSIZE blocks, as mkfs makes it, every run
      within budgets is crash atomic. */
  lemma MkfsAtomic(L: Layout)
    requires L.Wf() && L.size == LOGSIZE <= L.blocks - L.size && L.start + L.size < L.blocks
    ensures AlwaysAtomic(L, NBUF)
  {
    AtomicExactly(L, NBUF);
  }
}
