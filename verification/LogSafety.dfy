/** Every run of the log machine keeps its invariant, and what follows from it. */
module LogSafety {
  import opened LogMachine

  // ---------------------------------------------------- small arithmetic of budgets

  lemma {:induction false} UnspentUpdate(ops: seq<Op>, i: nat, op: Op)
    requires i < |ops|
    ensures Unspent(ops[i := op]) == Unspent(ops) + |ops[i].logged| - |op.logged|
  {
    if i == 0 {
      assert ops[0 := op][1..] == ops[1..];
    } else {
      assert ops[i := op][1..] == ops[1..][i - 1 := op];
      UnspentUpdate(ops[1..], i - 1, op);
    }
  }

  lemma {:induction false} UnspentRemove(ops: seq<Op>, i: nat)
    requires i < |ops|
    ensures Unspent(ops[..i] + ops[i + 1..]) == Unspent(ops) - MAXOPBLOCKS + |ops[i].logged|
  {
    if i == 0 {
      assert ops[..0] + ops[1..] == ops[1..];
    } else {
      var rest := ops[1..];
      assert (ops[..i] + ops[i + 1..])[1..] == rest[..i - 1] + rest[i..];
      UnspentRemove(rest, i - 1);
    }
  }

  lemma {:induction false} UnspentSnoc(ops: seq<Op>, op: Op)
    ensures Unspent(ops + [op]) == Unspent(ops) + MAXOPBLOCKS - |op.logged|
  {
    if ops == [] {
      assert ops + [op] == [op];
      assert [op][1..] == [];
    } else {
      assert (ops + [op])[1..] == ops[1..] + [op];
      UnspentSnoc(ops[1..], op);
    }
  }

  lemma {:induction false} UnspentAtLeast(ops: seq<Op>, i: nat)
    requires i < |ops|
    requires forall k :: 0 <= k < |ops| ==> |ops[k].logged| <= MAXOPBLOCKS
    ensures Unspent(ops) >= MAXOPBLOCKS - |ops[i].logged|
    ensures Unspent(ops) >= 0
  {
    if i == 0 {
      if |ops| > 1 {
        UnspentAtLeast(ops[1..], 0);
      }
    } else {
      UnspentAtLeast(ops[1..], i - 1);
    }
  }

  lemma {:induction false} UnspentAtMost(ops: seq<Op>)
    ensures Unspent(ops) <= |ops| * MAXOPBLOCKS
  {
    if ops != [] {
      UnspentAtMost(ops[1..]);
    }
  }

  lemma AddedSize(s: set<int>, b: int)
    ensures |s + {b}| == if b in s then |s| else |s| + 1
  {
    if b in s {
      assert s + {b} == s;
    }
  }

  // ------------------------------------------------------------ reservation

  lemma BeginKeepsReserved(L: Layout, s: State)
    requires Reserved(s) && L.Wf() && |s.disk| == L.blocks && Enabled(L, s, Begin)
    ensures Reserved(Next(L, s, Begin))
  {
    UnspentSnoc(s.ops, Op(|s.issued|, {}, false));
    UnspentAtMost(s.ops);
  }

  lemma TestKeepsReserved(L: Layout, s: State, i: nat)
    requires Reserved(s) && L.Wf() && |s.disk| == L.blocks && Enabled(L, s, Test(i))
    ensures Reserved(Next(L, s, Test(i)))
  {
    UnspentUpdate(s.ops, i, s.ops[i].(passed := true));
  }

  /** The reservation does not need log_write's own test. */
  lemma AppendKeepsReserved(L: Layout, s: State, i: nat, b: int, data: Block)
    requires Reserved(s) && L.Wf() && |s.disk| == L.blocks && Enabled(L, s, Append(i, b, data))
    ensures Reserved(Next(L, s, Append(i, b, data)))
    ensures !Next(L, s, Append(i, b, data)).greedy ==> |Absorb(s.lh, b)| <= LOGSIZE
  {
    var op, s' := s.ops[i], Next(L, s, Append(i, b, data));
    UnspentUpdate(s.ops, i, Op(op.id, op.logged + {b}, false));
    AddedSize(op.logged, b);
    if !s'.greedy {
      UnspentAtLeast(s'.ops, i);
    }
  }

  lemma EndKeepsReserved(L: Layout, s: State, i: nat)
    requires Reserved(s) && L.Wf() && |s.disk| == L.blocks && Enabled(L, s, End(i))
    ensures Reserved(Next(L, s, End(i)))
  {
    var ops := Next(L, s, End(i)).ops;
    UnspentRemove(s.ops, i);
    forall k | 0 <= k < |ops|
      ensures !s.greedy ==> |ops[k].logged| <= MAXOPBLOCKS
      ensures forall b :: b in ops[k].logged ==> b in s.lh
    {
      assert ops[k] == s.ops[if k < i then k else k + 1];
    }
  }

  lemma StepKeepsReserved(L: Layout, s: State, durable: Disk, newest: Disk)
    requires Reserved(s) && DiskInv(L, s, durable, newest) && Enabled(L, s, Step)
    ensures Reserved(Next(L, s, Step))
  {
  }

  // ---------------------------------------------------------------- history

  lemma {:induction false} OfOpNone(ws: seq<Write>, op: nat)
    requires forall w :: w in ws ==> w.op != op
    ensures OfOp(ws, op) == []
  {
    if ws != [] {
      OfOpNone(ws[..|ws| - 1], op);
    }
  }

  lemma {:induction false} SomeOfOp(ws: seq<Write>, op: nat)
    requires OfOp(ws, op) != []
    ensures exists w :: w in ws && w.op == op
  {
    if ws[|ws| - 1].op == op {
      assert ws[|ws| - 1] in ws;
    } else {
      SomeOfOp(ws[..|ws| - 1], op);
    }
  }

  lemma HistoryFrame(s: State, s': State)
    requires History(s) && s'.done == s.done && s'.issued == s.issued
    requires s'.pending == s.pending || s'.pending == []
    requires s'.ops == s.ops || s'.ops == []
    requires s'.pending == [] ==> s.pending == [] || s'.ops == []
    ensures History(s')
  {
    forall op | 0 <= op < |s'.issued| ensures Atomic(s', op) {
      assert Atomic(s, op);
    }
  }

  lemma BeginKeepsHistory(L: Layout, s: State)
    requires History(s) && L.Wf() && |s.disk| == L.blocks && Enabled(L, s, Begin)
    ensures History(Next(L, s, Begin))
  {
    var s' := Next(L, s, Begin);
    forall op | 0 <= op < |s'.issued| ensures Atomic(s', op) {
      if op == |s.issued| {
        OfOpNone(s.done, op);
      } else {
        assert Atomic(s, op);
      }
    }
    OfOpNone(s.pending, |s.issued|);
  }

  lemma TestKeepsHistory(L: Layout, s: State, i: nat)
    requires History(s) && L.Wf() && |s.disk| == L.blocks && Enabled(L, s, Test(i))
    ensures History(Next(L, s, Test(i)))
  {
    var s' := Next(L, s, Test(i));
    assert forall k :: 0 <= k < |s'.ops| ==> s'.ops[k].id == s.ops[k].id;
    forall op | 0 <= op < |s'.issued| ensures Atomic(s', op) {
      assert Atomic(s, op);
    }
  }

  lemma AppendKeepsHistory(L: Layout, s: State, i: nat, b: int, data: Block)
    requires History(s) && L.Wf() && |s.disk| == L.blocks && Enabled(L, s, Append(i, b, data))
    ensures History(Next(L, s, Append(i, b, data)))
  {
    var s' := Next(L, s, Append(i, b, data));
    var id := s.ops[i].id;
    var w := Write(id, b, data);
    forall op: nat ensures OfOp(s'.pending, op) == OfOp(s.pending, op) + if op == id then [w] else [] {
      assert s'.pending[..|s.pending|] == s.pending;
    }
    forall op | 0 <= op < |s'.issued| ensures Atomic(s', op) {
      assert Atomic(s, op);
      if OfOp(s.done, op) != [] {
        assert op != id;
        forall k | 0 <= k < |s'.ops| ensures s'.ops[k].id != op {
          assert s'.ops[k].id == s.ops[k].id;
        }
      }
    }
    forall k | 0 <= k < |s'.ops| ensures s'.ops[k].id < |s'.issued|
        && OfOp(s'.pending, s'.ops[k].id) == s'.issued[s'.ops[k].id] {
      assert s'.ops[k].id == s.ops[k].id;
    }
  }

  lemma EndKeepsHistory(L: Layout, s: State, i: nat)
    requires History(s) && L.Wf() && |s.disk| == L.blocks && Enabled(L, s, End(i))
    ensures History(Next(L, s, End(i)))
  {
    var s' := Next(L, s, End(i));
    assert forall k :: 0 <= k < |s'.ops| ==> s'.ops[k] == s.ops[if k < i then k else k + 1];
    forall op | 0 <= op < |s'.issued| ensures Atomic(s', op) {
      assert Atomic(s, op);
    }
  }

  lemma WriteHeadHistory(L: Layout, s: State)
    requires History(s) && L.Wf() && |s.disk| == L.blocks && s.phase.WritingHead? && Enabled(L, s, Step) && s.ops == []
    ensures History(Next(L, s, Step))
  {
    var s' := Next(L, s, Step);
    forall op | 0 <= op < |s'.issued| ensures Atomic(s', op) {
      assert Atomic(s, op);
      OfOpConcat(s.done, s.pending, op);
      if OfOp(s.pending, op) != [] {
        SomeOfOp(s.pending, op);
      }
    }
  }

  // --------------------------------------- what one block write does to a disk

  /** Installing entry `tail` brings one more home block to the target. */
  lemma InstallOne(L: Layout, d: Disk, lh: seq<int>, tail: nat, target: Disk)
    requires L.Wf() && |d| == L.blocks == |target| && LogList(L, lh) && tail < |lh|
    requires Header(d[L.start]) == lh && LogHolds(L, d, lh, |lh|, target) && HomeExcept(L, d, lh, tail, target)
    ensures var d' := d[lh[tail] := Slot(L, d, tail)];
            && d'[L.start] == d[L.start] && LogHolds(L, d', lh, |lh|, target)
            && HomeExcept(L, d', lh, tail + 1, target)
            && Recoverable(L, d', target)
  {
  }

  /** Copying one pinned buffer to its slot. */
  lemma CopyOne(L: Layout, s: State, newest: Disk, durable: Disk, tail: nat)
    requires Collecting(L, s.disk, s.cache, s.lh, newest) && LogList(L, s.lh) && tail < |s.lh|
    requires LogHolds(L, s.disk, s.lh, tail, newest) && Recoverable(L, s.disk, durable)
    ensures L.Home(s.lh[tail])
    ensures var d' := s.disk[L.start + tail + 1 := Read(s, s.lh[tail])];
            && Recoverable(L, d', durable)
            && Collecting(L, d', s.cache, s.lh, newest)
            && LogHolds(L, d', s.lh, tail + 1, newest)
  {
  }

  // ----------------------------------------------------------- disk invariant

  lemma AppendKeepsDisk(L: Layout, s: State, durable: Disk, newest: Disk, i: nat, b: int, data: Block)
    requires DiskInv(L, s, durable, newest) && LogList(L, Absorb(s.lh, b)) && Enabled(L, s, Append(i, b, data))
    ensures DiskInv(L, Next(L, s, Append(i, b, data)), durable, newest[b := data])
  {
  }

  lemma WriteLogKeeps(L: Layout, s: State, durable: Disk, newest: Disk)
    requires DiskInv(L, s, durable, newest) && s.phase.WritingLog? && Enabled(L, s, Step)
    ensures DiskInv(L, Next(L, s, Step), durable, newest)
  {
    CopyOne(L, s, newest, durable, s.phase.tail);
  }

  /** The commit point: one header write makes the whole group durable. */
  lemma WriteHeadKeeps(L: Layout, s: State, durable: Disk, newest: Disk)
    requires DiskInv(L, s, durable, newest) && s.phase.WritingHead? && Enabled(L, s, Step)
    ensures DiskInv(L, Next(L, s, Step), newest, newest)
  {
  }

  lemma RestOfLog(lh: seq<int>, tail: nat)
    requires Distinct(lh) && tail < |lh|
    ensures Blocks(lh[tail..]) - {lh[tail]} == Blocks(lh[tail + 1..])
    ensures lh[|lh|..] == []
  {
  }

  lemma InstallKeeps(L: Layout, s: State, durable: Disk)
    requires DiskInv(L, s, durable, durable) && s.phase.Installing? && Enabled(L, s, Step)
    ensures DiskInv(L, Next(L, s, Step), durable, durable)
  {
    var s' := Next(L, s, Step);
    InstallOne(L, s.disk, s.lh, s.phase.tail, durable);
    RestOfLog(s.lh, s.phase.tail);
    if s'.phase.ClearingHead? {
      assert s'.cache == map[];
    }
  }

  lemma ReinstallKeeps(L: Layout, s: State, durable: Disk)
    requires DiskInv(L, s, durable, durable) && s.phase.Reinstalling? && Enabled(L, s, Step)
    ensures DiskInv(L, Next(L, s, Step), durable, durable)
  {
    var tail := s.phase.tail;
    InstallOne(L, s.disk, s.lh, tail, durable);
    if tail + 1 == |s.lh| {
      assert s.lh[tail + 1..] == [];
    }
  }

  lemma ClearKeeps(L: Layout, s: State, durable: Disk)
    requires DiskInv(L, s, durable, durable) && (s.phase.ClearingHead? || s.phase.ReclearingHead?)
    ensures DiskInv(L, Next(L, s, Step), durable, durable)
  {
  }

  lemma RestartKeeps(L: Layout, s: State, durable: Disk)
    requires DiskInv(L, s, durable, durable) && s.phase.Crashed?
    ensures DiskInv(L, Next(L, s, Step), durable, durable)
  {
  }

  // -------------------------------------------------------------- one event

  lemma StepKeepsContents(L: Layout, s: State, d0: Disk)
    requires DiskInv(L, s, Perform(d0, s.done), Perform(d0, s.done + s.pending)) && Enabled(L, s, Step)
    ensures var s' := Next(L, s, Step); DiskInv(L, s', Perform(d0, s'.done), Perform(d0, s'.done + s'.pending))
  {
    var durable, newest := Perform(d0, s.done), Perform(d0, s.done + s.pending);
    assert s.done + s.pending + [] == s.done + s.pending;
    assert s.pending == [] ==> s.done + s.pending == s.done;
    match s.phase {
      case WritingHead => WriteHeadKeeps(L, s, durable, newest);
      case WritingLog(_) => WriteLogKeeps(L, s, durable, newest);
      case Installing(_) => InstallKeeps(L, s, durable);
      case Reinstalling(_) => ReinstallKeeps(L, s, durable);
      case ClearingHead => ClearKeeps(L, s, durable);
      case ReclearingHead => ClearKeeps(L, s, durable);
      case Committed =>
      case Crashed => RestartKeeps(L, s, durable);
    }
  }

  lemma StepKeepsBooks(L: Layout, s: State, durable: Disk, newest: Disk)
    requires DiskInv(L, s, durable, newest) && Reserved(s) && History(s) && Enabled(L, s, Step)
    ensures Reserved(Next(L, s, Step)) && History(Next(L, s, Step))
  {
    StepKeepsReserved(L, s, durable, newest);
    if s.phase.WritingHead? {
      WriteHeadHistory(L, s);
    } else {
      HistoryFrame(s, Next(L, s, Step));
    }
  }

  lemma AppendKeepsList(L: Layout, lh: seq<int>, b: int)
    requires LogList(L, lh) && L.Home(b) && |Absorb(lh, b)| <= LOGSIZE && |Absorb(lh, b)| < L.size
    ensures LogList(L, Absorb(lh, b))
  {
  }

  lemma PassedOn(L: Layout, s: State, e: Event)
    requires PassedRightly(L, s) && L.Wf() && |s.disk| == L.blocks && Enabled(L, s, e)
    ensures PassedRightly(L, Next(L, s, e))
  {
    if e.End? {
      assert forall k :: 0 <= k < |s.ops| - 1 ==> Next(L, s, e).ops[k] == s.ops[if k < e.i then k else k + 1];
    }
  }

  lemma EndKeepsDisk(L: Layout, s: State, durable: Disk, newest: Disk, i: nat)
    requires DiskInv(L, s, durable, newest) && Enabled(L, s, End(i))
    ensures DiskInv(L, Next(L, s, End(i)), durable, newest)
  {
  }

  lemma AppendKeepsContents(L: Layout, s: State, d0: Disk, i: nat, b: int, data: Block)
    requires DiskInv(L, s, Perform(d0, s.done), Perform(d0, s.done + s.pending))
    requires Enabled(L, s, Append(i, b, data)) && !Outgrows(L, Absorb(s.lh, b))
    ensures var s' := Next(L, s, Append(i, b, data));
            DiskInv(L, s', Perform(d0, s'.done), Perform(d0, s'.done + s'.pending))
  {
    var w := Write(s.ops[i].id, b, data);
    AppendKeepsList(L, s.lh, b);
    AppendKeepsDisk(L, s, Perform(d0, s.done), Perform(d0, s.done + s.pending), i, b, data);
    assert s.done + (s.pending + [w]) == (s.done + s.pending) + [w];
    PerformSnoc(d0, s.done + s.pending, w);
  }

  /** Every event keeps the invariant, except an append that outgrows the log. */
  lemma EventKeeps(L: Layout, s: State, d0: Disk, e: Event)
    requires Inv(L, s, d0) && Enabled(L, s, e)
    ensures !Next(L, s, e).overrun ==> Inv(L, Next(L, s, e), d0)
  {
    PassedOn(L, s, e);
    match e
    case Begin =>
      BeginKeepsReserved(L, s);
      BeginKeepsHistory(L, s);
    case Test(i) =>
      TestKeepsReserved(L, s, i);
      TestKeepsHistory(L, s, i);
    case Append(i, b, data) =>
      AppendKeepsReserved(L, s, i, b, data);
      AppendKeepsHistory(L, s, i, b, data);
      if !Next(L, s, e).overrun {
        AppendKeepsContents(L, s, d0, i, b, data);
      }
    case End(i) =>
      EndKeepsReserved(L, s, i);
      EndKeepsHistory(L, s, i);
      EndKeepsDisk(L, s, Perform(d0, s.done), Perform(d0, s.done + s.pending), i);
    case Crash =>
      HistoryFrame(s, Next(L, s, Crash));
      assert s.done + [] == s.done;
    case Step =>
      StepKeepsContents(L, s, d0);
      StepKeepsBooks(L, s, Perform(d0, s.done), Perform(d0, s.done + s.pending));
  }

  // --------------------------------------------- the reservation, whatever the disk

  /** The sizes at which kept budgets cannot outgrow the log: the reservation alone
      keeps the list shorter than the log, or the log never takes a block. */
  predicate SafeSize(L: Layout) {
    L.size == 1 || L.size >= LOGSIZE + 1
  }

  ghost predicate Reserving(L: Layout, s: State) {
    && Reserved(s) && PassedRightly(L, s)
    && (!s.phase.Running? ==> s.ops == [])
    && (s.phase.Running? || s.phase.WritingLog? || s.phase.WritingHead? || s.pending == [])
    && (SafeSize(L) && !s.greedy ==> !s.overrun)
  }

  lemma EventReserves(L: Layout, s: State, e: Event)
    requires Reserving(L, s) && L.Wf() && |s.disk| == L.blocks && Enabled(L, s, e)
    ensures Reserving(L, Next(L, s, e))
  {
    PassedOn(L, s, e);
    match e
    case Begin => BeginKeepsReserved(L, s);
    case Test(i) => TestKeepsReserved(L, s, i);
    case Append(i, b, data) => AppendKeepsReserved(L, s, i, b, data);
    case End(i) =>
      EndKeepsReserved(L, s, i);
      assert s.pending != [] ==> s.pending[0] in s.pending;
    case Crash =>
    case Step =>
  }

  lemma {:induction false} RunReserves(L: Layout, s0: State, es: seq<Event>)
    requires Init(L, s0) && Exec(L, s0, es).At?
    ensures Reserving(L, Exec(L, s0, es).state)
  {
    if es != [] {
      RunReserves(L, s0, es[..|es| - 1]);
      EventReserves(L, Exec(L, s0, es[..|es| - 1]).state, es[|es| - 1]);
    }
  }

  // ------------------------------------------------------------- whole runs

  lemma InPrefix(hdr: seq<int>, k: nat, b: int)
    requires 0 < k <= |hdr|
    ensures b in hdr[..k] <==> b in hdr[..k - 1] || b == hdr[k - 1]
  {
    assert hdr[..k] == hdr[..k - 1] + [hdr[k - 1]];
  }

  /** Entry i of the list has been installed from d, the other blocks are those of d. */
  ghost predicate Installed(L: Layout, d: Disk, hdr: seq<int>, k: nat, r: Disk)
    requires Bootable(L, d) && hdr == Header(d[L.start]) && k <= |hdr| && |r| == |d|
  {
    && (forall i :: 0 <= i < k ==> L.Home(hdr[i]) && r[hdr[i]] == Slot(L, d, i))
    && (forall b :: 0 <= b < |d| && b !in hdr[..k] ==> r[b] == d[b])
  }

  lemma InstallNext(L: Layout, d: Disk, hdr: seq<int>, k: nat, r: Disk)
    requires Bootable(L, d) && hdr == Header(d[L.start]) && 0 < k <= |hdr| && |r| == |d|
             && Installed(L, d, hdr, k - 1, r)
    ensures L.Home(hdr[k - 1]) && Installed(L, d, hdr, k, r[hdr[k - 1] := Slot(L, r, k - 1)])
  {
    var h := hdr[k - 1];
    assert L.Home(h);
    assert r[L.start + k] == d[L.start + k] by {
      forall i | 0 <= i < k - 1 ensures hdr[i] != L.start + k {
        assert L.Home(hdr[i]);
      }
    }
    var r' := r[h := Slot(L, r, k - 1)];
    forall i | 0 <= i < k ensures L.Home(hdr[i]) && r'[hdr[i]] == Slot(L, d, i) {
      assert i < k - 1 ==> hdr[i] != h;
    }
    forall b | 0 <= b < |d| && b !in hdr[..k] ensures r'[b] == d[b] {
      InPrefix(hdr, k, b);
    }
  }

  lemma {:induction false} InstallKeepsLog(L: Layout, d: Disk, hdr: seq<int>, k: nat)
    requires Bootable(L, d) && hdr == Header(d[L.start]) && k <= |hdr|
    ensures Installed(L, d, hdr, k, Install(L, d, hdr, k))
  {
    if k > 0 {
      InstallKeepsLog(L, d, hdr, k - 1);
      InstallNext(L, d, hdr, k, Install(L, d, hdr, k - 1));
    }
  }

  /** What recovery makes of a disk is what the disk stands for. */
  lemma BootRecoverable(L: Layout, d: Disk)
    requires Bootable(L, d)
    ensures Recoverable(L, d, Recover(L, d))
  {
    var hdr := Header(d[L.start]);
    InstallKeepsLog(L, d, hdr, |hdr|);
    assert hdr[..|hdr|] == hdr == hdr[0..];
    assert forall i :: 0 <= i < |hdr| ==> L.Home(hdr[i]);
  }

  lemma InitInv(L: Layout, s0: State)
    requires Init(L, s0)
    ensures Inv(L, s0, Recover(L, s0.disk))
  {
    BootRecoverable(L, s0.disk);
    assert s0.done + s0.pending == [];
  }

  lemma OverrunStays(L: Layout, s: State, e: Event)
    requires L.Wf() && |s.disk| == L.blocks && Enabled(L, s, e)
    ensures s.overrun ==> Next(L, s, e).overrun
  {
  }

  /** A run keeps the invariant for as long as the log has not been outgrown. */
  lemma {:induction false} RunKeeps(L: Layout, s0: State, es: seq<Event>)
    requires Init(L, s0) && Exec(L, s0, es).At?
    ensures !Exec(L, s0, es).state.overrun ==> Inv(L, Exec(L, s0, es).state, Recover(L, s0.disk))
  {
    if es == [] {
      InitInv(L, s0);
    } else {
      RunKeeps(L, s0, es[..|es| - 1]);
      var s, e := Exec(L, s0, es[..|es| - 1]).state, es[|es| - 1];
      OverrunStays(L, s, e);
      if !s.overrun {
        EventKeeps(L, s, Recover(L, s0.disk), e);
      }
      assert Exec(L, s0, es).state == Next(L, s, e);
    }
  }

  lemma {:induction false} InstallReaches(L: Layout, d: Disk, hdr: seq<int>, target: Disk, k: nat)
    requires Recoverable(L, d, target) && hdr == Header(d[L.start]) && k <= |hdr|
    ensures var r := Install(L, d, hdr, k);
            && r[L.start] == d[L.start]
            && LogHolds(L, r, hdr, |hdr|, target) && HomeExcept(L, r, hdr, k, target)
  {
    if k > 0 {
      InstallReaches(L, d, hdr, target, k - 1);
      InstallStep(L, Install(L, d, hdr, k - 1), hdr, target, k);
    }
  }

  lemma InstallStep(L: Layout, r: Disk, hdr: seq<int>, target: Disk, k: nat)
    requires L.Wf() && |r| == L.blocks == |target| && LogList(L, hdr) && 0 < k <= |hdr|
    requires Header(r[L.start]) == hdr && LogHolds(L, r, hdr, |hdr|, target) && HomeExcept(L, r, hdr, k - 1, target)
    ensures L.Home(hdr[k - 1])
    ensures var r' := r[hdr[k - 1] := Slot(L, r, k - 1)];
            && r'[L.start] == r[L.start]
            && LogHolds(L, r', hdr, |hdr|, target) && HomeExcept(L, r', hdr, k, target)
  {
  }

  /** Recovery from any recoverable disk yields the target's home blocks and an
      empty log. */
  lemma RecoverReaches(L: Layout, d: Disk, target: Disk)
    requires Recoverable(L, d, target)
    ensures SameHome(L, Recover(L, d), target)
    ensures Header(Recover(L, d)[L.start]) == []
  {
    var hdr := Header(d[L.start]);
    InstallReaches(L, d, hdr, target, |hdr|);
    assert hdr[|hdr|..] == [];
  }

  /** A completed recovery of the disk of `s` leaves every home block as the
      committed groups left it, and of each system call either every write is there
      or none is. */
  ghost predicate AtomicAt(L: Layout, s0: State, s: State)
    requires L.start < |s.disk| && L.start < |s0.disk|
  {
    && SameHome(L, Recover(L, s.disk), Perform(Recover(L, s0.disk), s.done))
    && forall op :: 0 <= op < |s.issued| ==> OfOp(s.done, op) == [] || OfOp(s.done, op) == s.issued[op]
  }

  /** Crash atomicity over whole runs, from any disk the kernel can boot from. Stop
      a run anywhere, crashes and half finished recoveries included: as long as it
      has not outgrown the log, its disk recovers to the committed groups. */
  lemma CrashAtomicity(L: Layout, s0: State, es: seq<Event>)
    requires Init(L, s0) && Exec(L, s0, es).At?
    ensures !Exec(L, s0, es).state.overrun || (SafeSize(L) && !Exec(L, s0, es).state.greedy)
            ==> AtomicAt(L, s0, Exec(L, s0, es).state)
  {
    var s := Exec(L, s0, es).state;
    if SafeSize(L) && !s.greedy {
      RunReserves(L, s0, es);
    }
    if !s.overrun {
      RunKeeps(L, s0, es);
      RecoverReaches(L, s.disk, Perform(Recover(L, s0.disk), s.done));
      forall op | 0 <= op < |s.issued| ensures OfOp(s.done, op) == [] || OfOp(s.done, op) == s.issued[op] {
        assert Atomic(s, op);
      }
    }
  }

  /** Only the step that writes the header changes what is durable. */
  lemma NextDone(L: Layout, s: State, e: Event)
    requires L.Wf() && |s.disk| == L.blocks && Enabled(L, s, e)
    ensures Next(L, s, e).done == if e.Step? && s.phase.WritingHead? then s.done + s.pending else s.done
  {
  }

  /** What is durable stays durable, whatever happens next. */
  lemma {:induction false} DurableForever(L: Layout, s0: State, es: seq<Event>, more: seq<Event>)
    requires Init(L, s0) && Exec(L, s0, es + more).At?
    ensures Exec(L, s0, es).At?
    ensures Exec(L, s0, es).state.done <= Exec(L, s0, es + more).state.done
  {
    if more == [] {
      assert es + more == es;
    } else {
      var before := es + more[..|more| - 1];
      assert (es + more)[..|es + more| - 1] == before;
      DurableForever(L, s0, es, more[..|more| - 1]);
      NextDone(L, Exec(L, s0, before).state, (es + more)[|es + more| - 1]);
    }
  }

  lemma ReadLatest(L: Layout, s: State, durable: Disk, newest: Disk, b: int)
    requires DiskInv(L, s, durable, newest) && s.Up() && L.Home(b)
    requires s.phase.Installing? || s.phase.ClearingHead? ==> newest == durable
    ensures Read(s, b) == newest[b]
  {
  }

  /** Readers see every logged write at once, committed or not. */
  lemma ReadersSeeLatest(L: Layout, s0: State, es: seq<Event>, b: int)
    requires Init(L, s0) && Exec(L, s0, es).At? && L.Home(b)
    requires Exec(L, s0, es).state.Up() && !Exec(L, s0, es).state.overrun
    ensures var s := Exec(L, s0, es).state;
            Read(s, b) == Perform(Recover(L, s0.disk), s.done + s.pending)[b]
  {
    RunKeeps(L, s0, es);
    var s, d0 := Exec(L, s0, es).state, Recover(L, s0.disk);
    assert s.pending == [] ==> s.done + s.pending == s.done;
    ReadLatest(L, s, Perform(d0, s.done), Perform(d0, s.done + s.pending), b);
  }

  // ------------------------------------------------------------ reservation

  lemma RoomForNew(s: State, i: nat, b: int)
    requires Budgeted(s) && i < |s.ops| && b !in s.ops[i].logged && WithinBudget(s.ops[i], b)
    ensures |s.lh| < LOGSIZE
  {
    UnspentAtLeast(s.ops, i);
    AddedSize(s.ops[i].logged, b);
  }

  /** In every state reached within budgets, an operation that still has budget for a new block
      finds room in log.lh.block; relogging takes no room; and end_op never finds a
      commit under way. */
  lemma ReservationHolds(L: Layout, s0: State, es: seq<Event>)
    requires Init(L, s0) && Exec(L, s0, es).At?
    ensures var s := Exec(L, s0, es).state;
            && (!s.greedy ==> |s.lh| + Unspent(s.ops) <= LOGSIZE)
            && (s.Committing() ==> s.ops == [])
            && (!s.greedy ==> forall i, b ::
                  0 <= i < |s.ops| && b !in s.ops[i].logged && WithinBudget(s.ops[i], b) ==> |s.lh| < LOGSIZE)
            && (forall i, b :: 0 <= i < |s.ops| && b in s.ops[i].logged ==> Absorb(s.lh, b) == s.lh)
  {
    RunReserves(L, s0, es);
    var s := Exec(L, s0, es).state;
    if !s.greedy {
      forall i, b | 0 <= i < |s.ops| && b !in s.ops[i].logged && WithinBudget(s.ops[i], b)
        ensures |s.lh| < LOGSIZE
      {
        RoomForNew(s, i, b);
      }
    }
  }

  // --------------------------------------------------------------- admission

  /** A commit or a recovery that is under way can take its next step. */
  lemma StepReady(L: Layout, s: State, durable: Disk, newest: Disk)
    requires DiskInv(L, s, durable, newest) && !s.phase.Running?
    ensures Enabled(L, s, Step)
  {
    if s.phase.WritingLog? || s.phase.Installing? || s.phase.Reinstalling? {
      assert L.Home(s.lh[s.phase.tail]);
    }
  }

  /** What the machine admits in a state it has reached: an operation whenever the list
      and one budget per operation fit LOGSIZE, a test whenever the list has room, an
      append after the test, an end outside log_write, a crash at any time; and while no
      operation can run, the next block write. */
  lemma Admits(L: Layout, s0: State, es: seq<Event>, s: State)
    requires Init(L, s0) && Exec(L, s0, es) == At(s) && !s.overrun
    ensures Enabled(L, s, Begin) <==> s.phase == Running && |s.lh| + |s.ops| * MAXOPBLOCKS + MAXOPBLOCKS <= LOGSIZE
    ensures forall i: nat :: Enabled(L, s, Test(i)) <==>
              s.phase == Running && i < |s.ops| && !s.ops[i].passed && |s.lh| < LOGSIZE && |s.lh| + 1 < L.size
    ensures forall i: nat, b, data :: Enabled(L, s, Append(i, b, data)) <==>
              s.phase == Running && i < |s.ops| && s.ops[i].passed && L.Home(b)
    ensures forall i: nat :: Enabled(L, s, End(i)) <==> s.phase == Running && i < |s.ops| && !s.ops[i].passed
    ensures Enabled(L, s, Step) <==> s.phase != Running
    ensures Enabled(L, s, Crash)
  {
    RunKeeps(L, s0, es);
    if s.phase != Running {
      StepReady(L, s, Perform(Recover(L, s0.disk), s.done), Perform(Recover(L, s0.disk), s.done + s.pending));
    }
  }
}
