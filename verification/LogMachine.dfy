/** The write-ahead log of kernel/log.c as a machine of single disk writes.

  A run is a sequence of events: system calls entering and leaving, buffers
  being logged, the commit advancing by exactly one block write, the machine
  losing power, and recovery advancing by one block write. Power may fail
  between any two events, recovery included.

  log_write is two events, as in the code: the test for room is made without
  log.lock, the append with it, and other calls may come between.

  `done`, `pending` and `issued` are history: the writes of committed groups, the
  writes logged since, and the writes by system call. `greedy` records
  that a system call once logged more than its budget, `overrun` that the log list
  once outgrew the log. None of them steers a step.
 */
module LogMachine {

  const MAXOPBLOCKS: nat := 10
  const LOGSIZE: nat := 3 * MAXOPBLOCKS
  const WORDS: nat := 128  // BSIZE / sizeof(int)

  type Block = b: seq<int> | |b| == WORDS witness seq(WORDS, _ => 0)
  type Disk = seq<Block>

  /** Where the log lives: header at `start`, then `size - 1` data blocks. */
  datatype Layout = Layout(start: nat, size: nat, blocks: nat) {
    predicate Wf() {
      1 <= size && start + size <= blocks
    }

    predicate Home(b: int) {
      0 <= b < blocks && !(start <= b < start + size)
    }
  }

  /** Data block i of the on-disk log. */
  function Slot(L: Layout, d: Disk, i: int): Block
    requires 0 <= i && L.start + i + 1 < |d|
  {
    d[L.start + i + 1]
  }

  // ---------------------------------------------------------------- header

  /** The block numbers a header block holds; none when its count is out of range. */
  function Header(h: Block): (blocks: seq<int>)
    ensures |blocks| <= LOGSIZE
  {
    if 0 <= h[0] <= LOGSIZE then h[1..1 + h[0]] else []
  }

  /** The header block write_head leaves: words past the count keep their old value. */
  function WithHeader(h: Block, blocks: seq<int>): (h': Block)
    requires |blocks| <= LOGSIZE
    ensures Header(h') == blocks
  {
    [|blocks|] + blocks + h[1 + |blocks|..]
  }

  // --------------------------------------------------------------- history

  datatype Write = Write(op: nat, block: int, data: Block)

  /** Home blocks after performing `ws` in order on `d`. */
  function Perform(d: Disk, ws: seq<Write>): (r: Disk)
    ensures |r| == |d|
  {
    if ws == [] then d
    else
      var w, before := ws[|ws| - 1], Perform(d, ws[..|ws| - 1]);
      if 0 <= w.block < |before| then before[w.block := w.data] else before
  }

  /** The writes of one system call. */
  function OfOp(ws: seq<Write>, op: nat): seq<Write> {
    if ws == [] then []
    else
      var w, before := ws[|ws| - 1], OfOp(ws[..|ws| - 1], op);
      if w.op == op then before + [w] else before
  }

  lemma PerformSnoc(d: Disk, ws: seq<Write>, w: Write)
    requires 0 <= w.block < |d|
    ensures Perform(d, ws + [w]) == Perform(d, ws)[w.block := w.data]
  {
    assert (ws + [w])[..|ws|] == ws;
  }

  lemma {:induction false} OfOpConcat(a: seq<Write>, b: seq<Write>, op: nat)
    ensures OfOp(a + b, op) == OfOp(a, op) + OfOp(b, op)
  {
    if b == [] {
      assert a + b == a;
    } else {
      assert (a + b)[..|a + b| - 1] == a + b[..|b| - 1];
      OfOpConcat(a, b[..|b| - 1], op);
    }
  }

  lemma {:induction false} OfOpEmpty(ws: seq<Write>, op: nat)
    requires OfOp(ws, op) == []
    ensures forall w :: w in ws ==> w.op != op
  {
    if ws != [] {
      OfOpEmpty(ws[..|ws| - 1], op);
      assert ws == ws[..|ws| - 1] + [ws[|ws| - 1]];
    }
  }

  // ----------------------------------------------------------------- state

  /** An active system call: its identity, the distinct blocks it has logged, and
      whether it is inside log_write, past the test for room. */
  datatype Op = Op(id: nat, logged: set<int>, passed: bool)

  datatype Phase =
    | Running
    | WritingLog(tail: nat)
    | WritingHead
    | Installing(tail: nat)
    | ClearingHead
    | Committed
    | Crashed
    | Reinstalling(tail: nat)
    | ReclearingHead

  datatype State = State(
    disk: Disk,
    cache: map<int, Block>,   // contents of the buffers pinned with B_DIRTY
    lh: seq<int>,             // log.lh.block[..log.lh.n]
    ops: seq<Op>,             // |ops| is log.outstanding
    phase: Phase,
    done: seq<Write>,
    pending: seq<Write>,
    issued: seq<seq<Write>>,  // by identity: everything a system call ever logged
    greedy: bool,
    overrun: bool)
  {
    predicate Committing() {
      phase.WritingLog? || phase.WritingHead? || phase.Installing? || phase.ClearingHead? || phase.Committed?
    }

    predicate Up() {
      phase.Running? || Committing()
    }
  }

  /** What bread returns: the pinned buffer if there is one, else the disk's block. */
  function Read(s: State, b: int): Block
    requires 0 <= b < |s.disk|
  {
    if b in s.cache then s.cache[b] else s.disk[b]
  }

  predicate LogFull(L: Layout, s: State) {
    |s.lh| >= LOGSIZE || |s.lh| >= L.size - 1
  }

  datatype Event =
    | Begin
    | Test(i: nat)
    | Append(i: nat, block: int, data: Block)
    | End(i: nat)
    | Step
    | Crash

  /** An operation stays within its budget if this write leaves it with at most
      MAXOPBLOCKS distinct blocks. */
  predicate WithinBudget(op: Op, block: int) {
    |op.logged + {block}| <= MAXOPBLOCKS
  }

  /** Both blocks of copy `tail` are blocks of the disk. */
  predicate CanCopy(L: Layout, s: State, tail: nat) {
    tail < |s.lh| && L.start + tail + 1 < |s.disk| && 0 <= s.lh[tail] < |s.disk|
  }

  predicate Enabled(L: Layout, s: State, e: Event) {
    match e
    case Begin => s.phase.Running? && |s.lh| + (|s.ops| + 1) * MAXOPBLOCKS <= LOGSIZE
    case Test(i) => s.phase.Running? && i < |s.ops| && !s.ops[i].passed && !LogFull(L, s)
    case Append(i, b, _) => s.phase.Running? && i < |s.ops| && s.ops[i].passed && L.Home(b)
    case End(i) => s.phase.Running? && i < |s.ops| && !s.ops[i].passed
    case Step =>
      match s.phase {
        case Running => false
        case WritingLog(tail) => CanCopy(L, s, tail)
        case WritingHead => |s.lh| <= LOGSIZE
        case Installing(tail) => CanCopy(L, s, tail)
        case ClearingHead => true
        case Committed => true
        case Crashed => true
        case Reinstalling(tail) => CanCopy(L, s, tail)
        case ReclearingHead => true
      }
    case Crash => true
  }

  /** log_write's absorption: a block already in the log keeps its slot. */
  function Absorb(lh: seq<int>, b: int): seq<int> {
    if b in lh then lh else lh + [b]
  }

  /** More blocks than log.lh.block or the log area can take. */
  predicate Outgrows(L: Layout, lh: seq<int>) {
    |lh| > LOGSIZE || |lh| >= L.size
  }

  /** The phase after `tail` blocks have been copied towards `lh`. */
  function AfterCopy(tail: nat, n: nat, more: Phase, next: Phase): Phase {
    if tail < n then more else next
  }

  function Next(L: Layout, s: State, e: Event): State
    requires L.Wf() && |s.disk| == L.blocks && Enabled(L, s, e)
  {
    match e
    case Begin => s.(ops := s.ops + [Op(|s.issued|, {}, false)], issued := s.issued + [[]])
    case Test(i) => s.(ops := s.ops[i := s.ops[i].(passed := true)])
    case Append(i, b, data) =>
      var op := s.ops[i];
      var w := Write(op.id, b, data);
      s.(lh := Absorb(s.lh, b),
         greedy := s.greedy || !WithinBudget(op, b),
         overrun := s.overrun || Outgrows(L, Absorb(s.lh, b)),
         cache := s.cache[b := data],
         ops := s.ops[i := Op(op.id, op.logged + {b}, false)],
         pending := s.pending + [w],
         issued := if op.id < |s.issued| then s.issued[op.id := s.issued[op.id] + [w]] else s.issued)
    case End(i) =>
      var ops := s.ops[..i] + s.ops[i + 1..];
      s.(ops := ops,
         phase := if ops != [] then Running
                  else if s.lh == [] then Committed
                  else WritingLog(0))
    case Step => Advance(L, s)
    case Crash => s.(cache := map[], lh := [], ops := [], phase := Crashed, pending := [])
  }

  /** One block write (or one in-memory step) of commit or recovery. */
  function Advance(L: Layout, s: State): State
    requires L.Wf() && |s.disk| == L.blocks && Enabled(L, s, Step)
  {
    match s.phase
    case WritingLog(tail) =>
      s.(disk := s.disk[L.start + tail + 1 := Read(s, s.lh[tail])],
         phase := AfterCopy(tail + 1, |s.lh|, WritingLog(tail + 1), WritingHead))
    case WritingHead =>
      s.(disk := s.disk[L.start := WithHeader(s.disk[L.start], s.lh)],
         phase := AfterCopy(0, |s.lh|, Installing(0), ClearingHead),
         done := s.done + s.pending, pending := [])
    case Installing(tail) =>
      s.(disk := s.disk[s.lh[tail] := Slot(L, s.disk, tail)],
         cache := s.cache - {s.lh[tail]},
         phase := AfterCopy(tail + 1, |s.lh|, Installing(tail + 1), ClearingHead))
    case ClearingHead =>
      s.(lh := [], disk := s.disk[L.start := WithHeader(s.disk[L.start], [])], phase := Committed)
    case Committed => s.(phase := Running)
    case Crashed =>
      var lh := Header(s.disk[L.start]);
      s.(lh := lh, phase := AfterCopy(0, |lh|, Reinstalling(0), ReclearingHead))
    case Reinstalling(tail) =>
      s.(disk := s.disk[s.lh[tail] := Slot(L, s.disk, tail)],
         phase := AfterCopy(tail + 1, |s.lh|, Reinstalling(tail + 1), ReclearingHead))
    case ReclearingHead =>
      s.(lh := [], disk := s.disk[L.start := WithHeader(s.disk[L.start], [])], phase := Running)
  }

  /** A disk the kernel can boot from: its log, empty or not, is well formed. */
  ghost predicate Bootable(L: Layout, d: Disk) {
    && L.Wf() && |d| == L.blocks
    && 0 <= d[L.start][0] <= LOGSIZE && LogList(L, Header(d[L.start]))
  }

  /** initlog is about to recover. */
  ghost predicate Init(L: Layout, s: State) {
    Bootable(L, s.disk) && s == State(s.disk, map[], [], [], Crashed, [], [], [], false, false)
  }

  datatype Outcome = Stuck | At(state: State)

  /** The state a run of events reaches, or Stuck if an event was not enabled. */
  function Exec(L: Layout, s0: State, es: seq<Event>): Outcome
    requires L.Wf() && |s0.disk| == L.blocks
    ensures Exec(L, s0, es).At? ==> |Exec(L, s0, es).state.disk| == L.blocks
  {
    if es == [] then At(s0)
    else
      match Exec(L, s0, es[..|es| - 1])
      case Stuck => Stuck
      case At(s) =>
        var e := es[|es| - 1];
        if Enabled(L, s, e) then At(Next(L, s, e)) else Stuck
  }

  lemma ExecSnoc(L: Layout, s0: State, es: seq<Event>, e: Event)
    requires L.Wf() && |s0.disk| == L.blocks
    requires Exec(L, s0, es).At? && Enabled(L, Exec(L, s0, es).state, e)
    ensures Exec(L, s0, es + [e]) == At(Next(L, Exec(L, s0, es).state, e))
  {
    assert (es + [e])[..|es|] == es;
  }

  // -------------------------------------------------- recovery, all at once

  /** install_trans from the disk's own log, first `k` entries of `hdr`. */
  function Install(L: Layout, d: Disk, hdr: seq<int>, k: nat): (r: Disk)
    requires k <= |hdr|
    ensures |r| == |d|
  {
    if k == 0 then d
    else
      var r := Install(L, d, hdr, k - 1);
      if 0 <= hdr[k - 1] < |r| && L.start + k < |r| then r[hdr[k - 1] := Slot(L, r, k - 1)] else r
  }

  /** A complete, uninterrupted recover_from_log. */
  function Recover(L: Layout, d: Disk): (r: Disk)
    requires L.start < |d|
    ensures |r| == |d|
  {
    var r := Install(L, d, Header(d[L.start]), |Header(d[L.start])|);
    r[L.start := WithHeader(r[L.start], [])]
  }

  ghost predicate SameHome(L: Layout, d: Disk, target: Disk) {
    |d| == |target| == L.blocks && forall b {:trigger L.Home(b)} :: L.Home(b) ==> d[b] == target[b]
  }

  // ------------------------------------------------------------- invariant

  ghost predicate Distinct(s: seq<int>) {
    forall i, j :: 0 <= i < j < |s| ==> s[i] != s[j]
  }

  ghost function Blocks(lh: seq<int>): set<int> {
    set b | b in lh
  }

  ghost predicate LogList(L: Layout, lh: seq<int>) {
    && |lh| <= LOGSIZE && |lh| < L.size
    && Distinct(lh)
    && forall i :: 0 <= i < |lh| ==> L.Home(lh[i])
  }

  /** Slot i of the on-disk log holds what block lh[i] must become, for i < n. */
  ghost predicate LogHolds(L: Layout, d: Disk, lh: seq<int>, n: nat, target: Disk)
    requires LogList(L, lh) && n <= |lh| && L.Wf() && |d| == L.blocks && |target| == L.blocks
  {
    forall i :: 0 <= i < n ==> Slot(L, d, i) == target[lh[i]]
  }

  /** Every home block outside lh[k..] already equals the target. */
  ghost predicate HomeExcept(L: Layout, d: Disk, lh: seq<int>, k: nat, target: Disk)
    requires k <= |lh| && |d| == L.blocks && |target| == L.blocks
  {
    forall b {:trigger L.Home(b)} :: L.Home(b) && b !in lh[k..] ==> d[b] == target[b]
  }

  /** The disk alone determines `target`: its header names exactly the blocks that
      may still differ, and its log holds their right contents. */
  ghost predicate Recoverable(L: Layout, d: Disk, target: Disk) {
    && L.Wf() && |d| == L.blocks && |target| == L.blocks
    && 0 <= d[L.start][0] <= LOGSIZE
    && var hdr := Header(d[L.start]);
       && LogList(L, hdr)
       && LogHolds(L, d, hdr, |hdr|, target)
       && HomeExcept(L, d, hdr, 0, target)
  }

  function Unspent(ops: seq<Op>): (n: int)
  {
    if ops == [] then 0 else Unspent(ops[1..]) + MAXOPBLOCKS - |ops[0].logged|
  }

  /** Blocks in the log plus all unspent budgets fit log.lh.block. */
  ghost predicate Budgeted(s: State) {
    && |s.lh| + Unspent(s.ops) <= LOGSIZE
    && forall i :: 0 <= i < |s.ops| ==> |s.ops[i].logged| <= MAXOPBLOCKS
  }

  /** The reservation, as long as budgets are kept; whatever was logged has its
      place in the list. */
  ghost predicate Reserved(s: State) {
    && (!s.greedy ==> Budgeted(s))
    && (forall i :: 0 <= i < |s.ops| ==> forall b :: b in s.ops[i].logged ==> b in s.lh)
    && (forall w :: w in s.pending ==> w.block in s.lh)
  }

  /** All or nothing, per system call: its writes are all durable, or none is. */
  ghost predicate Atomic(s: State, op: nat)
    requires op < |s.issued|
  {
    || OfOp(s.done, op) == []
    || (OfOp(s.done, op) == s.issued[op] && OfOp(s.pending, op) == [] && forall i :: 0 <= i < |s.ops| ==>
        s.ops[i].id != op)
  }

  ghost predicate History(s: State) {
    && (forall op :: 0 <= op < |s.issued| ==> Atomic(s, op))
    && (forall w :: w in s.done ==> w.op < |s.issued|)
    && (forall w :: w in s.pending ==> w.op < |s.issued| && OfOp(s.pending, w.op) == s.issued[w.op])
    && (forall i :: 0 <= i < |s.ops| ==>
         s.ops[i].id < |s.issued| && OfOp(s.pending, s.ops[i].id) == s.issued[s.ops[i].id])
    && (forall i, j :: 0 <= i < j < |s.ops| ==> s.ops[i].id != s.ops[j].id)
  }

  /** While a transaction is being collected or copied: pinned buffers are exactly
      the logged blocks, they hold the newest contents, nothing else has moved. */
  ghost predicate Collecting(L: Layout, d: Disk, cache: map<int, Block>, lh: seq<int>, newest: Disk) {
    && L.Wf() && |d| == L.blocks == |newest|
    && Header(d[L.start]) == []
    && cache.Keys == Blocks(lh)
    && (forall b :: b in lh ==> L.Home(b) && cache[b] == newest[b])
    && (forall b {:trigger L.Home(b)} :: L.Home(b) && b !in lh ==> newest[b] == d[b])
  }

  /** What the disk, the pinned buffers and the log hold at each point, for the
      contents `durable` that recovery must restore and `newest` that readers see. */
  ghost predicate PhaseInv(L: Layout, s: State, durable: Disk, newest: Disk)
    requires L.Wf() && |s.disk| == L.blocks == |durable| == |newest| && LogList(L, s.lh)
  {
    match s.phase
    case Running => Collecting(L, s.disk, s.cache, s.lh, newest)
    case WritingLog(tail) =>
      && s.ops == [] && tail < |s.lh|
      && Collecting(L, s.disk, s.cache, s.lh, newest) && LogHolds(L, s.disk, s.lh, tail, newest)
    case WritingHead =>
      && s.ops == [] && s.lh != []
      && Collecting(L, s.disk, s.cache, s.lh, newest) && LogHolds(L, s.disk, s.lh, |s.lh|, newest)
    case Installing(tail) =>
      && s.ops == [] && s.pending == [] && tail < |s.lh|
      && Header(s.disk[L.start]) == s.lh
      && LogHolds(L, s.disk, s.lh, |s.lh|, durable)
      && HomeExcept(L, s.disk, s.lh, tail, durable)
      && s.cache.Keys == Blocks(s.lh[tail..])
      && (forall b :: b in s.cache ==> L.Home(b) && s.cache[b] == durable[b])
    case ClearingHead =>
      && s.ops == [] && s.pending == [] && s.cache == map[]
      && SameHome(L, s.disk, durable)
    case Committed =>
      && s.ops == [] && s.lh == []
      && Collecting(L, s.disk, s.cache, s.lh, newest)
    case Crashed => s.cache == map[] && s.lh == [] && s.ops == [] && s.pending == []
    case Reinstalling(tail) =>
      && s.cache == map[] && s.ops == [] && s.pending == [] && tail < |s.lh|
      && Header(s.disk[L.start]) == s.lh
      && HomeExcept(L, s.disk, s.lh, tail, durable)
    case ReclearingHead =>
      && s.cache == map[] && s.ops == [] && s.pending == []
      && SameHome(L, s.disk, durable)
  }

  ghost predicate DiskInv(L: Layout, s: State, durable: Disk, newest: Disk) {
    && L.Wf() && |s.disk| == L.blocks == |durable| == |newest|
    && LogList(L, s.lh)
    && Recoverable(L, s.disk, durable)
    && PhaseInv(L, s, durable, newest)
  }

  /** A call passes the test only if the log has a data block at all. */
  ghost predicate PassedRightly(L: Layout, s: State) {
    forall i :: 0 <= i < |s.ops| && s.ops[i].passed ==> L.size > 1
  }

  ghost predicate Inv(L: Layout, s: State, d0: Disk) {
    && !s.overrun && PassedRightly(L, s)
    && DiskInv(L, s, Perform(d0, s.done), Perform(d0, s.done + s.pending))
    && Reserved(s)
    && History(s)
  }
}
