/** kernel/log.c as code. Every method appends to `events` exactly the machine
  steps it performs, one per bwrite, and Valid() says that the fields are what that
  run of the machine reaches, a run that has not outgrown the log. Whatever holds
  of every such run (LogSafety) therefore holds of this code at every single disk
  write.
 */
module LogCode {
  import opened LogMachine
  import opened LogSafety

  class Log {
    const L: Layout
    var disk: Disk
    var cache: map<int, Block>
    var block: array<int>
    var n: nat
    var outstanding: nat
    var committing: bool
    ghost var s0: State
    ghost var events: seq<Event>
    ghost var m: State          // where that run of the machine has got to

    /** The recorded events lead from boot to `m`. The quantifier keeps the run folded
        in proofs that only need to know it exists. */
    ghost predicate HasRun()
      reads this`s0, this`events, this`m
    {
      && L.Wf() && |s0.disk| == |m.disk| == L.blocks
      && forall es :: es == events ==> Init(L, s0) && Exec(L, s0, es) == At(m)
    }

    lemma Unfold()
      requires HasRun()
      ensures Init(L, s0) && Exec(L, s0, events) == At(m)
    {
      assert Exec(L, s0, events) == At(m);
    }

    /** The fields that a block write of commit or recovery leaves alone. */
    ghost predicate Counters()
      reads this`n, this`outstanding, this`committing, this`m, this`block, block
    {
      && block.Length == LOGSIZE && n <= LOGSIZE && m.lh == block[..n]
      && |m.ops| == outstanding && m.Committing() == committing
    }

    ghost predicate Fields()
      reads this, block
    {
      Counters() && m.disk == disk && m.cache == cache
    }

    ghost predicate Valid()
      reads this, block
    {
      HasRun() && Fields() && !m.overrun
    }

    /** The state initlog finds: any disk whose log is well formed, from mkfs or from
        a crash. */
    constructor (layout: Layout, image: Disk)
      requires Bootable(layout, image)
      ensures Valid() && fresh(block) && L == layout && events == []
      ensures m.phase.Crashed? && m.done == [] && disk == image && s0.disk == image
    {
      L := layout;
      disk, cache, n, outstanding, committing := image, map[], 0, 0, false;
      block := new int[LOGSIZE];
      s0 := State(image, map[], [], [], Crashed, [], [], [], false, false);
      m := State(image, map[], [], [], Crashed, [], [], [], false, false);
      events := [];
      new;
      assert Exec(L, s0, []) == At(m);
      assert block[..0] == [];
    }

    /** Records that the code has just done what machine event `e` does. */
    ghost method Did(e: Event)
      requires HasRun() && Enabled(L, m, e)
      modifies this`events, this`m
      ensures HasRun() && events == old(events) + [e] && m == Next(L, old(m), e)
    {
      Unfold();
      ExecSnoc(L, s0, events, e);
      events := events + [e];
      m := Next(L, m, e);
    }

    /** bread of a home block: the pinned buffer, else the disk. */
    method Bread(b: int) returns (data: Block)
      requires 0 <= b < |disk|
      ensures data == if b in cache then cache[b] else disk[b]
    {
      if b in cache {
        data := cache[b];
      } else {
        data := disk[b];
      }
    }

    /** bwrite: the block reaches the disk and loses B_DIRTY. */
    method Bwrite(b: int, data: Block)
      requires 0 <= b < |disk|
      modifies this`disk, this`cache
      ensures disk == old(disk)[b := data] && cache == old(cache) - {b}
    {
      disk := disk[b := data];
      cache := cache - {b};
    }

    /** Copies lh into the header block, word by word, and writes it. */
    method WriteHead()
      requires L.Wf() && |disk| == L.blocks && n <= block.Length == LOGSIZE && L.start !in cache
      modifies this`disk, this`cache
      ensures disk == old(disk)[L.start := WithHeader(old(disk[L.start]), block[..n])]
      ensures cache == old(cache)
    {
      var hb := Bread(L.start);
      hb := hb[0 := n];
      var i := 0;
      while i < n
        invariant 0 <= i <= n
        invariant |hb| == WORDS && hb[0] == n && hb[1..1 + i] == block[..i]
        invariant hb[1 + i..] == disk[L.start][1 + i..]
      {
        hb := hb[1 + i := block[i]];
        i := i + 1;
      }
      assert hb == [n] + hb[1..1 + n] + hb[1 + n..];
      Bwrite(L.start, hb);
      assert cache == old(cache);
    }

    /** Loads the on-disk header into lh. */
    method ReadHead()
      requires L.Wf() && |disk| == L.blocks && block.Length == LOGSIZE && L.start !in cache
      requires 0 <= disk[L.start][0] <= LOGSIZE
      modifies this`n, block
      ensures n <= LOGSIZE && block[..n] == Header(disk[L.start])
    {
      var hb := Bread(L.start);
      n := hb[0];
      var i := 0;
      while i < n
        invariant 0 <= i <= n && n == hb[0]
        invariant block[..i] == hb[1..1 + i]
      {
        block[i] := hb[1 + i];
        i := i + 1;
      }
    }

    ghost method DidCopy(tail: nat)
      requires HasRun() && Counters() && !m.overrun && m.phase == WritingLog(tail) && CanCopy(L, m, tail)
      requires disk == m.disk[L.start + tail + 1 := Read(m, m.lh[tail])] && cache == m.cache
      modifies this`events, this`m
      ensures Valid() && events == old(events) + [Step]
      ensures m.phase == AfterCopy(tail + 1, n, WritingLog(tail + 1), WritingHead)
      ensures m.done == old(m.done) && m.pending == old(m.pending)
    {
      Did(Step);
    }

    /** One round of write_log: a pinned buffer reaches its log block. */
    method CopyToLog(tail: nat)
      requires Valid() && m.phase == WritingLog(tail)
      modifies this`disk, this`cache, this`events, this`m
      ensures Valid() && events == old(events) + [Step]
      ensures m.phase == AfterCopy(tail + 1, n, WritingLog(tail + 1), WritingHead)
      ensures m.done == old(m.done) && m.pending == old(m.pending)
    {
      WritingLogFacts();
      var home := block[tail];
      assert home == m.lh[tail];
      var from := Bread(home);
      assert from == Read(m, home);
      Bwrite(L.start + tail + 1, from);
      DidCopy(tail);
    }

    /** Copies the modified blocks from the cache to the log. */
    method WriteLog()
      requires Valid() && m.phase == WritingLog(0)
      modifies this`disk, this`cache, this`events, this`m
      ensures Valid() && m.phase.WritingHead? && old(events) <= events
      ensures m.done == old(m.done) && m.pending == old(m.pending)
    {
      WritingLogFacts();
      var tail := 0;
      while tail < n
        invariant 0 <= tail <= n && Valid()
        invariant m.phase == AfterCopy(tail, n, WritingLog(tail), WritingHead)
        invariant m.done == old(m.done) && m.pending == old(m.pending)
        invariant old(events) <= events
      {
        CopyToLog(tail);
        tail := tail + 1;
      }
    }

    ghost method DidInstall(tail: nat)
      requires HasRun() && Counters() && !m.overrun && CanCopy(L, m, tail)
      requires m.phase == Installing(tail) || (m.phase == Reinstalling(tail) && m.cache == map[])
      requires disk == m.disk[m.lh[tail] := m.disk[L.start + tail + 1]] && cache == m.cache - {m.lh[tail]}
      modifies this`events, this`m
      ensures Valid() && events == old(events) + [Step]
      ensures m.phase == if old(m.Committing()) then AfterCopy(tail + 1, n, Installing(tail + 1), ClearingHead)
                         else AfterCopy(tail + 1, n, Reinstalling(tail + 1), ReclearingHead)
      ensures m.done == old(m.done) && m.pending == old(m.pending) && m.lh == old(m.lh)
    {
      Did(Step);
    }

    /** One round of install_trans, in a commit or in recovery. */
    method InstallBlock(tail: nat)
      requires Valid() && (m.phase == Installing(tail) || m.phase == Reinstalling(tail))
      modifies this`disk, this`cache, this`events, this`m
      ensures Valid() && events == old(events) + [Step]
      ensures m.phase == if old(m.Committing()) then AfterCopy(tail + 1, n, Installing(tail + 1), ClearingHead)
                         else AfterCopy(tail + 1, n, Reinstalling(tail + 1), ReclearingHead)
      ensures m.done == old(m.done) && m.pending == old(m.pending) && m.lh == old(m.lh)
    {
      InstallingFacts();
      var home := block[tail];
      assert home == m.lh[tail];
      var lbuf := Bread(L.start + tail + 1);
      assert lbuf == m.disk[L.start + tail + 1];
      Bwrite(home, lbuf);
      DidInstall(tail);
    }

    /** Copies committed blocks from the log to their home locations. */
    method InstallTrans()
      requires Valid()
      requires m.phase == AfterCopy(0, n, Installing(0), ClearingHead)
               || m.phase == AfterCopy(0, n, Reinstalling(0), ReclearingHead)
      modifies this`disk, this`cache, this`events, this`m
      ensures Valid() && old(events) <= events
      ensures m.phase == if old(m.Committing()) then ClearingHead else ReclearingHead
      ensures m.done == old(m.done) && m.pending == old(m.pending) && m.lh == old(m.lh)
    {
      var tail := 0;
      while tail < n
        invariant 0 <= tail <= n && Valid()
        invariant m.phase == if old(m.Committing()) then AfterCopy(tail, n, Installing(tail), ClearingHead)
                             else AfterCopy(tail, n, Reinstalling(tail), ReclearingHead)
        invariant m.done == old(m.done) && m.pending == old(m.pending) && m.lh == old(m.lh)
        invariant old(events) <= events
      {
        InstallBlock(tail);
        tail := tail + 1;
      }
    }

    /** log.lh.n = 0 and the header write that erases the transaction. */
    method ClearHead()
      requires Valid() && (m.phase.ClearingHead? || m.phase.ReclearingHead?)
      modifies this`n, this`disk, this`cache, this`events, this`m, this`committing
      ensures Valid() && events == old(events) + [Step] && m == Next(L, old(m), Step)
    {
      ClearingFacts();
      n := 0;
      assert block[..n] == [];
      WriteHead();
      Did(Step);
    }

    /** The header write that commits. */
    method CommitHead()
      requires Valid() && m.phase.WritingHead?
      modifies this`disk, this`cache, this`events, this`m
      ensures Valid() && events == old(events) + [Step] && m == Next(L, old(m), Step)
    {
      WritingHeadFacts();
      WriteHead();
      Did(Step);
    }

    /** commit(): afterwards all pending writes are durable and in place. */
    method Commit()
      requires Valid() && m.phase == if n == 0 then Committed else WritingLog(0)
      modifies this`n, this`disk, this`cache, this`events, this`m, this`committing
      ensures Valid() && m.phase.Committed? && old(events) <= events
      ensures m.done == old(m.done + m.pending) && m.pending == [] && n == 0 && cache == map[]
      ensures SameHome(L, disk, Perform(Recover(L, s0.disk), m.done))
    {
      if n > 0 {
        WriteLog();
        CommitHead();
        InstallTrans();
        ClearHead();
      }
      CommittedFacts();
    }

    /** Power is lost: memory is gone, the disk stays as it is. */
    method PowerLoss()
      requires Valid()
      modifies this`n, this`cache, this`outstanding, this`committing, this`events, this`m
      ensures Valid() && m.phase.Crashed? && events == old(events) + [Crash]
      ensures disk == old(disk) && m.done == old(m.done)
    {
      n, cache, outstanding, committing := 0, map[], 0, false;
      assert block[..n] == [];
      Did(Crash);
    }

    /** The part of recovery that only reads. */
    method Restart()
      requires Valid() && m.phase.Crashed?
      modifies this`n, this`events, this`m, block
      ensures Valid() && events == old(events) + [Step] && m == Next(L, old(m), Step)
    {
      CrashedFacts();
      ReadHead();
      Did(Step);
    }

    /** recover_from_log(): home blocks become what the committed groups made them. */
    method RecoverFromLog()
      requires Valid() && m.phase.Crashed?
      modifies this`n, this`disk, this`cache, this`events, this`m, this`committing, block
      ensures Valid() && m.phase.Running? && old(events) <= events
      ensures m.done == old(m.done) && m.pending == []
      ensures SameHome(L, disk, Perform(Recover(L, s0.disk), m.done))
    {
      CrashedFacts();
      Restart();
      InstallTrans();
      ClearHead();
      RunningFacts();
    }

    /** begin_op(): false means the caller goes back to sleep. */
    method BeginOp() returns (entered: bool)
      requires Valid() && m.Up()
      modifies this`outstanding, this`events, this`m
      ensures Valid() && entered == Enabled(L, old(m), Begin)
      ensures entered <==> !committing && n + (old(outstanding) + 1) * MAXOPBLOCKS <= LOGSIZE
      ensures outstanding == old(outstanding) + if entered then 1 else 0
      ensures m == if entered then Next(L, old(m), Begin) else old(m)
      ensures events == old(events) + if entered then [Begin] else []
    {
      if committing {
        return false;
      } else if n + (outstanding + 1) * MAXOPBLOCKS > LOGSIZE {
        return false;
      }
      outstanding := outstanding + 1;
      Did(Begin);
      return true;
    }

    /** The first half of log_write() by the i-th active system call: the two tests,
        made without the lock. */
    method LogTest(ghost i: nat) returns (panicked: bool)
      requires Valid() && m.phase.Running? && i < |m.ops| && !m.ops[i].passed
      modifies this`events, this`m
      ensures Valid() && panicked == LogFull(L, old(m))
      ensures panicked <==> n >= LOGSIZE || n >= L.size - 1
      ensures m == if panicked then old(m) else Next(L, old(m), Test(i))
      ensures old(events) <= events
    {
      if n >= LOGSIZE || n >= L.size - 1 {
        return true;
      }
      if outstanding < 1 {
        return true;
      }
      Did(Test(i));
      return false;
    }

    /** Where log.lh.block has `b`, or would take it. */
    method FindBlock(b: int) returns (k: nat)
      requires n <= block.Length
      ensures k <= n && (k < n <==> b in block[..n]) && (k < n ==> block[k] == b)
    {
      k := 0;
      while k < n
        invariant 0 <= k <= n && forall j :: 0 <= j < k ==> block[j] != b
      {
        if block[k] == b {
          break;
        }
        k := k + 1;
      }
    }

    /** The second half, under the lock, at any time after the test: absorb or append.
        `overran` means that other calls have used up the room meanwhile. Where they
        used up log.lh.block itself the C code writes past the array, and nothing is
        said; past the log area alone, the list is still what the machine says. */
    method LogAppend(ghost i: nat, b: int, data: Block) returns (overran: bool)
      requires Valid() && m.phase.Running? && i < |m.ops| && m.ops[i].passed && L.Home(b)
      modifies this`n, this`cache, this`events, this`m, block
      ensures overran == Outgrows(L, Absorb(old(m.lh), b))
      ensures var now := old(n) + if b in old(block[..n]) then 0 else 1;
              && (overran <==> now > LOGSIZE || now >= L.size)
              && (now <= LOGSIZE ==>
                    && n == now && cache == old(cache)[b := data] && b in block[..n]
                    && forall k :: 0 <= k < old(n) ==> block[k] == old(block[k]))
      ensures !overran ==> Valid()
      ensures |Absorb(old(m.lh), b)| <= LOGSIZE ==> HasRun() && Fields() && m == Next(L, old(m), Append(i, b, data))
      ensures overran ==> old(m).greedy || !WithinBudget(old(m).ops[i], b) || 2 <= L.size <= LOGSIZE
    {
      AppendFacts(i, b, data);
      var k := FindBlock(b);
      ghost var before := block[..n];
      if k == LOGSIZE {
        return true;
      }
      block[k] := b;
      if k == n {
        n := n + 1;
      }
      assert block[..n] == Absorb(before, b);
      cache := cache[b := data];
      Did(Append(i, b, data));
      return n >= L.size;
    }

    /** end_op() by the i-th active system call; the last one out commits. */
    method EndOp(ghost i: nat) returns (panicked: bool)
      requires Valid() && i < |m.ops| && !m.ops[i].passed
      modifies this`n, this`outstanding, this`disk, this`cache, this`events, this`m, this`committing
      ensures Valid() && !panicked && m.phase.Running? && old(events) <= events
      ensures |m.ops| == old(|m.ops|) - 1 && outstanding == old(outstanding) - 1
      ensures if outstanding > 0 then n == old(n) && disk == old(disk) && cache == old(cache)
              else n == 0 && cache == map[]
      ensures m.done + m.pending == old(m.done + m.pending)
      ensures m.ops == [] ==> m.pending == [] && SameHome(L, disk, Perform(Recover(L, s0.disk), m.done))
    {
      ActiveFacts();
      outstanding := outstanding - 1;
      if committing {
        return true;
      }
      Did(End(i));
      if outstanding == 0 {
        committing := true;
        Commit();
        committing := false;
        Did(Step);
      }
      return false;
    }

    // ------------------------- what each piece of code may rely on at its point

    /** A round of write_log. */
    lemma WritingLogFacts()
      requires HasRun() && !m.overrun && m.phase.WritingLog?
      ensures Enabled(L, m, Step)
      ensures m.phase.tail < |m.lh| && L.Home(m.lh[m.phase.tail])
      ensures m.cache - {L.start + m.phase.tail + 1} == m.cache
    {
      Unfold();
      RunKeeps(L, s0, events);
      var d0 := Recover(L, s0.disk);
      CopyReady(L, m, Perform(d0, m.done), Perform(d0, m.done + m.pending));
    }

    /** A round of install_trans. */
    lemma InstallingFacts()
      requires HasRun() && !m.overrun && (m.phase.Installing? || m.phase.Reinstalling?)
      ensures Enabled(L, m, Step)
      ensures m.phase.tail < |m.lh| && L.Home(m.lh[m.phase.tail]) && m.phase.tail + 1 < L.size
      ensures L.start + m.phase.tail + 1 !in m.cache
      ensures m.phase.Reinstalling? ==> m.cache == map[]
    {
      Unfold();
      RunKeeps(L, s0, events);
      assert L.Home(m.lh[m.phase.tail]);
    }

    lemma ClearingFacts()
      requires HasRun() && !m.overrun && (m.phase.ClearingHead? || m.phase.ReclearingHead?)
      ensures L.Wf() && |m.disk| == L.blocks && m.cache == map[]
    {
      Unfold();
      RunKeeps(L, s0, events);
    }

    lemma WritingHeadFacts()
      requires HasRun() && !m.overrun && m.phase.WritingHead?
      ensures L.Wf() && |m.disk| == L.blocks && L.start !in m.cache && Enabled(L, m, Step)
    {
      Unfold();
      RunKeeps(L, s0, events);
    }

    lemma CommittedFacts()
      requires HasRun() && !m.overrun && m.phase.Committed?
      ensures m.lh == [] && m.cache == map[] && m.pending == []
              && SameHome(L, m.disk, Perform(Recover(L, s0.disk), m.done))
    {
      Unfold();
      RunKeeps(L, s0, events);
    }

    lemma CrashedFacts()
      requires HasRun() && !m.overrun && m.phase.Crashed?
      ensures m.cache == map[] && m.ops == [] && m.pending == [] && L.Wf() && |m.disk| == L.blocks
              && 0 <= m.disk[L.start][0] <= LOGSIZE
    {
      Unfold();
      RunKeeps(L, s0, events);
    }

    lemma RunningFacts()
      requires HasRun() && !m.overrun && m.phase.Running? && m.lh == []
      ensures m.pending == [] ==> SameHome(L, m.disk, Perform(Recover(L, s0.disk), m.done))
    {
      Unfold();
      RunKeeps(L, s0, events);
      assert m.pending == [] ==> m.done + m.pending == m.done;
    }

    /** While a system call is active no commit and no recovery is under way. */
    lemma ActiveFacts()
      requires HasRun() && !m.overrun && m.ops != []
      ensures m.phase.Running?
    {
      Unfold();
      RunKeeps(L, s0, events);
    }

    /** An append outgrows the log only past a budget or in a small log. */
    lemma AppendFacts(i: nat, b: int, data: Block)
      requires HasRun() && Enabled(L, m, Append(i, b, data))
      ensures Outgrows(L, Absorb(m.lh, b)) ==> m.greedy || !WithinBudget(m.ops[i], b) || 2 <= L.size <= LOGSIZE
    {
      Unfold();
      RunReserves(L, s0, events);
      AppendKeepsReserved(L, m, i, b, data);
    }
  }

  lemma CopyReady(L: Layout, s: State, durable: Disk, newest: Disk)
    requires DiskInv(L, s, durable, newest) && s.phase.WritingLog?
    ensures Enabled(L, s, Step)
    ensures s.phase.tail < |s.lh| && L.Home(s.lh[s.phase.tail])
    ensures s.cache - {L.start + s.phase.tail + 1} == s.cache
  {
    assert L.Home(s.lh[s.phase.tail]);
  }
}
