/** The commit of kernel/log.c run on the real buffer cache. With nobody else holding a
  buffer, either every buffer is pinned and the first bread panics before anything is
  written, or no bread fails and the disk ends up with the newest contents of every
  logged block. Each bwrite is one step of the log machine, and the disk recovers from
  a crash after any of them.
 */
module BioCommit {
  import opened Common
  import opened LogMachine
  import opened LogSafety
  import opened Bio

  /** Nobody references a buffer, and none is half modified. */
  ghost predicate Quiet(c: Cache)
    reads c, c.bufs, c.next, c.prev
  {
    c.Valid() && c.touched == {} && forall i {:trigger c.bufs[i]} :: 0 <= i < c.n ==> c.bufs[i].refcnt == 0
  }

  /** The dirty buffers are exactly those of the blocks in S. */
  ghost predicate DirtyAre(bufs: seq<Buf>, S: set<nat>) {
    && (forall i {:trigger bufs[i]} :: 0 <= i < |bufs| && bufs[i].dirty ==>
         bufs[i].dev == ROOTDEV && bufs[i].blockno in S)
    && (forall b :: b in S ==> Pinned(bufs, b))
  }

  // ----------------------------------------------------- counting buffers

  lemma {:induction false} BlocksOfBufs(bufs: seq<Buf>, D: set<nat>, S: set<nat>)
    requires forall i :: i in D ==> i < |bufs| && bufs[i].dev != 0 && bufs[i].blockno in S
    requires forall i, j {:trigger bufs[i], bufs[j]} :: i in D && j in D && i != j ==>
             bufs[i].blockno != bufs[j].blockno
    ensures |D| <= |S|
    decreases D
  {
    if D != {} {
      var i :| i in D;
      BlocksOfBufs(bufs, D - {i}, S - {bufs[i].blockno});
    }
  }

  lemma {:induction false} BufsOfBlocks(bufs: seq<Buf>, D: set<nat>, S: set<nat>)
    requires forall b :: b in S ==> exists i :: i in D && i < |bufs| && bufs[i].blockno == b
    ensures |S| <= |D|
    decreases S
  {
    if S != {} {
      var b :| b in S;
      var i :| i in D && i < |bufs| && bufs[i].blockno == b;
      forall c | c in S - {b} ensures exists j :: j in D - {i} && j < |bufs| && bufs[j].blockno == c {
        var j :| j in D && j < |bufs| && bufs[j].blockno == c;
        assert j in D - {i};
      }
      BufsOfBlocks(bufs, D - {i}, S - {b});
    }
  }

  lemma {:induction false} FullSet(n: nat, D: set<nat>)
    requires forall i :: i in D ==> i < n
    ensures |D| <= n
    ensures |D| == n <==> forall i :: 0 <= i < n ==> i in D
  {
    if n > 0 {
      var rest := D - {n - 1};
      FullSet(n - 1, rest);
      assert |rest| == if n - 1 in D then |D| - 1 else |D| by {
        assert n - 1 !in D ==> rest == D;
      }
      assert forall i :: 0 <= i < n - 1 ==> (i in D <==> i in rest);
    }
  }

  /** With nobody holding a buffer, one can be recycled exactly when fewer blocks are
      pinned than there are buffers. */
  lemma SomeEligible(bufs: seq<Buf>, S: set<nat>)
    requires Unique(bufs) && DirtyAre(bufs, S)
    requires forall i {:trigger bufs[i]} :: 0 <= i < |bufs| ==> bufs[i].refcnt == 0
    ensures (exists i :: 0 <= i < |bufs| && Eligible(bufs[i])) <==> |S| < |bufs|
  {
    var D := set i: nat | i < |bufs| && bufs[i].dirty;
    forall i, j | i in D && j in D && i != j ensures bufs[i].blockno != bufs[j].blockno {
      assert i < j ==> !Holds(bufs[j], bufs[i].dev, bufs[i].blockno);
      assert j < i ==> !Holds(bufs[i], bufs[j].dev, bufs[j].blockno);
    }
    BlocksOfBufs(bufs, D, S);
    forall b | b in S ensures exists i :: i in D && i < |bufs| && bufs[i].blockno == b {
      PinnedBy(bufs, S, b);
      var i :| 0 <= i < |bufs| && bufs[i].dirty && Holds(bufs[i], ROOTDEV, b);
      assert i in D;
    }
    BufsOfBlocks(bufs, D, S);
    FullSet(|bufs|, D);
  }

  // ------------------------------------------------------ bread and brelse

  /** bread by a process that finds the buffer unlocked. */
  method Bread(c: Cache, pid: nat, b: nat) returns (r: Option<nat>)
    requires c.Valid() && pid != 0 && b < |c.disk|
    requires forall i :: 0 <= i < c.n && Holds(c.bufs[i], ROOTDEV, b) ==> c.bufs[i].holder == 0
    modifies c, c.bufs
    ensures c.Valid() && c.disk == old(c.disk) && c.newest == old(c.newest) && c.touched == old(c.touched)
    ensures c.history == old(c.history)
    ensures r.None? ==> c.bufs[..] == old(c.bufs[..])
    ensures r.None? <==> forall i :: 0 <= i < c.n ==> !old(Holds(c.bufs[i], ROOTDEV, b)) && !old(Eligible(c.bufs[i]))
    ensures r.Some? ==>
              && r.value < c.n && c.bufs[r.value] ==
                   Buf(ROOTDEV, b, true, c.bufs[r.value].dirty, old(c.bufs[r.value].refcnt) + 1, pid, c.newest[b])
              && c.bufs[r.value].dirty == old(c.bufs[r.value].dirty)
              && old(Holds(c.bufs[r.value], ROOTDEV, b) || Eligible(c.bufs[r.value]))
              && (old(Holds(c.bufs[r.value], ROOTDEV, b)) || forall i :: 0 <= i < c.n ==>
                   !old(Holds(c.bufs[i], ROOTDEV, b)))
              && c.bufs[..] == old(c.bufs[..])[r.value := c.bufs[r.value]]
              && r.value !in c.touched
  {
    r := c.Bget(ROOTDEV, b);
    if r.Some? {
      var i := r.value;
      assert BufOk(old(c.bufs[..])[i], i in c.touched, c.newest);
      assert c.bufs[i].holder == 0;
      assert BufOk(c.bufs[..][i], i in c.touched, c.newest);
      var ok := c.Lock(i, pid);
      c.Fill(i, pid);
    }
  }

  /** brelse by the lock holder, who has logged or written what it changed. */
  method Brelse(c: Cache, pid: nat, i: nat)
    requires c.Valid() && i < c.n && pid != 0 && c.bufs[i].holder == pid && i !in c.touched
    modifies c, c.bufs, c.next, c.prev
    ensures c.Valid() && c.disk == old(c.disk) && c.newest == old(c.newest) && c.touched == old(c.touched)
    ensures c.history == old(c.history)
    ensures c.bufs[..] == old(c.bufs[..])[i := old(c.bufs[i]).(holder := 0, refcnt := old(c.bufs[i].refcnt) - 1)]
  {
    assert BufOk(c.bufs[..][i], i in c.touched, c.newest);
    var ok := c.Unlock(i, pid);
    c.Drop(i);
  }

  // ------------------------------------------------------- copying blocks

  /** The same blocks stay pinned, but for those in `gone`. */
  lemma DirtyFrame(bufs: seq<Buf>, bufs': seq<Buf>, S: set<nat>, gone: set<nat>)
    requires DirtyAre(bufs, S) && |bufs'| == |bufs|
    requires forall i {:trigger bufs'[i]} :: 0 <= i < |bufs| ==>
               bufs'[i].dirty == (bufs[i].dirty && bufs[i].blockno !in gone)
    requires forall i {:trigger bufs'[i]} :: 0 <= i < |bufs| && bufs'[i].dirty ==>
               bufs'[i].dev == bufs[i].dev && bufs'[i].blockno == bufs[i].blockno
    ensures DirtyAre(bufs', S - gone)
  {
    forall b | b in S - gone ensures Pinned(bufs', b) {
      assert Pinned(bufs, b);
      var i :| 0 <= i < |bufs| && bufs[i].dirty && Holds(bufs[i], ROOTDEV, b);
      assert bufs'[i].dirty && Holds(bufs'[i], ROOTDEV, b);
    }
  }

  lemma PinnedBy(bufs: seq<Buf>, S: set<nat>, b: nat)
    requires DirtyAre(bufs, S) && b in S
    ensures exists i :: 0 <= i < |bufs| && bufs[i].dirty && Holds(bufs[i], ROOTDEV, b)
  {
  }

  lemma SameHolder(bufs: seq<Buf>, i: nat, j: nat, b: nat)
    requires Unique(bufs) && i < |bufs| && j < |bufs| && Holds(bufs[i], ROOTDEV, b) && Holds(bufs[j], ROOTDEV, b)
    ensures i == j
  {
  }

  /** The two breads of write_log and install_trans: a block of the log area, then a
      pinned one. They fail exactly when every buffer is pinned. */
  method BreadTwo(c: Cache, pid: nat, first: nat, second: nat, ghost S: set<nat>) returns (r: Option<(nat, nat)>)
    requires Quiet(c) && pid != 0 && DirtyAre(c.bufs[..], S)
    requires first < |c.disk| && second < |c.disk| && first !in S && second in S
    modifies c, c.bufs
    ensures c.Valid() && c.disk == old(c.disk) && c.newest == old(c.newest) && c.touched == {}
    ensures c.history == old(c.history)
    ensures r.Some? <==> |S| < c.n
    ensures r.None? ==> c.bufs[..] == old(c.bufs[..])
    ensures r.Some? ==>
              var (i, j) := r.value;
              && i < c.n && j < c.n && i != j && !old(c.bufs[i].dirty) && old(c.bufs[j].dirty)
              && c.bufs[i] == Buf(ROOTDEV, first, true, false, 1, pid, c.newest[first])
              && c.bufs[j] == Buf(ROOTDEV, second, true, true, 1, pid, c.newest[second])
              && old(Holds(c.bufs[j], ROOTDEV, second))
              && c.bufs[..] == old(c.bufs[..])[i := c.bufs[i]][j := c.bufs[j]]
  {
    PinnedBy(c.bufs[..], S, second);
    ghost var p :| 0 <= p < c.n && c.bufs[p].dirty && Holds(c.bufs[p], ROOTDEV, second);
    ghost var bufs0 := c.bufs[..];
    var one := BreadOne(c, pid, first, S);
    if one.None? {
      return None;
    }
    var i := one.value;
    var j := BreadPinned(c, pid, second, p);
    return Some((i, j));
  }

  /** bread of a block that buffer p holds, unreferenced. */
  method BreadPinned(c: Cache, pid: nat, b: nat, ghost p: nat) returns (j: nat)
    requires c.Valid() && pid != 0 && b < |c.disk| && c.touched == {} && p < c.n
    requires c.bufs[p].dirty && c.bufs[p].refcnt == 0 && Holds(c.bufs[p], ROOTDEV, b)
    modifies c, c.bufs
    ensures c.Valid() && c.disk == old(c.disk) && c.newest == old(c.newest) && c.touched == {}
    ensures c.history == old(c.history) && j == p && c.bufs[j] == Buf(ROOTDEV, b, true, true, 1, pid, c.newest[b])
    ensures c.bufs[..] == old(c.bufs[..])[j := c.bufs[j]]
  {
    forall k | 0 <= k < c.n && Holds(c.bufs[k], ROOTDEV, b) ensures c.bufs[k].holder == 0 {
      SameHolder(c.bufs[..], p, k, b);
      assert BufOk(c.bufs[..][p], false, c.newest);
    }
    var r := Bread(c, pid, b);
    j := r.value;
    SameHolder(old(c.bufs[..]), p, j, b);
  }

  /** memmove into a locked buffer, then bwrite. */
  method Put(c: Cache, pid: nat, i: nat, data: Block)
    requires c.Valid() && i < c.n && pid != 0 && c.bufs[i].holder == pid && c.bufs[i].valid
    requires c.bufs[i].dev == ROOTDEV && c.bufs[i].blockno < |c.disk|
    modifies c, c.bufs
    ensures c.Valid() && c.touched == old(c.touched) - {i}
    ensures c.bufs[..] == old(c.bufs[..])[i := old(c.bufs[i]).(data := data, dirty := false)]
    ensures c.disk == old(c.disk)[old(c.bufs[i].blockno) := data]
    ensures c.newest == old(c.newest)[old(c.bufs[i].blockno) := data] && c.history == old(c.history) + [c.disk]
  {
    c.Modify(i, pid, data);
    var ok := c.Bwrite(i, pid);
  }

  method BrelseTwo(c: Cache, pid: nat, i: nat, j: nat)
    requires c.Valid() && pid != 0 && i < c.n && j < c.n && i != j && c.touched == {}
    requires c.bufs[i].holder == pid && c.bufs[j].holder == pid && c.bufs[i].refcnt == 1 && c.bufs[j].refcnt == 1
    modifies c, c.bufs, c.next, c.prev
    ensures c.Valid() && c.touched == {} && c.disk == old(c.disk) && c.newest == old(c.newest)
    ensures c.history == old(c.history)
    ensures c.bufs[..] == old(c.bufs[..])[i := old(c.bufs[i]).(holder := 0,
            refcnt := 0)][j := old(c.bufs[j]).(holder := 0, refcnt := 0)]
  {
    Brelse(c, pid, i);
    Brelse(c, pid, j);
  }

  /** One round of write_log: the pinned block `from` is copied to log block `to`. It
      panics, before any write, exactly when every buffer is pinned. */
  method CopyToLog(c: Cache, pid: nat, to: nat, from: nat, ghost S: set<nat>) returns (panicked: bool)
    requires Quiet(c) && pid != 0 && DirtyAre(c.bufs[..], S)
    requires to < |c.disk| && from < |c.disk| && to !in S && from in S
    modifies c, c.bufs, c.next, c.prev
    ensures panicked <==> c.n <= |S|
    ensures panicked ==> c.disk == old(c.disk) && c.newest == old(c.newest) && c.history == old(c.history)
    ensures Quiet(c) && DirtyAre(c.bufs[..], S)
    ensures !panicked ==>
              && c.disk == old(c.disk)[to := old(c.newest[from])]
              && c.newest == old(c.newest)[to := old(c.newest[from])]
              && c.history == old(c.history) + [c.disk]
  {
    var r := BreadTwo(c, pid, to, from, S);
    panicked := r.None?;
    if !panicked {
      var (i, j) := r.value;
      Put(c, pid, i, c.bufs[j].data);
      BrelseTwo(c, pid, j, i);
      Copied(old(c.bufs[..]), c.bufs[..], i, j, S);
    }
  }

  lemma Copied(bufs: seq<Buf>, bufs': seq<Buf>, i: nat, j: nat, S: set<nat>)
    requires DirtyAre(bufs, S) && i < |bufs| && j < |bufs| && i != j && |bufs'| == |bufs|
    requires bufs' == bufs[i := bufs'[i]][j := bufs'[j]]
    requires !bufs[i].dirty && !bufs'[i].dirty && bufs[j].dirty && bufs'[j].dirty
    requires Holds(bufs'[j], bufs[j].dev, bufs[j].blockno)
    ensures DirtyAre(bufs', S)
  {
    DirtyFrame(bufs, bufs', S, {});
    assert S - {} == S;
  }

  /** One round of install_trans: log block `from` goes to its home, which is unpinned. */
  method InstallBlock(c: Cache, pid: nat, from: nat, to: nat, ghost S: set<nat>)
    requires Quiet(c) && pid != 0 && DirtyAre(c.bufs[..], S) && |S| < c.n
    requires to < |c.disk| && from < |c.disk| && from !in S && to in S
    modifies c, c.bufs, c.next, c.prev
    ensures Quiet(c) && DirtyAre(c.bufs[..], S - {to}) && c.history == old(c.history) + [c.disk]
    ensures c.disk == old(c.disk)[to := old(c.newest[from])] && c.newest == old(c.newest)[to := old(c.newest[from])]
  {
    var r := BreadTwo(c, pid, from, to, S);
    var (i, j) := r.value;
    Put(c, pid, j, c.bufs[i].data);
    BrelseTwo(c, pid, i, j);
    Installed(old(c.bufs[..]), c.bufs[..], i, j, to, S);
  }

  lemma Installed(bufs: seq<Buf>, bufs': seq<Buf>, i: nat, j: nat, to: nat, S: set<nat>)
    requires Unique(bufs) && DirtyAre(bufs, S) && i < |bufs| && j < |bufs| && i != j && |bufs'| == |bufs|
    requires bufs' == bufs[i := bufs'[i]][j := bufs'[j]]
    requires !bufs[i].dirty && !bufs'[i].dirty && bufs[j].dirty && !bufs'[j].dirty
    requires Holds(bufs[j], ROOTDEV, to)
    ensures DirtyAre(bufs', S - {to})
  {
    forall k | 0 <= k < |bufs| ensures bufs'[k].dirty == (bufs[k].dirty && bufs[k].blockno !in {to}) {
      assert k < j && bufs[k].dev != 0 ==> !Holds(bufs[j], bufs[k].dev, bufs[k].blockno);
      assert j < k ==> !Holds(bufs[k], bufs[j].dev, bufs[j].blockno);
    }
    DirtyFrame(bufs, bufs', S, {to});
  }

  /** write_head: read, rewrite and write the header block. */
  method WriteHead(c: Cache, pid: nat, start: nat, lh: seq<int>, ghost S: set<nat>)
    requires Quiet(c) && pid != 0 && DirtyAre(c.bufs[..], S) && |S| < c.n && |lh| <= LOGSIZE
    requires start < |c.disk| && start !in S
    modifies c, c.bufs, c.next, c.prev
    ensures Quiet(c) && DirtyAre(c.bufs[..], S) && c.history == old(c.history) + [c.disk]
    ensures var h := WithHeader(old(c.newest[start]), lh);
            c.disk == old(c.disk)[start := h] && c.newest == old(c.newest)[start := h]
  {
    var r := BreadOne(c, pid, start, S);
    var i := r.value;
    Put(c, pid, i, WithHeader(c.bufs[i].data, lh));
    Brelse(c, pid, i);
    DirtyFrame(old(c.bufs[..]), c.bufs[..], S, {});
    assert S - {} == S;
  }

  /** bread of an unpinned block: it fails exactly when every buffer is pinned. */
  method BreadOne(c: Cache, pid: nat, b: nat, ghost S: set<nat>) returns (r: Option<nat>)
    requires Quiet(c) && pid != 0 && DirtyAre(c.bufs[..], S) && b < |c.disk| && b !in S
    modifies c, c.bufs
    ensures c.Valid() && c.disk == old(c.disk) && c.newest == old(c.newest) && c.touched == {}
    ensures c.history == old(c.history)
    ensures r.Some? <==> |S| < c.n
    ensures r.None? ==> c.bufs[..] == old(c.bufs[..])
    ensures r.Some? ==>
              && r.value < c.n && !old(c.bufs[r.value].dirty)
              && c.bufs[r.value] == Buf(ROOTDEV, b, true, false, 1, pid, c.newest[b])
              && c.bufs[..] == old(c.bufs[..])[r.value := c.bufs[r.value]]
  {
    assert forall k {:trigger c.bufs[k]} :: 0 <= k < c.n ==> BufOk(c.bufs[..][k], false, c.newest) ==>
        c.bufs[k].holder == 0;
    SomeEligible(c.bufs[..], S);
    ghost var bufs0 := c.bufs[..];
    r := Bread(c, pid, b);
    if |S| < c.n {
      ghost var e :| 0 <= e < |bufs0| && Eligible(bufs0[e]);
    } else {
      assert forall i :: 0 <= i < c.n ==> !Eligible(bufs0[i]);
      assert forall i {:trigger bufs0[i]} :: 0 <= i < c.n ==> bufs0[i].dirty;
    }
  }

  // ------------------------------------------------------ the log machine

  /** The machine has this disk, and its pinned buffers, those of the blocks in S,
      hold the newest contents. */
  ghost predicate Mirrors(disk: Disk, newest: Disk, m: State, S: set<nat>) {
    && disk == m.disk && |newest| == |disk|
    && (forall b: nat {:trigger b in S} :: b in m.cache <==> b in S)
    && (forall b: nat {:trigger b in S} :: b in S ==> b < |newest| && m.cache[b] == newest[b])
    && (forall b: nat {:trigger newest[b]} :: b < |disk| && b !in S ==> newest[b] == disk[b])
  }

  /** A quiet cache mirrors the machine that has its dirty buffers pinned. */
  lemma MirrorsNow(c: Cache, m: State, S: set<nat>)
    requires c.Valid() && c.touched == {} && DirtyAre(c.bufs[..], S) && c.disk == m.disk
    requires forall b: nat :: b in m.cache <==> b in S
    requires forall i {:trigger c.bufs[i]} :: 0 <= i < c.n && c.bufs[i].dirty ==>
             m.cache[c.bufs[i].blockno] == c.bufs[i].data
    ensures Mirrors(c.disk, c.newest, m, S)
  {
    forall b: nat | b in S ensures b < |c.newest| && m.cache[b] == c.newest[b] {
      PinnedBy(c.bufs[..], S, b);
      var i :| 0 <= i < c.n && c.bufs[i].dirty && Holds(c.bufs[i], ROOTDEV, b);
      assert BufOk(c.bufs[..][i], false, c.newest);
    }
    forall b: nat | b < |c.disk| && b !in S ensures c.newest[b] == c.disk[b] {
      assert !Pinned(c.bufs[..], b);
    }
  }

  ghost function Steps(k: nat): seq<Event> {
    seq(k, _ => Step)
  }

  /** `k` steps lead from m0 to m. The quantifier keeps the run folded in proofs that
      only need to know it exists. */
  ghost predicate Stepped(L: Layout, m0: State, k: nat, m: State) {
    && L.Wf() && |m0.disk| == |m.disk| == L.blocks
    && forall es :: es == Steps(k) ==> Exec(L, m0, es) == At(m)
  }

  lemma NoStep(L: Layout, m: State)
    requires L.Wf() && |m.disk| == L.blocks
    ensures Stepped(L, m, 0, m)
  {
    assert Steps(0) == [];
  }

  lemma OneMore(L: Layout, m0: State, k: nat, m: State)
    requires Stepped(L, m0, k, m) && Enabled(L, m, Step)
    ensures Stepped(L, m0, k + 1, Next(L, m, Step))
  {
    ExecSnoc(L, m0, Steps(k), Step);
    assert Steps(k + 1) == Steps(k) + [Step];
  }

  /** The disk after `k` steps from m0. */
  ghost predicate DiskAt(L: Layout, m0: State, k: nat, d: Disk) {
    exists m :: Stepped(L, m0, k, m) && m.disk == d
  }

  /** `history` goes on from `base` with the disks of the machine's first `k` steps. */
  ghost predicate Follows(L: Layout, m0: State, base: seq<Disk>, history: seq<Disk>, k: nat) {
    && base <= history && |history| == |base| + k
    && forall i {:trigger history[i]} :: |base| <= i < |history| ==> DiskAt(L, m0, i - |base| + 1, history[i])
  }

  lemma FollowsNext(L: Layout, m0: State, base: seq<Disk>, history: seq<Disk>, k: nat, m: State)
    requires Follows(L, m0, base, history, k) && Stepped(L, m0, k + 1, m)
    ensures Follows(L, m0, base, history + [m.disk], k + 1)
  {
    var h := history + [m.disk];
    forall i | |base| <= i < |h| ensures DiskAt(L, m0, i - |base| + 1, h[i]) {
      assert i < |history| ==> h[i] == history[i];
    }
  }

  lemma StepCopy(L: Layout, m0: State, k: nat, m: State, disk: Disk, newest: Disk, lh: seq<nat>, tail: nat)
    returns (m': State)
    requires Stepped(L, m0, k, m) && Mirrors(disk, newest, m, AsSet(lh)) && LogList(L, lh)
    requires m.lh == lh && tail < |lh| && m.phase == WritingLog(tail)
    ensures Stepped(L, m0, k + 1, m') && m'.lh == lh
    ensures m'.phase == AfterCopy(tail + 1, |lh|, WritingLog(tail + 1), WritingHead)
    ensures L.Home(lh[tail])
    ensures var to := L.start + tail + 1;
            Mirrors(disk[to := newest[lh[tail]]], newest[to := newest[lh[tail]]], m', AsSet(lh))
  {
    InLog(L, lh, tail);
    assert Read(m, lh[tail]) == newest[lh[tail]];
    OneMore(L, m0, k, m);
    m' := Next(L, m, Step);
  }

  lemma StepInstall(L: Layout, m0: State, k: nat, m: State, disk: Disk, newest: Disk, lh: seq<nat>, tail: nat)
    returns (m': State)
    requires LogList(L, lh) && tail < |lh|
    requires Stepped(L, m0, k, m) && Mirrors(disk, newest, m, AsSet(lh[tail..]))
    requires m.lh == lh && m.phase == Installing(tail) && SlotsHold(L, newest, newest, lh, |lh|)
    ensures Stepped(L, m0, k + 1, m') && m'.lh == lh
    ensures m'.phase == AfterCopy(tail + 1, |lh|, Installing(tail + 1), ClearingHead)
    ensures L.Home(lh[tail])
    ensures var from := L.start + tail + 1;
            && Mirrors(disk[lh[tail] := newest[from]], newest, m', AsSet(lh[tail + 1..]))
            && newest[lh[tail] := newest[from]] == newest
  {
    Suffix(L, lh, tail);
    assert newest[L.start + tail + 1] == Slot(L, disk, tail);
    assert Slot(L, newest, tail) == newest[lh[tail]];
    OneMore(L, m0, k, m);
    m' := Next(L, m, Step);
  }

  /** The header write that commits, and the one that clears. */
  lemma StepHead(L: Layout, m0: State, k: nat, m: State, disk: Disk, newest: Disk, lh: seq<nat>)
    returns (m': State)
    requires Stepped(L, m0, k, m) && Mirrors(disk, newest, m, AsSet(lh)) && LogList(L, lh)
    requires (m.phase.WritingHead? && m.lh == lh != []) || (m.phase.ClearingHead? && lh == [])
    ensures Stepped(L, m0, k + 1, m') && m'.lh == lh
    ensures m'.phase == if lh == [] then Committed else Installing(0)
    ensures var h := WithHeader(newest[L.start], lh);
            Mirrors(disk[L.start := h], newest[L.start := h], m', AsSet(lh))
  {
    assert forall i :: 0 <= i < |lh| ==> L.Home(lh[i]);
    assert L.start !in AsSet(lh);
    OneMore(L, m0, k, m);
    m' := Next(L, m, Step);
  }

  lemma {:induction false} ExecConcat(L: Layout, m0: State, es: seq<Event>, more: seq<Event>)
    requires L.Wf() && |m0.disk| == L.blocks && Exec(L, m0, es).At?
    ensures Exec(L, m0, es + more) == Exec(L, Exec(L, m0, es).state, more)
  {
    if more == [] {
      assert es + more == es;
    } else {
      var before, e := more[..|more| - 1], more[|more| - 1];
      ExecConcat(L, m0, es, before);
      ExecLast(L, m0, es + before, e);
      ExecLast(L, Exec(L, m0, es).state, before, e);
      assert more == before + [e] && es + more == (es + before) + [e];
    }
  }

  /** One event more from where a run has come to. */
  function Then(L: Layout, at: Outcome, e: Event): Outcome
    requires L.Wf() && (at.At? ==> |at.state.disk| == L.blocks)
  {
    if at.At? && Enabled(L, at.state, e) then At(Next(L, at.state, e)) else Stuck
  }

  lemma ExecLast(L: Layout, m0: State, es: seq<Event>, e: Event)
    requires L.Wf() && |m0.disk| == L.blocks
    ensures Exec(L, m0, es + [e]) == Then(L, Exec(L, m0, es), e)
  {
    assert (es + [e])[..|es|] == es;
  }

  lemma StepKeepsOverrun(L: Layout, m: State)
    requires L.Wf() && |m.disk| == L.blocks && Enabled(L, m, Step)
    ensures Next(L, m, Step).overrun == m.overrun
  {
  }

  lemma {:induction false} StepsKeepOverrun(L: Layout, m0: State, k: nat)
    requires L.Wf() && |m0.disk| == L.blocks && Exec(L, m0, Steps(k)).At?
    ensures Exec(L, m0, Steps(k)).state.overrun == m0.overrun
  {
    if k > 0 {
      assert Steps(k) == Steps(k - 1) + [Step];
      ExecLast(L, m0, Steps(k - 1), Step);
      StepsKeepOverrun(L, m0, k - 1);
      StepKeepsOverrun(L, Exec(L, m0, Steps(k - 1)).state);
    }
  }

  /** Steps from a state reached from boot, with the blocks within the log. */
  lemma StepsAtomic(L: Layout, s0: State, es: seq<Event>, m0: State, k: nat, m: State)
    requires Init(L, s0) && Exec(L, s0, es) == At(m0) && !m0.overrun && Stepped(L, m0, k, m)
    ensures AtomicAt(L, s0, m)
  {
    assert Exec(L, m0, Steps(k)) == At(m);
    ExecConcat(L, s0, es, Steps(k));
    StepsKeepOverrun(L, m0, k);
    CrashAtomicity(L, s0, es + Steps(k));
  }

  /** A commit that starts in a state reached from boot, with its blocks within the log,
      is crash atomic after each of its block writes. */
  lemma CommitAtomic(L: Layout, s0: State, es: seq<Event>, m0: State, base: seq<Disk>, history: seq<Disk>, k: nat,
                     i: nat)
    returns (m: State)
    requires Init(L, s0) && Exec(L, s0, es) == At(m0) && !m0.overrun
    requires Follows(L, m0, base, history, k) && |base| <= i < |history|
    ensures m.disk == history[i] && Stepped(L, m0, i - |base| + 1, m) && AtomicAt(L, s0, m)
  {
    assert DiskAt(L, m0, i - |base| + 1, history[i]);
    m :| Stepped(L, m0, i - |base| + 1, m) && m.disk == history[i];
    StepsAtomic(L, s0, es, m0, i - |base| + 1, m);
  }

  // ---------------------------------------------------------- the commit

  ghost function AsSet(lh: seq<nat>): set<nat> {
    set b | b in lh
  }

  lemma {:induction false} AsSetSize(lh: seq<nat>)
    ensures |AsSet(lh)| <= |lh| && (Distinct(lh) ==> |AsSet(lh)| == |lh|)
  {
    if lh != [] {
      var rest := lh[..|lh| - 1];
      AsSetSize(rest);
      assert AsSet(lh) == AsSet(rest) + {lh[|lh| - 1]};
    }
  }

  ghost predicate SlotsHold(L: Layout, d: Disk, newest: Disk, lh: seq<nat>, k: nat)
    requires L.Wf() && |d| == |newest| == L.blocks && LogList(L, lh) && k <= |lh|
  {
    forall i :: 0 <= i < k ==> Slot(L, d, i) == newest[lh[i]]
  }

  lemma InLog(L: Layout, lh: seq<nat>, tail: nat)
    requires L.Wf() && (forall i :: 0 <= i < |lh| ==> L.Home(lh[i])) && tail < |lh| && tail + 1 < L.size
    ensures L.Home(lh[tail]) && lh[tail] in AsSet(lh) && L.start + tail + 1 !in AsSet(lh)
  {
    assert forall i :: 0 <= i < |lh| ==> L.Home(lh[i]);
  }

  /** write_log has copied `tail` blocks, and the machine as many. The quantifier keeps
      the rest folded where only the cache matters. */
  ghost predicate Copying(disk: Disk, newest: Disk, history: seq<Disk>, L: Layout, lh: seq<nat>, tail: nat, m0: State,
                          m: State, d0: Disk, n0: Disk, base: seq<Disk>) {
    && |disk| == |newest| == L.blocks
    && forall t: nat {:trigger Stepped(L, m0, t, m)} :: t == tail ==>
         && Stepped(L, m0, t, m) && LogList(L, lh) && t <= |lh| && Mirrors(disk, newest, m, AsSet(lh))
         && m.lh == lh && m.phase == AfterCopy(t, |lh|, WritingLog(t), WritingHead)
         && SameHome(L, disk, d0) && SameHome(L, newest, n0) && SlotsHold(L, newest, n0, lh, t)
         && Follows(L, m0, base, history, t)
  }

  /** The blocks to commit: each once, at their homes, as many as a header names. They
      fit in the log area, or pin every buffer. */
  ghost predicate ToCommit(L: Layout, lh: seq<nat>, nbuf: nat) {
    && L.Wf() && Distinct(lh) && |lh| <= LOGSIZE && (forall i :: 0 <= i < |lh| ==> L.Home(lh[i]))
    && (|lh| < L.size || (nbuf <= |lh| && 2 <= L.size))
  }

  /** Where write_log is in round `tail`: before its first bread if every buffer is
      pinned, else it has copied `tail` blocks. */
  ghost predicate Ready(c: Cache, L: Layout, lh: seq<nat>, tail: nat, m0: State, m: State, d0: Disk, n0: Disk,
                        base: seq<Disk>)
    reads c
  {
    if |lh| < c.n then Copying(c.disk, c.newest, c.history, L, lh, tail, m0, m, d0, n0, base)
    else tail == 0 && |c.disk| == L.blocks && c.disk == d0 && c.newest == n0 && c.history == base
  }

  /** What one round of write_log brings, on the machine and on the cache. */
  lemma CopyStep(d: Disk, n: Disk, history: seq<Disk>, L: Layout, lh: seq<nat>, tail: nat, m0: State, m: State,
                 d0: Disk, n0: Disk, base: seq<Disk>)
    returns (m': State)
    requires tail < |lh| && Copying(d, n, history, L, lh, tail, m0, m, d0, n0, base)
    ensures L.Home(lh[tail]) && L.start + tail + 1 < |d|
    ensures var d', n' := d[L.start + tail + 1 := n[lh[tail]]], n[L.start + tail + 1 := n[lh[tail]]];
            Copying(d', n', history + [d'], L, lh, tail + 1, m0, m', d0, n0, base)
  {
    assert Stepped(L, m0, tail, m);
    m' := StepCopy(L, m0, tail, m, d, n, lh, tail);
    FollowsNext(L, m0, base, history, tail, m');
    CopyRound(L, d, n, d0, n0, lh, tail);
  }

  /** One round of write_log, which is one step of the machine. */
  method WriteLogRound(c: Cache, pid: nat, L: Layout, lh: seq<nat>, tail: nat, ghost m0: State, ghost m: State,
                       ghost d0: Disk, ghost n0: Disk, ghost base: seq<Disk>)
    returns (panicked: bool, ghost m': State)
    requires Quiet(c) && pid != 0 && DirtyAre(c.bufs[..], AsSet(lh)) && ToCommit(L, lh, c.n)
    requires tail < |lh| && Ready(c, L, lh, tail, m0, m, d0, n0, base)
    modifies c, c.bufs, c.next, c.prev
    ensures panicked <==> c.n <= |lh|
    ensures Quiet(c) && DirtyAre(c.bufs[..], AsSet(lh))
    ensures Ready(c, L, lh, if panicked then 0 else tail + 1, m0, m', d0, n0, base)
  {
    InLog(L, lh, tail);
    AsSetSize(lh);
    m' := m;
    if |lh| < c.n {
      m' := CopyStep(c.disk, c.newest, c.history, L, lh, tail, m0, m, d0, n0, base);
    }
    panicked := CopyToLog(c, pid, L.start + tail + 1, lh[tail], AsSet(lh));
  }

  method WriteLog(c: Cache, pid: nat, L: Layout, lh: seq<nat>, ghost m0: State)
    returns (panicked: bool, ghost m: State)
    requires Quiet(c) && pid != 0 && DirtyAre(c.bufs[..], AsSet(lh)) && ToCommit(L, lh, c.n)
    requires lh != [] && Ready(c, L, lh, 0, m0, m0, c.disk, c.newest, c.history)
    modifies c, c.bufs, c.next, c.prev
    ensures panicked <==> c.n <= |lh|
    ensures panicked ==> c.disk == old(c.disk) && c.newest == old(c.newest) && c.history == old(c.history)
    ensures Quiet(c) && DirtyAre(c.bufs[..], AsSet(lh))
    ensures !panicked ==>
              Copying(c.disk, c.newest, c.history, L, lh, |lh|, m0, m, old(c.disk), old(c.newest), old(c.history))
  {
    ghost var d0, n0, base := c.disk, c.newest, c.history;
    var tail := 0;
    m := m0;
    panicked := false;
    while tail < |lh|
      invariant 0 <= tail <= |lh| && (c.n <= |lh| ==> tail == 0)
      invariant Quiet(c) && DirtyAre(c.bufs[..], AsSet(lh)) && Ready(c, L, lh, tail, m0, m, d0, n0, base)
    {
      panicked, m := WriteLogRound(c, pid, L, lh, tail, m0, m, d0, n0, base);
      if panicked {
        return;
      }
      tail := tail + 1;
    }
  }

  lemma CopyRound(L: Layout, d: Disk, n: Disk, d0: Disk, n0: Disk, lh: seq<nat>, tail: nat)
    requires L.Wf() && LogList(L, lh) && tail < |lh| && SameHome(L, d, d0) && SameHome(L, n, n0)
    requires SlotsHold(L, n, n0, lh, tail) && L.Home(lh[tail])
    ensures var to, v := L.start + tail + 1, n[lh[tail]];
            && SameHome(L, d[to := v], d0) && SameHome(L, n[to := v], n0) && SlotsHold(L, n[to := v], n0, lh, tail + 1)
  {
  }

  lemma Suffix(L: Layout, lh: seq<nat>, tail: nat)
    requires L.Wf() && LogList(L, lh) && tail < |lh|
    ensures L.Home(lh[tail]) && lh[tail] in AsSet(lh[tail..])
    ensures AsSet(lh[tail..]) - {lh[tail]} == AsSet(lh[tail + 1..])
    ensures |AsSet(lh[tail..])| <= |AsSet(lh)|
    ensures L.start + tail + 1 !in AsSet(lh[tail..])
  {
    assert lh[tail..] == [lh[tail]] + lh[tail + 1..];
    Smaller(AsSet(lh[tail..]), AsSet(lh));
    assert forall i :: 0 <= i < |lh| ==> L.Home(lh[i]);
  }

  /** install_trans has copied `tail` blocks, and the machine as many, after `j` steps. The
      quantifier keeps the machine's state folded where only the cache matters. */
  ghost predicate Settling(disk: Disk, newest: Disk, L: Layout, lh: seq<nat>, tail: nat, m0: State, j: nat, m: State) {
    && L.Wf() && |disk| == |newest| == L.blocks && LogList(L, lh) && tail <= |lh|
    && Stepped(L, m0, j + tail, m)
    && forall t: nat {:trigger lh[t..]} :: t == tail ==>
         && Mirrors(disk, newest, m, AsSet(lh[t..]))
         && m.lh == lh && m.phase == AfterCopy(t, |lh|, Installing(t), ClearingHead)
         && SlotsHold(L, newest, newest, lh, |lh|)
  }

  lemma BeginSettling(disk: Disk, newest: Disk, L: Layout, lh: seq<nat>, m0: State, j: nat, m: State)
    requires L.Wf() && |disk| == |newest| == L.blocks && LogList(L, lh) && lh != [] && Stepped(L, m0, j, m)
    requires Mirrors(disk, newest, m, AsSet(lh)) && m.lh == lh && m.phase == Installing(0)
    requires SlotsHold(L, newest, newest, lh, |lh|)
    ensures Settling(disk, newest, L, lh, 0, m0, j, m)
  {
    assert lh[0..] == lh;
  }

  /** One round of install_trans is one step of the machine. */
  lemma SettleOne(disk: Disk, newest: Disk, history: seq<Disk>, L: Layout, lh: seq<nat>, tail: nat, m0: State,
                  j: nat, m: State, base: seq<Disk>)
    returns (m': State)
    requires tail < |lh| && Settling(disk, newest, L, lh, tail, m0, j, m) && Follows(L, m0, base, history, j + tail)
    ensures L.Home(lh[tail]) && L.start + tail + 1 < L.blocks
    ensures Settling(disk[lh[tail] := newest[L.start + tail + 1]], newest, L, lh, tail + 1, m0, j, m')
    ensures Follows(L, m0, base, history + [disk[lh[tail] := newest[L.start + tail + 1]]], j + tail + 1)
    ensures newest[lh[tail] := newest[L.start + tail + 1]] == newest
  {
    assert lh[tail..] == lh[tail..];
    m' := StepInstall(L, m0, j + tail, m, disk, newest, lh, tail);
    FollowsNext(L, m0, base, history, j + tail, m');
  }

  method InstallRound(c: Cache, pid: nat, L: Layout, lh: seq<nat>, tail: nat, ghost m0: State, ghost j: nat,
                      ghost m: State, ghost base: seq<Disk>)
    returns (ghost m': State)
    requires tail < |lh| && Settling(c.disk, c.newest, L, lh, tail, m0, j, m)
    requires Quiet(c) && pid != 0 && DirtyAre(c.bufs[..], AsSet(lh[tail..])) && |AsSet(lh)| < c.n
    requires Follows(L, m0, base, c.history, j + tail)
    modifies c, c.bufs, c.next, c.prev
    ensures Quiet(c) && DirtyAre(c.bufs[..], AsSet(lh[tail + 1..])) && c.newest == old(c.newest)
    ensures Settling(c.disk, c.newest, L, lh, tail + 1, m0, j, m')
    ensures Follows(L, m0, base, c.history, j + tail + 1)
  {
    Suffix(L, lh, tail);
    m' := SettleOne(c.disk, c.newest, c.history, L, lh, tail, m0, j, m, base);
    InstallBlock(c, pid, L.start + tail + 1, lh[tail], AsSet(lh[tail..]));
  }

  method InstallTrans(c: Cache, pid: nat, L: Layout, lh: seq<nat>, ghost m0: State, ghost j: nat, ghost m1: State,
                      ghost base: seq<Disk>)
    returns (ghost m: State)
    requires Quiet(c) && pid != 0 && DirtyAre(c.bufs[..], AsSet(lh)) && |AsSet(lh)| < c.n
    requires lh != [] && Settling(c.disk, c.newest, L, lh, 0, m0, j, m1) && Follows(L, m0, base, c.history, j)
    modifies c, c.bufs, c.next, c.prev
    ensures Quiet(c) && DirtyAre(c.bufs[..], {}) && Settling(c.disk, c.newest, L, lh, |lh|, m0, j, m)
    ensures c.newest == old(c.newest) && Follows(L, m0, base, c.history, j + |lh|)
  {
    var tail := 0;
    m := m1;
    assert lh[0..] == lh;
    while tail < |lh|
      invariant 0 <= tail <= |lh|
      invariant Quiet(c) && DirtyAre(c.bufs[..], AsSet(lh[tail..]))
      invariant Settling(c.disk, c.newest, L, lh, tail, m0, j, m) && Follows(L, m0, base, c.history, j + tail)
      invariant c.newest == old(c.newest)
    {
      m := InstallRound(c, pid, L, lh, tail, m0, j, m, base);
      tail := tail + 1;
    }
    assert lh[tail..] == [];
  }

  lemma NothingPinned(bufs: seq<Buf>, disk: Disk, newest: Disk, touched: set<nat>)
    requires DataOk(bufs, disk, newest, touched) && DirtyAre(bufs, {})
    ensures disk == newest
  {
  }

  /** The machine is about to commit what the cache has pinned. */
  ghost predicate Starts(c: Cache, L: Layout, lh: seq<nat>, m0: State)
    reads c, c.bufs
  {
    && L.Wf() && |c.disk| == L.blocks && c.disk == m0.disk && m0.lh == lh && m0.phase == WritingLog(0)
    && (forall b: nat :: b in m0.cache <==> b in AsSet(lh))
    && forall i {:trigger c.bufs[i]} :: 0 <= i < c.bufs.Length && c.bufs[i].dirty ==>
         c.bufs[i].blockno in m0.cache && m0.cache[c.bufs[i].blockno] == c.bufs[i].data
  }

  /** commit() while nobody else holds a buffer. An empty transaction changes nothing.
      With every buffer pinned the first bread panics and nothing is written. Else no
      bread fails, every pinned buffer is released, each home block of the disk gets its
      newest contents, and the disk goes through the machine's steps from `m0` on. */
  method Commit(c: Cache, pid: nat, L: Layout, lh: seq<nat>, ghost m0: State) returns (panicked: bool, ghost m: State)
    requires Quiet(c) && pid != 0 && DirtyAre(c.bufs[..], AsSet(lh)) && ToCommit(L, lh, c.n)
    requires lh != [] ==> Starts(c, L, lh, m0)
    modifies c, c.bufs, c.next, c.prev
    ensures panicked <==> lh != [] && c.n <= |lh|
    ensures Quiet(c) && DirtyAre(c.bufs[..], if panicked then AsSet(lh) else {})
    ensures panicked || lh == [] ==> c.disk == old(c.disk) && c.newest == old(c.newest) && c.history == old(c.history)
    ensures !panicked && lh != [] ==>
              && |c.disk| == L.blocks && SameHome(L, c.disk, old(c.newest)) && c.newest == c.disk
              && Header(c.disk[L.start]) == []
              && Stepped(L, m0, 2 * |lh| + 2, m) && m.phase.Committed? && Mirrors(c.disk, c.newest, m, {})
              && Follows(L, m0, old(c.history), c.history, 2 * |lh| + 2)
  {
    m := m0;
    if lh == [] {
      assert AsSet(lh) == {};
      return false, m;
    }
    AsSetSize(lh);
    MirrorsNow(c, m0, AsSet(lh));
    NoStep(L, m0);
    panicked, m := WriteLog(c, pid, L, lh, m0);
    if !panicked {
      m := Finish(c, pid, L, lh, m0, m, old(c.disk), old(c.newest), old(c.history));
    }
  }

  /** commit() from its first write_head on. */
  method Finish(c: Cache, pid: nat, L: Layout, lh: seq<nat>, ghost m0: State, ghost m1: State, ghost d0: Disk,
                ghost n0: Disk, ghost base: seq<Disk>)
    returns (ghost m: State)
    requires Quiet(c) && pid != 0 && DirtyAre(c.bufs[..], AsSet(lh)) && |AsSet(lh)| < c.n
    requires lh != [] && Copying(c.disk, c.newest, c.history, L, lh, |lh|, m0, m1, d0, n0, base)
    modifies c, c.bufs, c.next, c.prev
    ensures Quiet(c) && DirtyAre(c.bufs[..], {}) && L.Wf() && |c.disk| == L.blocks
    ensures SameHome(L, c.disk, n0) && c.newest == c.disk
    ensures Header(c.disk[L.start]) == []
    ensures Stepped(L, m0, 2 * |lh| + 2, m) && m.phase.Committed? && Mirrors(c.disk, c.newest, m, {})
    ensures Follows(L, m0, base, c.history, 2 * |lh| + 2)
  {
    assert Stepped(L, m0, |lh|, m1);
    m := CommitHead(c, pid, L, lh, m0, |lh|, m1, n0, base);
    BeginSettling(c.disk, c.newest, L, lh, m0, |lh| + 1, m);
    m := InstallTrans(c, pid, L, lh, m0, |lh| + 1, m, base);
    assert AsSet(lh[|lh|..]) == {};
    m := ClearHead(c, pid, L, m0, 2 * |lh| + 1, m, base);
    NothingPinned(c.bufs[..], c.disk, c.newest, c.touched);
  }

  method CommitHead(c: Cache, pid: nat, L: Layout, lh: seq<nat>, ghost m0: State, ghost k: nat, ghost m: State,
                    ghost n0: Disk, ghost base: seq<Disk>)
    returns (ghost m': State)
    requires Quiet(c) && pid != 0 && DirtyAre(c.bufs[..], AsSet(lh)) && |AsSet(lh)| < c.n
    requires lh != [] && LogList(L, lh) && Stepped(L, m0, k, m) && Mirrors(c.disk, c.newest, m, AsSet(lh))
    requires m.phase.WritingHead? && m.lh == lh && Follows(L, m0, base, c.history, k)
    requires SameHome(L, c.newest, n0) && SlotsHold(L, c.newest, n0, lh, |lh|)
    modifies c, c.bufs, c.next, c.prev
    ensures Quiet(c) && DirtyAre(c.bufs[..], AsSet(lh)) && |c.disk| == L.blocks
    ensures Stepped(L, m0, k + 1, m') && Mirrors(c.disk, c.newest, m', AsSet(lh)) && m'.phase == Installing(0)
            && m'.lh == lh
    ensures SameHome(L, c.newest, n0) && SlotsHold(L, c.newest, c.newest, lh, |lh|)
    ensures Follows(L, m0, base, c.history, k + 1)
  {
    assert L.start !in AsSet(lh) by {
      assert forall i :: 0 <= i < |lh| ==> L.Home(lh[i]);
    }
    m' := StepHead(L, m0, k, m, c.disk, c.newest, lh);
    FollowsNext(L, m0, base, c.history, k, m');
    HeadKeepsSlots(L, c.newest, n0, lh, WithHeader(c.newest[L.start], lh));
    WriteHead(c, pid, L.start, lh, AsSet(lh));
  }

  method ClearHead(c: Cache, pid: nat, L: Layout, ghost m0: State, ghost k: nat, ghost m: State,
                   ghost base: seq<Disk>)
    returns (ghost m': State)
    requires Quiet(c) && pid != 0 && DirtyAre(c.bufs[..], {}) && c.n > 0 && Follows(L, m0, base, c.history, k)
    requires Stepped(L, m0, k, m) && Mirrors(c.disk, c.newest, m, {}) && m.phase.ClearingHead?
    modifies c, c.bufs, c.next, c.prev
    ensures Quiet(c) && DirtyAre(c.bufs[..], {}) && |c.disk| == L.blocks && |c.newest| == old(|c.newest|) == L.blocks
    ensures Stepped(L, m0, k + 1, m') && Mirrors(c.disk, c.newest, m', {}) && m'.phase.Committed?
    ensures Follows(L, m0, base, c.history, k + 1)
    ensures Header(c.newest[L.start]) == [] && c.newest == old(c.newest)[L.start := c.newest[L.start]]
  {
    assert AsSet([]) == {};
    m' := StepHead(L, m0, k, m, c.disk, c.newest, []);
    FollowsNext(L, m0, base, c.history, k, m');
    WriteHead(c, pid, L.start, [], {});
  }

  lemma HeadKeepsSlots(L: Layout, n1: Disk, n0: Disk, lh: seq<nat>, h: Block)
    requires L.Wf() && |n1| == |n0| == L.blocks && LogList(L, lh) && SlotsHold(L, n1, n0, lh, |lh|)
             && SameHome(L, n1, n0)
    ensures SlotsHold(L, n1[L.start := h], n1[L.start := h], lh, |lh|)
    ensures SameHome(L, n1[L.start := h], n0)
  {
  }
}
