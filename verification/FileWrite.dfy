/** filewrite of kernel/file.c: a write is cut into transactions that fit the log. */
module FileWrite {
  import opened Common
  import opened FsModel
  import opened FsOwnership
  import opened FsBytes
  import opened FsCode
  import LogMachine

  /** ((MAXOPBLOCKS-1-1-2) / 2) * 512 */
  const CHUNK: nat := (LogMachine.MAXOPBLOCKS - 1 - 1 - 2) / 2 * 512

  /** One chunk logs at most MAXOPBLOCKS blocks wherever it starts: a chunk that starts
      inside a block touches four, but the first of those is not new. */
  lemma ChunkFits(off: nat, n: nat)
    requires n <= CHUNK
    ensures LogBound(off, n) <= LogMachine.MAXOPBLOCKS
  {
  }

  /** No longer chunk would do: the next byte makes four blocks of an aligned write, all of
      which may be new. */
  lemma ChunkExactly(n: nat)
    ensures CHUNK == 3 * BSIZE
    ensures n <= CHUNK <==> forall off: nat :: LogBound(off, n) <= LogMachine.MAXOPBLOCKS
  {
    if n <= CHUNK {
      forall off: nat ensures LogBound(off, n) <= LogMachine.MAXOPBLOCKS {
        ChunkFits(off, n);
      }
    } else {
      assert LogBound(0, n) > LogMachine.MAXOPBLOCKS;
    }
  }

  /** Files other than inum, and their inodes, are as they were. */
  ghost predicate Others(fs: FileSystem, inum: nat, mem0: seq<Inode>, blocks0: seq<Bytes>)
    reads fs
  {
    && |fs.mem| == |mem0| && InodesOk(fs.mem) && InodesOk(mem0)
    && forall m {:trigger fs.mem[m]} {:trigger mem0[m]} :: 0 <= m < |mem0| && m != inum ==>
         fs.mem[m] == mem0[m] && File(fs.mem[m], fs.blocks) == File(mem0[m], blocks0)
  }

  /** One transaction of filewrite. What it changes on disk is in the transaction. */
  method WriteChunk(fs: FileSystem, inum: nat, d: seq<byte>, o: nat) returns (w: Result, ghost txn: set<nat>)
    requires fs.Valid() && fs.mem == fs.disk && inum < |fs.mem| && o + |d| < UINT && |d| <= CHUNK
    modifies fs
    ensures |txn| <= LogMachine.MAXOPBLOCKS && (!w.Panic? ==> txn == fs.logged)
    ensures !w.Panic? ==> fs.Logs(old(fs.bitmap), old(fs.blocks), old(fs.disk), {})
    ensures w.Panic? ==> fs.OneOwner() && Full(fs.bitmap, fs.sb.size) && o + |d| > old(fs.mem[inum]).size
    ensures w.Device? <==> old(fs.mem[inum]).kind == T_DEV
    ensures w.Error? <==> !w.Device? && (o > old(fs.mem[inum]).size || o + |d| > MAXFILE * BSIZE)
    ensures !w.Panic? ==> fs.Valid() && fs.mem == fs.disk && |fs.mem| == |old(fs.mem)|
    ensures !w.Panic? ==> fs.mem[inum].kind == old(fs.mem[inum]).kind
    ensures w.Error? || w.Device? ==> fs.mem == old(fs.mem) && fs.blocks == old(fs.blocks)
    ensures w.Done? ==> File(fs.mem[inum], fs.blocks) == Splice(old(File(fs.mem[inum], fs.blocks)), o, d)
    ensures !w.Panic? ==> Others(fs, inum, old(fs.mem), old(fs.blocks))
  {
    fs.logged := {};
    RecordedSelf(fs.sb.bmapstart, fs.bitmap, fs.blocks, {});
    ghost var mine;
    w, mine := fs.Writei(inum, d, o);
    txn := {};
    if w.Done? {
      ChunkFits(o, |d|);
      assert {} + mine == mine;
      Smaller(fs.logged, mine);
      txn := fs.logged;
    }
  }

  /** `g` is `f` with the first i bytes of `src` written at `off`; beyond the end of the
      file nothing can be written. */
  ghost predicate PrefixWritten(f: seq<byte>, g: seq<byte>, off: nat, src: seq<byte>, i: nat)
    requires i <= |src|
  {
    if off <= |f| then g == Splice(f, off, src[..i]) else i == 0 && g == f
  }

  lemma NextPrefix(f: seq<byte>, g: seq<byte>, off: nat, src: seq<byte>, i: nat, n: nat)
    requires i + n <= |src| && off + i <= |g| && PrefixWritten(f, g, off, src, i)
    ensures PrefixWritten(f, Splice(g, off + i, src[i..i + n]), off, src, i + n)
  {
  }

  /** One turn of filewrite's loop: the next chunk of src, of n1 bytes. f is the file
      before the write began. */
  method WriteNext(fs: FileSystem, inum: nat, src: seq<byte>, off: nat, i: nat, ghost f: seq<byte>)
    returns (w: Result, n1: nat, ghost txn: set<nat>)
    requires fs.Valid() && fs.mem == fs.disk && inum < |fs.mem| && off + |src| < UINT && i < |src|
    requires PrefixWritten(f, File(fs.mem[inum], fs.blocks), off, src, i)
    modifies fs
    ensures |txn| <= LogMachine.MAXOPBLOCKS && (!w.Panic? ==> txn == fs.logged)
    ensures n1 == if |src| - i > CHUNK then CHUNK else |src| - i
    ensures !w.Panic? ==> fs.Logs(old(fs.bitmap), old(fs.blocks), old(fs.disk), {})
    ensures w.Panic? ==> fs.OneOwner() && Full(fs.bitmap, fs.sb.size) && off + i + n1 > old(fs.mem[inum]).size
    ensures !w.Panic? ==> Others(fs, inum, old(fs.mem), old(fs.blocks))
    ensures w.Device? <==> old(fs.mem[inum]).kind == T_DEV
    ensures w.Error? <==> !w.Device? && (off > |f| || off + i + n1 > MAXFILE * BSIZE)
    ensures !w.Panic? ==> fs.Valid() && fs.mem == fs.disk && |fs.mem| == |old(fs.mem)|
    ensures !w.Panic? ==> fs.mem[inum].kind == old(fs.mem[inum]).kind
    ensures !w.Panic? ==> PrefixWritten(f, File(fs.mem[inum], fs.blocks), off, src, if w.Done? then i + n1 else i)
  {
    n1 := if |src| - i > CHUNK then CHUNK else |src| - i;
    ghost var g := File(fs.mem[inum], fs.blocks);
    w, txn := WriteChunk(fs, inum, src[i..i + n1], off + i);
    if w.Done? {
      NextPrefix(f, g, off, src, i, n1);
    }
  }

  /** What is on disk, apart from the log. */
  datatype Snapshot = Snapshot(bitmap: seq<bv8>, blocks: seq<Bytes>, disk: seq<Inode>)

  /** Whatever differs between the two is in `txn`. */
  ghost predicate Covered(sb: Super, a: Snapshot, b: Snapshot, txn: set<nat>) {
    && Recorded(sb.bmapstart, a.bitmap, a.blocks, {}, b.bitmap, b.blocks, txn)
    && InodesIn(sb.inodestart, a.disk, b.disk, txn)
  }

  /** Transaction k leads from snapshot k to the next, logs all that it changes, and fits
      its reservation. */
  ghost predicate Transactions(sb: Super, snaps: seq<Snapshot>, txns: seq<set<nat>>) {
    && |snaps| == |txns| + 1
    && forall k {:trigger txns[k]} :: 0 <= k < |txns| ==>
         |txns[k]| <= LogMachine.MAXOPBLOCKS && Covered(sb, snaps[k], snaps[k + 1], txns[k])
  }

  lemma OneMore(sb: Super, snaps: seq<Snapshot>, txns: seq<set<nat>>, b: Snapshot, txn: set<nat>)
    requires Transactions(sb, snaps, txns) && |txn| <= LogMachine.MAXOPBLOCKS && Covered(sb, snaps[|txns|], b, txn)
    ensures Transactions(sb, snaps + [b], txns + [txn])
  {
  }

  lemma OthersTwice(fs: FileSystem, inum: nat, mem0: seq<Inode>, blocks0: seq<Bytes>, mem1: seq<Inode>,
                    blocks1: seq<Bytes>)
    requires |mem0| == |mem1| && InodesOk(mem0) && InodesOk(mem1) && Others(fs, inum, mem1, blocks1)
    requires forall m {:trigger mem1[m]} {:trigger mem0[m]} :: 0 <= m < |mem0| && m != inum ==>
               mem1[m] == mem0[m] && File(mem1[m], blocks1) == File(mem0[m], blocks0)
    ensures Others(fs, inum, mem0, blocks0)
  {
  }

  /** filewrite has written i bytes of src over the file f of mem0 and blocks0. The
      quantifier keeps the file system folded in the proof of the loop. */
  ghost predicate Chunked(fs: FileSystem, inum: nat, src: seq<byte>, off: nat, i: nat, f: seq<byte>, mem0: seq<Inode>,
                          blocks0: seq<Bytes>)
    reads fs
  {
    && fs.mem == fs.disk && inum < |fs.mem| == |mem0| && i <= |src| && InodesOk(fs.mem)
    && fs.mem[inum].kind == mem0[inum].kind
    && forall t {:trigger PrefixWritten(f, File(fs.mem[inum], fs.blocks), off, src, t)} :: t == i ==>
         fs.Valid() && Others(fs, inum, mem0, blocks0) && PrefixWritten(f, File(fs.mem[inum], fs.blocks), off, src, t)
  }

  lemma NoChunk(fs: FileSystem, inum: nat, src: seq<byte>, off: nat)
    requires fs.Valid() && fs.mem == fs.disk && inum < |fs.mem|
    ensures Chunked(fs, inum, src, off, 0, File(fs.mem[inum], fs.blocks), fs.mem, fs.blocks)
  {
    var f := File(fs.mem[inum], fs.blocks);
    assert src[..0] == [];
    assert off <= |f| ==> Splice(f, off, []) == f;
    assert PrefixWritten(f, f, off, src, 0);
  }

  lemma Unchunk(fs: FileSystem, inum: nat, src: seq<byte>, off: nat, i: nat, f: seq<byte>, mem0: seq<Inode>,
                blocks0: seq<Bytes>, panic: bool)
    requires !panic ==> Chunked(fs, inum, src, off, i, f, mem0, blocks0)
    ensures !panic ==> fs.Valid() && Others(fs, inum, mem0, blocks0)
    ensures !panic ==> PrefixWritten(f, File(fs.mem[inum], fs.blocks), off, src, i)
  {
    if !panic {
      assert PrefixWritten(f, File(fs.mem[inum], fs.blocks), off, src, i);
    }
  }

  /** The completed transactions lead to the present disk. */
  ghost predicate Account(fs: FileSystem, snaps: seq<Snapshot>, txns: seq<set<nat>>)
    reads fs
  {
    && Transactions(fs.sb, snaps, txns) && snaps[|txns|] == Snapshot(fs.bitmap, fs.blocks, fs.disk)
    && (txns != [] ==> txns[|txns| - 1] == fs.logged)
  }

  /** The same turn, with its transaction added to the account. */
  method WriteTurn(fs: FileSystem, inum: nat, src: seq<byte>, off: nat, i: nat, ghost f: seq<byte>,
                   ghost mem0: seq<Inode>, ghost blocks0: seq<Bytes>, ghost txns: seq<set<nat>>,
                       ghost snaps: seq<Snapshot>)
    returns (w: Result, n1: nat, ghost txns': seq<set<nat>>, ghost snaps': seq<Snapshot>)
    requires off + |src| < UINT && i < |src| && Chunked(fs, inum, src, off, i, f, mem0, blocks0)
    requires InodesOk(mem0) && f == File(mem0[inum], blocks0) && Account(fs, snaps, txns)
    modifies fs
    ensures n1 == if |src| - i > CHUNK then CHUNK else |src| - i
    ensures w.Panic? ==> fs.OneOwner() && Full(fs.bitmap, fs.sb.size) && off + i + n1 > mem0[inum].size
    ensures w.Panic? ==> txns' == txns && snaps' == snaps
    ensures w.Device? <==> mem0[inum].kind == T_DEV
    ensures w.Error? <==> !w.Device? && (off > |f| || off + i + n1 > MAXFILE * BSIZE)
    ensures !w.Panic? ==> Chunked(fs, inum, src, off, if w.Done? then i + n1 else i, f, mem0, blocks0)
    ensures !w.Panic? ==> Account(fs, snaps', txns') && |txns'| == |txns| + 1 && snaps'[0] == snaps[0]
  {
    Unchunk(fs, inum, src, off, i, f, mem0, blocks0, false);
    ghost var mem1, blocks1, txn := fs.mem, fs.blocks, {};
    w, n1, txn := WriteNext(fs, inum, src, off, i, f);
    txns', snaps' := txns, snaps;
    if !w.Panic? {
      OthersTwice(fs, inum, mem0, blocks0, mem1, blocks1);
      OneMore(fs.sb, snaps, txns, Snapshot(fs.bitmap, fs.blocks, fs.disk), txn);
      txns', snaps' := txns + [txn], snaps + [Snapshot(fs.bitmap, fs.blocks, fs.disk)];
    }
  }

  /** filewrite on an inode, from offset `off`. `txns` lists the blocks that each completed
      transaction logged, `snaps` the disk before the first and after each. The result is
      -1 (Error) as soon as writei refuses a chunk; the `done` bytes of the chunks before
      it stay written. */
  method Write(fs: FileSystem, inum: nat, src: seq<byte>, off: nat)
    returns (r: Result, done: nat, ghost txns: seq<set<nat>>, ghost snaps: seq<Snapshot>)
    requires fs.Valid() && fs.mem == fs.disk && inum < |fs.mem| && off + |src| < UINT
    modifies fs
    ensures Transactions(fs.sb, snaps, txns) && snaps[0] == old(Snapshot(fs.bitmap, fs.blocks, fs.disk))
    ensures !r.Panic? ==> snaps[|txns|] == Snapshot(fs.bitmap, fs.blocks, fs.disk)
    ensures !r.Panic? && src != [] ==> txns != [] && txns[|txns| - 1] == fs.logged
    ensures done <= |src| && (r.Done? ==> r.n == |src| == done) && (r.Error? ==> done < |src|)
    ensures r.Done? ==> |txns| == (|src| + CHUNK - 1) / CHUNK
    ensures r.Panic? ==> fs.OneOwner() && Full(fs.bitmap, fs.sb.size) && off + |src| > old(fs.mem[inum]).size
    ensures !r.Panic? ==> fs.Valid() && fs.mem == fs.disk && |fs.mem| == |old(fs.mem)|
    ensures !r.Panic? ==>
            PrefixWritten(old(File(fs.mem[inum], fs.blocks)), File(fs.mem[inum], fs.blocks), off, src, done)
    ensures !r.Panic? ==> Others(fs, inum, old(fs.mem), old(fs.blocks))
    ensures !r.Panic? ==> (r.Device? <==> src != [] && old(fs.mem[inum]).kind == T_DEV)
    ensures !r.Panic? && !r.Device? ==>
            (r.Error? <==> src != [] && (off > old(fs.mem[inum]).size || off + |src| > MAXFILE * BSIZE))
  {
    var i := 0;
    txns, snaps := [], [Snapshot(fs.bitmap, fs.blocks, fs.disk)];
    ghost var f := File(fs.mem[inum], fs.blocks);
    NoChunk(fs, inum, src, off);
    while i < |src|
      invariant 0 <= i <= |src| && Chunked(fs, inum, src, off, i, f, old(fs.mem), old(fs.blocks))
      invariant Account(fs, snaps, txns) && snaps[0] == old(Snapshot(fs.bitmap, fs.blocks, fs.disk))
      invariant if i < |src| then i == |txns| * CHUNK else |txns| == (|src| + CHUNK - 1) / CHUNK
      invariant i > 0 ==> off <= |f| && off + i <= MAXFILE * BSIZE && old(fs.mem[inum]).kind != T_DEV
    {
      var w, n1;
      w, n1, txns, snaps := WriteTurn(fs, inum, src, off, i, f, old(fs.mem), old(fs.blocks), txns, snaps);
      if !w.Done? {
        Unchunk(fs, inum, src, off, i, f, old(fs.mem), old(fs.blocks), w.Panic?);
        return w, i, txns, snaps;
      }
      i := i + n1;
    }
    Unchunk(fs, inum, src, off, i, f, old(fs.mem), old(fs.blocks), false);
    return Done(|src|), |src|, txns, snaps;
  }

  lemma {:induction false} AtMost(lo: nat, n: nat, s: set<nat>)
    requires forall x :: x in s ==> lo <= x < lo + n
    ensures |s| <= n
  {
    if n == 0 {
      assert s == {};
    } else {
      AtMost(lo, n - 1, s - {lo + n - 1});
    }
  }

  lemma InMap(a: nat, size: nat)
    ensures a < size ==> a / BPB <= (size - 1) / BPB
  {
  }

  lemma BlocksInMap(owner: map<nat, Place>, gone: set<Place>, size: nat, lo: nat, maps: set<nat>)
    requires size > 0 && forall a: nat :: a in owner ==> a < size
    requires maps == set a: nat | a in owner && owner[a] in gone :: a / BPB + lo
    ensures |maps| <= (size - 1) / BPB + 1
  {
    forall x | x in maps ensures lo <= x < lo + (size - 1) / BPB + 1 {
      var a: nat :| a in owner && owner[a] in gone && x == a / BPB + lo;
      InMap(a, size);
    }
    AtMost(lo, (size - 1) / BPB + 1, maps);
  }

  lemma NineMaps(size: nat)
    requires size > 0
    ensures size <= (LogMachine.MAXOPBLOCKS - 1) * BPB <==> (size - 1) / BPB + 2 <= LogMachine.MAXOPBLOCKS
  {
  }

  /** What itrunc logs: one bitmap block per BPB blocks of the disk at most, and the
      inode's block. On a disk of up to nine bitmap blocks that is within the budget
      of one operation. */
  lemma TruncateFits(fs: FileSystem, inum: nat)
    requires fs.sb.size > 0 && forall a: nat :: a in fs.owner ==> a < fs.sb.size
    ensures var txn := fs.FreeLog(fs.owner, Slots(inum, NSLOTS)) + {fs.IBlock(inum)};
            && |txn| <= (fs.sb.size - 1) / BPB + 2
            && (fs.sb.size <= (LogMachine.MAXOPBLOCKS - 1) * BPB ==> |txn| <= LogMachine.MAXOPBLOCKS)
  {
    var maps := fs.FreeLog(fs.owner, Slots(inum, NSLOTS));
    BlocksInMap(fs.owner, Slots(inum, NSLOTS), fs.sb.size, fs.sb.bmapstart, maps);
    NineMaps(fs.sb.size);
    assert |maps + {fs.IBlock(inum)}| <= |maps| + 1;
  }

  const DIRENT: nat := 16 // sizeof(struct dirent)

  /** A directory entry lies in one block. */
  lemma DirentFits(off: nat)
    requires off % DIRENT == 0
    ensures LogBound(off, DIRENT) <= 5
  {
  }

  lemma UnionSize(a: set<nat>, b: set<nat>)
    ensures |a + b| <= |a| + |b|
  {
    assert a + b == a + (b - a);
  }

  /** The blocks of the transaction below: those of the entry's write, the two inodes'
      and the bitmap's. */
  lemma UnlinkCounts(size: nat, mine: set<nat>, maps: set<nat>, a: nat, b: nat, txn: set<nat>)
    requires size > 0 && |mine| <= 5 && |maps| <= (size - 1) / BPB + 1 && txn <= mine + maps + {a, b}
    ensures |txn| <= (size - 1) / BPB + 8
    ensures size <= 3 * BPB ==> |txn| <= LogMachine.MAXOPBLOCKS
  {
    Smaller(txn, mine + maps + {a, b});
    UnionSize(mine, maps);
    UnionSize(mine + maps, {a, b});
  }

  /** iput's part once the last link is gone: the file is freed and its type cleared. */
  method FreeInode(fs: FileSystem, ip: nat)
    requires fs.Valid() && fs.mem == fs.disk && ip < |fs.mem|
    modifies fs
    ensures fs.Valid() && fs.mem == fs.disk && |fs.mem| == |old(fs.mem)| && fs.blocks == old(fs.blocks)
    ensures fs.mem[ip].size == 0 && fs.mem[ip].kind == 0
    ensures forall m :: 0 <= m < |fs.mem| && m != ip ==> fs.mem[m] == old(fs.mem[m])
    ensures forall m :: 0 <= m < |fs.mem| && m != ip ==> File(fs.mem[m], fs.blocks) == old(File(fs.mem[m], fs.blocks))
    ensures fs.logged == old(fs.logged) + fs.FreeLog(old(fs.owner), Slots(ip, NSLOTS)) + {fs.IBlock(ip)}
    ensures fs.sb.size > 0 && |fs.FreeLog(old(fs.owner), Slots(ip, NSLOTS))| <= (fs.sb.size - 1) / BPB + 1
    ensures fs.Logs(old(fs.bitmap), old(fs.blocks), old(fs.disk), old(fs.logged))
  {
    BlocksInMap(fs.owner, Slots(ip, NSLOTS), fs.sb.size, fs.sb.bmapstart, fs.FreeLog(fs.owner, Slots(ip, NSLOTS)));
    var _ := fs.Itrunc(ip);
    ResizeKeepsOwned(fs.sb, fs.bitmap, fs.blocks, fs.mem, fs.owner, ip, fs.mem[ip].(kind := 0));
    SameAddrs(fs.mem[ip], fs.mem[ip].(kind := 0), fs.blocks, 0);
    fs.mem := fs.mem[ip := fs.mem[ip].(kind := 0)];
    fs.Iupdate(ip);
  }

  /** The part of unlink that clears the entry at `off` of directory dp: inside the
      directory there is nothing to allocate, so nothing to panic about. */
  method ClearEntry(fs: FileSystem, dp: nat, off: nat) returns (ghost mine: set<nat>)
    requires fs.Valid() && fs.mem == fs.disk && dp < |fs.mem|
    requires off % DIRENT == 0 && off + DIRENT <= fs.mem[dp].size && fs.mem[dp].kind != T_DEV
    modifies fs
    ensures fs.Valid() && fs.mem == fs.disk && |fs.mem| == |old(fs.mem)|
    ensures File(fs.mem[dp], fs.blocks) == Splice(old(File(fs.mem[dp], fs.blocks)), off, seq(DIRENT, _ => 0))
    ensures Others(fs, dp, old(fs.mem), old(fs.blocks))
    ensures |mine| <= 5 && fs.logged <= old(fs.logged) + mine + {fs.IBlock(dp)}
    ensures fs.Logs(old(fs.bitmap), old(fs.blocks), old(fs.disk), old(fs.logged))
  {
    assert Mapped(fs.mem[dp], fs.blocks, fs.mem[dp].size);
    var w;
    w, mine := fs.Writei(dp, seq(DIRENT, _ => 0), off);
    DirentFits(off);
    ghost var logged1 := fs.logged;
    fs.Iupdate(dp);
    RecordedMore(fs.sb.bmapstart, old(fs.bitmap), old(fs.blocks), old(fs.logged), fs.bitmap, fs.blocks, logged1,
        fs.logged);
  }

  /** unlink's transaction on the last link of file ip, once its entry is found at `off` of
      directory dp: the entry is cleared, both inodes are updated and the file is freed.
      The other files stay, all that changes is logged, and how much is logged depends on
      the disk's size through the bitmap alone. */
  method UnlinkLast(fs: FileSystem, dp: nat, off: nat, ip: nat)
    requires fs.Valid() && fs.mem == fs.disk && dp < |fs.mem| && ip < |fs.mem| && dp != ip
    requires off % DIRENT == 0 && off + DIRENT <= fs.mem[dp].size && fs.mem[dp].kind != T_DEV
    modifies fs
    ensures fs.Valid() && fs.mem == fs.disk && |fs.mem| == |old(fs.mem)|
    ensures |fs.logged| <= (fs.sb.size - 1) / BPB + 8
    ensures fs.sb.size <= 3 * BPB ==> |fs.logged| <= LogMachine.MAXOPBLOCKS
    ensures fs.Logs(old(fs.bitmap), old(fs.blocks), old(fs.disk), {})
    ensures File(fs.mem[dp], fs.blocks) == Splice(old(File(fs.mem[dp], fs.blocks)), off, seq(DIRENT, _ => 0))
    ensures fs.mem[ip].size == 0 && fs.mem[ip].kind == 0
    ensures forall m :: 0 <= m < |fs.mem| && m != dp && m != ip ==>
              fs.mem[m] == old(fs.mem[m]) && File(fs.mem[m], fs.blocks) == old(File(fs.mem[m], fs.blocks))
  {
    fs.logged := {};
    ghost var mine := ClearEntry(fs, dp, off);
    ghost var s1, log1 := Snapshot(fs.bitmap, fs.blocks, fs.disk), fs.logged;
    fs.Iupdate(ip);
    ghost var log2 := fs.logged;
    ghost var maps := fs.FreeLog(fs.owner, Slots(ip, NSLOTS));
    FreeInode(fs, ip);
    LogsOn(fs.sb, old(Snapshot(fs.bitmap, fs.blocks, fs.disk)), s1, log1, log2,
           Snapshot(fs.bitmap, fs.blocks, fs.disk), fs.logged);
    UnlinkCounts(fs.sb.size, mine, maps, fs.IBlock(dp), fs.IBlock(ip), fs.logged);
  }

  /** Two parts of a transaction, with more logged between. */
  lemma LogsOn(sb: Super, a: Snapshot, b: Snapshot, log1: set<nat>, log2: set<nat>, c: Snapshot, log3: set<nat>)
    requires Covered(sb, a, b, log1) && log1 <= log2
    requires Recorded(sb.bmapstart, b.bitmap, b.blocks, log2, c.bitmap, c.blocks, log3)
    requires InodesIn(sb.inodestart, b.disk, c.disk, log3)
    ensures Covered(sb, a, c, log3)
  {
    RecordedMore(sb.bmapstart, a.bitmap, a.blocks, {}, b.bitmap, b.blocks, log1, log2);
    RecordedTwice(sb.bmapstart, a.bitmap, a.blocks, {}, b.bitmap, b.blocks, log2, c.bitmap, c.blocks, log3);
    InodesTwice(sb.inodestart, a.disk, b.disk, c.disk, log1, log3);
  }
}
