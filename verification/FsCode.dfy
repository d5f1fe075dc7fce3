/** The block allocator, the block map and the file reads and writes of kernel/fs.c.

  `bitmap` is the contents of the bitmap blocks, `blocks` that of the other blocks,
  `mem` the in-memory inodes and `disk` the inodes as last written by iupdate.
  `logged` collects the numbers of the blocks handed to log_write.
 */
module FsCode {
  import opened Common
  import opened FsModel
  import opened FsOwnership
  import opened FsBytes

  class FileSystem {
    const sb: Super
    var bitmap: seq<bv8>
    var blocks: seq<Bytes>
    var mem: seq<Inode>
    var disk: seq<Inode>
    ghost var owner: map<nat, Place>
    ghost var logged: set<nat>

    ghost predicate OneOwner()
      reads this
    {
      Owned(sb, bitmap, blocks, mem, owner, {})
    }

    /** The file layer on a consistent disk, such as the one mkfs leaves. */
    constructor (layout: Super, bits: seq<bv8>, contents: seq<Bytes>, inodes: seq<Inode>, ghost owners: map<nat, Place>)
      requires Owned(layout, bits, contents, inodes, owners, {}) && AllMapped(inodes, contents, |inodes|)
      ensures Valid() && mem == disk == inodes && blocks == contents && bitmap == bits && sb == layout && logged == {}
    {
      sb, bitmap, blocks, mem, disk := layout, bits, contents, inodes, inodes;
      owner, logged := owners, {};
    }

    /** Block numbers of the bitmap block of b and of the inode block of i. */
    function BBlock(b: nat): nat { b / BPB + sb.bmapstart }

    function IBlock(i: nat): nat { i / IPB + sb.inodestart }

    /** bzero */
    method Bzero(b: nat)
      requires b < |blocks|
      modifies this`blocks, this`logged
      ensures blocks == old(blocks)[b := ZeroBlock()] && logged == old(logged) + {b}
    {
      blocks := blocks[b := ZeroBlock()];
      logged := logged + {b};
    }

    /** balloc's inner loop, over the bits of one bitmap block. */
    method ScanBlock(b: nat) returns (bi: nat)
      requires Covers(bitmap, sb.size) && b % BPB == 0 && b < sb.size
      ensures bi <= BPB && b + bi <= sb.size
      ensures forall c :: b <= c < b + bi ==> Bit(bitmap, c)
      ensures bi == BPB || b + bi == sb.size || !Bit(bitmap, b + bi)
    {
      bi := 0;
      while bi < BPB && b + bi < sb.size
        invariant bi <= BPB && b + bi <= sb.size
        invariant forall c :: b <= c < b + bi ==> Bit(bitmap, c)
      {
        InBlock(b, bi);
        assert ByteOf(b + bi) < |bitmap|;
        if !Test(bitmap, b / BPB * BSIZE + bi / 8, bi % 8) {
          return;
        }
        bi := bi + 1;
      }
    }

    /** balloc: the lowest free block, marked and zeroed; None is the panic "out of
        blocks". */
    method Balloc() returns (r: Option<nat>)
      requires |blocks| == sb.size && Covers(bitmap, sb.size)
      modifies this`bitmap, this`blocks, this`logged
      ensures r.None? ==> && Full(bitmap, sb.size)
                          && bitmap == old(bitmap) && blocks == old(blocks) && logged == old(logged)
      ensures r.Some? ==> && r.value < sb.size && ByteOf(r.value) < |old(bitmap)| && !Bit(old(bitmap), r.value)
                          && (forall c :: 0 <= c < r.value ==> Bit(old(bitmap), c))
                          && bitmap == WithBit(old(bitmap), r.value)
                          && blocks == old(blocks)[r.value := ZeroBlock()]
                          && logged == old(logged) + {BBlock(r.value), r.value}
    {
      var b := 0;
      while b < sb.size
        invariant bitmap == old(bitmap) && blocks == old(blocks) && logged == old(logged)
        invariant 0 <= b && b % BPB == 0
        invariant forall c :: 0 <= c < b && c < sb.size ==> Bit(bitmap, c)
        decreases sb.size - b
      {
        var bi := ScanBlock(b);
        if bi < BPB && b + bi < sb.size {
          assert ByteOf(b + bi) < |bitmap|;
          bitmap := Set(bitmap, ByteOf(b + bi), PosOf(b + bi));
          logged := logged + {BBlock(b + bi)};
          Bzero(b + bi);
          assert logged == old(logged) + {BBlock(b + bi), b + bi};
          return Some(b + bi);
        }
        b := b + BPB;
      }
      return None;
    }

    lemma InBlock(b: nat, bi: nat)
      requires b % BPB == 0 && bi < BPB
      ensures ByteOf(b + bi) == b / BPB * BSIZE + bi / 8 && PosOf(b + bi) == bi % 8
    {
      assert (b + bi) / BPB == b / BPB && (b + bi) % BPB == bi;
    }

    /** bfree; false is the panic "freeing free block". */
    method Bfree(b: nat) returns (ok: bool)
      requires ByteOf(b) < |bitmap|
      modifies this`bitmap, this`logged
      ensures ok == old(Bit(bitmap, b))
      ensures bitmap == if ok then WithoutBit(old(bitmap), b) else old(bitmap)
      ensures logged == if ok then old(logged) + {BBlock(b)} else old(logged)
      ensures Recorded(sb.bmapstart, old(bitmap), old(blocks), old(logged), bitmap, blocks, logged)
    {
      RecordedSelf(sb.bmapstart, bitmap, blocks, logged);
      if !Test(bitmap, ByteOf(b), PosOf(b)) {
        return false;
      }
      MapRecorded(sb.bmapstart, bitmap, WithoutBit(bitmap, b)[ByteOf(b)], blocks, logged, b);
      bitmap := Clear(bitmap, ByteOf(b), PosOf(b));
      logged := logged + {BBlock(b)};
      return true;
    }

    /** `ip->addrs[k] = balloc(dev)` for an empty direct or indirect slot. */
    method AllocSlot(inum: nat, k: nat) returns (r: Option<nat>)
      requires OneOwner() && inum < |mem| && k <= NDIRECT && mem[inum].addrs[k] == 0
      modifies this`bitmap, this`blocks, this`mem, this`logged, this`owner
      ensures OneOwner() && |mem| == |old(mem)|
      ensures r.None? ==> Full(bitmap, sb.size)
      ensures Recorded(sb.bmapstart, old(bitmap), old(blocks), old(logged), bitmap, blocks, logged)
      ensures r.Some? ==> && 0 < r.value < sb.size && mem == old(mem)[inum := WithAddr(old(mem[inum]), k, r.value)]
                          && Grown(old(mem), old(blocks), mem, blocks, {Place(inum, k)})
                          && logged == old(logged) + {BBlock(r.value), r.value}
    {
      RecordedSelf(sb.bmapstart, bitmap, blocks, logged);
      r := Balloc();
      if r.Some? {
        AllocRecorded(sb.bmapstart, old(bitmap), old(blocks), old(logged), r.value);
        GrantDirect(sb, old(bitmap), old(blocks), mem, owner, inum, k, r.value);
        mem := mem[inum := WithAddr(mem[inum], k, r.value)];
        owner := owner[r.value := Place(inum, k)];
      }
    }

    /** `a[j] = addr; log_write(bp)`, once balloc has returned addr. */
    method SetEntry(ind: nat, j: nat, addr: nat, ghost bitmap0: seq<bv8>, ghost blocks0: seq<Bytes>,
                    ghost log0: set<nat>)
      requires ind < |blocks0| && ind != addr < |blocks0| && j < NINDIRECT && addr < UINT && ByteOf(addr) < |bitmap0|
      requires bitmap == WithBit(bitmap0, addr) && blocks == blocks0[addr := ZeroBlock()]
      requires logged == log0 + {BBlock(addr), addr}
      modifies this`blocks, this`logged
      ensures blocks == blocks0[addr := ZeroBlock()][ind := SetWord(blocks0[ind], j, addr)]
      ensures logged == log0 + {BBlock(addr), addr, ind}
      ensures Recorded(sb.bmapstart, bitmap0, blocks0, log0, bitmap, blocks, logged)
    {
      EntryRecorded(sb.bmapstart, bitmap0, blocks0, log0, addr, ind, SetWord(blocks0[ind], j, addr));
      blocks := blocks[ind := SetWord(blocks[ind], j, addr)];
      logged := logged + {ind};
      assert logged == log0 + {BBlock(addr), addr, ind};
    }

    /** `a[j] = balloc(dev)` in the indirect block, which is then logged. */
    method AllocEntry(inum: nat, j: nat) returns (r: Option<nat>)
      requires OneOwner() && inum < |mem| && j < NINDIRECT && 0 != mem[inum].addrs[NDIRECT] < |blocks|
      requires Word(blocks[mem[inum].addrs[NDIRECT]], j) == 0
      modifies this`bitmap, this`blocks, this`logged, this`owner
      ensures OneOwner()
      ensures r.None? ==> Full(bitmap, sb.size)
      ensures Recorded(sb.bmapstart, old(bitmap), old(blocks), old(logged), bitmap, blocks, logged)
      ensures r.Some? ==> && 0 < r.value < sb.size && AddrAt(mem, blocks, Place(inum, NDIRECT + 1 + j)) == r.value
                          && Grown(mem, old(blocks), mem, blocks, {Place(inum, NDIRECT + 1 + j)})
                          && logged == old(logged) + {BBlock(r.value), r.value, mem[inum].addrs[NDIRECT]}
    {
      RecordedSelf(sb.bmapstart, bitmap, blocks, logged);
      r := Balloc();
      if r.Some? {
        IndirectOwned(sb, old(bitmap), old(blocks), mem, owner, {}, inum);
        SetEntry(mem[inum].addrs[NDIRECT], j, r.value, old(bitmap), old(blocks), old(logged));
        GrantIndirect(sb, old(bitmap), old(blocks), mem, owner, inum, j, r.value);
        owner := owner[r.value := Place(inum, NDIRECT + 1 + j)];
      }
    }

    /** What bmap(inum, bn) may log: the new data block and its bitmap block; the
        indirect block; and, if that is new as well, its bitmap block. */
    ghost function MapLog(ip: Inode, ip': Inode, bn: nat, old0: nat, addr: nat): set<nat>
      requires InodeOk(ip) && InodeOk(ip')
    {
      (if old0 == 0 then {addr, BBlock(addr)} else {})
      + (if old0 == 0 && bn >= NDIRECT then {ip'.addrs[NDIRECT]} else {})
      + (if ip.addrs[NDIRECT] == 0 && bn >= NDIRECT then {BBlock(ip'.addrs[NDIRECT])} else {})
    }

    /** bmap: the address of block bn of the file, allocated if there was none. None is
        a panic: bn out of range, or no free block. */
    method Bmap(inum: nat, bn: nat) returns (r: Option<nat>)
      requires OneOwner() && inum < |mem|
      modifies this`bitmap, this`blocks, this`mem, this`logged, this`owner
      ensures OneOwner() && |mem| == |old(mem)|
      ensures r.None? ==> bn >= MAXFILE || Full(bitmap, sb.size)
      ensures bn >= MAXFILE ==> r.None?
      ensures Recorded(sb.bmapstart, old(bitmap), old(blocks), old(logged), bitmap, blocks, logged)
      ensures bn < MAXFILE && SlotAddr(old(mem[inum]), old(blocks), DataSlot(bn)) != 0 ==>
                && r == Some(SlotAddr(old(mem[inum]), old(blocks), DataSlot(bn)))
                && bitmap == old(bitmap) && blocks == old(blocks) && mem == old(mem) && owner == old(owner)
                     && logged == old(logged)
      ensures r.Some? ==> && 0 < r.value < sb.size && r.value == SlotAddr(mem[inum], blocks, DataSlot(bn))
                          && Grown(old(mem), old(blocks), mem, blocks, MapPlaces(inum, bn))
                          && mem == old(mem)[inum := old(mem[inum]).(addrs := mem[inum].addrs)]
                          && logged <= old(logged) + MapLog(old(mem[inum]), mem[inum], bn,
                               SlotAddr(old(mem[inum]), old(blocks), DataSlot(bn)), r.value)
      ensures r.Some? && bn < NDIRECT ==> r.value == mem[inum].addrs[bn]
      ensures r.Some? && bn >= NDIRECT ==>
                && 0 < mem[inum].addrs[NDIRECT] < |blocks|
                && r.value == Word(blocks[mem[inum].addrs[NDIRECT]], bn - NDIRECT)
    {
      RecordedSelf(sb.bmapstart, bitmap, blocks, logged);
      if bn < NDIRECT {
        assert AddrAt(mem, blocks, Place(inum, bn)) == mem[inum].addrs[bn];
        if mem[inum].addrs[bn] == 0 {
          r := AllocSlot(inum, bn);
          return;
        }
        GrownSelf(mem, blocks, MapPlaces(inum, bn));
        return Some(mem[inum].addrs[bn]);
      }
      var j := bn - NDIRECT;
      if j < NINDIRECT {
        r := BmapIndirect(inum, j);
        return;
      }
      return None;
    }

    /** The part of bmap that goes through the indirect block. */
    method BmapIndirect(inum: nat, j: nat) returns (r: Option<nat>)
      requires OneOwner() && inum < |mem| && j < NINDIRECT
      modifies this`bitmap, this`blocks, this`mem, this`logged, this`owner
      ensures OneOwner() && |mem| == |old(mem)|
      ensures r.None? ==> Full(bitmap, sb.size)
      ensures Recorded(sb.bmapstart, old(bitmap), old(blocks), old(logged), bitmap, blocks, logged)
      ensures SlotAddr(old(mem[inum]), old(blocks), NDIRECT + 1 + j) != 0 ==>
                && r == Some(SlotAddr(old(mem[inum]), old(blocks), NDIRECT + 1 + j))
                && bitmap == old(bitmap) && blocks == old(blocks) && mem == old(mem) && owner == old(owner)
                     && logged == old(logged)
      ensures r.Some? ==> && 0 < r.value < sb.size && r.value == SlotAddr(mem[inum], blocks, NDIRECT + 1 + j)
                          && Grown(old(mem), old(blocks), mem, blocks, MapPlaces(inum, NDIRECT + j))
                          && mem == old(mem)[inum := old(mem[inum]).(addrs := mem[inum].addrs)]
                          && logged <= old(logged) + MapLog(old(mem[inum]), mem[inum], NDIRECT + j,
                               SlotAddr(old(mem[inum]), old(blocks), NDIRECT + 1 + j), r.value)
                          && mem[inum].addrs[NDIRECT] != 0
    {
      RecordedSelf(sb.bmapstart, bitmap, blocks, logged);
      if mem[inum].addrs[NDIRECT] == 0 {
        r := AllocSlot(inum, NDIRECT);
        if r.None? {
          return;
        }
      } else {
        GrownSelf(mem, blocks, {Place(inum, NDIRECT)});
      }
      IndirectOwned(sb, bitmap, blocks, mem, owner, {}, inum);
      ghost var mem1, blocks1, bitmap1, logged1 := mem, blocks, bitmap, logged;
      assert Grown(old(mem), old(blocks), mem1, blocks1, {Place(inum, NDIRECT)});
      ghost var at := Place(inum, NDIRECT + 1 + j);
      assert AddrAt(mem1, blocks1, at) == AddrAt(old(mem), old(blocks), at);
      var a := Word(blocks[mem[inum].addrs[NDIRECT]], j);
      if a != 0 {
        assert AddrAt(mem, blocks, at) == a;
        GrownMore(old(mem), old(blocks), mem, blocks, {Place(inum, NDIRECT)}, MapPlaces(inum, NDIRECT + j));
        return Some(a);
      }
      r := AllocEntry(inum, j);
      RecordedTwice(sb.bmapstart, old(bitmap), old(blocks), old(logged), bitmap1, blocks1, logged1, bitmap, blocks,
          logged);
      if r.Some? {
        GrownTwice(old(mem), old(blocks), mem1, blocks1, mem, blocks, {Place(inum, NDIRECT)}, {at});
        assert {Place(inum, NDIRECT)} + {at} == MapPlaces(inum, NDIRECT + j);
      }
    }

    /** iupdate: the in-memory inode is copied to its disk block. */
    method Iupdate(inum: nat)
      requires inum < |mem| == |disk|
      modifies this`disk, this`logged
      ensures disk == old(disk)[inum := mem[inum]] && logged == old(logged) + {IBlock(inum)}
    {
      disk := disk[inum := mem[inum]];
      logged := logged + {IBlock(inum)};
    }

    /** The file system between operations: one owner per block, every file mapped
        exactly up to its size. */
    ghost predicate Valid()
      reads this
    {
      OneOwner() && |disk| == |mem| && AllMapped(mem, blocks, |mem|)
    }

    /** Nothing has changed since the given state. */
    ghost predicate Same(bitmap0: seq<bv8>, blocks0: seq<Bytes>, mem0: seq<Inode>, disk0: seq<Inode>,
                         owner0: map<nat, Place>, logged0: set<nat>)
      reads this
    {
      bitmap == bitmap0 && blocks == blocks0 && mem == mem0 && disk == disk0 && owner == owner0 && logged == logged0
    }

    /** What has changed on disk since then is in `logged`: blocks, bitmap and inodes. */
    ghost predicate Logs(bitmap0: seq<bv8>, blocks0: seq<Bytes>, disk0: seq<Inode>, logged0: set<nat>)
      reads this
    {
      && Recorded(sb.bmapstart, bitmap0, blocks0, logged0, bitmap, blocks, logged)
      && InodesIn(sb.inodestart, disk0, disk, logged)
    }

    /** One pass of readi's loop. */
    method ReadPart(inum: nat, o: nat, m: nat, ghost f: seq<byte>) returns (d: seq<byte>)
      requires Valid() && inum < |mem| && f == File(mem[inum], blocks) && o + m <= |f| && 1 <= m <= BSIZE - o % BSIZE
      modifies this
      ensures Same(old(bitmap), old(blocks), old(mem), old(disk), old(owner), old(logged)) && Valid()
      ensures d == f[o..o + m]
    {
      assert Mapped(mem[inum], blocks, mem[inum].size);
      assert SlotAddr(mem[inum], blocks, DataSlot(o / BSIZE)) != 0;
      BlockOwned(sb, bitmap, blocks, mem, owner, inum, o / BSIZE);
      var a := Bmap(inum, o / BSIZE);
      FileSlice(mem[inum], blocks, o, m);
      return blocks[a.value][o % BSIZE..o % BSIZE + m];
    }

    /** readi's loop, over n bytes of the file. */
    method ReadAll(inum: nat, off: nat, n: nat) returns (dst: seq<byte>)
      requires Valid() && inum < |mem| && off + n <= mem[inum].size
      modifies this
      ensures Same(old(bitmap), old(blocks), old(mem), old(disk), old(owner), old(logged)) && Valid()
      ensures dst == File(mem[inum], blocks)[off..off + n]
    {
      dst := [];
      ghost var f := File(mem[inum], blocks);
      var tot := 0;
      while tot < n
        invariant 0 <= tot <= n && Valid()
        invariant Same(old(bitmap), old(blocks), old(mem), old(disk), old(owner), old(logged))
        invariant dst == f[off..off + tot]
      {
        var d := ReadNext(inum, off, tot, n, f);
        dst := dst + d;
        tot := tot + |d|;
      }
    }

    /** One turn of that loop. */
    method ReadNext(inum: nat, off: nat, tot: nat, n: nat, ghost f: seq<byte>) returns (d: seq<byte>)
      requires Valid() && inum < |mem| && f == File(mem[inum], blocks) && tot < n && off + n <= |f|
      modifies this
      ensures Same(old(bitmap), old(blocks), old(mem), old(disk), old(owner), old(logged)) && Valid()
      ensures 1 <= |d| <= n - tot && f[off..off + tot] + d == f[off..off + tot + |d|]
    {
      var o := off + tot;
      var m := if n - tot < BSIZE - o % BSIZE then n - tot else BSIZE - o % BSIZE;
      assert 1 <= m <= BSIZE - o % BSIZE;
      d := ReadPart(inum, o, m, f);
      SliceNext(f, off, tot, m);
    }

    /** readi; what a driver answers for a device inode is not modelled. */
    method Readi(inum: nat, off: nat, n: nat) returns (r: Result, dst: seq<byte>)
      requires Valid() && inum < |mem| && off < UINT && n < UINT
      modifies this
      ensures Same(old(bitmap), old(blocks), old(mem), old(disk), old(owner), old(logged)) && Valid()
      ensures r == if mem[inum].kind == T_DEV then Device
                   else if off > mem[inum].size || off + n >= UINT then Error
                   else Done(if off + n > mem[inum].size then mem[inum].size - off else n)
      ensures r.Done? ==> dst == File(mem[inum], blocks)[off..off + r.n]
    {
      dst := [];
      if mem[inum].kind == T_DEV {
        return Device, dst;
      }
      if off > mem[inum].size || (off + n) % UINT < off {
        return Error, dst;
      }
      var n := if off + n > mem[inum].size then mem[inum].size - off else n;
      dst := ReadAll(inum, off, n);
      return Done(n), dst;
    }

    /** What one pass of writei's loop may log. */
    ghost function PassLog(ip': Inode, bn: nat, grew: bool, addr: nat): set<nat>
      requires InodeOk(ip')
    {
      {addr} + (if grew then {BBlock(addr)} else {})
      + (if bn >= NDIRECT then {ip'.addrs[NDIRECT], BBlock(ip'.addrs[NDIRECT])} else {})
    }

    /** memmove into block a, and log_write. */
    method PutBytes(a: nat, at: nat, d: seq<byte>, ghost bitmap0: seq<bv8>, ghost blocks0: seq<Bytes>,
                    ghost log0: set<nat>)
      requires a < |blocks| && at + |d| <= BSIZE
      requires Recorded(sb.bmapstart, bitmap0, blocks0, log0, bitmap, blocks, logged)
      modifies this`blocks, this`logged
      ensures blocks == old(blocks)[a := Patch(old(blocks)[a], at, d)] && logged == old(logged) + {a}
      ensures Recorded(sb.bmapstart, bitmap0, blocks0, log0, bitmap, blocks, logged)
    {
      PatchRecorded(sb.bmapstart, bitmap0, blocks0, log0, bitmap, blocks, logged, a, Patch(blocks[a], at, d));
      blocks := blocks[a := Patch(blocks[a], at, d)];
      logged := logged + {a};
    }

    /** One pass of writei's loop, on a file mapped up to `extent`; false is a panic. */
    method WritePart(inum: nat, o: nat, d: seq<byte>, ghost extent: nat) returns (ok: bool, ghost addr: nat)
      requires OneOwner() && inum < |mem| && Mapped(mem[inum], blocks, extent)
      requires o <= extent && o / BSIZE < MAXFILE && 1 <= |d| <= BSIZE - o % BSIZE
      requires OthersMapped(mem, blocks, inum)
      modifies this`bitmap, this`blocks, this`mem, this`logged, this`owner
      ensures OneOwner() && |mem| == |old(mem)|
      ensures !ok ==> Full(bitmap, sb.size) && o / BSIZE * BSIZE >= extent
      ensures ok ==> Recorded(sb.bmapstart, old(bitmap), old(blocks), old(logged), bitmap, blocks, logged)
      ensures ok ==> && mem == old(mem)[inum := old(mem[inum]).(addrs := mem[inum].addrs)]
                     && Mapped(mem[inum], blocks, Max(extent, o + |d|))
                     && View(mem[inum], blocks, Max(extent, o + |d|)) ==
                          Splice(View(old(mem[inum]), old(blocks), extent), o, d)
      ensures ok ==> OthersKept(old(mem), old(blocks), mem, blocks, inum)
      ensures ok && o / BSIZE * BSIZE < extent ==> mem == old(mem)
      ensures ok ==> logged <= old(logged) + PassLog(mem[inum], o / BSIZE, o / BSIZE * BSIZE >= extent, addr)
      ensures ok && old(mem[inum]).addrs[NDIRECT] != 0 ==> mem[inum].addrs[NDIRECT] == old(mem[inum]).addrs[NDIRECT]
      ensures ok && o / BSIZE >= NDIRECT ==> mem[inum].addrs[NDIRECT] != 0
    {
      ghost var bn := o / BSIZE;
      assert SlotAddr(mem[inum], blocks, DataSlot(bn)) != 0 <==> bn * BSIZE < extent;
      var a := Bmap(inum, o / BSIZE);
      if a.None? {
        return false, 0;
      }
      ghost var news := MapPlaces(inum, bn);
      Wrote(sb, bitmap, old(mem), old(blocks), mem, blocks, owner, news, inum, o, d, extent);
      assert old(mem[inum]).addrs[NDIRECT] != 0 ==> mem[inum].addrs[NDIRECT] == old(mem[inum]).addrs[NDIRECT] by {
        assert AddrAt(old(mem), old(blocks), Place(inum, NDIRECT)) == old(mem[inum]).addrs[NDIRECT];
        assert AddrAt(mem, blocks, Place(inum, NDIRECT)) == mem[inum].addrs[NDIRECT];
      }
      PutBytes(a.value, o % BSIZE, d, old(bitmap), old(blocks), old(logged));
      return true, a.value;
    }

    /** `tot` bytes have been written since mem0 and blocks0. The quantifier keeps
        ownership and contents folded in the proofs about the loop. */
    ghost predicate Halfway(inum: nat, src: seq<byte>, off: nat, tot: nat, mem0: seq<Inode>, blocks0: seq<Bytes>)
      reads this
    {
      && inum < |mem| == |mem0| && tot <= |src| && off + |src| <= MAXFILE * BSIZE && InodesOk(mem)
      && forall t :: t == tot ==> OneOwner() && Written(mem0, blocks0, mem, blocks, inum, off, src, t)
    }

    lemma Fold(inum: nat, src: seq<byte>, off: nat, tot: nat, mem0: seq<Inode>, blocks0: seq<Bytes>)
      requires inum < |mem| == |mem0| && off + |src| <= MAXFILE * BSIZE
      requires OneOwner() && Written(mem0, blocks0, mem, blocks, inum, off, src, tot)
      ensures Halfway(inum, src, off, tot, mem0, blocks0)
    {
    }

    lemma Unfold(inum: nat, src: seq<byte>, off: nat, tot: nat, mem0: seq<Inode>, blocks0: seq<Bytes>)
      requires Halfway(inum, src, off, tot, mem0, blocks0)
      ensures OneOwner() && Written(mem0, blocks0, mem, blocks, inum, off, src, tot) && off <= mem0[inum].size
      ensures OthersMapped(mem, blocks, inum) && Mapped(mem[inum], blocks, Max(mem0[inum].size, off + tot))
    {
      assert Written(mem0, blocks0, mem, blocks, inum, off, src, tot);
      WrittenMapped(mem0, blocks0, mem, blocks, inum, off, src, tot);
    }

    /** The next m bytes, which lie in one block. */
    method WriteSlice(inum: nat, src: seq<byte>, off: nat, tot: nat, m: nat, ghost mem0: seq<Inode>,
                      ghost blocks0: seq<Bytes>)
      returns (ok: bool, ghost addr: nat)
      requires 1 <= m <= |src| - tot && Halfway(inum, src, off, tot, mem0, blocks0)
               && PassOk(off, tot, m, mem0[inum].size)
      modifies this`bitmap, this`blocks, this`mem, this`logged, this`owner
      ensures !ok ==> OneOwner() && |mem| == |old(mem)| && Full(bitmap, sb.size) && Fresh(mem0[inum].size, off + tot)
      ensures ok ==> Halfway(inum, src, off, tot + m, mem0, blocks0)
      ensures ok ==> Recorded(sb.bmapstart, old(bitmap), old(blocks), old(logged), bitmap, blocks, logged)
      ensures ok ==>
              logged <= old(logged) + PassLog(mem[inum], (off + tot) / BSIZE, Fresh(mem0[inum].size, off + tot), addr)
      ensures ok && old(mem[inum]).addrs[NDIRECT] != 0 ==> mem[inum].addrs[NDIRECT] == old(mem[inum]).addrs[NDIRECT]
      ensures ok && (off + tot) / BSIZE >= NDIRECT ==> mem[inum].addrs[NDIRECT] != 0
    {
      ghost var size := mem0[inum].size;
      Unfold(inum, src, off, tot, mem0, blocks0);
      ok, addr := WritePart(inum, off + tot, src[tot..tot + m], Max(size, off + tot));
      if ok {
        WrittenMore(mem0, blocks0, old(mem), old(blocks), mem, blocks, inum, off, src, tot, m);
        Fold(inum, src, off, tot + m, mem0, blocks0);
      }
    }

    /** One pass of writei's loop, with `tot` bytes of `src` already written. */
    method WritePass(inum: nat, src: seq<byte>, off: nat, tot: nat, ghost mem0: seq<Inode>, ghost blocks0: seq<Bytes>)
      returns (ok: bool, m: nat, ghost addr: nat)
      requires tot < |src| && Halfway(inum, src, off, tot, mem0, blocks0)
      requires tot == 0 || (off + tot) % BSIZE == 0
      modifies this`bitmap, this`blocks, this`mem, this`logged, this`owner
      ensures !ok ==> OneOwner() && |mem| == |old(mem)| && Full(bitmap, sb.size) && Fresh(mem0[inum].size, off + tot)
      ensures ok ==> Recorded(sb.bmapstart, old(bitmap), old(blocks), old(logged), bitmap, blocks, logged)
      ensures m == if |src| - tot < BSIZE - (off + tot) % BSIZE then |src| - tot else BSIZE - (off + tot) % BSIZE
      ensures off <= mem0[inum].size
      ensures ok ==> 1 <= m <= |src| - tot && Halfway(inum, src, off, tot + m, mem0, blocks0)
      ensures ok ==>
              logged <= old(logged) + PassLog(mem[inum], (off + tot) / BSIZE, Fresh(mem0[inum].size, off + tot), addr)
      ensures ok && old(mem[inum]).addrs[NDIRECT] != 0 ==> mem[inum].addrs[NDIRECT] == old(mem[inum]).addrs[NDIRECT]
      ensures ok && (off + tot) / BSIZE >= NDIRECT ==> mem[inum].addrs[NDIRECT] != 0
    {
      var o := off + tot;
      m := if |src| - tot < BSIZE - o % BSIZE then |src| - tot else BSIZE - o % BSIZE;
      Within(inum, src, off, tot, mem0, blocks0);
      PassBounds(off, tot, m, |src|, mem0[inum].size);
      ok, addr := WriteSlice(inum, src, off, tot, m, mem0, blocks0);
    }

    lemma Within(inum: nat, src: seq<byte>, off: nat, tot: nat, mem0: seq<Inode>, blocks0: seq<Bytes>)
      requires Halfway(inum, src, off, tot, mem0, blocks0)
      ensures off <= mem0[inum].size
    {
      Unfold(inum, src, off, tot, mem0, blocks0);
    }

    /** ... and the blocks logged for it are accounted for: no more than these, and every
        one that has changed. */
    ghost predicate Progress(inum: nat, src: seq<byte>, off: nat, tot: nat, mem0: seq<Inode>, bitmap0: seq<bv8>,
                             blocks0: seq<Bytes>, log0: set<nat>, data: set<nat>, maps: set<nat>)
      reads this
    {
      && Recorded(sb.bmapstart, bitmap0, blocks0, log0, bitmap, blocks, logged)
      && Halfway(inum, src, off, tot, mem0, blocks0)
      && Charged(logged, log0, data, maps, mem[inum].addrs[NDIRECT]) && Counted(data, maps, off, tot)
      && (0 < tot < |src| ==> (off + tot) % BSIZE == 0)
    }

    /** The same pass, with the blocks it logs added to the account. */
    method ChargedPass(inum: nat, src: seq<byte>, off: nat, tot: nat, ghost mem0: seq<Inode>, ghost bitmap0: seq<bv8>,
                       ghost blocks0: seq<Bytes>, ghost log0: set<nat>, ghost data: set<nat>, ghost maps: set<nat>)
      returns (ok: bool, m: nat, ghost data': set<nat>, ghost maps': set<nat>)
      requires tot < |src| && Progress(inum, src, off, tot, mem0, bitmap0, blocks0, log0, data, maps)
      modifies this`bitmap, this`blocks, this`mem, this`logged, this`owner
      ensures !ok ==> OneOwner() && |mem| == |old(mem)| && Full(bitmap, sb.size) && off + tot >= mem0[inum].size
      ensures ok ==>
              1 <= m <= |src| - tot && Progress(inum, src, off, tot + m, mem0, bitmap0, blocks0, log0, data', maps')
    {
      ghost var bitmap1, blocks1, log1, ind := bitmap, blocks, logged, mem[inum].addrs[NDIRECT];
      ghost var grew := Fresh(mem0[inum].size, off + tot);
      ghost var a;
      ok, m, a := WritePass(inum, src, off, tot, mem0, blocks0);
      data', maps' := data + {a}, if grew then maps + {BBlock(a)} else maps;
      if ok {
        RecordedTwice(sb.bmapstart, bitmap0, blocks0, log0, bitmap1, blocks1, log1, bitmap, blocks, logged);
        Charge(log1, log0, logged, data, maps, ind, mem[inum], (off + tot) / BSIZE, grew, a);
        Count(data, maps, off, tot, m, |src|, mem0[inum].size, a, BBlock(a), grew);
      }
    }

    /** writei's loop, from a state in which nothing has been written; false is a panic. */
    method WriteAll(inum: nat, src: seq<byte>, off: nat, ghost mem0: seq<Inode>, ghost bitmap0: seq<bv8>,
                    ghost blocks0: seq<Bytes>, ghost log0: set<nat>)
      returns (ok: bool, ghost data: set<nat>, ghost maps: set<nat>)
      requires Progress(inum, src, off, 0, mem0, bitmap0, blocks0, log0, {}, {})
      modifies this`bitmap, this`blocks, this`mem, this`logged, this`owner
      ensures !ok ==> OneOwner() && |mem| == |mem0| && Full(bitmap, sb.size)
      ensures !ok ==> inum < |mem0| && off + |src| > mem0[inum].size
      ensures ok ==> Progress(inum, src, off, |src|, mem0, bitmap0, blocks0, log0, data, maps)
    {
      data, maps := {}, {};
      var tot := 0;
      while tot < |src|
        invariant 0 <= tot <= |src| && Progress(inum, src, off, tot, mem0, bitmap0, blocks0, log0, data, maps)
      {
        var m;
        ok, m, data, maps := ChargedPass(inum, src, off, tot, mem0, bitmap0, blocks0, log0, data, maps);
        if !ok {
          return;
        }
        tot := tot + m;
      }
      ok := true;
    }

    /** writei's loop; false is a panic. */
    method WriteLoop(inum: nat, src: seq<byte>, off: nat) returns (ok: bool, ghost data: set<nat>, ghost maps: set<nat>)
      requires Valid() && inum < |mem| && off <= mem[inum].size && off + |src| <= MAXFILE * BSIZE
      modifies this`bitmap, this`blocks, this`mem, this`logged, this`owner
      ensures OneOwner() && |mem| == |old(mem)|
      ensures !ok ==> Full(bitmap, sb.size) && off + |src| > old(mem[inum]).size
      ensures ok ==> Recorded(sb.bmapstart, old(bitmap), old(blocks), old(logged), bitmap, blocks, logged)
      ensures ok ==> Written(old(mem), old(blocks), mem, blocks, inum, off, src, |src|)
      ensures ok ==>
              Charged(logged, old(logged), data, maps, mem[inum].addrs[NDIRECT]) && Counted(data, maps, off, |src|)
    {
      WrittenNothing(mem, blocks, inum, off, src);
      RecordedSelf(sb.bmapstart, bitmap, blocks, logged);
      ok, data, maps := WriteAll(inum, src, off, mem, bitmap, blocks, logged);
      assert ok ==> Written(old(mem), old(blocks), mem, blocks, inum, off, src, |src|);
    }

    /** writei, on an inode whose disk inode is up to date. `mine` bounds the blocks it
        logs. */
    method Writei(inum: nat, src: seq<byte>, off: nat) returns (r: Result, ghost mine: set<nat>)
      requires Valid() && mem == disk && inum < |mem| && off < UINT && |src| < UINT
      modifies this
      ensures r.Device? <==> old(mem[inum]).kind == T_DEV
      ensures r.Error? <==>
                && old(mem[inum]).kind != T_DEV
                && (off > old(mem[inum]).size || off + |src| >= UINT || off + |src| > MAXFILE * BSIZE)
      ensures r.Device? || r.Error? ==>
              Same(old(bitmap), old(blocks), old(mem), old(disk), old(owner), old(logged)) && Valid()
      ensures r.Panic? ==> OneOwner() && Full(bitmap, sb.size) && off + |src| > old(mem[inum]).size && disk == old(disk)
      ensures r.Done? ==> Logs(old(bitmap), old(blocks), old(disk), old(logged))
      ensures r.Done? ==> Valid() && mem == disk && r.n == |src| && |mem| == |old(mem)|
      ensures r.Done? ==> File(mem[inum], blocks) == Splice(File(old(mem[inum]), old(blocks)), off, src)
      ensures r.Done? ==> forall m :: 0 <= m < |mem| && m != inum ==>
              mem[m] == old(mem[m]) && File(mem[m], blocks) == File(old(mem[m]), old(blocks))
      ensures r.Done? ==>
              mem[inum].kind == old(mem[inum]).kind && logged <= old(logged) + mine && |mine| <= LogBound(off, |src|)
    {
      mine := {};
      if mem[inum].kind == T_DEV {
        return Device, mine;
      }
      if off > mem[inum].size || (off + |src|) % UINT < off {
        return Error, mine;
      }
      if off + |src| > MAXFILE * BSIZE {
        return Error, mine;
      }
      var ok;
      ghost var data, maps;
      ok, data, maps := WriteLoop(inum, src, off);
      if !ok {
        return Panic, mine;
      }
      assert src[..|src|] == src;
      ghost var logged1 := logged;
      mine := Mine(data, maps, mem[inum].addrs[NDIRECT], inum);
      if |src| > 0 && off + |src| > mem[inum].size {
        ResizeKeepsOwned(sb, bitmap, blocks, mem, owner, inum, mem[inum].(size := off + |src|));
        SameAddrs(mem[inum], mem[inum].(size := off + |src|), blocks, off + |src|);
        mem := mem[inum := mem[inum].(size := off + |src|)];
        Iupdate(inum);
        RecordedMore(sb.bmapstart, old(bitmap), old(blocks), old(logged), bitmap, blocks, logged1, logged);
      }
      return Done(|src|), mine;
    }

    ghost function Mine(data: set<nat>, maps: set<nat>, ind: nat, inum: nat): (s: set<nat>)
      ensures |s| <= |data| + |maps| + 3
    {
      data + maps + (if ind == 0 then {} else {ind, BBlock(ind)}) + {IBlock(inum)}
    }

    /** The bitmap blocks of the blocks that the places in `gone` own. */
    ghost function FreeLog(owner: map<nat, Place>, gone: set<Place>): set<nat> {
      set a | a in owner && owner[a] in gone :: BBlock(a)
    }

    /** Freeing in two rounds logs what freeing at once would. */
    lemma FreeLogMore(owner: map<nat, Place>, gone: set<Place>, more: set<Place>)
      requires gone !! more
      ensures FreeLog(owner, gone + more) == FreeLog(owner, gone) + FreeLog(Minus(owner, gone), more)
    {
      var rest := Minus(owner, gone);
      forall x | x in FreeLog(owner, gone + more) ensures x in FreeLog(owner, gone) + FreeLog(rest, more) {
        var a :| a in owner && owner[a] in gone + more && x == BBlock(a);
        assert owner[a] !in gone ==> a in rest && rest[a] in more;
      }
      forall x | x in FreeLog(rest, more) ensures x in FreeLog(owner, gone + more) {
        var a :| a in rest && rest[a] in more && x == BBlock(a);
        assert a in owner && owner[a] in gone + more;
      }
      forall x | x in FreeLog(owner, gone) ensures x in FreeLog(owner, gone + more) {
        var a :| a in owner && owner[a] in gone && x == BBlock(a);
        assert owner[a] in gone + more;
      }
    }

    /** A place owns the block at its address and no other. */
    lemma FreeLogAt(dead: set<Place>, p: Place)
      requires Owned(sb, bitmap, blocks, mem, owner, dead) && IsPlace(mem, p) && p !in dead
      ensures var a := AddrAt(mem, blocks, p); FreeLog(owner, {p}) == if a == 0 then {} else {BBlock(a)}
    {
      var a := AddrAt(mem, blocks, p);
      if a != 0 {
        assert owner[a] in {p};
      }
    }

    /** itrunc's step for one direct slot; false is a panic in bfree. */
    method FreeDirect(inum: nat, k: nat) returns (ok: bool)
      requires OneOwner() && inum < |mem| && k < NDIRECT
      modifies this`bitmap, this`mem, this`owner, this`logged
      ensures ok && OneOwner() && mem == old(mem)[inum := WithAddr(old(mem[inum]), k, 0)]
      ensures owner == Minus(old(owner), {Place(inum, k)})
      ensures logged == old(logged) + FreeLog(old(owner), {Place(inum, k)})
      ensures Recorded(sb.bmapstart, old(bitmap), old(blocks), old(logged), bitmap, blocks, logged)
    {
      RecordedSelf(sb.bmapstart, bitmap, blocks, logged);
      var a := mem[inum].addrs[k];
      assert AddrAt(mem, blocks, Place(inum, k)) == a;
      FreedMinus(sb, bitmap, blocks, mem, owner, {}, Place(inum, k));
      FreeLogAt({}, Place(inum, k));
      if a != 0 {
        ok := Bfree(a);
        if !ok {
          return;
        }
        var mem' := mem[inum := WithAddr(mem[inum], k, 0)];
        owner := Minus(owner, {Place(inum, k)});
        forall p | IsPlace(mem, p) ensures AddrAt(mem', blocks, p) == if p ==
            Place(inum, k) then 0 else AddrAt(mem, blocks, p) {
        }
        Erased(sb, bitmap, blocks, mem, owner, {} + {Place(inum, k)}, mem', {});
        mem := mem';
      } else {
        ok := true;
        assert mem[inum].addrs[k := 0] == mem[inum].addrs;
        assert mem == mem[inum := WithAddr(mem[inum], k, 0)];
      }
    }

    /** itrunc's step for one entry of the indirect block. */
    method FreeEntry(inum: nat, j: nat) returns (ok: bool)
      requires inum < |mem| && j < NINDIRECT && Owned(sb, bitmap, blocks, mem, owner, Entries(inum, j))
      requires 0 != mem[inum].addrs[NDIRECT] < |blocks|
      modifies this`bitmap, this`owner, this`logged
      ensures ok && owner == Minus(old(owner), {Place(inum, NDIRECT + 1 + j)})
      ensures Owned(sb, bitmap, blocks, mem, owner, Entries(inum, j + 1))
      ensures logged == old(logged) + FreeLog(old(owner), {Place(inum, NDIRECT + 1 + j)})
      ensures Recorded(sb.bmapstart, old(bitmap), old(blocks), old(logged), bitmap, blocks, logged)
    {
      RecordedSelf(sb.bmapstart, bitmap, blocks, logged);
      var a := Word(blocks[mem[inum].addrs[NDIRECT]], j);
      ghost var p := Place(inum, NDIRECT + 1 + j);
      assert AddrAt(mem, blocks, p) == a;
      assert p !in Entries(inum, j);
      assert Entries(inum, j + 1) == Entries(inum, j) + {p};
      FreedMinus(sb, bitmap, blocks, mem, owner, Entries(inum, j), p);
      FreeLogAt(Entries(inum, j), p);
      if a != 0 {
        ok := Bfree(a);
        if !ok {
          return;
        }
      } else {
        ok := true;
      }
      owner := Minus(owner, {p});
    }

    /** The entries below j have been freed, from an account of owner0 and log0. The
        quantifier keeps the ownership folded in the proof of the loop. */
    ghost predicate EntriesFreed(bitmap0: seq<bv8>, owner0: map<nat, Place>, log0: set<nat>, inum: nat, j: nat)
      reads this
    {
      && (forall dead :: dead == Entries(inum, j) ==> Owned(sb, bitmap, blocks, mem, owner, dead))
      && Recorded(sb.bmapstart, bitmap0, blocks, log0, bitmap, blocks, logged)
      && owner == Minus(owner0, Entries(inum, j)) && logged == log0 + FreeLog(owner0, Entries(inum, j))
    }

    lemma NoneFreed(inum: nat)
      requires OneOwner()
      ensures EntriesFreed(bitmap, owner, logged, inum, 0)
    {
      RecordedSelf(sb.bmapstart, bitmap, blocks, logged);
      assert Entries(inum, 0) == {};
      assert FreeLog(owner, {}) == {};
      assert Minus(owner, {}) == owner;
    }

    lemma NextEntry(owner: map<nat, Place>, inum: nat, j: nat)
      ensures var es, p := Entries(inum, j), Place(inum, NDIRECT + 1 + j);
              && Minus(owner, Entries(inum, j + 1)) == Minus(Minus(owner, es), {p})
              && FreeLog(owner, Entries(inum, j + 1)) == FreeLog(owner, es) + FreeLog(Minus(owner, es), {p})
    {
      var p := Place(inum, NDIRECT + 1 + j);
      assert Entries(inum, j + 1) == Entries(inum, j) + {p};
      MinusTwice(owner, Entries(inum, j), {p});
      FreeLogMore(owner, Entries(inum, j), {p});
    }

    method FreeNext(inum: nat, j: nat, ghost bitmap0: seq<bv8>, ghost owner0: map<nat, Place>, ghost log0: set<nat>)
      returns (ok: bool)
      requires inum < |mem| && j < NINDIRECT && EntriesFreed(bitmap0, owner0, log0, inum, j)
      requires InodesOk(mem) && 0 != mem[inum].addrs[NDIRECT] < |blocks|
      modifies this`bitmap, this`owner, this`logged
      ensures ok && EntriesFreed(bitmap0, owner0, log0, inum, j + 1)
    {
      NextEntry(owner0, inum, j);
      ok := FreeEntry(inum, j);
      RecordedTwice(sb.bmapstart, bitmap0, blocks, log0, old(bitmap), blocks, old(logged), bitmap, blocks, logged);
    }

    /** itrunc's loop over the entries of the indirect block. */
    method FreeEntries(inum: nat) returns (ok: bool)
      requires OneOwner() && inum < |mem| && 0 != mem[inum].addrs[NDIRECT] < |blocks|
      modifies this`bitmap, this`owner, this`logged
      ensures ok && EntriesFreed(old(bitmap), old(owner), old(logged), inum, NINDIRECT)
    {
      var j := 0;
      ok := true;
      NoneFreed(inum);
      while j < NINDIRECT
        invariant 0 <= j <= NINDIRECT && ok && EntriesFreed(old(bitmap), old(owner), old(logged), inum, j)
      {
        ok := FreeNext(inum, j, old(bitmap), old(owner), old(logged));
        j := j + 1;
      }
    }

    /** The indirect block itself, once its entries are freed. */
    method FreeMap(inum: nat) returns (ok: bool)
      requires inum < |mem| && Owned(sb, bitmap, blocks, mem, owner, Entries(inum, NINDIRECT))
      requires 0 != mem[inum].addrs[NDIRECT] < |blocks|
      modifies this`bitmap, this`mem, this`owner, this`logged
      ensures ok && OneOwner() && mem == old(mem)[inum := WithAddr(old(mem[inum]), NDIRECT, 0)]
      ensures owner == Minus(old(owner), {Place(inum, NDIRECT)})
      ensures logged == old(logged) + FreeLog(old(owner), {Place(inum, NDIRECT)})
      ensures Recorded(sb.bmapstart, old(bitmap), old(blocks), old(logged), bitmap, blocks, logged)
    {
      ghost var at, es := Place(inum, NDIRECT), Entries(inum, NINDIRECT);
      assert AddrAt(mem, blocks, at) == mem[inum].addrs[NDIRECT];
      FreedMinus(sb, bitmap, blocks, mem, owner, es, at);
      FreeLogAt(es, at);
      ok := Bfree(mem[inum].addrs[NDIRECT]);
      if !ok {
        return;
      }
      owner := Minus(owner, {at});
      var mem' := mem[inum := WithAddr(mem[inum], NDIRECT, 0)];
      forall p | IsPlace(mem, p)
        ensures AddrAt(mem', blocks, p) == if p !in es + {at} then AddrAt(mem, blocks, p) else 0
      {
        assert p.i == inum ==> p == Place(inum, p.k);
      }
      Erased(sb, bitmap, blocks, mem, owner, es + {at}, mem', {});
      mem := mem';
    }

    /** itrunc's part for the indirect block. */
    method FreeIndirect(inum: nat) returns (ok: bool)
      requires OneOwner() && inum < |mem|
      modifies this`bitmap, this`mem, this`owner, this`logged
      ensures ok && OneOwner() && mem == old(mem)[inum := WithAddr(old(mem[inum]), NDIRECT, 0)]
      ensures owner == Minus(old(owner), Entries(inum, NINDIRECT) + {Place(inum, NDIRECT)})
      ensures logged == old(logged) + FreeLog(old(owner), Entries(inum, NINDIRECT) + {Place(inum, NDIRECT)})
      ensures Recorded(sb.bmapstart, old(bitmap), old(blocks), old(logged), bitmap, blocks, logged)
    {
      RecordedSelf(sb.bmapstart, bitmap, blocks, logged);
      ghost var at, es := Place(inum, NDIRECT), Entries(inum, NINDIRECT);
      IndirectOwned(sb, bitmap, blocks, mem, owner, {}, inum);
      if mem[inum].addrs[NDIRECT] != 0 {
        MinusTwice(owner, es, {at});
        FreeLogMore(owner, es, {at});
        ok := FreeEntries(inum);
        ghost var bitmap1, logged1 := bitmap, logged;
        ok := FreeMap(inum);
        RecordedTwice(sb.bmapstart, old(bitmap), blocks, old(logged), bitmap1, blocks, logged1, bitmap, blocks, logged);
      } else {
        assert mem[inum].addrs[NDIRECT := 0] == mem[inum].addrs;
        assert mem == mem[inum := WithAddr(mem[inum], NDIRECT, 0)];
        forall a | a in owner ensures owner[a] !in es + {at} {
          assert AddrAt(mem, blocks, owner[a]) == a;
        }
        assert Minus(owner, es + {at}) == owner;
        ok := true;
      }
    }

    lemma NextSlot(owner: map<nat, Place>, inum: nat, i: nat)
      ensures var es, p := Slots(inum, i), Place(inum, i);
              && Minus(owner, Slots(inum, i + 1)) == Minus(Minus(owner, es), {p})
              && FreeLog(owner, Slots(inum, i + 1)) == FreeLog(owner, es) + FreeLog(Minus(owner, es), {p})
    {
      var p := Place(inum, i);
      assert Slots(inum, i + 1) == Slots(inum, i) + {p};
      MinusTwice(owner, Slots(inum, i), {p});
      FreeLogMore(owner, Slots(inum, i), {p});
    }

    /** The direct slots below i have been freed, from mem0, owner0 and log0; ownership is
        folded as above. */
    ghost predicate DirectsFreed(mem0: seq<Inode>, bitmap0: seq<bv8>, owner0: map<nat, Place>, log0: set<nat>,
                                 inum: nat, i: nat)
      reads this
    {
      && inum < |mem| == |mem0| && InodesOk(mem) && i <= NDIRECT
      && (forall dead :: dead == {} ==> Owned(sb, bitmap, blocks, mem, owner, dead))
      && Recorded(sb.bmapstart, bitmap0, blocks, log0, bitmap, blocks, logged)
      && mem == mem0[inum := mem0[inum].(addrs := mem[inum].addrs)]
      && (forall k :: 0 <= k < i ==> mem[inum].addrs[k] == 0)
      && owner == Minus(owner0, Slots(inum, i)) && logged == log0 + FreeLog(owner0, Slots(inum, i))
    }

    method FreeNextDirect(inum: nat, i: nat, ghost mem0: seq<Inode>, ghost bitmap0: seq<bv8>,
                          ghost owner0: map<nat, Place>, ghost log0: set<nat>)
      returns (ok: bool)
      requires i < NDIRECT && DirectsFreed(mem0, bitmap0, owner0, log0, inum, i)
      modifies this`bitmap, this`mem, this`owner, this`logged
      ensures ok && DirectsFreed(mem0, bitmap0, owner0, log0, inum, i + 1)
    {
      NextSlot(owner0, inum, i);
      ok := FreeDirect(inum, i);
      RecordedTwice(sb.bmapstart, bitmap0, blocks, log0, old(bitmap), blocks, old(logged), bitmap, blocks, logged);
    }

    /** itrunc's loop over the direct slots. */
    method FreeDirects(inum: nat) returns (ok: bool)
      requires OneOwner() && inum < |mem|
      modifies this`bitmap, this`mem, this`owner, this`logged
      ensures ok && DirectsFreed(old(mem), old(bitmap), old(owner), old(logged), inum, NDIRECT)
    {
      var i := 0;
      ok := true;
      RecordedSelf(sb.bmapstart, bitmap, blocks, logged);
      assert Slots(inum, 0) == {} && Minus(owner, {}) == owner && FreeLog(owner, {}) == {};
      while i < NDIRECT
        invariant 0 <= i <= NDIRECT && ok && DirectsFreed(old(mem), old(bitmap), old(owner), old(logged), inum, i)
      {
        ok := FreeNextDirect(inum, i, old(mem), old(bitmap), old(owner), old(logged));
        i := i + 1;
      }
    }

    /** itrunc: every block of the file is freed, without a panic, and the file is empty. */
    method Itrunc(inum: nat) returns (ok: bool)
      requires Valid() && mem == disk && inum < |mem|
      modifies this
      ensures ok && Valid() && mem == disk && blocks == old(blocks)
      ensures mem == old(mem)[inum := Inode(old(mem[inum]).kind, 0, seq(NDIRECT + 1, _ => 0))]
      ensures forall b :: 0 <= b < sb.size ==>
                (Bit(bitmap, b) <==> old(Bit(bitmap, b)) && !(b in old(owner) && old(owner[b]).i == inum))
      ensures logged == old(logged) + FreeLog(old(owner), Slots(inum, NSLOTS)) + {IBlock(inum)}
      ensures Logs(old(bitmap), old(blocks), old(disk), old(logged))
      ensures forall m :: 0 <= m < |mem| && m != inum ==> File(mem[m], blocks) == old(File(mem[m], blocks))
    {
      ok := FreeDirects(inum);
      ghost var es := Entries(inum, NINDIRECT) + {Place(inum, NDIRECT)};
      FreeLogMore(old(owner), Slots(inum, NDIRECT), es);
      ghost var bitmap1, logged1 := bitmap, logged;
      ok := FreeIndirect(inum);
      RecordedTwice(sb.bmapstart, old(bitmap), blocks, old(logged), bitmap1, blocks, logged1, bitmap, blocks, logged);
      RecordedMore(sb.bmapstart, old(bitmap), blocks, old(logged), bitmap, blocks, logged, logged + {IBlock(inum)});
      assert Slots(inum, NSLOTS) == Slots(inum, NDIRECT) + es;
      MinusTwice(old(owner), Slots(inum, NDIRECT), es);
      ResizeKeepsOwned(sb, bitmap, blocks, mem, owner, inum, mem[inum].(size := 0));
      mem := mem[inum := mem[inum].(size := 0)];
      assert mem[inum].addrs == seq(NDIRECT + 1, _ => 0);
      Iupdate(inum);
      assert Mapped(mem[inum], blocks, 0);
    }

    /** `logged` grew by data blocks, their bitmap blocks, and the indirect block `ind`
        with its bitmap block. */
    ghost predicate Charged(log: set<nat>, log0: set<nat>, data: set<nat>, maps: set<nat>, ind: nat) {
      log <= log0 + data + maps + if ind == 0 then {} else {ind, BBlock(ind)}
    }

    lemma Charge(log1: set<nat>, log0: set<nat>, log2: set<nat>, data: set<nat>, maps: set<nat>, ind: nat,
                 ip': Inode, bn: nat, grew: bool, a: nat)
      requires InodeOk(ip') && Charged(log1, log0, data, maps, ind) && log2 <= log1 + PassLog(ip', bn, grew, a)
      requires ind != 0 ==> ip'.addrs[NDIRECT] == ind
      requires bn >= NDIRECT ==> ip'.addrs[NDIRECT] != 0
      ensures Charged(log2, log0, data + {a}, if grew then maps + {BBlock(a)} else maps, ip'.addrs[NDIRECT])
    {
    }
  }

  // -------------------------------------------------- what has changed is logged

  ghost predicate BlocksIn(a: seq<Bytes>, b: seq<Bytes>, log: set<nat>) {
    |a| == |b| && forall k {:trigger a[k]} {:trigger b[k]} :: 0 <= k < |a| && a[k] != b[k] ==> k in log
  }

  /** Byte k of the bitmap lies in bitmap block k / BSIZE. */
  ghost predicate MapIn(start: nat, a: seq<bv8>, b: seq<bv8>, log: set<nat>) {
    |a| == |b| && forall k {:trigger a[k]} {:trigger b[k]} :: 0 <= k < |a| && a[k] != b[k] ==> k / BSIZE + start in log
  }

  ghost predicate InodesIn(start: nat, a: seq<Inode>, b: seq<Inode>, log: set<nat>) {
    |a| == |b| && forall i {:trigger a[i]} {:trigger b[i]} :: 0 <= i < |a| && a[i] != b[i] ==> i / IPB + start in log
  }

  /** From (m0, b0, log0) to (m1, b1, log1) every block that changed, of the bitmap or
      elsewhere, has been logged. The quantifier keeps this folded in proofs that only
      pass it on. */
  ghost predicate Recorded(start: nat, m0: seq<bv8>, b0: seq<Bytes>, log0: set<nat>, m1: seq<bv8>, b1: seq<Bytes>,
                           log1: set<nat>) {
    && log0 <= log1
    && forall log {:trigger BlocksIn(b0, b1, log)} :: log == log1 ==> BlocksIn(b0, b1, log) && MapIn(start, m0, m1, log)
  }

  lemma RecordedSelf(start: nat, m: seq<bv8>, b: seq<Bytes>, log: set<nat>)
    ensures Recorded(start, m, b, log, m, b, log)
  {
  }

  lemma RecordedTwice(start: nat, m0: seq<bv8>, b0: seq<Bytes>, log0: set<nat>, m1: seq<bv8>, b1: seq<Bytes>,
                      log1: set<nat>, m2: seq<bv8>, b2: seq<Bytes>, log2: set<nat>)
    requires Recorded(start, m0, b0, log0, m1, b1, log1) && Recorded(start, m1, b1, log1, m2, b2, log2)
    ensures Recorded(start, m0, b0, log0, m2, b2, log2)
  {
    assert BlocksIn(b0, b1, log1) && BlocksIn(b1, b2, log2);
    forall k | 0 <= k < |b0| && b0[k] != b2[k] ensures k in log2 {
      assert b0[k] != b1[k] || b1[k] != b2[k];
    }
    forall k | 0 <= k < |m0| && m0[k] != m2[k] ensures k / BSIZE + start in log2 {
      assert m0[k] != m1[k] || m1[k] != m2[k];
    }
  }

  lemma InodesTwice(start: nat, a: seq<Inode>, b: seq<Inode>, c: seq<Inode>, log1: set<nat>, log2: set<nat>)
    requires InodesIn(start, a, b, log1) && InodesIn(start, b, c, log2) && log1 <= log2
    ensures InodesIn(start, a, c, log2)
  {
    forall i | 0 <= i < |a| && a[i] != c[i] ensures i / IPB + start in log2 {
      assert a[i] != b[i] || b[i] != c[i];
    }
  }

  lemma RecordedMore(start: nat, m0: seq<bv8>, b0: seq<Bytes>, log0: set<nat>, m1: seq<bv8>, b1: seq<Bytes>,
                     log1: set<nat>, log2: set<nat>)
    requires Recorded(start, m0, b0, log0, m1, b1, log1) && log1 <= log2
    ensures Recorded(start, m0, b0, log0, m1, b1, log2)
  {
    assert BlocksIn(b0, b1, log1);
  }

  /** The byte of block b's bit is in b's bitmap block. */
  lemma BitInBlock(b: nat)
    ensures ByteOf(b) / BSIZE == b / BPB
  {
  }

  lemma MapRecorded(start: nat, m: seq<bv8>, v: bv8, blocks: seq<Bytes>, log: set<nat>, b: nat)
    requires ByteOf(b) < |m|
    ensures Recorded(start, m, blocks, log, m[ByteOf(b) := v], blocks, log + {b / BPB + start})
  {
    BitInBlock(b);
    var m', log' := m[ByteOf(b) := v], log + {b / BPB + start};
    forall k | 0 <= k < |m| && m[k] != m'[k] ensures k / BSIZE + start in log' {
      assert k == ByteOf(b);
    }
    assert MapIn(start, m, m', log');
  }

  lemma PatchRecorded(start: nat, m0: seq<bv8>, b0: seq<Bytes>, log0: set<nat>, m1: seq<bv8>, b1: seq<Bytes>,
                      log1: set<nat>, a: nat, v: Bytes)
    requires Recorded(start, m0, b0, log0, m1, b1, log1) && a < |b1|
    ensures Recorded(start, m0, b0, log0, m1, b1[a := v], log1 + {a})
  {
    assert BlocksIn(b0, b1, log1);
  }

  lemma AllocRecorded(start: nat, m: seq<bv8>, blocks: seq<Bytes>, log: set<nat>, b: nat)
    requires ByteOf(b) < |m| && b < |blocks|
    ensures Recorded(start, m, blocks, log, WithBit(m, b), blocks[b := ZeroBlock()], log + {b / BPB + start, b})
  {
    MapRecorded(start, m, WithBit(m, b)[ByteOf(b)], blocks, log, b);
    PatchRecorded(start, m, blocks, log, WithBit(m, b), blocks, log + {b / BPB + start}, b, ZeroBlock());
    assert log + {b / BPB + start} + {b} == log + {b / BPB + start, b};
  }

  lemma EntryRecorded(start: nat, m: seq<bv8>, blocks: seq<Bytes>, log: set<nat>, b: nat, ind: nat, v: Bytes)
    requires ByteOf(b) < |m| && b < |blocks| && ind < |blocks|
    ensures Recorded(start, m, blocks, log, WithBit(m, b), blocks[b := ZeroBlock()][ind := v],
                     log + {b / BPB + start, b, ind})
  {
    AllocRecorded(start, m, blocks, log, b);
    var log1 := log + {b / BPB + start, b};
    PatchRecorded(start, m, blocks, log, WithBit(m, b), blocks[b := ZeroBlock()], log1, ind, v);
    assert log1 + {ind} == log + {b / BPB + start, b, ind};
  }

  ghost predicate OthersMapped(inodes: seq<Inode>, blocks: seq<Bytes>, i: nat) {
    InodesOk(inodes) && forall m {:trigger inodes[m]} :: 0 <= m < |inodes| && m != i ==>
        Mapped(inodes[m], blocks, inodes[m].size)
  }

  /** Files other than i are mapped and read as before. */
  ghost predicate OthersKept(inodes: seq<Inode>, blocks: seq<Bytes>, inodes': seq<Inode>, blocks': seq<Bytes>, i: nat) {
    && InodesOk(inodes) && InodesOk(inodes') && |inodes'| == |inodes|
    && forall m {:trigger inodes'[m]} :: 0 <= m < |inodes| && m != i ==>
         Mapped(inodes'[m], blocks', inodes'[m].size) && File(inodes'[m], blocks') == File(inodes[m], blocks)
  }

  /** A patch of one block after the map has grown for it, for all files at once. */
  lemma Wrote(sb: Super, bitmap: seq<bv8>, inodes0: seq<Inode>, blocks0: seq<Bytes>, inodes: seq<Inode>,
              blocks: seq<Bytes>,
              owner: map<nat, Place>, news: set<Place>, i: nat, off: nat, d: seq<byte>, extent: nat)
    requires Owned(sb, bitmap, blocks, inodes, owner, {}) && Grown(inodes0, blocks0, inodes, blocks, news)
    requires i < |inodes| && off <= extent && off / BSIZE < MAXFILE && |d| >= 1 && off % BSIZE + |d| <= BSIZE
    requires Mapped(inodes0[i], blocks0, extent) && SlotAddr(inodes[i], blocks, DataSlot(off / BSIZE)) != 0
    requires off / BSIZE >= NDIRECT ==> inodes[i].addrs[NDIRECT] != 0
    requires news == MapPlaces(i, off / BSIZE)
    requires OthersMapped(inodes0, blocks0, i) && inodes == inodes0[i := inodes0[i].(addrs := inodes[i].addrs)]
    ensures SlotAddr(inodes[i], blocks, DataSlot(off / BSIZE)) < |blocks|
    ensures var a := SlotAddr(inodes[i], blocks, DataSlot(off / BSIZE));
            var blocks' := blocks[a := Patch(blocks[a], off % BSIZE, d)];
            && Owned(sb, bitmap, blocks', inodes, owner, {})
            && Mapped(inodes[i], blocks', Max(extent, off + |d|))
            && View(inodes[i], blocks', Max(extent, off + |d|)) == Splice(View(inodes0[i], blocks0, extent), off, d)
            && OthersKept(inodes0, blocks0, inodes, blocks', i)
  {
    WroteHere(sb, bitmap, inodes0, blocks0, inodes, blocks, owner, news, i, off, d, extent);
    forall m | 0 <= m < |inodes| && m != i
      ensures var a := SlotAddr(inodes[i], blocks, DataSlot(off / BSIZE));
              var b := blocks[a := Patch(blocks[a], off % BSIZE, d)];
              Mapped(inodes[m], b, inodes[m].size) && File(inodes[m], b) == File(inodes0[m], blocks0)
    {
      WroteElsewhere(sb, bitmap, inodes0, blocks0, inodes, blocks, owner, news, i, off, d, m);
    }
  }

  /** Inode i has the first `tot` bytes of `src` written over its file at `off`; nothing
      else reads differently, and no inode changed unless the file has outgrown its
      recorded size. */
  ghost predicate Written(inodes0: seq<Inode>, blocks0: seq<Bytes>, inodes: seq<Inode>, blocks: seq<Bytes>, i: nat,
                          off: nat, src: seq<byte>, tot: nat) {
    && OthersKept(inodes0, blocks0, inodes, blocks, i)
    && i < |inodes0| && off <= inodes0[i].size && tot <= |src|
    && inodes == inodes0[i := inodes0[i].(addrs := inodes[i].addrs)]
    && (off + tot <= inodes0[i].size ==> inodes == inodes0)
    && var extent := Max(inodes0[i].size, off + tot);
       && Mapped(inodes[i], blocks, extent)
       && View(inodes[i], blocks, extent) == Splice(File(inodes0[i], blocks0), off, src[..tot])
  }

  lemma WrittenNothing(inodes: seq<Inode>, blocks: seq<Bytes>, i: nat, off: nat, src: seq<byte>)
    requires i < |inodes| && AllMapped(inodes, blocks, |inodes|) && off <= inodes[i].size
    ensures Written(inodes, blocks, inodes, blocks, i, off, src, 0)
  {
    assert Mapped(inodes[i], blocks, inodes[i].size);
    assert inodes == inodes[i := inodes[i].(addrs := inodes[i].addrs)];
  }

  lemma WrittenMapped(inodes0: seq<Inode>, blocks0: seq<Bytes>, inodes: seq<Inode>, blocks: seq<Bytes>,
                      i: nat, off: nat, src: seq<byte>, tot: nat)
    requires Written(inodes0, blocks0, inodes, blocks, i, off, src, tot)
    ensures OthersMapped(inodes, blocks, i) && Mapped(inodes[i], blocks, Max(inodes0[i].size, off + tot))
  {
  }

  lemma WrittenMore(inodes0: seq<Inode>, blocks0: seq<Bytes>, inodes1: seq<Inode>, blocks1: seq<Bytes>,
                    inodes: seq<Inode>, blocks: seq<Bytes>,
                    i: nat, off: nat, src: seq<byte>, tot: nat, m: nat)
    requires Written(inodes0, blocks0, inodes1, blocks1, i, off, src, tot) && tot + m <= |src|
    requires OthersKept(inodes1, blocks1, inodes, blocks, i)
    requires inodes == inodes1[i := inodes1[i].(addrs := inodes[i].addrs)]
    requires off + tot + m <= inodes0[i].size ==> inodes == inodes1
    requires Mapped(inodes[i], blocks, Max(inodes0[i].size, off + tot + m))
    requires View(inodes[i], blocks, Max(inodes0[i].size, off + tot + m))
               == Splice(View(inodes1[i], blocks1, Max(inodes0[i].size, off + tot)), off + tot, src[tot..tot + m])
    ensures Written(inodes0, blocks0, inodes, blocks, i, off, src, tot + m)
  {
    SpliceNext(File(inodes0[i], blocks0), off, src, tot, m);
    forall k | 0 <= k < |inodes| && k != i ensures File(inodes[k], blocks) == File(inodes0[k], blocks0) {
      assert File(inodes[k], blocks) == File(inodes1[k], blocks1);
    }
  }

  /** The arithmetic of one pass of writei's loop. */
  lemma PassArith(off: nat, tot: nat, m: nat, n: nat, size: nat)
    requires tot < n && off <= size && (tot == 0 || (off + tot) % BSIZE == 0)
    requires m == if n - tot < BSIZE - (off + tot) % BSIZE then n - tot else BSIZE - (off + tot) % BSIZE
    ensures 1 <= m <= n - tot && m <= BSIZE - (off + tot) % BSIZE
    ensures off + n <= MAXFILE * BSIZE ==> (off + tot) / BSIZE < MAXFILE
    ensures tot + m < n ==> (off + tot + m) % BSIZE == 0
    ensures Touched(off, tot + m) == Touched(off, tot) + 1
    ensures Max(Max(size, off + tot), off + tot + m) == Max(size, off + tot + m)
    ensures tot == 0 && off % BSIZE != 0 ==> (off + tot) / BSIZE * BSIZE < Max(size, off + tot)
    ensures off + tot + m <= size ==> (off + tot) / BSIZE * BSIZE < Max(size, off + tot)
  {
  }

  /** The m bytes at off + tot lie in one block, and only bytes past the end can need a
      new one. */
  predicate PassOk(off: nat, tot: nat, m: nat, size: nat) {
    && m <= BSIZE - (off + tot) % BSIZE && (off + tot) / BSIZE < MAXFILE
    && Max(Max(size, off + tot), off + tot + m) == Max(size, off + tot + m)
    && (off + tot + m <= size ==> (off + tot) / BSIZE * BSIZE < Max(size, off + tot))
  }

  lemma PassBounds(off: nat, tot: nat, m: nat, n: nat, size: nat)
    requires tot < n && off <= size && (tot == 0 || (off + tot) % BSIZE == 0) && off + n <= MAXFILE * BSIZE
    requires m == if n - tot < BSIZE - (off + tot) % BSIZE then n - tot else BSIZE - (off + tot) % BSIZE
    ensures 1 <= m <= n - tot && PassOk(off, tot, m, size)
  {
    PassArith(off, tot, m, n, size);
  }

  /** A file of this size has no block yet at offset o, which the loop has reached. */
  predicate Fresh(size: nat, o: nat) {
    o / BSIZE * BSIZE >= Max(size, o)
  }

  /** At most one data block per block touched, and one bitmap block for each of those
      that may be new; a first block entered in the middle is not. */
  ghost predicate Counted(data: set<nat>, maps: set<nat>, off: nat, tot: nat) {
    |data| <= Touched(off, tot) && |maps| <= Touched(off, tot) - if tot > 0 && off % BSIZE != 0 then 1 else 0
  }

  lemma Count(data: set<nat>, maps: set<nat>, off: nat, tot: nat, m: nat, n: nat, size: nat, a: nat, b: nat, grew: bool)
    requires Counted(data, maps, off, tot) && tot < n && off <= size && (tot == 0 || (off + tot) % BSIZE == 0)
    requires m == if n - tot < BSIZE - (off + tot) % BSIZE then n - tot else BSIZE - (off + tot) % BSIZE
    requires grew == Fresh(size, off + tot)
    ensures Counted(data + {a}, if grew then maps + {b} else maps, off, tot + m)
    ensures tot + m < n ==> (off + tot + m) % BSIZE == 0
  {
    PassArith(off, tot, m, n, size);
    assert |data + {a}| <= |data| + 1 && |maps + {b}| <= |maps| + 1;
  }

  /** How many blocks a transfer of n bytes at off touches. */
  function Touched(off: nat, n: nat): int {
    if n == 0 then 0 else (off + n - 1) / BSIZE - off / BSIZE + 1
  }

  /** Data blocks, a bitmap block for each that is new, two blocks for the indirect
      block, and the inode block. */
  function LogBound(off: nat, n: nat): int {
    2 * Touched(off, n) - (if n > 0 && off % BSIZE != 0 then 1 else 0) + 3
  }

  /** -1, a panic, the answer of a device's driver, or the number of bytes moved. */
  datatype Result = Error | Panic | Device | Done(n: nat)

  ghost predicate AllMapped(inodes: seq<Inode>, blocks: seq<Bytes>, n: nat) {
    InodesOk(inodes) && n <= |inodes| && forall i {:trigger inodes[i]} :: 0 <= i < n ==>
        Mapped(inodes[i], blocks, inodes[i].size)
  }

  /** The places bmap may fill. */
  ghost function MapPlaces(inum: nat, bn: nat): set<Place>
    requires bn < MAXFILE
  {
    if bn < NDIRECT then {Place(inum, bn)} else {Place(inum, NDIRECT), Place(inum, bn + 1)}
  }

  lemma GrownSelf(inodes: seq<Inode>, blocks: seq<Bytes>, news: set<Place>)
    requires InodesOk(inodes)
    ensures Grown(inodes, blocks, inodes, blocks, news)
  {
  }

  lemma GrownMore(inodes: seq<Inode>, blocks: seq<Bytes>, inodes': seq<Inode>, blocks': seq<Bytes>,
                  news: set<Place>, more: set<Place>)
    requires Grown(inodes, blocks, inodes', blocks', news) && news <= more
    ensures Grown(inodes, blocks, inodes', blocks', more)
  {
  }
}
