/** The image builder tools/mkfs.c: it hands out blocks in order and marks the ones it
  used at the very end. What it leaves on disk is a state the kernel can start from.
 */
module Mkfs {
  import opened FsModel
  import opened FsOwnership
  import opened FsBytes
  import opened FsCode

  /** Bytes of the bitmap blocks: nbitmap = FSSIZE / (BSIZE*8) + 1. */
  function BitmapBytes(size: nat): nat {
    (size / BPB + 1) * BSIZE
  }

  lemma BitmapCovers(size: nat, b: nat)
    requires b < size
    ensures ByteOf(b) < BitmapBytes(size)
  {
  }

  /** A bitmap with exactly the first n bits set. */
  function FirstBits(n: nat, size: nat): (r: seq<bv8>)
    requires n <= size
    ensures |r| == BitmapBytes(size)
  {
    if n == 0 then seq(BitmapBytes(size), _ => 0)
    else
      BitmapCovers(size, n - 1);
      WithBit(FirstBits(n - 1, size), n - 1)
  }

  lemma {:induction false} FirstBitsAt(n: nat, size: nat, b: nat)
    requires n <= size && b < size
    ensures ByteOf(b) < BitmapBytes(size) && (Bit(FirstBits(n, size), b) <==> b < n)
  {
    BitmapCovers(size, b);
    if n > 0 {
      BitmapCovers(size, n - 1);
      FirstBitsAt(n - 1, size, b);
      WithBitAt(FirstBits(n - 1, size), n - 1, b);
    }
  }

  class Image {
    const sb: Super
    var freeblock: nat
    var blocks: seq<Bytes>
    var inodes: seq<Inode>
    ghost var owner: map<nat, Place>

    /** Blocks are owned as the kernel requires, for the bitmap that marks the blocks
        below freeblock; those above are still zero. */
    ghost predicate OneOwner()
      reads this
    {
      && sb.nmeta <= freeblock <= sb.size
      && Owned(sb, FirstBits(freeblock, sb.size), blocks, inodes, owner, {})
      && forall b {:trigger blocks[b]} :: freeblock <= b < sb.size ==> blocks[b] == ZeroBlock()
    }

    ghost predicate Valid()
      reads this
    {
      OneOwner() && AllMapped(inodes, blocks, |inodes|)
    }

    /** The zeroed disk, all inodes free. */
    constructor (layout: Super, ninodes: nat)
      requires layout.Wf()
      ensures Valid() && sb == layout && freeblock == layout.nmeta && |inodes| == ninodes
      ensures forall i :: 0 <= i < ninodes ==> inodes[i] == Inode(0, 0, seq(NDIRECT + 1, _ => 0))
    {
      sb, freeblock := layout, layout.nmeta;
      blocks := seq(layout.size, _ => ZeroBlock());
      inodes := seq(ninodes, _ => Inode(0, 0, seq(NDIRECT + 1, _ => 0)));
      owner := map[];
      new;
      forall b | 0 <= b < sb.size ensures ByteOf(b) < BitmapBytes(sb.size)
          && (Bit(FirstBits(freeblock, sb.size), b) <==> b < sb.nmeta) {
        FirstBitsAt(freeblock, sb.size, b);
      }
      forall p | IsPlace(inodes, p) ensures AddrAt(inodes, blocks, p) == 0 {
      }
      forall i | 0 <= i < |inodes| ensures Mapped(inodes[i], blocks, 0) {
      }
    }

    /** ialloc: inode numbers are handed out in order, so `inum` is still free. */
    method Ialloc(inum: nat, kind: int)
      requires Valid() && inum < |inodes| && inodes[inum] == Inode(0, 0, seq(NDIRECT + 1, _ => 0))
      modifies this`inodes
      ensures Valid() && inodes == old(inodes)[inum := Inode(kind, 0, seq(NDIRECT + 1, _ => 0))]
      ensures forall m :: 0 <= m < |inodes| ==> File(inodes[m], blocks) == old(File(inodes[m], blocks))
    {
      assert Mapped(inodes[inum], blocks, 0);
      ResizeKeepsOwned(sb, FirstBits(freeblock, sb.size), blocks, inodes, owner, inum, inodes[inum].(kind := kind));
      SameAddrs(inodes[inum], inodes[inum].(kind := kind), blocks, 0);
      inodes := inodes[inum := inodes[inum].(kind := kind)];
    }

    /** The next block is free for the taking. */
    lemma NextFree()
      requires OneOwner() && freeblock < sb.size
      ensures ByteOf(freeblock) < BitmapBytes(sb.size) && !Bit(FirstBits(freeblock, sb.size), freeblock)
      ensures FirstBits(freeblock + 1, sb.size) == WithBit(FirstBits(freeblock, sb.size), freeblock)
      ensures blocks[freeblock := ZeroBlock()] == blocks
    {
      FirstBitsAt(freeblock, sb.size, freeblock);
      assert blocks[freeblock] == ZeroBlock();
    }

    /** `din.addrs[k] = freeblock++`; false if the image is full. */
    method TakeSlot(inum: nat, k: nat) returns (ok: bool)
      requires OneOwner() && inum < |inodes| && k <= NDIRECT && inodes[inum].addrs[k] == 0
      modifies this`freeblock, this`inodes, this`owner
      ensures OneOwner() && |inodes| == |old(inodes)| && (!ok ==> freeblock == sb.size)
      ensures ok ==>
              inodes == old(inodes)[inum := WithAddr(old(inodes[inum]), k, old(freeblock))]
                  && freeblock == old(freeblock) + 1 > 1
      ensures ok ==> Grown(old(inodes), blocks, inodes, blocks, {Place(inum, k)})
    {
      if freeblock >= sb.size {
        return false;
      }
      NextFree();
      GrantDirect(sb, FirstBits(freeblock, sb.size), blocks, inodes, owner, inum, k, freeblock);
      inodes := inodes[inum := WithAddr(inodes[inum], k, freeblock)];
      owner := owner[freeblock := Place(inum, k)];
      freeblock := freeblock + 1;
      return true;
    }

    /** `indirect[j] = freeblock++`, written back; false if the image is full. */
    method TakeEntry(inum: nat, j: nat) returns (ok: bool)
      requires OneOwner() && inum < |inodes| && j < NINDIRECT && 0 != inodes[inum].addrs[NDIRECT] < |blocks|
      requires Word(blocks[inodes[inum].addrs[NDIRECT]], j) == 0
      modifies this`freeblock, this`blocks, this`owner
      ensures OneOwner() && (!ok ==> freeblock == sb.size)
      ensures ok ==>
              AddrAt(inodes, blocks, Place(inum, NDIRECT + 1 + j)) == old(freeblock) > 0
                  && freeblock == old(freeblock) + 1
      ensures ok ==> Grown(inodes, old(blocks), inodes, blocks, {Place(inum, NDIRECT + 1 + j)})
    {
      if freeblock >= sb.size {
        return false;
      }
      EntryGranted(inum, j);
      var ind := inodes[inum].addrs[NDIRECT];
      blocks := blocks[ind := SetWord(blocks[ind], j, freeblock)];
      owner := owner[freeblock := Place(inum, NDIRECT + 1 + j)];
      freeblock := freeblock + 1;
      return true;
    }

    lemma EntryGranted(inum: nat, j: nat)
      requires OneOwner() && inum < |inodes| && j < NINDIRECT && 0 != inodes[inum].addrs[NDIRECT] < |blocks|
      requires Word(blocks[inodes[inum].addrs[NDIRECT]], j) == 0 && 0 < freeblock < sb.size
      ensures var ind, at := inodes[inum].addrs[NDIRECT], Place(inum, NDIRECT + 1 + j);
              var blocks' := blocks[ind := SetWord(blocks[ind], j, freeblock)];
              && ind < freeblock
              && Owned(sb, FirstBits(freeblock + 1, sb.size), blocks', inodes, owner[freeblock := at], {})
              && Grown(inodes, blocks, inodes, blocks', {at})
              && AddrAt(inodes, blocks', at) == freeblock
    {
      NextFree();
      var bits := FirstBits(freeblock, sb.size);
      IndirectOwned(sb, bits, blocks, inodes, owner, {}, inum);
      GrantIndirect(sb, bits, blocks, inodes, owner, inum, j, freeblock);
      FirstBitsAt(freeblock, sb.size, inodes[inum].addrs[NDIRECT]);
    }

    /** The block of the file that iappend writes next, taken from the free ones if it is
        not there yet; false if the image is full. */
    method MapBlock(inum: nat, fbn: nat) returns (ok: bool, x: nat)
      requires OneOwner() && inum < |inodes| && fbn < MAXFILE
      modifies this`freeblock, this`blocks, this`inodes, this`owner
      ensures OneOwner() && |inodes| == |old(inodes)|
      ensures !ok ==> freeblock == sb.size
      ensures ok ==> && 0 < x < sb.size && x == SlotAddr(inodes[inum], blocks, DataSlot(fbn))
                     && Grown(old(inodes), old(blocks), inodes, blocks, MapPlaces(inum, fbn))
                     && inodes == old(inodes)[inum := old(inodes[inum]).(addrs := inodes[inum].addrs)]
      ensures ok && fbn >= NDIRECT ==> inodes[inum].addrs[NDIRECT] != 0
    {
      if fbn < NDIRECT {
        assert AddrAt(inodes, blocks, Place(inum, fbn)) == inodes[inum].addrs[fbn];
        if inodes[inum].addrs[fbn] == 0 {
          ok := TakeSlot(inum, fbn);
          x := inodes[inum].addrs[fbn];
          return;
        }
        GrownSelf(inodes, blocks, MapPlaces(inum, fbn));
        return true, inodes[inum].addrs[fbn];
      }
      ok, x := MapIndirect(inum, fbn - NDIRECT);
    }

    method MapIndirect(inum: nat, j: nat) returns (ok: bool, x: nat)
      requires OneOwner() && inum < |inodes| && j < NINDIRECT
      modifies this`freeblock, this`blocks, this`inodes, this`owner
      ensures OneOwner() && |inodes| == |old(inodes)|
      ensures !ok ==> freeblock == sb.size
      ensures ok ==> && 0 < x < sb.size && x == SlotAddr(inodes[inum], blocks, NDIRECT + 1 + j)
                     && Grown(old(inodes), old(blocks), inodes, blocks, MapPlaces(inum, NDIRECT + j))
                     && inodes == old(inodes)[inum := old(inodes[inum]).(addrs := inodes[inum].addrs)]
                     && inodes[inum].addrs[NDIRECT] != 0
    {
      x := 0;
      if inodes[inum].addrs[NDIRECT] == 0 {
        ok := TakeSlot(inum, NDIRECT);
        if !ok {
          return;
        }
      } else {
        GrownSelf(inodes, blocks, {Place(inum, NDIRECT)});
      }
      ghost var inodes1, blocks1, at := inodes, blocks, Place(inum, NDIRECT + 1 + j);
      IndirectOwned(sb, FirstBits(freeblock, sb.size), blocks, inodes, owner, {}, inum);
      x := Word(blocks[inodes[inum].addrs[NDIRECT]], j);
      assert AddrAt(inodes, blocks, at) == x;
      if x != 0 {
        GrownMore(old(inodes), old(blocks), inodes, blocks, {Place(inum, NDIRECT)}, MapPlaces(inum, NDIRECT + j));
        return true, x;
      }
      ok := TakeEntry(inum, j);
      if ok {
        GrownTwice(old(inodes), old(blocks), inodes1, blocks1, inodes, blocks, {Place(inum, NDIRECT)}, {at});
        assert {Place(inum, NDIRECT)} + {at} == MapPlaces(inum, NDIRECT + j);
        x := Word(blocks[inodes[inum].addrs[NDIRECT]], j);
      }
    }

    /** One pass of iappend's loop. */
    method AppendPart(inum: nat, off: nat, d: seq<byte>) returns (ok: bool)
      requires OneOwner() && inum < |inodes| && OthersMapped(inodes, blocks, inum) && Mapped(inodes[inum], blocks, off)
      requires off / BSIZE < MAXFILE && 1 <= |d| <= BSIZE - off % BSIZE
      modifies this`freeblock, this`blocks, this`inodes, this`owner
      ensures OneOwner() && |inodes| == |old(inodes)|
      ensures !ok ==> freeblock == sb.size
      ensures ok ==> && inodes == old(inodes)[inum := old(inodes[inum]).(addrs := inodes[inum].addrs)]
                     && Mapped(inodes[inum], blocks, off + |d|)
                     && View(inodes[inum], blocks, off + |d|) == View(old(inodes[inum]), old(blocks), off) + d
                     && OthersKept(old(inodes), old(blocks), inodes, blocks, inum)
    {
      var x;
      ok, x := MapBlock(inum, off / BSIZE);
      if ok {
        Wrote(sb, FirstBits(freeblock, sb.size), old(inodes), old(blocks), inodes, blocks, owner,
            MapPlaces(inum, off / BSIZE), inum, off, d, off);
        SpliceAtEnd(View(old(inodes[inum]), old(blocks), off), d);
        BelowFree(inum, off / BSIZE);
        blocks := blocks[x := Patch(blocks[x], off % BSIZE, d)];
      }
    }

    /** Blocks in use lie below freeblock. */
    lemma BelowFree(inum: nat, bn: nat)
      requires OneOwner() && inum < |inodes| && bn < MAXFILE
      ensures SlotAddr(inodes[inum], blocks, DataSlot(bn)) < freeblock
    {
      var a := SlotAddr(inodes[inum], blocks, DataSlot(bn));
      BlockOwned(sb, FirstBits(freeblock, sb.size), blocks, inodes, owner, inum, bn);
      if a != 0 {
        FirstBitsAt(freeblock, sb.size, a);
      }
    }

    /** One pass of iappend's loop, with n bytes of `d` already appended. */
    method AppendPass(inum: nat, d: seq<byte>, n: nat, ghost inodes0: seq<Inode>,
                      ghost blocks0: seq<Bytes>) returns (ok: bool, n1: nat)
      requires OneOwner() && inum < |inodes| == |inodes0| && n < |d|
               && Appended(inodes0, blocks0, inodes, blocks, inum, d[..n])
      modifies this`freeblock, this`blocks, this`inodes, this`owner
      ensures OneOwner() && |inodes| == |old(inodes)|
      ensures !ok ==> freeblock == sb.size || inodes0[inum].size + |d| > MAXFILE * BSIZE
      ensures ok ==> 1 <= n1 <= |d| - n && Appended(inodes0, blocks0, inodes, blocks, inum, d[..n + n1])
    {
      var off := inodes[inum].size + n;
      if off / BSIZE >= MAXFILE {
        return false, 0;
      }
      n1 := if |d| - n < (off / BSIZE + 1) * BSIZE - off then |d| - n else (off / BSIZE + 1) * BSIZE - off;
      assert 1 <= n1 <= BSIZE - off % BSIZE;
      ok := AppendPart(inum, off, d[n..n + n1]);
      if ok {
        AppendedMore(inodes0, blocks0, old(inodes), old(blocks), inodes, blocks, inum, d[..n], d[n..n + n1]);
        assert d[..n] + d[n..n + n1] == d[..n + n1];
      }
    }

    /** iappend: `d` goes to the end of the file. False if the image is full or the file
        would be too large. */
    method Iappend(inum: nat, d: seq<byte>) returns (ok: bool)
      requires Valid() && inum < |inodes|
      modifies this`freeblock, this`blocks, this`inodes, this`owner
      ensures OneOwner() && |inodes| == |old(inodes)|
      ensures !ok ==> freeblock == sb.size || old(inodes[inum]).size + |d| > MAXFILE * BSIZE
      ensures ok ==> Valid() && inodes[inum].kind == old(inodes[inum]).kind
      ensures ok ==> File(inodes[inum], blocks) == old(File(inodes[inum], blocks)) + d
      ensures ok ==> forall m :: 0 <= m < |inodes| && m != inum ==>
              inodes[m] == old(inodes[m]) && File(inodes[m], blocks) == old(File(inodes[m], blocks))
    {
      var n := 0;
      AppendedNothing(inodes, blocks, inum, d);
      while n < |d|
        invariant 0 <= n <= |d| && OneOwner() && |inodes| == |old(inodes)|
        invariant Appended(old(inodes), old(blocks), inodes, blocks, inum, d[..n])
      {
        var n1;
        ok, n1 := AppendPass(inum, d, n, old(inodes), old(blocks));
        if !ok {
          return;
        }
        n := n + n1;
      }
      assert d[..n] == d;
      ghost var size := inodes[inum].size;
      ghost var ip := inodes[inum].(size := size + |d|);
      ResizeKeepsOwned(sb, FirstBits(freeblock, sb.size), blocks, inodes, owner, inum, ip);
      SameAddrs(inodes[inum], ip, blocks, size + |d|);
      inodes := inodes[inum := inodes[inum].(size := inodes[inum].size + |d|)];
      ok := true;
    }

    /** balloc: the bitmap block is written last. What is on disk then has one owner per
        block and every file mapped up to its size, which is what the kernel's file
        layer starts from. */
    method Balloc() returns (ok: bool, bitmap: seq<bv8>)
      requires Valid()
      ensures ok == (freeblock < BSIZE * 8)
      ensures ok ==> Owned(sb, bitmap, blocks, inodes, owner, {}) && AllMapped(inodes, blocks, |inodes|)
      ensures ok ==> forall b :: 0 <= b < sb.size ==> (Bit(bitmap, b) <==> b < freeblock)
    {
      ok := freeblock < BSIZE * 8;
      bitmap := [];
      if ok {
        bitmap := MarkFirst(freeblock, sb.size);
        forall b | 0 <= b < sb.size ensures Bit(bitmap, b) <==> b < freeblock {
          FirstBitsAt(freeblock, sb.size, b);
        }
      }
    }
  }

  /** balloc's loop. */
  method MarkFirst(used: nat, size: nat) returns (bitmap: seq<bv8>)
    requires used <= size && used < BSIZE * 8
    ensures bitmap == FirstBits(used, size)
  {
    bitmap := seq(BitmapBytes(size), _ => 0);
    var i := 0;
    while i < used
      invariant 0 <= i <= used && bitmap == FirstBits(i, size)
    {
      MarkNext(i, size);
      bitmap := Set(bitmap, i / 8, i % 8);
      i := i + 1;
    }
  }

  lemma MarkNext(i: nat, size: nat)
    requires i < size && i < BSIZE * 8
    ensures i / 8 < BitmapBytes(size) && Set(FirstBits(i, size), i / 8, i % 8) == FirstBits(i + 1, size)
  {
    BitmapCovers(size, i);
    assert ByteOf(i) == i / 8 && PosOf(i) == i % 8;
  }

  lemma AppendedNothing(inodes: seq<Inode>, blocks: seq<Bytes>, i: nat, d: seq<byte>)
    requires i < |inodes| && AllMapped(inodes, blocks, |inodes|)
    ensures Appended(inodes, blocks, inodes, blocks, i, d[..0])
  {
  }

  /** `d` has been appended to file i past its recorded size; other files are as before. */
  ghost predicate Appended(inodes0: seq<Inode>, blocks0: seq<Bytes>, inodes: seq<Inode>, blocks: seq<Bytes>, i: nat,
                           d: seq<byte>) {
    && OthersKept(inodes0, blocks0, inodes, blocks, i)
    && i < |inodes0| && inodes == inodes0[i := inodes0[i].(addrs := inodes[i].addrs)]
    && Mapped(inodes[i], blocks, inodes0[i].size + |d|)
    && View(inodes[i], blocks, inodes0[i].size + |d|) == File(inodes0[i], blocks0) + d
  }

  lemma AppendedMore(inodes0: seq<Inode>, blocks0: seq<Bytes>, inodes1: seq<Inode>, blocks1: seq<Bytes>,
                     inodes: seq<Inode>, blocks: seq<Bytes>,
                     i: nat, d: seq<byte>, e: seq<byte>)
    requires Appended(inodes0, blocks0, inodes1, blocks1, i, d)
    requires OthersKept(inodes1, blocks1, inodes, blocks, i)
             && inodes == inodes1[i := inodes1[i].(addrs := inodes[i].addrs)]
    requires Mapped(inodes[i], blocks, inodes0[i].size + |d| + |e|)
    requires View(inodes[i], blocks, inodes0[i].size + |d| + |e|) ==
             View(inodes1[i], blocks1, inodes0[i].size + |d|) + e
    ensures Appended(inodes0, blocks0, inodes, blocks, i, d + e)
  {
  }
}
