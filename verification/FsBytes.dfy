/** A file as a sequence of bytes, and what the elementary updates do to it. */
module FsBytes {
  import opened FsModel
  import opened FsOwnership

  /** Byte x of a file; 0 where no block is mapped. */
  function ByteAt(ip: Inode, blocks: seq<Bytes>, x: nat): byte
    requires InodeOk(ip)
  {
    if x / BSIZE >= MAXFILE then 0
    else
      var a := SlotAddr(ip, blocks, DataSlot(x / BSIZE));
      if 0 < a < |blocks| then blocks[a][x % BSIZE] else 0
  }

  /** The first n bytes, whatever the recorded size. */
  function View(ip: Inode, blocks: seq<Bytes>, n: nat): (f: seq<byte>)
    requires InodeOk(ip)
    ensures |f| == n
  {
    seq(n, x requires 0 <= x < n => ByteAt(ip, blocks, x))
  }

  /** The content of a file. */
  function File(ip: Inode, blocks: seq<Bytes>): (f: seq<byte>)
    requires InodeOk(ip)
    ensures |f| == ip.size
  {
    View(ip, blocks, ip.size)
  }

  /** Exactly the blocks below `extent` bytes are mapped. */
  ghost predicate Mapped(ip: Inode, blocks: seq<Bytes>, extent: nat)
    requires InodeOk(ip)
  {
    && extent <= MAXFILE * BSIZE
    && (forall bn {:trigger DataSlot(bn)} :: 0 <= bn < MAXFILE ==>
         (SlotAddr(ip, blocks, DataSlot(bn)) != 0 <==> bn * BSIZE < extent))
    && (ip.addrs[NDIRECT] != 0 <==> NDIRECT * BSIZE < extent)
  }

  /** `d` written over `f` from position `off` on, extending it if need be. */
  function Splice(f: seq<byte>, off: nat, d: seq<byte>): (r: seq<byte>)
    requires off <= |f|
    ensures |r| == if off + |d| < |f| then |f| else off + |d|
  {
    f[..off] + d + if off + |d| < |f| then f[off + |d|..] else []
  }

  function Patch(b: Bytes, at: nat, d: seq<byte>): Bytes
    requires at + |d| <= BSIZE
  {
    b[..at] + d + b[at + |d|..]
  }

  /** The address of byte x of inode i belongs to the slot of x's block. */
  lemma BlockOwned(sb: Super, bitmap: seq<bv8>, blocks: seq<Bytes>, inodes: seq<Inode>, owner: map<nat, Place>,
                   i: nat, bn: nat)
    requires Owned(sb, bitmap, blocks, inodes, owner, {}) && i < |inodes| && bn < MAXFILE
    ensures var a := SlotAddr(inodes[i], blocks, DataSlot(bn));
            a != 0 ==> a in owner && owner[a] == Place(i, DataSlot(bn)) && sb.nmeta <= a < sb.size
  {
    assert AddrAt(inodes, blocks, Place(i, DataSlot(bn))) == SlotAddr(inodes[i], blocks, DataSlot(bn));
  }

  /** Writing inside one data block of inode i changes those bytes of that file and no
      other byte of any file. */
  lemma PatchBytes(sb: Super, bitmap: seq<bv8>, blocks: seq<Bytes>, inodes: seq<Inode>, owner: map<nat, Place>,
                   i: nat, bn: nat, at: nat, d: seq<byte>, m: nat, x: nat)
    requires Owned(sb, bitmap, blocks, inodes, owner, {}) && i < |inodes| && m < |inodes| && bn < MAXFILE
    requires at + |d| <= BSIZE && SlotAddr(inodes[i], blocks, DataSlot(bn)) != 0
    ensures SlotAddr(inodes[i], blocks, DataSlot(bn)) < |blocks|
    ensures var a := SlotAddr(inodes[i], blocks, DataSlot(bn));
            var blocks' := blocks[a := Patch(blocks[a], at, d)];
            var off := bn * BSIZE + at;
            ByteAt(inodes[m], blocks', x) == if m == i
                && off <= x < off + |d| then d[x - off] else ByteAt(inodes[m], blocks, x)
  {
    BlockOwned(sb, bitmap, blocks, inodes, owner, i, bn);
    var a := SlotAddr(inodes[i], blocks, DataSlot(bn));
    var v := Patch(blocks[a], at, d);
    if x / BSIZE < MAXFILE {
      BlockOwned(sb, bitmap, blocks, inodes, owner, m, x / BSIZE);
      WriteKeepsAddrs(sb, bitmap, blocks, inodes, owner, a, v, Place(m, DataSlot(x / BSIZE)));
      assert AddrAt(inodes, blocks[a := v], Place(m, DataSlot(x / BSIZE))) ==
          SlotAddr(inodes[m], blocks[a := v], DataSlot(x / BSIZE));
    }
  }

  /** Growing the map moves no byte of a mapped block. */
  lemma GrownByte(inodes: seq<Inode>, blocks: seq<Bytes>, inodes': seq<Inode>, blocks': seq<Bytes>,
                  news: set<Place>, i: nat, x: nat)
    requires Grown(inodes, blocks, inodes', blocks', news) && i < |inodes| && x / BSIZE < MAXFILE
    requires SlotAddr(inodes[i], blocks, DataSlot(x / BSIZE)) != 0
    ensures ByteAt(inodes'[i], blocks', x) == ByteAt(inodes[i], blocks, x)
  {
    var p := Place(i, DataSlot(x / BSIZE));
    assert AddrAt(inodes, blocks, p) == SlotAddr(inodes[i], blocks, DataSlot(x / BSIZE));
    assert AddrAt(inodes', blocks', p) == SlotAddr(inodes'[i], blocks', DataSlot(x / BSIZE));
  }

  /** An inode none of whose places grew keeps its map. */
  lemma GrownElsewhere(inodes: seq<Inode>, blocks: seq<Bytes>, inodes': seq<Inode>, blocks': seq<Bytes>,
                       news: set<Place>, i: nat, extent: nat)
    requires Grown(inodes, blocks, inodes', blocks', news) && i < |inodes| && Mapped(inodes[i], blocks, extent)
    requires forall p :: p in news ==> p.i != i
    ensures Mapped(inodes'[i], blocks', extent)
  {
    forall bn | 0 <= bn < MAXFILE ensures SlotAddr(inodes'[i], blocks', DataSlot(bn)) != 0 <==> bn * BSIZE < extent {
      var p := Place(i, DataSlot(bn));
      assert AddrAt(inodes, blocks, p) == SlotAddr(inodes[i], blocks, DataSlot(bn));
      assert AddrAt(inodes', blocks', p) == SlotAddr(inodes'[i], blocks', DataSlot(bn));
    }
    assert AddrAt(inodes, blocks, Place(i, NDIRECT)) == inodes[i].addrs[NDIRECT];
    assert AddrAt(inodes', blocks', Place(i, NDIRECT)) == inodes'[i].addrs[NDIRECT];
  }

  /** bmap at, or just past, the end of the mapped part extends it by that block. */
  lemma GrownHere(inodes: seq<Inode>, blocks: seq<Bytes>, inodes': seq<Inode>, blocks': seq<Bytes>, news: set<Place>,
                  i: nat, bn: nat, extent: nat, extent': nat)
    requires Grown(inodes, blocks, inodes', blocks', news) && i < |inodes| && bn < MAXFILE
             && Mapped(inodes[i], blocks, extent)
    requires forall p :: p in news ==> p == Place(i, DataSlot(bn)) || (bn >= NDIRECT && p == Place(i, NDIRECT))
    requires SlotAddr(inodes'[i], blocks', DataSlot(bn)) != 0 && (bn >= NDIRECT ==> inodes'[i].addrs[NDIRECT] != 0)
    requires bn * BSIZE <= extent <= extent' && bn * BSIZE < extent'
    requires extent' == extent || extent' <= (bn + 1) * BSIZE
    ensures Mapped(inodes'[i], blocks', extent')
  {
    forall c | 0 <= c < MAXFILE ensures SlotAddr(inodes'[i], blocks', DataSlot(c)) != 0 <==> c * BSIZE < extent' {
      var p := Place(i, DataSlot(c));
      assert AddrAt(inodes, blocks, p) == SlotAddr(inodes[i], blocks, DataSlot(c));
      assert AddrAt(inodes', blocks', p) == SlotAddr(inodes'[i], blocks', DataSlot(c));
    }
    assert AddrAt(inodes, blocks, Place(i, NDIRECT)) == inodes[i].addrs[NDIRECT];
    assert AddrAt(inodes', blocks', Place(i, NDIRECT)) == inodes'[i].addrs[NDIRECT];
    assert SlotAddr(inodes[i], blocks, DataSlot(bn)) != 0 <==> bn * BSIZE < extent;
  }

  /** Writing a data block leaves every inode's map alone. */
  lemma WriteKeepsMapped(sb: Super, bitmap: seq<bv8>, blocks: seq<Bytes>, inodes: seq<Inode>, owner: map<nat, Place>,
                         a: nat, v: Bytes, i: nat, extent: nat)
    requires Owned(sb, bitmap, blocks, inodes, owner, {}) && a < sb.size && (a in owner ==> owner[a].k != NDIRECT)
    requires i < |inodes| && Mapped(inodes[i], blocks, extent)
    ensures Mapped(inodes[i], blocks[a := v], extent)
  {
    forall bn | 0 <= bn < MAXFILE
      ensures SlotAddr(inodes[i], blocks[a := v], DataSlot(bn)) == SlotAddr(inodes[i], blocks, DataSlot(bn))
    {
      WriteKeepsAddrs(sb, bitmap, blocks, inodes, owner, a, v, Place(i, DataSlot(bn)));
      assert AddrAt(inodes, blocks, Place(i, DataSlot(bn))) == SlotAddr(inodes[i], blocks, DataSlot(bn));
      assert AddrAt(inodes, blocks[a := v], Place(i, DataSlot(bn))) ==
          SlotAddr(inodes[i], blocks[a := v], DataSlot(bn));
    }
  }

  /** A stretch of a file inside one block is a stretch of that block. */
  lemma FileSlice(ip: Inode, blocks: seq<Bytes>, off: nat, m: nat)
    requires InodeOk(ip) && off + m <= ip.size && off / BSIZE < MAXFILE && off % BSIZE + m <= BSIZE
    requires 0 < SlotAddr(ip, blocks, DataSlot(off / BSIZE)) < |blocks|
    ensures File(ip, blocks)[off..off + m] ==
            blocks[SlotAddr(ip, blocks, DataSlot(off / BSIZE))][off % BSIZE..off % BSIZE + m]
  {
  }

  function Max(a: nat, b: nat): nat {
    if a < b then b else a
  }

  /** One pass of writei's loop: bmap, then a patch of that block. Seen as bytes, `d` is
      written over the mapped part at `off`. */
  lemma WroteHere(sb: Super, bitmap: seq<bv8>, inodes0: seq<Inode>, blocks0: seq<Bytes>, inodes: seq<Inode>,
                  blocks: seq<Bytes>,
                  owner: map<nat, Place>, news: set<Place>, i: nat, off: nat, d: seq<byte>, extent: nat)
    requires Owned(sb, bitmap, blocks, inodes, owner, {}) && Grown(inodes0, blocks0, inodes, blocks, news)
    requires i < |inodes| && off <= extent && off / BSIZE < MAXFILE && |d| >= 1 && off % BSIZE + |d| <= BSIZE
    requires Mapped(inodes0[i], blocks0, extent) && SlotAddr(inodes[i], blocks, DataSlot(off / BSIZE)) != 0
    requires off / BSIZE >= NDIRECT ==> inodes[i].addrs[NDIRECT] != 0
    requires forall p :: p in news ==>
             p == Place(i, DataSlot(off / BSIZE)) || (off / BSIZE >= NDIRECT && p == Place(i, NDIRECT))
    ensures SlotAddr(inodes[i], blocks, DataSlot(off / BSIZE)) < |blocks|
    ensures var a := SlotAddr(inodes[i], blocks, DataSlot(off / BSIZE));
            var blocks' := blocks[a := Patch(blocks[a], off % BSIZE, d)];
            && Owned(sb, bitmap, blocks', inodes, owner, {})
            && Mapped(inodes[i], blocks', Max(extent, off + |d|))
            && View(inodes[i], blocks', Max(extent, off + |d|)) == Splice(View(inodes0[i], blocks0, extent), off, d)
  {
    var bn := off / BSIZE;
    BlockOwned(sb, bitmap, blocks, inodes, owner, i, bn);
    var a := SlotAddr(inodes[i], blocks, DataSlot(bn));
    var v := Patch(blocks[a], off % BSIZE, d);
    WriteKeepsOwned(sb, bitmap, blocks, inodes, owner, a, v);
    GrownHere(inodes0, blocks0, inodes, blocks, news, i, bn, extent, Max(extent, off + |d|));
    WriteKeepsMapped(sb, bitmap, blocks, inodes, owner, a, v, i, Max(extent, off + |d|));
    var r := Splice(View(inodes0[i], blocks0, extent), off, d);
    forall x | 0 <= x < |r| ensures ByteAt(inodes[i], blocks[a := v], x) == r[x] {
      WroteByte(sb, bitmap, inodes0, blocks0, inodes, blocks, owner, news, i, off, d, extent, x);
    }
  }

  lemma WroteByte(sb: Super, bitmap: seq<bv8>, inodes0: seq<Inode>, blocks0: seq<Bytes>, inodes: seq<Inode>,
                  blocks: seq<Bytes>,
                  owner: map<nat, Place>, news: set<Place>, i: nat, off: nat, d: seq<byte>, extent: nat, x: nat)
    requires Owned(sb, bitmap, blocks, inodes, owner, {}) && Grown(inodes0, blocks0, inodes, blocks, news)
    requires i < |inodes| && off <= extent && off / BSIZE < MAXFILE && off % BSIZE + |d| <= BSIZE
    requires Mapped(inodes0[i], blocks0, extent) && 0 != SlotAddr(inodes[i], blocks, DataSlot(off / BSIZE)) < |blocks|
    requires x < Max(extent, off + |d|)
    ensures var a := SlotAddr(inodes[i], blocks, DataSlot(off / BSIZE));
            ByteAt(inodes[i], blocks[a := Patch(blocks[a], off % BSIZE, d)], x)
              == if off <= x < off + |d| then d[x - off] else ByteAt(inodes0[i], blocks0, x)
  {
    PatchBytes(sb, bitmap, blocks, inodes, owner, i, off / BSIZE, off % BSIZE, d, i, x);
    if !(off <= x < off + |d|) {
      assert SlotAddr(inodes0[i], blocks0, DataSlot(x / BSIZE)) != 0;
      GrownByte(inodes0, blocks0, inodes, blocks, news, i, x);
    }
  }

  lemma WroteElsewhere(sb: Super, bitmap: seq<bv8>, inodes0: seq<Inode>, blocks0: seq<Bytes>, inodes: seq<Inode>,
                       blocks: seq<Bytes>,
                       owner: map<nat, Place>, news: set<Place>, i: nat, off: nat, d: seq<byte>, m: nat)
    requires Owned(sb, bitmap, blocks, inodes, owner, {}) && Grown(inodes0, blocks0, inodes, blocks, news)
    requires i < |inodes| && m < |inodes| && m != i && inodes[m].size == inodes0[m].size
    requires off / BSIZE < MAXFILE && off % BSIZE + |d| <= BSIZE
    requires SlotAddr(inodes[i], blocks, DataSlot(off / BSIZE)) != 0
    requires Mapped(inodes0[m], blocks0, inodes0[m].size)
    requires forall p :: p in news ==> p.i == i
    ensures SlotAddr(inodes[i], blocks, DataSlot(off / BSIZE)) < |blocks|
    ensures var a := SlotAddr(inodes[i], blocks, DataSlot(off / BSIZE));
            var blocks' := blocks[a := Patch(blocks[a], off % BSIZE, d)];
            Mapped(inodes[m], blocks', inodes[m].size) && File(inodes[m], blocks') == File(inodes0[m], blocks0)
  {
    var bn := off / BSIZE;
    BlockOwned(sb, bitmap, blocks, inodes, owner, i, bn);
    var a := SlotAddr(inodes[i], blocks, DataSlot(bn));
    var v := Patch(blocks[a], off % BSIZE, d);
    GrownElsewhere(inodes0, blocks0, inodes, blocks, news, m, inodes0[m].size);
    WriteKeepsMapped(sb, bitmap, blocks, inodes, owner, a, v, m, inodes[m].size);
    forall x | 0 <= x < inodes[m].size ensures ByteAt(inodes[m], blocks[a := v], x) == ByteAt(inodes0[m], blocks0, x) {
      PatchBytes(sb, bitmap, blocks, inodes, owner, i, bn, off % BSIZE, d, m, x);
      assert SlotAddr(inodes0[m], blocks0, DataSlot(x / BSIZE)) != 0;
      GrownByte(inodes0, blocks0, inodes, blocks, news, m, x);
    }
  }

  /** What was written is read back, and all other bytes are those of before. */
  lemma SpliceReads(f: seq<byte>, off: nat, d: seq<byte>)
    requires off <= |f|
    ensures var r := Splice(f, off, d);
            && r[off..off + |d|] == d && r[..off] == f[..off]
            && r[off + |d|..] == if off + |d| < |f| then f[off + |d|..] else []
  {
    var r := Splice(f, off, d);
    assert r[off..off + |d|] == d;
  }

  lemma SpliceAtEnd(f: seq<byte>, d: seq<byte>)
    ensures Splice(f, |f|, d) == f + d
  {
  }

  lemma SliceNext(f: seq<byte>, off: nat, tot: nat, m: nat)
    requires off + tot + m <= |f|
    ensures f[off..off + tot] + f[off + tot..off + tot + m] == f[off..off + tot + m]
  {
  }

  /** Writing the next piece after the previous ones is writing a longer prefix. */
  lemma SpliceNext(f: seq<byte>, off: nat, src: seq<byte>, tot: nat, m: nat)
    requires off <= |f| && tot + m <= |src|
    ensures Splice(Splice(f, off, src[..tot]), off + tot, src[tot..tot + m]) == Splice(f, off, src[..tot + m])
  {
  }

  /** The map and the bytes depend on the addresses only. */
  lemma SameAddrs(ip: Inode, ip': Inode, blocks: seq<Bytes>, n: nat)
    requires InodeOk(ip) && ip'.addrs == ip.addrs
    ensures View(ip', blocks, n) == View(ip, blocks, n)
    ensures Mapped(ip', blocks, n) <==> Mapped(ip, blocks, n)
  {
  }
}
