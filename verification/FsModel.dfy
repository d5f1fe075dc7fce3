/** What the disk structures of kernel/fs.c mean: the free bitmap, the block map of
  an inode, who owns each block, and the bytes of a file.
 */
module FsModel {

  const BSIZE: nat := 512
  const NDIRECT: nat := 12
  const NINDIRECT: nat := 128
  const MAXFILE: nat := NDIRECT + NINDIRECT
  const NSLOTS: nat := MAXFILE + 1
  const BPB: nat := BSIZE * 8
  const IPB: nat := 4
  const UINT: nat := 0x1_0000_0000
  const T_DEV: int := 3

  type byte = x: int | 0 <= x < 256
  type Bytes = b: seq<byte> | |b| == BSIZE witness seq(BSIZE, _ => 0)

  datatype Super = Super(size: nat, nmeta: nat, inodestart: nat, bmapstart: nat) {
    /** Block 0 is metadata, the layout fits, and addresses fit a uint. */
    predicate Wf() { 1 <= nmeta <= size < UINT }
  }

  /** The on-disk fields that describe a file's content. */
  datatype Inode = Inode(kind: int, size: nat, addrs: seq<nat>)

  predicate InodeOk(ip: Inode) {
    |ip.addrs| == NDIRECT + 1
  }

  // ---------------------------------------------------- words of a block

  function Word(b: Bytes, j: nat): (w: nat)
    requires j < NINDIRECT
    ensures w < UINT
  {
    b[4 * j] as int + 256 * (b[4 * j + 1] as int) + 65536 * (b[4 * j + 2] as int) + 16777216 * (b[4 * j + 3] as int)
  }

  function SetWord(b: Bytes, j: nat, w: nat): Bytes
    requires j < NINDIRECT && w < UINT
  {
    b[4 * j := w % 256][4 * j + 1 := w / 256 % 256][4 * j + 2 := w / 65536 % 256][4 * j + 3 := w / 16777216]
  }

  function ZeroBlock(): Bytes {
    seq(BSIZE, _ => 0)
  }

  lemma SetWordAt(b: Bytes, j: nat, w: nat, k: nat)
    requires j < NINDIRECT && w < UINT && k < NINDIRECT
    ensures Word(SetWord(b, j, w), k) == if k == j then w else Word(b, k)
  {
    if k == j {
      FourBytes(w);
    }
  }

  lemma FourBytes(w: nat)
    requires w < UINT
    ensures w % 256 + 256 * (w / 256 % 256) + 65536 * (w / 65536 % 256) + 16777216 * (w / 16777216) == w
  {
    assert w / 65536 == w / 256 / 256 && w / 16777216 == w / 65536 / 256;
  }

  // --------------------------------------------------------- the bitmap

  /** 1 << j */
  function Mask(j: nat): bv8
    requires j < 8
  {
    match j
    case 0 => 1 case 1 => 2 case 2 => 4 case 3 => 8
    case 4 => 16 case 5 => 32 case 6 => 64 case _ => 128
  }

  /** Where the bit of block b lies: bitmap blocks are consecutive. */
  function ByteOf(b: nat): nat {
    b / BPB * BSIZE + b % BPB / 8
  }

  function PosOf(b: nat): (j: nat)
    ensures j < 8
  {
    b % BPB % 8
  }

  predicate Covers(bitmap: seq<bv8>, size: nat) {
    forall b {:trigger ByteOf(b)} :: 0 <= b < size ==> ByteOf(b) < |bitmap|
  }

  /** data[i] & (1 << j) */
  predicate Test(bitmap: seq<bv8>, i: nat, j: nat)
    requires i < |bitmap| && j < 8
  {
    bitmap[i] & Mask(j) != 0
  }

  predicate Bit(bitmap: seq<bv8>, b: nat)
    requires ByteOf(b) < |bitmap|
  {
    Test(bitmap, ByteOf(b), PosOf(b))
  }

  /** Every block is marked in use. */
  ghost predicate Full(bitmap: seq<bv8>, size: nat) {
    forall b {:trigger Bit(bitmap, b)} :: 0 <= b < size ==> ByteOf(b) < |bitmap| && Bit(bitmap, b)
  }

  /** data[i] |= 1 << j */
  function Set(bitmap: seq<bv8>, i: nat, j: nat): (r: seq<bv8>)
    requires i < |bitmap| && j < 8
    ensures |r| == |bitmap|
  {
    bitmap[i := bitmap[i] | Mask(j)]
  }

  /** data[i] &= ~(1 << j) */
  function Clear(bitmap: seq<bv8>, i: nat, j: nat): (r: seq<bv8>)
    requires i < |bitmap| && j < 8
    ensures |r| == |bitmap|
  {
    bitmap[i := bitmap[i] & !Mask(j)]
  }

  function WithBit(bitmap: seq<bv8>, b: nat): (r: seq<bv8>)
    requires ByteOf(b) < |bitmap|
    ensures |r| == |bitmap|
  {
    Set(bitmap, ByteOf(b), PosOf(b))
  }

  function WithoutBit(bitmap: seq<bv8>, b: nat): (r: seq<bv8>)
    requires ByteOf(b) < |bitmap|
    ensures |r| == |bitmap|
  {
    Clear(bitmap, ByteOf(b), PosOf(b))
  }

  /** Marking block b changes its bit only. */
  lemma WithBitAt(bitmap: seq<bv8>, b: nat, c: nat)
    requires ByteOf(b) < |bitmap| && ByteOf(c) < |bitmap|
    ensures Bit(WithBit(bitmap, b), c) <==> c == b || Bit(bitmap, c)
  {
  }

  lemma WithoutBitAt(bitmap: seq<bv8>, b: nat, c: nat)
    requires ByteOf(b) < |bitmap| && ByteOf(c) < |bitmap|
    ensures Bit(WithoutBit(bitmap, b), c) <==> c != b && Bit(bitmap, c)
  {
  }

  // ------------------------------------------------------- the block map

  /** The address in slot k of an inode: 0..NDIRECT-1 are the direct blocks, NDIRECT is
      the indirect block, and the rest are the entries of the indirect block. Zero
      means no block. */
  function SlotAddr(ip: Inode, blocks: seq<Bytes>, k: nat): nat
    requires InodeOk(ip) && k < NSLOTS
  {
    if k <= NDIRECT then ip.addrs[k]
    else if ip.addrs[NDIRECT] == 0 || ip.addrs[NDIRECT] >= |blocks| then 0
    else Word(blocks[ip.addrs[NDIRECT]], k - NDIRECT - 1)
  }

  /** The slot of the bn-th block of the file. */
  function DataSlot(bn: nat): (k: nat)
    requires bn < MAXFILE
    ensures k < NSLOTS && k != NDIRECT
  {
    if bn < NDIRECT then bn else bn + 1
  }

  // ----------------------------------------------------------- ownership

  /** A place that can hold a block address: slot `k` of inode `i`. */
  datatype Place = Place(i: nat, k: nat)

  predicate IsPlace(inodes: seq<Inode>, p: Place) {
    p.i < |inodes| && p.k < NSLOTS
  }

  predicate InodesOk(inodes: seq<Inode>) {
    forall i {:trigger inodes[i]} :: 0 <= i < |inodes| ==> InodeOk(inodes[i])
  }

  function AddrAt(inodes: seq<Inode>, blocks: seq<Bytes>, p: Place): nat
    requires InodesOk(inodes) && IsPlace(inodes, p)
  {
    SlotAddr(inodes[p.i], blocks, p.k)
  }

  /** Every block has one owner. Outside the places in `dead`, each address points to a
      data block recorded as belonging to that very place; each recorded block is
      where its owner says; and the set bits are the metadata and the owned blocks. */
  ghost predicate Owned(sb: Super, bitmap: seq<bv8>, blocks: seq<Bytes>, inodes: seq<Inode>, owner: map<nat, Place>,
                        dead: set<Place>) {
    && sb.Wf() && |blocks| == sb.size && Covers(bitmap, sb.size) && InodesOk(inodes)
    && (forall p {:trigger AddrAt(inodes, blocks, p)} ::
          IsPlace(inodes, p) && p !in dead && AddrAt(inodes, blocks, p) != 0 ==>
          AddrAt(inodes, blocks, p) in owner && owner[AddrAt(inodes, blocks, p)] == p)
    && (forall a {:trigger owner[a]} {:trigger a in owner} :: a in owner ==>
          && sb.nmeta <= a < sb.size && owner[a] !in dead
          && IsPlace(inodes, owner[a]) && AddrAt(inodes, blocks, owner[a]) == a)
    && (forall b {:trigger Bit(bitmap, b)} :: 0 <= b < sb.size ==> (Bit(bitmap, b) <==> b < sb.nmeta || b in owner))
  }
}
