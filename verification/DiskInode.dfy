/** The inode blocks of kernel/fs.c, byte by byte: IPB inodes of 128 bytes share a
  block, iupdate rewrites the fields of one of them, ialloc looks for a free one.
 */
module DiskInode {
  import opened Common
  import opened FsModel

  const DINODE: nat := 128 // sizeof(struct dinode), with its junk and padding
  const FIELDS: nat := 76  // the bytes of it that hold fields

  /** A 16-bit or 32-bit field as C reads it. */
  type int16 = x: int | -32768 <= x < 32768
  type uint32 = x: int | 0 <= x < UINT

  /** struct dinode. */
  datatype Dinode = Dinode(kind: int16, major: int16, minor: int16, nlink: int16, size: uint32, addrs: seq<uint32>,
                           mode: uint32, uid: uint32, gid: uint32)
  {
    predicate Wf() { |addrs| == NDIRECT + 1 }
  }

  // ------------------------------------------------------- fields of a block

  function GetShort(b: seq<byte>, o: nat): int16
    requires o + 2 <= |b|
  {
    var v := b[o] as int + 256 * (b[o + 1] as int);
    if v < 32768 then v else v - 65536
  }

  function GetUint(b: seq<byte>, o: nat): uint32
    requires o + 4 <= |b|
  {
    b[o] as int + 256 * (b[o + 1] as int) + 65536 * (b[o + 2] as int) + 16777216 * (b[o + 3] as int)
  }

  /** Where inode `slot` of a block starts. */
  function At(slot: nat): nat { slot * DINODE }

  /** Inode `slot` of a block, as ilock copies it. */
  function Get(b: seq<byte>, slot: nat): (d: Dinode)
    requires |b| == BSIZE && slot < IPB
    ensures d.Wf()
  {
    var o := At(slot);
    Dinode(GetShort(b, o), GetShort(b, o + 2), GetShort(b, o + 4), GetShort(b, o + 6), GetUint(b, o + 8),
           seq(NDIRECT + 1, k requires 0 <= k < NDIRECT + 1 => GetUint(b, o + 12 + 4 * k)),
           GetUint(b, o + 64), GetUint(b, o + 68), GetUint(b, o + 72))
  }

  /** The two agree on [lo, hi). */
  ghost predicate Agree(a: seq<byte>, b: seq<byte>, lo: nat, hi: nat) {
    hi <= |a| == |b| && forall k {:trigger a[k]} {:trigger b[k]} :: lo <= k < hi ==> a[k] == b[k]
  }

  /** The bytes [o, o + n) alone may differ. */
  ghost predicate OnlyAt(a: seq<byte>, b: seq<byte>, o: nat, n: nat) {
    |a| == |b| && o + n <= |a| && Agree(a, b, 0, o) && Agree(a, b, o + n, |a|)
  }

  /** An inode depends on its own bytes only. */
  lemma GetAgree(a: seq<byte>, b: seq<byte>, slot: nat)
    requires |a| == |b| == BSIZE && slot < IPB && Agree(a, b, At(slot), At(slot) + FIELDS)
    ensures Get(a, slot) == Get(b, slot)
  {
    forall k | 0 <= k < NDIRECT + 1 ensures GetUint(a, At(slot) + 12 + 4 * k) == GetUint(b, At(slot) + 12 + 4 * k) {
    }
  }

  lemma ElsewhereAgree(a: seq<byte>, b: seq<byte>, slot: nat, other: nat)
    requires |a| == |b| == BSIZE && slot < IPB && other < IPB && other != slot && OnlyAt(a, b, At(slot), DINODE)
    ensures Get(a, other) == Get(b, other)
  {
    GetAgree(a, b, other);
  }

  // -------------------------------------------------------- writing a buffer

  method PutShort(bp: array<byte>, o: nat, v: int16)
    requires o + 2 <= bp.Length
    modifies bp
    ensures GetShort(bp[..], o) == v && OnlyAt(bp[..], old(bp[..]), o, 2)
  {
    var u := if v < 0 then v + 65536 else v;
    bp[o] := u % 256;
    bp[o + 1] := u / 256;
  }

  method PutUint(bp: array<byte>, o: nat, v: uint32)
    requires o + 4 <= bp.Length
    modifies bp
    ensures GetUint(bp[..], o) == v && OnlyAt(bp[..], old(bp[..]), o, 4)
  {
    FourBytes(v);
    bp[o] := v % 256;
    bp[o + 1] := v / 256 % 256;
    bp[o + 2] := v / 65536 % 256;
    bp[o + 3] := v / 16777216;
  }

  /** memmove of the addresses. */
  method PutAddrs(bp: array<byte>, o: nat, addrs: seq<uint32>)
    requires o + 4 * |addrs| <= bp.Length
    modifies bp
    ensures OnlyAt(bp[..], old(bp[..]), o, 4 * |addrs|)
    ensures forall k :: 0 <= k < |addrs| ==> GetUint(bp[..], o + 4 * k) == addrs[k]
  {
    var j := 0;
    while j < |addrs|
      invariant 0 <= j <= |addrs| && OnlyAt(bp[..], old(bp[..]), o, 4 * |addrs|)
      invariant forall k :: 0 <= k < j ==> GetUint(bp[..], o + 4 * k) == addrs[k]
    {
      ghost var b := bp[..];
      PutUint(bp, o + 4 * j, addrs[j]);
      forall k | 0 <= k < j ensures GetUint(bp[..], o + 4 * k) == addrs[k] {
        assert GetUint(b, o + 4 * k) == addrs[k];
      }
      j := j + 1;
    }
  }

  /** type, major, minor and nlink. */
  method PutShorts(bp: array<byte>, o: nat, d: Dinode)
    requires o + 8 <= bp.Length
    modifies bp
    ensures OnlyAt(bp[..], old(bp[..]), o, 8)
    ensures GetShort(bp[..], o) == d.kind && GetShort(bp[..], o + 2) == d.major
    ensures GetShort(bp[..], o + 4) == d.minor && GetShort(bp[..], o + 6) == d.nlink
  {
    PutShort(bp, o, d.kind);
    PutShort(bp, o + 2, d.major);
    PutShort(bp, o + 4, d.minor);
    PutShort(bp, o + 6, d.nlink);
  }

  /** mode, uid and gid. */
  method PutIds(bp: array<byte>, o: nat, d: Dinode)
    requires o + 12 <= bp.Length
    modifies bp
    ensures OnlyAt(bp[..], old(bp[..]), o, 12)
    ensures GetUint(bp[..], o) == d.mode && GetUint(bp[..], o + 4) == d.uid && GetUint(bp[..], o + 8) == d.gid
  {
    PutUint(bp, o, d.mode);
    PutUint(bp, o + 4, d.uid);
    PutUint(bp, o + 8, d.gid);
  }

  /** The assignments of iupdate to one inode of a buffer. */
  method Put(bp: array<byte>, slot: nat, d: Dinode)
    requires bp.Length == BSIZE && slot < IPB && d.Wf()
    modifies bp
    ensures Get(bp[..], slot) == d && OnlyAt(bp[..], old(bp[..]), At(slot), FIELDS)
  {
    var o := At(slot);
    ghost var b0 := bp[..];
    PutShorts(bp, o, d);
    ghost var b1 := bp[..];
    PutUint(bp, o + 8, d.size);
    ghost var b2 := bp[..];
    PutIds(bp, o + 64, d);
    ghost var b3 := bp[..];
    PutAddrs(bp, o + 12, d.addrs);
    PutAll(b0, b1, b2, b3, bp[..], slot, d);
  }

  lemma PutAll(b0: seq<byte>, b1: seq<byte>, b2: seq<byte>, b3: seq<byte>, b: seq<byte>, slot: nat, d: Dinode)
    requires |b0| == BSIZE && slot < IPB && d.Wf()
    requires OnlyAt(b1, b0, At(slot), 8) && OnlyAt(b2, b1, At(slot) + 8, 4)
    requires OnlyAt(b3, b2, At(slot) + 64, 12) && OnlyAt(b, b3, At(slot) + 12, 52)
    requires GetShort(b1, At(slot)) == d.kind && GetShort(b1, At(slot) + 2) == d.major
    requires GetShort(b1, At(slot) + 4) == d.minor && GetShort(b1, At(slot) + 6) == d.nlink
    requires GetUint(b2, At(slot) + 8) == d.size
    requires GetUint(b3, At(slot) + 64) == d.mode && GetUint(b3, At(slot) + 68) == d.uid
             && GetUint(b3, At(slot) + 72) == d.gid
    requires forall k :: 0 <= k < NDIRECT + 1 ==> GetUint(b, At(slot) + 12 + 4 * k) == d.addrs[k]
    ensures Get(b, slot) == d && OnlyAt(b, b0, At(slot), FIELDS)
  {
    var o := At(slot);
    assert forall k :: o <= k < o + 8 ==> b[k] == b3[k] == b2[k] == b1[k];
    assert GetShort(b, o) == d.kind && GetShort(b, o + 2) == d.major;
    assert GetShort(b, o + 4) == d.minor && GetShort(b, o + 6) == d.nlink;
    assert forall k :: o + 8 <= k < o + 12 ==> b[k] == b3[k] == b2[k];
    assert GetUint(b, o + 8) == d.size;
    assert GetUint(b, o + 64) == d.mode && GetUint(b, o + 68) == d.uid && GetUint(b, o + 72) == d.gid;
    assert Get(b, slot).addrs == d.addrs;
    forall k | 0 <= k < BSIZE && !(o <= k < o + FIELDS) ensures b[k] == b0[k] {
      assert b[k] == b3[k] && b3[k] == b2[k] && b2[k] == b1[k] && b1[k] == b0[k];
    }
  }

  /** memset of a whole inode. */
  method Zero(bp: array<byte>, slot: nat)
    requires bp.Length == BSIZE && slot < IPB
    modifies bp
    ensures OnlyAt(bp[..], old(bp[..]), At(slot), DINODE)
    ensures forall k {:trigger bp[k]} :: At(slot) <= k < At(slot) + DINODE ==> bp[k] == 0
  {
    var k := 0;
    while k < DINODE
      invariant 0 <= k <= DINODE && OnlyAt(bp[..], old(bp[..]), At(slot), DINODE)
      invariant forall j {:trigger bp[j]} :: At(slot) <= j < At(slot) + k ==> bp[j] == 0
    {
      bp[At(slot) + k] := 0;
      k := k + 1;
    }
  }

  /** A new inode: all zero but for its type, mode and owner. */
  function Blank(kind: int16, uid: uint32, mode: uint32): (d: Dinode)
    ensures d.Wf()
  {
    Dinode(kind, 0, 0, 0, 0, seq(NDIRECT + 1, _ => 0), mode, uid, 0)
  }

  /** The assignments of ialloc to the inode it takes. */
  method PutBlank(bp: array<byte>, slot: nat, kind: int16, uid: uint32, mode: uint32)
    requires bp.Length == BSIZE && slot < IPB
    modifies bp
    ensures Get(bp[..], slot) == Blank(kind, uid, mode) && OnlyAt(bp[..], old(bp[..]), At(slot), DINODE)
  {
    var o := At(slot);
    Zero(bp, slot);
    PutShort(bp, o, kind);
    PutUint(bp, o + 64, mode);
    PutUint(bp, o + 68, uid);
    assert Get(bp[..], slot).addrs == Blank(kind, uid, mode).addrs;
  }

  // ---------------------------------------------------------- the inode table

  class Table {
    const start: nat   // sb.inodestart
    const ninodes: nat
    var blocks: seq<Bytes>
    var logged: set<nat>

    ghost predicate Valid()
      reads this
    {
      ninodes <= |blocks| * IPB
    }

    constructor (inodestart: nat, n: nat, image: seq<Bytes>)
      requires n <= |image| * IPB
      ensures Valid() && start == inodestart && ninodes == n && blocks == image && logged == {}
    {
      start, ninodes, blocks, logged := inodestart, n, image, {};
    }

    /** What ilock reads for inode i. */
    function Inode(i: nat): (d: Dinode)
      reads this
      requires i < |blocks| * IPB
    {
      Get(blocks[i / IPB], i % IPB)
    }

    /** bread: a buffer with the block's bytes. */
    method Bread(k: nat) returns (bp: array<byte>)
      requires k < |blocks|
      ensures fresh(bp) && bp.Length == BSIZE && bp[..] == blocks[k]
    {
      var b := blocks[k];
      bp := new byte[BSIZE](i requires 0 <= i < BSIZE => b[i]);
    }

    /** log_write: the buffer's bytes are the block's newest contents. */
    method LogWrite(k: nat, bp: array<byte>)
      requires k < |blocks| && bp.Length == BSIZE
      modifies this`blocks, this`logged
      ensures blocks == old(blocks)[k := bp[..]] && logged == old(logged) + {start + k}
    {
      blocks := blocks[k := bp[..]];
      logged := logged + {start + k};
    }

    /** Rewriting one inode's bytes in its block leaves every other inode alone. */
    lemma OthersKept(before: seq<Bytes>, inum: nat, j: nat)
      requires inum < |blocks| * IPB && j < |blocks| * IPB && j != inum && |before| == |blocks|
      requires forall k :: 0 <= k < |blocks| && k != inum / IPB ==> blocks[k] == before[k]
      requires OnlyAt(blocks[inum / IPB], before[inum / IPB], At(inum % IPB), DINODE)
      ensures Inode(j) == Get(before[j / IPB], j % IPB)
    {
      if j / IPB == inum / IPB {
        ElsewhereAgree(blocks[j / IPB], before[j / IPB], inum % IPB, j % IPB);
      }
    }

    /** iupdate: the inode reads back as written, and the others that share its block
        read as before. */
    method Iupdate(inum: nat, d: Dinode)
      requires Valid() && inum < ninodes && d.Wf()
      modifies this
      ensures Valid() && |blocks| == |old(blocks)| && logged == old(logged) + {start + inum / IPB}
      ensures Inode(inum) == d
      ensures var b, o := blocks[inum / IPB], inum % IPB * 128;
              && GetShort(b, o) == d.kind && GetShort(b, o + 2) == d.major && GetShort(b, o + 4) == d.minor
              && GetShort(b, o + 6) == d.nlink && GetUint(b, o + 8) == d.size
              && (forall k :: 0 <= k <= NDIRECT ==> GetUint(b, o + 12 + 4 * k) == d.addrs[k])
              && GetUint(b, o + 64) == d.mode && GetUint(b, o + 68) == d.uid && GetUint(b, o + 72) == d.gid
      ensures forall j :: 0 <= j < |blocks| * IPB && j != inum ==> Inode(j) == old(Inode(j))
      ensures OnlyAt(blocks[inum / IPB], old(blocks[inum / IPB]), At(inum % IPB), FIELDS)
    {
      var bp := Bread(inum / IPB);
      Put(bp, inum % IPB, d);
      LogWrite(inum / IPB, bp);
      forall j | 0 <= j < |blocks| * IPB && j != inum ensures Inode(j) == old(Inode(j)) {
        OthersKept(old(blocks), inum, j);
      }
    }

    /** ialloc: the first inode from number 1 on whose type is 0, now blank but for type,
        mode and owner; None is the panic "no inodes". */
    method Ialloc(kind: int16, uid: uint32, mode: uint32) returns (r: Option<nat>)
      requires Valid()
      modifies this
      ensures Valid() && |blocks| == |old(blocks)|
      ensures r.None? <==> forall i :: 1 <= i < ninodes ==> old(Inode(i)).kind != 0
      ensures r.None? ==> blocks == old(blocks) && logged == old(logged)
      ensures r.Some? ==>
                && 1 <= r.value < ninodes && old(Inode(r.value)).kind == 0
                && (forall i :: 1 <= i < r.value ==> old(Inode(i)).kind != 0)
                && Inode(r.value) == Dinode(kind, 0, 0, 0, 0, seq(NDIRECT + 1, _ => 0), mode, uid, 0)
                && logged == old(logged) + {start + r.value / IPB}
      ensures forall j :: 0 <= j < |blocks| * IPB && r != Some(j) ==> Inode(j) == old(Inode(j))
    {
      var inum := 1;
      while inum < ninodes
        invariant 1 <= inum && blocks == old(blocks) && logged == old(logged)
        invariant forall i :: 1 <= i < inum && i < ninodes ==> old(Inode(i)).kind != 0
      {
        var bp := Bread(inum / IPB);
        if GetShort(bp[..], At(inum % IPB)) == 0 {
          assert old(Inode(inum)).kind == 0;
          PutBlank(bp, inum % IPB, kind, uid, mode);
          LogWrite(inum / IPB, bp);
          forall j | 0 <= j < |blocks| * IPB && j != inum ensures Inode(j) == old(Inode(j)) {
            OthersKept(old(blocks), inum, j);
          }
          return Some(inum);
        }
        inum := inum + 1;
      }
      return None;
    }
  }
}
