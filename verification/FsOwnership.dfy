/** What the elementary updates of kernel/fs.c do to the block map, and why each keeps
  one owner per block.
 */
module FsOwnership {
  import opened FsModel

  /** The indirect block of inode i, if there is one, belongs to it. */
  lemma IndirectOwned(sb: Super, bitmap: seq<bv8>, blocks: seq<Bytes>, inodes: seq<Inode>, owner: map<nat, Place>,
                      dead: set<Place>, i: nat)
    requires Owned(sb, bitmap, blocks, inodes, owner, dead) && i < |inodes| && Place(i, NDIRECT) !in dead
    ensures var ind := inodes[i].addrs[NDIRECT];
            ind != 0 ==> ind in owner && owner[ind] == Place(i, NDIRECT) && sb.nmeta <= ind < sb.size
  {
    assert AddrAt(inodes, blocks, Place(i, NDIRECT)) == inodes[i].addrs[NDIRECT];
  }

  /** Writing a block that is nobody's indirect block leaves every address in place. */
  lemma WriteKeepsAddrs(sb: Super, bitmap: seq<bv8>, blocks: seq<Bytes>, inodes: seq<Inode>, owner: map<nat, Place>,
                        a: nat, v: Bytes, p: Place)
    requires Owned(sb, bitmap, blocks, inodes, owner, {}) && a < sb.size && IsPlace(inodes, p)
    requires a in owner ==> owner[a].k != NDIRECT
    ensures AddrAt(inodes, blocks[a := v], p) == AddrAt(inodes, blocks, p)
  {
    IndirectOwned(sb, bitmap, blocks, inodes, owner, {}, p.i);
  }

  lemma WriteKeepsOwned(sb: Super, bitmap: seq<bv8>, blocks: seq<Bytes>, inodes: seq<Inode>, owner: map<nat, Place>,
                        a: nat, v: Bytes)
    requires Owned(sb, bitmap, blocks, inodes, owner, {}) && a < sb.size
    requires a in owner ==> owner[a].k != NDIRECT
    ensures Owned(sb, bitmap, blocks[a := v], inodes, owner, {})
  {
    forall p | IsPlace(inodes, p) ensures AddrAt(inodes, blocks[a := v], p) == AddrAt(inodes, blocks, p) {
      WriteKeepsAddrs(sb, bitmap, blocks, inodes, owner, a, v, p);
    }
  }

  /** An update that gives the free block `a` to the empty place `at`, and moves no other
      address, keeps one owner per block. */
  lemma Granted(sb: Super, bitmap: seq<bv8>, blocks: seq<Bytes>, inodes: seq<Inode>, owner: map<nat, Place>,
                blocks': seq<Bytes>, inodes': seq<Inode>, at: Place, a: nat)
    requires Owned(sb, bitmap, blocks, inodes, owner, {}) && a < sb.size && !Bit(bitmap, a)
    requires |inodes'| == |inodes| && InodesOk(inodes') && |blocks'| == |blocks|
    requires IsPlace(inodes, at) && AddrAt(inodes, blocks, at) == 0
    requires forall p {:trigger AddrAt(inodes', blocks', p)} :: IsPlace(inodes, p) ==>
               AddrAt(inodes', blocks', p) == if p == at then a else AddrAt(inodes, blocks, p)
    ensures Owned(sb, WithBit(bitmap, a), blocks', inodes', owner[a := at], {})
  {
    var owner' := owner[a := at];
    assert a !in owner && a >= sb.nmeta;
    forall p | IsPlace(inodes', p) && AddrAt(inodes', blocks', p) != 0
      ensures AddrAt(inodes', blocks', p) in owner' && owner'[AddrAt(inodes', blocks', p)] == p
    {
      assert p != at ==> AddrAt(inodes, blocks, p) in owner;
    }
    forall c | c in owner'
      ensures sb.nmeta <= c < sb.size && IsPlace(inodes', owner'[c]) && AddrAt(inodes', blocks', owner'[c]) == c
    {
      if c != a {
        assert owner'[c] == owner[c] && AddrAt(inodes, blocks, owner[c]) == c;
        assert owner[c] != at;
      }
    }
    forall b | 0 <= b < sb.size ensures Bit(WithBit(bitmap, a), b) <==> b < sb.nmeta || b in owner' {
      assert ByteOf(a) < |bitmap| && ByteOf(b) < |bitmap|;
      WithBitAt(bitmap, a, b);
    }
  }

  /** Changing fields other than the addresses changes nothing here. */
  lemma ResizeKeepsOwned(sb: Super, bitmap: seq<bv8>, blocks: seq<Bytes>, inodes: seq<Inode>,
                         owner: map<nat, Place>, i: nat, ip: Inode)
    requires Owned(sb, bitmap, blocks, inodes, owner, {}) && i < |inodes| && ip.addrs == inodes[i].addrs
    ensures Owned(sb, bitmap, blocks, inodes[i := ip], owner, {})
  {
    var inodes' := inodes[i := ip];
    forall p | IsPlace(inodes, p) ensures AddrAt(inodes', blocks, p) == AddrAt(inodes, blocks, p) {
    }
  }

  function WithAddr(ip: Inode, k: nat, a: nat): Inode
    requires InodeOk(ip) && k <= NDIRECT
  {
    ip.(addrs := ip.addrs[k := a])
  }

  /** Addresses stay, data blocks keep their contents, and only the places in `news`
      may have received a block. */
  ghost predicate Grown(inodes: seq<Inode>, blocks: seq<Bytes>, inodes': seq<Inode>, blocks': seq<Bytes>,
                        news: set<Place>) {
    && InodesOk(inodes) && InodesOk(inodes') && |inodes'| == |inodes| && |blocks'| == |blocks|
    && forall p {:trigger AddrAt(inodes', blocks', p)} :: IsPlace(inodes, p) ==>
         var a := AddrAt(inodes, blocks, p);
         if a == 0 then p in news || AddrAt(inodes', blocks', p) == 0
         else AddrAt(inodes', blocks', p) == a && (p.k != NDIRECT && a < |blocks| ==> blocks'[a] == blocks[a])
  }

  lemma GrownTwice(inodes: seq<Inode>, blocks: seq<Bytes>, inodes1: seq<Inode>, blocks1: seq<Bytes>,
                   inodes2: seq<Inode>, blocks2: seq<Bytes>, news1: set<Place>, news2: set<Place>)
    requires Grown(inodes, blocks, inodes1, blocks1, news1) && Grown(inodes1, blocks1, inodes2, blocks2, news2)
    ensures Grown(inodes, blocks, inodes2, blocks2, news1 + news2)
  {
  }

  /** Granting a free block to one place grows the map by that place only. */
  lemma GrantGrows(sb: Super, bitmap: seq<bv8>, blocks: seq<Bytes>, inodes: seq<Inode>, owner: map<nat, Place>,
                   blocks': seq<Bytes>, inodes': seq<Inode>, at: Place, a: nat)
    requires Owned(sb, bitmap, blocks, inodes, owner, {}) && a !in owner && IsPlace(inodes, at)
             && AddrAt(inodes, blocks, at) == 0
    requires |inodes'| == |inodes| && InodesOk(inodes') && |blocks'| == |blocks|
    requires forall p {:trigger AddrAt(inodes', blocks', p)} :: IsPlace(inodes, p) ==>
               AddrAt(inodes', blocks', p) == if p == at then a else AddrAt(inodes, blocks, p)
    requires forall b {:trigger blocks'[b]} :: 0 <= b < |blocks| && b in owner && owner[b].k != NDIRECT ==>
             blocks'[b] == blocks[b]
    ensures Grown(inodes, blocks, inodes', blocks', {at})
  {
  }

  /** balloc into a direct slot, or as the indirect block itself. */
  lemma GrantDirect(sb: Super, bitmap: seq<bv8>, blocks: seq<Bytes>, inodes: seq<Inode>, owner: map<nat, Place>,
                    i: nat, k: nat, a: nat)
    requires Owned(sb, bitmap, blocks, inodes, owner, {}) && a < sb.size && !Bit(bitmap, a)
    requires i < |inodes| && k <= NDIRECT && inodes[i].addrs[k] == 0
    ensures var blocks', inodes' := blocks[a := ZeroBlock()], inodes[i := WithAddr(inodes[i], k, a)];
            && Owned(sb, WithBit(bitmap, a), blocks', inodes', owner[a := Place(i, k)], {})
            && Grown(inodes, blocks, inodes', blocks', {Place(i, k)})
            && AddrAt(inodes', blocks', Place(i, k)) == a > 0
  {
    var blocks', inodes' := blocks[a := ZeroBlock()], inodes[i := WithAddr(inodes[i], k, a)];
    assert a !in owner && a >= sb.nmeta;
    forall p | IsPlace(inodes, p)
      ensures AddrAt(inodes', blocks', p) == if p == Place(i, k) then a else AddrAt(inodes, blocks, p)
    {
      IndirectOwned(sb, bitmap, blocks, inodes, owner, {}, p.i);
    }
    assert AddrAt(inodes, blocks, Place(i, k)) == 0;
    Granted(sb, bitmap, blocks, inodes, owner, blocks', inodes', Place(i, k), a);
    GrantGrows(sb, bitmap, blocks, inodes, owner, blocks', inodes', Place(i, k), a);
  }

  /** balloc into entry j of inode i's indirect block. */
  lemma GrantIndirect(sb: Super, bitmap: seq<bv8>, blocks: seq<Bytes>, inodes: seq<Inode>, owner: map<nat, Place>,
                      i: nat, j: nat, a: nat)
    requires Owned(sb, bitmap, blocks, inodes, owner, {}) && a < sb.size && !Bit(bitmap, a)
    requires i < |inodes| && j < NINDIRECT && 0 != inodes[i].addrs[NDIRECT] < |blocks|
             && Word(blocks[inodes[i].addrs[NDIRECT]], j) == 0
    ensures var ind := inodes[i].addrs[NDIRECT];
            var blocks' := blocks[a := ZeroBlock()][ind := SetWord(blocks[ind], j, a)];
            && Owned(sb, WithBit(bitmap, a), blocks', inodes, owner[a := Place(i, NDIRECT + 1 + j)], {})
            && Grown(inodes, blocks, inodes, blocks', {Place(i, NDIRECT + 1 + j)})
            && AddrAt(inodes, blocks', Place(i, NDIRECT + 1 + j)) == a > 0 && a != ind
  {
    var ind := inodes[i].addrs[NDIRECT];
    var blocks' := blocks[a := ZeroBlock()][ind := SetWord(blocks[ind], j, a)];
    assert a !in owner && a >= sb.nmeta;
    IndirectOwned(sb, bitmap, blocks, inodes, owner, {}, i);
    forall p | IsPlace(inodes, p)
      ensures AddrAt(inodes, blocks', p) == if p == Place(i, NDIRECT + 1 + j) then a else AddrAt(inodes, blocks, p)
    {
      IndirectOwned(sb, bitmap, blocks, inodes, owner, {}, p.i);
      if p.i == i && p.k > NDIRECT {
        SetWordAt(blocks[ind], j, a, p.k - NDIRECT - 1);
      }
    }
    assert AddrAt(inodes, blocks, Place(i, NDIRECT + 1 + j)) == 0;
    Granted(sb, bitmap, blocks, inodes, owner, blocks', inodes, Place(i, NDIRECT + 1 + j), a);
    GrantGrows(sb, bitmap, blocks, inodes, owner, blocks', inodes, Place(i, NDIRECT + 1 + j), a);
  }

  /** bfree of the block at a live place: the block is marked in use, so bfree does not
      panic, and once it is free the place is dead. */
  lemma Freed(sb: Super, bitmap: seq<bv8>, blocks: seq<Bytes>, inodes: seq<Inode>, owner: map<nat, Place>,
              dead: set<Place>, p: Place)
    requires Owned(sb, bitmap, blocks, inodes, owner, dead) && IsPlace(inodes, p) && p !in dead
             && AddrAt(inodes, blocks, p) != 0
    ensures var a := AddrAt(inodes, blocks, p);
            && sb.nmeta <= a < sb.size && ByteOf(a) < |bitmap| && Bit(bitmap, a)
            && Owned(sb, WithoutBit(bitmap, a), blocks, inodes, owner - {a}, dead + {p})
  {
    var a := AddrAt(inodes, blocks, p);
    var owner' := owner - {a};
    assert a in owner && owner[a] == p;
    assert ByteOf(a) < |bitmap| && Bit(bitmap, a);
    forall q | IsPlace(inodes, q) && q !in dead + {p} && AddrAt(inodes, blocks, q) != 0
      ensures AddrAt(inodes, blocks, q) in owner' && owner'[AddrAt(inodes, blocks, q)] == q
    {
      assert owner[AddrAt(inodes, blocks, q)] == q;
    }
    forall c | c in owner' ensures owner'[c] !in dead + {p} {
      assert AddrAt(inodes, blocks, owner[c]) == c;
    }
    forall b | 0 <= b < sb.size ensures Bit(WithoutBit(bitmap, a), b) <==> b < sb.nmeta || b in owner' {
      assert ByteOf(b) < |bitmap|;
      WithoutBitAt(bitmap, a, b);
    }
  }

  /** A place that holds no address may as well be dead. */
  lemma BuryEmpty(sb: Super, bitmap: seq<bv8>, blocks: seq<Bytes>, inodes: seq<Inode>, owner: map<nat, Place>,
                  dead: set<Place>, p: Place)
    requires Owned(sb, bitmap, blocks, inodes, owner, dead) && IsPlace(inodes, p) && AddrAt(inodes, blocks, p) == 0
    ensures Owned(sb, bitmap, blocks, inodes, owner, dead + {p})
  {
  }

  /** Zeroing the addresses of dead places brings them back as empty ones. */
  lemma Erased(sb: Super, bitmap: seq<bv8>, blocks: seq<Bytes>, inodes: seq<Inode>, owner: map<nat, Place>,
               dead: set<Place>,
               inodes': seq<Inode>, dead': set<Place>)
    requires Owned(sb, bitmap, blocks, inodes, owner, dead) && dead' <= dead
    requires |inodes'| == |inodes| && InodesOk(inodes')
    requires forall p {:trigger AddrAt(inodes', blocks, p)} :: IsPlace(inodes, p) ==>
               if p !in dead then AddrAt(inodes', blocks, p) == AddrAt(inodes, blocks, p)
               else p !in dead' ==> AddrAt(inodes', blocks, p) == 0
    ensures Owned(sb, bitmap, blocks, inodes', owner, dead')
  {
  }

  /** The owners left once the places in S own nothing. */
  ghost function Minus(owner: map<nat, Place>, S: set<Place>): map<nat, Place> {
    map a | a in owner && owner[a] !in S :: owner[a]
  }

  /** The places of inode i's indirect entries below j. */
  ghost function Entries(i: nat, j: nat): set<Place> {
    set k: nat | NDIRECT < k <= NDIRECT + j :: Place(i, k)
  }

  /** All places of inode i below slot k. */
  ghost function Slots(i: nat, k: nat): set<Place> {
    set x: nat | x < k :: Place(i, x)
  }

  /** bfree at place p removes exactly p from the owners. */
  lemma FreedMinus(sb: Super, bitmap: seq<bv8>, blocks: seq<Bytes>, inodes: seq<Inode>, owner: map<nat, Place>,
                   dead: set<Place>, p: Place)
    requires Owned(sb, bitmap, blocks, inodes, owner, dead) && IsPlace(inodes, p) && p !in dead
    ensures var a := AddrAt(inodes, blocks, p);
            if a == 0 then
              Minus(owner, {p}) == owner && Owned(sb, bitmap, blocks, inodes, owner, dead + {p})
            else
              && sb.nmeta <= a < sb.size && ByteOf(a) < |bitmap| && Bit(bitmap, a)
              && Owned(sb, WithoutBit(bitmap, a), blocks, inodes, Minus(owner, {p}), dead + {p})
  {
    var a := AddrAt(inodes, blocks, p);
    if a == 0 {
      BuryEmpty(sb, bitmap, blocks, inodes, owner, dead, p);
      assert forall c :: c in owner ==> owner[c] != p by {
        forall c | c in owner ensures owner[c] != p {
          assert AddrAt(inodes, blocks, owner[c]) == c;
        }
      }
      assert Minus(owner, {p}) == owner;
    } else {
      Freed(sb, bitmap, blocks, inodes, owner, dead, p);
      assert owner[a] == p;
      forall c | c in owner ensures c == a <==> owner[c] == p {
        assert AddrAt(inodes, blocks, owner[c]) == c;
      }
      assert Minus(owner, {p}) == owner - {a};
    }
  }

  lemma MinusTwice(owner: map<nat, Place>, S: set<Place>, T: set<Place>)
    ensures Minus(Minus(owner, S), T) == Minus(owner, S + T)
  {
  }
}
