/** The Kernighan and Ritchie allocator of user/umalloc.c.

  Memory is counted in header-sized units. A header is a pair of cells (`ptr`,
  `size`) at a unit address; the free blocks form one circular list through `ptr`,
  in address order, that starts at the static header `base`.
 */
module Umalloc {
  import opened Common

  const UINT := 0x1_0000_0000
  const HEADER := 8    // sizeof(Header): a pointer and a uint
  const NALLOC := 4096 // least number of units asked of sbrk

  /** `len` units starting at `addr`; the first holds the header. */
  datatype Block = Block(addr: int, len: int) {
    function End(): int { addr + len }

    predicate Has(u: int) { addr <= u < addr + len }

    predicate Clear(b: Block) { End() <= b.addr || b.End() <= addr }
  }

  // ------------------------------------------------------- request arithmetic

  /** nunits in malloc, in 32-bit arithmetic. */
  function Units(nbytes: nat): (n: nat)
    requires nbytes < UINT
    ensures n >= 1
  {
    ((nbytes + HEADER - 1) % UINT) / HEADER + 1
  }

  /** A block of Units(nbytes) has room for a header and nbytes exactly when the
      rounding in malloc does not wrap, and is never a unit too large. */
  lemma PayloadFits(nbytes: nat)
    requires nbytes < UINT
    ensures (Units(nbytes) - 1) * HEADER >= nbytes <==> nbytes <= UINT - HEADER
    ensures (Units(nbytes) - 1) * HEADER < nbytes + HEADER
  {
  }

  /** The int that sbrk receives for `nu` units. */
  function SbrkArgument(nu: nat): int {
    var bytes := (nu * HEADER) % UINT;
    if bytes < UINT / 2 then bytes else bytes - UINT
  }

  function Asked(nunits: nat): nat {
    if nunits < NALLOC then NALLOC else nunits
  }

  /** The largest request malloc serves safely. */
  const LARGEST: nat := UINT / 2 - 2 * HEADER

  /** morecore's request to sbrk is the bytes of the units it then puts on the list. */
  predicate AsksRight(nunits: nat) {
    SbrkArgument(Asked(nunits)) == Asked(nunits) * HEADER
  }

  /** Past LARGEST the product overflows sbrk's int, until the rounding in malloc has
      wrapped; where it overflows the break never grows. */
  lemma AsksRightExactly(nbytes: nat)
    requires nbytes < UINT
    ensures AsksRight(Units(nbytes)) <==> nbytes <= LARGEST || nbytes > UINT - HEADER
    ensures !AsksRight(Units(nbytes)) ==> SbrkArgument(Asked(Units(nbytes))) <= 0
  {
  }

  /** malloc's arithmetic is sound, in the size of the block and in the bytes it asks
      of sbrk, exactly for requests up to LARGEST. */
  lemma SoundExactly(nbytes: nat)
    requires nbytes < UINT
    ensures (Units(nbytes) - 1) * HEADER >= nbytes && AsksRight(Units(nbytes)) <==> nbytes <= LARGEST
  {
    PayloadFits(nbytes);
    AsksRightExactly(nbytes);
  }

  /** malloc(0x80000000) asks sbrk to shrink the process. */
  lemma HalfTheSpace()
    ensures Units(0x8000_0000) == 0x1000_0001
    ensures SbrkArgument(Asked(Units(0x8000_0000))) == -0x7fff_fff8
  {
  }

  // ----------------------------------------------- free lists as plain values

  /** Ascending, with a gap of at least one unit between neighbours. */
  ghost predicate Ordered(free: seq<Block>) {
    forall i, j {:trigger free[i].End(), free[j].addr} :: 0 <= i < j < |free| ==> free[i].End() < free[j].addr
  }

  ghost predicate FreeList(free: seq<Block>, base: int, brk: int) {
    && |free| >= 1 && free[0] == Block(base, 0)
    && (forall i :: 1 <= i < |free| ==> free[i].len >= 1)
    && Ordered(free)
    && (forall i {:trigger free[i].End()} :: 0 <= i < |free| ==> free[i].End() <= brk)
  }

  /** Units in the first k blocks. */
  function Sum(bs: seq<Block>, k: nat): int
    requires k <= |bs|
  {
    if k == 0 then 0 else Sum(bs, k - 1) + bs[k - 1].len
  }

  function Total(bs: seq<Block>): int {
    Sum(bs, |bs|)
  }

  ghost predicate Owns(bs: seq<Block>, u: int) {
    exists i :: 0 <= i < |bs| && bs[i].Has(u)
  }

  /** `t` is the last free block below address `a`. */
  ghost predicate Below(free: seq<Block>, a: int, t: int) {
    && 0 <= t < |free| && free[t].addr < a
    && (t + 1 < |free| ==> a < free[t + 1].addr)
  }

  /** The block `b` placed after position t, merged with the neighbours it touches. */
  function Insert(free: seq<Block>, t: nat, b: Block): seq<Block>
    requires t < |free|
  {
    var up := t + 1 < |free| && b.End() == free[t + 1].addr;
    var b1 := if up then Block(b.addr, b.len + free[t + 1].len) else b;
    var rest := if up then free[t + 2..] else free[t + 1..];
    if free[t].End() == b.addr
    then free[..t] + [Block(free[t].addr, free[t].len + b1.len)] + rest
    else free[..t + 1] + [b1] + rest
  }

  /** The free list after `n` units are carved from the tail of block i. */
  function Take(free: seq<Block>, i: nat, n: nat): seq<Block>
    requires i < |free| && n <= free[i].len
  {
    if free[i].len == n then free[..i] + free[i + 1..]
    else free[i := Block(free[i].addr, free[i].len - n)]
  }

  /** Stretches with equal blocks have equal sums. */
  lemma {:induction false} SumShift(r: seq<Block>, s: seq<Block>, from: nat, k: nat, d: int)
    requires from <= k <= |r| && 0 <= from + d && k + d <= |s|
    requires forall i {:trigger r[i]} :: from <= i < k ==> r[i] == s[i + d]
    ensures Sum(r, k) - Sum(r, from) == Sum(s, k + d) - Sum(s, from + d)
    decreases k
  {
    if from < k {
      SumShift(r, s, from, k - 1, d);
    }
  }

  /** `r` is `free` with `b` after position t, merged with each neighbour it touches
      and with nothing else changed. */
  ghost predicate Spliced(free: seq<Block>, t: nat, b: Block, r: seq<Block>)
    requires t < |free|
  {
    var up := t + 1 < |free| && b.End() == free[t + 1].addr;
    var low := free[t].End() == b.addr;
    var at := if low then t else t + 1;
    && |r| == |free| + 1 - (if up then 1 else 0) - (if low then 1 else 0)
    && (forall i {:trigger r[i]} :: 0 <= i < at ==> r[i] == free[i])
    && r[at] == Block(if low then free[t].addr else b.addr,
                      b.len + (if low then free[t].len else 0) + (if up then free[t + 1].len else 0))
    && (forall i {:trigger r[i]} :: at < i < |r| ==> r[i] == free[i + |free| - |r|])
  }

  lemma InsertSplices(free: seq<Block>, t: nat, b: Block)
    requires t < |free|
    ensures Spliced(free, t, b, Insert(free, t, b))
  {
  }

  lemma SplicedPair(free: seq<Block>, t: nat, b: Block, r: seq<Block>, base: int, brk: int, i: nat, j: nat)
    requires FreeList(free, base, brk) && Below(free, b.addr, t) && Spliced(free, t, b, r)
    requires b.len >= 1 && b.End() <= brk && forall k :: 0 <= k < |free| ==> b.Clear(free[k])
    requires i < j < |r|
    ensures r[i].End() < r[j].addr
  {
    var at := if free[t].End() == b.addr then t else t + 1;
    assert b.Clear(free[t]);
    if t + 1 < |free| {
      assert b.Clear(free[t + 1]);
    }
    if j < at {
      assert r[i] == free[i] && r[j] == free[j];
    } else if i < at {
      assert r[i] == free[i];
      assert i < t ==> free[i].End() < free[t].addr;
      assert j > at ==> r[j] == free[j + |free| - |r|];
    } else {
      var k := j + |free| - |r|;
      assert r[j] == free[k];
      assert i > at ==> r[i] == free[i + |free| - |r|];
      assert t + 1 < k ==> free[t + 1].End() < free[k].addr;
    }
  }

  /** Freeing keeps the list ascending with no two blocks touching. */
  lemma SplicedOrdered(free: seq<Block>, t: nat, b: Block, r: seq<Block>, base: int, brk: int)
    requires FreeList(free, base, brk) && Below(free, b.addr, t) && Spliced(free, t, b, r)
    requires b.len >= 1 && b.End() <= brk && forall i :: 0 <= i < |free| ==> b.Clear(free[i])
    ensures FreeList(r, base, brk)
  {
    var at := if free[t].End() == b.addr then t else t + 1;
    assert b.Clear(free[t]);
    forall i, j | 0 <= i < j < |r| ensures r[i].End() < r[j].addr {
      SplicedPair(free, t, b, r, base, brk, i, j);
    }
    forall i | 0 <= i < |r| ensures r[i].End() <= brk && (i >= 1 ==> r[i].len >= 1) {
      if i > at {
        assert r[i] == free[i + |free| - |r|];
      }
    }
  }

  /** Freeing adds exactly the units of `b`. */
  lemma SplicedTotal(free: seq<Block>, t: nat, b: Block, r: seq<Block>)
    requires t < |free| && Spliced(free, t, b, r)
    ensures Total(r) == Total(free) + b.len
  {
    var at := if free[t].End() == b.addr then t else t + 1;
    SumShift(r, free, 0, at, 0);
    SumShift(r, free, at + 1, |r|, |free| - |r|);
  }

  lemma SplicedHolds(free: seq<Block>, t: nat, b: Block, r: seq<Block>)
    requires t < |free| && free[t].len >= 0 && (t + 1 < |free| ==> free[t + 1].len >= 0) && Spliced(free, t, b, r)
    ensures exists i :: 0 <= i < |r| && r[i].len >= b.len
  {
  }

  lemma SplicedOwns(free: seq<Block>, t: nat, b: Block, r: seq<Block>, u: int)
    requires t < |free| && free[t].len >= 0 && b.len >= 0 && (t + 1 < |free| ==> free[t + 1].len >= 0)
    requires Spliced(free, t, b, r)
    ensures Owns(r, u) <==> Owns(free, u) || b.Has(u)
  {
    var up := t + 1 < |free| && b.End() == free[t + 1].addr;
    var low := free[t].End() == b.addr;
    var at := if low then t else t + 1;
    if b.Has(u) || (low && free[t].Has(u)) || (up && free[t + 1].Has(u)) {
      assert r[at].Has(u);
    } else if Owns(free, u) {
      var i :| 0 <= i < |free| && free[i].Has(u);
      assert r[if i < at then i else i - |free| + |r|].Has(u);
    }
  }

  lemma TakeOrdered(free: seq<Block>, i: nat, n: nat, base: int, brk: int)
    requires FreeList(free, base, brk) && 1 <= i < |free| && 1 <= n <= free[i].len
    ensures FreeList(Take(free, i, n), base, brk)
  {
    var r := Take(free, i, n);
    forall j, k | 0 <= j < k < |r| ensures r[j].End() < r[k].addr {
      TakeAt(free, i, n, j);
      TakeAt(free, i, n, k);
      assert free[Kept(free, i, n, j)].End() < free[Kept(free, i, n, k)].addr;
    }
    forall k | 1 <= k < |r| ensures r[k].len >= 1 && r[k].End() <= brk {
      TakeAt(free, i, n, k);
      assert free[Kept(free, i, n, k)].End() <= brk;
    }
    TakeAt(free, i, n, 0);
  }

  /** Where block k of what Take leaves was before. */
  function Kept(free: seq<Block>, i: nat, n: nat, k: nat): (k0: nat)
    requires i < |free|
    ensures k0 == k || k0 == k + 1
  {
    if free[i].len == n && k >= i then k + 1 else k
  }

  lemma TakeAt(free: seq<Block>, i: nat, n: nat, k: nat)
    requires i < |free| && 1 <= n <= free[i].len && k < |Take(free, i, n)|
    ensures Kept(free, i, n, k) < |free|
    ensures var b, b0 := Take(free, i, n)[k], free[Kept(free, i, n, k)];
            b.addr == b0.addr && (b == b0 || (k == i && 1 <= b.len < b0.len))
  {
  }

  lemma TakeTotal(free: seq<Block>, i: nat, n: nat)
    requires i < |free| && n <= free[i].len
    ensures Total(Take(free, i, n)) == Total(free) - n
  {
    var r := Take(free, i, n);
    SumShift(r, free, 0, i, 0);
    if free[i].len == n {
      SumShift(r, free, i, |r|, 1);
    } else {
      SumShift(r, free, i + 1, |r|, 0);
    }
  }

  // --------------------------------------------------------- the linked list

  function Succ(i: nat, n: nat): (j: nat)
    requires i < n
    ensures j < n
  {
    if i + 1 < n then i + 1 else 0
  }

  /** The header of the i-th free block: its size, and a pointer to the next. */
  ghost predicate LinkAt(ptr: map<int, int>, size: map<int, int>, free: seq<Block>, i: nat)
    requires i < |free|
  {
    var a := free[i].addr;
    a in ptr && a in size && size[a] == free[i].len && ptr[a] == free[Succ(i, |free|)].addr
  }

  /** The headers in memory spell out `free` as one cycle. */
  ghost predicate Linked(ptr: map<int, int>, size: map<int, int>, free: seq<Block>) {
    forall i :: 0 <= i < |free| ==> LinkAt(ptr, size, free, i)
  }

  /** The exit test of free's search loop singles out one link of the cycle. */
  lemma StopsAt(free: seq<Block>, bp: int, t: nat, f: nat)
    requires Ordered(free) && Below(free, bp, t) && f < |free|
    requires free[0].addr < bp && forall i :: 0 <= i < |free| ==> free[i].len >= 0
    ensures var p, q := free[f].addr, free[Succ(f, |free|)].addr;
            (p < bp < q || (p >= q && (bp > p || bp < q))) <==> f == t
  {
    if f < t {
      assert f + 1 < t ==> free[f + 1].End() < free[t].addr;
    } else if f > t {
      assert t + 1 < f ==> free[t + 1].End() < free[f].addr;
    }
    assert f + 1 < |free| ==> free[f].End() < free[f + 1].addr;
    assert f + 1 == |free| && f > 0 ==> free[0].End() < free[f].addr;
  }

  /** Blocks in use: sized as their headers say, apart from each other and from
      every free block. */
  ghost predicate LiveList(live: seq<Block>, free: seq<Block>, size: map<int, int>, base: int, brk: int) {
    && (forall k :: 0 <= k < |live| ==>
          && live[k].len >= 1 && base < live[k].addr && live[k].End() <= brk
          && live[k].addr in size && size[live[k].addr] == live[k].len)
    && (forall k, i {:trigger live[k].Clear(free[i])} :: 0 <= k < |live| && 0 <= i < |free| ==> live[k].Clear(free[i]))
    && (forall j, k {:trigger live[j].Clear(live[k])} :: 0 <= j < k < |live| ==> live[j].Clear(live[k]))
  }

  class Allocator {
    const base: int
    var ptr: map<int, int>
    var size: map<int, int>
    var freep: int             // 0 before the first call
    var brk: int               // end of the memory sbrk has handed out, in units
    ghost var free: seq<Block> // the cycle from `base` on, in address order
    ghost var pos: nat         // index in `free` of the block at freep
    ghost var live: seq<Block> // blocks malloc has handed out
    ghost var obtained: nat    // units received from sbrk

    /** One ascending cycle without touching blocks, entered at freep. */
    ghost predicate Ring()
      reads this
    {
      && 0 < base < brk
      && FreeList(free, base, brk)
      && Linked(ptr, size, free)
      && pos < |free| && freep == free[pos].addr
    }

    ghost predicate Valid()
      reads this
    {
      if freep == 0 then 0 < base < brk && free == [] && live == [] && obtained == 0
      else Ring() && LiveList(live, free, size, base, brk) && Total(free) + Total(live) == obtained
    }

    constructor (staticHeader: int, heapStart: int)
      requires 0 < staticHeader < heapStart
      ensures Valid() && freep == 0 && base == staticHeader && brk == heapStart
    {
      base, brk, freep := staticHeader, heapStart, 0;
      ptr, size, free, pos, live, obtained := map[], map[], [], 0, [], 0;
    }

    /** The search loop of free: it ends at the last free block below bp. */
    method FindSlot(bp: int) returns (p: int, ghost t: nat)
      requires Ring() && base < bp && forall i :: 0 <= i < |free| ==> free[i].addr != bp
      ensures Below(free, bp, t) && p == free[t].addr
    {
      t := LastBelow(free, bp);
      ghost var f: nat := pos;
      p := freep;
      while !(bp > p && bp < ptr[p])
        invariant f < |free| && p == free[f].addr && LinkAt(ptr, size, free, f)
        decreases if f <= t then t - f else |free| - f + t
      {
        if p >= ptr[p] && (bp > p || bp < ptr[p]) {
          break;
        }
        StopsAt(free, bp, t, f);
        p, f := ptr[p], Succ(f, |free|);
      }
      StopsAt(free, bp, t, f);
    }

    /** The pointer writes of free, given the free block before bp. */
    method Relink(bp: int, p: int, ghost t: nat)
      requires t < |free| && p == free[t].addr != bp && bp in size
      requires LinkAt(ptr, size, free, t) && LinkAt(ptr, size, free, Succ(t, |free|))
      requires bp + size[bp] == ptr[p] ==> free[Succ(t, |free|)].addr != bp
      modifies this`ptr, this`size
      ensures Rewired(old(ptr), old(size), ptr, size, free, t, Block(bp, old(size[bp])))
      ensures forall a :: a in old(size) && a != bp && a != p ==> a in size && size[a] == old(size[a])
    {
      if bp + size[bp] == ptr[p] {
        size, ptr := size[bp := size[bp] + size[ptr[p]]], ptr[bp := ptr[ptr[p]]];
      } else {
        ptr := ptr[bp := ptr[p]];
        assert size == size[bp := size[bp]];
      }
      if p + size[p] == bp {
        size, ptr := size[p := size[p] + size[bp]], ptr[p := ptr[bp]];
      } else {
        ptr := ptr[p := bp];
      }
    }

    /** free(), on the block whose header is at bp. */
    method Release(bp: int) returns (ghost t: nat)
      requires Ring() && base < bp && bp in size && size[bp] >= 1 && bp + size[bp] <= brk
      requires forall i :: 0 <= i < |free| ==> Block(bp, size[bp]).Clear(free[i])
      modifies this`ptr, this`size, this`freep, this`free, this`pos
      ensures Below(old(free), bp, t) && Spliced(old(free), t, Block(bp, old(size[bp])), free)
      ensures Ring() && pos == t && freep == old(free)[t].addr >= base
      ensures forall a :: a in old(size) && a != bp && a != freep ==> a in size && size[a] == old(size[a])
    {
      ghost var b := Block(bp, size[bp]);
      ApartFrom(free, 0, b, base, brk);
      var p;
      p, t := FindSlot(bp);
      assert LinkAt(ptr, size, free, t) && LinkAt(ptr, size, free, Succ(t, |free|));
      ApartFrom(free, t, b, base, brk);
      assert t > 0 ==> free[0].End() < free[t].addr;
      Relink(bp, p, t);
      freep := p;
      ghost var r := Insert(free, t, b);
      InsertSplices(free, t, b);
      Relinked(old(ptr), old(size), ptr, size, free, t, b, r);
      SplicedOrdered(free, t, b, r, base, brk);
      free, pos := r, t;
    }

    /** free(ap), for a pointer malloc returned. */
    method Free(ap: int, ghost k: nat)
      requires Valid() && freep != 0 && k < |live| && live[k].addr == ap - 1
      modifies this
      ensures Valid() && freep != 0 && brk == old(brk) && obtained == old(obtained)
      ensures live == old(live[..k] + live[k + 1..])
      ensures forall u :: Owns(free, u) <==> old(Owns(free, u)) || old(live[k]).Has(u)
    {
      var bp := ap - 1;
      ghost var b := live[k];
      ghost var t := Release(bp);
      live := live[..k] + live[k + 1..];
      LiveRemove(old(live), k, old(free), old(size), base, brk);
      LiveSpliced(live, old(free), t, b, free, old(size), size, base, brk);
      SplicedTotal(old(free), t, b, free);
      RemoveTotal(old(live), k);
      forall u ensures Owns(free, u) <==> old(Owns(free, u)) || b.Has(u) {
        SplicedOwns(old(free), t, b, free, u);
      }
    }

    /** New memory of n units at hp joins the free list. */
    method AddCore(hp: int, n: nat)
      requires Valid() && freep != 0 && hp >= brk && n >= 1
      modifies this
      ensures Valid() && freep != 0 && live == old(live)
      ensures obtained == old(obtained) + n && brk == hp + n
      ensures exists i :: 0 <= i < |free| && free[i].len >= n
    {
      Extended(ptr, size, free, Block(hp, n), base, brk);
      size, brk := size[hp := n], hp + n;
      ghost var t := Release(hp);
      obtained := obtained + n;
      CoreAdded(live, old(free), t, Block(hp, n), free, old(size), size, base, old(brk));
    }

    /** morecore(nu): `mem` is sbrk's answer. `wild` means that sbrk was asked for some
        other number of bytes than nu units and did not refuse, so that the header goes
        to memory the process does not have; nothing is said of what follows. */
    method Morecore(nu: nat, mem: Option<int>) returns (p: int, wild: bool)
      requires Valid() && freep != 0 && nu >= 1 && (mem.Some? ==> mem.value >= brk)
      modifies this
      ensures wild <==> mem.Some? && !AsksRight(nu)
      ensures !wild ==> Valid() && freep != 0 && live == old(live)
      ensures mem.None? ==>
                && p == 0 && free == old(free) && freep == old(freep)
                && obtained == old(obtained) && brk == old(brk)
      ensures mem.Some? && !wild ==>
                && p == freep && obtained == old(obtained) + Asked(nu) && brk == mem.value + Asked(nu)
                && !NoneFits(free, nu)
    {
      if mem.None? {
        return 0, false;
      }
      if SbrkArgument(Asked(nu)) != Asked(nu) * HEADER {
        return freep, true;
      }
      AddCore(mem.value, Asked(nu));
      return freep, false;
    }

    /** The header writes that carve nunits from the tail of block p. */
    method CarveCells(prevp: int, p: int, nunits: nat) returns (q: int)
      requires p in size && p in ptr && 1 <= nunits <= size[p]
      modifies this`ptr, this`size
      ensures q == p + old(size[p]) - nunits
      ensures if old(size[p]) == nunits then ptr == old(ptr)[prevp := old(ptr[p])] && size == old(size)
              else ptr == old(ptr) && size == old(size)[p := old(size[p]) - nunits][q := nunits]
    {
      if size[p] == nunits {
        ptr := ptr[prevp := ptr[p]];
        return p;
      } else {
        size := size[p := size[p] - nunits];
        q := p + size[p];
        size := size[q := nunits];
      }
    }

    /** The branch of malloc that has found a large enough block at position i. */
    method Carve(prevp: int, p: int, nunits: nat, ghost i: nat) returns (r: int)
      requires Valid() && freep != 0 && 1 <= i < |free| && p == free[i].addr && prevp == free[i - 1].addr
      requires 1 <= nunits <= free[i].len
      modifies this`ptr, this`size, this`freep, this`free, this`pos, this`live
      ensures Valid() && freep == prevp != 0
      ensures live == old(live) + [Block(r - 1, nunits)]
      ensures free == Take(old(free), i, nunits) && r - 1 == old(free)[i].End() - nunits > base
    {
      assert LinkAt(ptr, size, free, i);
      assert i > 1 ==> free[0].End() < free[i - 1].addr;
      var q := CarveCells(prevp, p, nunits);
      freep := prevp;
      Carved(old(ptr), old(size), ptr, size, free, live, i, nunits, base, brk);
      free, pos, live := Take(free, i, nunits), i - 1, live + [Block(q, nunits)];
      return q + 1;
    }

    /** First call: the ring is the static header alone. */
    method Init()
      requires Valid()
      modifies this`ptr, this`size, this`freep, this`free, this`pos
      ensures Valid() && freep != 0
      ensures forall n :: n >= 1 ==> NoneFits(free, n) == NoneFits(old(free), n)
    {
      if freep == 0 {
        ptr, size, freep := ptr[base := base], size[base := 0], base;
        free, pos := [Block(base, 0)], 0;
        assert LinkAt(ptr, size, free, 0);
        assert Sum(free, 0) == 0;
      }
    }

    /** p->s.ptr, for the block at position j of the ring. */
    method Follow(prevp: int, ghost j: nat) returns (p: int)
      requires Ring() && j < |free| && prevp == free[j].addr
      ensures p == free[Succ(j, |free|)].addr && p in size && size[p] == free[Succ(j, |free|)].len
      ensures p == freep <==> Succ(j, |free|) == pos
      ensures size[p] >= 1 ==> Succ(j, |free|) == j + 1
    {
      assert LinkAt(ptr, size, free, j) && LinkAt(ptr, size, free, Succ(j, |free|));
      p := ptr[prevp];
      SameAddr(free, Succ(j, |free|), pos, base, brk);
    }

    /** malloc's loop has come to position j without finding nunits. The quantifier
        keeps the ring folded in the proof of the loop. */
    ghost predicate Searching(prevp: int, j: nat, nunits: nat)
      reads this
    {
      && freep != 0 && pos < |free| && j < |free| && prevp == free[j].addr
      && forall t :: t == j ==> Valid() && TooSmall(free, pos, t, nunits)
    }

    /** One turn of the loop, up to morecore: r is the payload if the next block p is
        large enough; `around` says that the whole ring has been seen. */
    method Look(prevp: int, nunits: nat, ghost j: nat) returns (p: int, r: int, around: bool)
      requires nunits >= 1 && Searching(prevp, j, nunits)
      modifies this
      ensures obtained == old(obtained) && brk == old(brk) && freep != 0
      ensures r != 0 ==> Valid() && live == old(live) + [Block(r - 1, nunits)] && !NoneFits(old(free), nunits)
      ensures r == 0 ==> free == old(free) && pos == old(pos) && live == old(live)
      ensures r == 0 && around ==> Valid() && NoneFits(free, nunits)
      ensures r == 0 && !around ==>
                && Searching(p, Succ(j, |free|), nunits)
                && Dist(pos, Succ(j, |free|), |free|) == Dist(pos, j, |free|) + 1
    {
      assert TooSmall(free, pos, j, nunits);
      p := Follow(prevp, j);
      if size[p] >= nunits {
        r := Carve(prevp, p, nunits, j + 1);
        return p, r, false;
      }
      if p == freep {
        AllTooSmall(free, pos, j, nunits);
        return p, 0, true;
      }
      StepOn(free, pos, j, nunits);
      return p, 0, false;
    }

    /** malloc's loop, for a block of nunits. */
    method Search(nunits: nat, mem: Option<int>) returns (r: int, calls: nat, wild: bool)
      requires Valid() && freep != 0 && nunits >= 1 && (mem.Some? ==> mem.value >= brk)
      modifies this
      ensures calls == if NoneFits(old(free), nunits) then 1 else 0
      ensures wild <==> calls == 1 && mem.Some? && !AsksRight(nunits)
      ensures !wild ==> Valid() && freep != 0
      ensures !wild ==> (r == 0 <==> calls == 1 && mem.None?)
      ensures !wild ==> live == if r == 0 then old(live) else old(live) + [Block(r - 1, nunits)]
      ensures !wild ==> obtained == old(obtained) + if calls == 1 && mem.Some? then Asked(nunits) else 0
    {
      calls := 0;
      var prevp := freep;
      ghost var j: nat := pos;
      while true
        invariant Searching(prevp, j, nunits) && live == old(live)
        invariant calls == 0 ==> free == old(free) && obtained == old(obtained) && brk == old(brk)
        invariant calls == 0 || (calls == 1 && mem.Some? && AsksRight(nunits))
        invariant calls == 1 ==> NoneFits(old(free), nunits) && !NoneFits(free, nunits)
        invariant calls == 1 ==> obtained == old(obtained) + Asked(nunits)
        decreases 1 - calls, |free| - Dist(pos, j, |free|)
      {
        var p, around;
        p, r, around := Look(prevp, nunits, j);
        if r != 0 {
          return r, calls, false;
        }
        if around {
          calls := calls + 1;
          p, wild := Morecore(nunits, mem);
          if wild {
            return 0, calls, true;
          }
          if p == 0 {
            return 0, calls, false;
          }
          j := pos;
        } else {
          j := Succ(j, |free|);
        }
        prevp := p;
      }
    }

    /** malloc(nbytes). `mem` is what sbrk answers if asked; `calls` counts how often
        it is asked; `wild` as in morecore, and then nothing else is said. A request up
        to LARGEST never gets there, and its block has room for it. */
    method Malloc(nbytes: nat, mem: Option<int>) returns (r: int, calls: nat, wild: bool)
      requires Valid() && nbytes < UINT && (mem.Some? ==> mem.value >= brk)
      modifies this
      ensures wild <==> NoneFits(old(free), Units(nbytes)) && mem.Some? && LARGEST < nbytes <= UINT - HEADER
      ensures calls == if NoneFits(old(free), Units(nbytes)) then 1 else 0
      ensures !wild ==> Valid() && freep != 0
      ensures !wild ==> (r == 0 <==> calls == 1 && mem.None?)
      ensures !wild ==> live == if r == 0 then old(live) else old(live) + [Block(r - 1, Units(nbytes))]
      ensures !wild ==> obtained == old(obtained) + if calls == 1 && mem.Some? then Asked(Units(nbytes)) else 0
      ensures nbytes <= LARGEST ==> (Units(nbytes) - 1) * HEADER >= nbytes
    {
      PayloadFits(nbytes);
      AsksRightExactly(nbytes);
      Init();
      r, calls, wild := Search(Units(nbytes), mem);
    }
  }

  ghost predicate NoneFits(free: seq<Block>, n: nat) {
    forall i :: 0 <= i < |free| ==> free[i].len < n
  }

  /** Steps along the cycle from position f to position j. */
  function Dist(f: nat, j: nat, n: nat): (d: nat)
    requires f < n && j < n
    ensures d < n
  {
    if f <= j then j - f else j - f + n
  }

  /** Every block after position f, up to and including j, is too small. */
  ghost predicate TooSmall(free: seq<Block>, f: nat, j: nat, nunits: nat)
    requires f < |free| && j < |free|
  {
    forall i :: 0 <= i < |free| && 1 <= Dist(f, i, |free|) <= Dist(f, j, |free|) ==> free[i].len < nunits
  }

  lemma AllTooSmall(free: seq<Block>, f: nat, j: nat, nunits: nat)
    requires f < |free| && j < |free| && TooSmall(free, f, j, nunits)
    requires Succ(j, |free|) == f && free[f].len < nunits
    ensures NoneFits(free, nunits)
  {
  }

  lemma StepOn(free: seq<Block>, f: nat, j: nat, nunits: nat)
    requires f < |free| && j < |free| && TooSmall(free, f, j, nunits)
    requires Succ(j, |free|) != f && free[Succ(j, |free|)].len < nunits
    ensures TooSmall(free, f, Succ(j, |free|), nunits)
    ensures Dist(f, Succ(j, |free|), |free|) == Dist(f, j, |free|) + 1
  {
  }

  lemma SameAddr(free: seq<Block>, i: nat, j: nat, base: int, brk: int)
    requires FreeList(free, base, brk) && i < |free| && j < |free|
    ensures free[i].addr == free[j].addr ==> i == j
  {
    assert i < j ==> free[i].End() < free[j].addr;
    assert j < i ==> free[j].End() < free[i].addr;
  }

  /** What holds once nunits have been carved from block i. */
  lemma Carved(ptr: map<int, int>, size: map<int, int>, ptr': map<int, int>, size': map<int, int>,
               free: seq<Block>, live: seq<Block>, i: nat, n: nat, base: int, brk: int)
    requires FreeList(free, base, brk) && Linked(ptr, size, free) && LiveList(live, free, size, base, brk)
    requires 1 <= i < |free| && 1 <= n <= free[i].len
    requires if free[i].len == n then ptr' == ptr[free[i - 1].addr := free[Succ(i, |free|)].addr] && size' == size
             else ptr' == ptr && size' == size[free[i].addr := free[i].len - n][free[i].End() - n := n]
    ensures var r, live' := Take(free, i, n), live + [Block(free[i].End() - n, n)];
            && FreeList(r, base, brk) && Linked(ptr', size', r) && LiveList(live', r, size', base, brk)
            && Total(r) + Total(live') == Total(free) + Total(live)
            && i - 1 < |r| && r[i - 1] == free[i - 1] && base < free[i].End() - n
  {
    assert LinkAt(ptr, size, free, i);
    TakeLinked(ptr, size, ptr', size', free, i, n, base, brk);
    TakeOrdered(free, i, n, base, brk);
    TakeTotal(free, i, n);
    TakeLive(live, free, i, n, size, size', base, brk);
  }

  lemma TakeLinkWhole(ptr: map<int, int>, size: map<int, int>, ptr': map<int, int>,
                      free: seq<Block>, i: nat, base: int, brk: int, k: nat)
    requires FreeList(free, base, brk) && Linked(ptr, size, free) && 1 <= i < |free| && 1 <= free[i].len
    requires ptr' == ptr[free[i - 1].addr := free[Succ(i, |free|)].addr] && k < |Take(free, i, free[i].len)|
    ensures LinkAt(ptr', size, Take(free, i, free[i].len), k)
  {
    var k0 := if k >= i then k + 1 else k;
    assert LinkAt(ptr, size, free, k0);
    assert k0 < i - 1 ==> free[k0].End() < free[i - 1].addr;
    assert i - 1 < k0 ==> free[i - 1].End() < free[k0].addr;
  }

  lemma TakeLinkPart(ptr: map<int, int>, size: map<int, int>, size': map<int, int>,
                     free: seq<Block>, i: nat, n: nat, base: int, brk: int, k: nat)
    requires FreeList(free, base, brk) && Linked(ptr, size, free) && 1 <= i < |free| && 1 <= n < free[i].len
    requires size' == size[free[i].addr := free[i].len - n][free[i].End() - n := n] && k < |Take(free, i, n)|
    ensures LinkAt(ptr, size', Take(free, i, n), k)
  {
    assert LinkAt(ptr, size, free, k);
    assert k < i ==> free[k].End() < free[i].addr;
    assert i < k ==> free[i].End() < free[k].addr;
  }

  lemma TakeLinked(ptr: map<int, int>, size: map<int, int>, ptr': map<int, int>, size': map<int, int>,
                   free: seq<Block>, i: nat, n: nat, base: int, brk: int)
    requires FreeList(free, base, brk) && Linked(ptr, size, free) && 1 <= i < |free| && 1 <= n <= free[i].len
    requires if free[i].len == n then ptr' == ptr[free[i - 1].addr := free[Succ(i, |free|)].addr] && size' == size
             else ptr' == ptr && size' == size[free[i].addr := free[i].len - n][free[i].End() - n := n]
    ensures Linked(ptr', size', Take(free, i, n))
  {
    var r := Take(free, i, n);
    forall k | 0 <= k < |r| ensures LinkAt(ptr', size', r, k) {
      if free[i].len == n {
        TakeLinkWhole(ptr, size, ptr', free, i, base, brk, k);
      } else {
        TakeLinkPart(ptr, size, size', free, i, n, base, brk, k);
      }
    }
  }

  lemma TakeClear(live: seq<Block>, free: seq<Block>, i: nat, n: nat, size: map<int, int>, base: int, brk: int)
    requires FreeList(free, base, brk) && LiveList(live, free, size, base, brk) && 1 <= i < |free|
             && 1 <= n <= free[i].len
    ensures var b, r := Block(free[i].End() - n, n), Take(free, i, n);
            && (forall k :: 0 <= k < |live| ==> live[k].Clear(b) && live[k].addr != free[i].addr)
            && (forall j :: 0 <= j < |r| ==> b.Clear(r[j]))
            && (forall k, j :: 0 <= k < |live| && 0 <= j < |r| ==> live[k].Clear(r[j]))
  {
    var b, r := Block(free[i].End() - n, n), Take(free, i, n);
    forall k | 0 <= k < |live| ensures live[k].Clear(b) && live[k].addr != free[i].addr {
      assert live[k].Clear(free[i]);
    }
    forall j | 0 <= j < |r| ensures b.Clear(r[j]) && forall k :: 0 <= k < |live| ==> live[k].Clear(r[j]) {
      var j0 := if free[i].len == n && j >= i then j + 1 else j;
      assert j0 < i ==> free[j0].End() < free[i].addr;
      assert i < j0 ==> free[i].End() < free[j0].addr;
      forall k | 0 <= k < |live| ensures live[k].Clear(r[j]) {
        assert live[k].Clear(free[j0]);
      }
    }
  }

  lemma TakeLive(live: seq<Block>, free: seq<Block>, i: nat, n: nat, size: map<int, int>, size': map<int, int>,
                 base: int, brk: int)
    requires FreeList(free, base, brk) && LiveList(live, free, size, base, brk) && 1 <= i < |free|
             && 1 <= n <= free[i].len
    requires free[i].addr in size && size[free[i].addr] == free[i].len
    requires if free[i].len == n then size' == size
             else size' == size[free[i].addr := free[i].len - n][free[i].End() - n := n]
    ensures LiveList(live + [Block(free[i].End() - n, n)], Take(free, i, n), size', base, brk)
    ensures Total(live + [Block(free[i].End() - n, n)]) == Total(live) + n
  {
    var b, r := Block(free[i].End() - n, n), Take(free, i, n);
    var live' := live + [b];
    SumShift(live', live, 0, |live|, 0);
    TakeClear(live, free, i, n, size, base, brk);
    assert free[0].End() < free[i].addr;
    forall k | 0 <= k < |live|
      ensures live[k].addr in size' && size'[live[k].addr] == live[k].len
    {
      assert live[k].Clear(b) && live[k].addr != free[i].addr;
    }
    forall k, j | 0 <= k < |live'| && 0 <= j < |r| ensures live'[k].Clear(r[j]) {
      if k < |live| {
        assert live[k].Clear(r[j]);
      }
    }
  }

  /** A live block keeps clear of the merged free blocks. */
  lemma ClearOfSpliced(free: seq<Block>, t: nat, b: Block, r: seq<Block>, l: Block)
    requires t < |free| && Spliced(free, t, b, r) && b.len >= 1 && l.len >= 1 && forall i :: 0 <= i < |free| ==>
             free[i].len >= 0
    requires free[t].End() == b.addr ==> free[t].len >= 1
    requires t + 1 < |free| ==> free[t + 1].len >= 1
    requires l.Clear(b) && forall i :: 0 <= i < |free| ==> l.Clear(free[i])
    ensures forall i :: 0 <= i < |r| ==> l.Clear(r[i])
  {
  }

  lemma LiveSpliced(live: seq<Block>, free: seq<Block>, t: nat, b: Block, r: seq<Block>,
                    size: map<int, int>, size': map<int, int>, base: int, brk: int)
    requires FreeList(free, base, brk) && LiveList(live, free, size, base, brk) && t < |free| && Spliced(free, t, b, r)
    requires base < b.addr && b.len >= 1 && forall k :: 0 <= k < |live| ==> live[k].Clear(b)
    requires forall a :: a in size && a != b.addr && a != free[t].addr ==> a in size' && size'[a] == size[a]
    ensures LiveList(live, r, size', base, brk)
  {
    forall k | 0 <= k < |live| ensures forall i :: 0 <= i < |r| ==> live[k].Clear(r[i]) {
      ClearOfSpliced(free, t, b, r, live[k]);
    }
    forall k | 0 <= k < |live| ensures live[k].addr != b.addr && live[k].addr != free[t].addr {
      assert live[k].Clear(b) && live[k].Clear(free[t]);
    }
  }

  lemma LiveRemove(live: seq<Block>, k: nat, free: seq<Block>, size: map<int, int>, base: int, brk: int)
    requires k < |live| && LiveList(live, free, size, base, brk)
    ensures var r := live[..k] + live[k + 1..];
            && LiveList(r, free, size, base, brk)
            && (forall j :: 0 <= j < |r| ==> r[j].Clear(live[k]))
  {
    var r := live[..k] + live[k + 1..];
    assert forall j :: 0 <= j < |r| ==> r[j] == live[if j < k then j else j + 1];
    forall j | 0 <= j < |r| ensures r[j].Clear(live[k]) {
      assert j < k ==> live[j].Clear(live[k]);
      assert j >= k ==> live[k].Clear(live[j + 1]);
    }
  }

  lemma RemoveTotal(live: seq<Block>, k: nat)
    requires k < |live|
    ensures Total(live[..k] + live[k + 1..]) == Total(live) - live[k].len
  {
    var r := live[..k] + live[k + 1..];
    SumShift(r, live, 0, k, 0);
    SumShift(r, live, k, |r|, 1);
  }

  /** What holds once fresh memory has been spliced into the list. */
  lemma CoreAdded(live: seq<Block>, free: seq<Block>, t: nat, b: Block, r: seq<Block>,
                  size: map<int, int>, size': map<int, int>, base: int, brk: int)
    requires FreeList(free, base, brk) && LiveList(live, free, size, base, brk) && base < brk <= b.addr && b.len >= 1
    requires t < |free| && Spliced(free, t, b, r)
    requires forall a :: a in size && a != b.addr && a != free[t].addr ==> a in size' && size'[a] == size[a]
    ensures LiveList(live, r, size', base, b.End())
    ensures Total(r) == Total(free) + b.len
    ensures exists i :: 0 <= i < |r| && r[i].len >= b.len
  {
    assert forall k :: 0 <= k < |live| ==> live[k].Clear(b);
    LiveSpliced(live, free, t, b, r, size, size', base, brk);
    SplicedTotal(free, t, b, r);
    SplicedHolds(free, t, b, r);
  }

  /** Fresh memory lies above everything there is. */
  lemma Extended(ptr: map<int, int>, size: map<int, int>, free: seq<Block>, b: Block, base: int, brk: int)
    requires FreeList(free, base, brk) && Linked(ptr, size, free)
    requires base < brk <= b.addr && b.len >= 1
    ensures FreeList(free, base, b.End()) && Linked(ptr, size[b.addr := b.len], free)
    ensures forall i :: 0 <= i < |free| ==> b.Clear(free[i])
  {
    assert forall i :: 0 <= i < |free| ==> free[i].End() <= b.addr;
    var size' := size[b.addr := b.len];
    forall i | 0 <= i < |free| ensures LinkAt(ptr, size', free, i) {
      assert LinkAt(ptr, size, free, i);
    }
  }

  /** What the pointer writes of free do to the headers of bp and its predecessor. */
  ghost predicate Rewired(ptr: map<int, int>, size: map<int, int>, ptr': map<int, int>, size': map<int, int>,
                          free: seq<Block>, t: nat, b: Block)
    requires t < |free|
  {
    var p, n := free[t].addr, Succ(t, |free|);
    var up, low := b.End() == free[n].addr, free[t].End() == b.addr;
    var len := b.len + if up then free[n].len else 0;
    var next := if up then free[Succ(n, |free|)].addr else free[n].addr;
    && ptr' == ptr[b.addr := next][p := if low then next else b.addr]
    && size' == if low then size[b.addr := len][p := free[t].len + len] else size[b.addr := len]
  }

  /** No free block starts where `b` or block t does. */
  ghost predicate Apart(free: seq<Block>, t: nat, b: Block)
    requires t < |free|
  {
    && (forall i :: 0 <= i < |free| ==> free[i].addr != b.addr)
    && (forall i :: 0 <= i < |free| && i != t ==> free[i].addr != free[t].addr)
  }

  lemma ApartFrom(free: seq<Block>, t: nat, b: Block, base: int, brk: int)
    requires FreeList(free, base, brk) && t < |free| && base < b.addr
    requires b.len >= 1 && forall i :: 0 <= i < |free| ==> b.Clear(free[i])
    ensures Apart(free, t, b)
  {
    forall i | 0 <= i < |free| ensures free[i].addr != b.addr && (i != t ==> free[i].addr != free[t].addr) {
      assert b.Clear(free[i]);
      assert i < t ==> free[i].End() < free[t].addr;
      assert t < i ==> free[t].End() < free[i].addr;
    }
  }

  /** The pointer writes of free produce the cycle for the spliced list. */
  lemma Relinked(ptr: map<int, int>, size: map<int, int>, ptr': map<int, int>, size': map<int, int>,
                 free: seq<Block>, t: nat, b: Block, r: seq<Block>)
    requires Linked(ptr, size, free) && t < |free| && Apart(free, t, b) && Spliced(free, t, b, r)
    requires free[0].addr < b.addr && free[0].End() != b.addr && b.len >= 1
    requires Rewired(ptr, size, ptr', size', free, t, b)
    ensures Linked(ptr', size', r)
  {
    var at := if free[t].End() == b.addr then t else t + 1;
    forall i | 0 <= i < |r| ensures LinkAt(ptr', size', r, i) {
      if i < at {
        assert LinkAt(ptr, size, free, i);
      } else if i > at {
        assert LinkAt(ptr, size, free, i + |free| - |r|);
      }
    }
  }

  /** The position after which an address belongs. */
  ghost function LastBelow(free: seq<Block>, a: int): (t: nat)
    requires |free| >= 1 && free[0].addr < a
    requires forall i :: 0 <= i < |free| ==> free[i].addr != a
    ensures Below(free, a, t)
  {
    if free[|free| - 1].addr < a then |free| - 1 else LastBelow(free[..|free| - 1], a)
  }
}
