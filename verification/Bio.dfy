/** The buffer cache of kernel/bio.c: a fixed table of buffers on one doubly linked
  list, most recently released first.

  Each method below is one critical section, so any interleaving of processes is
  some sequence of these calls. `newest` records, per disk block, the contents last
  logged or written; it is what a reader must see.
 */
module Bio {
  import opened Common
  import opened LogMachine

  const ROOTDEV: nat := 1

  /** `holder` is the process holding the buffer's sleep lock, 0 if none does. */
  datatype Buf = Buf(dev: nat, blockno: nat, valid: bool, dirty: bool, refcnt: nat, holder: nat, data: Block)

  // ------------------------------------------------------- the linked list

  function Succ(i: nat, n: nat): (j: nat)
    requires i < n
    ensures j < n
  {
    if i + 1 < n then i + 1 else 0
  }

  ghost predicate Indices(ring: seq<nat>, n: nat) {
    forall i {:trigger ring[i]} :: 0 <= i < |ring| ==> ring[i] < n
  }

  /** Positions i and i+1 of the ring point at each other. */
  ghost predicate JoinedAt(next: seq<nat>, prev: seq<nat>, ring: seq<nat>, i: nat)
    requires i < |ring| && Indices(ring, |next|) && |next| == |prev|
  {
    next[ring[i]] == ring[Succ(i, |ring|)] && prev[ring[Succ(i, |ring|)]] == ring[i]
  }

  /** next and prev spell out `ring` as one doubly linked cycle. */
  ghost predicate Joined(next: seq<nat>, prev: seq<nat>, ring: seq<nat>) {
    && |next| == |prev| && |ring| >= 1 && Indices(ring, |next|) && NoRepeats(ring)
    && forall i :: 0 <= i < |ring| ==> JoinedAt(next, prev, ring, i)
  }

  function Without<T>(s: seq<T>, k: nat): seq<T>
    requires k < |s|
  {
    s[..k] + s[k + 1..]
  }

  /** Taking one element other than the head out of the cycle. */
  lemma Unlinked(next: seq<nat>, prev: seq<nat>, ring: seq<nat>, k: nat)
    requires Joined(next, prev, ring) && 1 <= k < |ring|
    ensures prev[ring[k]] == ring[k - 1] && next[ring[k]] == ring[Succ(k, |ring|)]
    ensures Joined(next[prev[ring[k]] := next[ring[k]]], prev[next[ring[k]] := prev[ring[k]]], Without(ring, k))
  {
    assert JoinedAt(next, prev, ring, k - 1) && JoinedAt(next, prev, ring, k);
    var r := Without(ring, k);
    assert forall i {:trigger r[i]} :: 0 <= i < |r| ==> r[i] == ring[if i < k then i else i + 1];
    var next1, prev1 := next[prev[ring[k]] := next[ring[k]]], prev[next[ring[k]] := prev[ring[k]]];
    forall i | 0 <= i < |r| ensures JoinedAt(next1, prev1, r, i) {
      assert JoinedAt(next, prev, ring, if i < k then i else i + 1);
    }
  }

  /** Putting an element that is not in the cycle right after the head. */
  lemma Pushed(next: seq<nat>, prev: seq<nat>, ring: seq<nat>, b: nat)
    requires Joined(next, prev, ring) && b < |next| && b !in ring
    ensures next[ring[0]] == ring[Succ(0, |ring|)]
    ensures var f := next[ring[0]];
            Joined(next[b := f][ring[0] := b], prev[b := ring[0]][f := b], [ring[0], b] + ring[1..])
  {
    assert JoinedAt(next, prev, ring, 0);
    var f := next[ring[0]];
    var r := [ring[0], b] + ring[1..];
    assert forall i {:trigger r[i]} :: 2 <= i < |r| ==> r[i] == ring[i - 1];
    var next1, prev1 := next[b := f][ring[0] := b], prev[b := ring[0]][f := b];
    forall i | 0 <= i < |r| ensures JoinedAt(next1, prev1, r, i) {
      if i >= 2 {
        assert JoinedAt(next, prev, ring, i - 1);
      }
    }
  }

  // --------------------------------------------------- orders and recency

  /** `order` is a permutation of 0..n-1 and `pos` its inverse. */
  ghost predicate Permutation(order: seq<nat>, pos: seq<nat>, n: nat) {
    && |order| == |pos| == n
    && (forall i {:trigger order[i]} :: 0 <= i < n ==> order[i] < n && pos[order[i]] == i)
    && (forall b {:trigger pos[b]} :: 0 <= b < n ==> pos[b] < n && order[pos[b]] == b)
  }

  /** Earlier in the list means released later. */
  ghost predicate ByRecency(order: seq<nat>, released: seq<nat>, clock: nat) {
    && Indices(order, |released|)
    && (forall i, j {:trigger released[order[i]], released[order[j]]} ::
          0 <= i < j < |order| ==> released[order[i]] > released[order[j]])
    && (forall b {:trigger released[b]} :: 0 <= b < |released| ==> released[b] < clock)
  }

  function ToFront(order: seq<nat>, k: nat): seq<nat>
    requires k < |order|
  {
    [order[k]] + Without(order, k)
  }

  ghost function FrontPos(pos: seq<nat>, k: nat): seq<nat> {
    seq(|pos|, b requires 0 <= b < |pos| => if pos[b] == k then 0 else if pos[b] < k then pos[b] + 1 else pos[b])
  }

  lemma ToFrontPermutes(order: seq<nat>, pos: seq<nat>, n: nat, k: nat)
    requires Permutation(order, pos, n) && k < n
    ensures Permutation(ToFront(order, k), FrontPos(pos, k), n)
  {
    var r := ToFront(order, k);
    assert forall i {:trigger r[i]} :: 0 <= i < n ==> r[i] == order[if i == 0 then k else if i <= k then i - 1 else i];
  }

  lemma ToFrontByRecency(order: seq<nat>, pos: seq<nat>, released: seq<nat>, clock: nat, k: nat)
    requires Permutation(order, pos, |released|) && ByRecency(order, released, clock) && k < |order|
    ensures ByRecency(ToFront(order, k), released[order[k] := clock], clock + 1)
  {
    var r, rel := ToFront(order, k), released[order[k] := clock];
    assert forall i {:trigger r[i]} :: 0 <= i < |r| ==>
        r[i] == order[if i == 0 then k else if i <= k then i - 1 else i];
    forall i, j | 0 <= i < j < |r| ensures rel[r[i]] > rel[r[j]] {
      var i0 := if i == 0 then k else if i <= k then i - 1 else i;
      var j0 := if j <= k then j - 1 else j;
      assert pos[order[j0]] == j0 && pos[order[k]] == k && pos[order[i0]] == i0;
      if i > 0 {
        assert released[order[i0]] > released[order[j0]];
      }
    }
  }

  // ------------------------------------------------------------- contents

  predicate Holds(b: Buf, dev: nat, blockno: nat) {
    b.dev == dev && b.blockno == blockno
  }

  predicate Eligible(b: Buf) {
    b.refcnt == 0 && !b.dirty
  }

  /** No two buffers hold the same block of a real device. */
  ghost predicate Unique(bufs: seq<Buf>) {
    forall i, j {:trigger bufs[i], bufs[j]} :: 0 <= i < j < |bufs| && bufs[i].dev != 0 ==>
        !Holds(bufs[j], bufs[i].dev, bufs[i].blockno)
  }

  /** A buffer that is valid, and not being modified under its lock, shows the newest
      contents of its block. */
  ghost predicate BufOk(b: Buf, touched: bool, newest: Disk) {
    && (b.dirty ==> b.valid && b.dev == ROOTDEV && b.blockno < |newest|)
    && (b.holder != 0 ==> b.refcnt >= 1)
    && (touched ==> b.holder != 0 && b.valid)
    && (b.valid && !touched && b.dev == ROOTDEV ==> b.blockno < |newest| && b.data == newest[b.blockno])
  }

  /** A buffer pins block `blockno` if it is dirty. */
  ghost predicate Pinned(bufs: seq<Buf>, blockno: nat) {
    exists i :: 0 <= i < |bufs| && bufs[i].dirty && Holds(bufs[i], ROOTDEV, blockno)
  }

  ghost predicate DataOk(bufs: seq<Buf>, disk: Disk, newest: Disk, touched: set<nat>) {
    && |newest| == |disk|
    && Unique(bufs)
    && (forall i {:trigger bufs[i]} :: 0 <= i < |bufs| ==> BufOk(bufs[i], i in touched, newest))
    && (forall i :: i in touched ==> i < |bufs|)
    && (forall b :: 0 <= b < |disk| ==> newest[b] == disk[b] || Pinned(bufs, b))
  }

  /** Changing one buffer without changing what it holds or pins. */
  lemma SetBuf(bufs: seq<Buf>, i: nat, b: Buf, disk: Disk, newest: Disk, touched: set<nat>, touched': set<nat>)
    requires DataOk(bufs, disk, newest, touched) && i < |bufs|
    requires Holds(b, bufs[i].dev, bufs[i].blockno) && (bufs[i].dirty ==> b.dirty)
    requires touched' - {i} == touched - {i} && BufOk(b, i in touched', newest)
    ensures DataOk(bufs[i := b], disk, newest, touched')
  {
    var r := bufs[i := b];
    forall k | 0 <= k < |r| ensures BufOk(r[k], k in touched', newest) {
      if k != i {
        assert BufOk(bufs[k], k in touched, newest);
        assert k in touched' - {i} <==> k in touched - {i};
      }
    }
    forall k | 0 <= k < |disk| ensures newest[k] == disk[k] || Pinned(r, k) {
      if newest[k] != disk[k] {
        var p :| 0 <= p < |bufs| && bufs[p].dirty && Holds(bufs[p], ROOTDEV, k);
        assert r[p].dirty && Holds(r[p], ROOTDEV, k);
      }
    }
    forall k | k in touched' ensures k < |r| {
      assert k != i ==> k in touched - {i};
    }
  }

  /** Giving an unused buffer to a block nobody holds. */
  lemma Recycle(bufs: seq<Buf>, i: nat, dev: nat, blockno: nat, disk: Disk, newest: Disk, touched: set<nat>)
    requires DataOk(bufs, disk, newest, touched) && i < |bufs| && Eligible(bufs[i])
    requires forall k :: 0 <= k < |bufs| ==> !Holds(bufs[k], dev, blockno)
    ensures DataOk(bufs[i := Buf(dev, blockno, false, false, 1, bufs[i].holder, bufs[i].data)], disk, newest, touched)
  {
    var r := bufs[i := Buf(dev, blockno, false, false, 1, bufs[i].holder, bufs[i].data)];
    assert BufOk(bufs[i], i in touched, newest);
    forall k | 0 <= k < |disk| ensures newest[k] == disk[k] || Pinned(r, k) {
      if newest[k] != disk[k] {
        var p :| 0 <= p < |bufs| && bufs[p].dirty && Holds(bufs[p], ROOTDEV, k);
        assert r[p].dirty && Holds(r[p], ROOTDEV, k);
      }
    }
  }

  /** A buffer's block, if the buffer is not dirty, is on disk in its newest form. */
  lemma CleanIsOnDisk(bufs: seq<Buf>, i: nat, disk: Disk, newest: Disk, touched: set<nat>)
    requires DataOk(bufs, disk, newest, touched) && i < |bufs| && bufs[i].dev == ROOTDEV && bufs[i].blockno < |disk|
             && !bufs[i].dirty
    ensures newest[bufs[i].blockno] == disk[bufs[i].blockno]
  {
    forall p | 0 <= p < |bufs| && bufs[p].dirty ensures !Holds(bufs[p], ROOTDEV, bufs[i].blockno) {
      assert BufOk(bufs[p], p in touched, newest);
      assert p < i ==> !Holds(bufs[i], bufs[p].dev, bufs[p].blockno);
      assert i < p ==> !Holds(bufs[p], bufs[i].dev, bufs[i].blockno);
    }
    assert !Pinned(bufs, bufs[i].blockno);
  }

  /** Logging (dirty) or writing (clean, and then on disk) buffer i's contents. */
  lemma Publish(bufs: seq<Buf>, i: nat, b: Buf, disk: Disk, newest: Disk, touched: set<nat>)
    requires DataOk(bufs, disk, newest, touched) && i < |bufs|
    requires bufs[i].dev == ROOTDEV && bufs[i].blockno < |disk| && bufs[i].holder != 0
    requires b == bufs[i].(valid := true, dirty := b.dirty)
    ensures var disk' := if b.dirty then disk else disk[b.blockno := b.data];
            DataOk(bufs[i := b], disk', newest[b.blockno := b.data], touched - {i})
  {
    var r := bufs[i := b];
    var newest' := newest[b.blockno := b.data];
    forall k | 0 <= k < |r| ensures BufOk(r[k], k in touched - {i}, newest') {
      assert BufOk(bufs[k], k in touched, newest);
      assert k < i ==> bufs[k].dev != 0 ==> !Holds(bufs[i], bufs[k].dev, bufs[k].blockno);
      assert i < k ==> !Holds(bufs[k], bufs[i].dev, bufs[i].blockno);
    }
    forall k | 0 <= k < |disk| && k != b.blockno ensures newest[k] == disk[k] || Pinned(r, k) {
      if newest[k] != disk[k] {
        var p :| 0 <= p < |bufs| && bufs[p].dirty && Holds(bufs[p], ROOTDEV, k);
        assert r[p].dirty && Holds(r[p], ROOTDEV, k);
      }
    }
    assert b.dirty ==> r[i].dirty && Holds(r[i], ROOTDEV, b.blockno);
  }

  /** n-1, n-2, ..., 0. */
  ghost function Descending(n: nat): seq<nat> {
    seq(n, i requires 0 <= i < n => n - 1 - i)
  }

  // ------------------------------------------------------------- the cache

  class Cache {
    const n: nat                // NBUF; index n stands for bcache.head
    const bufs: array<Buf>
    const next: array<nat>
    const prev: array<nat>
    var disk: Disk
    ghost var order: seq<nat>   // the list from bcache.head.next on
    ghost var pos: seq<nat>
    ghost var newest: Disk      // per block, what was last logged or written
    ghost var touched: set<nat> // buffers modified but not yet logged or written
    ghost var released: seq<nat> // when each buffer last lost its last reference
    ghost var clock: nat
    ghost var history: seq<Disk> // the disk after each block write

    ghost predicate ListOk()
      reads this, next, prev
    {
      && next.Length == prev.Length == n + 1 && next != prev
      && Permutation(order, pos, n)
      && |released| == n && ByRecency(order, released, clock)
      && Joined(next[..], prev[..], [n] + order)
    }

    ghost predicate Valid()
      reads this, bufs, next, prev
    {
      && bufs.Length == n
      && ListOk()
      && DataOk(bufs[..], disk, newest, touched)
    }

    /** Puts buffer b, not on the list, at its front. */
    method Push(b: nat, ghost ring: seq<nat>)
      requires next.Length == prev.Length == n + 1 && next != prev && b < n
      requires Joined(next[..], prev[..], ring) && ring[0] == n && b !in ring
      modifies next, prev
      ensures Joined(next[..], prev[..], [n, b] + ring[1..])
    {
      Pushed(next[..], prev[..], ring, b);
      ghost var nx: seq<nat>, pv: seq<nat> := next[..], prev[..];
      next[b] := next[n];
      prev[b] := n;
      prev[next[n]] := b;
      next[n] := b;
      assert next[..] == nx[b := nx[n]][n := b];
      assert prev[..] == pv[b := n][nx[n] := b];
    }

    /** binit: every buffer on the list, the last one in front. */
    method Binit()
      requires next.Length == prev.Length == n + 1 && next != prev
      modifies next, prev
      ensures Joined(next[..], prev[..], [n] + Descending(n))
    {
      prev[n] := n;
      next[n] := n;
      ghost var ring: seq<nat> := [n];
      assert JoinedAt(next[..], prev[..], ring, 0);
      var b := 0;
      while b < n
        invariant 0 <= b <= n && ring == [n] + Descending(b)
        invariant Joined(next[..], prev[..], ring)
      {
        assert b !in ring;
        Push(b, ring);
        ring := [n, b] + ring[1..];
        b := b + 1;
      }
    }

    constructor (nbuf: nat, image: Disk, blank: Block)
      ensures Valid() && n == nbuf && disk == newest == image && touched == {} && history == []
      ensures fresh(bufs) && fresh(next) && fresh(prev)
      ensures forall i :: 0 <= i < n ==> bufs[i] == Buf(0, 0, false, false, 0, 0, blank)
    {
      n := nbuf;
      bufs := new Buf[nbuf](_ => Buf(0, 0, false, false, 0, 0, blank));
      next := new nat[nbuf + 1](_ => 0);
      prev := new nat[nbuf + 1](_ => 0);
      disk, newest, touched, clock, history := image, image, {}, nbuf, [];
      released, pos, order := seq(nbuf, i => i), Descending(nbuf), Descending(nbuf);
      new;
      Binit();
    }

    /** Takes buffer b, at position k of the ring, off the list. */
    method Unlink(b: nat, ghost ring: seq<nat>, ghost k: nat)
      requires next.Length == prev.Length == n + 1 && next != prev && b < n
      requires Joined(next[..], prev[..], ring) && 1 <= k < |ring| && ring[k] == b
      modifies next, prev
      ensures Joined(next[..], prev[..], Without(ring, k))
    {
      ghost var nx: seq<nat>, pv: seq<nat> := next[..], prev[..];
      Unlinked(nx, pv, ring, k);
      prev[next[b]] := prev[b];
      next[prev[b]] := next[b];
      assert JoinedAt(nx, pv, ring, k) && JoinedAt(nx, pv, ring, k - 1);
      assert prev[..] == pv[nx[b] := pv[b]];
      assert next[..] == nx[pv[b] := nx[b]];
    }

    /** brelse's relinking: buffer b goes to the front of the list. */
    method MoveToFront(b: nat)
      requires ListOk() && b < n
      modifies next, prev, this`order, this`pos, this`released, this`clock
      ensures ListOk() && order == ToFront(old(order), old(pos[b]))
      ensures released == old(released)[b := old(clock)] && clock == old(clock) + 1
    {
      ghost var k, ring := pos[b], [n] + order;
      Unlink(b, ring, k + 1);
      RingWithout(order, pos, n, k);
      Push(b, [n] + Without(order, k));
      ToFrontPermutes(order, pos, n, k);
      ToFrontByRecency(order, pos, released, clock, k);
      assert ([n] + Without(order, k))[1..] == Without(order, k);
      assert [n, b] + Without(order, k) == [n] + ToFront(order, k);
      order, pos := ToFront(order, k), FrontPos(pos, k);
      released, clock := released[b := clock], clock + 1;
    }

    /** The first loop of bget: forward, for a buffer that holds the block. */
    method Lookup(dev: nat, blockno: nat) returns (r: Option<nat>)
      requires bufs.Length == n && ListOk()
      ensures r.Some? ==> r.value < n && Holds(bufs[r.value], dev, blockno)
      ensures r.None? ==> forall i :: 0 <= i < n ==> !Holds(bufs[i], dev, blockno)
    {
      ghost var ring := [n] + order;
      assert JoinedAt(next[..], prev[..], ring, 0);
      var b := next[n];
      ghost var k: nat := 0;
      while b != n
        invariant k <= n && b == ring[Succ(k, n + 1)]
        invariant forall m {:trigger order[m]} :: 0 <= m < k ==> !Holds(bufs[order[m]], dev, blockno)
        decreases n - k
      {
        assert b == order[k];
        if bufs[b].dev == dev && bufs[b].blockno == blockno {
          return Some(b);
        }
        assert JoinedAt(next[..], prev[..], ring, k + 1);
        b := next[b];
        k := k + 1;
      }
      assert k == n;
      forall i | 0 <= i < n ensures !Holds(bufs[i], dev, blockno) {
        assert order[pos[i]] == i;
      }
      return None;
    }

    /** The second loop of bget: backward, for the least recently released buffer
        that is neither referenced nor dirty. */
    method FindVictim() returns (r: Option<nat>)
      requires bufs.Length == n && ListOk()
      ensures r.Some? ==> r.value < n && Eligible(bufs[r.value])
      ensures r.Some? ==> forall i :: 0 <= i < n && Eligible(bufs[i]) ==> released[r.value] <= released[i]
      ensures r.None? ==> forall i :: 0 <= i < n ==> !Eligible(bufs[i])
    {
      ghost var ring := [n] + order;
      assert JoinedAt(next[..], prev[..], ring, n);
      var b := prev[n];
      ghost var k: nat := n;
      while b != n
        invariant k <= n && b == ring[k]
        invariant forall m {:trigger order[m]} :: k <= m < n ==> !Eligible(bufs[order[m]])
        decreases k
      {
        assert b == order[k - 1];
        if bufs[b].refcnt == 0 && !bufs[b].dirty {
          forall i | 0 <= i < n && Eligible(bufs[i]) ensures released[b] <= released[i] {
            assert order[pos[i]] == i;
            assert pos[i] < k - 1 ==> released[order[pos[i]]] > released[order[k - 1]];
          }
          return Some(b);
        }
        assert JoinedAt(next[..], prev[..], ring, k - 1);
        b := prev[b];
        k := k - 1;
      }
      assert k == 0;
      forall i | 0 <= i < n ensures !Eligible(bufs[i]) {
        assert order[pos[i]] == i;
      }
      return None;
    }

    /** bget up to its acquiresleep; None is the panic "no buffers". */
    method Bget(dev: nat, blockno: nat) returns (r: Option<nat>)
      requires Valid()
      modifies bufs
      ensures Valid()
      ensures r.None? <==> forall i :: 0 <= i < n ==> !old(Holds(bufs[i], dev, blockno)) && !old(Eligible(bufs[i]))
      ensures r.None? ==> bufs[..] == old(bufs[..])
      ensures r.Some? ==> r.value < n && bufs[r.value].refcnt >= 1 && Holds(bufs[r.value], dev, blockno)
      ensures r.Some? ==> bufs[..] == old(bufs[..])[r.value := bufs[r.value]]
      ensures r.Some? && old(Holds(bufs[r.value], dev, blockno)) ==>
                bufs[r.value] == old(bufs[r.value]).(refcnt := old(bufs[r.value].refcnt) + 1)
      ensures r.Some? && !old(Holds(bufs[r.value], dev, blockno)) ==>
                && (forall i :: 0 <= i < n ==> !old(Holds(bufs[i], dev, blockno)))
                && old(Eligible(bufs[r.value])) && !bufs[r.value].valid && !bufs[r.value].dirty
                && bufs[r.value].refcnt == 1 && bufs[r.value].holder == old(bufs[r.value].holder)
                && forall i :: 0 <= i < n && old(Eligible(bufs[i])) ==> released[r.value] <= released[i]
    {
      r := Lookup(dev, blockno);
      if r.Some? {
        var b := bufs[r.value];
        assert BufOk(bufs[..][r.value], r.value in touched, newest);
        SetBuf(bufs[..], r.value, b.(refcnt := b.refcnt + 1), disk, newest, touched, touched);
        bufs[r.value] := b.(refcnt := b.refcnt + 1);
        assert bufs[..] == old(bufs[..])[r.value := bufs[r.value]];
        return;
      }
      r := FindVictim();
      if r.Some? {
        var b := bufs[r.value];
        Recycle(bufs[..], r.value, dev, blockno, disk, newest, touched);
        bufs[r.value] := Buf(dev, blockno, false, false, 1, b.holder, b.data);
        assert bufs[..] == old(bufs[..])[r.value := bufs[r.value]];
      }
    }

    /** Replaces buffer i's record by one that holds and pins the same. */
    method SetTo(i: nat, b: Buf, ghost touched': set<nat>)
      requires Valid() && i < n && Holds(b, bufs[i].dev, bufs[i].blockno) && (bufs[i].dirty ==> b.dirty)
      requires touched' - {i} == touched - {i} && BufOk(b, i in touched', newest)
      modifies bufs, this`touched
      ensures Valid() && bufs[..] == old(bufs[..])[i := b] && touched == touched'
    {
      SetBuf(bufs[..], i, b, disk, newest, touched, touched');
      bufs[i] := b;
      assert bufs[..] == old(bufs[..])[i := b];
      touched := touched';
    }

    /** acquiresleep on a buffer the caller references; false means it must sleep. */
    method Lock(i: nat, pid: nat) returns (ok: bool)
      requires Valid() && i < n && bufs[i].refcnt >= 1 && pid != 0
      modifies bufs, this`touched
      ensures Valid() && touched == old(touched) && ok == (old(bufs[i].holder) == 0)
      ensures bufs[..] == if ok then old(bufs[..])[i := old(bufs[i]).(holder := pid)] else old(bufs[..])
    {
      ok := bufs[i].holder == 0;
      if ok {
        assert BufOk(bufs[..][i], i in touched, newest);
        SetTo(i, bufs[i].(holder := pid), touched);
      }
    }

    /** The rest of bread: read the block if the buffer is not valid. The caller then
        sees the newest contents of the block. */
    method Fill(i: nat, pid: nat)
      requires Valid() && i < n && pid != 0 && bufs[i].holder == pid && i !in touched
      requires bufs[i].dev == ROOTDEV && bufs[i].blockno < |disk|
      modifies bufs, this`touched
      ensures Valid() && touched == old(touched)
      ensures bufs[..] == old(bufs[..])[i := old(bufs[i]).(valid := true, data := newest[old(bufs[i].blockno)])]
    {
      assert BufOk(bufs[..][i], i in touched, newest);
      if !bufs[i].valid {
        CleanIsOnDisk(bufs[..], i, disk, newest, touched);
        SetTo(i, bufs[i].(valid := true, data := disk[bufs[i].blockno]), touched);
      } else {
        assert bufs[..] == bufs[..][i := bufs[i]];
      }
    }

    /** The lock holder changes the buffer's bytes. */
    method Modify(i: nat, pid: nat, data: Block)
      requires Valid() && i < n && pid != 0 && bufs[i].holder == pid && bufs[i].valid
      modifies bufs, this`touched
      ensures Valid() && touched == old(touched) + {i}
      ensures bufs[..] == old(bufs[..])[i := old(bufs[i]).(data := data)]
    {
      assert BufOk(bufs[..][i], i in touched, newest);
      SetTo(i, bufs[i].(data := data), touched + {i});
    }

    /** log_write's effect on the buffer: pinned, and its contents are now the newest. */
    method LogWrite(i: nat, pid: nat)
      requires Valid() && i < n && pid != 0 && bufs[i].holder == pid
      requires bufs[i].valid && bufs[i].dev == ROOTDEV && bufs[i].blockno < |disk|
      modifies bufs, this`touched, this`newest
      ensures Valid() && touched == old(touched) - {i}
      ensures bufs[..] == old(bufs[..])[i := old(bufs[i]).(dirty := true)]
      ensures newest == old(newest)[bufs[i].blockno := bufs[i].data]
    {
      var b := bufs[i].(dirty := true);
      Publish(bufs[..], i, b, disk, newest, touched);
      bufs[i] := b;
      assert bufs[..] == old(bufs[..])[i := b];
      newest, touched := newest[b.blockno := b.data], touched - {i};
    }

    /** bwrite; false is the panic for a buffer the caller has not locked. */
    method Bwrite(i: nat, pid: nat) returns (ok: bool)
      requires Valid() && i < n && pid != 0 && bufs[i].dev == ROOTDEV && bufs[i].blockno < |disk|
      modifies bufs, this`touched, this`newest, this`disk, this`history
      ensures Valid() && ok == (old(bufs[i].holder) == pid)
      ensures !ok ==> bufs[..] == old(bufs[..]) && disk == old(disk) && newest == old(newest) && touched == old(touched)
      ensures history == if ok then old(history) + [disk] else old(history)
      ensures ok ==> && bufs[..] == old(bufs[..])[i := old(bufs[i]).(valid := true, dirty := false)]
                     && touched == old(touched) - {i}
                     && disk == old(disk)[bufs[i].blockno := bufs[i].data]
                     && newest == old(newest)[bufs[i].blockno := bufs[i].data]
    {
      ok := bufs[i].holder == pid;
      if ok {
        var b := bufs[i].(valid := true, dirty := false);
        Publish(bufs[..], i, b, disk, newest, touched);
        bufs[i] := b;
        assert bufs[..] == old(bufs[..])[i := b];
        disk := disk[b.blockno := b.data];
        newest, touched := newest[b.blockno := b.data], touched - {i};
        history := history + [disk];
      }
    }

    /** brelse up to releasesleep; false is the panic for a buffer not locked. */
    method Unlock(i: nat, pid: nat) returns (ok: bool)
      requires Valid() && i < n && pid != 0 && i !in touched
      modifies bufs, this`touched
      ensures Valid() && touched == old(touched) && ok == (old(bufs[i].holder) == pid)
      ensures bufs[..] == if ok then old(bufs[..])[i := old(bufs[i]).(holder := 0)] else old(bufs[..])
    {
      ok := bufs[i].holder == pid;
      if ok {
        assert BufOk(bufs[..][i], i in touched, newest);
        SetTo(i, bufs[i].(holder := 0), touched);
      }
    }

    /** The rest of brelse: the last reference sends the buffer to the list's front. */
    method Drop(i: nat)
      requires Valid() && i < n && bufs[i].refcnt >= (if bufs[i].holder != 0 then 2 else 1)
      modifies bufs, next, prev, this`touched, this`order, this`pos, this`released, this`clock
      ensures Valid() && touched == old(touched)
      ensures bufs[..] == old(bufs[..])[i := old(bufs[i]).(refcnt := old(bufs[i].refcnt) - 1)]
      ensures if bufs[i].refcnt == 0
              then order == ToFront(old(order), old(pos[i])) && released == old(released)[i := old(clock)]
                  && clock == old(clock) + 1
              else order == old(order) && released == old(released) && clock == old(clock)
    {
      assert BufOk(bufs[..][i], i in touched, newest);
      SetTo(i, bufs[i].(refcnt := bufs[i].refcnt - 1), touched);
      if bufs[i].refcnt == 0 {
        MoveToFront(i);
      }
    }
  }

  lemma RingWithout(order: seq<nat>, pos: seq<nat>, n: nat, k: nat)
    requires Permutation(order, pos, n) && k < n
    ensures Without([n] + order, k + 1) == [n] + Without(order, k)
    ensures order[k] !in [n] + Without(order, k)
  {
    var r := Without(order, k);
    forall i | 0 <= i < |r| ensures r[i] != order[k] {
      assert r[i] == order[if i < k then i else i + 1];
    }
  }
}
