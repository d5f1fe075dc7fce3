/** The page allocator and the page-table code, as methods over memory, against the
  accounts of VmModel.
 */
module VmCode {
  import opened Common
  import opened VmModel

  /** Frame numbers: the end of extended I/O memory, of physical memory, and the start of
      the devices that sit at the top of the address space. */
  const EXTMEM: nat := 256
  const PHYSTOP: nat := 57344
  const DEVSPACE: nat := 1040384

  // --------------------------------------------------------------- free list

  /** Kernel address of the i-th frame of the free list, null past its end. */
  function Link(free: seq<nat>, i: nat): nat {
    if i < |free| then KERNBASE + free[i] * PGSIZE else 0
  }

  predicate LinkOk(mem: seq<Page>, free: seq<nat>, i: nat)
    requires i < |free|
  {
    free[i] < |mem| && mem[free[i]][0] == Link(free, i + 1)
  }

  ghost predicate InRange(s: seq<nat>, lo: nat, hi: nat) {
    forall f {:trigger f in s} :: f in s ==> lo <= f < hi
  }

  /** The list from head runs through free: distinct frames of [lo, hi), each free frame
      holding the address of the next in its first word. */
  ghost predicate Chained(mem: seq<Page>, head: nat, free: seq<nat>, lo: nat, hi: nat) {
    && NoRepeats(free) && InRange(free, lo, hi) && head == Link(free, 0)
    && forall i {:trigger LinkOk(mem, free, i)} :: 0 <= i < |free| ==> LinkOk(mem, free, i)
  }

  lemma ChainedElsewhere(mem: seq<Page>, head: nat, free: seq<nat>, lo: nat, hi: nat, f: nat, p: Page)
    requires Chained(mem, head, free, lo, hi) && f < |mem| && f !in free
    ensures Chained(mem[f := p], head, free, lo, hi)
  {
    var mem' := mem[f := p];
    forall i | 0 <= i < |free| ensures LinkOk(mem', free, i) {
      assert LinkOk(mem, free, i);
    }
  }

  lemma ChainedPop(mem: seq<Page>, head: nat, free: seq<nat>, lo: nat, hi: nat)
    requires Chained(mem, head, free, lo, hi) && free != []
    ensures free[0] < |mem| && free[0] !in free[1..] && Chained(mem, mem[free[0]][0], free[1..], lo, hi)
  {
    assert LinkOk(mem, free, 0);
    forall i | 0 <= i < |free[1..]| ensures LinkOk(mem, free[1..], i) {
      assert LinkOk(mem, free, i + 1);
    }
    forall f | f in free[1..] ensures lo <= f < hi {
      assert f in free;
    }
  }

  lemma ChainedPush(mem: seq<Page>, head: nat, free: seq<nat>, lo: nat, hi: nat, f: nat)
    requires Chained(mem, head, free, lo, hi) && lo <= f < hi && f < |mem| && f !in free && mem[f][0] == head
    ensures Chained(mem, KERNBASE + f * PGSIZE, [f] + free, lo, hi)
  {
    forall i | 0 <= i < |[f] + free| ensures LinkOk(mem, [f] + free, i) {
      if i > 0 {
        assert LinkOk(mem, free, i - 1);
      }
    }
  }

  /** What kfree fills a page with. */
  const JUNK: Page := seq(1024, _ => 0x0101_0101)

  /** A row of the kernel's memory map: n pages from virtual page v on, to frames from f on. */
  datatype Row = Row(v: nat, f: nat, n: nat, perm: nat)

  /** I/O space, kernel text, kernel data with free memory, devices. */
  function Kmap(kdata: nat): seq<Row>
    requires EXTMEM < kdata < PHYSTOP
  {
    [ Row(USERPAGES, 0, EXTMEM, PTE_W),
      Row(USERPAGES + EXTMEM, EXTMEM, kdata - EXTMEM, 0),
      Row(USERPAGES + kdata, kdata, PHYSTOP - kdata, PTE_W),
      Row(DEVSPACE, DEVSPACE, ALLPAGES - DEVSPACE, PTE_W) ]
  }

  /** The kernel half of every address space, page by page: physical memory at KERNBASE,
      read-only where the kernel's text is, and the devices at their own addresses. */
  function KernelPte(kdata: nat, v: nat): nat {
    if v < USERPAGES then 0
    else if v < USERPAGES + PHYSTOP then
      Entry(v - USERPAGES, if EXTMEM <= v - USERPAGES < kdata then 0 else PTE_W)
    else if v < DEVSPACE then 0
    else Entry(v, PTE_W)
  }

  /** First page after the first k rows. */
  function RowsEnd(kdata: nat, k: nat): nat
    requires EXTMEM < kdata < PHYSTOP && k <= 4
  {
    if k == 0 then USERPAGES else var row := Kmap(kdata)[k - 1]; row.v + row.n
  }

  /** The rows are in order of address, do not overlap, and agree with KernelPte. */
  lemma KmapRow(kdata: nat, k: nat, v: nat)
    requires EXTMEM < kdata < PHYSTOP && k < 4 && v < ALLPAGES
    ensures var row := Kmap(kdata)[k];
            && USERPAGES <= RowsEnd(kdata, k) <= row.v && 1 <= row.n
                 && row.v + row.n == RowsEnd(kdata, k + 1) <= ALLPAGES
            && (RowsEnd(kdata, k) <= v < row.v ==> KernelPte(kdata, v) == 0)
            && (row.v <= v < row.v + row.n ==> KernelPte(kdata, v) == Entry(row.f + v - row.v, row.perm))
  {
  }

  // ------------------------------------------------- how many frames it takes

  predicate HasTable(mem: seq<Page>, d: nat, i: nat)
    requires d < |mem| && i < NPDENTRIES
  {
    Present(Pde(mem, d, i))
  }

  /** The page tables still to be made for page v: none or one. */
  function Missing(mem: seq<Page>, d: nat, v: nat): nat
    requires d < |mem| && v < ALLPAGES
  {
    if HasTable(mem, d, v / NPTENTRIES) then 0 else 1
  }

  /** The tables of d are those of before and the one for page v. */
  ghost predicate TablesAfter(m0: seq<Page>, m1: seq<Page>, d: nat, v: nat)
    requires d < |m0| == |m1| && v < ALLPAGES
  {
    forall i: nat {:trigger HasTable(m1, d, i)} :: i < NPDENTRIES ==>
      (HasTable(m1, d, i) <==> HasTable(m0, d, i) || i == v / NPTENTRIES)
  }

  /** The page tables that pages [p, v) need beyond those d has: one for each stretch of
      1024 that has none. */
  function Tables(mem: seq<Page>, d: nat, p: nat, v: nat): nat
    requires d < |mem| && v <= ALLPAGES
  {
    if v <= p then 0
    else Tables(mem, d, p, v - 1) + if v - 1 == p || (v - 1) % NPTENTRIES == 0 then Missing(mem, d, v - 1) else 0
  }

  /** d has the tables it had and those for pages [p, v). */
  ghost predicate TablesMade(m0: seq<Page>, m1: seq<Page>, d: nat, p: nat, v: nat)
    requires d < |m0| == |m1| && v <= ALLPAGES
  {
    forall i: nat {:trigger HasTable(m1, d, i)} :: i < NPDENTRIES ==>
      (HasTable(m1, d, i) <==> HasTable(m0, d, i) || (p < v && p / NPTENTRIES <= i <= (v - 1) / NPTENTRIES))
  }

  lemma TableNext(m0: seq<Page>, m1: seq<Page>, m2: seq<Page>, d: nat, p: nat, v: nat)
    requires d < |m0| == |m1| == |m2| && p <= v < ALLPAGES && TablesMade(m0, m1, d, p, v) && TablesAfter(m1, m2, d, v)
    ensures TablesMade(m0, m2, d, p, v + 1)
    ensures Tables(m0, d, p, v + 1) == Tables(m0, d, p, v) + Missing(m1, d, v)
  {
    TableMissing(m0, m1, d, p, v);
  }

  /** Whether page v still lacks its table, after pages [p, v). */
  lemma TableMissing(m0: seq<Page>, m1: seq<Page>, d: nat, p: nat, v: nat)
    requires d < |m0| == |m1| && p <= v < ALLPAGES && TablesMade(m0, m1, d, p, v)
    ensures Missing(m1, d, v) == if v == p || v % NPTENTRIES == 0 then Missing(m0, d, v) else 0
    ensures Tables(m0, d, p, v + 1) == Tables(m0, d, p, v) + Missing(m1, d, v)
  {
    var i := v / NPTENTRIES;
    assert HasTable(m1, d, i) <==> HasTable(m0, d, i) || (p < v && p / NPTENTRIES <= i <= (v - 1) / NPTENTRIES);
  }

  /** The frames that new pages [p, v) take, with their tables. */
  function Need(mem: seq<Page>, d: nat, p: nat, v: nat): nat
    requires d < |mem| && p <= v <= ALLPAGES
  {
    v - p + Tables(mem, d, p, v)
  }

  lemma {:induction false} NeedGrows(mem: seq<Page>, d: nat, p: nat, v: nat, w: nat)
    requires d < |mem| && p <= v <= w <= ALLPAGES
    ensures Need(mem, d, p, v) + (w - v) <= Need(mem, d, p, w)
  {
    if v < w {
      NeedGrows(mem, d, p, v, w - 1);
    }
  }

  /** The first page of [p, q) that is mapped, q if none is. */
  ghost function FirstMapped(mem: seq<Page>, d: nat, p: nat, q: nat): (v: nat)
    requires d < |mem| && p <= q <= USERPAGES
    ensures p <= v <= q && Clean(mem, d, p, v) && (v < q ==> Present(Pte(mem, d, v)))
    decreases q - p
  {
    if p == q || Present(Pte(mem, d, p)) then p else FirstMapped(mem, d, p + 1, q)
  }

  /** The frames allocuvm needs to get through [p, q), or to its panic: a page that is
      mapped already costs it one frame. */
  ghost function AllocNeed(mem: seq<Page>, d: nat, p: nat, q: nat): nat
    requires d < |mem| && p <= q <= USERPAGES
  {
    var v := FirstMapped(mem, d, p, q);
    Need(mem, d, p, v) + if v < q then 1 else 0
  }

  /** Unmapped up to v, the first mapped page is v or later. */
  lemma StopAt(mem: seq<Page>, d: nat, p: nat, v: nat, q: nat)
    requires d < |mem| && p <= v <= q <= USERPAGES && Clean(mem, d, p, v)
    ensures v <= FirstMapped(mem, d, p, q)
    ensures v == q || Present(Pte(mem, d, v)) ==> FirstMapped(mem, d, p, q) == v
  {
  }

  /** ... and allocuvm needs at least what page v takes. */
  lemma StopLater(mem: seq<Page>, d: nat, p: nat, v: nat, q: nat)
    requires d < |mem| && p <= v < q <= USERPAGES && Clean(mem, d, p, v)
    ensures Present(Pte(mem, d, v)) ==> AllocNeed(mem, d, p, q) == Need(mem, d, p, v) + 1
    ensures !Present(Pte(mem, d, v)) ==> Need(mem, d, p, v + 1) <= AllocNeed(mem, d, p, q)
  {
    StopAt(mem, d, p, v, q);
    if !Present(Pte(mem, d, v)) {
      StopAt(mem, d, p, v + 1, q);
      NeedGrows(mem, d, p, v + 1, FirstMapped(mem, d, p, q));
    }
  }

  /** Tables for a range whose directory entries, the first perhaps excepted, are empty. */
  lemma {:induction false} TablesClosed(mem: seq<Page>, d: nat, v: nat, a: nat)
    requires d < |mem| && v < a <= ALLPAGES
    requires forall i: nat :: v / NPTENTRIES < i <= (a - 1) / NPTENTRIES ==> !HasTable(mem, d, i)
    ensures Tables(mem, d, v, a) == (a - 1) / NPTENTRIES - v / NPTENTRIES + Missing(mem, d, v)
  {
    if a == v + 1 {
      assert Tables(mem, d, v, v) == 0;
    } else {
      TablesClosed(mem, d, v, a - 1);
    }
  }

  lemma {:induction false} TablesGrows(mem: seq<Page>, d: nat, p: nat, v: nat, w: nat)
    requires d < |mem| && v <= w <= ALLPAGES
    ensures Tables(mem, d, p, v) <= Tables(mem, d, p, w)
  {
    if v < w {
      TablesGrows(mem, d, p, v, w - 1);
    }
  }

  /** Directory entry i is in use once the first k rows of the kernel map are in place. */
  predicate RowDir(kdata: nat, k: nat, i: nat)
    requires EXTMEM < kdata < PHYSTOP && k <= 4
  {
    || (0 < k && USERPAGES / NPTENTRIES <= i <= (RowsEnd(kdata, if k < 4 then k else 3) - 1) / NPTENTRIES)
    || (k == 4 && DEVSPACE / NPTENTRIES <= i)
  }

  /** The page tables of the first k rows. */
  function RowTables(kdata: nat, k: nat): nat
    requires EXTMEM < kdata < PHYSTOP && k <= 4
  {
    if k == 0 then 0
    else if k < 4 then (RowsEnd(kdata, k) - 1) / NPTENTRIES - USERPAGES / NPTENTRIES + 1
    else 64
  }

  /** The frames of an address space without user pages: its directory and 64 tables. */
  const KFRAMES: nat := 65

  ghost predicate RowDirs(mem: seq<Page>, d: nat, kdata: nat, k: nat)
    requires d < |mem| && EXTMEM < kdata < PHYSTOP && k <= 4
  {
    forall i: nat {:trigger HasTable(mem, d, i)} :: i < NPDENTRIES ==> (HasTable(mem, d, i) <==> RowDir(kdata, k, i))
  }

  lemma RowNeeds(mem: seq<Page>, d: nat, kdata: nat, k: nat)
    requires d < |mem| && EXTMEM < kdata < PHYSTOP && k < 4 && RowDirs(mem, d, kdata, k)
    ensures var row := Kmap(kdata)[k];
            row.v + row.n <= ALLPAGES && RowTables(kdata, k) + Tables(mem, d, row.v, row.v + row.n) ==
                RowTables(kdata, k + 1)
    ensures RowTables(kdata, k) <= RowTables(kdata, k + 1) <= 64
  {
    var row := Kmap(kdata)[k];
    KmapRow(kdata, k, 0);
    assert forall i: nat :: row.v / NPTENTRIES < i <= (row.v + row.n - 1) / NPTENTRIES ==> !HasTable(mem, d, i);
    TablesClosed(mem, d, row.v, row.v + row.n);
  }

  lemma RowPtes(m0: seq<Page>, m1: seq<Page>, d: nat, kdata: nat, k: nat)
    requires d < |m0| == |m1| && EXTMEM < kdata < PHYSTOP && k < 4
    requires forall v: nat :: v < ALLPAGES ==> Pte(m0, d, v) == if v < RowsEnd(kdata, k) then KernelPte(kdata, v) else 0
    requires var row := Kmap(kdata)[k];
             && row.perm < PGSIZE && SameOutside(m0, m1, d, row.v, row.v + row.n)
             && forall v: nat :: row.v <= v < row.v + row.n && v < ALLPAGES ==>
                  Pte(m1, d, v) == Entry(row.f + v - row.v, row.perm)
    ensures forall v: nat :: v < ALLPAGES ==>
            Pte(m1, d, v) == if v < RowsEnd(kdata, k + 1) then KernelPte(kdata, v) else 0
  {
    var row := Kmap(kdata)[k];
    forall v: nat | v < ALLPAGES
      ensures Pte(m1, d, v) == if v < RowsEnd(kdata, k + 1) then KernelPte(kdata, v) else 0
    {
      KmapRow(kdata, k, v);
      assert !(row.v <= v < row.v + row.n) ==> SamePage(m0, m1, d, v);
    }
  }

  lemma RowMakes(m0: seq<Page>, m1: seq<Page>, d: nat, kdata: nat, k: nat)
    requires d < |m0| == |m1| && EXTMEM < kdata < PHYSTOP && k < 4 && RowDirs(m0, d, kdata, k)
    requires var row := Kmap(kdata)[k]; row.v + row.n <= ALLPAGES && TablesMade(m0, m1, d, row.v, row.v + row.n)
    ensures RowDirs(m1, d, kdata, k + 1)
  {
    var row := Kmap(kdata)[k];
    KmapRow(kdata, k, 0);
    forall i: nat | i < NPDENTRIES ensures HasTable(m1, d, i) <==> RowDir(kdata, k + 1, i) {
      assert HasTable(m0, d, i) <==> RowDir(kdata, k, i);
    }
  }

  /** The user half of d has the tables for pages [0, v) and no other. */
  ghost predicate UserDirs(mem: seq<Page>, d: nat, v: nat)
    requires d < |mem|
  {
    forall i: nat {:trigger HasTable(mem, d, i)} :: i < USERPAGES / NPTENTRIES ==>
      (HasTable(mem, d, i) <==> 0 < v && i <= (v - 1) / NPTENTRIES)
  }

  /** The frames of a new space with user pages [0, v). */
  function CopyNeed(v: nat): nat {
    KFRAMES + v + (v + NPTENTRIES - 1) / NPTENTRIES
  }

  lemma CopyNeedNext(m1: seq<Page>, d: nat, v: nat)
    requires d < |m1| && v < USERPAGES && UserDirs(m1, d, v)
    ensures CopyNeed(v + 1) == CopyNeed(v) + 1 + Missing(m1, d, v)
  {
    assert HasTable(m1, d, v / NPTENTRIES) <==> 0 < v && v / NPTENTRIES <= (v - 1) / NPTENTRIES;
  }

  lemma UserDirsNext(m1: seq<Page>, m2: seq<Page>, d: nat, v: nat)
    requires d < |m1| == |m2| && v < USERPAGES && UserDirs(m1, d, v) && TablesAfter(m1, m2, d, v)
    ensures UserDirs(m2, d, v + 1)
  {
    forall i: nat | i < USERPAGES / NPTENTRIES ensures HasTable(m2, d, i) <==> i <= v / NPTENTRIES {
      assert HasTable(m1, d, i) <==> 0 < v && i <= (v - 1) / NPTENTRIES;
    }
  }

  /** The first page below q that is not there, q if none is missing. */
  ghost function FirstMissing(mem: seq<Page>, e: nat, p: nat, q: nat): (v: nat)
    requires e < |mem| && p <= q <= USERPAGES
    ensures p <= v <= q && (v < q ==> !Present(Pte(mem, e, v)))
    ensures forall w: nat :: p <= w < v ==> Present(Pte(mem, e, w))
    decreases q - p
  {
    if p == q || !Present(Pte(mem, e, p)) then p else FirstMissing(mem, e, p + 1, q)
  }

  lemma CopyNeedGrows(v: nat, w: nat)
    requires v <= w
    ensures CopyNeed(v) <= CopyNeed(w)
  {
  }

  /** What page v of allocuvm's range decides, with n of n0 frames left. */
  lemma AllocDecides(m0: seq<Page>, m1: seq<Page>, d: nat, p: nat, v: nat, q: nat, n: nat, n0: nat)
    requires d < |m0| == |m1| && p <= v < q <= USERPAGES && TablesMade(m0, m1, d, p, v) && Clean(m0, d, p, v)
    requires Pte(m1, d, v) == Pte(m0, d, v) && n + Need(m0, d, p, v) == n0
    ensures n < 1 + Missing(m1, d, v) ==> n0 < AllocNeed(m0, d, p, q)
    ensures Present(Pte(m0, d, v)) && n > 0 ==> AllocNeed(m0, d, p, q) <= n0 && !Clean(m0, d, p, q)
    ensures Need(m0, d, p, v + 1) == Need(m0, d, p, v) + 1 + Missing(m1, d, v)
  {
    StopLater(m0, d, p, v, q);
    TableMissing(m0, m1, d, p, v);
    if Present(Pte(m0, d, v)) {
      MappedHasTable(m1, d, v);
    }
  }

  lemma MappedHasTable(mem: seq<Page>, d: nat, v: nat)
    requires d < |mem| && v < ALLPAGES && Present(Pte(mem, d, v))
    ensures HasTable(mem, d, v / NPTENTRIES)
  {
    assert FlagsOf(0) == 0;
  }

  /** mappages: done, out of page-table pages, or panic("remap"). */
  datatype Mapping = Mapped | NoMemory | Remap

  /** The frames of the user pages among [v, a), when page v has frame f. */
  ghost function Frames(f: nat, v: nat, a: nat): set<nat> {
    if a <= v then {} else Frames(f, v, a - 1) + if a <= USERPAGES then {f + (a - 1 - v)} else {}
  }

  lemma {:induction false} KernelFrames(f: nat, v: nat, a: nat)
    requires USERPAGES <= v
    ensures Frames(f, v, a) == {}
  {
    if a > v {
      KernelFrames(f, v, a - 1);
    }
  }

  function UserEnd(a: nat): nat {
    if a < USERPAGES then a else USERPAGES
  }

  /** Frame x joined the available ones and became user page a of d. */
  lemma TookFrame(s0: set<nat>, u0: map<nat, Use>, s1: set<nat>, u1: map<nat, Use>, s2: set<nat>, u2: map<nat, Use>,
                  d: nat, v: nat, a: nat, x: nat)
    requires Took(s0, u0, s1, u1, d, v, a) && Took(s1 + {x}, u1, s2, u2, d, a, a + 1) && x !in u1 && v <= a
    ensures Took(s0 + {x}, u0, s2, u2, d, v, a + 1)
  {
    assert Took(s0 + {x}, u0, s1 + {x}, u1, d, v, a);
    TookFrom(s1 + {x}, u1, s2, u2, d, a, a + 1, v);
    TookTwice(s0 + {x}, u0, s1 + {x}, u1, s2, u2, d, v, a, a + 1);
  }

  lemma TookOn(s0: set<nat>, u0: map<nat, Use>, s1: set<nat>, u1: map<nat, Use>, s2: set<nat>, u2: map<nat, Use>,
               d: nat, v: nat, b: nat)
    requires Took(s0, u0, s1, u1, d, v, b) && Took(s1, u1, s2, u2, d, 0, 0)
    ensures Took(s0, u0, s2, u2, d, v, b)
  {
    TookWiden(s1, u1, s2, u2, d, v, b);
    TookTwice(s0, u0, s1, u1, s2, u2, d, v, b, b);
  }

  lemma TookNext(s0: set<nat>, u0: map<nat, Use>, s1: set<nat>, u1: map<nat, Use>, s2: set<nat>, u2: map<nat, Use>,
                 d: nat, p: nat, v: nat)
    requires Took(s0, u0, s1, u1, d, p, v) && Took(s1, u1, s2, u2, d, v, v + 1) && p <= v
    ensures Took(s0, u0, s2, u2, d, p, v + 1)
  {
    TookFrom(s1, u1, s2, u2, d, v, v + 1, p);
    TookTwice(s0, u0, s1, u1, s2, u2, d, p, v, v + 1);
  }

  lemma MapTook(s0: set<nat>, u0: map<nat, Use>, s1: set<nat>, u1: map<nat, Use>, s2: set<nat>, u2: map<nat, Use>,
                d: nat, v: nat, a: nat, f: nat, mapped: bool)
    requires v <= a && Took(s0 + Frames(f, v, a), u0, s1, u1, d, v, UserEnd(a))
    requires if mapped && a < USERPAGES then f + (a - v) !in u1 && Took(s1 + {f + (a - v)}, u1, s2, u2, d, a, a + 1)
             else Took(s1, u1, s2, u2, d, 0, 0)
    ensures var b := if mapped then a + 1 else a; Took(s0 + Frames(f, v, b), u0, s2, u2, d, v, UserEnd(b))
  {
    if mapped && a < USERPAGES {
      TookFrame(s0 + Frames(f, v, a), u0, s1, u1, s2, u2, d, v, a, f + (a - v));
      assert s0 + Frames(f, v, a) + {f + (a - v)} == s0 + Frames(f, v, a + 1);
    } else {
      TookOn(s0 + Frames(f, v, a), u0, s1, u1, s2, u2, d, v, UserEnd(a));
    }
  }

  lemma MapNext(m0: seq<Page>, m1: seq<Page>, m2: seq<Page>, d: nat, v: nat, a: nat, mapped: bool)
    requires |m0| == |m1| == |m2| && d < |m0| && v <= a < ALLPAGES
    requires SameOutside(m0, m1, d, v, a) && SameOutside(m1, m2, d, if mapped then a else 0,
             if mapped then a + 1 else 0)
    ensures SameOutside(m0, m2, d, v, if mapped then a + 1 else a)
    ensures forall k: nat {:trigger Pte(m2, d, k)} :: k < ALLPAGES && k != a ==> Pte(m2, d, k) == Pte(m1, d, k)
  {
    var b := if mapped then a + 1 else a;
    SameWiden(m0, m1, d, v, a, v, b);
    SameWiden(m1, m2, d, if mapped then a else 0, if mapped then a + 1 else 0, v, b);
    SameTwice(m0, m1, m2, d, v, b);
    forall k: nat | k < ALLPAGES && k != a ensures Pte(m2, d, k) == Pte(m1, d, k) {
      assert SamePage(m1, m2, d, k);
    }
  }

  lemma NoUser(mem: seq<Page>, use: map<nat, Use>, d: nat, p: nat, q: nat)
    requires Consistent(mem, use) && d < |mem| && q <= USERPAGES
    requires forall v: nat :: p <= v < q ==> !Present(Pte(mem, d, v))
    ensures forall f :: f in use && use[f].User? && use[f].dir == d ==> !(p <= use[f].vpn < q)
  {
    forall f | f in use && use[f].User? && use[f].dir == d ensures !(p <= use[f].vpn < q) {
      assert UseOk(mem, use, f);
    }
  }

  /** The frames after an allocation that was given up. */
  lemma GivenUp(m0: seq<Page>, s0: set<nat>, u0: map<nat, Use>, s1: set<nat>, u1: map<nat, Use>, s2: set<nat>,
                u2: map<nat, Use>,
                d: nat, p: nat, v: nat, q: nat)
    requires Consistent(m0, u0) && d < |m0| && p <= v <= q <= USERPAGES && s0 !! u0.Keys
    requires Took(s0, u0, s1, u1, d, p, v) && Gave(s1, u1, s2, u2, d, p, q)
    ensures s2 + u2.Keys == s0 + u0.Keys
    ensures Clean(m0, d, p, q) ==> Took(s0, u0, s2, u2, d, 0, 0)
  {
    TookConserves(s0, u0, s1, u1, d, p, v);
    GaveConserves(s1, u1, s2, u2, d, p, q);
    if Clean(m0, d, p, q) {
      NoUser(m0, u0, d, p, q);
      TookThenGave(s0, u0, s1, u1, s2, u2, d, p, v, q);
    }
  }

  /** No page of [p, q) is mapped. */
  ghost predicate Clean(mem: seq<Page>, d: nat, p: nat, q: nat)
    requires d < |mem|
  {
    forall v: nat :: p <= v < q && v < ALLPAGES ==> !Present(Pte(mem, d, v))
  }

  /** One more zeroed page, the earlier ones kept, the later ones still as they were. */
  lemma AllocNext(m0: seq<Page>, m1: seq<Page>, m2: seq<Page>, d: nat, p: nat, v: nat, q: nat, frames: set<nat>,
                  avail: set<nat>)
    requires |m0| == |m1| == |m2| && d < |m0| && p <= v < q <= USERPAGES && avail <= frames
    requires SameOutside(m0, m1, d, p, q) && SameOutside(m1, m2, d, v, v + 1)
    requires forall w: nat :: p <= w < v ==> Holds(m1, d, w, 7, ZEROS, frames)
    requires forall w: nat :: v <= w < q ==> Pte(m1, d, w) == Pte(m0, d, w)
    requires Holds(m2, d, v, 7, ZEROS, avail)
    ensures SameOutside(m0, m2, d, p, q)
    ensures forall w: nat :: p <= w < v + 1 ==> Holds(m2, d, w, 7, ZEROS, frames)
    ensures forall w: nat :: v + 1 <= w < q ==> Pte(m2, d, w) == Pte(m0, d, w)
  {
    SameWiden(m1, m2, d, v, v + 1, p, q);
    SameTwice(m0, m1, m2, d, p, q);
    forall w: nat | p <= w < v ensures Holds(m2, d, w, 7, ZEROS, frames) {
      assert SamePage(m1, m2, d, w) && Holds(m1, d, w, 7, ZEROS, frames);
    }
    forall w: nat | v + 1 <= w < q ensures Pte(m2, d, w) == Pte(m0, d, w) {
      assert SamePage(m1, m2, d, w);
    }
  }

  lemma CopyNext(m1: seq<Page>, m2: seq<Page>, d: nat, m0: seq<Page>, e: nat, v: nat, kdata: nat, frames: set<nat>)
    requires |m0| == |m1| == |m2| && d < |m0| && e < |m0| && v < USERPAGES
    requires SameOutside(m1, m2, d, v, v + 1)
    requires forall w: nat :: w < v ==> CopyOf(m1, d, m0, e, w, frames)
    requires forall w: nat :: v <= w < ALLPAGES ==> Pte(m1, d, w) == KernelPte(kdata, w)
    ensures forall w: nat :: w < v ==> CopyOf(m2, d, m0, e, w, frames)
    ensures forall w: nat :: v + 1 <= w < ALLPAGES ==> Pte(m2, d, w) == KernelPte(kdata, w)
  {
    forall w: nat | w < v ensures CopyOf(m2, d, m0, e, w, frames) {
      assert SamePage(m1, m2, d, w) && CopyOf(m1, d, m0, e, w, frames);
    }
    forall w: nat | v + 1 <= w < ALLPAGES ensures Pte(m2, d, w) == KernelPte(kdata, w) {
      assert SamePage(m1, m2, d, w);
    }
  }

  /** copyuvm: the child's directory, 0, or a panic over a page the parent lacks. */
  datatype Copy = Child(dir: nat) | Failed | Panic

  // ------------------------------------------------------------------ machine

  class Machine {
    const lo: nat       // first frame after the kernel image
    const kdata: nat    // first frame of the kernel's writable data
    var mem: seq<Page>
    var freelist: nat
    ghost var free: seq<nat>
    ghost var use: map<nat, Use>

    /** The allocator's own part. */
    ghost predicate Listed()
      reads this
    {
      EXTMEM < kdata < lo <= PHYSTOP == |mem| && Chained(mem, freelist, free, lo, PHYSTOP)
    }

    ghost predicate Valid()
      reads this
    {
      && Listed() && Consistent(mem, use)
      && (forall f {:trigger f in free} :: f in free ==> f !in use)
      && (forall f {:trigger f in use} :: f in use ==> lo <= f < PHYSTOP)
    }

    /** A frame held by code that has allocated it and not yet recorded its use. */
    ghost predicate Loose(f: nat)
      reads this
    {
      lo <= f < PHYSTOP && f !in free && f !in use
    }

    constructor (lo: nat, kdata: nat, mem: seq<Page>)
      requires EXTMEM < kdata < lo <= PHYSTOP == |mem|
      ensures Valid() && this.lo == lo && use == map[] && free == []
      ensures forall f :: lo <= f < PHYSTOP ==> Loose(f)
    {
      this.lo := lo;
      this.kdata := kdata;
      this.mem := mem;
      freelist := 0;
      free := [];
      use := map[];
    }

    method Kfree(f: nat) returns (ok: bool)
      requires Listed() && f !in free
      modifies this`mem, this`freelist, this`free
      ensures Listed() && |mem| == |old(mem)|
      ensures ok <==> lo <= f < PHYSTOP
      ensures ok ==> free == [f] + old(free) && Elems(free) == Elems(old(free)) + {f} && mem == old(mem)[f := mem[f]]
      ensures ok ==> mem[f] == JUNK[0 := old(freelist)]
      ensures !ok ==> free == old(free) && mem == old(mem) && freelist == old(freelist)
    {
      if f < lo || f >= PHYSTOP {
        return false;
      }
      ChainedElsewhere(mem, freelist, free, lo, PHYSTOP, f, JUNK[0 := freelist]);
      mem := mem[f := JUNK[0 := freelist]];
      ChainedPush(mem, freelist, free, lo, PHYSTOP, f);
      freelist := KERNBASE + f * PGSIZE;
      free := [f] + free;
      ok := true;
    }

    method Kalloc() returns (r: Option<nat>)
      requires Valid()
      modifies this`freelist, this`free
      ensures Valid() && (r == None <==> old(free) == [])
      ensures r == None ==> free == old(free)
      ensures r.Some? ==> r.value == old(free)[0] && free == old(free)[1..] && Loose(r.value)
      ensures Elems(old(free)) == Elems(free) + (if r.Some? then {r.value} else {})
    {
      if freelist == 0 {
        return None;
      }
      ChainedPop(mem, freelist, free, lo, PHYSTOP);
      var f := (freelist - KERNBASE) / PGSIZE;
      assert f == free[0] && f in free;
      assert forall g :: g in free <==> g == f || g in free[1..];
      freelist := mem[f][0];
      free := free[1..];
      r := Some(f);
    }

    /** kinit: every frame of [a, b) put on the list. */
    method Freerange(a: nat, b: nat)
      requires Valid() && lo <= a <= b <= PHYSTOP && forall f :: a <= f < b ==> f !in free && f !in use
      modifies this
      ensures Valid() && use == old(use)
      ensures forall g :: g in free <==> g in old(free) || a <= g < b
    {
      for f := a to b
        invariant Valid() && use == old(use)
        invariant forall g :: f <= g < b ==> g !in free
        invariant forall g :: g in free <==> g in old(free) || a <= g < f
      {
        ghost var m1 := mem;
        var _ := Kfree(f);
        WritePage(m1, use, f, mem[f]);
      }
    }

    /** walkpgdir: the table that holds the entry of page v. */
    method Walkpgdir(d: nat, v: nat, alloc: bool) returns (r: Option<nat>)
      requires Valid() && IsDir(use, d) && v < ALLPAGES
      modifies this
      ensures Valid() && IsDir(use, d) && d < |mem| == |old(mem)|
      ensures r == None <==> !Present(Pde(old(mem), d, v / NPTENTRIES)) && (!alloc || old(free) == [])
      ensures r.Some? ==> Present(Pde(mem, d, v / NPTENTRIES)) && r.value == FrameOf(Pde(mem, d, v / NPTENTRIES))
      ensures r.Some? && !Present(Pde(old(mem), d, v / NPTENTRIES)) ==>
                r.value == old(free)[0] && Pde(mem, d, v / NPTENTRIES) == Entry(r.value, PTE_W + PTE_U)
      ensures r == None || !alloc || Present(Pde(old(mem), d, v / NPTENTRIES)) ==>
                mem == old(mem) && free == old(free) && use == old(use) && freelist == old(freelist)
      ensures SameOutside(old(mem), mem, d, 0, 0) && OthersSame(old(mem), old(use), mem, use, d)
      ensures Took(Elems(old(free)), old(use), Elems(free), use, d, 0, 0)
      ensures forall f: nat :: old(Loose(f)) ==> Loose(f) && mem[f] == old(mem)[f]
      ensures r.Some? ==> TablesAfter(old(mem), mem, d, v) && |free| + Missing(old(mem), d, v) == |old(free)|
    {
      var i := v / NPTENTRIES;
      var pde := Pde(mem, d, i);
      if Present(pde) {
        return Some(FrameOf(pde));
      }
      if !alloc {
        return None;
      }
      var t := Kalloc();
      if t == None {
        return None;
      }
      AddTable(mem, use, d, i, t.value);
      ChainedElsewhere(mem, freelist, free, lo, PHYSTOP, t.value, ZEROS);
      mem := mem[t.value := ZEROS];
      ChainedElsewhere(mem, freelist, free, lo, PHYSTOP, d, mem[d][i := Entry(t.value, PTE_W + PTE_U)]);
      mem := mem[d := mem[d][i := Entry(t.value, PTE_W + PTE_U)]];
      use := use[t.value := Table(d, i)];
      return t;
    }

    /** One turn of mappages. A user page takes over the loose frame f. */
    method MapPage(d: nat, v: nat, f: nat, perm: nat) returns (r: Mapping)
      requires Valid() && IsDir(use, d) && v < ALLPAGES && perm < PGSIZE
      requires v < USERPAGES ==> Loose(f)
      modifies this
      ensures Valid() && IsDir(use, d) && d < |mem| == |old(mem)|
      ensures OthersSame(old(mem), old(use), mem, use, d)
      ensures r == NoMemory <==> |old(free)| < Missing(old(mem), d, v)
      ensures r == NoMemory ==> mem == old(mem) && free == []
      ensures r != NoMemory ==> TablesAfter(old(mem), mem, d, v) && |free| + Missing(old(mem), d, v) == |old(free)|
      ensures r == Remap <==> Present(Pte(old(mem), d, v))
      ensures r != Mapped ==> SameOutside(old(mem), mem, d, 0, 0)
      ensures r == Mapped ==> SameOutside(old(mem), mem, d, v, v + 1) && Pte(mem, d, v) == Entry(f, perm)
      ensures r == Mapped && v < USERPAGES ==>
                Took(Elems(old(free)) + {f}, old(use), Elems(free), use, d, v, v + 1)
      ensures r != Mapped || USERPAGES <= v ==> Took(Elems(old(free)), old(use), Elems(free), use, d, 0, 0)
      ensures v < USERPAGES ==> mem[f] == old(mem)[f] && (r != Mapped ==> Loose(f))
      ensures forall g: nat :: old(Loose(g)) && (g != f || USERPAGES <= v) ==> Loose(g)
    {
      var t := Walkpgdir(d, v, true);
      assert SamePage(old(mem), mem, d, v);
      if t == None {
        return NoMemory;
      }
      assert PdeOk(mem, use, d, v / NPTENTRIES);
      if Present(mem[t.value][v % NPTENTRIES]) {
        return Remap;
      }
      ghost var m1, u1, s1 := mem, use, Elems(free);
      if v < USERPAGES {
        MapUser(mem, use, d, v, f, Entry(f, perm));
      } else {
        MapKernel(mem, use, d, v, Entry(f, perm));
      }
      ChainedElsewhere(mem, freelist, free, lo, PHYSTOP, t.value, mem[t.value][v % NPTENTRIES := Entry(f, perm)]);
      mem := mem[t.value := mem[t.value][v % NPTENTRIES := Entry(f, perm)]];
      if v < USERPAGES {
        use := use[f := User(d, v)];
        TookUser(Elems(old(free)), old(use), s1, u1, d, v, f);
      }
      SameWiden(old(mem), m1, d, 0, 0, v, v + 1);
      SameTwice(old(mem), m1, mem, d, v, v + 1);
      OthersTwice(old(mem), old(use), m1, u1, mem, use, d);
      assert mem[d] == m1[d];
      forall i: nat | i < NPDENTRIES ensures HasTable(mem, d, i) <==> HasTable(old(mem), d, i) || i == v / NPTENTRIES {
        assert HasTable(m1, d, i) == HasTable(mem, d, i);
      }
      return Mapped;
    }

    /** Since (m0, u0), when s0 were the free frames, pages [v, a) of d, none of which was
        mapped, have been mapped to the frames from f on, and nothing else has changed. The
        frames for the user pages up to w are still loose. The outer quantifier keeps this
        folded in the proof of the loop. */
    ghost predicate MappedTo(d: nat, v: nat, a: nat, w: nat, f: nat, perm: nat, m0: seq<Page>, s0: set<nat>,
                             u0: map<nat, Use>)
      requires d < |mem| == |m0| && v <= a <= w <= ALLPAGES && perm < PGSIZE
      reads this
    {
      forall b: nat {:trigger TablesMade(m0, mem, d, v, b)} :: b == a ==>
        && OthersSame(m0, u0, mem, use, d) && SameOutside(m0, mem, d, v, b) && Clean(m0, d, v, b)
        && (forall k: nat :: v <= k < b ==> Pte(mem, d, k) == Entry(f + k - v, perm))
        && Took(s0 + Frames(f, v, b), u0, Elems(free), use, d, v, UserEnd(b))
        && (forall x: nat :: f + (b - v) <= x < f + UserEnd(w) - v ==> Loose(x))
        && TablesMade(m0, mem, d, v, b)
    }

    lemma NoneMapped(d: nat, v: nat, w: nat, f: nat, perm: nat)
      requires Valid() && IsDir(use, d) && v <= w <= ALLPAGES && perm < PGSIZE && d < |mem|
      requires forall x: nat :: f <= x < f + UserEnd(w) - v ==> Loose(x)
      ensures MappedTo(d, v, v, w, f, perm, mem, Elems(free), use)
    {
      SameSelf(mem, d, v, v);
      assert Frames(f, v, v) == {} && Elems(free) + {} == Elems(free);
      assert TablesMade(mem, mem, d, v, v);
    }

    /** One turn of mappages' loop. */
    method MapTurn(d: nat, v: nat, a: nat, ghost w: nat, f: nat, perm: nat,
                   ghost m0: seq<Page>, ghost s0: set<nat>, ghost u0: map<nat, Use>)
      returns (r: Mapping)
      requires Valid() && IsDir(use, d) && d < |mem| == |m0| && v <= a < w <= ALLPAGES && perm < PGSIZE
      requires MappedTo(d, v, a, w, f, perm, m0, s0, u0)
      modifies this
      ensures Valid() && IsDir(use, d) && d < |mem| == |m0|
      ensures MappedTo(d, v, if r == Mapped then a + 1 else a, w, f, perm, m0, s0, u0)
      ensures r == Remap <==> Present(Pte(m0, d, a))
      ensures r == NoMemory <==> |old(free)| + Tables(m0, d, v, a) < Tables(m0, d, v, a + 1)
      ensures r == Mapped ==> |free| + Tables(m0, d, v, a + 1) == |old(free)| + Tables(m0, d, v, a)
      ensures r == NoMemory ==> free == []
    {
      assert TablesMade(m0, mem, d, v, a);
      var x := f + (a - v);
      ghost var s1 := Elems(free);
      assert SamePage(m0, mem, d, a);
      TableMissing(m0, mem, d, v, a);
      r := MapPage(d, a, x, perm);
      OthersTwice(m0, u0, old(mem), old(use), mem, use, d);
      if r == Mapped {
        TableNext(m0, old(mem), mem, d, v, a);
      } else if r == Remap {
        MappedHasTable(old(mem), d, a);
      }
      MapNext(m0, old(mem), mem, d, v, a, r == Mapped);
      MapTook(s0, u0, s1, old(use), Elems(free), use, d, v, a, f, r == Mapped);
    }

    /** mappages over n pages from v on; its user pages take over loose frames. Pages
        [v, done) get mapped: all of them, unless memory runs out or one is there already. */
    method Mappages(d: nat, v: nat, n: nat, f: nat, perm: nat) returns (r: Mapping, ghost done: nat)
      requires Valid() && IsDir(use, d) && 1 <= n && v + n <= ALLPAGES && perm < PGSIZE
      requires forall x: nat :: f <= x < f + UserEnd(v + n) - v ==> Loose(x)
      modifies this
      ensures Valid() && IsDir(use, d) && d < |mem| == |old(mem)|
      ensures v <= done <= v + n && (r == Mapped <==> done == v + n)
      ensures MappedTo(d, v, done, v + n, f, perm, old(mem), Elems(old(free)), old(use))
      ensures r == Remap ==> Present(Pte(old(mem), d, done))
      ensures r == NoMemory ==> free == [] && !Present(Pte(old(mem), d, done))
      ensures r == NoMemory ==> |old(free)| < Tables(old(mem), d, v, done + 1)
      ensures |old(free)| >= Tables(old(mem), d, v, done)
      ensures r == Mapped ==> |free| + Tables(old(mem), d, v, v + n) == |old(free)|
    {
      var a := v;
      NoneMapped(d, v, v + n, f, perm);
      while true
        invariant v <= a < v + n && Valid() && IsDir(use, d) && d < |mem| == |old(mem)|
        invariant MappedTo(d, v, a, v + n, f, perm, old(mem), Elems(old(free)), old(use))
        invariant |free| + Tables(old(mem), d, v, a) == |old(free)|
        decreases v + n - a
      {
        r := MapTurn(d, v, a, v + n, f, perm, old(mem), Elems(old(free)), old(use));
        if r != Mapped {
          return r, a;
        }
        if a == v + n - 1 {
          break;
        }
        a := a + 1;
      }
      done := v + n;
    }

    /** The part of deallocuvm's turn that gives back a mapped page: its frame goes on the
        free list, then the entry in table t is cleared. */
    method ClearPage(d: nat, v: nat, t: nat) returns (ok: bool)
      requires Valid() && IsDir(use, d) && v < USERPAGES && Present(Pde(mem, d, v / NPTENTRIES))
      requires t == FrameOf(Pde(mem, d, v / NPTENTRIES)) && Present(Pte(mem, d, v))
      modifies this
      ensures ok && Valid() && IsDir(use, d) && d < |mem| == |old(mem)|
      ensures OthersSame(old(mem), old(use), mem, use, d)
      ensures SameOutside(old(mem), mem, d, v, v + 1) && Pte(mem, d, v) == 0
      ensures var f := FrameOf(Pte(old(mem), d, v));
              && f in old(use) && old(use)[f] == User(d, v) && use == old(use) - {f}
                   && Elems(free) == Elems(old(free)) + {f}
    {
      assert PdeOk(mem, use, d, v / NPTENTRIES) && PteOk(mem, use, d, v);
      var f := FrameOf(mem[t][v % NPTENTRIES]);
      ghost var m1 := WithPte(mem, d, v, 0);
      UnmapUser(mem, use, d, v, f);
      use := use - {f};
      ok := Kfree(f);
      WritePage(m1, use, f, mem[f]);
      WriteElsewhere(m1, use, f, mem[f], d);
      assert mem[t] == old(mem)[t];
      ChainedElsewhere(mem, freelist, free, lo, PHYSTOP, t, mem[t][v % NPTENTRIES := 0]);
      mem := mem[t := mem[t][v % NPTENTRIES := 0]];
      assert mem == m1[f := mem[f]];
      SameWiden(m1, mem, d, 0, 0, v, v + 1);
      SameTwice(old(mem), m1, mem, d, v, v + 1);
      assert SamePage(m1, mem, d, v);
      assert forall g {:trigger g in use} :: g in use <==> g in old(use) && g != f;
      forall g | g in old(use) && !Owned(old(use)[g], g, d)
          ensures g in use && use[g] == old(use)[g] && mem[g] == old(mem)[g] {
        assert g in use && m1[g] == old(mem)[g];
      }
    }

    /** One turn of deallocuvm's loop at page v, which ends before page next: without a
        page table the loop moves to the next directory entry. */
    method DeallocTurn(d: nat, v: nat) returns (next: nat)
      requires Valid() && IsDir(use, d) && v < USERPAGES
      modifies this
      ensures Valid() && IsDir(use, d) && d < |mem| == |old(mem)| && v < next <= USERPAGES
      ensures OthersSame(old(mem), old(use), mem, use, d)
      ensures SameOutside(old(mem), mem, d, v, v + 1)
      ensures forall w: nat :: v <= w < next ==> !Present(Pte(mem, d, w))
      ensures forall w: nat :: v < w <= next ==> Gave(Elems(old(free)), old(use), Elems(free), use, d, v, w)
    {
      SameSelf(mem, d, v, v + 1);
      var t := Walkpgdir(d, v, false);
      if t == None {
        next := (v / NPTENTRIES + 1) * NPTENTRIES;
        forall w: nat | v <= w < next ensures !Present(Pte(mem, d, w)) {
          NoTable(mem, d, v, w);
        }
        forall w: nat | v < w <= next ensures Gave(Elems(free), use, Elems(free), use, d, v, w) {
          GaveNone(mem, Elems(free), use, d, v, w);
        }
      } else {
        next := v + 1;
        assert PdeOk(mem, use, d, v / NPTENTRIES);
        if Present(mem[t.value][v % NPTENTRIES]) {
          GaveOne(mem, Elems(free), use, d, v, FrameOf(Pte(mem, d, v)));
          var _ := ClearPage(d, v, t.value);
          assert FlagsOf(0) == 0;
        } else {
          GaveNone(mem, Elems(free), use, d, v, v + 1);
        }
      }
    }

    method Deallocuvm(d: nat, oldsz: nat, newsz: nat) returns (r: nat)
      requires Valid() && IsDir(use, d) && oldsz <= KERNBASE
      modifies this
      ensures r == if newsz >= oldsz then oldsz else newsz
      ensures Valid() && IsDir(use, d) && d < |mem| == |old(mem)|
      ensures OthersSame(old(mem), old(use), mem, use, d)
      ensures SameOutside(old(mem), mem, d, Pages(newsz), Pages(oldsz))
      ensures forall v: nat :: Pages(newsz) <= v < Pages(oldsz) ==> !Present(Pte(mem, d, v))
      ensures Gave(Elems(old(free)), old(use), Elems(free), use, d, Pages(newsz), Pages(oldsz))
    {
      ghost var p, q := Pages(newsz), Pages(oldsz);
      SameSelf(mem, d, p, q);
      if newsz >= oldsz {
        return oldsz;
      }
      var a := (newsz + PGSIZE - 1) / PGSIZE * PGSIZE;
      ghost var done: nat := p;
      while a < oldsz
        invariant a % PGSIZE == 0 && p <= done <= q && done <= a / PGSIZE && (done == a / PGSIZE || done == q)
        invariant a >= oldsz ==> done == q
        invariant Valid() && IsDir(use, d) && d < |mem| == |old(mem)|
        invariant OthersSame(old(mem), old(use), mem, use, d)
        invariant SameOutside(old(mem), mem, d, p, q)
        invariant forall v: nat :: p <= v < done ==> !Present(Pte(mem, d, v))
        invariant Gave(Elems(old(free)), old(use), Elems(free), use, d, p, done)
        decreases oldsz - a
      {
        ghost var m1, u1, s1 := mem, use, Elems(free);
        var next := DeallocTurn(d, a / PGSIZE);
        ghost var upto: nat := if next <= q then next else q;
        SameWiden(m1, mem, d, done, done + 1, p, q);
        SameTwice(old(mem), m1, mem, d, p, q);
        OthersTwice(old(mem), old(use), m1, u1, mem, use, d);
        GaveTwice(Elems(old(free)), old(use), s1, u1, Elems(free), use, d, p, done, upto);
        forall v: nat | p <= v < done ensures !Present(Pte(mem, d, v)) {
          assert SamePage(m1, mem, d, v);
        }
        a := next * PGSIZE;
        done := upto;
      }
      r := newsz;
    }

    /** freevm's loop and last step: the page tables of d, then d itself. The address space
        u of frames has already been struck out of the records. */
    method FreeTables(d: nat, ghost u: map<nat, Use>)
      requires Valid() && Consistent(mem, u) && IsDir(u, d) && use == u - Space(u, d)
      requires forall f {:trigger f in u} :: f in u ==> lo <= f < PHYSTOP && f !in free
      modifies this`mem, this`freelist, this`free
      ensures Valid() && |mem| == |old(mem)| && forall f {:trigger f in use} :: f in use ==> mem[f] == old(mem)[f]
      ensures forall f {:trigger f in free} :: f in free <==>
              f in old(free) || f == d || TableBelow(u, f, d, NPDENTRIES)
    {
      for i := 0 to NPDENTRIES
        invariant Valid() && |mem| == |old(mem)| && mem[d] == old(mem)[d]
        invariant forall f {:trigger f in use} :: f in use ==> mem[f] == old(mem)[f]
        invariant forall f {:trigger f in free} :: f in free <==> f in old(free) || TableBelow(u, f, d, i)
      {
        ghost var m1, s1 := mem, free;
        var pde := mem[d][i];
        assert pde == Pde(old(mem), d, i);
        assert PdeOk(old(mem), u, d, i);
        if Present(pde) {
          var t := FrameOf(pde);
          var _ := Kfree(t);
          WritePage(m1, use, t, mem[t]);
        }
        forall f ensures f in free <==> f in old(free) || TableBelow(u, f, d, i + 1) {
          TableStep(old(mem), u, d, i, f);
          assert f in free <==> f in s1 || (Present(pde) && f == FrameOf(pde));
        }
      }
      ghost var m2 := mem;
      var _ := Kfree(d);
      WritePage(m2, use, d, mem[d]);
    }

    method Freevm(d: nat)
      requires Valid() && IsDir(use, d)
      modifies this
      ensures Valid() && |mem| == |old(mem)| && OthersSame(old(mem), old(use), mem, use, d)
      ensures use == old(use) - Space(old(use), d)
      ensures Elems(free) == Elems(old(free)) + Space(old(use), d)
    {
      forall f | f in use && use[f].User? ensures use[f].vpn < USERPAGES {
        assert UseOk(mem, use, f);
      }
      var _ := Deallocuvm(d, KERNBASE, 0);
      ghost var m1, u1, s1 := mem, use, Elems(free);
      DropSpace(mem, use, d);
      use := use - Space(use, d);
      FreeTables(d, u1);
      forall f | f in u1 && !Owned(u1[f], f, d) ensures f in use && use[f] == u1[f] && mem[f] == m1[f] {
        assert f in u1 - Space(u1, d);
      }
      SpaceFreed(Elems(old(free)), old(use), m1, s1, u1, Elems(free), d);
      OthersTwice(old(mem), old(use), m1, u1, mem, use, d);
    }

    /** The first k rows of the kernel map are in place in d, and nothing else. */
    ghost predicate RowsDone(d: nat, k: nat)
      requires Valid() && d < |mem| && k <= 4
      reads this
    {
      forall v: nat {:trigger Pte(mem, d, v)} :: v < ALLPAGES ==>
        Pte(mem, d, v) == if v < RowsEnd(kdata, k) then KernelPte(kdata, v) else 0
    }

    method MapRow(d: nat, k: nat) returns (r: Mapping)
      requires Valid() && IsDir(use, d) && k < 4 && RowsDone(d, k) && RowDirs(mem, d, kdata, k)
      modifies this
      ensures Valid() && IsDir(use, d) && d < |mem| == |old(mem)|
      ensures OthersSame(old(mem), old(use), mem, use, d)
      ensures r != Remap && (r == Mapped ==> RowsDone(d, k + 1) && RowDirs(mem, d, kdata, k + 1))
      ensures r == Mapped ==> |free| + RowTables(kdata, k + 1) == |old(free)| + RowTables(kdata, k)
      ensures r == NoMemory ==> |old(free)| + RowTables(kdata, k) < RowTables(kdata, k + 1)
      ensures Took(Elems(old(free)), old(use), Elems(free), use, d, 0, 0)
    {
      KmapRow(kdata, k, 0);
      RowNeeds(mem, d, kdata, k);
      RowUnmapped(d, k);
      r := MapKernelRange(d, Kmap(kdata)[k]);
      if r == Mapped {
        RowMakes(old(mem), mem, d, kdata, k);
        RowPtes(old(mem), mem, d, kdata, k);
      }
    }

    lemma RowUnmapped(d: nat, k: nat)
      requires Valid() && d < |mem| && k < 4 && RowsDone(d, k)
      ensures Clean(mem, d, Kmap(kdata)[k].v, Kmap(kdata)[k].v + Kmap(kdata)[k].n)
    {
      KmapRow(kdata, k, 0);
      assert FlagsOf(0) == 0;
    }

    /** mappages on a row of kernel pages none of which is mapped. */
    method MapKernelRange(d: nat, row: Row) returns (r: Mapping)
      requires Valid() && IsDir(use, d) && d < |mem| && USERPAGES <= row.v && 1 <= row.n && row.v + row.n <= ALLPAGES
      requires row.perm < PGSIZE && Clean(mem, d, row.v, row.v + row.n)
      modifies this
      ensures Valid() && IsDir(use, d) && d < |mem| == |old(mem)|
      ensures OthersSame(old(mem), old(use), mem, use, d) && r != Remap
      ensures Took(Elems(old(free)), old(use), Elems(free), use, d, 0, 0)
      ensures r == NoMemory ==> |old(free)| < Tables(old(mem), d, row.v, row.v + row.n)
      ensures r == Mapped ==> |free| + Tables(old(mem), d, row.v, row.v + row.n) == |old(free)|
      ensures r == Mapped ==>
                && TablesMade(old(mem), mem, d, row.v, row.v + row.n)
                && SameOutside(old(mem), mem, d, row.v, row.v + row.n)
                && forall v: nat :: row.v <= v < row.v + row.n ==> Pte(mem, d, v) == Entry(row.f + v - row.v, row.perm)
    {
      ghost var done;
      r, done := Mappages(d, row.v, row.n, row.f, row.perm);
      assert TablesMade(old(mem), mem, d, row.v, done);
      KernelFrames(row.f, row.v, done);
      assert Elems(old(free)) + {} == Elems(old(free));
      if r == NoMemory {
        TablesGrows(old(mem), d, row.v, done + 1, row.v + row.n);
      }
    }

    method Setupkvm() returns (r: Option<nat>)
      requires Valid()
      modifies this
      ensures Valid() && |mem| == |old(mem)|
      ensures r == None <==> |old(free)| < KFRAMES
      ensures r == None ==>
                use == old(use) && Elems(free) == Elems(old(free)) && forall f :: f in use ==> mem[f] == old(mem)[f]
      ensures r.Some? ==> r.value in old(free) && IsDir(use, r.value) && r.value < |mem|
      ensures r.Some? ==> |free| + KFRAMES == |old(free)| && RowDirs(mem, r.value, kdata, 4)
      ensures r.Some? ==> Took(Elems(old(free)) - {r.value}, old(use)[r.value := Dir], Elems(free), use, r.value, 0, 0)
      ensures r.Some? ==> OthersSame(old(mem), old(use), mem, use, r.value)
      ensures r.Some? ==> forall v: nat :: v < ALLPAGES ==> Pte(mem, r.value, v) == KernelPte(kdata, v)
    {
      r := Kalloc();
      if r == None {
        return;
      }
      var d := r.value;
      ChainedElsewhere(mem, freelist, free, lo, PHYSTOP, d, ZEROS);
      AddDir(mem, use, d);
      mem := mem[d := ZEROS];
      use := use[d := Dir];
      NothingBuilt(d, old(mem), old(free), old(use));
      for k := 0 to 4
        invariant Valid() && IsDir(use, d) && d < |mem| == |old(mem)| && Built(d, k, old(mem), old(free), old(use))
      {
        var mapped := BuildRow(d, k, old(mem), old(free), old(use));
        if mapped != Mapped {
          return None;
        }
      }
      assert RowDirs(mem, d, kdata, 4);
    }

    /** Since (m0, f0, u0), d is a new space with the first k rows of the kernel map and
        nothing else. The outer quantifier keeps this folded in the proof of the loop. */
    ghost predicate Built(d: nat, k: nat, m0: seq<Page>, f0: seq<nat>, u0: map<nat, Use>)
      requires Valid() && d < |mem| == |m0| && k <= 4
      reads this
    {
      && |free| + 1 + RowTables(kdata, k) == |f0|
      && forall x: nat {:trigger RowDirs(mem, d, kdata, x)} :: x == k ==>
           && RowDirs(mem, d, kdata, x) && RowsDone(d, x) && OthersSame(m0, u0, mem, use, d)
           && Took(Elems(f0) - {d}, u0[d := Dir], Elems(free), use, d, 0, 0)
    }

    lemma NothingBuilt(d: nat, m0: seq<Page>, f0: seq<nat>, u0: map<nat, Use>)
      requires Valid() && d < |mem| == |m0| && |free| + 1 == |f0| && mem == m0[d := ZEROS] && use == u0[d := Dir]
      requires OthersSame(m0, u0, mem, use, d)
      requires Took(Elems(f0) - {d}, u0[d := Dir], Elems(free), use, d, 0, 0)
      ensures Built(d, 0, m0, f0, u0)
    {
      assert FlagsOf(0) == 0;
      forall i: nat | i < NPDENTRIES ensures !HasTable(mem, d, i) {
      }
      assert RowDirs(mem, d, kdata, 0);
    }

    /** One turn of setupkvm's loop; out of memory the whole space is given back. */
    method BuildRow(d: nat, k: nat, ghost m0: seq<Page>, ghost f0: seq<nat>,
                    ghost u0: map<nat, Use>) returns (r: Mapping)
      requires Valid() && IsDir(use, d) && d < |mem| == |m0| && k < 4 && Built(d, k, m0, f0, u0)
      requires Consistent(m0, u0) && d in f0 && d !in u0 && Elems(f0) !! u0.Keys
      modifies this
      ensures Valid() && |mem| == |m0| && r != Remap
      ensures r == Mapped ==> IsDir(use, d) && d < |mem| && Built(d, k + 1, m0, f0, u0)
      ensures r == NoMemory ==> |f0| < KFRAMES
      ensures r == NoMemory ==> use == u0 && Elems(free) == Elems(f0) && forall f :: f in use ==> mem[f] == m0[f]
    {
      assert RowDirs(mem, d, kdata, k);
      RowNeeds(mem, d, kdata, k);
      r := MapRow(d, k);
      OthersTwice(m0, u0, old(mem), old(use), mem, use, d);
      TookTwice(Elems(f0) - {d}, u0[d := Dir], Elems(old(free)), old(use), Elems(free), use, d, 0, 0, 0);
      if r != Mapped {
        Discard(d, m0, f0, u0, 0, 0);
      }
    }

    /** freevm on a space built since (m0, f0, u0) from frames that were free then. */
    method Discard(d: nat, ghost m0: seq<Page>, ghost f0: seq<nat>, ghost u0: map<nat, Use>, ghost a: nat, ghost b: nat)
      requires Valid() && IsDir(use, d) && |m0| == |mem| && Consistent(m0, u0) && OthersSame(m0, u0, mem, use, d)
      requires d in f0 && d !in u0 && Elems(f0) !! u0.Keys
      requires Took(Elems(f0) - {d}, u0[d := Dir], Elems(free), use, d, a, b)
      modifies this
      ensures Valid() && |mem| == |m0|
      ensures use == u0 && Elems(free) == Elems(f0) && forall f :: f in use ==> mem[f] == m0[f]
    {
      SpaceUndone(m0, Elems(f0), u0, Elems(free), use, d, a, b);
      ghost var m1, u1 := mem, use;
      Freevm(d);
      OthersTwice(m0, u0, m1, u1, mem, use, d);
      forall f | f in use ensures mem[f] == m0[f] {
        assert UseOk(m0, u0, f);
      }
    }

    /** A fresh frame filled with p and mapped at user page v of d. If page tables run out
        the frame is left loose in f. */
    method NewPage(d: nat, v: nat, p: Page, perm: nat) returns (r: Mapping, f: Option<nat>)
      requires Valid() && IsDir(use, d) && v < USERPAGES && perm < PGSIZE
      modifies this
      ensures Valid() && IsDir(use, d) && d < |mem| == |old(mem)|
      ensures OthersSame(old(mem), old(use), mem, use, d)
      ensures r == NoMemory <==> |old(free)| < 1 + Missing(old(mem), d, v)
      ensures r == Remap <==> Present(Pte(old(mem), d, v)) && old(free) != []
      ensures r == Mapped ==> TablesAfter(old(mem), mem, d, v) && |free| + 1 + Missing(old(mem), d, v) == |old(free)|
      ensures r == Mapped ==> SameOutside(old(mem), mem, d, v, v + 1) && !Present(Pte(old(mem), d, v))
      ensures r == Mapped ==> Holds(mem, d, v, if perm % 2 == 1 then perm else perm + 1, p, Elems(old(free)))
      ensures r == Mapped ==> Took(Elems(old(free)), old(use), Elems(free), use, d, v, v + 1)
      ensures r == NoMemory ==> SameOutside(old(mem), mem, d, 0, 0) && (f.Some? ==> Loose(f.value))
      ensures r == NoMemory ==>
                Took(Elems(old(free)), old(use), Elems(free) + (if f.Some? then {f.value} else {}), use, d, 0, 0)
    {
      SameSelf(mem, d, 0, 0);
      f := Kalloc();
      if f == None {
        return NoMemory, f;
      }
      ChainedElsewhere(mem, freelist, free, lo, PHYSTOP, f.value, p);
      WritePage(mem, use, f.value, p);
      WriteElsewhere(mem, use, f.value, p, d);
      mem := mem[f.value := p];
      ghost var m1, s1 := mem, Elems(free);
      assert SamePage(old(mem), m1, d, v);
      assert forall i: nat {:trigger HasTable(m1, d, i)} :: i < NPDENTRIES ==>
          HasTable(m1, d, i) == HasTable(old(mem), d, i);
      if Present(Pte(m1, d, v)) {
        MappedHasTable(m1, d, v);
      }
      r := MapPage(d, v, f.value, perm);
      OthersTwice(old(mem), old(use), m1, old(use), mem, use, d);
      SameWiden(old(mem), m1, d, 0, 0, v, v + 1);
      if r == Mapped {
        SameTwice(old(mem), m1, mem, d, v, v + 1);
      } else {
        SameTwice(old(mem), m1, mem, d, 0, 0);
        TookBeside(s1, old(use), Elems(free), use, d, f.value);
      }
    }

    /** What allocuvm does when memory runs out: the pages so far, then the frame in hand. */
    method GiveUp(d: nat, oldsz: nat, newsz: nat, f: Option<nat>)
      requires Valid() && IsDir(use, d) && oldsz <= newsz < KERNBASE && (f.Some? ==> Loose(f.value))
      modifies this
      ensures Valid() && IsDir(use, d) && d < |mem| == |old(mem)|
      ensures OthersSame(old(mem), old(use), mem, use, d)
      ensures SameOutside(old(mem), mem, d, Pages(oldsz), Pages(newsz))
      ensures forall v: nat :: Pages(oldsz) <= v < Pages(newsz) ==> !Present(Pte(mem, d, v))
      ensures Gave(Elems(old(free)) + (if f.Some? then {f.value} else {}), old(use), Elems(free), use, d,
                   Pages(oldsz), Pages(newsz))
    {
      ghost var x := if f.Some? then {f.value} else {};
      var _ := Deallocuvm(d, newsz, oldsz);
      GaveBeside(Elems(old(free)), old(use), Elems(free), use, d, Pages(oldsz), Pages(newsz), x);
      if f.Some? {
        ghost var m1 := mem;
        var _ := Kfree(f.value);
        WritePage(m1, use, f.value, mem[f.value]);
        WriteElsewhere(m1, use, f.value, mem[f.value], d);
        OthersWrite(m1, use, f.value, mem[f.value], d);
        OthersTwice(old(mem), old(use), m1, use, mem, use, d);
        SameWiden(m1, mem, d, 0, 0, Pages(oldsz), Pages(newsz));
        SameTwice(old(mem), m1, mem, d, Pages(oldsz), Pages(newsz));
        forall v: nat | Pages(oldsz) <= v < Pages(newsz) ensures !Present(Pte(mem, d, v)) {
          assert SamePage(m1, mem, d, v);
        }
      }
    }

    /** Since (m0, u0), when s0 were the free frames, d has gained zeroed pages [p, v),
        none of which it had, and nothing else has changed. The outer quantifier keeps this
        folded in the proof of the loop. */
    ghost predicate Grown(d: nat, m0: seq<Page>, s0: set<nat>, u0: map<nat, Use>, p: nat, v: nat, q: nat)
      requires d < |mem| == |m0| && p <= v <= q <= USERPAGES
      reads this
    {
      forall x: nat {:trigger TablesMade(m0, mem, d, p, x)} :: x == v ==>
        && TablesMade(m0, mem, d, p, x)
        && OthersSame(m0, u0, mem, use, d) && SameOutside(m0, mem, d, p, q)
        && (forall w: nat :: p <= w < x && w < q ==> Holds(mem, d, w, 7, ZEROS, s0))
        && (forall w: nat :: x <= w < q ==> Pte(mem, d, w) == Pte(m0, d, w))
        && Clean(m0, d, p, x) && Took(s0, u0, Elems(free), use, d, p, x)
    }

    /** What is left of pages [p, q) when allocuvm gives up: none of them, and no frame is
        lost. If there was none before, only page tables have been taken. */
    ghost predicate Shrunk(d: nat, m0: seq<Page>, s0: set<nat>, u0: map<nat, Use>, p: nat, q: nat)
      requires d < |mem| == |m0| && q <= USERPAGES
      reads this
    {
      && OthersSame(m0, u0, mem, use, d) && SameOutside(m0, mem, d, p, q) && Clean(mem, d, p, q)
      && Elems(free) + use.Keys == s0 + u0.Keys
      && (Clean(m0, d, p, q) ==> Took(s0, u0, Elems(free), use, d, 0, 0))
    }

    /** One turn of allocuvm's loop, at page v: on with the next, out of memory with
        everything given back, or mappages' panic over a page that is there already. */
    method AllocTurn(d: nat, v: nat, oldsz: nat, newsz: nat, ghost n0: nat, ghost m0: seq<Page>, ghost s0: set<nat>,
                     ghost u0: map<nat, Use>)
      returns (r: Mapping)
      requires Valid() && IsDir(use, d) && d < |mem| == |m0| && Pages(oldsz) <= v < Pages(newsz)
               && oldsz <= newsz < KERNBASE
      requires Grown(d, m0, s0, u0, Pages(oldsz), v, Pages(newsz))
      requires Consistent(m0, u0) && s0 !! u0.Keys && |free| + Need(m0, d, Pages(oldsz), v) == n0
      modifies this
      ensures Valid() && IsDir(use, d) && d < |mem| == |m0|
      ensures r == NoMemory ==> n0 < AllocNeed(m0, d, Pages(oldsz), Pages(newsz))
      ensures r == Remap ==>
                AllocNeed(m0, d, Pages(oldsz), Pages(newsz)) <= n0 && !Clean(m0, d, Pages(oldsz), Pages(newsz))
      ensures r == Mapped ==> |free| + Need(m0, d, Pages(oldsz), v + 1) == n0
      ensures r == Mapped ==> Grown(d, m0, s0, u0, Pages(oldsz), v + 1, Pages(newsz))
      ensures r == NoMemory ==> Shrunk(d, m0, s0, u0, Pages(oldsz), Pages(newsz))
    {
      ghost var p, q := Pages(oldsz), Pages(newsz);
      var f;
      assert TablesMade(m0, mem, d, p, v);
      AllocDecides(m0, mem, d, p, v, q, |free|, n0);
      r, f := NewPage(d, v, ZEROS, PTE_W + PTE_U);
      OthersTwice(m0, u0, old(mem), old(use), mem, use, d);
      if r == Mapped {
        TableNext(m0, old(mem), mem, d, p, v);
        AllocNext(m0, old(mem), mem, d, p, v, q, s0, Elems(old(free)));
        TookNext(s0, u0, Elems(old(free)), old(use), Elems(free), use, d, p, v);
      } else if r == NoMemory {
        SameWiden(old(mem), mem, d, 0, 0, p, q);
        SameTwice(m0, old(mem), mem, d, p, q);
        TookOn(s0, u0, Elems(old(free)), old(use), Elems(free) + (if f.Some? then {f.value} else {}), use, d, p, v);
        AllocFail(d, v, oldsz, newsz, f, m0, s0, u0);
      }
    }

    /** The failing end of that turn, with frame f in hand. */
    method AllocFail(d: nat, ghost v: nat, oldsz: nat, newsz: nat, f: Option<nat>, ghost m0: seq<Page>,
                     ghost s0: set<nat>,
                     ghost u0: map<nat, Use>)
      requires Valid() && IsDir(use, d) && d < |mem| == |m0| && Pages(oldsz) <= v < Pages(newsz)
      requires oldsz <= newsz < KERNBASE && (f.Some? ==> Loose(f.value))
      requires Consistent(m0, u0) && s0 !! u0.Keys && OthersSame(m0, u0, mem, use, d)
      requires SameOutside(m0, mem, d, Pages(oldsz), Pages(newsz))
      requires Took(s0, u0, Elems(free) + (if f.Some? then {f.value} else {}), use, d, Pages(oldsz), v)
      modifies this
      ensures Valid() && IsDir(use, d) && d < |mem| == |m0|
      ensures Shrunk(d, m0, s0, u0, Pages(oldsz), Pages(newsz))
    {
      ghost var p, q := Pages(oldsz), Pages(newsz);
      ghost var m2, u2, s2 := mem, use, Elems(free) + (if f.Some? then {f.value} else {});
      GiveUp(d, oldsz, newsz, f);
      SameTwice(m0, m2, mem, d, p, q);
      OthersTwice(m0, u0, m2, u2, mem, use, d);
      GivenUp(m0, s0, u0, s2, u2, Elems(free), use, d, p, v, q);
    }

    /** allocuvm's loop: all pages mapped, out of memory, or mappages' panic. */
    method AllocPages(d: nat, oldsz: nat, newsz: nat) returns (r: Mapping)
      requires Valid() && IsDir(use, d) && oldsz <= newsz < KERNBASE
      modifies this
      ensures Valid() && IsDir(use, d) && d < |mem| == |old(mem)|
      ensures r != NoMemory <==> AllocNeed(old(mem), d, Pages(oldsz), Pages(newsz)) <= |old(free)|
      ensures r == Remap ==> !Clean(old(mem), d, Pages(oldsz), Pages(newsz))
      ensures r == Mapped ==> Grown(d, old(mem), Elems(old(free)), old(use), Pages(oldsz), Pages(newsz), Pages(newsz))
      ensures r == Mapped ==> |free| + Need(old(mem), d, Pages(oldsz), Pages(newsz)) == |old(free)|
      ensures r == NoMemory ==> Shrunk(d, old(mem), Elems(old(free)), old(use), Pages(oldsz), Pages(newsz))
    {
      var a := (oldsz + PGSIZE - 1) / PGSIZE * PGSIZE;
      NoneGrown(d, Pages(oldsz), Pages(newsz));
      while a < newsz
        invariant a % PGSIZE == 0 && Pages(oldsz) <= a / PGSIZE <= Pages(newsz)
                  && (a >= newsz ==> a / PGSIZE == Pages(newsz))
        invariant Valid() && IsDir(use, d) && d < |mem| == |old(mem)|
        invariant Grown(d, old(mem), Elems(old(free)), old(use), Pages(oldsz), a / PGSIZE, Pages(newsz))
        invariant |free| + Need(old(mem), d, Pages(oldsz), a / PGSIZE) == |old(free)|
      {
        r := AllocTurn(d, a / PGSIZE, oldsz, newsz, |old(free)|, old(mem), Elems(old(free)), old(use));
        if r != Mapped {
          return;
        }
        a := a + PGSIZE;
      }
      assert TablesMade(old(mem), mem, d, Pages(oldsz), Pages(newsz));
      StopAt(old(mem), d, Pages(oldsz), Pages(newsz), Pages(newsz));
      r := Mapped;
    }

    lemma NoneGrown(d: nat, p: nat, q: nat)
      requires Valid() && IsDir(use, d) && d < |mem| && p <= q <= USERPAGES
      ensures Grown(d, mem, Elems(free), use, p, p, q)
    {
      SameSelf(mem, d, p, q);
      assert TablesMade(mem, mem, d, p, p);
    }

    /** allocuvm. `ok` is success, `panicked` mappages' panic("remap"); it runs out of
        memory exactly if there are fewer frames than the pages and their tables need. */
    method Allocuvm(d: nat, oldsz: nat, newsz: nat) returns (r: nat, ghost ok: bool, panicked: bool)
      requires Valid() && IsDir(use, d)
      modifies this
      ensures Valid() && IsDir(use, d) && d < |mem| == |old(mem)|
      ensures r == if !ok then 0 else if newsz < oldsz then oldsz else newsz
      ensures newsz >= KERNBASE ==> !ok && !panicked && mem == old(mem) && use == old(use) && free == old(free)
      ensures newsz < oldsz && newsz < KERNBASE ==>
                ok && !panicked && mem == old(mem) && use == old(use) && free == old(free)
      ensures oldsz <= newsz < KERNBASE ==>
                && (ok || panicked <==> AllocNeed(old(mem), d, Pages(oldsz), Pages(newsz)) <= |old(free)|)
                && (panicked ==> !ok && !Clean(old(mem), d, Pages(oldsz), Pages(newsz)))
                && (ok ==>
                      && Clean(old(mem), d, Pages(oldsz), Pages(newsz))
                      && Grown(d, old(mem), Elems(old(free)), old(use), Pages(oldsz), Pages(newsz), Pages(newsz)))
                && (!ok && !panicked ==>
                      Shrunk(d, old(mem), Elems(old(free)), old(use), Pages(oldsz), Pages(newsz)))
    {
      if newsz >= KERNBASE {
        return 0, false, false;
      }
      if newsz < oldsz {
        return oldsz, true, false;
      }
      var m := AllocPages(d, oldsz, newsz);
      if m == Mapped {
        assert TablesMade(old(mem), mem, d, Pages(oldsz), Pages(newsz));
        return newsz, true, false;
      }
      return 0, false, m == Remap;
    }

    /** Since (m0, f0, u0), d is a new space that holds copies of pages [0, v) of e and the
        kernel's pages; everything else is as it was. The outer quantifier keeps this folded
        in the proof of the loop. */
    ghost predicate Copied(d: nat, e: nat, m0: seq<Page>, f0: seq<nat>, u0: map<nat, Use>, v: nat)
      requires d < |mem| == |m0| && e < |m0| && v <= USERPAGES
      reads this
    {
      && |free| + CopyNeed(v) == |f0| && d in f0
      && forall x: nat {:trigger UserDirs(mem, d, x)} :: x == v ==>
           && OthersSame(m0, u0, mem, use, d) && UserDirs(mem, d, x)
           && (forall w: nat :: w < x ==> CopyOf(mem, d, m0, e, w, Elems(f0)))
           && (forall w: nat :: x <= w < ALLPAGES ==> Pte(mem, d, w) == KernelPte(kdata, w))
           && Took(Elems(f0) - {d}, u0[d := Dir], Elems(free), use, d, 0, x)
    }

    /** The entry of user page v in e, if the page is there. */
    method Lookup(e: nat, v: nat) returns (r: Option<nat>)
      requires Valid() && IsDir(use, e) && v < USERPAGES
      modifies this
      ensures mem == old(mem) && free == old(free) && use == old(use) && freelist == old(freelist)
      ensures r == if Present(Pte(mem, e, v)) then Some(Pte(mem, e, v)) else None
      ensures r.Some? ==> FrameOf(r.value) < |mem|
    {
      assert FlagsOf(0) == 0;
      var t := Walkpgdir(e, v, false);
      if t == None {
        return None;
      }
      assert PdeOk(mem, use, e, v / NPTENTRIES) && PteOk(mem, use, e, v);
      var pte := mem[t.value][v % NPTENTRIES];
      r := if Present(pte) then Some(pte) else None;
    }

    /** copyuvm's failure: the frame in hand, then the whole new space. */
    method CopyFail(d: nat, f: Option<nat>, ghost m0: seq<Page>, ghost f0: seq<nat>, ghost u0: map<nat, Use>,
                    ghost v: nat)
      requires Valid() && IsDir(use, d) && |m0| == |mem| && Consistent(m0, u0) && OthersSame(m0, u0, mem, use, d)
      requires d in f0 && Elems(f0) !! u0.Keys && (f.Some? ==> Loose(f.value))
      requires Took(Elems(f0) - {d}, u0[d := Dir], Elems(free) + (if f.Some? then {f.value} else {}), use, d, 0, v)
      modifies this
      ensures Valid() && |mem| == |m0|
      ensures use == u0 && Elems(free) == Elems(f0) && forall f :: f in use ==> mem[f] == m0[f]
    {
      if f.Some? {
        var _ := Kfree(f.value);
        WritePage(old(mem), use, f.value, mem[f.value]);
        OthersWrite(old(mem), use, f.value, mem[f.value], d);
        OthersTwice(m0, u0, old(mem), use, mem, use, d);
      }
      Discard(d, m0, f0, u0, 0, v);
    }

    /** The pages copied so far were there: the first that is missing comes later, and
        takes the frames for page v if v is there too. */
    lemma NotYetMissing(d: nat, e: nat, m0: seq<Page>, f0: seq<nat>, u0: map<nat, Use>, v: nat, q: nat)
      requires d < |mem| == |m0| && e < |m0| && v <= q <= USERPAGES && Copied(d, e, m0, f0, u0, v)
      ensures var w := FirstMissing(m0, e, 0, q);
              && v <= w && (v < q && Present(Pte(m0, e, v)) ==> CopyNeed(v + 1) <= CopyNeed(w))
              && (v == q || !Present(Pte(m0, e, v)) ==> w == v)
    {
      assert UserDirs(mem, d, v);
      forall w: nat | w < v ensures Present(Pte(m0, e, w)) {
        assert CopyOf(mem, d, m0, e, w, Elems(f0));
      }
      if v < q && Present(Pte(m0, e, v)) {
        CopyNeedGrows(v + 1, FirstMissing(m0, e, 0, q));
      }
    }

    /** One turn of copyuvm's loop: Panic, Failed after giving everything back, or go on. */
    method CopyTurn(d: nat, e: nat, v: nat, ghost m0: seq<Page>, ghost f0: seq<nat>,
                    ghost u0: map<nat, Use>) returns (r: Copy)
      requires Valid() && IsDir(use, d) && d < |mem| == |m0| && e < |m0| && v < USERPAGES
      requires Copied(d, e, m0, f0, u0, v) && Consistent(m0, u0) && IsDir(u0, e) && Elems(f0) !! u0.Keys
      modifies this
      ensures r == Panic <==> !Present(Pte(m0, e, v))
      ensures r == Failed ==> |f0| < CopyNeed(v + 1)
      ensures r != Panic ==> Valid() && |mem| == |m0|
      ensures r.Child? ==> r.dir == d && IsDir(use, d) && Copied(d, e, m0, f0, u0, v + 1)
      ensures r == Failed ==> use == u0 && Elems(free) == Elems(f0) && forall f :: f in use ==> mem[f] == m0[f]
    {
      assert UserDirs(mem, d, v);
      OthersPages(m0, u0, mem, use, d, e);
      assert SamePage(m0, mem, e, v) && PteOk(m0, u0, e, v);
      var l := Lookup(e, v);
      if l == None {
        return Panic;
      }
      var pte := l.value;
      assert FlagsOf(0) == 0;
      CopyNeedNext(mem, d, v);
      var m, f := NewPage(d, v, mem[FrameOf(pte)], FlagsOf(pte));
      OthersTwice(m0, u0, old(mem), old(use), mem, use, d);
      if m == Mapped {
        UserDirsNext(old(mem), mem, d, v);
        CopyNext(old(mem), mem, d, m0, e, v, kdata, Elems(f0));
        TookNext(Elems(f0) - {d}, u0[d := Dir], Elems(old(free)), old(use), Elems(free), use, d, 0, v);
        return Child(d);
      }
      ghost var x := if f.Some? then {f.value} else {};
      TookOn(Elems(f0) - {d}, u0[d := Dir], Elems(old(free)), old(use), Elems(free) + x, use, d, 0, v);
      CopyFail(d, f, m0, f0, u0, v);
      return Failed;
    }

    method Copyuvm(e: nat, sz: nat) returns (r: Copy)
      requires Valid() && IsDir(use, e) && sz <= KERNBASE
      modifies this
      ensures r == Failed <==> |old(free)| < CopyNeed(FirstMissing(old(mem), e, 0, Pages(sz)))
      ensures r == Panic ==> FirstMissing(old(mem), e, 0, Pages(sz)) < Pages(sz)
      ensures r.Child? ==> FirstMissing(old(mem), e, 0, Pages(sz)) == Pages(sz)
      ensures r != Panic ==> Valid() && e < |mem| == |old(mem)|
      ensures r == Failed ==>
                use == old(use) && Elems(free) == Elems(old(free)) && forall f :: f in use ==> mem[f] == old(mem)[f]
      ensures r.Child? ==> IsDir(use, r.dir) && r.dir < |mem| && r.dir != e && IsDir(use, e)
      ensures r.Child? ==> Copied(r.dir, e, old(mem), old(free), old(use), Pages(sz))
      ensures r.Child? ==> SameOutside(old(mem), mem, e, 0, 0)
    {
      CopyNeedGrows(0, FirstMissing(mem, e, 0, Pages(sz)));
      var k := Setupkvm();
      if k == None {
        return Failed;
      }
      NothingCopied(k.value, e, old(mem), old(free), old(use));
      r := CopyPages(k.value, e, sz, old(mem), old(free), old(use));
      if r.Child? {
        assert UserDirs(mem, k.value, Pages(sz));
        OthersPages(old(mem), old(use), mem, use, k.value, e);
      }
    }

    lemma NothingCopied(d: nat, e: nat, m0: seq<Page>, f0: seq<nat>, u0: map<nat, Use>)
      requires Valid() && d < |mem| == |m0| && e < |m0| && d in f0 && |free| + KFRAMES == |f0|
      requires RowDirs(mem, d, kdata, 4) && OthersSame(m0, u0, mem, use, d)
      requires Took(Elems(f0) - {d}, u0[d := Dir], Elems(free), use, d, 0, 0)
      requires forall v: nat :: v < ALLPAGES ==> Pte(mem, d, v) == KernelPte(kdata, v)
      ensures Copied(d, e, m0, f0, u0, 0)
    {
      forall i: nat | i < USERPAGES / NPTENTRIES ensures !HasTable(mem, d, i) {
        assert HasTable(mem, d, i) <==> RowDir(kdata, 4, i);
      }
      assert UserDirs(mem, d, 0);
    }

    /** The same turn, in terms of the first page that is missing below q. */
    method CopyNextPage(d: nat, e: nat, v: nat, ghost q: nat, ghost m0: seq<Page>, ghost f0: seq<nat>,
                        ghost u0: map<nat, Use>)
      returns (r: Copy)
      requires Valid() && IsDir(use, d) && d < |mem| == |m0| && e < |m0| && v < q <= USERPAGES
      requires Copied(d, e, m0, f0, u0, v) && Consistent(m0, u0) && IsDir(u0, e) && Elems(f0) !! u0.Keys
      modifies this
      ensures r == Failed ==> |f0| < CopyNeed(FirstMissing(m0, e, 0, q))
      ensures r == Panic ==> FirstMissing(m0, e, 0, q) == v && CopyNeed(v) <= |f0|
      ensures r != Panic ==> Valid() && |mem| == |m0|
      ensures r.Child? ==> r.dir == d && IsDir(use, d) && d < |mem| && Copied(d, e, m0, f0, u0, v + 1)
      ensures r == Failed ==> use == u0 && Elems(free) == Elems(f0) && forall f :: f in use ==> mem[f] == m0[f]
    {
      NotYetMissing(d, e, m0, f0, u0, v, q);
      r := CopyTurn(d, e, v, m0, f0, u0);
    }

    /** copyuvm's loop. */
    method CopyPages(d: nat, e: nat, sz: nat, ghost m0: seq<Page>, ghost f0: seq<nat>, ghost u0: map<nat, Use>)
      returns (r: Copy)
      requires Valid() && IsDir(use, d) && d < |mem| == |m0| && e < |m0| && sz <= KERNBASE
      requires Copied(d, e, m0, f0, u0, 0) && Consistent(m0, u0) && IsDir(u0, e) && Elems(f0) !! u0.Keys
      modifies this
      ensures r == Failed <==> |f0| < CopyNeed(FirstMissing(m0, e, 0, Pages(sz)))
      ensures r == Panic ==> FirstMissing(m0, e, 0, Pages(sz)) < Pages(sz)
      ensures r.Child? ==> FirstMissing(m0, e, 0, Pages(sz)) == Pages(sz)
      ensures r != Panic ==> Valid() && |mem| == |m0|
      ensures r.Child? ==> r.dir == d && IsDir(use, d) && d < |mem| && Copied(d, e, m0, f0, u0, Pages(sz))
      ensures r == Failed ==> use == u0 && Elems(free) == Elems(f0) && forall f :: f in use ==> mem[f] == m0[f]
    {
      var i := 0;
      while i < sz
        invariant i % PGSIZE == 0 && i / PGSIZE <= Pages(sz) && (i >= sz ==> i / PGSIZE == Pages(sz))
        invariant Valid() && IsDir(use, d) && d < |mem| == |m0|
        invariant Copied(d, e, m0, f0, u0, i / PGSIZE)
      {
        r := CopyNextPage(d, e, i / PGSIZE, Pages(sz), m0, f0, u0);
        if !r.Child? {
          return;
        }
        i := i + PGSIZE;
      }
      NotYetMissing(d, e, m0, f0, u0, Pages(sz), Pages(sz));
      return Child(d);
    }
  }
}
