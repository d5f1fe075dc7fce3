/** Two-level page tables over a pool of physical frames: what kernel/vm.c builds in
  memory, and who uses each frame.
 */
module VmModel {

  const NPDENTRIES: nat := 1024
  const NPTENTRIES: nat := 1024
  const PGSIZE: nat := 4096
  const KERNBASE: nat := 0x8000_0000
  const USERPAGES: nat := 524288   // KERNBASE / PGSIZE
  const ALLPAGES: nat := 1048576   // NPDENTRIES * NPTENTRIES
  const PTE_W: nat := 2
  const PTE_U: nat := 4

  /** The 1024 words of a frame. */
  type Page = p: seq<nat> | |p| == 1024 witness seq(1024, _ => 0)

  const ZEROS: Page := seq(1024, _ => 0)

  /** A page table entry: frame number above, twelve flag bits below. */
  function FrameOf(w: nat): nat { w / PGSIZE }

  function FlagsOf(w: nat): nat { w % PGSIZE }

  predicate Present(w: nat) { FlagsOf(w) % 2 == 1 }

  /** `pa | perm | PTE_P` for the page-aligned address of a frame. */
  function Entry(frame: nat, perm: nat): (w: nat)
    requires perm < PGSIZE
    ensures Present(w) && FrameOf(w) == frame && FlagsOf(w) == if perm % 2 == 1 then perm else perm + 1
  {
    frame * PGSIZE + if perm % 2 == 1 then perm else perm + 1
  }

  /** What an allocated frame of some address space is for. */
  datatype Use = Dir | Table(dir: nat, pdx: nat) | User(dir: nat, vpn: nat)

  function Pde(mem: seq<Page>, d: nat, i: nat): nat
    requires d < |mem| && i < NPDENTRIES
  {
    mem[d][i]
  }

  /** The entry that maps virtual page vpn in directory d, 0 if there is no table. */
  function Pte(mem: seq<Page>, d: nat, vpn: nat): nat
    requires d < |mem| && vpn < ALLPAGES
  {
    var pde := Pde(mem, d, vpn / NPTENTRIES);
    if Present(pde) && FrameOf(pde) < |mem| then mem[FrameOf(pde)][vpn % NPTENTRIES] else 0
  }

  predicate IsDir(use: map<nat, Use>, d: nat) {
    d in use && use[d] == Dir
  }

  predicate PdeOk(mem: seq<Page>, use: map<nat, Use>, d: nat, i: nat)
    requires d < |mem| && i < NPDENTRIES
  {
    var w := Pde(mem, d, i);
    Present(w) ==> FrameOf(w) < |mem| && FrameOf(w) in use && use[FrameOf(w)] == Table(d, i)
  }

  predicate PteOk(mem: seq<Page>, use: map<nat, Use>, d: nat, vpn: nat)
    requires d < |mem| && vpn < USERPAGES
  {
    var w := Pte(mem, d, vpn);
    Present(w) ==> FrameOf(w) < |mem| && FrameOf(w) in use && use[FrameOf(w)] == User(d, vpn)
  }

  /** Frame f is where its record says. */
  predicate UseOk(mem: seq<Page>, use: map<nat, Use>, f: nat)
    requires f in use
  {
    match use[f]
    case Dir => true
    case Table(d, i) =>
      IsDir(use, d) && d < |mem| && i < NPDENTRIES && Present(Pde(mem, d, i)) && FrameOf(Pde(mem, d, i)) == f
    case User(d, vpn) =>
      IsDir(use, d) && d < |mem| && vpn < USERPAGES && Present(Pte(mem, d, vpn)) && FrameOf(Pte(mem, d, vpn)) == f
  }

  /** Every directory entry points to the table recorded for it, every user mapping to
      the frame recorded for it, and nothing else is recorded. */
  ghost predicate Consistent(mem: seq<Page>, use: map<nat, Use>) {
    && (forall f {:trigger f in use} :: f in use ==> f < |mem|)
    && (forall d: nat, i: nat {:trigger PdeOk(mem, use, d, i)} :: IsDir(use, d) && i < NPDENTRIES ==>
         PdeOk(mem, use, d, i))
    && (forall d: nat, v: nat {:trigger PteOk(mem, use, d, v)} :: IsDir(use, d) && v < USERPAGES ==>
         PteOk(mem, use, d, v))
    && (forall f {:trigger UseOk(mem, use, f)} :: f in use ==> UseOk(mem, use, f))
  }

  predicate Owned(u: Use, f: nat, d: nat) {
    match u
    case Dir => f == d
    case Table(e, _) => e == d
    case User(e, _) => e == d
  }

  // ------------------------------------------------------- what is left alone

  /** Frames that belong to other address spaces are the same frames, used for the same
      thing, with the same contents. */
  ghost predicate OthersSame(mem: seq<Page>, use: map<nat, Use>, mem': seq<Page>, use': map<nat, Use>, d: nat)
    requires |mem| == |mem'|
  {
    && (forall f {:trigger f in use'} :: f in use && f < |mem| && !Owned(use[f], f, d) ==>
         f in use' && use'[f] == use[f] && mem'[f] == mem[f])
    && (forall f {:trigger f in use'} :: f in use' && !Owned(use'[f], f, d) ==> f in use && use[f] == use'[f])
  }

  /** Virtual page v is mapped as before, and a user page has the same contents. */
  ghost predicate SamePage(mem: seq<Page>, mem': seq<Page>, d: nat, v: nat)
    requires |mem| == |mem'| && d < |mem| && v < ALLPAGES
  {
    var w := Pte(mem, d, v);
    && Pte(mem', d, v) == w
    && (v < USERPAGES && Present(w) && FrameOf(w) < |mem| ==> mem'[FrameOf(w)] == mem[FrameOf(w)])
  }

  /** All pages of d outside [a, b) are the same. */
  ghost predicate SameOutside(mem: seq<Page>, mem': seq<Page>, d: nat, a: nat, b: nat)
    requires |mem| == |mem'| && d < |mem|
  {
    forall v: nat {:trigger SamePage(mem, mem', d, v)} :: v < ALLPAGES && !(a <= v < b) ==> SamePage(mem, mem', d, v)
  }

  lemma SameSelf(mem: seq<Page>, d: nat, a: nat, b: nat)
    requires d < |mem|
    ensures SameOutside(mem, mem, d, a, b)
  {
  }

  lemma SameTwice(m0: seq<Page>, m1: seq<Page>, m2: seq<Page>, d: nat, a: nat, b: nat)
    requires |m0| == |m1| == |m2| && d < |m0| && SameOutside(m0, m1, d, a, b) && SameOutside(m1, m2, d, a, b)
    ensures SameOutside(m0, m2, d, a, b)
  {
    forall v: nat | v < ALLPAGES && !(a <= v < b) ensures SamePage(m0, m2, d, v) {
      assert SamePage(m0, m1, d, v) && SamePage(m1, m2, d, v);
    }
  }

  lemma SameWiden(m0: seq<Page>, m1: seq<Page>, d: nat, a: nat, b: nat, a': nat, b': nat)
    requires |m0| == |m1| && d < |m0| && SameOutside(m0, m1, d, a, b)
    requires a < b ==> a' <= a && b <= b'
    ensures SameOutside(m0, m1, d, a', b')
  {
  }

  lemma OthersTwice(m0: seq<Page>, u0: map<nat, Use>, m1: seq<Page>, u1: map<nat, Use>, m2: seq<Page>,
                    u2: map<nat, Use>, d: nat)
    requires |m0| == |m1| == |m2| && OthersSame(m0, u0, m1, u1, d) && OthersSame(m1, u1, m2, u2, d)
    ensures OthersSame(m0, u0, m2, u2, d)
  {
    forall f | f in u0 && f < |m0| && !Owned(u0[f], f, d) ensures f in u2 && u2[f] == u0[f] && m2[f] == m0[f] {
      assert f in u1;
    }
    forall f | f in u2 && !Owned(u2[f], f, d) ensures f in u0 && u0[f] == u2[f] {
      assert f in u1;
    }
  }

  /** So every mapping and every user page of another address space is the same. */
  lemma OthersPages(mem: seq<Page>, use: map<nat, Use>, mem': seq<Page>, use': map<nat, Use>, d: nat, e: nat)
    requires |mem| == |mem'| && Consistent(mem, use) && OthersSame(mem, use, mem', use', d)
    requires IsDir(use, e) && e < |mem| && e != d
    ensures IsDir(use', e) && SameOutside(mem, mem', e, 0, 0)
  {
    assert e in use';
    forall v: nat | v < ALLPAGES ensures SamePage(mem, mem', e, v) {
      var w := Pde(mem, e, v / NPTENTRIES);
      assert PdeOk(mem, use, e, v / NPTENTRIES);
      assert Present(w) ==> FrameOf(w) in use';
      if v < USERPAGES {
        assert PteOk(mem, use, e, v);
        var x := Pte(mem, e, v);
        assert Present(x) ==> FrameOf(x) in use';
      }
    }
  }

  // ---------------------------------------------- elementary updates of memory

  /** Writing a frame that is no directory and no table of an address space. */
  lemma WritePage(mem: seq<Page>, use: map<nat, Use>, f: nat, p: Page)
    requires Consistent(mem, use) && f < |mem| && (f in use ==> use[f].User?)
    ensures Consistent(mem[f := p], use)
  {
    var mem' := mem[f := p];
    forall d: nat, i: nat | IsDir(use, d) && i < NPDENTRIES
        ensures Pde(mem', d, i) == Pde(mem, d, i) && PdeOk(mem', use, d, i) {
      assert PdeOk(mem, use, d, i);
    }
    forall d: nat, v: nat | IsDir(use, d) && v < ALLPAGES ensures Pte(mem', d, v) == Pte(mem, d, v) {
      assert PdeOk(mem, use, d, v / NPTENTRIES) && Pde(mem', d, v / NPTENTRIES) == Pde(mem, d, v / NPTENTRIES);
    }
    forall d: nat, v: nat | IsDir(use, d) && v < USERPAGES ensures PteOk(mem', use, d, v) {
      assert PteOk(mem, use, d, v) && Pte(mem', d, v) == Pte(mem, d, v);
    }
    forall g | g in use ensures UseOk(mem', use, g) {
      assert UseOk(mem, use, g);
    }
  }

  /** Writing a frame that nobody uses changes no page of any space. */
  lemma WriteElsewhere(mem: seq<Page>, use: map<nat, Use>, f: nat, p: Page, d: nat)
    requires Consistent(mem, use) && f < |mem| && f !in use && IsDir(use, d) && d < |mem|
    ensures SameOutside(mem, mem[f := p], d, 0, 0)
  {
    var mem' := mem[f := p];
    forall v: nat | v < ALLPAGES ensures SamePage(mem, mem', d, v) {
      assert PdeOk(mem, use, d, v / NPTENTRIES);
      assert Pde(mem', d, v / NPTENTRIES) == Pde(mem, d, v / NPTENTRIES);
      assert v < USERPAGES ==> PteOk(mem, use, d, v);
    }
  }

  lemma OthersWrite(mem: seq<Page>, use: map<nat, Use>, f: nat, p: Page, d: nat)
    requires f < |mem| && f !in use
    ensures OthersSame(mem, use, mem[f := p], use, d)
  {
    forall g | g in use && g < |mem| ensures mem[f := p][g] == mem[g] {
    }
  }

  /** A fresh zeroed table behind an absent directory entry maps nothing. */
  lemma AddTable(mem: seq<Page>, use: map<nat, Use>, d: nat, i: nat, t: nat)
    requires Consistent(mem, use) && IsDir(use, d) && d < |mem| && i < NPDENTRIES && !Present(Pde(mem, d, i))
    requires t < |mem| && t !in use
    ensures var mem' := mem[t := ZEROS][d := mem[d][i := Entry(t, PTE_W + PTE_U)]];
            var use' := use[t := Table(d, i)];
            && Consistent(mem', use') && SameOutside(mem, mem', d, 0, 0) && OthersSame(mem, use, mem', use', d)
            && Pde(mem', d, i) == Entry(t, PTE_W + PTE_U)
  {
    var w := Entry(t, PTE_W + PTE_U);
    var mem' := mem[t := ZEROS][d := mem[d][i := w]];
    var use' := use[t := Table(d, i)];
    forall e: nat, k: nat | IsDir(use', e) && k < NPDENTRIES
      ensures Pde(mem', e, k) == (if e == d && k == i then w else Pde(mem, e, k)) && PdeOk(mem', use', e, k) {
      assert PdeOk(mem, use, e, k);
    }
    forall e: nat, v: nat | IsDir(use', e) && v < ALLPAGES ensures Pte(mem', e, v) == Pte(mem, e, v) {
      assert PdeOk(mem, use, e, v / NPTENTRIES);
      assert Pde(mem', e, v / NPTENTRIES) == (if e == d && v / NPTENTRIES == i then w else Pde(mem, e, v / NPTENTRIES));
    }
    forall e: nat, v: nat | IsDir(use', e) && v < USERPAGES
        ensures PteOk(mem', use', e, v) && SamePage(mem, mem', e, v) {
      assert PteOk(mem, use, e, v) && Pte(mem', e, v) == Pte(mem, e, v);
    }
    forall v: nat | v < ALLPAGES ensures SamePage(mem, mem', d, v) {
      assert Pte(mem', d, v) == Pte(mem, d, v);
    }
    forall g | g in use' ensures UseOk(mem', use', g) {
      assert g in use ==> UseOk(mem, use, g);
      if g in use && use[g].Table? {
        assert Pde(mem', use[g].dir, use[g].pdx) == Pde(mem, use[g].dir, use[g].pdx);
      }
    }
  }

  /** Writing one entry of a table changes the mapping of one page of one space. */
  lemma SetPte(mem: seq<Page>, use: map<nat, Use>, d: nat, v: nat, w: nat, e: nat, u: nat)
    requires Consistent(mem, use) && IsDir(use, d) && d < |mem| && v < ALLPAGES && Present(Pde(mem, d, v / NPTENTRIES))
    requires IsDir(use, e) && e < |mem| && u < ALLPAGES
    ensures FrameOf(Pde(mem, d, v / NPTENTRIES)) < |mem|
    ensures var t := FrameOf(Pde(mem, d, v / NPTENTRIES));
            var mem' := mem[t := mem[t][v % NPTENTRIES := w]];
            && Pte(mem', e, u) == (if e == d && u == v then w else Pte(mem, e, u))
            && Pde(mem', e, u / NPTENTRIES) == Pde(mem, e, u / NPTENTRIES)
  {
    assert PdeOk(mem, use, d, v / NPTENTRIES) && PdeOk(mem, use, e, u / NPTENTRIES);
    var t := FrameOf(Pde(mem, d, v / NPTENTRIES));
    var mem' := mem[t := mem[t][v % NPTENTRIES := w]];
    assert mem'[e] == mem[e];
    var pde := Pde(mem, e, u / NPTENTRIES);
    if Present(pde) && FrameOf(pde) == t {
      assert u / NPTENTRIES == v / NPTENTRIES && e == d;
    }
  }

  /** Memory after entry v of d is set to w. */
  function WithPte(mem: seq<Page>, d: nat, v: nat, w: nat): (r: seq<Page>)
    requires d < |mem| && v < ALLPAGES && FrameOf(Pde(mem, d, v / NPTENTRIES)) < |mem|
    ensures |r| == |mem|
  {
    var t := FrameOf(Pde(mem, d, v / NPTENTRIES));
    mem[t := mem[t][v % NPTENTRIES := w]]
  }

  lemma SetPteEverywhere(mem: seq<Page>, use: map<nat, Use>, d: nat, v: nat, w: nat)
    requires Consistent(mem, use) && IsDir(use, d) && d < |mem| && v < ALLPAGES && Present(Pde(mem, d, v / NPTENTRIES))
    ensures FrameOf(Pde(mem, d, v / NPTENTRIES)) < |mem|
    ensures var mem' := WithPte(mem, d, v, w);
            && (forall e: nat, i: nat :: IsDir(use, e) && i < NPDENTRIES ==> Pde(mem', e, i) == Pde(mem, e, i))
            && (forall e: nat, u: nat :: IsDir(use, e) && u < ALLPAGES ==>
                  Pte(mem', e, u) == if e == d && u == v then w else Pte(mem, e, u))
  {
    assert PdeOk(mem, use, d, v / NPTENTRIES);
    var mem' := WithPte(mem, d, v, w);
    forall e: nat, i: nat | IsDir(use, e) && i < NPDENTRIES ensures Pde(mem', e, i) == Pde(mem, e, i) {
      SetPte(mem, use, d, v, w, e, i * NPTENTRIES);
    }
    forall e: nat, u: nat | IsDir(use, e) && u < ALLPAGES
        ensures Pte(mem', e, u) == if e == d && u == v then w else Pte(mem, e, u) {
      SetPte(mem, use, d, v, w, e, u);
    }
  }

  /** A user page mapped to a frame nobody uses; that frame is now used for the page. */
  lemma MapUser(mem: seq<Page>, use: map<nat, Use>, d: nat, v: nat, f: nat, w: nat)
    requires Consistent(mem, use) && IsDir(use, d) && d < |mem| && v < USERPAGES && Present(Pde(mem, d, v / NPTENTRIES))
    requires !Present(Pte(mem, d, v)) && Present(w) && FrameOf(w) == f && f < |mem| && f !in use
    ensures FrameOf(Pde(mem, d, v / NPTENTRIES)) < |mem|
    ensures var mem' := WithPte(mem, d, v, w); var use' := use[f := User(d, v)];
            && Consistent(mem', use') && SameOutside(mem, mem', d, v, v + 1) && OthersSame(mem, use, mem', use', d)
            && Pte(mem', d, v) == w && mem'[f] == mem[f]
  {
    SetPteEverywhere(mem, use, d, v, w);
    assert PdeOk(mem, use, d, v / NPTENTRIES);
    var mem' := WithPte(mem, d, v, w);
    var use' := use[f := User(d, v)];
    forall e: nat, i: nat | IsDir(use', e) && i < NPDENTRIES ensures PdeOk(mem', use', e, i) {
      assert PdeOk(mem, use, e, i) && Pde(mem', e, i) == Pde(mem, e, i);
    }
    forall e: nat, u: nat | IsDir(use', e) && u < USERPAGES ensures PteOk(mem', use', e, u) {
      assert PteOk(mem, use, e, u) && Pte(mem', e, u) == if e == d && u == v then w else Pte(mem, e, u);
    }
    forall u: nat | u < ALLPAGES && u != v ensures SamePage(mem, mem', d, u) {
      assert u < USERPAGES ==> PteOk(mem, use, d, u);
      assert Pte(mem', d, u) == Pte(mem, d, u);
    }
    forall g | g in use && !Owned(use[g], g, d) ensures g in use' && use'[g] == use[g] && mem'[g] == mem[g] {
    }
    forall g | g in use' && !Owned(use'[g], g, d) ensures g in use && use[g] == use'[g] {
    }
    forall g | g in use' ensures UseOk(mem', use', g) {
      assert g in use ==> UseOk(mem, use, g);
    }
  }

  /** A kernel page mapped: no frame changes hands. */
  lemma MapKernel(mem: seq<Page>, use: map<nat, Use>, d: nat, v: nat, w: nat)
    requires Consistent(mem, use) && IsDir(use, d) && d < |mem| && USERPAGES <= v < ALLPAGES
             && Present(Pde(mem, d, v / NPTENTRIES))
    ensures FrameOf(Pde(mem, d, v / NPTENTRIES)) < |mem|
    ensures var mem' := WithPte(mem, d, v, w);
            && Consistent(mem', use) && SameOutside(mem, mem', d, v, v + 1) && OthersSame(mem, use, mem', use, d)
            && Pte(mem', d, v) == w
  {
    SetPteEverywhere(mem, use, d, v, w);
    assert PdeOk(mem, use, d, v / NPTENTRIES);
    var mem' := WithPte(mem, d, v, w);
    forall e: nat, i: nat | IsDir(use, e) && i < NPDENTRIES ensures PdeOk(mem', use, e, i) {
      assert PdeOk(mem, use, e, i) && Pde(mem', e, i) == Pde(mem, e, i);
    }
    forall e: nat, u: nat | IsDir(use, e) && u < USERPAGES ensures PteOk(mem', use, e, u) {
      assert PteOk(mem, use, e, u) && Pte(mem', e, u) == Pte(mem, e, u);
    }
    forall u: nat | u < ALLPAGES && u != v ensures SamePage(mem, mem', d, u) {
      assert u < USERPAGES ==> PteOk(mem, use, d, u);
      assert Pte(mem', d, u) == Pte(mem, d, u);
    }
    forall g | g in use ensures UseOk(mem', use, g) {
      assert UseOk(mem, use, g);
    }
  }

  /** A user page unmapped: its frame, and only it, is released. */
  lemma UnmapUser(mem: seq<Page>, use: map<nat, Use>, d: nat, v: nat, f: nat)
    requires Consistent(mem, use) && IsDir(use, d) && d < |mem| && v < USERPAGES && Present(Pde(mem, d, v / NPTENTRIES))
    requires Present(Pte(mem, d, v)) && f == FrameOf(Pte(mem, d, v))
    ensures FrameOf(Pde(mem, d, v / NPTENTRIES)) < |mem| && f in use && use[f] == User(d, v)
    ensures var mem' := WithPte(mem, d, v, 0); var use' := use - {f};
            && Consistent(mem', use') && SameOutside(mem, mem', d, v, v + 1) && OthersSame(mem, use, mem', use', d)
            && Pte(mem', d, v) == 0
  {
    assert PdeOk(mem, use, d, v / NPTENTRIES) && PteOk(mem, use, d, v);
    SetPteEverywhere(mem, use, d, v, 0);
    var mem' := WithPte(mem, d, v, 0);
    var use' := use - {f};
    assert forall g {:trigger g in use'} :: g in use' ==> g in use && g != f && use'[g] == use[g];
    forall e: nat, i: nat | IsDir(use', e) && i < NPDENTRIES ensures PdeOk(mem', use', e, i) {
      assert PdeOk(mem, use, e, i) && Pde(mem', e, i) == Pde(mem, e, i);
    }
    forall e: nat, u: nat | IsDir(use', e) && u < USERPAGES ensures PteOk(mem', use', e, u) {
      assert PteOk(mem, use, e, u) && Pte(mem', e, u) == if e == d && u == v then 0 else Pte(mem, e, u);
    }
    forall u: nat | u < ALLPAGES && u != v ensures SamePage(mem, mem', d, u) {
      assert u < USERPAGES ==> PteOk(mem, use, d, u);
      assert Pte(mem', d, u) == Pte(mem, d, u);
    }
    forall g | g in use && !Owned(use[g], g, d) ensures g in use' && use'[g] == use[g] && mem'[g] == mem[g] {
    }
    forall g | g in use' && !Owned(use'[g], g, d) ensures g in use && use[g] == use'[g] {
    }
    forall g | g in use' ensures UseOk(mem', use', g) {
      assert UseOk(mem, use, g);
    }
  }

  /** A new, empty directory. */
  lemma AddDir(mem: seq<Page>, use: map<nat, Use>, d: nat)
    requires Consistent(mem, use) && d < |mem| && d !in use
    ensures var mem' := mem[d := ZEROS]; var use' := use[d := Dir];
            && Consistent(mem', use') && OthersSame(mem, use, mem', use', d)
            && forall v: nat :: v < ALLPAGES ==> Pte(mem', d, v) == 0
  {
    var mem' := mem[d := ZEROS];
    var use' := use[d := Dir];
    WritePage(mem, use, d, ZEROS);
    forall e: nat, i: nat | IsDir(use', e) && i < NPDENTRIES ensures PdeOk(mem', use', e, i) {
      assert e != d ==> PdeOk(mem', use, e, i);
    }
    forall v: nat | v < ALLPAGES ensures Pte(mem', d, v) == 0 {
    }
    forall e: nat, u: nat | IsDir(use', e) && u < USERPAGES ensures PteOk(mem', use', e, u) {
      assert e != d ==> PteOk(mem', use, e, u);
    }
    forall g | g in use' ensures UseOk(mem', use', g) {
      assert g in use ==> UseOk(mem', use, g);
    }
  }

  /** The frames an address space has taken: its directory, tables and user pages. */
  ghost function Space(use: map<nat, Use>, d: nat): (r: set<nat>)
    ensures forall f :: f in r <==> f in use && Owned(use[f], f, d)
  {
    set f | f in use && Owned(use[f], f, d)
  }

  /** Striking out a whole address space leaves the others consistent. */
  lemma DropSpace(mem: seq<Page>, use: map<nat, Use>, d: nat)
    requires Consistent(mem, use)
    ensures Consistent(mem, use - Space(use, d)) && OthersSame(mem, use, mem, use - Space(use, d), d)
  {
    var use' := use - Space(use, d);
    forall e: nat, i: nat | IsDir(use', e) && i < NPDENTRIES ensures PdeOk(mem, use', e, i) {
      assert PdeOk(mem, use, e, i);
    }
    forall e: nat, u: nat | IsDir(use', e) && u < USERPAGES ensures PteOk(mem, use', e, u) {
      assert PteOk(mem, use, e, u);
    }
    forall g | g in use' ensures UseOk(mem, use', g) {
      assert UseOk(mem, use, g);
    }
  }

  // ----------------------------------------------------- accounts of frames

  ghost function Elems(s: seq<nat>): (r: set<nat>)
    ensures forall f :: f in r <==> f in s
  {
    set f | f in s
  }

  /** Frames moved from the available ones to d, as page tables or as user pages [a, b). */
  ghost predicate Took(avail: set<nat>, use: map<nat, Use>, avail': set<nat>, use': map<nat, Use>, d: nat, a: nat,
                       b: nat) {
    && (forall f {:trigger f in use'} :: f in use ==> f in use' && use'[f] == use[f])
    && (forall f {:trigger f in use'} :: f in use' && f !in use ==>
          f in avail && !use'[f].Dir? && use'[f].dir == d && (use'[f].User? ==> a <= use'[f].vpn < b))
    && avail' == avail - use'.Keys
  }

  /** User pages [a, b) of d, and nothing else, moved back to the available frames. */
  ghost predicate Gave(avail: set<nat>, use: map<nat, Use>, avail': set<nat>, use': map<nat, Use>, d: nat, a: nat,
                       b: nat) {
    && (forall f {:trigger f in use'} :: f in use' <==>
         f in use && !(use[f].User? && use[f].dir == d && a <= use[f].vpn < b))
    && (forall f {:trigger f in use'} :: f in use' ==> use'[f] == use[f])
    && avail' == avail + (use.Keys - use'.Keys)
  }

  /** Frames are conserved: none is lost, none is both available and in use. */
  lemma TookConserves(avail: set<nat>, use: map<nat, Use>, avail': set<nat>, use': map<nat, Use>, d: nat, a: nat,
                      b: nat)
    requires Took(avail, use, avail', use', d, a, b)
    ensures avail' + use'.Keys == avail + use.Keys && avail' !! use'.Keys
  {
    forall f ensures f in avail' + use'.Keys <==> f in avail + use.Keys {
      assert f in use' ==> f in use || f in avail;
      assert f in use ==> f in use';
    }
  }

  lemma GaveConserves(avail: set<nat>, use: map<nat, Use>, avail': set<nat>, use': map<nat, Use>, d: nat, a: nat,
                      b: nat)
    requires Gave(avail, use, avail', use', d, a, b) && avail !! use.Keys
    ensures avail' + use'.Keys == avail + use.Keys && avail' !! use'.Keys
  {
    forall f ensures f in avail' + use'.Keys <==> f in avail + use.Keys {
      assert f in use' ==> f in use;
    }
    forall f | f in use' ensures f !in avail' {
      assert f in use;
    }
  }

  lemma TookTwice(s0: set<nat>, u0: map<nat, Use>, s1: set<nat>, u1: map<nat, Use>, s2: set<nat>, u2: map<nat, Use>,
                  d: nat, a: nat, b: nat, b': nat)
    requires Took(s0, u0, s1, u1, d, a, b) && Took(s1, u1, s2, u2, d, a, b') && b <= b'
    ensures Took(s0, u0, s2, u2, d, a, b')
  {
    forall f | f in u0 ensures f in u2 && u2[f] == u0[f] {
      assert f in u1;
    }
    forall f | f in u2 && f !in u0
      ensures f in s0 && !u2[f].Dir? && u2[f].dir == d && (u2[f].User? ==> a <= u2[f].vpn < b') {
      assert f in u1 ==> f in s0;
    }
    forall f ensures f in s2 <==> f in s0 && f !in u2 {
      assert f in s1 <==> f in s0 && f !in u1;
      assert f in u1 ==> f in u2;
    }
  }

  /** Taking user pages and giving exactly those back leaves only page tables taken. */
  lemma TookThenGave(s0: set<nat>, u0: map<nat, Use>, s1: set<nat>, u1: map<nat, Use>, s2: set<nat>, u2: map<nat, Use>,
                     d: nat, a: nat, b: nat, b': nat)
    requires Took(s0, u0, s1, u1, d, a, b) && Gave(s1, u1, s2, u2, d, a, b') && b <= b'
    requires forall f :: f in u0 && u0[f].User? && u0[f].dir == d ==> !(a <= u0[f].vpn < b')
    requires s0 !! u0.Keys
    ensures Took(s0, u0, s2, u2, d, 0, 0)
  {
    forall f | f in u0 ensures f in u2 && u2[f] == u0[f] {
      assert f in u1;
    }
    forall f | f in u2 && f !in u0 ensures f in s0 && u2[f].Table? && u2[f].dir == d {
      assert f in u1;
    }
    forall f ensures f in s2 <==> f in s0 && f !in u2 {
      assert f in s1 <==> f in s0 && f !in u1;
      assert f in u2 ==> f in u1;
      assert f in u1 && f !in u2 ==> f !in u0;
    }
  }

  lemma GaveTwice(s0: set<nat>, u0: map<nat, Use>, s1: set<nat>, u1: map<nat, Use>, s2: set<nat>, u2: map<nat, Use>,
                  d: nat, a: nat, b: nat, c: nat)
    requires Gave(s0, u0, s1, u1, d, a, b) && Gave(s1, u1, s2, u2, d, b, c) && a <= b <= c
    ensures Gave(s0, u0, s2, u2, d, a, c)
  {
    forall g ensures (g in u2 <==> g in u0 && !(u0[g].User? && u0[g].dir == d && a <= u0[g].vpn < c))
        && (g in u2 ==> u2[g] == u0[g]) {
      assert g in u1 <==> g in u0 && !(u0[g].User? && u0[g].dir == d && a <= u0[g].vpn < b);
      assert g in u1 ==> u1[g] == u0[g];
      assert g in u2 <==> g in u1 && !(u1[g].User? && u1[g].dir == d && b <= u1[g].vpn < c);
    }
    forall g ensures g in s2 <==> g in s0 + (u0.Keys - u2.Keys) {
      assert g in s1 <==> g in s0 + (u0.Keys - u1.Keys);
      assert g in u2 ==> g in u1;
      assert g in u1 ==> g in u0;
    }
  }

  lemma GaveOne(mem: seq<Page>, s: set<nat>, u: map<nat, Use>, d: nat, v: nat, f: nat)
    requires Consistent(mem, u) && IsDir(u, d) && d < |mem| && v < USERPAGES
    requires Present(Pte(mem, d, v)) && f == FrameOf(Pte(mem, d, v))
    ensures Gave(s, u, s + {f}, u - {f}, d, v, v + 1)
  {
    assert PteOk(mem, u, d, v);
    var u' := u - {f};
    forall g ensures (g in u' <==> g in u && !(u[g].User? && u[g].dir == d && v <= u[g].vpn < v + 1))
        && (g in u' ==> u'[g] == u[g]) {
      assert g in u' <==> g in u && g != f;
      assert g in u ==> UseOk(mem, u, g);
    }
  }

  /** Pages that are not mapped have no frame to give back. */
  lemma GaveNone(mem: seq<Page>, s: set<nat>, u: map<nat, Use>, d: nat, v: nat, v': nat)
    requires Consistent(mem, u) && v <= v' && d < |mem|
    requires forall w: nat :: v <= w < v' && w < USERPAGES ==> !Present(Pte(mem, d, w))
    ensures Gave(s, u, s, u, d, v, v')
  {
    forall g | g in u ensures !(u[g].User? && u[g].dir == d && v <= u[g].vpn < v') {
      assert UseOk(mem, u, g);
    }
  }

  lemma TookWiden(s0: set<nat>, u0: map<nat, Use>, s1: set<nat>, u1: map<nat, Use>, d: nat, a: nat, b: nat)
    requires Took(s0, u0, s1, u1, d, 0, 0)
    ensures Took(s0, u0, s1, u1, d, a, b)
  {
  }

  lemma TookFrom(s0: set<nat>, u0: map<nat, Use>, s1: set<nat>, u1: map<nat, Use>, d: nat, a: nat, b: nat, a': nat)
    requires Took(s0, u0, s1, u1, d, a, b) && a' <= a
    ensures Took(s0, u0, s1, u1, d, a', b)
  {
  }

  lemma GaveBeside(s0: set<nat>, u0: map<nat, Use>, s1: set<nat>, u1: map<nat, Use>, d: nat, a: nat, b: nat,
                   x: set<nat>)
    requires Gave(s0, u0, s1, u1, d, a, b)
    ensures Gave(s0 + x, u0, s1 + x, u1, d, a, b)
  {
  }

  lemma TookBeside(s0: set<nat>, u0: map<nat, Use>, s1: set<nat>, u1: map<nat, Use>, d: nat, f: nat)
    requires Took(s0, u0, s1, u1, d, 0, 0) && f !in u1
    ensures Took(s0 + {f}, u0, s1 + {f}, u1, d, 0, 0)
  {
  }

  /** Page tables taken, then one loose frame recorded as user page v. */
  lemma TookUser(s0: set<nat>, u0: map<nat, Use>, s1: set<nat>, u1: map<nat, Use>, d: nat, v: nat, f: nat)
    requires Took(s0, u0, s1, u1, d, 0, 0) && f !in u1 && f !in s0
    ensures Took(s0 + {f}, u0, s1, u1[f := User(d, v)], d, v, v + 1)
  {
  }

  /** Number of pages of a process of sz bytes: PGROUNDUP(sz) / PGSIZE. */
  function Pages(sz: nat): nat {
    (sz + PGSIZE - 1) / PGSIZE
  }

  /** Without a page table no page of its 1024 is mapped: what deallocuvm skips. */
  lemma NoTable(mem: seq<Page>, d: nat, v: nat, w: nat)
    requires d < |mem| && v < ALLPAGES && w < ALLPAGES && w / NPTENTRIES == v / NPTENTRIES
    requires !Present(Pde(mem, d, v / NPTENTRIES))
    ensures Pte(mem, d, w) == 0 && !Present(Pte(mem, d, w))
  {
  }

  /** Page tables of d with index below i. */
  predicate TableBelow(u: map<nat, Use>, f: int, d: nat, i: nat) {
    f in u && u[f].Table? && u[f].dir == d && u[f].pdx < i
  }

  lemma TableStep(mem: seq<Page>, u: map<nat, Use>, d: nat, i: nat, f: int)
    requires Consistent(mem, u) && IsDir(u, d) && d < |mem| && i < NPDENTRIES
    ensures TableBelow(u, f, d, i + 1) <==>
            TableBelow(u, f, d, i) || (Present(Pde(mem, d, i)) && f == FrameOf(Pde(mem, d, i)))
  {
    assert PdeOk(mem, u, d, i);
    if f in u {
      assert UseOk(mem, u, f);
    }
  }

  /** User pages given back, then the tables and the directory: all that d had. */
  lemma SpaceFreed(s0: set<nat>, u0: map<nat, Use>, mem: seq<Page>, s1: set<nat>, u1: map<nat, Use>, s2: set<nat>,
                   d: nat)
    requires Gave(s0, u0, s1, u1, d, 0, USERPAGES) && Consistent(mem, u1) && IsDir(u1, d)
    requires forall f :: f in u0 && u0[f].User? ==> u0[f].vpn < USERPAGES
    requires forall f :: f in s2 <==> f in s1 || f == d || TableBelow(u1, f, d, NPDENTRIES)
    ensures u1 - Space(u1, d) == u0 - Space(u0, d) && s2 == s0 + Space(u0, d)
  {
    forall f ensures f in s2 <==> f in s0 || f in Space(u0, d) {
      assert f in u1 ==> UseOk(mem, u1, f);
    }
    var l, r := u1 - Space(u1, d), u0 - Space(u0, d);
    forall f ensures (f in l <==> f in r) && (f in l ==> l[f] == r[f]) {
      assert f in u1 ==> UseOk(mem, u1, f);
    }
  }

  /** A new directory d and all that was taken for it: striking it out restores the books. */
  lemma SpaceUndone(mem: seq<Page>, s0: set<nat>, u0: map<nat, Use>, s1: set<nat>, u1: map<nat, Use>, d: nat,
                    a: nat, b: nat)
    requires Consistent(mem, u0) && d !in u0 && d in s0 && s0 !! u0.Keys
    requires Took(s0 - {d}, u0[d := Dir], s1, u1, d, a, b)
    ensures u1 - Space(u1, d) == u0 && s1 + Space(u1, d) == s0
  {
    var u := u0[d := Dir];
    assert d in u && d in u1;
    forall f ensures (f in u1 - Space(u1, d) <==> f in u0) && (f in u0 ==> f in u1 && u1[f] == u0[f]) {
      assert f in u0 ==> UseOk(mem, u0, f) && f in u;
      assert f in u1 ==> f in u || u1[f].dir == d;
    }
    forall f ensures f in s1 + Space(u1, d) <==> f in s0 {
      assert f in s1 <==> f in s0 && f != d && f !in u1;
      assert f in u1 ==> f in u0 || f == d || f in s0;
      assert f in u0 ==> f in u && UseOk(mem, u0, f) && u1[f] == u0[f];
    }
  }

  /** No two user pages, of one address space or of two, share a frame. */
  lemma DistinctFrames(mem: seq<Page>, use: map<nat, Use>, d: nat, v: nat, e: nat, w: nat)
    requires Consistent(mem, use) && IsDir(use, d) && IsDir(use, e) && d < |mem| && e < |mem|
    requires v < USERPAGES && w < USERPAGES && Present(Pte(mem, d, v)) && Present(Pte(mem, e, w)) && (d, v) != (e, w)
    ensures FrameOf(Pte(mem, d, v)) != FrameOf(Pte(mem, e, w))
  {
    assert PteOk(mem, use, d, v) && PteOk(mem, use, e, w);
  }

  /** Page v of d has flags fl and contents p, in one of the given frames. */
  ghost predicate Holds(mem: seq<Page>, d: nat, v: nat, fl: nat, p: Page, frames: set<nat>)
    requires d < |mem| && v < USERPAGES
  {
    var w := Pte(mem, d, v);
    Present(w) && FlagsOf(w) == fl && FrameOf(w) in frames && FrameOf(w) < |mem| && mem[FrameOf(w)] == p
  }

  /** Page v of d is a copy of page v of e as it was in m0: same flags, same contents, in
      one of the given frames. */
  ghost predicate CopyOf(mem: seq<Page>, d: nat, m0: seq<Page>, e: nat, v: nat, frames: set<nat>)
    requires d < |mem| && e < |m0| && v < USERPAGES
  {
    var w := Pte(m0, e, v);
    Present(w) && FrameOf(w) < |m0| && Holds(mem, d, v, FlagsOf(w), m0[FrameOf(w)], frames)
  }
}
