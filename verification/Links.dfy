/** Directories and link counts: dirlookup, dirlink, ialloc and iput of kernel/fs.c,
  create, link and unlink of kernel/sysfile.c.
 */
module Links {
  import opened Common

  const ROOTINO: nat := 1
  const DIRSIZ: nat := 14
  const SHORT_MAX: int := 32767
  const SHORT_MIN: int := -32768

  type short = x: int | -32768 <= x <= 32767

  const MAXENTRIES: nat := 4480 // MAXFILE * BSIZE / sizeof(struct dirent)

  datatype Kind = Free | File | Dir | Dev

  /** A slot of a directory; inum 0 marks it empty. Names are cut to DIRSIZ characters. */
  datatype Dirent = Dirent(inum: nat, name: string)

  /** `entries` is the content of a directory. */
  datatype Node = Node(kind: Kind, nlink: short, entries: seq<Dirent>)

  /** ++ on a short. */
  function Incr(n: short): short {
    if n == SHORT_MAX then SHORT_MIN else n + 1
  }

  /** -- on a short. */
  function Decr(n: short): short {
    if n == SHORT_MIN then SHORT_MAX else n - 1
  }

  // ------------------------------------------------------ counting references

  /** How often i is named in slots 1..n-1: slot 0 is ".". */
  function Named(es: seq<Dirent>, i: nat, n: nat): nat
    requires n <= |es|
  {
    if n <= 1 then 0 else Named(es, i, n - 1) + if es[n - 1].inum == i then 1 else 0
  }

  function NamedIn(nodes: seq<Node>, live: set<nat>, i: nat, d: nat): nat
    requires d < |nodes|
  {
    if d in live then Named(nodes[d].entries, i, |nodes[d].entries|) else 0
  }

  /** Entries naming i in the linked directories below n. */
  function RefsBelow(nodes: seq<Node>, live: set<nat>, i: nat, n: nat): nat
    requires n <= |nodes|
  {
    if n == 0 then 0 else RefsBelow(nodes, live, i, n - 1) + NamedIn(nodes, live, i, n - 1)
  }

  function Refs(nodes: seq<Node>, live: set<nat>, i: nat): nat {
    RefsBelow(nodes, live, i, |nodes|)
  }

  /** nlink minus the entries that name the inode. */
  function Balance(nodes: seq<Node>, live: set<nat>, i: nat): int
    requires i < |nodes|
  {
    nodes[i].nlink - Refs(nodes, live, i)
  }

  lemma {:induction false} NamedSame(es: seq<Dirent>, es': seq<Dirent>, i: nat, n: nat)
    requires n <= |es| && n <= |es'| && forall k {:trigger es'[k]} :: 1 <= k < n ==>
             (es'[k].inum == i <==> es[k].inum == i)
    ensures Named(es', i, n) == Named(es, i, n)
  {
    if n > 1 {
      NamedSame(es, es', i, n - 1);
    }
  }

  /** Changing slot k. */
  lemma {:induction false} NamedUpdate(es: seq<Dirent>, k: nat, e: Dirent, i: nat, n: nat)
    requires 1 <= k < n <= |es|
    ensures Named(es[k := e], i, n) == Named(es, i,
            n) - (if es[k].inum == i then 1 else 0) + (if e.inum == i then 1 else 0)
  {
    if n - 1 > k {
      NamedUpdate(es, k, e, i, n - 1);
    } else {
      NamedSame(es, es[k := e], i, k);
    }
  }

  lemma NamedAppend(es: seq<Dirent>, e: Dirent, i: nat)
    requires |es| >= 1
    ensures Named(es + [e], i, |es| + 1) == Named(es, i, |es|) + if e.inum == i then 1 else 0
  {
    NamedSame(es, es + [e], i, |es|);
  }

  /** Only the directories in D contribute differently. */
  lemma {:induction false} RefsSame(nodes: seq<Node>, live: set<nat>, nodes': seq<Node>, live': set<nat>, i: nat,
                                    n: nat)
    requires n <= |nodes| == |nodes'| && forall d :: 0 <= d < n ==>
             NamedIn(nodes', live', i, d) == NamedIn(nodes, live, i, d)
    ensures RefsBelow(nodes', live', i, n) == RefsBelow(nodes, live, i, n)
  {
    if n > 0 {
      RefsSame(nodes, live, nodes', live', i, n - 1);
    }
  }

  lemma {:induction false} RefsOne(nodes: seq<Node>, live: set<nat>, nodes': seq<Node>, live': set<nat>, i: nat,
                                   n: nat, d: nat)
    requires d < n <= |nodes| == |nodes'|
    requires forall c :: 0 <= c < n && c != d ==> NamedIn(nodes', live', i, c) == NamedIn(nodes, live, i, c)
    ensures RefsBelow(nodes', live', i, n) ==
            RefsBelow(nodes, live, i, n) + NamedIn(nodes', live', i, d) - NamedIn(nodes, live, i, d)
  {
    if n - 1 > d {
      RefsOne(nodes, live, nodes', live', i, n - 1, d);
    } else {
      RefsSame(nodes, live, nodes', live', i, n - 1);
    }
  }

  lemma {:induction false} RefsTwo(nodes: seq<Node>, live: set<nat>, nodes': seq<Node>, live': set<nat>, i: nat,
                                   n: nat, d: nat, e: nat)
    requires d < e < n <= |nodes| == |nodes'|
    requires forall c :: 0 <= c < n && c != d && c != e ==> NamedIn(nodes', live', i, c) == NamedIn(nodes, live, i, c)
    ensures RefsBelow(nodes', live', i, n) ==
            RefsBelow(nodes, live, i, n) + NamedIn(nodes', live', i, d) - NamedIn(nodes, live, i, d)
                                              + NamedIn(nodes', live', i, e) - NamedIn(nodes, live, i, e)
  {
    if n - 1 > e {
      RefsTwo(nodes, live, nodes', live', i, n - 1, d, e);
    } else {
      RefsOne(nodes, live, nodes', live', i, n - 1, d);
    }
  }

  // ------------------------------------------------------------- the tree

  /** Entry k of linked directory d names an allocated inode; a directory it names is
      linked, has d as its "..", and is named by no other entry of d. */
  ghost predicate EntryOk(nodes: seq<Node>, live: set<nat>, d: nat, k: nat)
    requires d < |nodes| && k < |nodes[d].entries|
  {
    var c := nodes[d].entries[k].inum;
    c != 0 ==>
      && c < |nodes| && !nodes[c].kind.Free?
      && (nodes[c].kind.Dir? ==>
            && c in live && c != ROOTINO && |nodes[c].entries| >= 2 && nodes[c].entries[1].inum == d
            && forall k' {:trigger nodes[d].entries[k']} :: 2 <= k' < |nodes[d].entries| && k' != k ==>
                 nodes[d].entries[k'].inum != c)
  }

  /** A linked directory starts with "." and "..", and its parent, unless it is the root,
      has an entry for it. */
  ghost predicate DirOk(nodes: seq<Node>, live: set<nat>, d: nat)
    requires d < |nodes|
  {
    var es := nodes[d].entries;
    && d != 0 && nodes[d].kind.Dir? && |es| >= 2 && es[0].inum == d && es[0].name == "." && es[1].name == ".."
    && es[1].inum in live && es[1].inum < |nodes| && (d == ROOTINO ==> es[1].inum == ROOTINO)
    && (d != ROOTINO ==> exists k :: 2 <= k < |nodes[es[1].inum].entries| && nodes[es[1].inum].entries[k].inum == d)
    && forall k {:trigger EntryOk(nodes, live, d, k)} :: 2 <= k < |es| ==> EntryOk(nodes, live, d, k)
  }

  ghost predicate Tree(nodes: seq<Node>, live: set<nat>) {
    && ROOTINO in live
    && (forall d :: d in live ==> d < |nodes|)
    && (forall d {:trigger DirOk(nodes, live, d)} :: d in live ==> DirOk(nodes, live, d))
    && (forall i {:trigger nodes[i]} :: 0 <= i < |nodes| && nodes[i].kind.Free? ==>
         nodes[i].nlink == 0 && nodes[i].entries == [])
  }

  ghost predicate Balanced(nodes: seq<Node>, live: set<nat>, nodes': seq<Node>, live': set<nat>) {
    |nodes'| == |nodes| && forall i {:trigger Balance(nodes', live', i)} :: 0 < i < |nodes| ==>
        Balance(nodes', live', i) == Balance(nodes, live, i)
  }

  // ------------------------------------------------------ directory slots

  /** The slot dirlink uses: the first empty one, else a new one at the end. */
  function FreeSlot(es: seq<Dirent>): (k: nat)
    ensures k <= |es| && (k < |es| ==> es[k].inum == 0) && forall j {:trigger es[j]} :: 0 <= j < k ==> es[j].inum != 0
  {
    if es == [] then 0
    else
      var k := FreeSlot(es[..|es| - 1]);
      if k < |es| - 1 || es[k].inum == 0 then k else |es|
  }

  function PutEntry(es: seq<Dirent>, k: nat, e: Dirent): seq<Dirent>
    requires k <= |es|
  {
    if k < |es| then es[k := e] else es + [e]
  }

  function SetEntries(nodes: seq<Node>, d: nat, es: seq<Dirent>): seq<Node>
    requires d < |nodes|
  {
    nodes[d := nodes[d].(entries := es)]
  }

  function SetNlink(nodes: seq<Node>, i: nat, n: short): seq<Node>
    requires i < |nodes|
  {
    nodes[i := nodes[i].(nlink := n)]
  }

  /** A new entry in a linked directory is one more reference to what it names. */
  lemma EntryCounts(nodes: seq<Node>, live: set<nat>, d: nat, k: nat, e: Dirent, i: nat)
    requires d < |nodes| && d in live && 1 <= k <= |nodes[d].entries|
             && (k < |nodes[d].entries| ==> nodes[d].entries[k].inum == 0) && i != 0
    ensures Refs(SetEntries(nodes, d, PutEntry(nodes[d].entries, k, e)), live, i) ==
            Refs(nodes, live, i) + if e.inum == i then 1 else 0
  {
    var es := nodes[d].entries;
    var nodes' := SetEntries(nodes, d, PutEntry(es, k, e));
    if k < |es| {
      NamedUpdate(es, k, e, i, |es|);
    } else {
      NamedAppend(es, e, i);
    }
    RefsOne(nodes, live, nodes', live, i, |nodes|, d);
  }

  /** Clearing a slot takes one reference away. */
  lemma ClearCounts(nodes: seq<Node>, live: set<nat>, d: nat, k: nat, i: nat)
    requires d < |nodes| && d in live && 1 <= k < |nodes[d].entries| && i != 0
    ensures Refs(SetEntries(nodes, d, nodes[d].entries[k := Dirent(0, "")]), live, i) ==
            Refs(nodes, live, i) - if nodes[d].entries[k].inum == i then 1 else 0
  {
    var es := nodes[d].entries;
    NamedUpdate(es, k, Dirent(0, ""), i, |es|);
    RefsOne(nodes, live, SetEntries(nodes, d, es[k := Dirent(0, "")]), live, i, |nodes|, d);
  }

  /** Entries of directories that are not linked do not count. */
  lemma UnlinkedCounts(nodes: seq<Node>, live: set<nat>, d: nat, es: seq<Dirent>, i: nat)
    requires d < |nodes| && d !in live
    ensures Refs(SetEntries(nodes, d, es), live, i) == Refs(nodes, live, i)
  {
    RefsSame(nodes, live, SetEntries(nodes, d, es), live, i, |nodes|);
  }

  /** Link counts do not matter to references. */
  lemma NlinkCounts(nodes: seq<Node>, live: set<nat>, j: nat, n: short, i: nat)
    requires j < |nodes|
    ensures Refs(SetNlink(nodes, j, n), live, i) == Refs(nodes, live, i)
  {
    RefsSame(nodes, live, SetNlink(nodes, j, n), live, i, |nodes|);
  }

  /** A directory that stops being linked takes its references with it: only its ".."
      counted if it is otherwise empty. */
  lemma OrphanCounts(nodes: seq<Node>, live: set<nat>, c: nat, i: nat)
    requires c in live && c < |nodes| && i != 0 && |nodes[c].entries| >= 2
    requires forall k {:trigger nodes[c].entries[k]} :: 2 <= k < |nodes[c].entries| ==> nodes[c].entries[k].inum == 0
    ensures Refs(nodes, live - {c}, i) == Refs(nodes, live, i) - if nodes[c].entries[1].inum == i then 1 else 0
  {
    RefsOne(nodes, live, nodes, live - {c}, i, |nodes|, c);
    NamedOnlyParent(nodes[c].entries, i, |nodes[c].entries|);
  }

  lemma {:induction false} NamedOnlyParent(es: seq<Dirent>, i: nat, n: nat)
    requires 2 <= n <= |es| && i != 0 && forall k {:trigger es[k]} :: 2 <= k < |es| ==> es[k].inum == 0
    ensures Named(es, i, n) == if es[1].inum == i then 1 else 0
  {
    if n > 2 {
      NamedOnlyParent(es, i, n - 1);
    } else {
      assert Named(es, i, 1) == 0;
    }
  }

  // ---------------------------------------------- what keeps the tree a tree

  /** Link counts do not matter to the tree. */
  lemma TreeNlink(nodes: seq<Node>, live: set<nat>, j: nat, n: short)
    requires Tree(nodes, live) && j < |nodes| && !nodes[j].kind.Free?
    ensures Tree(SetNlink(nodes, j, n), live)
  {
    var nodes' := SetNlink(nodes, j, n);
    forall d | d in live ensures DirOk(nodes', live, d) {
      assert DirOk(nodes, live, d);
      forall k | 2 <= k < |nodes'[d].entries| ensures EntryOk(nodes', live, d, k) {
        assert EntryOk(nodes, live, d, k);
      }
    }
  }

  /** Entries of a directory that is not linked do not matter either. */
  lemma TreeUnlinked(nodes: seq<Node>, live: set<nat>, d: nat, es: seq<Dirent>)
    requires Tree(nodes, live) && d < |nodes| && d !in live && !nodes[d].kind.Free?
    ensures Tree(SetEntries(nodes, d, es), live)
  {
    var nodes' := SetEntries(nodes, d, es);
    forall c | c in live ensures DirOk(nodes', live, c) {
      assert DirOk(nodes, live, c);
      forall k | 2 <= k < |nodes'[c].entries| ensures EntryOk(nodes', live, c, k) {
        assert EntryOk(nodes, live, c, k);
      }
    }
  }

  /** Where dirlink puts an entry of a linked directory. */
  lemma SlotAfterDots(nodes: seq<Node>, live: set<nat>, d: nat)
    requires Tree(nodes, live) && d in live
    ensures d < |nodes| && FreeSlot(nodes[d].entries) >= 2
  {
    assert DirOk(nodes, live, d);
    assert DirOk(nodes, live, nodes[d].entries[1].inum);
  }

  /** Naming a file in a linked directory. */
  lemma TreeLink(nodes: seq<Node>, live: set<nat>, d: nat, e: Dirent)
    requires Tree(nodes, live) && d in live && 0 < e.inum < |nodes| && !nodes[e.inum].kind.Free?
             && !nodes[e.inum].kind.Dir?
    ensures d < |nodes| && Tree(SetEntries(nodes, d, PutEntry(nodes[d].entries, FreeSlot(nodes[d].entries), e)), live)
  {
    SlotAfterDots(nodes, live, d);
    var k0 := FreeSlot(nodes[d].entries);
    var nodes' := SetEntries(nodes, d, PutEntry(nodes[d].entries, k0, e));
    assert e.inum in live ==> DirOk(nodes, live, e.inum);
    forall c | c in live ensures DirOk(nodes', live, c) {
      PutKeepsDir(nodes, live, live, nodes', d, k0, e, c);
    }
  }

  /** Putting an entry in an empty slot of d leaves linked directory c in order. */
  lemma PutKeepsDir(nodes: seq<Node>, live: set<nat>, live': set<nat>, nodes': seq<Node>, d: nat, k0: nat,
                    e: Dirent, c: nat)
    requires Tree(nodes, live) && c in live && live <= live' && d in live && |nodes'| == |nodes|
    requires 2 <= k0 <= |nodes[d].entries| && (k0 < |nodes[d].entries| ==> nodes[d].entries[k0].inum == 0)
             && 0 < e.inum < |nodes|
    requires nodes'[d].entries == PutEntry(nodes[d].entries, k0, e)
    requires forall i {:trigger nodes'[i]} :: 0 <= i < |nodes| && i in live ==>
             nodes'[i].kind == nodes[i].kind && (i != d ==> nodes'[i].entries == nodes[i].entries)
    requires forall i {:trigger nodes'[i]} :: 0 <= i < |nodes| && !nodes[i].kind.Free? ==>
             nodes'[i].kind == nodes[i].kind
    requires e.inum !in live && (nodes'[e.inum].kind.Dir? ==>
             e.inum in live' && e.inum != ROOTINO && |nodes'[e.inum].entries| >= 2
                 && nodes'[e.inum].entries[1].inum == d)
    requires !nodes'[e.inum].kind.Free? && (nodes[e.inum].kind.Free? || !nodes[e.inum].kind.Dir?)
    ensures DirOk(nodes', live', c)
  {
    assert DirOk(nodes, live, c) && DirOk(nodes, live, d);
    var es, p := nodes[c].entries, nodes[c].entries[1].inum;
    if c != ROOTINO {
      var k :| 2 <= k < |nodes[p].entries| && nodes[p].entries[k].inum == c;
      assert nodes'[p].entries[k].inum == c;
    }
    forall k | 2 <= k < |nodes'[c].entries| ensures EntryOk(nodes', live', c, k) {
      if c == d && k == k0 {
        forall k' | 2 <= k' < |nodes'[d].entries| && k' != k0 && nodes'[e.inum].kind.Dir?
            ensures nodes'[d].entries[k'].inum != e.inum {
          assert EntryOk(nodes, live, d, k');
        }
      } else {
        assert EntryOk(nodes, live, c, k);
        var x := nodes[c].entries[k].inum;
        if x != 0 && nodes[x].kind.Dir? {
          assert DirOk(nodes, live, x);
        }
      }
    }
  }

  /** Clearing the entry of a file. */
  lemma TreeClearFile(nodes: seq<Node>, live: set<nat>, d: nat, k0: nat)
    requires Tree(nodes, live) && d in live && d < |nodes| && 2 <= k0 < |nodes[d].entries|
    requires nodes[d].entries[k0].inum < |nodes| && !nodes[nodes[d].entries[k0].inum].kind.Dir?
    ensures Tree(SetEntries(nodes, d, nodes[d].entries[k0 := Dirent(0, "")]), live)
  {
    var nodes' := SetEntries(nodes, d, nodes[d].entries[k0 := Dirent(0, "")]);
    assert DirOk(nodes, live, d);
    forall c | c in live ensures DirOk(nodes', live, c) {
      assert DirOk(nodes, live, c);
      ClearKeepsDir(nodes, live, live, nodes', d, k0, c);
    }
  }

  /** Clearing an entry leaves linked directory c in order, unless it was c's own. */
  lemma ClearKeepsDir(nodes: seq<Node>, live: set<nat>, live': set<nat>, nodes': seq<Node>, d: nat, k0: nat, c: nat)
    requires Tree(nodes, live) && c in live' && live' <= live && d in live && d < |nodes|
             && 2 <= k0 < |nodes[d].entries|
    requires nodes' == SetEntries(nodes, d, nodes[d].entries[k0 := Dirent(0, "")]) && nodes[d].entries[k0].inum != c
    requires nodes[c].entries != [] ==> |nodes[c].entries| >= 2 && nodes[c].entries[1].inum in live'
    requires forall k {:trigger nodes[c].entries[k]} ::
               2 <= k < |nodes[c].entries| && nodes[c].entries[k].inum in live && !(c == d && k == k0) ==>
               nodes[c].entries[k].inum in live'
    ensures DirOk(nodes', live', c)
  {
    assert DirOk(nodes, live, c);
    var p := nodes[c].entries[1].inum;
    if c != ROOTINO {
      var k :| 2 <= k < |nodes[p].entries| && nodes[p].entries[k].inum == c;
      assert nodes'[p].entries[k].inum == c;
    }
    forall k | 2 <= k < |nodes'[c].entries| ensures EntryOk(nodes', live', c, k) {
      assert EntryOk(nodes, live, c, k);
      var x := nodes[c].entries[k].inum;
      if x != 0 && nodes[x].kind.Dir? {
        assert DirOk(nodes, live, x);
      }
    }
  }

  /** Clearing the entry of an empty directory, which is then no longer linked. */
  lemma TreeClearDir(nodes: seq<Node>, live: set<nat>, d: nat, k0: nat)
    requires Tree(nodes, live) && d in live && d < |nodes| && 2 <= k0 < |nodes[d].entries|
    requires 0 < nodes[d].entries[k0].inum < |nodes| && nodes[nodes[d].entries[k0].inum].kind.Dir?
    requires var c := nodes[d].entries[k0].inum;
             forall k {:trigger nodes[c].entries[k]} :: 2 <= k < |nodes[c].entries| ==> nodes[c].entries[k].inum == 0
    ensures var c := nodes[d].entries[k0].inum;
            && c in live && c != d && |nodes[c].entries| >= 2 && nodes[c].entries[1].inum == d
            && Tree(SetEntries(nodes, d, nodes[d].entries[k0 := Dirent(0, "")]), live - {c})
  {
    var nodes' := SetEntries(nodes, d, nodes[d].entries[k0 := Dirent(0, "")]);
    var c := nodes[d].entries[k0].inum;
    assert DirOk(nodes, live, d) && EntryOk(nodes, live, d, k0) && DirOk(nodes, live, c);
    forall x | x in live - {c} ensures DirOk(nodes', live - {c}, x) {
      assert DirOk(nodes, live, x);
      forall k | 2 <= k < |nodes[x].entries| && nodes[x].entries[k].inum in live && !(x == d && k == k0)
        ensures nodes[x].entries[k].inum in live - {c}
      {
        assert EntryOk(nodes, live, x, k);
      }
      ClearKeepsDir(nodes, live, live - {c}, nodes', d, k0, x);
    }
  }

  /** A new file or directory in a linked directory. */
  lemma TreeCreate(nodes: seq<Node>, live: set<nat>, d: nat, c: nat, node: Node, name: string)
    requires Tree(nodes, live) && d in live && d < |nodes| && 0 < c < |nodes| && nodes[c].kind.Free? && !node.kind.Free?
    requires node.kind.Dir? ==> node.entries == [Dirent(c, "."), Dirent(d, "..")]
    ensures c != d && c !in live
    ensures var live' := if node.kind.Dir? then live + {c} else live;
            Tree(SetEntries(nodes[c := node], d, PutEntry(nodes[d].entries, FreeSlot(nodes[d].entries),
                Dirent(c, name))), live')
  {
    SlotAfterDots(nodes, live, d);
    assert DirOk(nodes, live, d);
    assert c in live ==> DirOk(nodes, live, c);
    assert DirOk(nodes, live, ROOTINO);
    var k0, e := FreeSlot(nodes[d].entries), Dirent(c, name);
    var nodes' := SetEntries(nodes[c := node], d, PutEntry(nodes[d].entries, k0, e));
    var live' := if node.kind.Dir? then live + {c} else live;
    forall x | x in live ensures DirOk(nodes', live', x) {
      PutKeepsDir(nodes, live, live', nodes', d, k0, e, x);
    }
    assert nodes'[d].entries[k0].inum == c;
    assert c in live' ==> DirOk(nodes', live', c);
  }

  lemma {:induction false} NamedAtLeast(es: seq<Dirent>, k: nat, n: nat)
    requires 1 <= k < n <= |es|
    ensures Named(es, es[k].inum, n) >= 1
  {
    if n - 1 > k {
      NamedAtLeast(es, k, n - 1);
    }
  }

  /** An entry of a linked directory is counted. */
  lemma {:induction false} NamedCounts(nodes: seq<Node>, live: set<nat>, d: nat, k: nat, n: nat)
    requires d in live && d < n <= |nodes| && 1 <= k < |nodes[d].entries|
    ensures RefsBelow(nodes, live, nodes[d].entries[k].inum, n) > 0
  {
    if n - 1 > d {
      NamedCounts(nodes, live, d, k, n - 1);
    } else {
      NamedAtLeast(nodes[d].entries, k, |nodes[d].entries|);
    }
  }

  /** Entry k is in use and has this name. */
  predicate Matches(es: seq<Dirent>, name: string, k: nat)
    requires k < |es|
  {
    es[k].inum != 0 && es[k].name == name
  }

  /** Some entry in use has this name. */
  ghost predicate HasName(es: seq<Dirent>, name: string) {
    exists k :: 0 <= k < |es| && Matches(es, name, k)
  }

  /** The first entry in use with this name, |es| if there is none. */
  ghost function Find(es: seq<Dirent>, name: string): (k: nat)
    ensures k <= |es| && (k < |es| <==> HasName(es, name)) && (k < |es| ==> Matches(es, name, k))
    ensures forall j :: 0 <= j < k ==> !Matches(es, name, j)
  {
    if es == [] then 0
    else
      var before := es[..|es| - 1];
      var k := Find(before, name);
      assert forall j {:trigger Matches(es, name, j)} :: 0 <= j < |before| ==>
          Matches(es, name, j) == Matches(before, name, j);
      if k < |before| then
        assert Matches(es, name, k); k
      else if Matches(es, name, |es| - 1) then |es| - 1
      else |es|
  }

  /** The inode a name leads to. */
  ghost function Lookup(es: seq<Dirent>, name: string): Option<nat> {
    var k := Find(es, name);
    if k < |es| then Some(es[k].inum) else None
  }

  /** The name now leads to inum, and every other name to where it did. */
  ghost predicate NameAdded(es: seq<Dirent>, es': seq<Dirent>, name: string, inum: nat) {
    Lookup(es', name) == Some(inum) && forall other :: other != name ==> Lookup(es', other) == Lookup(es, other)
  }

  /** No two entries in use have one name. */
  ghost predicate NamesOnce(es: seq<Dirent>) {
    forall i, j {:trigger es[i], es[j]} :: 0 <= i < j < |es| && es[i].inum != 0 && es[j].inum != 0 ==>
        es[i].name != es[j].name
  }

  ghost predicate AllOnce(nodes: seq<Node>) {
    forall d {:trigger nodes[d]} :: 0 <= d < |nodes| ==> NamesOnce(nodes[d].entries)
  }

  lemma FoundAt(es: seq<Dirent>, name: string, k: nat)
    requires k < |es| && Matches(es, name, k) && forall j :: 0 <= j < k ==> !Matches(es, name, j)
    ensures Find(es, name) == k
  {
  }

  lemma PutLookup(es: seq<Dirent>, k: nat, e: Dirent, other: string)
    requires k <= |es| && (k < |es| ==> es[k].inum == 0) && e.inum != 0 && !HasName(es, e.name)
    ensures Lookup(PutEntry(es, k, e), other) == if other == e.name then Some(e.inum) else Lookup(es, other)
  {
    var es' := PutEntry(es, k, e);
    assert forall j :: 0 <= j < |es| && j != k ==> Matches(es', other, j) == Matches(es, other, j);
    if other == e.name {
      FoundAt(es', other, k);
    } else {
      assert !Matches(es', other, k);
      var f := Find(es, other);
      if f < |es| {
        FoundAt(es', other, f);
      }
    }
  }

  lemma PutName(es: seq<Dirent>, k: nat, e: Dirent)
    requires k <= |es| && (k < |es| ==> es[k].inum == 0) && e.inum != 0 && !HasName(es, e.name)
    ensures NameAdded(es, PutEntry(es, k, e), e.name, e.inum)
    ensures NamesOnce(es) ==> NamesOnce(PutEntry(es, k, e))
  {
    PutLookup(es, k, e, e.name);
    forall other | other != e.name ensures Lookup(PutEntry(es, k, e), other) == Lookup(es, other) {
      PutLookup(es, k, e, other);
    }
    if NamesOnce(es) {
      var es' := PutEntry(es, k, e);
      assert forall j :: 0 <= j < |es| ==> !Matches(es, e.name, j);
      forall i, j | 0 <= i < j < |es'| && es'[i].inum != 0 && es'[j].inum != 0 ensures es'[i].name != es'[j].name {
        assert i != k ==> es'[i] == es[i];
        assert j != k ==> es'[j] == es[j];
        assert i == k ==> !Matches(es, e.name, j);
        assert j == k ==> !Matches(es, e.name, i);
      }
    }
  }

  /** Clearing the entry of a name: every other name leads where it did, and that name
      nowhere if it was there once. */
  lemma ClearName(es: seq<Dirent>, k: nat, name: string)
    requires k < |es| && Find(es, name) == k
    ensures forall other :: other != name ==> Lookup(es[k := Dirent(0, "")], other) == Lookup(es, other)
    ensures NamesOnce(es) ==> Lookup(es[k := Dirent(0, "")], name) == None && NamesOnce(es[k := Dirent(0, "")])
  {
    var es' := es[k := Dirent(0, "")];
    forall other | other != name ensures Lookup(es', other) == Lookup(es, other) {
      assert forall j :: 0 <= j < |es| ==> Matches(es', other, j) == Matches(es, other, j);
      var f := Find(es, other);
      if f < |es| {
        FoundAt(es', other, f);
      }
    }
    assert NamesOnce(es) ==> forall j :: 0 <= j < |es| ==> !Matches(es', name, j);
  }

  ghost predicate EmptyDir(es: seq<Dirent>) {
    forall k {:trigger es[k]} :: 2 <= k < |es| ==> es[k].inum == 0
  }

  // ------------------------------------------------------- inode numbers

  ghost predicate Below(es: seq<Dirent>, n: nat) {
    forall k {:trigger es[k]} :: 0 <= k < |es| ==> es[k].inum < n
  }

  /** Entries, also those of directories that are not linked, name inodes. */
  ghost predicate InRange(nodes: seq<Node>) {
    forall d {:trigger nodes[d]} :: 0 <= d < |nodes| ==> Below(nodes[d].entries, |nodes|)
  }

  lemma PutBelow(es: seq<Dirent>, k: nat, e: Dirent, n: nat)
    requires Below(es, n) && k <= |es| && e.inum < n
    ensures Below(PutEntry(es, k, e), n)
  {
  }

  /** The inodes after link has added an entry for ip to directory d. */
  function NewLink(nodes: seq<Node>, ip: nat, d: nat, name: string): seq<Node>
    requires ip < |nodes| && d < |nodes|
  {
    var es := nodes[d].entries;
    SetEntries(SetNlink(nodes, ip, Incr(nodes[ip].nlink)), d, PutEntry(es, FreeSlot(es), Dirent(ip, name)))
  }

  /** The inodes after unlink has cleared slot k of directory d. */
  function WithoutLink(nodes: seq<Node>, d: nat, k: nat): seq<Node>
    requires d < |nodes| && k < |nodes[d].entries| && nodes[d].entries[k].inum < |nodes|
  {
    var ip := nodes[d].entries[k].inum;
    var nodes1 := SetEntries(nodes, d, nodes[d].entries[k := Dirent(0, "")]);
    var nodes2 := if nodes[ip].kind.Dir? then SetNlink(nodes1, d, Decr(nodes1[d].nlink)) else nodes1;
    SetNlink(nodes2, ip, Decr(nodes2[ip].nlink))
  }

  datatype Outcome = Ok | Failed | Panic

  class Dirs {
    var nodes: seq<Node>
    ghost var live: set<nat>  // directories reachable from the root

    ghost predicate Valid()
      reads this
    {
      Tree(nodes, live) && InRange(nodes)
    }

    /** The inodes of a disk, such as the one mkfs leaves. */
    constructor (image: seq<Node>, ghost linked: set<nat>)
      requires Tree(image, linked) && InRange(image)
      ensures Valid() && nodes == image && live == linked
    {
      nodes, live := image, linked;
    }

    /** dirlookup: the first entry with that name. */
    method Dirlookup(d: nat, name: string) returns (r: Option<nat>)
      requires d < |nodes|
      ensures r == var k := Find(nodes[d].entries, name); if k < |nodes[d].entries| then Some(k) else None
    {
      var es := nodes[d].entries;
      var off := 0;
      while off < |es|
        invariant 0 <= off <= |es|
        invariant forall k :: 0 <= k < off ==> !Matches(es, name, k)
      {
        if Matches(es, name, off) {
          return Some(off);
        }
        off := off + 1;
      }
      return None;
    }

    /** dirlink: -1 if the name is taken; a panic if the directory cannot grow. */
    method Dirlink(d: nat, name: string, inum: nat) returns (r: Outcome)
      requires d < |nodes|
      modifies this`nodes
      ensures r.Ok? ==>
              nodes == SetEntries(old(nodes), d, PutEntry(old(nodes[d]).entries, FreeSlot(old(nodes[d]).entries),
                  Dirent(inum, name)))
      ensures r.Ok? && inum != 0 ==> NameAdded(old(nodes[d]).entries, nodes[d].entries, name, inum)
      ensures r.Ok? ==>
                && |nodes| == |old(nodes)| && nodes[d].kind == old(nodes[d]).kind
                     && nodes[d].nlink == old(nodes[d]).nlink
                && forall i :: 0 <= i < |nodes| && i != d ==> nodes[i] == old(nodes[i])
      ensures r.Failed? <==> HasName(old(nodes[d]).entries, name)
      ensures !r.Ok? ==> nodes == old(nodes)
      ensures r.Panic? <==> !HasName(old(nodes[d]).entries, name) && FreeSlot(old(nodes[d]).entries) >= MAXENTRIES
    {
      var found := Dirlookup(d, name);
      if found.Some? {
        return Failed;
      }
      var es := nodes[d].entries;
      var off := 0;
      while off < |es|
        invariant 0 <= off <= |es| && forall j {:trigger es[j]} :: 0 <= j < off ==> es[j].inum != 0
      {
        if es[off].inum == 0 {
          break;
        }
        off := off + 1;
      }
      assert off == FreeSlot(es);
      if off >= MAXENTRIES {
        return Panic;
      }
      nodes := SetEntries(nodes, d, PutEntry(es, off, Dirent(inum, name)));
      if inum != 0 {
        PutName(es, off, Dirent(inum, name));
      }
      return Ok;
    }

    /** isdirempty: nothing after "." and "..". */
    method IsDirEmpty(d: nat) returns (empty: bool)
      requires d < |nodes|
      ensures empty <==> EmptyDir(nodes[d].entries)
    {
      var off := 2;
      while off < |nodes[d].entries|
        invariant 2 <= off
        invariant forall k {:trigger nodes[d].entries[k]} :: 2 <= k < off && k < |nodes[d].entries| ==>
                  nodes[d].entries[k].inum == 0
      {
        if nodes[d].entries[off].inum != 0 {
          return false;
        }
        off := off + 1;
      }
      return true;
    }

    /** sys_link, once `old` is found to be inode ip; dp is None if the new parent does not
        exist. */
    method Link(ip: nat, dp: Option<nat>, name: string) returns (r: Outcome)
      requires Valid() && 0 < ip < |nodes| && !nodes[ip].kind.Free?
      requires dp.Some? ==> dp.value < |nodes| && nodes[dp.value].kind.Dir?
      modifies this`nodes
      ensures Valid() && live == old(live) && |nodes| == |old(nodes)|
      ensures r.Failed? ==> nodes == old(nodes)
      ensures old(nodes[ip]).kind.Dir? || dp.None? ==> r.Failed?
      ensures dp.Some? && !old(nodes[ip]).kind.Dir? ==>
                && (r.Failed? <==> HasName(old(nodes[dp.value]).entries, name))
                && (r.Panic? <==>
                      !HasName(old(nodes[dp.value]).entries, name)
                          && FreeSlot(old(nodes[dp.value]).entries) >= MAXENTRIES)
      ensures r.Ok? ==> nodes == NewLink(old(nodes), ip, dp.value, name)
      ensures r.Ok? ==>
                && NameAdded(old(nodes[dp.value]).entries, nodes[dp.value].entries, name, ip)
                && nodes[ip] == old(nodes[ip]).(nlink := if old(nodes[ip]).nlink == SHORT_MAX then SHORT_MIN
                                                         else old(nodes[ip]).nlink + 1)
                && nodes[dp.value] == old(nodes[dp.value]).(entries := nodes[dp.value].entries)
                && forall i :: 0 <= i < |nodes| && i != ip && i != dp.value ==> nodes[i] == old(nodes[i])
      ensures AllOnce(old(nodes)) ==> AllOnce(nodes)
      ensures r.Ok? ==>
              (Balanced(old(nodes), live, nodes, live) <==> dp.value in live && old(nodes[ip]).nlink != SHORT_MAX)
    {
      if nodes[ip].kind.Dir? {
        return Failed;
      }
      TreeNlink(nodes, live, ip, Incr(nodes[ip].nlink));
      nodes := SetNlink(nodes, ip, Incr(nodes[ip].nlink));
      ghost var nodes1 := nodes;
      if dp.Some? {
        r := Dirlink(dp.value, name, ip);
        if r.Ok? {
          PutName(nodes1[dp.value].entries, FreeSlot(nodes1[dp.value].entries), Dirent(ip, name));
          Linked(old(nodes), live, ip, dp.value, name);
          NewLinkInRange(old(nodes), ip, dp.value, name);
          return;
        }
        if r.Panic? {
          return;
        }
      }
      nodes := SetNlink(nodes, ip, Decr(nodes[ip].nlink));
      assert nodes == old(nodes);
      return Failed;
    }

    /** create, once the parent is found to be dp: the inode found or made, Failed for
        create's 0. A new inode comes from ialloc, which takes the first free one. The
        parent may be a directory that has been unlinked, someone's cwd. */
    method Create(dp: nat, name: string, kind: Kind) returns (r: Outcome, ip: nat)
      requires Valid() && dp < |nodes| && nodes[dp].kind.Dir? && kind != Free
      modifies this
      ensures !r.Panic? ==> Valid() && |nodes| == |old(nodes)|
      ensures HasName(old(nodes[dp]).entries, name) ==>
                && nodes == old(nodes) && live == old(live) && !r.Panic?
                && ip == nodes[dp].entries[Find(nodes[dp].entries, name)].inum
                && (r.Ok? <==> (kind.File? && nodes[ip].kind.File?) || nodes[ip].kind.Dev?)
      ensures !HasName(old(nodes[dp]).entries, name) ==>
                && (r.Panic? <==> NoFreeInode(old(nodes)) || FreeSlot(old(nodes[dp]).entries) >= MAXENTRIES)
                && (!r.Panic? ==>
                      && r.Ok? && 0 < ip < |nodes| && old(nodes[ip]).kind.Free?
                      && nodes == Filled(old(nodes), dp, name, kind, ip)
                      && nodes[ip].kind == kind && nodes[ip].nlink == 1
                      && Added(old(nodes), nodes, dp, name, kind, ip)
                      && live == if kind.Dir? && dp in old(live) then old(live) + {ip} else old(live))
      ensures !r.Panic? && AllOnce(old(nodes)) ==> AllOnce(nodes)
      ensures !r.Panic? ==>
                (Balanced(old(nodes), old(live), nodes, live) <==>
                  || HasName(old(nodes[dp]).entries, name)
                  || (dp in old(live) && (kind.Dir? ==> old(nodes[dp]).nlink != SHORT_MAX)))
    {
      ip := 0;
      var k := Dirlookup(dp, name);
      if k.Some? {
        ip := nodes[dp].entries[k.value].inum;
        assert Below(nodes[dp].entries, |nodes|);
        if (kind.File? && nodes[ip].kind.File?) || nodes[ip].kind.Dev? {
          return Ok, ip;
        }
        return Failed, ip;
      }
      var free := Ialloc();
      if free.None? {
        return Panic, ip;
      }
      ip := free.value;
      FreeNotLinked(nodes, live, ip);
      r := Fill(dp, name, kind, ip);
      if r.Ok? {
        FilledShows(old(nodes), dp, name, kind, ip);
        FilledInRange(old(nodes), dp, name, kind, ip);
        if dp in live {
          Created(old(nodes), live, dp, ip, kind, name);
          live := if kind.Dir? then live + {ip} else live;
        } else {
          CreatedApart(old(nodes), live, dp, ip, kind, name);
        }
      }
    }

    /** The rest of create: the new inode, its dots, and its entry in the parent. */
    method Fill(dp: nat, name: string, kind: Kind, ip: nat) returns (r: Outcome)
      requires dp < |nodes| && 0 < ip < |nodes| && dp != ip && kind != Free
      requires !HasName(nodes[dp].entries, name)
      modifies this`nodes
      ensures |nodes| == |old(nodes)| && !r.Failed?
      ensures r.Panic? <==> FreeSlot(old(nodes[dp]).entries) >= MAXENTRIES
      ensures r.Ok? ==> nodes == Filled(old(nodes), dp, name, kind, ip)
      ensures r.Ok? ==> nodes[ip].kind == kind && nodes[ip].nlink == 1
      ensures r.Ok? ==> NameAdded(old(nodes[dp]).entries, nodes[dp].entries, name, ip)
    {
      nodes := nodes[ip := Node(kind, 1, [])];
      if kind.Dir? {
        nodes := SetNlink(nodes, dp, Incr(nodes[dp].nlink));
        Dots(dp, ip);
      }
      ghost var es := nodes[dp].entries;
      r := Dirlink(dp, name, ip);
    }

    /** `dirlink(ip, ".", ip)` and `dirlink(ip, "..", dp)` on an empty directory. */
    method Dots(dp: nat, ip: nat)
      requires 0 < ip < |nodes| && nodes[ip].entries == []
      modifies this`nodes
      ensures nodes == SetEntries(old(nodes), ip, [Dirent(ip, "."), Dirent(dp, "..")])
    {
      FirstSlots(Dirent(ip, "."), Dirent(dp, ".."));
      var r := Dirlink(ip, ".", ip);
      assert nodes == SetEntries(old(nodes), ip, [Dirent(ip, ".")]);
      assert |"."| != |".."|;
      r := Dirlink(ip, "..", dp);
    }

    /** ialloc: the first free inode from number 1 on; None is the panic "no inodes". */
    method Ialloc() returns (r: Option<nat>)
      ensures r.Some? ==> 0 < r.value < |nodes| && nodes[r.value].kind.Free? && forall i :: 1 <= i < r.value ==>
              !nodes[i].kind.Free?
      ensures r.None? <==> NoFreeInode(nodes)
    {
      var inum := 1;
      while inum < |nodes|
        invariant 1 <= inum && forall i :: 1 <= i < inum && i < |nodes| ==> !nodes[i].kind.Free?
      {
        if nodes[inum].kind.Free? {
          return Some(inum);
        }
        inum := inum + 1;
      }
      return None;
    }

    /** sys_unlink of `name` in directory dp, which may itself have been unlinked. */
    method Unlink(dp: nat, name: string) returns (r: Outcome)
      requires Valid() && dp < |nodes| && nodes[dp].kind.Dir?
      modifies this
      ensures Valid() && |nodes| == |old(nodes)|
      ensures r == UnlinkOutcome(old(nodes), dp, name)
      ensures r.Panic? <==>
                && name != "." && name != ".." && HasName(old(nodes[dp]).entries, name)
                && Target(old(nodes), dp, name).nlink < 1
      ensures r.Ok? <==>
                && name != "." && name != ".." && HasName(old(nodes[dp]).entries, name)
                && Target(old(nodes), dp, name).nlink >= 1
                && (Target(old(nodes), dp, name).kind.Dir? ==>
                      forall k :: 2 <= k < |Target(old(nodes), dp, name).entries| ==>
                        Target(old(nodes), dp, name).entries[k].inum == 0)
      ensures !r.Ok? ==> nodes == old(nodes) && live == old(live)
      ensures r.Ok? ==> nodes == WithoutLink(old(nodes), dp, Find(old(nodes[dp]).entries, name))
      ensures r.Ok? ==> Removed(old(nodes), nodes, dp, name)
      ensures AllOnce(old(nodes)) ==> AllOnce(nodes)
      ensures r.Ok? ==> live == if dp in old(live) && Target(old(nodes), dp, name).kind.Dir?
                               then old(live) - {old(nodes[dp]).entries[Find(old(nodes[dp]).entries, name)].inum}
                               else old(live)
      ensures Balanced(old(nodes), old(live), nodes, live) <==>
                || !r.Ok?
                || (dp in old(live) && (Target(old(nodes), dp, name).kind.Dir? ==> old(nodes[dp]).nlink != SHORT_MIN))
    {
      if name == "." || name == ".." {
        return Failed;
      }
      var k := Dirlookup(dp, name);
      if k.None? {
        return Failed;
      }
      var ip := nodes[dp].entries[k.value].inum;
      assert Below(nodes[dp].entries, |nodes|);
      if nodes[ip].nlink < 1 {
        return Panic;
      }
      if nodes[ip].kind.Dir? {
        var empty := IsDirEmpty(ip);
        if !empty {
          return Failed;
        }
      }
      nodes := SetEntries(nodes, dp, nodes[dp].entries[k.value := Dirent(0, "")]);
      if nodes[ip].kind.Dir? {
        nodes := SetNlink(nodes, dp, Decr(nodes[dp].nlink));
      }
      nodes := SetNlink(nodes, ip, Decr(nodes[ip].nlink));
      assert nodes == WithoutLink(old(nodes), dp, k.value);
      WithoutShows(old(nodes), dp, name);
      WithoutInRange(old(nodes), dp, k.value);
      if dp !in live {
        UnlinkedApart(old(nodes), live, dp, k.value);
      } else {
        AfterDots(old(nodes), live, dp, k.value);
        if nodes[ip].kind.Dir? {
          UnlinkedDir(old(nodes), live, dp, k.value);
          live := live - {ip};
        } else {
          UnlinkedFile(old(nodes), live, dp, k.value);
        }
      }
      return Ok;
    }

    /** iput of one of `ref` references; `valid` says whether the inode has been read from
        disk. The last reference to an inode without links frees it. */
    method Iput(ip: nat, ref: nat, valid: bool) returns (freed: bool)
      requires Valid() && 0 < ip < |nodes| && ref >= 1 && !nodes[ip].kind.Free?
      modifies this`nodes
      ensures freed <==> valid && old(nodes[ip]).nlink == 0 && ref == 1
      ensures nodes == if freed then Freed(old(nodes), ip) else old(nodes)
      ensures freed ==> nodes[ip].kind == Free && nodes[ip].nlink == 0 && nodes[ip].entries == []
      ensures forall i :: 0 <= i < |nodes| && i != ip ==> nodes[i] == old(nodes[i])
      ensures AllOnce(old(nodes)) ==> AllOnce(nodes)
      ensures Valid() <==> !freed || Refs(old(nodes), live, ip) == 0
      ensures Valid() ==> Balanced(old(nodes), live, nodes, live)
      ensures Exact(old(nodes), live) ==> Valid() && Exact(nodes, live)
    {
      freed := false;
      if valid && nodes[ip].nlink == 0 {
        if ref == 1 {
          FreedKeeps(nodes, live, ip);
          nodes := nodes[ip := nodes[ip].(entries := [])]; // itrunc
          nodes := nodes[ip := nodes[ip].(kind := Free)];
          freed := true;
        }
      }
    }
  }

  /** The inodes after iput has freed inode ip. */
  function Freed(nodes: seq<Node>, ip: nat): seq<Node>
    requires ip < |nodes|
  {
    nodes[ip := Node(Free, 0, [])]
  }

  lemma {:induction false} NamingSlot(es: seq<Dirent>, i: nat, n: nat) returns (k: nat)
    requires n <= |es| && Named(es, i, n) > 0
    ensures 1 <= k < n && es[k].inum == i
  {
    if es[n - 1].inum == i {
      k := n - 1;
    } else {
      k := NamingSlot(es, i, n - 1);
    }
  }

  /** What is counted as named is named by an entry of a linked directory. */
  lemma {:induction false} NamingEntry(nodes: seq<Node>, live: set<nat>, i: nat, n: nat) returns (d: nat, k: nat)
    requires n <= |nodes| && RefsBelow(nodes, live, i, n) > 0
    ensures d < n && d in live && 1 <= k < |nodes[d].entries| && nodes[d].entries[k].inum == i
  {
    d := n - 1;
    if NamedIn(nodes, live, i, d) > 0 {
      k := NamingSlot(nodes[d].entries, i, |nodes[d].entries|);
    } else {
      d, k := NamingEntry(nodes, live, i, n - 1);
    }
  }

  /** Nothing linked names a free inode, so that ialloc may give it out. */
  lemma FreeNotNamed(nodes: seq<Node>, live: set<nat>, i: nat)
    requires Tree(nodes, live) && 0 < i < |nodes| && nodes[i].kind.Free?
    ensures Refs(nodes, live, i) == 0
  {
    if Refs(nodes, live, i) > 0 {
      var d, k := NamingEntry(nodes, live, i, |nodes|);
      LinkedNames(nodes, live, d, k);
    }
  }

  lemma LinkedNames(nodes: seq<Node>, live: set<nat>, d: nat, k: nat)
    requires Tree(nodes, live) && d in live && 1 <= k < |nodes[d].entries| && nodes[d].entries[k].inum != 0
    ensures nodes[d].entries[k].inum < |nodes| && !nodes[nodes[d].entries[k].inum].kind.Free?
  {
    assert DirOk(nodes, live, d);
    if k == 1 {
      assert DirOk(nodes, live, nodes[d].entries[1].inum);
    } else {
      assert EntryOk(nodes, live, d, k);
    }
  }

  lemma NotNamedNotLinked(nodes: seq<Node>, live: set<nat>, i: nat)
    requires Tree(nodes, live) && Refs(nodes, live, i) == 0
    ensures i !in live
  {
    if i in live {
      assert DirOk(nodes, live, i);
      var p := nodes[i].entries[1].inum;
      var k :| 1 <= k < |nodes[p].entries| && nodes[p].entries[k].inum == i;
      NamedCounts(nodes, live, p, k, |nodes|);
    }
  }

  /** Freeing an inode without links keeps the tree if and only if no linked directory
      names it, and then keeps every balance. */
  lemma FreedKeeps(nodes: seq<Node>, live: set<nat>, ip: nat)
    requires Tree(nodes, live) && InRange(nodes) && 0 < ip < |nodes| && nodes[ip].nlink == 0
    ensures InRange(Freed(nodes, ip))
    ensures Tree(Freed(nodes, ip), live) <==> Refs(nodes, live, ip) == 0
    ensures Refs(nodes, live, ip) == 0 ==> Balanced(nodes, live, Freed(nodes, ip), live)
    ensures Exact(nodes, live) ==> Refs(nodes, live, ip) == 0 && Exact(Freed(nodes, ip), live)
  {
    var nodes' := Freed(nodes, ip);
    forall d | 0 <= d < |nodes'| ensures Below(nodes'[d].entries, |nodes'|) {
      assert Below(nodes[d].entries, |nodes|);
    }
    assert Exact(nodes, live) ==> Balance(nodes, live, ip) == 0;
    if Refs(nodes, live, ip) == 0 {
      FreedKeepsTree(nodes, live, ip);
      forall i | 0 < i < |nodes| ensures Balance(nodes', live, i) == Balance(nodes, live, i) {
        RefsSame(nodes, live, nodes', live, i, |nodes|);
        assert nodes[i] == nodes[i];
      }
    } else if Tree(nodes', live) {
      var d, k := NamingEntry(nodes, live, ip, |nodes|);
      FreeNotNamed(nodes', live, ip);
      FreeNotLinked(nodes', live, ip);
      NamedCounts(nodes', live, d, k, |nodes|);
    }
  }

  lemma FreedKeepsTree(nodes: seq<Node>, live: set<nat>, ip: nat)
    requires Tree(nodes, live) && ip < |nodes| && Refs(nodes, live, ip) == 0
    ensures ip !in live && Tree(Freed(nodes, ip), live)
  {
    var nodes' := Freed(nodes, ip);
    NotNamedNotLinked(nodes, live, ip);
    forall d | d in live ensures DirOk(nodes', live, d) {
      assert DirOk(nodes, live, d);
      forall k | 2 <= k < |nodes'[d].entries| ensures EntryOk(nodes', live, d, k) {
        assert EntryOk(nodes, live, d, k);
        NamedCounts(nodes, live, d, k, |nodes|);
      }
    }
  }

  predicate NoFreeInode(nodes: seq<Node>) {
    forall i :: 1 <= i < |nodes| ==> !nodes[i].kind.Free?
  }

  /** The inode that `name` in directory d names. */
  ghost function Target(nodes: seq<Node>, d: nat, name: string): Node
    requires d < |nodes| && InRange(nodes) && HasName(nodes[d].entries, name)
  {
    assert Below(nodes[d].entries, |nodes|);
    nodes[nodes[d].entries[Find(nodes[d].entries, name)].inum]
  }

  /** How unlink ends: -1 for the dots, a missing name and a directory in use; the panic
      for a link count below one. */
  ghost function UnlinkOutcome(nodes: seq<Node>, d: nat, name: string): Outcome
    requires d < |nodes| && InRange(nodes)
  {
    if name == "." || name == ".." || !HasName(nodes[d].entries, name) then Failed
    else if Target(nodes, d, name).nlink < 1 then Panic
    else if Target(nodes, d, name).kind.Dir? && !EmptyDir(Target(nodes, d, name).entries) then Failed
    else Ok
  }

  /** In a linked directory the panic needs an inode with fewer links than entries. */
  lemma PanicMeansFewerLinks(nodes: seq<Node>, live: set<nat>, d: nat, name: string)
    requires Tree(nodes, live) && InRange(nodes) && d in live && d < |nodes| && UnlinkOutcome(nodes, d, name).Panic?
    ensures exists i :: 0 < i < |nodes| && Balance(nodes, live, i) < 0
  {
    var k := Find(nodes[d].entries, name);
    assert Below(nodes[d].entries, |nodes|);
    AfterDots(nodes, live, d, k);
    NamedCounts(nodes, live, d, k, |nodes|);
    assert Balance(nodes, live, nodes[d].entries[k].inum) < 0;
  }

  /** Every link count is the number of entries. */
  ghost predicate Exact(nodes: seq<Node>, live: set<nat>) {
    forall i {:trigger nodes[i]} :: 0 < i < |nodes| ==> Balance(nodes, live, i) == 0
  }

  /** With exact link counts no unlink in a linked directory panics, and whatever keeps
      the balance keeps them exact. */
  lemma ExactNeverPanics(nodes: seq<Node>, live: set<nat>, d: nat, name: string)
    requires Tree(nodes, live) && InRange(nodes) && Exact(nodes, live) && d in live && d < |nodes|
    ensures !UnlinkOutcome(nodes, d, name).Panic?
    ensures forall nodes', live' :: Balanced(nodes, live, nodes', live') ==> Exact(nodes', live')
  {
    if UnlinkOutcome(nodes, d, name).Panic? {
      PanicMeansFewerLinks(nodes, live, d, name);
    }
    forall nodes', live' | Balanced(nodes, live, nodes', live') ensures Exact(nodes', live') {
      forall i | 0 < i < |nodes'| ensures Balance(nodes', live', i) == 0 {
        assert Balance(nodes', live', i) == Balance(nodes, live, i);
        assert nodes[i] == nodes[i];
      }
    }
  }

  /** A name other than the dots is found after them. */
  lemma AfterDots(nodes: seq<Node>, live: set<nat>, d: nat, k: nat)
    requires Tree(nodes, live) && d in live && d < |nodes| && k < |nodes[d].entries| && nodes[d].entries[k].inum != 0
    requires nodes[d].entries[k].name != "." && nodes[d].entries[k].name != ".."
    ensures 2 <= k && 0 < nodes[d].entries[k].inum < |nodes| && !nodes[nodes[d].entries[k].inum].kind.Free?
  {
    assert DirOk(nodes, live, d);
    assert EntryOk(nodes, live, d, k);
  }

  lemma FirstSlots(a: Dirent, b: Dirent)
    requires a.inum != 0
    ensures FreeSlot([]) == 0 && PutEntry([], 0, a) == [a]
    ensures FreeSlot([a]) == 1 && PutEntry([a], 1, b) == [a, b]
  {
  }

  /** The inodes after create has made inode c in directory d. */
  function Filled(nodes: seq<Node>, d: nat, name: string, kind: Kind, c: nat): seq<Node>
    requires d < |nodes| && c < |nodes|
  {
    var es := nodes[d].entries;
    var node := Node(kind, 1, if kind.Dir? then [Dirent(c, "."), Dirent(d, "..")] else []);
    SetNlink(SetEntries(nodes[c := node], d, PutEntry(es, FreeSlot(es), Dirent(c, name))), d,
        if kind.Dir? then Incr(nodes[d].nlink) else nodes[d].nlink)
  }

  /** What create by that name leaves: an inode c of that kind with one link, led to by the
      name; the dots of a directory, which is empty but for them and counts as a link of
      d; every other name of d and every other inode as they were. */
  ghost predicate Added(nodes: seq<Node>, nodes': seq<Node>, d: nat, name: string, kind: Kind, c: nat) {
    && |nodes'| == |nodes| && d < |nodes| && c < |nodes| && c != d && nodes[c].kind.Free?
    && nodes'[c].kind == kind && nodes'[c].nlink == 1 && NameAdded(nodes[d].entries, nodes'[d].entries, name, c)
    && (if kind.Dir? then EmptyDir(nodes'[c].entries) && Lookup(nodes'[c].entries, ".") == Some(c)
                         && (d != 0 ==> Lookup(nodes'[c].entries, "..") == Some(d))
        else nodes'[c].entries == [])
    && nodes'[d].kind == nodes[d].kind
    && nodes'[d].nlink == (if !kind.Dir? then nodes[d].nlink
                           else if nodes[d].nlink == SHORT_MAX then SHORT_MIN else nodes[d].nlink + 1)
    && forall i :: 0 <= i < |nodes| && i != d && i != c ==> nodes'[i] == nodes[i]
  }

  lemma FilledShows(nodes: seq<Node>, d: nat, name: string, kind: Kind, c: nat)
    requires d < |nodes| && 0 < c < |nodes| && d != c && kind != Free && !HasName(nodes[d].entries, name)
    requires nodes[c].kind.Free?
    ensures Added(nodes, Filled(nodes, d, name, kind, c), d, name, kind, c)
    ensures AllOnce(nodes) ==> AllOnce(Filled(nodes, d, name, kind, c))
  {
    var es := nodes[d].entries;
    var nodes' := Filled(nodes, d, name, kind, c);
    PutName(es, FreeSlot(es), Dirent(c, name));
    if kind.Dir? {
      DotsFound(c, d);
    }
    if AllOnce(nodes) {
      forall i | 0 <= i < |nodes'| ensures NamesOnce(nodes'[i].entries) {
        assert NamesOnce(nodes[i].entries) && NamesOnce(nodes[d].entries);
      }
    }
  }

  lemma DotsFound(c: nat, d: nat)
    requires c != 0
    ensures var dots := [Dirent(c, "."), Dirent(d, "..")];
            && Lookup(dots, ".") == Some(c) && (d != 0 ==> Lookup(dots, "..") == Some(d)) && EmptyDir(dots)
            && NamesOnce(dots)
  {
    var dots := [Dirent(c, "."), Dirent(d, "..")];
    assert |"."| != |".."|;
    FoundAt(dots, ".", 0);
    if d != 0 {
      FoundAt(dots, "..", 1);
    }
  }

  /** What unlink of that name leaves: its first entry empty and every other entry as it
      was; the inode it named with one link less, a directory's ".." no link of d any
      more; every other name of d and every other inode as they were. */
  ghost predicate Removed(nodes: seq<Node>, nodes': seq<Node>, d: nat, name: string) {
    && |nodes'| == |nodes| && d < |nodes| && HasName(nodes[d].entries, name)
    && forall who {:trigger Lookup(nodes'[d].entries, who)} :: who == name ==>
       var es, es', k := nodes[d].entries, nodes'[d].entries, Find(nodes[d].entries, who);
       var ip := es[k].inum;
       && ip < |nodes| && |es'| == |es| && es'[k].inum == 0
       && (forall j :: 0 <= j < |es| && j != k ==> es'[j] == es[j])
       && (forall other :: other != name ==> Lookup(es', other) == Lookup(es, other))
       && (NamesOnce(es) ==> Lookup(es', name) == None)
       && (ip != d ==>
             && nodes'[ip].nlink == nodes[ip].nlink - 1 && nodes'[ip].entries == nodes[ip].entries
             && nodes'[d].nlink == (if !nodes[ip].kind.Dir? then nodes[d].nlink
                                    else if nodes[d].nlink == SHORT_MIN then SHORT_MAX else nodes[d].nlink - 1))
       && (forall i :: 0 <= i < |nodes| ==> nodes'[i].kind == nodes[i].kind)
       && forall i :: 0 <= i < |nodes| && i != d && i != ip ==> nodes'[i] == nodes[i]
  }

  lemma WithoutShows(nodes: seq<Node>, d: nat, name: string)
    requires d < |nodes| && HasName(nodes[d].entries, name)
    requires var ip := nodes[d].entries[Find(nodes[d].entries, name)].inum; ip < |nodes| && nodes[ip].nlink >= 1
    ensures Removed(nodes, WithoutLink(nodes, d, Find(nodes[d].entries, name)), d, name)
    ensures AllOnce(nodes) ==> AllOnce(WithoutLink(nodes, d, Find(nodes[d].entries, name)))
  {
    var k := Find(nodes[d].entries, name);
    ClearName(nodes[d].entries, k, name);
    var nodes' := WithoutLink(nodes, d, k);
    if AllOnce(nodes) {
      forall i | 0 <= i < |nodes'| ensures NamesOnce(nodes'[i].entries) {
        assert NamesOnce(nodes[i].entries) && NamesOnce(nodes[d].entries);
      }
    }
  }

  /** Create's net effect. */
  lemma Created(nodes: seq<Node>, live: set<nat>, d: nat, c: nat, kind: Kind, name: string)
    requires Tree(nodes, live) && d in live && d < |nodes| && 0 < c < |nodes| && nodes[c].kind.Free? && kind != Free
             && c != d && c !in live
    ensures var nodes', live' := Filled(nodes, d, name, kind, c), if kind.Dir? then live + {c} else live;
            && Tree(nodes', live')
            && (Balanced(nodes, live, nodes', live') <==> !(kind.Dir? && nodes[d].nlink == SHORT_MAX))
  {
    assert DirOk(nodes, live, d);
    var es, n := nodes[d].entries, if kind.Dir? then Incr(nodes[d].nlink) else nodes[d].nlink;
    var node := Node(kind, 1, if kind.Dir? then [Dirent(c, "."), Dirent(d, "..")] else []);
    var nodes1 := nodes[c := node];
    var nodes2 := SetEntries(nodes1, d, PutEntry(es, FreeSlot(es), Dirent(c, name)));
    var nodes', live' := SetNlink(nodes2, d, n), if kind.Dir? then live + {c} else live;
    TreeCreate(nodes, live, d, c, node, name);
    TreeNlink(nodes2, live', d, n);
    SlotAfterDots(nodes, live, d);
    forall i | 0 < i < |nodes|
      ensures Balance(nodes', live', i) - Balance(nodes, live, i) == if i == d
              && kind.Dir? then n - nodes[d].nlink - 1 else 0
    {
      RefsOne(nodes, live, nodes1, live', i, |nodes|, c);
      if kind.Dir? {
        NamedOnlyParent(node.entries, i, 2);
      }
      EntryCounts(nodes1, live', d, FreeSlot(es), Dirent(c, name), i);
      NlinkCounts(nodes2, live', d, n, i);
    }
    assert Balance(nodes', live', d) == Balance(nodes, live, d) <==> !(kind.Dir? && nodes[d].nlink == SHORT_MAX);
  }

  lemma FilledInRange(nodes: seq<Node>, d: nat, name: string, kind: Kind, c: nat)
    requires InRange(nodes) && d < |nodes| && c < |nodes| && d != c
    ensures InRange(Filled(nodes, d, name, kind, c))
  {
    assert Below(nodes[d].entries, |nodes|);
    PutBelow(nodes[d].entries, FreeSlot(nodes[d].entries), Dirent(c, name), |nodes|);
    var nodes' := Filled(nodes, d, name, kind, c);
    forall x | 0 <= x < |nodes'| ensures Below(nodes'[x].entries, |nodes'|) {
      assert Below(nodes[x].entries, |nodes|);
    }
  }

  lemma NewLinkInRange(nodes: seq<Node>, ip: nat, d: nat, name: string)
    requires InRange(nodes) && ip < |nodes| && d < |nodes|
    ensures InRange(NewLink(nodes, ip, d, name))
  {
    assert Below(nodes[d].entries, |nodes|);
    PutBelow(nodes[d].entries, FreeSlot(nodes[d].entries), Dirent(ip, name), |nodes|);
    var nodes' := NewLink(nodes, ip, d, name);
    forall x | 0 <= x < |nodes'| ensures Below(nodes'[x].entries, |nodes'|) {
      assert Below(nodes[x].entries, |nodes|);
    }
  }

  lemma WithoutInRange(nodes: seq<Node>, d: nat, k: nat)
    requires InRange(nodes) && d < |nodes| && k < |nodes[d].entries| && nodes[d].entries[k].inum < |nodes|
    ensures InRange(WithoutLink(nodes, d, k))
  {
    var nodes' := WithoutLink(nodes, d, k);
    forall x | 0 <= x < |nodes'| ensures Below(nodes'[x].entries, |nodes'|) {
      assert Below(nodes[x].entries, |nodes|);
    }
  }

  lemma FreeNotLinked(nodes: seq<Node>, live: set<nat>, c: nat)
    requires Tree(nodes, live) && c < |nodes| && nodes[c].kind.Free?
    ensures c !in live
  {
    assert c in live ==> DirOk(nodes, live, c);
  }

  /** A free inode taken, anywhere: nothing linked names it. */
  lemma TreeTake(nodes: seq<Node>, live: set<nat>, c: nat, node: Node)
    requires Tree(nodes, live) && c < |nodes| && nodes[c].kind.Free? && !node.kind.Free?
    ensures c !in live && Tree(nodes[c := node], live)
  {
    assert c in live ==> DirOk(nodes, live, c);
    var nodes' := nodes[c := node];
    forall d | d in live ensures DirOk(nodes', live, d) {
      assert DirOk(nodes, live, d);
      forall k | 2 <= k < |nodes'[d].entries| ensures EntryOk(nodes', live, d, k) {
        assert EntryOk(nodes, live, d, k);
      }
    }
  }

  /** create in a directory that is not linked: the new inode has a link and no entry
      that counts. */
  lemma CreatedApart(nodes: seq<Node>, live: set<nat>, d: nat, c: nat, kind: Kind, name: string)
    requires Tree(nodes, live) && d < |nodes| && d !in live && nodes[d].kind.Dir?
    requires 0 < c < |nodes| && nodes[c].kind.Free? && kind != Free
    ensures Tree(Filled(nodes, d, name, kind, c), live) && !Balanced(nodes, live, Filled(nodes, d, name, kind, c), live)
  {
    var es, n := nodes[d].entries, if kind.Dir? then Incr(nodes[d].nlink) else nodes[d].nlink;
    var node := Node(kind, 1, if kind.Dir? then [Dirent(c, "."), Dirent(d, "..")] else []);
    var nodes1, es' := nodes[c := node], PutEntry(es, FreeSlot(es), Dirent(c, name));
    var nodes2 := SetEntries(nodes1, d, es');
    var nodes' := SetNlink(nodes2, d, n);
    TreeTake(nodes, live, c, node);
    TreeUnlinked(nodes1, live, d, es');
    TreeNlink(nodes2, live, d, n);
    RefsSame(nodes, live, nodes1, live, c, |nodes|);
    UnlinkedCounts(nodes1, live, d, es', c);
    NlinkCounts(nodes2, live, d, n, c);
    assert Balance(nodes', live, c) == Balance(nodes, live, c) + 1;
  }

  /** unlink in a directory that is not linked: the inode loses a link that did not
      count. */
  lemma UnlinkedApart(nodes: seq<Node>, live: set<nat>, d: nat, k: nat)
    requires Tree(nodes, live) && d < |nodes| && d !in live && nodes[d].kind.Dir? && k < |nodes[d].entries|
    requires 0 < nodes[d].entries[k].inum < |nodes| && nodes[nodes[d].entries[k].inum].nlink >= 1
    ensures Tree(WithoutLink(nodes, d, k), live) && !Balanced(nodes, live, WithoutLink(nodes, d, k), live)
  {
    var ip, es := nodes[d].entries[k].inum, nodes[d].entries[k := Dirent(0, "")];
    var nodes1 := SetEntries(nodes, d, es);
    var n := if nodes[ip].kind.Dir? then Decr(nodes1[d].nlink) else nodes1[d].nlink;
    var nodes2 := SetNlink(nodes1, d, n);
    assert nodes2 == if nodes[ip].kind.Dir? then nodes2 else nodes1;
    var nodes' := SetNlink(nodes2, ip, Decr(nodes2[ip].nlink));
    TreeUnlinked(nodes, live, d, es);
    TreeNlink(nodes1, live, d, n);
    TreeNlink(nodes2, live, ip, Decr(nodes2[ip].nlink));
    UnlinkedCounts(nodes, live, d, es, ip);
    NlinkCounts(nodes1, live, d, n, ip);
    NlinkCounts(nodes2, live, ip, Decr(nodes2[ip].nlink), ip);
    assert Balance(nodes', live, ip) < Balance(nodes, live, ip);
  }

  /** Link's net effect. */
  lemma Linked(nodes: seq<Node>, live: set<nat>, ip: nat, d: nat, name: string)
    requires Tree(nodes, live) && 0 < ip < |nodes| && d < |nodes| && !nodes[ip].kind.Free? && !nodes[ip].kind.Dir?
             && nodes[d].kind.Dir?
    ensures var nodes' := NewLink(nodes, ip, d, name);
            && Tree(nodes', live)
            && (Balanced(nodes, live, nodes', live) <==> d in live && nodes[ip].nlink != SHORT_MAX)
  {
    var es := nodes[d].entries;
    var nodes1 := SetNlink(nodes, ip, Incr(nodes[ip].nlink));
    var nodes' := SetEntries(nodes1, d, PutEntry(es, FreeSlot(es), Dirent(ip, name)));
    TreeNlink(nodes, live, ip, Incr(nodes[ip].nlink));
    if d in live {
      TreeLink(nodes1, live, d, Dirent(ip, name));
      SlotAfterDots(nodes1, live, d);
    } else {
      TreeUnlinked(nodes1, live, d, PutEntry(es, FreeSlot(es), Dirent(ip, name)));
    }
    forall i | 0 < i < |nodes|
      ensures Balance(nodes', live, i) - Balance(nodes, live, i)
                == if i != ip then 0 else Incr(nodes[ip].nlink) - nodes[ip].nlink - if d in live then 1 else 0
    {
      NlinkCounts(nodes, live, ip, Incr(nodes[ip].nlink), i);
      if d in live {
        EntryCounts(nodes1, live, d, FreeSlot(es), Dirent(ip, name), i);
      } else {
        UnlinkedCounts(nodes1, live, d, PutEntry(es, FreeSlot(es), Dirent(ip, name)), i);
      }
    }
    assert Balance(nodes', live, ip) == Balance(nodes, live, ip) <==> d in live && nodes[ip].nlink != SHORT_MAX;
  }

  lemma UnlinkedFile(nodes: seq<Node>, live: set<nat>, d: nat, k: nat)
    requires Tree(nodes, live) && d in live && d < |nodes| && 2 <= k < |nodes[d].entries|
    requires 0 < nodes[d].entries[k].inum < |nodes|
    requires !nodes[nodes[d].entries[k].inum].kind.Dir? && !nodes[nodes[d].entries[k].inum].kind.Free?
             && nodes[nodes[d].entries[k].inum].nlink >= 1
    ensures var nodes' := WithoutLink(nodes, d, k);
            Tree(nodes', live) && Balanced(nodes, live, nodes', live)
  {
    var ip := nodes[d].entries[k].inum;
    var nodes1 := SetEntries(nodes, d, nodes[d].entries[k := Dirent(0, "")]);
    var nodes' := SetNlink(nodes1, ip, nodes1[ip].nlink - 1);
    assert DirOk(nodes, live, d);
    TreeClearFile(nodes, live, d, k);
    TreeNlink(nodes1, live, ip, nodes1[ip].nlink - 1);
    forall i | 0 < i < |nodes| ensures Balance(nodes', live, i) == Balance(nodes, live, i) {
      ClearCounts(nodes, live, d, k, i);
      NlinkCounts(nodes1, live, ip, nodes1[ip].nlink - 1, i);
    }
  }

  lemma UnlinkedDir(nodes: seq<Node>, live: set<nat>, d: nat, k: nat)
    requires Tree(nodes, live) && d in live && d < |nodes| && 2 <= k < |nodes[d].entries|
    requires 0 < nodes[d].entries[k].inum < |nodes| && nodes[nodes[d].entries[k].inum].kind.Dir?
             && nodes[nodes[d].entries[k].inum].nlink >= 1
    requires var c := nodes[d].entries[k].inum;
             forall j {:trigger nodes[c].entries[j]} :: 2 <= j < |nodes[c].entries| ==> nodes[c].entries[j].inum == 0
    ensures var ip := nodes[d].entries[k].inum;
            var nodes' := WithoutLink(nodes, d, k);
            && Tree(nodes', live - {ip}) && ip in live
            && (Balanced(nodes, live, nodes', live - {ip}) <==> nodes[d].nlink != SHORT_MIN)
  {
    var ip := nodes[d].entries[k].inum;
    var nodes1 := SetEntries(nodes, d, nodes[d].entries[k := Dirent(0, "")]);
    var nodes2 := SetNlink(nodes1, d, Decr(nodes1[d].nlink));
    var nodes' := SetNlink(nodes2, ip, nodes2[ip].nlink - 1);
    assert DirOk(nodes, live, d);
    TreeClearDir(nodes, live, d, k);
    TreeNlink(nodes1, live - {ip}, d, Decr(nodes1[d].nlink));
    TreeNlink(nodes2, live - {ip}, ip, nodes2[ip].nlink - 1);
    forall i | 0 < i < |nodes|
      ensures Balance(nodes', live - {ip}, i) - Balance(nodes, live, i) == if i ==
              d then Decr(nodes[d].nlink) - nodes[d].nlink + 1 else 0
    {
      ClearCounts(nodes, live, d, k, i);
      OrphanCounts(nodes1, live, ip, i);
      NlinkCounts(nodes1, live - {ip}, d, Decr(nodes1[d].nlink), i);
      NlinkCounts(nodes2, live - {ip}, ip, nodes2[ip].nlink - 1, i);
    }
    assert Balance(nodes', live - {ip}, d) == Balance(nodes, live, d) <==> nodes[d].nlink != SHORT_MIN;
  }

  // ------------------------------------------------------ what mkfs leaves

  /** A directory of mkfs: one link, whatever it holds. */
  function MadeDir(self: nat, parent: nat, rest: seq<Dirent>): Node {
    Node(Dir, 1, [Dirent(self, "."), Dirent(parent, "..")] + rest)
  }

  /** The inodes after makedirs, with n inodes in all: /, /dev, /bin, /home, /home/root
      and /etc. */
  function Made(n: nat): (nodes: seq<Node>)
    requires n >= 7
    ensures |nodes| == n
  {
    [Node(Free, 0, []),
     MadeDir(1, 1, [Dirent(2, "dev"), Dirent(3, "bin"), Dirent(4, "home"), Dirent(6, "etc")]),
     MadeDir(2, 1, []),
     MadeDir(3, 1, []),
     MadeDir(4, 1, [Dirent(5, "root")]),
     MadeDir(5, 4, []),
     MadeDir(6, 1, [])] + seq(n - 7, _ => Node(Free, 0, []))
  }

  const MADE: set<nat> := {1, 2, 3, 4, 5, 6}

  /** An entry for a subdirectory that has no other in d. */
  lemma MadeEntry(n: nat, d: nat, k: nat)
    requires n >= 7 && (d == 1 || d == 4) && 2 <= k < |Made(n)[d].entries|
    ensures EntryOk(Made(n), MADE, d, k)
  {
    var es := Made(n)[d].entries;
    assert d == 1 ==> es[2].inum == 2 && es[3].inum == 3 && es[4].inum == 4 && es[5].inum == 6;
    assert d == 4 ==> es[2].inum == 5;
  }

  lemma MadeDirOk(n: nat, d: nat)
    requires n >= 7 && d in MADE
    ensures DirOk(Made(n), MADE, d)
  {
    var nodes := Made(n);
    var up := nodes[nodes[d].entries[1].inum].entries;
    assert d == 2 ==> up[2].inum == d;
    assert d == 3 ==> up[3].inum == d;
    assert d == 4 ==> up[4].inum == d;
    assert d == 5 ==> up[2].inum == d;
    assert d == 6 ==> up[5].inum == d;
    forall k | 2 <= k < |nodes[d].entries| ensures EntryOk(nodes, MADE, d, k) {
      MadeEntry(n, d, k);
    }
  }

  lemma MadeBelow(n: nat, d: nat)
    requires n >= 7 && d < n
    ensures Below(Made(n)[d].entries, n)
    ensures Made(n)[d].kind.Free? ==> Made(n)[d].entries == [] && Made(n)[d].nlink == 0
  {
  }

  lemma AllBelow(n: nat)
    requires n >= 7
    ensures InRange(Made(n))
    ensures forall d {:trigger Made(n)[d]} :: 0 <= d < n && Made(n)[d].kind.Free? ==>
            Made(n)[d].nlink == 0 && Made(n)[d].entries == []
  {
    forall d | 0 <= d < n
      ensures Below(Made(n)[d].entries, n)
      ensures Made(n)[d].kind.Free? ==> Made(n)[d].nlink == 0 && Made(n)[d].entries == []
    {
      MadeBelow(n, d);
    }
  }

  lemma MadeTree(n: nat)
    requires n >= 7
    ensures Tree(Made(n), MADE) && InRange(Made(n))
  {
    var nodes := Made(n);
    AllBelow(n);
    assert forall d :: d in MADE <==> 1 <= d <= 6;
    MadeDirOk(n, 1);
    MadeDirOk(n, 2);
    MadeDirOk(n, 3);
    MadeDirOk(n, 4);
    MadeDirOk(n, 5);
    MadeDirOk(n, 6);
    TreeOf(nodes);
  }

  lemma TreeOf(nodes: seq<Node>)
    requires |nodes| >= 7
    requires DirOk(nodes, MADE, 1) && DirOk(nodes, MADE, 2) && DirOk(nodes, MADE, 3)
    requires DirOk(nodes, MADE, 4) && DirOk(nodes, MADE, 5) && DirOk(nodes, MADE, 6)
    requires forall d {:trigger nodes[d]} :: 0 <= d < |nodes| && nodes[d].kind.Free? ==>
             nodes[d].nlink == 0 && nodes[d].entries == []
    ensures Tree(nodes, MADE)
  {
  }

  lemma {:induction false} TwoNames(nodes: seq<Node>, live: set<nat>, i: nat, d: nat, j: nat, e: nat, k: nat, n: nat)
    requires d in live && e in live && d < e < n <= |nodes|
    requires 1 <= j < |nodes[d].entries| && 1 <= k < |nodes[e].entries|
    requires nodes[d].entries[j].inum == i == nodes[e].entries[k].inum
    ensures RefsBelow(nodes, live, i, n) >= 2
  {
    if n - 1 > e {
      TwoNames(nodes, live, i, d, j, e, k, n - 1);
    } else {
      NamedCounts(nodes, live, d, j, e);
      NamedAtLeast(nodes[e].entries, k, |nodes[e].entries|);
    }
  }

  /** mkfs does not count the ".." of a subdirectory: /home has one link and two
      entries that name it. */
  lemma MadeNotExact(n: nat)
    requires n >= 7
    ensures Balance(Made(n), MADE, 4) < 0 && !Exact(Made(n), MADE)
  {
    var nodes := Made(n);
    assert nodes[1].entries[4].inum == 4 && nodes[5].entries[1].inum == 4;
    TwoNames(nodes, MADE, 4, 1, 4, 5, 1, n);
    assert nodes[4].nlink == 1;
  }

  lemma HomeUnlinks(n: nat)
    requires n >= 7 && InRange(Made(n))
    ensures UnlinkOutcome(Made(n), 4, "root").Ok? && Find(Made(n)[4].entries, "root") == 2
    ensures var nodes := WithoutLink(Made(n), 4, 2);
            InRange(nodes) ==> UnlinkOutcome(nodes, 1, "home").Panic?
  {
    assert Matches(Made(n)[4].entries, "root", 2);
    assert Matches(WithoutLink(Made(n), 4, 2)[1].entries, "home", 4);
  }

  /** On the image of mkfs, removing /home/root and then /home ends in unlink's panic. */
  method RemoveHome(n: nat) returns (r: Outcome)
    requires n >= 7
    ensures r.Panic?
  {
    MadeTree(n);
    HomeUnlinks(n);
    var dirs := new Dirs(Made(n), MADE);
    r := dirs.Unlink(4, "root");
    r := dirs.Unlink(1, "home");
  }
}
