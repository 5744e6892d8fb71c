/** lab2/kernel/vm.c: Sv39 page tables (RISC-V Privileged Architecture,
    section 4.4) over the pages of kalloc.c, as a flat map from virtual page
    number to page-table entry. */
module PageTree {
  import opened PageMemory
  import opened Counting

  const V: bv10 := 1
  const R: bv10 := 2
  const W: bv10 := 4
  const X: bv10 := 8
  const U: bv10 := 16

  /** MAXVA / PGSIZE */
  const MAXVPN: nat := 0x400_0000

  /** A table of the tree: at level 2 the root, at level 0 the leaf tables;
      the prefix is the part of the page number that selects the table. */
  datatype Node = Node(level: nat, prefix: nat)

  const ROOT := Node(2, 0)

  function Child(n: Node, x: nat): Node
    requires n.level > 0
  {
    Node(n.level - 1, n.prefix * ENTRIES + x)
  }

  function Parent(n: Node): Node {
    Node(n.level + 1, n.prefix / ENTRIES)
  }

  /** PX(level, va) */
  function Px(level: nat, vpn: nat): nat {
    if level == 0 then vpn % ENTRIES else if level == 1 then vpn / ENTRIES % ENTRIES else vpn / ENTRIES / ENTRIES % ENTRIES
  }

  /** The table that a walk uses at each level. */
  function OnPath(level: nat, vpn: nat): Node {
    Node(level, if level == 0 then vpn / ENTRIES
                else if level == 1 then vpn / ENTRIES / ENTRIES
                else vpn / ENTRIES / ENTRIES / ENTRIES)
  }

  /** The tables besides the root that mapping a page takes. */
  ghost function PathTables(vpn: nat): set<Node> {
    {OnPath(1, vpn), OnPath(0, vpn)}
  }

  /** The same for all pages from first up to last. */
  ghost function Paths(first: nat, last: nat): set<Node>
    decreases last
  {
    if first >= last then {} else Paths(first, last - 1) + PathTables(last - 1)
  }

  /** These pages, free or in the tree, are enough for so many frames and for
      the tree with the tables that first to last take. */
  ghost predicate Enough(pages: set<nat>, tree: set<Node>, first: nat, last: nat, frames: nat) {
    |pages| >= |tree + Paths(first, last)| + frames
  }

  lemma PathStep(level: nat, vpn: nat)
    requires 0 < level <= 2 && vpn < MAXVPN
    ensures OnPath(level - 1, vpn) == Child(OnPath(level, vpn), Px(level, vpn))
    ensures OnPath(2, vpn) == ROOT && Px(level, vpn) < ENTRIES
  {
  }

  lemma ParentOfChild(n: Node, x: nat)
    requires n.level > 0 && x < ENTRIES
    ensures Parent(Child(n, x)) == n
  {
  }

  ghost predicate EntryOk(nodes: map<Node, nat>, n: Node, x: nat, e: Pte)
    requires n.level > 0
  {
    if Child(n, x) in nodes then e == Pte(nodes[Child(n, x)], V) else e.flags & V == 0
  }

  /** The node's page is a table, and at levels 2 and 1 its valid entries are
      exactly the pointers to its children. */
  ghost predicate NodeOk(page: map<nat, Page>, nodes: map<Node, nat>, n: Node)
    requires n in nodes
  {
    && nodes[n] in page && page[nodes[n]].Table? && |page[nodes[n]].ptes| == ENTRIES
    && n.level <= 2 && (n.level == 2 ==> n == ROOT) && (n.level < 2 ==> Parent(n) in nodes)
    && (n.level > 0 ==> forall x: nat :: x < ENTRIES ==> EntryOk(nodes, n, x, page[nodes[n]].ptes[x]))
    && (n.level == 0 ==> forall x: nat :: x < ENTRIES ==> LeafOk(page[nodes[n]].ptes[x]))
  }

  ghost predicate Mapped(e: Pte) {
    e.flags & V != 0
  }

  ghost predicate LeafOk(e: Pte) {
    Mapped(e) || e == NO_PTE
  }

  ghost predicate Tree(page: map<nat, Page>, nodes: map<Node, nat>) {
    && ROOT in nodes
    && (forall n :: n in nodes ==> NodeOk(page, nodes, n))
    && (forall m, n :: m in nodes && n in nodes && nodes[m] == nodes[n] ==> m == n)
  }

  /** The flat map: the entry of a virtual page, empty if it has no table. */
  ghost function LeafOf(page: map<nat, Page>, nodes: map<Node, nat>, vpn: nat): Pte
    requires Tree(page, nodes)
  {
    var n := OnPath(0, vpn);
    if n in nodes then assert NodeOk(page, nodes, n); page[nodes[n]].ptes[vpn % ENTRIES] else NO_PTE
  }

  /** Distinct virtual pages never share a leaf slot. */
  lemma LeafSlotsDistinct(page: map<nat, Page>, nodes: map<Node, nat>, v: nat, w: nat)
    requires Tree(page, nodes) && v != w
    requires OnPath(0, v) in nodes && OnPath(0, w) in nodes
    ensures nodes[OnPath(0, v)] != nodes[OnPath(0, w)] || v % ENTRIES != w % ENTRIES
  {
    if nodes[OnPath(0, v)] == nodes[OnPath(0, w)] {
      assert OnPath(0, v) == OnPath(0, w);
      assert v == v / ENTRIES * ENTRIES + v % ENTRIES;
    }
  }

  /** An empty table, linked below n, changes no translation. */
  lemma AddChild(page: map<nat, Page>, nodes: map<Node, nat>, n: Node, x: nat, t: nat, page': map<nat, Page>)
    requires Tree(page, nodes) && n in nodes && n.level > 0 && x < ENTRIES && Child(n, x) !in nodes
    requires t !in nodes.Values
    requires NodeOk(page, nodes, n)
    requires page' == page[t := EMPTY_TABLE]
                          [nodes[n] := Table(page[nodes[n]].ptes[x := Pte(t, V)])]
    ensures var nodes' := nodes[Child(n, x) := t];
            Tree(page', nodes') && forall v: nat :: LeafOf(page', nodes', v) == LeafOf(page, nodes, v)
  {
    var c := Child(n, x);
    var nodes' := nodes[c := t];
    ParentOfChild(n, x);
    assert forall m :: m in nodes ==> nodes[m] in nodes.Values;
    forall m | m in nodes' ensures NodeOk(page', nodes', m) {
      if m == c {
        if c.level > 0 {
          forall y: nat | y < ENTRIES ensures EntryOk(nodes', c, y, NO_PTE) {
            ParentOfChild(c, y);
            assert Child(c, y) in nodes ==> NodeOk(page, nodes, Child(c, y));
          }
        }
      } else {
        assert NodeOk(page, nodes, m);
        if m.level > 0 {
          forall y: nat | y < ENTRIES ensures EntryOk(nodes', m, y, page'[nodes'[m]].ptes[y]) {
            assert EntryOk(nodes, m, y, page[nodes[m]].ptes[y]);
            if Child(m, y) == c {
              ParentOfChild(m, y);
            }
          }
        }
      }
    }
  }

  /** Writing an entry of a leaf table changes that one translation. */
  lemma SetLeaf(page: map<nat, Page>, nodes: map<Node, nat>, vpn: nat, e: Pte, page': map<nat, Page>)
    requires Tree(page, nodes) && OnPath(0, vpn) in nodes && NodeOk(page, nodes, OnPath(0, vpn))
    requires LeafOk(e)
    requires var t := nodes[OnPath(0, vpn)]; page' == page[t := Table(page[t].ptes[vpn % ENTRIES := e])]
    ensures Tree(page', nodes)
    ensures forall v: nat :: LeafOf(page', nodes, v) == if v == vpn then e else LeafOf(page, nodes, v)
  {
    forall m | m in nodes ensures NodeOk(page', nodes, m) {
      assert NodeOk(page, nodes, m);
      if m.level > 0 {
        forall y: nat | y < ENTRIES ensures EntryOk(nodes, m, y, page'[nodes[m]].ptes[y]) {
          assert EntryOk(nodes, m, y, page[nodes[m]].ptes[y]);
        }
      }
    }
    forall v: nat ensures LeafOf(page', nodes, v) == if v == vpn then e else LeafOf(page, nodes, v) {
      if OnPath(0, v) in nodes && v != vpn {
        LeafSlotsDistinct(page, nodes, v, vpn);
      }
    }
  }

  /** The tree and its translations depend on the tables' pages only. */
  lemma SameTables(page: map<nat, Page>, page': map<nat, Page>, nodes: map<Node, nat>)
    requires Tree(page, nodes)
    requires forall n :: n in nodes ==> nodes[n] in page' && page'[nodes[n]] == page[nodes[n]]
    ensures Tree(page', nodes)
    ensures forall v: nat :: LeafOf(page', nodes, v) == LeafOf(page, nodes, v)
  {
    forall m | m in nodes ensures NodeOk(page', nodes, m) {
      assert NodeOk(page, nodes, m);
    }
  }

  lemma TablesAre(page: map<nat, Page>, nodes: map<Node, nat>)
    requires Tree(page, nodes)
    ensures ROOT in nodes && forall n :: n in nodes ==> NodeOk(page, nodes, n)
    ensures forall m, n :: m in nodes && n in nodes && nodes[m] == nodes[n] ==> m == n
  {
  }

  lemma NewValue(nodes: map<Node, nat>, n: Node, t: nat)
    requires n !in nodes
    ensures nodes[n := t].Values == nodes.Values + {t}
  {
    var now := nodes[n := t];
    forall p | p in nodes.Values + {t} ensures p in now.Values {
      if p == t {
        assert now[n] == t;
      } else {
        var m :| m in nodes && nodes[m] == p;
        assert now[m] == p;
      }
    }
  }

  lemma ValidFlags(e: Pte)
    requires Mapped(e)
    ensures e.flags | V == e.flags
  {
  }

  lemma UpOfPages(n: nat)
    ensures Up(n * PGSIZE) == n
  {
  }

  lemma PermIsValid(perm: bv10)
    ensures (perm | V) & V != 0 && (R | U | perm) | V != V
  {
  }

  /** PGROUNDUP(sz) / PGSIZE */
  function Up(sz: nat): nat {
    (sz + PGSIZE - 1) / PGSIZE
  }

  /** Valid, and not a pointer to a table. */
  ghost predicate IsLeaf(e: Pte) {
    Mapped(e) && e.flags != V
  }

  lemma NextFreed(frames: seq<nat>, k: nat, free: seq<nat>)
    requires k < |frames| && Distinct(frames)
    ensures Elements(frames[..k + 1]) == Elements(frames[..k]) + {frames[k]}
    ensures frames[k] !in frames[k + 1..]
    ensures forall p :: p in frames[k + 1..] ==> p in frames[k..] && p != frames[k]
    ensures Elements([frames[k]] + free) == {frames[k]} + Elements(free)
  {
    assert frames[..k + 1] == frames[..k] + [frames[k]];
    assert frames[k..] == [frames[k]] + frames[k + 1..];
  }

  /** m is n or below it. */
  ghost predicate Under(n: Node, m: Node)
    decreases if m.level < n.level then n.level - m.level else 0
  {
    m == n || (m.level < n.level && Under(n, Parent(m)))
  }

  /** The entry of n through which the walk to m goes. */
  ghost function Slot(n: Node, m: Node): nat
    requires m.level < n.level
    decreases n.level - m.level
  {
    if m.level + 1 == n.level then m.prefix % ENTRIES else Slot(n, Parent(m))
  }

  ghost function TablesUnder(nodes: map<Node, nat>, n: Node): set<nat> {
    set m | m in nodes && Under(n, m) :: nodes[m]
  }

  /** The tables under the first k entries of n. */
  ghost function TablesBelow(nodes: map<Node, nat>, n: Node, k: nat): set<nat> {
    set m | m in nodes && Under(n, m) && m.level < n.level && Slot(n, m) < k :: nodes[m]
  }

  lemma {:induction false} UnderChild(n: Node, x: nat, m: Node)
    requires n.level > 0 && x < ENTRIES
    ensures Under(Child(n, x), m) <==> m.level < n.level && Under(n, m) && Slot(n, m) == x
    decreases if m.level < n.level then n.level - m.level else 0
  {
    if m.level + 1 < n.level {
      UnderChild(n, x, Parent(m));
    }
  }

  /** The subtree of n holds no mapping, so that freewalk can free it. */
  ghost predicate Freeable(page: map<nat, Page>, nodes: map<Node, nat>, n: Node) {
    && (forall m :: m in nodes && Under(n, m) ==>
          && nodes[m] in page && page[nodes[m]].Table? && |page[nodes[m]].ptes| == ENTRIES
          && forall x: nat :: x < ENTRIES ==>
               if m.level > 0 then EntryOk(nodes, m, x, page[nodes[m]].ptes[x]) else !Mapped(page[nodes[m]].ptes[x]))
    && (forall k, m :: k in nodes && m in nodes && nodes[k] == nodes[m] ==> k == m)
    && (forall m :: m in nodes && Under(n, m) && m != n ==> Parent(m) in nodes)
  }

  lemma {:induction false} UnderRoot(page: map<nat, Page>, nodes: map<Node, nat>, m: Node)
    requires Tree(page, nodes) && m in nodes
    ensures Under(ROOT, m)
    decreases if m.level < 2 then 2 - m.level else 0
  {
    assert NodeOk(page, nodes, m);
    if m.level < 2 {
      UnderRoot(page, nodes, Parent(m));
    }
  }

  lemma FreeableTables(page: map<nat, Page>, nodes: map<Node, nat>, n: Node)
    requires Freeable(page, nodes, n)
    ensures forall k, m :: k in nodes && m in nodes && nodes[k] == nodes[m] ==> k == m
    ensures forall m :: m in nodes && Under(n, m) && m != n ==> Parent(m) in nodes
  {
  }

  lemma ConsElements(p: nat, free: seq<nat>)
    ensures Elements([p] + free) == Elements(free) + {p}
  {
  }

  lemma EntryMeans(page: map<nat, Page>, nodes: map<Node, nat>, n: Node, i: nat)
    requires Freeable(page, nodes, n) && n in nodes && i < ENTRIES
    ensures nodes[n] in page && page[nodes[n]].Table? && |page[nodes[n]].ptes| == ENTRIES
    ensures var e := page[nodes[n]].ptes[i];
            if n.level > 0 && Child(n, i) in nodes then e == Pte(nodes[Child(n, i)], V) else e.flags & V == 0
  {
    assert Under(n, n);
    assert n.level > 0 ==> EntryOk(nodes, n, i, page[nodes[n]].ptes[i]);
  }

  lemma SubtreeKept(was: map<nat, Page>, now: map<nat, Page>, nodes: map<Node, nat>, n: Node, i: nat)
    requires Freeable(was, nodes, n) && n.level > 0 && n in nodes && Child(n, i) in nodes && i < ENTRIES
    requires forall p :: p in was && p != nodes[n] && p !in TablesBelow(nodes, n, i) ==> p in now && now[p] == was[p]
    ensures Freeable(now, nodes, Child(n, i))
  {
    var c := Child(n, i);
    forall m | m in nodes && Under(c, m)
      ensures Under(n, m) && nodes[m] in was && nodes[m] in now && now[nodes[m]] == was[nodes[m]]
      ensures m != c ==> m != n
    {
      UnderChild(n, i, m);
    }
  }

  lemma SubtreeNotFree(nodes: map<Node, nat>, n: Node, i: nat, free0: set<nat>, free: seq<nat>)
    requires n.level > 0 && i < ENTRIES && Elements(free) == free0 + TablesBelow(nodes, n, i)
    requires forall k, m :: k in nodes && m in nodes && nodes[k] == nodes[m] ==> k == m
    requires forall m :: m in nodes && Under(n, m) ==> nodes[m] !in free0
    ensures forall m :: m in nodes && Under(Child(n, i), m) ==> nodes[m] !in free
  {
    forall m | m in nodes && Under(Child(n, i), m) ensures nodes[m] !in free {
      UnderChild(n, i, m);
      assert nodes[m] !in TablesBelow(nodes, n, i);
      assert nodes[m] !in Elements(free);
    }
  }

  lemma NotInSubtree(nodes: map<Node, nat>, n: Node, i: nat)
    requires n.level > 0 && i < ENTRIES && n in nodes
    requires forall k, m :: k in nodes && m in nodes && nodes[k] == nodes[m] ==> k == m
    ensures nodes[n] !in TablesUnder(nodes, Child(n, i)) && nodes[n] !in TablesBelow(nodes, n, ENTRIES)
  {
    UnderChild(n, i, n);
  }

  lemma NextSubtree(nodes: map<Node, nat>, n: Node, i: nat)
    requires n.level > 0 && i < ENTRIES
    ensures TablesBelow(nodes, n, i + 1) == TablesBelow(nodes, n, i) + TablesUnder(nodes, Child(n, i))
  {
    forall m | m in nodes
      ensures Under(Child(n, i), m) <==> m.level < n.level && Under(n, m) && Slot(n, m) == i
    {
      UnderChild(n, i, m);
    }
    var a, b := TablesBelow(nodes, n, i + 1), TablesBelow(nodes, n, i) + TablesUnder(nodes, Child(n, i));
    forall p | p in a ensures p in b {
      var m :| m in nodes && Under(n, m) && m.level < n.level && Slot(n, m) < i + 1 && nodes[m] == p;
    }
    forall p | p in b ensures p in a {
    }
  }

  /** What lies under a node that is not in the tree is not in it either. */
  lemma {:induction false} NothingUnder(nodes: map<Node, nat>, n: Node, c: Node, m: Node)
    requires m in nodes && Under(c, m) && Under(n, m) && c.level < n.level
    requires forall k :: k in nodes && Under(n, k) && k != n ==> Parent(k) in nodes
    ensures c in nodes
    decreases if m.level < c.level then c.level - m.level else 0
  {
    if m != c {
      NothingUnder(nodes, n, c, Parent(m));
    }
  }

  lemma NoSubtree(nodes: map<Node, nat>, n: Node, i: nat)
    requires i < ENTRIES && (n.level > 0 ==> Child(n, i) !in nodes)
    requires forall k :: k in nodes && Under(n, k) && k != n ==> Parent(k) in nodes
    ensures TablesBelow(nodes, n, i + 1) == TablesBelow(nodes, n, i)
  {
    forall m | m in nodes && Under(n, m) && m.level < n.level ensures Slot(n, m) != i {
      UnderChild(n, i, m);
      if Slot(n, m) == i {
        NothingUnder(nodes, n, Child(n, i), m);
      }
    }
  }

  lemma AllSubtrees(nodes: map<Node, nat>, n: Node)
    requires n in nodes
    ensures TablesUnder(nodes, n) == TablesBelow(nodes, n, ENTRIES) + {nodes[n]}
  {
    assert Under(n, n);
    forall m: Node | m.level < n.level && Under(n, m) ensures Slot(n, m) < ENTRIES {
      SlotBound(n, m);
    }
  }

  lemma {:induction false} SlotBound(n: Node, m: Node)
    requires m.level < n.level
    ensures Slot(n, m) < ENTRIES
    decreases n.level - m.level
  {
    if m.level + 1 < n.level {
      SlotBound(n, Parent(m));
    }
  }

  /** The tables of fewer pages are among those of more. */
  lemma {:induction false} PathsGrow(first: nat, a: nat, last: nat)
    requires first <= a <= last
    ensures Paths(first, a) <= Paths(first, last)
  {
    if a < last {
      PathsGrow(first, a, last - 1);
    }
  }

  /** A tree that lacks a's leaf table, and has no more than those of the pages
      from first to a, is smaller than the one that first to last take. */
  lemma Short(tree0: set<Node>, tree: set<Node>, first: nat, a: nat, last: nat)
    requires first <= a < last && OnPath(0, a) !in tree
    requires tree <= tree0 + Paths(first, a) + PathTables(a)
    ensures |tree| < |tree0 + Paths(first, last)|
  {
    PathsGrow(first, a + 1, last);
    SmallerSet(tree, tree0 + Paths(first, last), OnPath(0, a));
  }

  lemma SmallerSet(a: set<Node>, b: set<Node>, n: Node)
    requires a <= b && n in b && n !in a
    ensures |a| < |b|
  {
    SubsetSize(a, b - {n});
  }

  lemma NoPaths(tree: set<Node>, first: nat)
    ensures tree + Paths(first, first) == tree
  {
  }

  lemma MorePaths(tree: set<Node>, first: nat, a: nat)
    requires first <= a
    ensures tree + Paths(first, a) + PathTables(a) == tree + Paths(first, a + 1)
    ensures Paths(a, a + 1) == PathTables(a) && tree + Paths(first, a) + Paths(a, a + 1) == tree + Paths(first, a + 1)
  {
    assert Paths(a, a) == {};
  }

  lemma {:induction false} ListSize(s: seq<nat>)
    requires Distinct(s)
    ensures |Elements(s)| == |s|
  {
    if s != [] {
      var k := |s| - 1;
      ListSize(s[..k]);
      assert s == s[..k] + [s[k]];
      assert Elements(s) == Elements(s[..k]) + {s[k]};
    }
  }

  ghost function Images(nodes: map<Node, nat>, ks: set<Node>): set<nat>
    requires ks <= nodes.Keys
  {
    set n | n in ks :: nodes[n]
  }

  lemma {:induction false} ImagesSize(nodes: map<Node, nat>, ks: set<Node>)
    requires ks <= nodes.Keys
    requires forall m, n :: m in nodes && n in nodes && nodes[m] == nodes[n] ==> m == n
    ensures |Images(nodes, ks)| == |ks|
  {
    if ks != {} {
      var n :| n in ks;
      ImagesSize(nodes, ks - {n});
      assert Images(nodes, ks) == Images(nodes, ks - {n}) + {nodes[n]};
    }
  }

  lemma ValuesSize(nodes: map<Node, nat>)
    requires forall m, n :: m in nodes && n in nodes && nodes[m] == nodes[n] ==> m == n
    ensures |nodes.Values| == |nodes.Keys|
  {
    ImagesSize(nodes, nodes.Keys);
    assert nodes.Values == Images(nodes, nodes.Keys);
  }

  ghost function RestOf(page: map<nat, Page>, pool: set<nat>): map<nat, Page> {
    map p | p in page && p !in pool :: page[p]
  }

  lemma OnePage(a: nat)
    ensures a * PGSIZE / PGSIZE == (a * PGSIZE + PGSIZE - 1) / PGSIZE == a
    ensures a < MAXVPN ==> a * PGSIZE + PGSIZE <= MAXVPN * PGSIZE
  {
  }

  lemma OneFrame(pool0: set<nat>, pool: set<nat>, p: nat, tree: set<Node>, a: nat)
    requires pool + {p} == pool0 && p !in pool
    ensures Enough(pool0, tree, a, a + 1, 1) <==> Enough(pool, tree, a, a + 1, 0)
  {
    assert |pool0| == |pool| + 1;
  }

  lemma FewerTables(tree: set<Node>, first: nat, a: nat, last: nat)
    requires first <= a < last
    ensures |tree + Paths(first, a) + Paths(a, a + 1)| <= |tree + Paths(first, last)|
  {
    MorePaths(tree, first, a);
    PathsGrow(first, a + 1, last);
    hide Paths;
    SubsetSize(tree + Paths(first, a + 1), tree + Paths(first, last));
  }
}
