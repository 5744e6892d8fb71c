/** lab2/kernel/vm.c: page tables and the memory they map. */
module PageTable {
  import opened PageMemory
  import opened PageTree
  import opened Counting

  class Pagetable {
    const mem: Memory
    var root: nat
    ghost var nodes: map<Node, nat>

    constructor Empty(mem: Memory, t: nat)
      requires mem.Valid() && t in mem.page && t !in mem.free && mem.page[t] == EMPTY_TABLE
      ensures Valid() && this.mem == mem && root == t && nodes == map[ROOT := t]
      ensures forall v: nat :: Leaf(v) == NO_PTE
    {
      this.mem := mem;
      root := t;
      nodes := map[ROOT := t];
    }

    ghost predicate Valid()
      reads this, mem
    {
      && mem.Valid() && Tree(mem.page, nodes) && nodes[ROOT] == root
      && forall n :: n in nodes ==> nodes[n] !in mem.free
    }

    ghost function Leaf(vpn: nat): Pte
      reads this, mem
      requires Valid()
    {
      LeafOf(mem.page, nodes, vpn)
    }

    /** The pages that are free or hold this tree. */
    ghost function Pool(): set<nat>
      reads this, mem
    {
      Elements(mem.free) + nodes.Values
    }

    /** The tables of the tree, by their places in it. */
    ghost function Tables(): set<Node>
      reads this
    {
      nodes.Keys
    }

    /** All other pages: other trees, frames, and what else is not free. */
    ghost function Rest(): map<nat, Page>
      reads this, mem
    {
      RestOf(mem.page, Pool())
    }

    /** Nothing outside this tree and the pages that were free has changed. */
    twostate predicate Elsewhere()
      reads this, mem
    {
      forall p :: p in old(mem.page) && p !in old(mem.free) && p !in old(nodes.Values) ==>
        p in mem.page && mem.page[p] == old(mem.page[p])
    }

    /** What walk does to memory: tables are added to the tree, from the free
        pages, and no translation changes. */
    twostate predicate Extended()
      requires old(Valid()) && Valid()
      reads this, mem
    {
      && Elsewhere() && Pool() == old(Pool())
      && (forall n :: n in old(nodes) ==> n in nodes && nodes[n] == old(nodes)[n])
      && (forall p :: p in mem.free ==> p in old(mem.free))
      && forall v: nat :: Leaf(v) == old(Leaf(v))
    }

    /** One turn of walk's loop: the next table down, or 0. */
    method Descend(level: nat, vpn: nat, table: nat, alloc: bool) returns (t: nat)
      requires Valid() && 0 < level <= 2 && vpn < MAXVPN
      requires OnPath(level, vpn) in nodes && table == nodes[OnPath(level, vpn)]
      modifies mem, this`nodes
      ensures Valid() && Extended()
      ensures !alloc ==> nodes == old(nodes) && unchanged(mem)
      ensures t != 0 ==> OnPath(level - 1, vpn) in nodes && t == nodes[OnPath(level - 1, vpn)]
      ensures t == 0 ==> OnPath(level - 1, vpn) !in nodes && (alloc ==> mem.free == [])
      ensures nodes.Keys == old(nodes.Keys) + if t != 0 then {OnPath(level - 1, vpn)} else {}
    {
      ghost var n := OnPath(level, vpn);
      var x := Px(level, vpn);
      PathStep(level, vpn);
      assert NodeOk(mem.page, nodes, n);
      ghost var c := Child(n, x);
      var pte := mem.page[table].ptes[x];
      assert EntryOk(nodes, n, x, pte);
      if pte.flags & V != 0 {
        t := pte.ppn;
        assert NodeOk(mem.page, nodes, c);
      } else if !alloc {
        t := 0;
      } else {
        t := NewTable(n, x, table);
      }
    }

    /** walk's allocation of a missing table; 0 when there is no page. */
    method NewTable(ghost n: Node, x: nat, table: nat) returns (t: nat)
      requires Valid() && n in nodes && n.level > 0 && table == nodes[n] && x < ENTRIES && Child(n, x) !in nodes
      modifies mem, this`nodes
      ensures Valid() && Extended()
      ensures t != 0 ==> Child(n, x) in nodes && t == nodes[Child(n, x)]
      ensures t == 0 ==> nodes == old(nodes) && mem.free == []
      ensures t != 0 ==> nodes.Keys == old(nodes.Keys) + {Child(n, x)}
    {
      hide Tree, EntryOk, LeafOf, Chain, Distinct, Elements, LeafOk;
      ghost var was := mem.page;
      TablesAre(was, nodes);
      t := mem.KallocTable();
      if t != 0 {
        mem.Store(table, Table(mem.page[table].ptes[x := Pte(t, V)]));
        AddChild(was, nodes, n, x, t, mem.page);
        NewValue(nodes, Child(n, x), t);
        nodes := nodes[Child(n, x) := t];
      }
    }

    /** walk: the leaf table that holds the entry for vpn, or 0. */
    method Walk(vpn: nat, alloc: bool) returns (table: nat)
      requires Valid() && vpn < MAXVPN
      modifies mem, this`nodes
      ensures Valid() && Extended()
      ensures !alloc ==> nodes == old(nodes) && unchanged(mem)
      ensures table != 0 ==> OnPath(0, vpn) in nodes && table == nodes[OnPath(0, vpn)]
      ensures table == 0 ==> OnPath(0, vpn) !in nodes && (alloc ==> mem.free == [])
      ensures nodes.Keys <= old(nodes.Keys) + PathTables(vpn)
      ensures table != 0 ==> nodes.Keys == old(nodes.Keys) + PathTables(vpn)
    {
      hide Pagetable.Valid;
      RootOnPath(vpn);
      table := root;
      var level := 2;
      while level > 0
        invariant 0 <= level <= 2 && Valid() && Extended()
        invariant OnPath(level, vpn) in nodes && table == nodes[OnPath(level, vpn)] && table != 0
        invariant !alloc ==> nodes == old(nodes) && unchanged(mem)
        invariant nodes.Keys == old(nodes.Keys) + (if level < 2 then {OnPath(1, vpn)} else {})
                                                + (if level < 1 then {OnPath(0, vpn)} else {})
      {
        label turn:
        table := Descend(level, vpn, table, alloc);
        ExtendedFurther(old(mem.page), old(mem.free), old(nodes), old@turn(mem.page), old@turn(mem.free),
                        old@turn(nodes), mem.page, mem.free, nodes);
        if table == 0 {
          if level == 2 {
            NoGrandchild(vpn);
          }
          return;
        }
        level := level - 1;
      }
    }

    /** walkaddr: the frame of a user page, or 0. */
    method WalkAddr(va: nat) returns (pa: nat)
      requires Valid()
      modifies mem, this`nodes
      ensures Valid() && nodes == old(nodes) && unchanged(mem)
      ensures var e := Leaf(va / PGSIZE);
              pa == if va / PGSIZE < MAXVPN && e.flags & V != 0 && e.flags & U != 0 then e.ppn * PGSIZE else 0
    {
      pa := 0;
      if va / PGSIZE < MAXVPN {
        var table := Walk(va / PGSIZE, false);
        if table != 0 {
          assert NodeOk(mem.page, nodes, OnPath(0, va / PGSIZE));
          var pte := mem.page[table].ptes[va / PGSIZE % ENTRIES];
          if pte.flags & V != 0 && pte.flags & U != 0 {
            pa := pte.ppn * PGSIZE;
          }
        }
      }
    }

    /** Storing through the pointer that walk returned. */
    method StoreLeaf(vpn: nat, table: nat, e: Pte)
      requires Valid() && LeafOk(e) && OnPath(0, vpn) in nodes && table == nodes[OnPath(0, vpn)]
      modifies mem`page
      ensures Valid() && Elsewhere()
      ensures forall v: nat :: Leaf(v) == if v == vpn then e else old(Leaf(v))
      ensures forall p :: p in old(mem.page) && p != table ==> p in mem.page && mem.page[p] == old(mem.page[p])
    {
      ghost var was := mem.page;
      assert NodeOk(was, nodes, OnPath(0, vpn));
      mem.Store(table, Table(mem.page[table].ptes[vpn % ENTRIES := e]));
      SetLeaf(was, nodes, vpn, e, mem.page);
    }

    /** mappages; false is -1, from a walk that found no page for a table.  An
        entry that is already valid is the panic "remap". */
    method MapPages(va: nat, size: nat, ppn: nat, perm: bv10) returns (ok: bool, ghost upto: nat)
      requires Valid() && size > 0 && va + size <= MAXVPN * PGSIZE
      requires forall v: nat :: va / PGSIZE <= v <= (va + size - 1) / PGSIZE ==> !Mapped(Leaf(v))
      modifies mem, this`nodes
      ensures Valid() && Rest() == old(Rest()) && Pool() == old(Pool())
      ensures forall n :: n in old(nodes) ==> n in nodes && nodes[n] == old(nodes)[n]
      ensures forall p :: p in mem.free ==> p in old(mem.free)
      ensures if ok then upto == (va + size - 1) / PGSIZE + 1
              else va / PGSIZE <= upto <= (va + size - 1) / PGSIZE && mem.free == []
      ensures ok <==> old(Enough(Pool(), Tables(), va / PGSIZE, (va + size - 1) / PGSIZE + 1, 0))
      ensures ok ==> Tables() == old(Tables()) + Paths(va / PGSIZE, (va + size - 1) / PGSIZE + 1)
      ensures forall v: nat ::
                Leaf(v) == if va / PGSIZE <= v < upto then Pte(ppn + v - va / PGSIZE, perm | V) else old(Leaf(v))
    {
      hide Pagetable.Valid, Pagetable.Rest, Pagetable.Pool, LeafOf, Paths, Enough, Pagetable.Tables;
      ok, upto := MapRange(va / PGSIZE, (va + size - 1) / PGSIZE, ppn, perm);
    }

    /** mappages's loop, on page numbers. */
    method MapRange(first: nat, last: nat, ppn: nat, perm: bv10) returns (ok: bool, ghost upto: nat)
      requires Valid() && first <= last < MAXVPN
      modifies mem, this`nodes
      ensures Valid() && Rest() == old(Rest()) && Pool() == old(Pool())
      ensures forall n :: n in old(nodes) ==> n in nodes && nodes[n] == old(nodes)[n]
      ensures forall p :: p in mem.free ==> p in old(mem.free)
      ensures if ok then upto == last + 1 else first <= upto <= last && mem.free == []
      ensures ok <==> old(Enough(Pool(), Tables(), first, last + 1, 0))
      ensures ok ==> Tables() == old(Tables()) + Paths(first, last + 1)
      ensures forall v: nat :: Leaf(v) == if first <= v < upto then Pte(ppn + v - first, perm | V) else old(Leaf(v))
    {
      hide Pagetable.Valid, Pagetable.Rest, Pagetable.Pool, LeafOf, Paths, PathTables, Enough, OnPath, Pagetable.Tables;
      ghost var tree := Tables();
      NoPaths(tree, first);
      upto := first;
      var a, pa := first, ppn;
      while true
        invariant first <= a <= last && pa == ppn + a - first && upto == a
        invariant Valid() && Rest() == old(Rest()) && Pool() == old(Pool()) && Tables() == tree + Paths(first, a)
        invariant forall n :: n in old(nodes) ==> n in nodes && nodes[n] == old(nodes)[n]
        invariant forall p :: p in mem.free ==> p in old(mem.free)
        invariant forall v: nat :: Leaf(v) == if first <= v < upto then Pte(ppn + v - first, perm | V) else old(Leaf(v))
        decreases last - a
      {
        ok := MapOne(a, pa, perm);
        if !ok {
          RanOut(tree, first, a, last + 1, 0);
          break;
        }
        MorePaths(tree, first, a);
        upto := upto + 1;
        if a == last {
          Sufficed(tree, first, last + 1, 0);
          break;
        }
        a, pa := a + 1, pa + 1;
      }
    }

    /** One turn of mappages's loop. */
    method MapOne(a: nat, ppn: nat, perm: bv10) returns (ok: bool)
      requires Valid() && a < MAXVPN
      modifies mem, this`nodes
      ensures Valid() && Rest() == old(Rest()) && Pool() == old(Pool())
      ensures Tables() <= old(Tables()) + PathTables(a)
      ensures if ok then Tables() == old(Tables()) + PathTables(a) else OnPath(0, a) !in nodes && mem.free == []
      ensures forall n :: n in old(nodes) ==> n in nodes && nodes[n] == old(nodes)[n]
      ensures forall p :: p in mem.free ==> p in old(mem.free)
      ensures forall v: nat :: Leaf(v) == if ok && v == a then Pte(ppn, perm | V) else old(Leaf(v))
    {
      hide Pagetable.Valid, Pagetable.Rest, LeafOf, Elements, PathTables;
      var table := Walk(a, true);
      RestSame();
      ok := table != 0;
      if ok {
        PermIsValid(perm);
        label stored:
        StoreLeaf(a, table, Pte(ppn, perm | V));
        RestSame@stored();
      }
    }

    twostate lemma RestSame()
      requires old(Valid()) && Valid() && Elsewhere() && Pool() == old(Pool())
      ensures Rest() == old(Rest())
    {
      hide Tree;
    }

    /** The other pages, one by one. */
    lemma RestMeans()
      ensures forall p :: IsFrame(p) <==> p in Rest()
      ensures forall p :: IsFrame(p) ==> p in mem.page && Rest()[p] == mem.page[p]
    {
    }

    lemma PoolSize()
      requires Valid()
      ensures |Pool()| == |mem.free| + |Tables()|
    {
      ListSize(mem.free);
      ValuesSize(nodes);
      assert Elements(mem.free) !! nodes.Values;
    }

    /** Without a free page for a's leaf table, what there was cannot have been
        enough for the tables of first to last. */
    lemma RanOut(tree: set<Node>, first: nat, a: nat, last: nat, frames: nat)
      requires Valid() && mem.free == [] && first <= a < last && OnPath(0, a) !in nodes
      requires Tables() <= tree + Paths(first, a) + PathTables(a)
      ensures !Enough(Pool(), tree, first, last, frames)
    {
      PoolSize();
      Short(tree, Tables(), first, a, last);
    }

    lemma Sufficed(tree: set<Node>, first: nat, last: nat, frames: nat)
      requires Valid() && Tables() == tree + Paths(first, last) && |mem.free| >= frames
      ensures Enough(Pool(), tree, first, last, frames)
    {
      PoolSize();
    }

    lemma LeafIs(vpn: nat)
      requires Valid()
      ensures LeafOk(Leaf(vpn)) && (OnPath(0, vpn) !in nodes ==> Leaf(vpn) == NO_PTE)
      ensures OnPath(0, vpn) in nodes ==>
                var t := nodes[OnPath(0, vpn)];
                && t in mem.page && mem.page[t].Table? && |mem.page[t].ptes| == ENTRIES
                && mem.page[t].ptes[vpn % ENTRIES] == Leaf(vpn)
    {
      if OnPath(0, vpn) in nodes {
        assert NodeOk(mem.page, nodes, OnPath(0, vpn));
      }
    }

    lemma LeavesOk()
      requires Valid()
      ensures forall v: nat :: LeafOk(Leaf(v))
    {
      forall v: nat ensures LeafOk(Leaf(v)) {
        LeafIs(v);
      }
    }

    /** The frames of n user pages from vpn on. */
    ghost function Frames(vpn: nat, n: nat): (f: seq<nat>)
      requires Valid()
      reads this, mem
      ensures |f| == n && forall i :: 0 <= i < n ==> f[i] == Leaf(vpn + i).ppn
    {
      if n == 0 then [] else Frames(vpn, n - 1) + [Leaf(vpn + n - 1).ppn]
    }

    /** The pages from vpn on are mapped, each to a frame of its own. */
    ghost predicate Owned(vpn: nat, n: nat)
      requires Valid()
      reads this, mem
    {
      && (forall v: nat :: vpn <= v < vpn + n ==> IsLeaf(Leaf(v)))
      && Distinct(Frames(vpn, n))
      && forall p :: p in Frames(vpn, n) ==> IsFrame(p)
    }

    ghost predicate IsFrame(p: nat)
      reads this, mem
    {
      p in mem.page && p !in mem.free && p !in nodes.Values
    }

    /** kfree of a page outside the tree. */
    method FreeFrame(p: nat)
      requires Valid() && IsFrame(p)
      modifies mem
      ensures Valid() && mem.free == [p] + old(mem.free) && mem.page == old(mem.page)[p := mem.page[p]]
      ensures p in mem.page && forall v: nat :: Leaf(v) == old(Leaf(v))
      ensures Pool() == old(Pool()) + {p}
    {
      ghost var was := mem.page;
      ConsElements(p, mem.free);
      mem.Kfree(p);
      assert forall n :: n in nodes ==> nodes[n] in nodes.Values;
      SameTables(was, mem.page, nodes);
    }

    /** One turn of uvmunmap's loop. */
    method UnmapOne(a: nat, doFree: bool)
      requires Valid() && a < MAXVPN && IsLeaf(Leaf(a)) && (doFree ==> IsFrame(Leaf(a).ppn))
      modifies mem, this`nodes
      ensures Valid() && nodes == old(nodes)
      ensures forall v: nat :: Leaf(v) == if v == a then NO_PTE else old(Leaf(v))
      ensures mem.free == if doFree then [old(Leaf(a)).ppn] + old(mem.free) else old(mem.free)
      ensures forall p :: old(IsFrame(p)) && !(doFree && p == old(Leaf(a)).ppn) ==>
                IsFrame(p) && mem.page[p] == old(mem.page[p])
    {
      hide Pagetable.Valid, LeafOf;
      LeafIs(a);
      var table := Walk(a, false);
      var pte := mem.page[table].ptes[a % ENTRIES];
      assert nodes[OnPath(0, a)] in nodes.Values;
      if doFree {
        FreeFrame(pte.ppn);
      }
      StoreLeaf(a, table, NO_PTE);
    }

    /** uvmunmap; an entry that is missing or not a leaf is a panic. */
    method UvmUnmap(va: nat, npages: nat, doFree: bool)
      requires Valid() && va % PGSIZE == 0 && va / PGSIZE + npages <= MAXVPN
      requires forall v: nat :: va / PGSIZE <= v < va / PGSIZE + npages ==> IsLeaf(Leaf(v))
      requires doFree ==> Owned(va / PGSIZE, npages)
      modifies mem, this`nodes
      ensures Valid() && nodes == old(nodes)
      ensures forall v: nat ::
                Leaf(v) == if va / PGSIZE <= v < va / PGSIZE + npages then NO_PTE else old(Leaf(v))
      ensures !doFree ==> mem.free == old(mem.free)
      ensures doFree ==> Elements(mem.free) == old(Elements(mem.free)) + Elements(old(Frames(va / PGSIZE, npages)))
      ensures forall p :: old(IsFrame(p)) && !(doFree && p in old(Frames(va / PGSIZE, npages))) ==>
                IsFrame(p) && mem.page[p] == old(mem.page[p])
    {
      hide Pagetable.Valid, LeafOf;
      var first := va / PGSIZE;
      ghost var frames := Frames(first, npages);
      var a := first;
      while a < first + npages
        invariant first <= a <= first + npages && Valid() && nodes == old(nodes)
        invariant forall v: nat :: Leaf(v) == if first <= v < a then NO_PTE else old(Leaf(v))
        invariant !doFree ==> mem.free == old(mem.free)
        invariant doFree ==> Elements(mem.free) == old(Elements(mem.free)) + Elements(frames[..a - first])
        invariant doFree ==> Distinct(frames) && forall p :: p in frames[a - first..] ==> IsFrame(p)
        invariant forall p :: old(IsFrame(p)) && !(doFree && p in frames) ==>
                    IsFrame(p) && mem.page[p] == old(mem.page[p])
      {
        assert frames[a - first] == Leaf(a).ppn && (doFree ==> frames[a - first] in frames[a - first..]);
        if doFree {
          NextFreed(frames, a - first, mem.free);
        }
        UnmapOne(a, doFree);
        a := a + 1;
      }
      assert frames[..npages] == frames;
    }

    /** kalloc, fill the page, mappages, and kfree if that fails: what
        uvmalloc and uvmcopy do for each page. */
    method MapFresh(a: nat, contents: Page, flags: bv10) returns (ok: bool)
      requires Valid() && a < MAXVPN && !Mapped(Leaf(a))
      modifies mem, this`nodes
      ensures Valid()
      ensures forall v: nat :: v != a || !ok ==> Leaf(v) == old(Leaf(v))
      ensures ok ==>
                var p := Leaf(a).ppn;
                && MapsTo(a, flags | V, contents) && p !in Pool() && Pool() + {p} == old(Pool()) && p in old(mem.free)
      ensures !ok ==> Pool() == old(Pool())
      ensures forall p :: old(IsFrame(p)) ==> IsFrame(p) && mem.page[p] == old(mem.page[p])
      ensures ok <==> old(Enough(Pool(), Tables(), a, a + 1, 1))
      ensures ok ==> Tables() == old(Tables()) + Paths(a, a + 1)
    {
      hide Pagetable.Valid, LeafOf, Elements, Paths, Enough, Pagetable.Tables;
      NoFrameLeft(a);
      var p := TakeFrame();
      if p == 0 {
        return false;
      }
      StoreFrame(p, contents);
      OneFrame(old(Pool()), Pool(), p, Tables(), a);
      ok := MapOrFree(a, p, flags);
    }

    lemma NotInPool(p: nat)
      requires IsFrame(p)
      ensures p !in Pool()
    {
    }

    /** mappages for one page, and kfree if that fails. */
    method MapOrFree(a: nat, p: nat, flags: bv10) returns (ok: bool)
      requires Valid() && a < MAXVPN && IsFrame(p) && !Mapped(Leaf(a))
      modifies mem, this`nodes
      ensures Valid() && forall v: nat :: Leaf(v) == if ok && v == a then Pte(p, flags | V) else old(Leaf(v))
      ensures p !in old(Pool()) && Pool() == if ok then old(Pool()) else old(Pool()) + {p}
      ensures forall q :: old(IsFrame(q)) && (ok || q != p) ==> IsFrame(q) && mem.page[q] == old(mem.page[q])
      ensures ok <==> old(Enough(Pool(), Tables(), a, a + 1, 0))
      ensures ok ==> Tables() == old(Tables()) + Paths(a, a + 1)
    {
      hide Pagetable.Valid, Pagetable.Rest, Pagetable.Pool, LeafOf, Paths, Enough, Pagetable.Tables;
      RestMeans();
      NotInPool(p);
      OnePage(a);
      ghost var upto;
      ok, upto := MapPages(a * PGSIZE, PGSIZE, p, flags);
      RestMeans();
      if !ok {
        FreeFrame(p);
      }
    }

    lemma NoFrameLeft(a: nat)
      requires Valid()
      ensures mem.free == [] ==> !Enough(Pool(), Tables(), a, a + 1, 1)
    {
      PoolSize();
      SubsetSize(Tables(), Tables() + Paths(a, a + 1));
    }

    method TakeFrame() returns (p: nat)
      requires Valid()
      modifies mem
      ensures Valid() && forall v: nat :: Leaf(v) == old(Leaf(v))
      ensures p == 0 ==> mem.page == old(mem.page) && mem.free == old(mem.free) == []
      ensures p != 0 ==> IsFrame(p) && p in old(mem.free) && p !in Pool() && Pool() + {p} == old(Pool())
      ensures forall q :: old(IsFrame(q)) ==> q != p && IsFrame(q) && mem.page[q] == old(mem.page[q])
    {
      ghost var was, free := mem.page, mem.free;
      p := mem.Kalloc();
      assert forall n :: n in nodes ==> nodes[n] in nodes.Values;
      SameTables(was, mem.page, nodes);
      if p != 0 {
        TakenFromFree(free, p, mem.free);
        assert free[0] == p && p in mem.page;
      }
    }

    method StoreFrame(p: nat, contents: Page)
      requires Valid() && IsFrame(p)
      modifies mem`page
      ensures Valid() && mem.page == old(mem.page)[p := contents] && forall v: nat :: Leaf(v) == old(Leaf(v))
    {
      ghost var was := mem.page;
      mem.Store(p, contents);
      assert forall n :: n in nodes ==> nodes[n] in nodes.Values;
      SameTables(was, mem.page, nodes);
    }

    /** uvmdealloc: unmap and free the whole pages above newsz. */
    method UvmDealloc(oldsz: nat, newsz: nat) returns (r: nat)
      requires Valid() && Up(oldsz) <= MAXVPN
      requires newsz < oldsz ==> Owned(Up(newsz), Up(oldsz) - Up(newsz))
      modifies mem, this`nodes
      ensures Valid() && nodes == old(nodes) && r == if newsz >= oldsz then oldsz else newsz
      ensures forall v: nat ::
                Leaf(v) == if newsz < oldsz && Up(newsz) <= v < Up(oldsz) then NO_PTE else old(Leaf(v))
      ensures newsz >= oldsz ==> unchanged(mem)
      ensures newsz < oldsz ==> Pool() == old(Pool()) + Elements(old(Frames(Up(newsz), Up(oldsz) - Up(newsz))))
      ensures forall p ::
                old(IsFrame(p)) && (newsz < oldsz ==> p !in old(Frames(Up(newsz), Up(oldsz) - Up(newsz)))) ==>
                IsFrame(p) && mem.page[p] == old(mem.page[p])
    {
      hide Pagetable.Valid;
      if newsz >= oldsz {
        return oldsz;
      }
      if Up(newsz) < Up(oldsz) {
        var npages := Up(oldsz) - Up(newsz);
        UvmUnmap(Up(newsz) * PGSIZE, npages, true);
      }
      return newsz;
    }

    /** One turn of uvmalloc's loop. */
    method GrowOne(first: nat, a: nat, flags: bv10) returns (added: bool)
      requires Valid() && first <= a < MAXVPN && !Mapped(Leaf(a))
      requires Owned(first, a - first) && AllZero(first, a, flags | V) && flags | V != V
      modifies mem, this`nodes
      ensures Valid()
      ensures forall v: nat :: v != a || !added ==> Leaf(v) == old(Leaf(v))
      ensures Owned(first, a - first) && Frames(first, a - first) == old(Frames(first, a - first))
      ensures !added ==> Pool() == old(Pool())
      ensures added ==>
                var p := Leaf(a).ppn;
                && Owned(first, a - first + 1) && AllZero(first, a + 1, flags | V)
                && Frames(first, a - first + 1) == old(Frames(first, a - first)) + [p] && !old(IsFrame(p))
                && Pool() + Elements(Frames(first, a - first + 1)) == old(Pool() + Elements(Frames(first, a - first)))
      ensures forall p :: old(IsFrame(p)) ==> IsFrame(p) && mem.page[p] == old(mem.page[p])
      ensures added <==> old(Enough(Pool(), Tables(), a, a + 1, 1))
      ensures added ==> Tables() == old(Tables()) + Paths(a, a + 1)
    {
      hide Pagetable.Valid, LeafOf, Pagetable.Owned, Pagetable.Pool, Distinct, Paths, Enough, Pagetable.Tables;
      ghost var frames := Frames(first, a - first);
      OwnedMeans(first, a - first);
      added := MapFresh(a, Filled(0), flags);
      assert Frames(first, a - first) == frames;
      OwnedMeans(first, a - first);
      if added {
        PermIsValid(flags);
        assert MapsTo(a, flags | V, Filled(0));
        OneMoreFrame(first, a - first);
        ghost var all := flags | V;
        forall v: nat | first <= v < a + 1 ensures MapsTo(v, all, Filled(0)) {
          if v < a {
            assert old(MapsTo(v, all, Filled(0)));
          }
        }
      }
    }

    /** uvmalloc's failure path: the pages mapped so far are taken back. */
    method Undo(first: nat, a: nat)
      requires Valid() && first <= a <= MAXVPN && Owned(first, a - first)
      modifies mem, this`nodes
      ensures Valid() && Pool() == old(Pool()) + Elements(old(Frames(first, a - first)))
      ensures forall v: nat :: Leaf(v) == if first <= v < a then NO_PTE else old(Leaf(v))
      ensures forall p :: old(IsFrame(p)) && p !in old(Frames(first, a - first)) ==>
                IsFrame(p) && mem.page[p] == old(mem.page[p])
    {
      hide Pagetable.Valid, LeafOf, Pagetable.Owned;
      UpOfPages(a);
      UpOfPages(first);
      assert a == first ==> Elements(Frames(first, a - first)) == {};
      var d := UvmDealloc(a * PGSIZE, first * PGSIZE);
    }

    /** uvmalloc's loop, over the pages from first up to last. */
    method Grow(first: nat, last: nat, flags: bv10) returns (ok: bool)
      requires Valid() && first <= last <= MAXVPN && flags | V != V
      requires forall v: nat :: first <= v < last ==> !Mapped(Leaf(v))
      modifies mem, this`nodes
      ensures Valid()
      ensures forall v: nat :: !ok || v < first || v >= last ==> Leaf(v) == old(Leaf(v))
      ensures ok ==> Owned(first, last - first) && AllZero(first, last, flags | V)
                     && Pool() + Elements(Frames(first, last - first)) == old(Pool())
      ensures !ok ==> Pool() == old(Pool())
      ensures forall p :: old(IsFrame(p)) ==> IsFrame(p) && mem.page[p] == old(mem.page[p])
      ensures ok <==> old(Enough(Pool(), Tables(), first, last, last - first))
    {
      hide Pagetable.Valid, LeafOf, Pagetable.Owned, Pagetable.Pool, Pagetable.AllZero, Elements;
      hide Paths, Enough, Pagetable.Tables;
      ghost var p0, tree := Pool(), Tables();
      NoPaths(tree, first);
      var a := first;
      NoFrames(first);
      LeavesOk();
      while a < last
        invariant first <= a <= last && Valid()
        invariant forall v: nat :: v < first || v >= a ==> Leaf(v) == old(Leaf(v))
        invariant Owned(first, a - first) && Pool() + Elements(Frames(first, a - first)) == p0
        invariant AllZero(first, a, flags | V) && Tables() == tree + Paths(first, a)
        invariant forall p :: p in Frames(first, a - first) ==> !old(IsFrame(p))
        invariant forall p :: old(IsFrame(p)) ==> IsFrame(p) && mem.page[p] == old(mem.page[p])
      {
        NotForMore(tree, first, a, last, p0);
        MorePaths(tree, first, a);
        var added := GrowOne(first, a, flags);
        if !added {
          Undo(first, a);
          return false;
        }
        a := a + 1;
      }
      ForAll(tree, first, last, p0);
      return true;
    }

    /** Pages that are mapped to frames of their own have left the pool. */
    lemma OwnedSize(first: nat, n: nat, pool0: set<nat>)
      requires Valid() && Owned(first, n) && Pool() + Elements(Frames(first, n)) == pool0
      ensures |pool0| == |Pool()| + n
    {
      hide Pagetable.Valid;
      ListSize(Frames(first, n));
      assert Pool() !! Elements(Frames(first, n));
    }

    /** When there is not enough for page a, there was not for all of them. */
    lemma NotForMore(tree: set<Node>, first: nat, a: nat, last: nat, pool0: set<nat>)
      requires Valid() && first <= a < last && Owned(first, a - first)
      requires Pool() + Elements(Frames(first, a - first)) == pool0 && Tables() == tree + Paths(first, a)
      ensures Enough(pool0, tree, first, last, last - first) ==> Enough(Pool(), Tables(), a, a + 1, 1)
    {
      hide Pagetable.Valid, LeafOf, Paths, Pagetable.Tables, Pagetable.Owned, Pagetable.Pool, Elements;
      OwnedSize(first, a - first, pool0);
      FewerTables(tree, first, a, last);
    }

    lemma ForAll(tree: set<Node>, first: nat, last: nat, pool0: set<nat>)
      requires Valid() && first <= last && Owned(first, last - first)
      requires Pool() + Elements(Frames(first, last - first)) == pool0 && Tables() == tree + Paths(first, last)
      ensures Enough(pool0, tree, first, last, last - first)
    {
      OwnedSize(first, last - first, pool0);
      PoolSize();
    }

    /** uvmalloc: on success the new pages are mapped to zeroed frames of their
        own; on failure every mapping is as it was, and every frame is back. */
    method UvmAlloc(oldsz: nat, newsz: nat, xperm: bv10) returns (r: nat, ok: bool)
      requires Valid() && Up(newsz) <= MAXVPN
      requires forall v: nat :: Up(oldsz) <= v < Up(newsz) ==> !Mapped(Leaf(v))
      modifies mem, this`nodes
      ensures Valid() && (ok ==> r == if newsz < oldsz then oldsz else newsz) && (!ok ==> r == 0)
      ensures newsz < oldsz ==> ok && unchanged(mem)
      ensures forall v: nat :: !ok || v < Up(oldsz) || v >= Up(newsz) ==> Leaf(v) == old(Leaf(v))
      ensures ok && oldsz <= newsz ==>
                var n := Up(newsz) - Up(oldsz);
                && Owned(Up(oldsz), n) && Pool() + Elements(Frames(Up(oldsz), n)) == old(Pool())
                && AllZero(Up(oldsz), Up(newsz), (R | U | xperm) | V)
      ensures !ok ==> Pool() == old(Pool())
      ensures forall p :: old(IsFrame(p)) ==> IsFrame(p) && mem.page[p] == old(mem.page[p])
      ensures ok <==> newsz < oldsz || old(Enough(Pool(), Tables(), Up(oldsz), Up(newsz), Up(newsz) - Up(oldsz)))
    {
      hide Pagetable.Valid, LeafOf, Pagetable.Owned, Pagetable.Pool, Pagetable.AllZero, Elements, Enough, Pagetable.Tables;
      if newsz < oldsz {
        return oldsz, true;
      }
      PermIsValid(xperm);
      ok := Grow(Up(oldsz), Up(newsz), R | U | xperm);
      r := if ok then newsz else 0;
    }

    /** Another tree in the same memory, whose tables are frames to this one. */
    ghost predicate Beside(other: Pagetable)
      requires Valid()
      reads this, mem, other
    {
      other != this && other.mem == mem && other.Valid() && forall p :: p in other.nodes.Values ==> IsFrame(p)
    }

    /** The first n pages of the other tree, copied to frames of this one. */
    ghost predicate CopyOf(from: Pagetable, n: nat)
      requires Valid() && from.Valid() && from.mem == mem
      reads this, mem, from
    {
      forall v: nat :: v < n ==>
        && from.Leaf(v).ppn in mem.page
        && MapsTo(v, from.Leaf(v).flags, mem.page[from.Leaf(v).ppn])
    }

    ghost predicate CanCopy(from: Pagetable, n: nat)
      requires Valid() && from.Valid() && from.mem == mem
      reads this, mem, from
    {
      forall v: nat :: v < n ==> IsLeaf(from.Leaf(v)) && IsFrame(from.Leaf(v).ppn)
    }

    /** Steps that keep this tree's frames keep the other tree. */
    lemma StillBeside(other: Pagetable, page: map<nat, Page>)
      requires Valid() && other != this && other.mem == mem && Tree(page, other.nodes)
      requires other.nodes[ROOT] == other.root
      requires forall p :: p in other.nodes.Values ==> IsFrame(p) && p in page && mem.page[p] == page[p]
      ensures Beside(other) && forall v: nat :: other.Leaf(v) == LeafOf(page, other.nodes, v)
    {
      assert forall n :: n in other.nodes ==> other.nodes[n] in other.nodes.Values;
      SameTables(page, mem.page, other.nodes);
    }

    /** One turn of uvmcopy's loop. */
    method CopyOne(from: Pagetable, a: nat) returns (added: bool)
      requires Valid() && Beside(from) && a < MAXVPN && !Mapped(Leaf(a)) && CanCopy(from, a + 1)
      requires Owned(0, a) && CopyOf(from, a)
      modifies mem, this`nodes, from`nodes
      ensures Valid() && Beside(from) && from.nodes == old(from.nodes) && CanCopy(from, a + 1)
      ensures forall v: nat :: from.Leaf(v) == old(from.Leaf(v))
      ensures forall v: nat :: v != a || !added ==> Leaf(v) == old(Leaf(v))
      ensures Owned(0, a) && Frames(0, a) == old(Frames(0, a))
      ensures !added ==> Pool() == old(Pool())
      ensures added ==>
                var p := Leaf(a).ppn;
                && Owned(0, a + 1) && CopyOf(from, a + 1)
                && Frames(0, a + 1) == old(Frames(0, a)) + [p] && !old(IsFrame(p))
                && Pool() + Elements(Frames(0, a + 1)) == old(Pool() + Elements(Frames(0, a)))
      ensures forall p :: old(IsFrame(p)) ==> IsFrame(p) && mem.page[p] == old(mem.page[p])
      ensures added <==> old(Enough(Pool(), Tables(), a, a + 1, 1))
      ensures added ==> Tables() == old(Tables()) + Paths(a, a + 1)
    {
      hide Pagetable.Valid, LeafOf, Pagetable.Owned, Pagetable.Pool, Distinct, Tree;
      hide Paths, Enough, Pagetable.Tables, Elements;
      from.LeafIs(a);
      var table := from.Walk(a, false);
      var pte := mem.page[table].ptes[a % ENTRIES];
      ghost var was, frames := mem.page, Frames(0, a);
      from.TreeIs();
      OwnedMeans(0, a);
      added := MapFresh(a, mem.page[pte.ppn], pte.flags);
      StillBeside(from, was);
      assert Frames(0, a) == frames;
      OwnedMeans(0, a);
      if added {
        ValidFlags(pte);
        assert MapsTo(a, pte.flags, was[pte.ppn]);
        OneMoreFrame(0, a);
        forall v: nat | v < a + 1
          ensures from.Leaf(v).ppn in mem.page && MapsTo(v, from.Leaf(v).flags, mem.page[from.Leaf(v).ppn])
        {
          if v < a {
            assert old(MapsTo(v, from.Leaf(v).flags, mem.page[from.Leaf(v).ppn]));
          }
        }
      }
    }

    lemma TreeIs()
      requires Valid()
      ensures Tree(mem.page, nodes) && nodes[ROOT] == root && forall v: nat :: Leaf(v) == LeafOf(mem.page, nodes, v)
      ensures forall p :: p in nodes.Values ==> p in mem.page
    {
      assert forall n :: n in nodes ==> NodeOk(mem.page, nodes, n);
    }

    /** uvmcopy: on success the child's pages are frames of its own with the
        parent's contents and flags; on failure the child is as it was. */
    method UvmCopy(from: Pagetable, sz: nat) returns (ok: bool)
      requires Valid() && Beside(from) && Up(sz) <= MAXVPN && CanCopy(from, Up(sz))
      requires forall v: nat :: v < Up(sz) ==> !Mapped(Leaf(v))
      modifies mem, this`nodes, from`nodes
      ensures Valid() && Beside(from) && from.nodes == old(from.nodes)
      ensures forall v: nat :: from.Leaf(v) == old(from.Leaf(v))
      ensures forall v: nat :: !ok || v >= Up(sz) ==> Leaf(v) == old(Leaf(v))
      ensures ok ==> Owned(0, Up(sz)) && CopyOf(from, Up(sz))
                     && Pool() + Elements(Frames(0, Up(sz))) == old(Pool())
      ensures !ok ==> Pool() == old(Pool())
      ensures forall p :: old(IsFrame(p)) ==> IsFrame(p) && mem.page[p] == old(mem.page[p])
      ensures ok <==> old(Enough(Pool(), Tables(), 0, Up(sz), Up(sz)))
    {
      hide Pagetable.Valid, LeafOf, Pagetable.Owned, Pagetable.Pool, Pagetable.CopyOf, Elements, Tree;
      hide Paths, Enough, Pagetable.Tables;
      ghost var p0, tree := Pool(), Tables();
      NoPaths(tree, 0);
      var n := Up(sz);
      var a := 0;
      NoFrames(0);
      LeavesOk();
      NothingCopied(from);
      while a < n
        invariant 0 <= a <= n && Valid() && Beside(from) && from.nodes == old(from.nodes) && CanCopy(from, n)
        invariant forall v: nat :: from.Leaf(v) == old(from.Leaf(v))
        invariant forall v: nat :: v >= a ==> Leaf(v) == old(Leaf(v))
        invariant Owned(0, a) && CopyOf(from, a) && Pool() + Elements(Frames(0, a)) == p0
        invariant forall p :: p in Frames(0, a) ==> !old(IsFrame(p))
        invariant Tables() == tree + Paths(0, a)
        invariant forall p :: old(IsFrame(p)) ==> IsFrame(p) && mem.page[p] == old(mem.page[p])
      {
        NotForMore(tree, 0, a, n, p0);
        MorePaths(tree, 0, a);
        var added := CopyOne(from, a);
        if !added {
          ghost var was := mem.page;
          from.TreeIs();
          Undo(0, a);
          StillBeside(from, was);
          return false;
        }
        a := a + 1;
      }
      ForAll(tree, 0, n, p0);
      return true;
    }

    lemma NothingCopied(from: Pagetable)
      requires Valid() && from.Valid() && from.mem == mem
      ensures CopyOf(from, 0)
    {
    }

    /** freewalk after i turns of its loop, started on `was` with `free0`. */
    ghost predicate Freeing(table: nat, n: Node, tree: map<Node, nat>, i: nat, was: map<nat, Page>, free0: set<nat>)
      reads mem
    {
      && Elements(mem.free) == free0 + TablesBelow(tree, n, i)
      && (forall p :: p in was && p != table && p !in TablesBelow(tree, n, i) ==>
            p in mem.page && mem.page[p] == was[p])
      && table in was && was[table].Table? && |was[table].ptes| == ENTRIES
      && table in mem.page && table !in mem.free && mem.page[table].Table? && |mem.page[table].ptes| == ENTRIES
      && forall x :: i <= x < ENTRIES ==> mem.page[table].ptes[x] == was[table].ptes[x]
    }

    ghost predicate CanFree(n: Node, tree: map<Node, nat>, page: map<nat, Page>, free: set<nat>) {
      n in tree && Freeable(page, tree, n) && forall m :: m in tree && Under(n, m) ==> tree[m] !in free
    }

    lemma CanStart(table: nat, n: Node, tree: map<Node, nat>)
      requires mem.Valid() && CanFree(n, tree, mem.page, Elements(mem.free)) && table == tree[n]
      ensures Freeing(table, n, tree, 0, mem.page, Elements(mem.free))
    {
      assert Under(n, n);
      assert TablesBelow(tree, n, 0) == {};
    }

    /** freewalk: a leaf that is still mapped is the panic. */
    method FreeWalk(table: nat, ghost n: Node, ghost tree: map<Node, nat>)
      requires mem.Valid() && CanFree(n, tree, mem.page, Elements(mem.free)) && table == tree[n]
      modifies mem
      ensures mem.Valid()
      ensures Elements(mem.free) == old(Elements(mem.free)) + TablesUnder(tree, n)
      ensures forall p :: p in old(mem.page) && p !in TablesUnder(tree, n) ==>
                p in mem.page && mem.page[p] == old(mem.page[p])
      decreases n.level, 1
    {
      hide Freeable, Chain, Distinct, Elements, TablesUnder, TablesBelow, Under;
      ghost var was, free0 := mem.page, Elements(mem.free);
      FreeableTables(was, tree, n);
      EntryMeans(was, tree, n, 0);
      CanStart(table, n, tree);
      var i := 0;
      while i < ENTRIES
        invariant 0 <= i <= ENTRIES && mem.Valid() && Freeing(table, n, tree, i, was, free0)
      {
        var pte := mem.page[table].ptes[i];
        EntryMeans(was, tree, n, i);
        if pte.flags & V != 0 && pte.flags & (R | W | X) == 0 {
          FreeChild(table, i, pte.ppn, n, tree, was, free0);
        } else {
          NoSubtree(tree, n, i);
        }
        i := i + 1;
      }
      FreeSelf(table, n, tree, was, free0);
    }

    method FreeSelf(table: nat, ghost n: Node, ghost tree: map<Node, nat>,
                    ghost was: map<nat, Page>, ghost free0: set<nat>)
      requires mem.Valid() && n in tree && table == tree[n] && Freeing(table, n, tree, ENTRIES, was, free0)
      modifies mem
      ensures mem.Valid() && Elements(mem.free) == free0 + TablesUnder(tree, n)
      ensures forall p :: p in was && p !in TablesUnder(tree, n) ==> p in mem.page && mem.page[p] == was[p]
    {
      hide Chain, Distinct, TablesUnder, TablesBelow;
      AllSubtrees(tree, n);
      ConsElements(table, mem.free);
      mem.Kfree(table);
    }

    method FreeChild(table: nat, i: nat, child: nat, ghost n: Node, ghost tree: map<Node, nat>,
                     ghost was: map<nat, Page>, ghost free0: set<nat>)
      requires mem.Valid() && i < ENTRIES && Freeing(table, n, tree, i, was, free0)
      requires CanFree(n, tree, was, free0) && table == tree[n]
      requires n.level > 0 && Child(n, i) in tree && child == tree[Child(n, i)]
      modifies mem
      ensures mem.Valid() && Freeing(table, n, tree, i + 1, was, free0)
      decreases n.level, 0
    {
      hide Freeable, Chain, Distinct, TablesUnder, TablesBelow, Under;
      FreeableTables(was, tree, n);
      SubtreeKept(was, mem.page, tree, n, i);
      SubtreeNotFree(tree, n, i, free0, mem.free);
      NotInSubtree(tree, n, i);
      NextSubtree(tree, n, i);
      FreeWalk(child, Child(n, i), tree);
      assert table !in Elements(mem.free);
      mem.Store(table, Table(mem.page[table].ptes[i := NO_PTE]));
    }

    /** uvmfree: once the user pages are unmapped no other mapping may be left;
        every page of the tree and every user frame is free again. */
    method UvmFree(sz: nat)
      requires Valid() && Up(sz) <= MAXVPN && Owned(0, Up(sz))
      requires forall v: nat :: v >= Up(sz) ==> !Mapped(Leaf(v))
      modifies mem, this`nodes
      ensures mem.Valid() && Elements(mem.free) == old(Pool() + Elements(Frames(0, Up(sz))))
      ensures forall p :: old(IsFrame(p)) && p !in old(Frames(0, Up(sz))) ==>
                p in mem.page && mem.page[p] == old(mem.page[p])
    {
      hide LeafOf, Distinct, Chain;
      if sz > 0 {
        UvmUnmap(0, Up(sz), true);
      }
      UnmappedIsFreeable();
      FreeWalk(root, ROOT, nodes);
    }

    lemma UnmappedIsFreeable()
      requires Valid() && forall v: nat :: !Mapped(Leaf(v))
      ensures CanFree(ROOT, nodes, mem.page, Elements(mem.free)) && root == nodes[ROOT]
      ensures TablesUnder(nodes, ROOT) == nodes.Values
    {
      forall m | m in nodes
        ensures NodeOk(mem.page, nodes, m) && Under(ROOT, m)
        ensures m.level == 0 ==> forall x: nat :: x < ENTRIES ==> !Mapped(mem.page[nodes[m]].ptes[x])
      {
        assert NodeOk(mem.page, nodes, m);
        UnderRoot(mem.page, nodes, m);
        if m.level == 0 {
          forall x: nat | x < ENTRIES ensures !Mapped(mem.page[nodes[m]].ptes[x]) {
            var v := m.prefix * ENTRIES + x;
            assert OnPath(0, v) == m && !Mapped(Leaf(v));
          }
        }
      }
      assert forall p :: p in nodes.Values ==> exists m :: m in nodes && nodes[m] == p;
    }

    /** The page is mapped with these flags to a frame with these contents. */
    ghost predicate MapsTo(v: nat, flags: bv10, contents: Page)
      requires Valid()
      reads this, mem
    {
      Leaf(v).flags == flags && IsFrame(Leaf(v).ppn) && mem.page[Leaf(v).ppn] == contents
    }

    ghost predicate AllZero(lo: nat, hi: nat, flags: bv10)
      requires Valid()
      reads this, mem
    {
      forall v: nat :: lo <= v < hi ==> MapsTo(v, flags, Filled(0))
    }

    lemma OwnedMeans(vpn: nat, n: nat)
      requires Valid()
      ensures Owned(vpn, n) <==>
              (forall v: nat :: vpn <= v < vpn + n ==> IsLeaf(Leaf(v)))
              && Distinct(Frames(vpn, n)) && (forall p :: p in Frames(vpn, n) ==> IsFrame(p))
    {
    }

    lemma NoFrames(first: nat)
      requires Valid()
      ensures Owned(first, 0) && Pool() + Elements(Frames(first, 0)) == Pool()
      ensures Frames(first, 0) == [] && forall flags :: AllZero(first, first, flags)
    {
    }

    lemma OneMoreFrame(first: nat, n: nat)
      requires Valid() && Owned(first, n) && IsLeaf(Leaf(first + n))
      requires IsFrame(Leaf(first + n).ppn) && Leaf(first + n).ppn !in Frames(first, n)
      ensures Owned(first, n + 1) && Frames(first, n + 1) == Frames(first, n) + [Leaf(first + n).ppn]
      ensures Elements(Frames(first, n + 1)) == Elements(Frames(first, n)) + {Leaf(first + n).ppn}
    {
      hide Pagetable.Valid, LeafOf;
      assert Frames(first, n + 1) == Frames(first, n) + [Leaf(first + n).ppn];
    }

    lemma RootOnPath(vpn: nat)
      requires Valid() && vpn < MAXVPN
      ensures OnPath(2, vpn) in nodes && root == nodes[OnPath(2, vpn)] && root != 0
    {
      assert NodeOk(mem.page, nodes, ROOT);
    }

    lemma NoGrandchild(vpn: nat)
      requires Valid() && OnPath(1, vpn) !in nodes
      ensures OnPath(0, vpn) !in nodes
    {
      assert OnPath(0, vpn) in nodes ==> NodeOk(mem.page, nodes, OnPath(0, vpn));
    }
  }

  /** uvmcreate; null when there is no page for the root. */
  method UvmCreate(mem: Memory) returns (t: Pagetable?)
    requires mem.Valid()
    modifies mem
    ensures mem.Valid() && (t == null <==> old(mem.free) == []) && (t == null ==> mem.free == [])
    ensures forall p :: p in old(mem.page) && p !in old(mem.free) ==> p in mem.page && mem.page[p] == old(mem.page[p])
    ensures t != null ==> fresh(t) && t.Valid() && t.mem == mem && t.Pool() == old(Elements(mem.free))
    ensures t != null ==> forall v: nat :: t.Leaf(v) == NO_PTE
  {
    var p := mem.KallocTable();
    t := null;
    if p != 0 {
      t := new Pagetable.Empty(mem, p);
    }
  }

  /** Two steps that each leave the rest of memory alone, and take what they
      need from the free pages, do so together. */
  lemma ExtendedFurther(page0: map<nat, Page>, free0: seq<nat>, nodes0: map<Node, nat>,
                        page1: map<nat, Page>, free1: seq<nat>, nodes1: map<Node, nat>,
                        page2: map<nat, Page>, free2: seq<nat>, nodes2: map<Node, nat>)
    requires Elements(free1) + nodes1.Values == Elements(free0) + nodes0.Values
    requires forall p :: p in page0 && p !in free0 && p !in nodes0.Values ==> p in page1 && page1[p] == page0[p]
    requires forall p :: p in page1 && p !in free1 && p !in nodes1.Values ==> p in page2 && page2[p] == page1[p]
    ensures forall p :: p in page0 && p !in free0 && p !in nodes0.Values ==> p in page2 && page2[p] == page0[p]
  {
    forall p | p in page0 && p !in free0 && p !in nodes0.Values ensures p in page2 && page2[p] == page0[p] {
      assert p !in Elements(free1) + nodes1.Values;
    }
  }
}
