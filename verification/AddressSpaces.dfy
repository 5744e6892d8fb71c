/** Any number of address spaces in one memory: the tables and frames of
    lab2/kernel/vm.c and the free list of lab2/kernel/kalloc.c always partition
    the pages that freerange handed out. */
module AddressSpaces {
  import opened PageMemory
  import opened PageTree
  import opened PageTable
  import UserMemory

  /** What a process has in the table of processes: nothing, or a tree whose
      first n pages are the user's. */
  datatype Space = None | Space(nodes: map<Node, nat>, n: nat)

  /** The translation of a page. */
  ghost function EntryAt(page: map<nat, Page>, s: Space, v: nat): Pte {
    if s.Space? && Tree(page, s.nodes) then LeafOf(page, s.nodes, v) else NO_PTE
  }

  ghost function Frames(page: map<nat, Page>, s: Space, lo: nat, hi: nat): set<nat> {
    set v | lo <= v < hi :: EntryAt(page, s, v).ppn
  }

  /** The tables and the frames of an address space. */
  ghost function Used(page: map<nat, Page>, s: Space): set<nat> {
    if s.None? then {} else s.nodes.Values + Frames(page, s, 0, s.n)
  }

  ghost predicate FrameOk(page: map<nat, Page>, free: set<nat>, s: Space, e: Pte)
    requires s.Space?
  {
    && IsLeaf(e) && e.ppn in page && e.ppn !in free && e.ppn !in s.nodes.Values
    && page[e.ppn].Frame? && |page[e.ppn].bytes| == PGSIZE
  }

  /** The first n pages are mapped to frames of their own, no other is. */
  ghost predicate SpaceOk(page: map<nat, Page>, free: set<nat>, s: Space) {
    s.Space? ==>
      && Tree(page, s.nodes) && s.n <= MAXVPN && (forall n :: n in s.nodes ==> s.nodes[n] !in free)
      && (forall v: nat :: v < s.n ==> FrameOk(page, free, s, EntryAt(page, s, v)))
      && (forall v: nat, w: nat :: v < w < s.n ==> EntryAt(page, s, v).ppn != EntryAt(page, s, w).ppn)
      && forall v: nat :: v >= s.n ==> !Mapped(EntryAt(page, s, v))
  }

  /** Every page is free, or in one address space, or one of those that the
      kernel keeps for itself, which nobody changes. */
  ghost predicate Partition(page: map<nat, Page>, free: set<nat>, spaces: seq<Space>, kept: map<nat, Page>) {
    && (forall i :: 0 <= i < |spaces| ==> SpaceOk(page, free, spaces[i]))
    && (forall i, j :: 0 <= i < j < |spaces| ==> Used(page, spaces[i]) !! Used(page, spaces[j]))
    && (forall i :: 0 <= i < |spaces| ==> Used(page, spaces[i]) !! kept.Keys)
    && (forall p :: p in kept ==> p in page && p !in free && page[p] == kept[p])
    && forall p :: p in page ==> p in free || p in kept || exists i :: 0 <= i < |spaces| && p in Used(page, spaces[i])
  }

  /** An address space is what its own pages say. */
  lemma SpaceKept(page: map<nat, Page>, free: set<nat>, s: Space, page': map<nat, Page>, free': set<nat>)
    requires SpaceOk(page, free, s)
    requires forall p :: p in Used(page, s) ==> p in page && p in page' && page'[p] == page[p] && p !in free'
    ensures SpaceOk(page', free', s) && Used(page', s) == Used(page, s)
  {
    if s.Space? {
      hide Tree, LeafOf;
      forall n | n in s.nodes ensures s.nodes[n] in Used(page, s) {
      }
      SameTables(page, page', s.nodes);
      forall v: nat ensures EntryAt(page', s, v) == EntryAt(page, s, v) {
      }
      forall v: nat | v < s.n ensures EntryAt(page, s, v).ppn in Used(page, s) {
        assert EntryAt(page, s, v).ppn in Frames(page, s, 0, s.n);
      }
      assert Frames(page', s, 0, s.n) == Frames(page, s, 0, s.n);
    }
  }

  /** A step that changes one address space, and takes pages from the free ones
      for it or gives them back. */
  ghost predicate Changed(page: map<nat, Page>, free: set<nat>, s: Space,
                          page': map<nat, Page>, free': set<nat>, s': Space) {
    && SpaceOk(page', free', s') && free' + Used(page', s') == free + Used(page, s) && page'.Keys == page.Keys
    && forall p :: p in page && p !in free && p !in Used(page, s) ==> page'[p] == page[p]
  }

  /** What changes one address space, and takes pages from the free ones for it
      or gives them back, keeps the partition. */
  lemma PartitionKept(page: map<nat, Page>, free: set<nat>, spaces: seq<Space>, kept: map<nat, Page>,
                      page': map<nat, Page>, free': set<nat>, i: nat, s: Space)
    requires Partition(page, free, spaces, kept) && i < |spaces|
    requires Changed(page, free, spaces[i], page', free', s)
    ensures Partition(page', free', spaces[i := s], kept)
  {
    hide SpaceOk, Used;
    var spaces' := spaces[i := s];
    var both := free + Used(page, spaces[i]);
    forall j | 0 <= j < |spaces|
      ensures SpaceOk(page', free', spaces'[j])
      ensures j != i ==> Used(page', spaces'[j]) == Used(page, spaces[j]) && Used(page, spaces[j]) !! both
    {
      if j != i {
        Apart(page, free, spaces[j]);
        assert Used(page, spaces[j]) !! Used(page, spaces[i]);
        forall p | p in Used(page, spaces[j]) ensures p in page && p in page' && page'[p] == page[p] && p !in free' {
          assert p !in both;
        }
        SpaceKept(page, free, spaces[j], page', free');
      }
    }
    forall p | p in kept ensures p in page' && p !in free' && page'[p] == kept[p] && p !in Used(page', s) {
      assert p !in both;
    }
    forall p | p in page'
      ensures p in free' || p in kept || exists j :: 0 <= j < |spaces'| && p in Used(page', spaces'[j])
    {
      if p in both {
        assert p in free' || p in Used(page', spaces'[i]);
      } else {
        assert p in kept || exists j :: 0 <= j < |spaces| && j != i && p in Used(page, spaces[j]);
        if p !in kept {
          var j :| 0 <= j < |spaces| && j != i && p in Used(page, spaces[j]);
          assert p in Used(page', spaces'[j]);
        }
      }
    }
  }

  lemma Apart(page: map<nat, Page>, free: set<nat>, s: Space)
    requires SpaceOk(page, free, s)
    ensures Used(page, s) !! free && forall p :: p in Used(page, s) ==> p in page
  {
    if s.Space? {
      forall n | n in s.nodes ensures s.nodes[n] in page && s.nodes[n] !in free {
        assert NodeOk(page, s.nodes, n);
      }
    }
  }

  /** More pages, on frames that were free or tables before. */
  lemma Grown(page: map<nat, Page>, free: set<nat>, s: Space, page': map<nat, Page>, free': set<nat>, s': Space)
    requires SpaceOk(page, free, s) && s.Space? && s'.Space? && s.n <= s'.n <= MAXVPN && Tree(page', s'.nodes)
    requires forall n :: n in s'.nodes ==> s'.nodes[n] !in free'
    requires forall v: nat :: v < s.n || v >= s'.n ==> EntryAt(page', s', v) == EntryAt(page, s, v)
    requires forall v: nat :: s.n <= v < s'.n ==> FrameOk(page', free', s', EntryAt(page', s', v))
    requires forall v: nat, w: nat :: s.n <= v < w < s'.n ==> EntryAt(page', s', v).ppn != EntryAt(page', s', w).ppn
    requires free' + s'.nodes.Values + Frames(page', s', s.n, s'.n) == free + s.nodes.Values
    requires forall p :: p in page && p !in free && p !in s.nodes.Values ==>
               p in page' && page'[p] == page[p] && p !in free' && p !in s'.nodes.Values
    ensures SpaceOk(page', free', s') && free' + Used(page', s') == free + Used(page, s)
  {
    hide Tree, EntryAt;
    var added := Frames(page', s', s.n, s'.n);
    forall v: nat | v < s.n ensures FrameOk(page', free', s', EntryAt(page', s', v)) {
      assert FrameOk(page, free, s, EntryAt(page, s, v));
    }
    forall v: nat, w: nat | v < s.n <= w < s'.n ensures EntryAt(page', s', v).ppn != EntryAt(page', s', w).ppn {
      assert FrameOk(page, free, s, EntryAt(page, s, v)) && EntryAt(page', s', w).ppn in added;
    }
    assert Frames(page', s', 0, s'.n) == Frames(page, s, 0, s.n) + added;
  }

  /** Fewer pages, with the frames of the others free again. */
  lemma Shrunk(page: map<nat, Page>, free: set<nat>, s: Space, page': map<nat, Page>, free': set<nat>, s': Space)
    requires SpaceOk(page, free, s) && s.Space? && s'.Space? && s'.n <= s.n && s'.nodes == s.nodes
    requires Tree(page', s'.nodes) && forall n :: n in s'.nodes ==> s'.nodes[n] !in free'
    requires forall v: nat :: EntryAt(page', s', v) == if v < s'.n then EntryAt(page, s, v) else NO_PTE
    requires free' + s'.nodes.Values == free + s.nodes.Values + Frames(page, s, s'.n, s.n)
    requires forall p :: p in page && p !in free && p !in s.nodes.Values && p !in Frames(page, s, s'.n, s.n) ==>
               p in page' && page'[p] == page[p] && p !in free'
    ensures SpaceOk(page', free', s') && free' + Used(page', s') == free + Used(page, s)
  {
    hide Tree, EntryAt;
    forall v: nat | v < s'.n ensures FrameOk(page', free', s', EntryAt(page', s', v)) {
      assert FrameOk(page, free, s, EntryAt(page, s, v));
    }
    assert Frames(page, s, 0, s.n) == Frames(page', s', 0, s'.n) + Frames(page, s, s'.n, s.n);
  }

  /** A page table and its address space say the same. */
  lemma OfTable(t: Pagetable, n: nat)
    requires t.Valid() && n <= MAXVPN && t.Owned(0, n)
    requires forall v: nat :: v >= n ==> !Mapped(t.Leaf(v))
    requires forall v: nat :: v < n ==>
               var p := t.Leaf(v).ppn; p in t.mem.page && t.mem.page[p].Frame? && |t.mem.page[p].bytes| == PGSIZE
    ensures SpaceOk(t.mem.page, Elements(t.mem.free), Space(t.nodes, n))
    ensures Used(t.mem.page, Space(t.nodes, n)) == t.nodes.Values + Elements(t.Frames(0, n))
  {
    EntriesAre(t, n);
    FramesAre(t, n, 0, n);
    NoneFree(t);
    t.TreeIs();
    t.OwnedMeans(0, n);
    hide Pagetable.Valid, Pagetable.Owned, Pagetable.Leaf, Tree, Elements, EntryAt, SpaceOk, Distinct;
    var frames := t.Frames(0, n);
    forall v: nat | v < n ensures frames[v] == t.Leaf(v).ppn && frames[v] in frames {
    }
    OkOfFrames(t.mem.page, Elements(t.mem.free), Space(t.nodes, n), frames);
  }

  lemma OkOfFrames(page: map<nat, Page>, free: set<nat>, s: Space, frames: seq<nat>)
    requires s.Space? && Tree(page, s.nodes) && s.n <= MAXVPN && |frames| == s.n && Distinct(frames)
    requires forall n :: n in s.nodes ==> s.nodes[n] !in free
    requires forall v: nat :: v < s.n ==> frames[v] == EntryAt(page, s, v).ppn
    requires forall v: nat :: v < s.n ==> FrameOk(page, free, s, EntryAt(page, s, v))
    requires forall v: nat :: v >= s.n ==> !Mapped(EntryAt(page, s, v))
    ensures SpaceOk(page, free, s)
  {
    hide Tree, EntryAt;
  }

  lemma EntriesAre(t: Pagetable, n: nat)
    requires t.Valid()
    ensures forall v: nat :: EntryAt(t.mem.page, Space(t.nodes, n), v) == t.Leaf(v)
  {
  }

  lemma FramesAre(t: Pagetable, n: nat, lo: nat, hi: nat)
    requires t.Valid() && lo <= hi
    ensures Frames(t.mem.page, Space(t.nodes, n), lo, hi) == Elements(t.Frames(lo, hi - lo))
  {
    EntriesAre(t, n);
    hide Pagetable.Valid, Pagetable.Leaf, EntryAt;
    var s, frames := Space(t.nodes, n), t.Frames(lo, hi - lo);
    forall v: nat | lo <= v < hi
      ensures frames[v - lo] == EntryAt(t.mem.page, s, v).ppn && frames[v - lo] in frames
    {
    }
  }

  lemma NoneFree(t: Pagetable)
    requires t.Valid()
    ensures forall n :: n in t.nodes ==> t.nodes[n] !in Elements(t.mem.free) && t.nodes[n] in t.nodes.Values
    ensures forall p :: p in t.mem.free <==> p in Elements(t.mem.free)
  {
  }

  lemma ToTable(t: Pagetable, n: nat)
    requires t.mem.Valid() && SpaceOk(t.mem.page, Elements(t.mem.free), Space(t.nodes, n))
    requires ROOT in t.nodes && t.root == t.nodes[ROOT]
    ensures t.Valid() && n <= MAXVPN && t.Owned(0, n) && forall v: nat :: v >= n ==> !Mapped(t.Leaf(v))
    ensures forall v: nat :: t.Leaf(v) == EntryAt(t.mem.page, Space(t.nodes, n), v)
    ensures Used(t.mem.page, Space(t.nodes, n)) == t.nodes.Values + Elements(t.Frames(0, n))
  {
    assert t.Valid();
    EntriesAre(t, n);
    FramesAre(t, n, 0, n);
    hide Pagetable.Valid, LeafOf, Tree;
    var frames := t.Frames(0, n);
    assert forall v: nat :: v < n ==> frames[v] == t.Leaf(v).ppn;
  }

  /** What uvmalloc and uvmcopy say, for the address space. */
  lemma GrownTable(t: Pagetable, page0: map<nat, Page>, free0: set<nat>, s: Space, n: nat)
    requires t.Valid() && s.Space? && SpaceOk(page0, free0, s) && s.n <= n <= MAXVPN && page0.Keys == t.mem.page.Keys
    requires forall v: nat :: v < s.n || v >= n ==> t.Leaf(v) == EntryAt(page0, s, v)
    requires t.Owned(s.n, n - s.n) && t.Pool() + Elements(t.Frames(s.n, n - s.n)) == free0 + s.nodes.Values
    requires forall v: nat :: s.n <= v < n ==>
               var p := t.Leaf(v).ppn; p in t.mem.page && t.mem.page[p].Frame? && |t.mem.page[p].bytes| == PGSIZE
    requires forall p :: p in page0 && p !in free0 && p !in s.nodes.Values ==>
               t.IsFrame(p) && p in t.mem.page && t.mem.page[p] == page0[p]
    ensures Changed(page0, free0, s, t.mem.page, Elements(t.mem.free), Space(t.nodes, n))
    ensures SpaceOk(t.mem.page, Elements(t.mem.free), Space(t.nodes, n))
  {
    var s' := Space(t.nodes, n);
    t.TreeIs();
    t.OwnedMeans(s.n, n - s.n);
    NoneFree(t);
    EntriesAre(t, n);
    FramesAre(t, n, s.n, n);
    var frames := t.Frames(s.n, n - s.n);
    hide Pagetable.Valid, Pagetable.Owned, Pagetable.Leaf, Tree, Elements, EntryAt, SpaceOk;
    forall v: nat | s.n <= v < n ensures frames[v - s.n] == t.Leaf(v).ppn && frames[v - s.n] in frames {
    }
    Grown(page0, free0, s, t.mem.page, Elements(t.mem.free), s');
  }

  /** The table is the space's. */
  ghost predicate IsSpace(t: Pagetable, s: Space)
    reads t, t.mem
  {
    && t.mem.Valid() && s.Space? && s.nodes == t.nodes && ROOT in t.nodes && t.root == t.nodes[ROOT]
    && SpaceOk(t.mem.page, Elements(t.mem.free), s)
  }

  /** uvmalloc, of W pages as growproc asks for them. */
  method GrowTable(t: Pagetable, sz: nat, newsz: nat) returns (r: nat, ok: bool)
    requires IsSpace(t, Space(t.nodes, Up(sz))) && sz <= newsz && Up(newsz) <= MAXVPN
    modifies t.mem, t`nodes
    ensures r == if ok then newsz else 0
    ensures var s := Space(t.nodes, Up(if ok then newsz else sz));
            && IsSpace(t, s)
            && Changed(old(t.mem.page), old(Elements(t.mem.free)), old(Space(t.nodes, Up(sz))),
                       t.mem.page, Elements(t.mem.free), s)
    ensures ok <==> old(Enough(t.Pool(), t.Tables(), Up(sz), Up(newsz), Up(newsz) - Up(sz)))
  {
    hide Pagetable.Valid, Pagetable.Owned, Pagetable.Leaf, Pagetable.Pool, Pagetable.AllZero;
    hide SpaceOk, Used, EntryAt, Enough, Pagetable.Tables, Tree, Changed, Up, Elements, Pagetable.IsFrame;
    UpGrows(sz, newsz);
    ghost var page0, free0, s := t.mem.page, Elements(t.mem.free), Space(t.nodes, Up(sz));
    ToTable(t, Up(sz));
    TableFacts(t, free0);
    r, ok := t.UvmAlloc(sz, newsz, W);
    TableFacts(t, Elements(t.mem.free));
    if ok {
      ZeroFrames(t, Up(sz), Up(newsz), (R | U | W) | V);
      GrownTable(t, page0, free0, s, Up(newsz));
    } else {
      t.NoFrames(Up(sz));
      GrownTable(t, page0, free0, s, Up(sz));
    }
  }

  lemma TableFacts(t: Pagetable, free: set<nat>)
    requires t.Valid() && free == Elements(t.mem.free)
    ensures ROOT in t.nodes && t.root == t.nodes[ROOT] && t.mem.Valid() && t.Pool() == free + t.nodes.Values
    ensures forall p :: p in t.mem.page <==> t.mem.lo <= p < t.mem.hi
    ensures forall p :: p in t.mem.page && p !in free && p !in t.nodes.Values ==> t.IsFrame(p)
  {
  }

  lemma UpGrows(sz: nat, newsz: nat)
    requires sz <= newsz
    ensures Up(sz) <= Up(newsz)
  {
  }

  lemma ZeroFrames(t: Pagetable, lo: nat, hi: nat, flags: bv10)
    requires t.Valid() && t.AllZero(lo, hi, flags)
    ensures forall v: nat :: lo <= v < hi ==>
              var p := t.Leaf(v).ppn; p in t.mem.page && t.mem.page[p].Frame? && |t.mem.page[p].bytes| == PGSIZE
  {
    hide Pagetable.Valid, Pagetable.Leaf;
    forall v: nat | lo <= v < hi
      ensures var p := t.Leaf(v).ppn; p in t.mem.page && t.mem.page[p].Frame? && |t.mem.page[p].bytes| == PGSIZE
    {
      assert t.MapsTo(v, flags, Filled(0));
    }
  }

  lemma OwnedPart(t: Pagetable, lo: nat, n: nat)
    requires t.Valid() && lo <= n && t.Owned(0, n)
    ensures t.Owned(lo, n - lo)
  {
    t.OwnedMeans(0, n);
    hide Pagetable.Valid, Pagetable.Leaf;
    var all, part := t.Frames(0, n), t.Frames(lo, n - lo);
    forall i | 0 <= i < n - lo ensures part[i] == all[lo + i] && part[i] in all {
      assert all[lo + i] in all;
    }
  }

  /** uvmdealloc. */
  method ShrinkTable(t: Pagetable, sz: nat, newsz: nat) returns (r: nat)
    requires IsSpace(t, Space(t.nodes, Up(sz)))
    modifies t.mem, t`nodes
    ensures r == if newsz < sz then newsz else sz
    ensures var s := Space(t.nodes, Up(r));
            && IsSpace(t, s)
            && Changed(old(t.mem.page), old(Elements(t.mem.free)), old(Space(t.nodes, Up(sz))),
                       t.mem.page, Elements(t.mem.free), s)
  {
    hide Pagetable.Valid, Pagetable.Owned, Pagetable.Leaf, SpaceOk, Used, EntryAt, Tree, Changed, Pagetable.IsFrame;
    ghost var page0, free0, s := t.mem.page, Elements(t.mem.free), Space(t.nodes, Up(sz));
    ToTable(t, Up(sz));
    TableFacts(t, free0);
    ghost var lo, hi := Up(if newsz < sz then newsz else sz), Up(sz);
    OwnedPart(t, lo, hi);
    FramesAre(t, hi, lo, hi);
    ghost var freed := t.Frames(lo, hi - lo);
    r := t.UvmDealloc(sz, newsz);
    TableFacts(t, Elements(t.mem.free));
    ShrunkTable(t, page0, free0, s, lo, freed);
  }

  lemma ShrunkTable(t: Pagetable, page0: map<nat, Page>, free0: set<nat>, s: Space, n: nat, freed: seq<nat>)
    requires t.Valid() && s.Space? && SpaceOk(page0, free0, s) && n <= s.n && page0.Keys == t.mem.page.Keys
    requires t.nodes == s.nodes && Elements(freed) == Frames(page0, s, n, s.n)
    requires forall v: nat :: t.Leaf(v) == if n <= v < s.n then NO_PTE else EntryAt(page0, s, v)
    requires t.Pool() == free0 + s.nodes.Values + Elements(freed)
    requires forall p :: p in page0 && p !in free0 && p !in s.nodes.Values && p !in freed ==>
               t.IsFrame(p) && p in t.mem.page && t.mem.page[p] == page0[p]
    ensures Changed(page0, free0, s, t.mem.page, Elements(t.mem.free), Space(t.nodes, n))
    ensures SpaceOk(t.mem.page, Elements(t.mem.free), Space(t.nodes, n))
  {
    var s' := Space(t.nodes, n);
    t.TreeIs();
    t.LeavesOk();
    NoneFree(t);
    EntriesAre(t, n);
    hide Pagetable.Valid, Pagetable.Leaf, Tree, EntryAt;
    forall v: nat | v >= n ensures t.Leaf(v) == NO_PTE {
    }
    hide SpaceOk;
    Shrunk(page0, free0, s, t.mem.page, Elements(t.mem.free), s');
  }

  /** uvmcreate. */
  method CreateTable(mem: Memory) returns (t: Pagetable?)
    requires mem.Valid()
    modifies mem
    ensures mem.Valid() && (t == null <==> old(mem.free) == [])
    ensures t == null ==> Changed(old(mem.page), old(Elements(mem.free)), None, mem.page, Elements(mem.free), None)
    ensures t != null ==>
              && fresh(t) && t.mem == mem && IsSpace(t, Space(t.nodes, 0))
              && Changed(old(mem.page), old(Elements(mem.free)), None, mem.page, Elements(mem.free), Space(t.nodes, 0))
  {
    hide Pagetable.Valid, Pagetable.Leaf, Pagetable.Pool, SpaceOk, Tree, Changed;
    ghost var page0, free0 := mem.page, Elements(mem.free);
    t := UvmCreate(mem);
    if t == null {
      NothingChanged(page0, free0, mem.page, Elements(mem.free));
    } else {
      CreatedTable(t, page0, free0);
    }
  }

  lemma NothingChanged(page0: map<nat, Page>, free0: set<nat>, page: map<nat, Page>, free: set<nat>)
    requires page0.Keys == page.Keys && free == free0
    requires forall p :: p in page0 && p !in free0 ==> page[p] == page0[p]
    ensures Changed(page0, free0, None, page, free, None)
  {
  }

  lemma CreatedTable(t: Pagetable, page0: map<nat, Page>, free0: set<nat>)
    requires t.Valid() && t.Pool() == free0 && page0.Keys == t.mem.page.Keys
    requires forall v: nat :: t.Leaf(v) == NO_PTE
    requires forall p :: p in page0 && p !in free0 ==> t.mem.page[p] == page0[p]
    ensures Changed(page0, free0, None, t.mem.page, Elements(t.mem.free), Space(t.nodes, 0))
    ensures IsSpace(t, Space(t.nodes, 0))
  {
    t.NoFrames(0);
    OfTable(t, 0);
    TableFacts(t, Elements(t.mem.free));
    hide Pagetable.Valid, Pagetable.Leaf, Pagetable.Owned, Tree, EntryAt, SpaceOk, Used;
  }

  /** uvmfree. */
  method FreeTable(t: Pagetable, sz: nat)
    requires IsSpace(t, Space(t.nodes, Up(sz)))
    modifies t.mem, t`nodes
    ensures t.mem.Valid()
    ensures Changed(old(t.mem.page), old(Elements(t.mem.free)), old(Space(t.nodes, Up(sz))),
                    t.mem.page, Elements(t.mem.free), None)
  {
    hide Pagetable.Valid, Pagetable.Owned, Pagetable.Leaf, SpaceOk, Used, EntryAt, Tree, Changed, Pagetable.IsFrame;
    ghost var page0, free0, s := t.mem.page, Elements(t.mem.free), Space(t.nodes, Up(sz));
    ToTable(t, Up(sz));
    TableFacts(t, free0);
    ghost var freed := t.Frames(0, Up(sz));
    t.UvmFree(sz);
    FreedTable(page0, free0, s, freed, t.mem);
  }

  lemma FreedTable(page0: map<nat, Page>, free0: set<nat>, s: Space, freed: seq<nat>, mem: Memory)
    requires s.Space? && page0.Keys == mem.page.Keys
    requires Used(page0, s) == s.nodes.Values + Elements(freed)
    requires Elements(mem.free) == free0 + s.nodes.Values + Elements(freed)
    requires forall p :: p in page0 && p !in free0 && p !in s.nodes.Values && p !in freed ==>
               p in mem.page && mem.page[p] == page0[p]
    ensures Changed(page0, free0, s, mem.page, Elements(mem.free), None)
  {
  }

  /** uvmcopy into an empty address space. */
  method CopyTable(t: Pagetable, from: Pagetable, sz: nat) returns (ok: bool)
    requires IsSpace(t, Space(t.nodes, 0)) && IsSpace(from, Space(from.nodes, Up(sz)))
    requires t != from && t.mem == from.mem
    requires Used(t.mem.page, Space(t.nodes, 0)) !! Used(t.mem.page, Space(from.nodes, Up(sz)))
    modifies t.mem, t`nodes, from`nodes
    ensures from.nodes == old(from.nodes)
    ensures var s := Space(t.nodes, if ok then Up(sz) else 0);
            && IsSpace(t, s)
            && Changed(old(t.mem.page), old(Elements(t.mem.free)), old(Space(t.nodes, 0)),
                       t.mem.page, Elements(t.mem.free), s)
    ensures ok ==> SameMemory(t, from, Up(sz))
    ensures ok <==> old(Enough(t.Pool(), t.Tables(), 0, Up(sz), Up(sz)))
  {
    hide Pagetable.Valid, Pagetable.Owned, Pagetable.Leaf, Pagetable.Pool, Pagetable.IsFrame, Pagetable.Beside;
    hide SpaceOk, Used, EntryAt, Enough, Pagetable.Tables, Tree, Changed, Elements, Pagetable.CopyOf, SameMemory;
    hide Pagetable.CanCopy, Up;
    ghost var page0, free0, s, n := t.mem.page, Elements(t.mem.free), Space(t.nodes, 0), Up(sz);
    ToTable(t, 0);
    ToTable(from, n);
    TableFacts(t, free0);
    BesideOf(t, from, n);
    SourceFrames(from, n);
    ok := t.UvmCopy(from, sz);
    TableFacts(t, Elements(t.mem.free));
    if ok {
      Copied(t, from, n, page0);
      GrownTable(t, page0, free0, s, n);
    } else {
      t.NoFrames(0);
      GrownTable(t, page0, free0, s, 0);
    }
  }

  /** The child's memory is a copy of the parent's, with its flags. */
  ghost predicate SameMemory(t: Pagetable, from: Pagetable, n: nat)
    reads t, from, t.mem
  {
    t.mem == from.mem && t.Valid() && from.Valid() && forall v: nat :: v < n ==>
      && t.Leaf(v).flags == from.Leaf(v).flags
      && t.Leaf(v).ppn in t.mem.page && from.Leaf(v).ppn in t.mem.page
      && t.mem.page[t.Leaf(v).ppn] == t.mem.page[from.Leaf(v).ppn]
  }

  lemma BesideOf(t: Pagetable, from: Pagetable, n: nat)
    requires IsSpace(t, Space(t.nodes, 0)) && IsSpace(from, Space(from.nodes, n))
    requires t != from && t.mem == from.mem
    requires Used(t.mem.page, Space(t.nodes, 0)) !! Used(t.mem.page, Space(from.nodes, n))
    ensures t.Valid() && t.Beside(from) && t.CanCopy(from, n)
    ensures forall v: nat :: v < n ==> t.IsFrame(from.Leaf(v).ppn)
  {
    var s, page := Space(from.nodes, n), t.mem.page;
    ToTable(t, 0);
    ToTable(from, n);
    from.TreeIs();
    hide Pagetable.Valid, Pagetable.Leaf, Tree;
    forall v: nat | v < n ensures IsLeaf(from.Leaf(v)) && t.IsFrame(from.Leaf(v).ppn) {
      assert FrameOk(page, Elements(t.mem.free), s, EntryAt(page, s, v));
      assert EntryAt(page, s, v).ppn in Used(page, s);
    }
    NoneFree(from);
    forall p | p in from.nodes.Values ensures t.IsFrame(p) {
      assert p in Used(page, s);
    }
  }

  lemma SourceFrames(from: Pagetable, n: nat)
    requires IsSpace(from, Space(from.nodes, n))
    ensures from.Valid() && forall v: nat :: v < n ==>
              var p := from.Leaf(v).ppn;
              p in from.mem.page && from.mem.page[p].Frame? && |from.mem.page[p].bytes| == PGSIZE
  {
    ToTable(from, n);
    hide Pagetable.Valid, Pagetable.Leaf, Tree, EntryAt;
    forall v: nat | v < n
      ensures FrameOk(from.mem.page, Elements(from.mem.free), Space(from.nodes, n), from.Leaf(v))
    {
    }
  }

  lemma Copied(t: Pagetable, from: Pagetable, n: nat, page0: map<nat, Page>)
    requires t.Valid() && t.Beside(from) && t.CopyOf(from, n)
    requires forall v: nat :: v < n ==>
               var p := from.Leaf(v).ppn;
               p in page0 && page0[p].Frame? && |page0[p].bytes| == PGSIZE && p in t.mem.page && t.mem.page[p] == page0[p]
    ensures SameMemory(t, from, n)
    ensures forall v: nat :: v < n ==>
              var p := t.Leaf(v).ppn; p in t.mem.page && t.mem.page[p].Frame? && |t.mem.page[p].bytes| == PGSIZE
  {
    hide Pagetable.Valid, Pagetable.Leaf;
    forall v: nat | v < n
      ensures t.MapsTo(v, from.Leaf(v).flags, t.mem.page[from.Leaf(v).ppn]) && t.Leaf(v).ppn in t.mem.page
    {
    }
  }

  /** copyout to a process. */
  method WriteTable(t: Pagetable, sz: nat, va: nat, src: seq<int>) returns (ok: bool)
    requires IsSpace(t, Space(t.nodes, Up(sz)))
    modifies t.mem, t`nodes
    ensures t.nodes == old(t.nodes)
    ensures var s := Space(t.nodes, Up(sz));
            && IsSpace(t, s)
            && Changed(old(t.mem.page), old(Elements(t.mem.free)), s, t.mem.page, Elements(t.mem.free), s)
    ensures var leaf := old(Leaves(t.mem.page, t.nodes));
            && (ok <==> UserMemory.AllReachable(leaf, va, |src|))
            && (ok ==> UserMemory.Holds(t, leaf, UserMemory.Patch(old(Bytes(t.mem.page, t.nodes)), va, src)))
  {
    hide Pagetable.Valid, Pagetable.Owned, Pagetable.Leaf, SpaceOk, Changed, UserMemory.Holds;
    hide UserMemory.OnlyUsers, UserMemory.AllReachable, Leaves, Bytes, UserMemory.Patch, UserMemory.UserAt;
    ghost var page0, free0, s := t.mem.page, Elements(t.mem.free), Space(t.nodes, Up(sz));
    ghost var leaf, f := Leaves(t.mem.page, t.nodes), Bytes(t.mem.page, t.nodes);
    UserBytes(t, Up(sz));
    ghost var upto;
    ok, upto := UserMemory.CopyOut(t, va, src, leaf, f);
    assert src[..|src|] == src;
    WrittenTable(t, page0, free0, s, leaf, UserMemory.Patch(f, va, src[..upto]));
  }

  ghost function Leaves(page: map<nat, Page>, nodes: map<Node, nat>): nat -> Pte {
    (v: nat) => EntryAt(page, Space(nodes, 0), v)
  }

  /** The user's bytes. */
  ghost function Bytes(page: map<nat, Page>, nodes: map<Node, nat>): nat -> int {
    (x: nat) =>
      var p := EntryAt(page, Space(nodes, 0), x / PGSIZE).ppn;
      if p in page && page[p].Frame? && |page[p].bytes| == PGSIZE then page[p].bytes[x % PGSIZE] else 0
  }

  /** Every address space is one that copyout and copyin work on. */
  lemma UserBytes(t: Pagetable, n: nat)
    requires IsSpace(t, Space(t.nodes, n))
    ensures UserMemory.Holds(t, Leaves(t.mem.page, t.nodes), Bytes(t.mem.page, t.nodes))
  {
    var s := Space(t.nodes, n);
    ToTable(t, n);
    EntriesAre(t, 0);
    assert forall v: nat :: t.Leaf(v) == EntryAt(t.mem.page, s, v);
    UserSpace(t, n);
    hide Pagetable.Valid, Pagetable.Leaf, EntryAt, UserMemory.Space;
  }

  lemma UserSpace(t: Pagetable, n: nat)
    requires IsSpace(t, Space(t.nodes, n)) && t.Valid()
    requires forall v: nat :: t.Leaf(v) == EntryAt(t.mem.page, Space(t.nodes, n), v)
    ensures UserMemory.Space(t) && forall v: nat :: UserMemory.IsUser(t.Leaf(v), v) ==> UserMemory.FrameOk(t, v)
  {
    var page, s := t.mem.page, Space(t.nodes, n);
    TableFacts(t, Elements(t.mem.free));
    hide Pagetable.Valid, Pagetable.Leaf, Tree, EntryAt;
    forall v: nat | UserMemory.IsUser(t.Leaf(v), v) ensures v < n && UserMemory.FrameOk(t, v) {
      assert Mapped(t.Leaf(v)) && FrameOk(page, Elements(t.mem.free), s, EntryAt(page, s, v));
    }
    hide FrameOk;
  }

  lemma WrittenTable(t: Pagetable, page0: map<nat, Page>, free0: set<nat>, s: Space, leaf: nat -> Pte, f: nat -> int)
    requires s.Space? && t.nodes == s.nodes && SpaceOk(page0, free0, s) && Elements(t.mem.free) == free0
    requires leaf == Leaves(page0, s.nodes)
    requires UserMemory.Holds(t, leaf, f) && UserMemory.OnlyUsers(leaf, page0, t.mem.page)
    ensures IsSpace(t, s) && Changed(page0, free0, s, t.mem.page, Elements(t.mem.free), s)
  {
    var page := t.mem.page;
    t.TreeIs();
    EntriesAre(t, s.n);
    TableFacts(t, free0);
    UserFrames(t, leaf, f);
    assert forall v: nat :: EntryAt(page, s, v) == EntryAt(page0, s, v) == leaf(v);
    hide Pagetable.Valid, Pagetable.Leaf, Tree, EntryAt, UserMemory.Holds;
    WrittenSpace(page0, free0, s, leaf, page);
  }

  lemma UserFrames(t: Pagetable, leaf: nat -> Pte, f: nat -> int)
    requires UserMemory.Holds(t, leaf, f)
    ensures forall v: nat :: UserMemory.IsUser(leaf(v), v) ==>
              leaf(v).ppn in t.mem.page && t.mem.page[leaf(v).ppn].Frame? && |t.mem.page[leaf(v).ppn].bytes| == PGSIZE
  {
    hide Pagetable.Valid, Pagetable.Leaf;
    forall v: nat | UserMemory.IsUser(leaf(v), v) ensures UserMemory.FrameOk(t, v) && t.Leaf(v) == leaf(v) {
      assert t.Leaf(v) == leaf(v);
    }
  }

  lemma WrittenSpace(page0: map<nat, Page>, free0: set<nat>, s: Space, leaf: nat -> Pte, page: map<nat, Page>)
    requires s.Space? && SpaceOk(page0, free0, s) && Tree(page, s.nodes) && UserMemory.OnlyUsers(leaf, page0, page)
    requires forall v: nat :: EntryAt(page, s, v) == EntryAt(page0, s, v) == leaf(v)
    requires forall v: nat :: UserMemory.IsUser(leaf(v), v) ==>
               leaf(v).ppn in page && page[leaf(v).ppn].Frame? && |page[leaf(v).ppn].bytes| == PGSIZE
    ensures SpaceOk(page, free0, s) && Changed(page0, free0, s, page, free0, s)
  {
    hide Tree, EntryAt, UserMemory.IsUsersFrame;
    UsersOnly(page0, free0, s, leaf);
    forall v: nat | v < s.n ensures FrameOk(page, free0, s, EntryAt(page, s, v)) {
      assert FrameOk(page0, free0, s, EntryAt(page0, s, v));
    }
    assert Frames(page, s, 0, s.n) == Frames(page0, s, 0, s.n);
  }

  lemma UsersOnly(page0: map<nat, Page>, free0: set<nat>, s: Space, leaf: nat -> Pte)
    requires s.Space? && SpaceOk(page0, free0, s)
    requires forall v: nat :: EntryAt(page0, s, v) == leaf(v)
    ensures forall p :: UserMemory.IsUsersFrame(leaf, p) ==> p in Used(page0, s)
    ensures forall v: nat :: v < s.n && !UserMemory.IsUser(leaf(v), v) ==> !UserMemory.IsUsersFrame(leaf, leaf(v).ppn)
  {
    hide Tree, EntryAt;
    forall v: nat, w: nat | v < s.n && !UserMemory.IsUser(leaf(v), v) && UserMemory.IsUser(leaf(w), w)
      ensures leaf(w).ppn != leaf(v).ppn
    {
      assert Mapped(EntryAt(page0, s, w)) && w < s.n;
      if v < w {
        assert EntryAt(page0, s, v).ppn != EntryAt(page0, s, w).ppn;
      } else {
        assert EntryAt(page0, s, w).ppn != EntryAt(page0, s, v).ppn;
      }
    }
    forall p | UserMemory.IsUsersFrame(leaf, p) ensures p in Used(page0, s) {
      var v: nat :| UserMemory.IsUser(leaf(v), v) && leaf(v).ppn == p;
      assert Mapped(EntryAt(page0, s, v)) && EntryAt(page0, s, v).ppn in Frames(page0, s, 0, s.n);
    }
  }

  const UINT64_LIMIT: nat := 0x1_0000_0000_0000_0000

  ghost function SpaceOf(t: Pagetable?, sz: nat): Space
    reads t
  {
    if t == null then None else Space(t.nodes, Up(sz))
  }

  /** What changes memory: process i is made, grows or shrinks by n bytes, forks
      to j, exits, or has bytes copied out to it. */
  datatype Call =
    | New(i: nat) | Sbrk(i: nat, n: int) | ForkTo(i: nat, j: nat) | ExitOf(i: nat)
    | CopyTo(i: nat, va: nat, src: seq<int>)

  /** p->pagetable and p->sz of the processes, over the memory they share. */
  class Processes {
    const mem: Memory
    var tables: seq<Pagetable?>
    var sizes: seq<nat>
    /** The pages that the kernel keeps for itself. */
    ghost var kept: map<nat, Page>

    ghost function Spaces(): (r: seq<Space>)
      requires |tables| == |sizes|
      reads this, tables
      ensures |r| == |tables| && forall i :: 0 <= i < |tables| ==> r[i] == SpaceOf(tables[i], sizes[i])
    {
      seq(|tables|, i requires 0 <= i < |tables| == |sizes| reads this, tables => SpaceOf(tables[i], sizes[i]))
    }

    /** The pages of process i. */
    ghost function PagesOf(i: nat): set<nat>
      requires i < |tables| == |sizes|
      reads this, mem, tables
    {
      Used(mem.page, SpaceOf(tables[i], sizes[i]))
    }

    /** Free list, tables, frames and the kernel's own pages are all pages that
        there are, each of them one of these. */
    ghost predicate Inv()
      reads this, mem, tables
    {
      && mem.Valid() && |tables| == |sizes|
      && (forall i :: 0 <= i < |tables| && tables[i] != null ==>
            tables[i].mem == mem && ROOT in tables[i].nodes && tables[i].root == tables[i].nodes[ROOT])
      && (forall i, j :: 0 <= i < j < |tables| && tables[i] != null ==> tables[i] != tables[j])
      && Partition(mem.page, Elements(mem.free), Spaces(), kept)
    }

    /** After kinit: all pages are free but those that the kernel keeps. */
    constructor (mem: Memory, nproc: nat)
      requires mem.Valid()
      ensures Inv() && this.mem == mem && |tables| == nproc
      ensures forall i :: 0 <= i < nproc ==> tables[i] == null && sizes[i] == 0
    {
      this.mem := mem;
      tables := seq(nproc, _ => null);
      sizes := seq(nproc, _ => 0);
      kept := map p | p in mem.page && p !in mem.free :: mem.page[p];
    }

    /** Nothing but slot i has changed. */
    twostate predicate Only(i: nat)
      reads this
    {
      && |tables| == |old(tables)| && |sizes| == |old(sizes)| && kept == old(kept)
      && forall j :: 0 <= j < |tables| && j != i ==>
           tables[j] == old(tables)[j] && (j < |sizes| ==> sizes[j] == old(sizes)[j])
    }

    lemma SpacesOk(i: nat)
      requires Inv() && i < |tables|
      ensures SpaceOk(mem.page, Elements(mem.free), Spaces()[i])
    {
    }

    /** A step on process i alone. */
    lemma Kept(i: nat, page0: map<nat, Page>, free0: set<nat>, spaces0: seq<Space>)
      requires mem.Valid() && |tables| == |sizes| == |spaces0| && i < |tables|
      requires forall j :: 0 <= j < |tables| && tables[j] != null ==>
                 tables[j].mem == mem && ROOT in tables[j].nodes && tables[j].root == tables[j].nodes[ROOT]
      requires forall j, k :: 0 <= j < k < |tables| && tables[j] != null ==> tables[j] != tables[k]
      requires forall j :: 0 <= j < |tables| && j != i ==> spaces0[j] == SpaceOf(tables[j], sizes[j])
      requires Partition(page0, free0, spaces0, kept)
      requires Changed(page0, free0, spaces0[i], mem.page, Elements(mem.free), SpaceOf(tables[i], sizes[i]))
      ensures Inv() && Elements(mem.free) + PagesOf(i) == free0 + Used(page0, spaces0[i])
    {
      hide Partition;
      assert Elements(mem.free) + PagesOf(i) == free0 + Used(page0, spaces0[i]);
      hide Changed, Used;
      PartitionKept(page0, free0, spaces0, kept, mem.page, Elements(mem.free), i, SpaceOf(tables[i], sizes[i]));
      assert Spaces() == spaces0[i := SpaceOf(tables[i], sizes[i])];
    }

    /** growproc: memory up to sz + n, which wraps below 0. */
    method GrowProc(i: nat, n: int) returns (ok: bool)
      requires Inv() && i < |tables| && tables[i] != null
      requires -0x8000_0000 <= n < 0x8000_0000 && (n > 0 ==> Up(sizes[i] + n) <= MAXVPN)
      modifies this`sizes, mem, tables[i]
      ensures Inv() && Only(i) && tables == old(tables)
      ensures sizes[i] == if ok && old(sizes[i]) + n >= 0 then old(sizes[i]) + n else old(sizes[i])
      ensures ok <==> n <= 0 || old(var t := tables[i];
                        Enough(t.Pool(), t.Tables(), Up(sizes[i]), Up(sizes[i] + n), Up(sizes[i] + n) - Up(sizes[i])))
    {
      hide Processes.Inv, Pagetable.Pool, Pagetable.Tables, Enough, Up;
      SizeBound(i);
      ok := true;
      if n > 0 {
        ok := Enlarge(i, sizes[i] + n);
      } else if n < 0 {
        Reduce(i, if sizes[i] + n >= 0 then sizes[i] + n else sizes[i] + n + UINT64_LIMIT);
      }
    }

    method Enlarge(i: nat, newsz: nat) returns (ok: bool)
      requires Inv() && i < |tables| && tables[i] != null && sizes[i] <= newsz && Up(newsz) <= MAXVPN
      modifies this`sizes, mem, tables[i]
      ensures Inv() && Only(i) && tables == old(tables) && sizes[i] == if ok then newsz else old(sizes[i])
      ensures ok <==> old(var t := tables[i];
                          Enough(t.Pool(), t.Tables(), Up(sizes[i]), Up(newsz), Up(newsz) - Up(sizes[i])))
    {
      hide Pagetable.Valid, Partition, SpaceOk, Changed, Enough, Pagetable.Tables, Pagetable.Pool, Elements, Up;
      var t, sz := tables[i], sizes[i];
      ghost var page0, free0, spaces0 := mem.page, Elements(mem.free), Spaces();
      SpacesOk(i);
      var r;
      r, ok := GrowTable(t, sz, newsz);
      if ok {
        sizes := sizes[i := r];
      }
      Kept(i, page0, free0, spaces0);
    }

    method Reduce(i: nat, newsz: nat)
      requires Inv() && i < |tables| && tables[i] != null
      modifies this`sizes, mem, tables[i]
      ensures Inv() && Only(i) && tables == old(tables)
      ensures sizes[i] == if newsz < old(sizes[i]) then newsz else old(sizes[i])
    {
      hide Pagetable.Valid, Partition, SpaceOk, Changed, Elements, Up;
      var t, sz := tables[i], sizes[i];
      ghost var page0, free0, spaces0 := mem.page, Elements(mem.free), Spaces();
      SpacesOk(i);
      sz := ShrinkTable(t, sz, newsz);
      sizes := sizes[i := sz];
      Kept(i, page0, free0, spaces0);
    }

    lemma SizeBound(i: nat)
      requires Inv() && i < |tables| && tables[i] != null
      ensures i < |sizes| && sizes[i] <= MAXVPN * PGSIZE
    {
      SpacesOk(i);
      hide Partition;
    }

    /** The page table that allocproc makes; there is none without a page. */
    method Create(i: nat) returns (ok: bool)
      requires Inv() && i < |tables| && tables[i] == null
      modifies this`tables, this`sizes, mem
      ensures Inv() && Only(i) && (ok <==> old(mem.free) != []) && (ok <==> tables[i] != null)
      ensures ok ==> fresh(tables[i]) && sizes[i] == 0
      ensures Elements(mem.free) + (if ok then PagesOf(i) else {}) == old(Elements(mem.free))
    {
      hide Pagetable.Valid, Partition, SpaceOk, Changed, Elements, Up;
      ghost var page0, free0, spaces0 := mem.page, Elements(mem.free), Spaces();
      UpOfPages(0);
      var t := CreateTable(mem);
      ok := t != null;
      tables := tables[i := t];
      sizes := sizes[i := 0];
      Kept(i, page0, free0, spaces0);
    }

    /** freeproc: the page table and all that it maps. */
    method Exit(i: nat)
      requires Inv() && i < |tables| && tables[i] != null
      modifies this`tables, this`sizes, mem, tables[i]
      ensures Inv() && Only(i) && tables[i] == null && sizes[i] == 0
      ensures Elements(mem.free) == old(Elements(mem.free) + PagesOf(i))
    {
      hide Pagetable.Valid, Partition, SpaceOk, Elements, Up;
      ghost var page0, free0, spaces0 := mem.page, Elements(mem.free), Spaces();
      SpacesOk(i);
      FreeTable(tables[i], sizes[i]);
      tables := tables[i := null];
      sizes := sizes[i := 0];
      hide Changed;
      Kept(i, page0, free0, spaces0);
    }

    /** copyout to process i. */
    method Write(i: nat, va: nat, src: seq<int>) returns (ok: bool)
      requires Inv() && i < |tables| && tables[i] != null
      modifies mem, tables[i]
      ensures Inv() && Only(i) && tables == old(tables) && sizes == old(sizes)
      ensures ok <==> UserMemory.AllReachable(old(Leaves(mem.page, tables[i].nodes)), va, |src|)
    {
      hide Pagetable.Valid, Partition, SpaceOk, Changed, Elements, Up, UserMemory.AllReachable, Leaves, Bytes;
      hide UserMemory.Holds;
      ghost var page0, free0, spaces0 := mem.page, Elements(mem.free), Spaces();
      SpacesOk(i);
      ok := WriteTable(tables[i], sizes[i], va, src);
      Kept(i, page0, free0, spaces0);
    }

    method Copy(i: nat, j: nat) returns (ok: bool)
      requires Inv() && i < |tables| && j < |tables| && tables[i] != null && tables[j] != null && i != j && sizes[j] == 0
      modifies this`sizes, mem, tables[i], tables[j]
      ensures Inv() && Only(j) && tables == old(tables) && sizes[j] == if ok then sizes[i] else 0
      ensures ok ==> SameMemory(tables[j], tables[i], Up(sizes[i]))
      ensures Elements(mem.free) + PagesOf(j) == old(Elements(mem.free) + PagesOf(j))
    {
      hide Pagetable.Valid, Partition, SpaceOk, Elements, Up, SameMemory, Used;
      ghost var page0, free0, spaces0 := mem.page, Elements(mem.free), Spaces();
      SpacesOk(i);
      SpacesOk(j);
      SpacesApart(i, j);
      UpOfPages(0);
      ok := CopyTable(tables[j], tables[i], sizes[i]);
      if ok {
        sizes := sizes[j := sizes[i]];
      }
      hide Changed;
      Kept(j, page0, free0, spaces0);
    }

    lemma SpacesApart(i: nat, j: nat)
      requires Inv() && i < |tables| && j < |tables| && i != j
      ensures Used(mem.page, Spaces()[i]) !! Used(mem.page, Spaces()[j])
    {
      hide SpaceOk, Used;
    }

    /** fork's memory: process j gets a copy of i's, or nothing, and then every
        page is free again that was. */
    method Fork(i: nat, j: nat) returns (ok: bool)
      requires Inv() && i < |tables| && j < |tables| && tables[i] != null && tables[j] == null
      modifies this`tables, this`sizes, mem, tables[i]
      ensures Inv() && Only(j) && (ok <==> tables[j] != null)
      ensures if ok then fresh(tables[j]) && sizes[j] == sizes[i] && SameMemory(tables[j], tables[i], Up(sizes[i]))
              else Elements(mem.free) == old(Elements(mem.free))
    {
      hide Processes.Inv, Processes.PagesOf, Up, SameMemory;
      ok := Create(j);
      if ok {
        ok := Copy(i, j);
        if !ok {
          Exit(j);
        }
      }
    }

    /** Any run of these calls, each by any process: afterwards the free list,
        the kernel's pages and the processes' pages are what Inv says. */
    method Perform(calls: seq<Call>)
      requires Inv()
      modifies this, mem, tables
      ensures Inv() && kept == old(kept) && |tables| == |old(tables)| && mem.page.Keys == old(mem.page.Keys)
    {
      hide Processes.Inv, Up;
      var k := 0;
      SamePages();
      while k < |calls|
        invariant 0 <= k <= |calls| && Inv() && kept == old(kept) && |tables| == |old(tables)|
        invariant forall j :: 0 <= j < |tables| && tables[j] != null ==> tables[j] in old(tables) || fresh(tables[j])
      {
        One(calls[k]);
        k := k + 1;
      }
      SamePages();
    }

    lemma SamePages()
      requires Inv()
      ensures forall p: nat :: p in mem.page <==> mem.lo <= p < mem.hi
    {
    }

    /** One call, or nothing when there is no such process or no such slot. */
    method One(call: Call)
      requires Inv()
      modifies this, mem, tables
      ensures Inv() && kept == old(kept) && |tables| == |old(tables)|
      ensures forall j :: 0 <= j < |tables| && tables[j] != null ==> tables[j] in old(tables) || fresh(tables[j])
    {
      var i := call.i;
      SizesFit();
      hide Processes.Inv, Processes.PagesOf, Pagetable.Pool, Pagetable.Tables, Enough, SameMemory, Elements, Leaves;
      if i >= |tables| {
        return;
      }
      var ok;
      match call
      case New(_) =>
        if tables[i] == null {
          ok := Create(i);
        }
      case Sbrk(_, n) =>
        if tables[i] != null && -0x8000_0000 <= n < 0x8000_0000 && (n <= 0 || Up(sizes[i] + n) <= MAXVPN) {
          ok := GrowProc(i, n);
        }
      case ForkTo(_, j) =>
        if j < |tables| && tables[i] != null && tables[j] == null {
          ok := Fork(i, j);
        }
      case ExitOf(_) =>
        if tables[i] != null {
          Exit(i);
        }
      case CopyTo(_, va, src) =>
        if tables[i] != null {
          ok := Write(i, va, src);
        }
    }

    lemma SizesFit()
      requires Inv()
      ensures |tables| == |sizes|
    {
    }

    /** What Inv says of each page. */
    lemma OneUse(p: nat)
      requires Inv() && mem.lo <= p < mem.hi
      ensures if p in mem.free || p in kept then
                (p in mem.free <==> p !in kept) && forall i :: 0 <= i < |tables| ==> p !in PagesOf(i)
              else
                exists i :: 0 <= i < |tables| && p in PagesOf(i)
                            && forall j :: 0 <= j < |tables| && j != i ==> p !in PagesOf(j)
    {
      hide Processes.Inv, Processes.PagesOf;
      PagesApart();
      Covered(p);
      assert p in mem.free <==> p in Elements(mem.free);
      hide Elements;
    }

    lemma Covered(p: nat)
      requires Inv() && mem.lo <= p < mem.hi
      ensures p in mem.free || p in kept || exists i :: 0 <= i < |tables| && p in PagesOf(i)
      ensures p in mem.free ==> p !in kept
    {
      PagesApart();
      SamePages();
      hide SpaceOk, Used, Processes.PagesOf;
      assert p in mem.free <==> p in Elements(mem.free);
    }

    lemma PagesApart()
      requires Inv()
      ensures forall i :: 0 <= i < |tables| ==>
                PagesOf(i) == Used(mem.page, Spaces()[i]) && PagesOf(i) !! Elements(mem.free) && PagesOf(i) !! kept.Keys
      ensures forall i, j :: 0 <= i < j < |tables| ==> PagesOf(i) !! PagesOf(j)
    {
      forall i | 0 <= i < |tables|
        ensures PagesOf(i) == Used(mem.page, Spaces()[i]) && PagesOf(i) !! Elements(mem.free)
      {
        SpacesOk(i);
        Apart(mem.page, Elements(mem.free), Spaces()[i]);
      }
      hide SpaceOk, Used;
    }
  }
}
