/** lab2/kernel/kalloc.c: physical pages, by page number, with the free ones
    linked through their first words. */
module PageMemory {

  const PGSIZE: nat := 4096
  const ENTRIES: nat := 512

  /** A page-table entry: the frame in bits 10 and up, the flags below. */
  datatype Pte = Pte(ppn: nat, flags: bv10)

  const NO_PTE := Pte(0, 0)

  /** What a page is used for; a free page keeps a pointer to the next one. */
  datatype Page = Free(next: nat) | Table(ptes: seq<Pte>) | Frame(bytes: seq<int>)

  /** memset(page, value, PGSIZE) */
  function Filled(value: int): Page {
    Frame(seq(PGSIZE, _ => value))
  }

  ghost function Elements(s: seq<nat>): set<nat> {
    set p | p in s
  }

  ghost predicate Distinct(s: seq<nat>) {
    forall i, j :: 0 <= i < j < |s| ==> s[i] != s[j]
  }

  ghost function After(free: seq<nat>, i: nat): nat {
    if i + 1 < |free| then free[i + 1] else 0
  }

  /** The pages of `free`, linked in this order; page 0 is the null pointer. */
  ghost predicate Chain(page: map<nat, Page>, head: nat, free: seq<nat>) {
    && head == (if free == [] then 0 else free[0])
    && forall i :: 0 <= i < |free| ==> free[i] in page && page[free[i]] == Free(After(free, i))
  }

  lemma TakenFromFree(was: seq<nat>, t: nat, now: seq<nat>)
    requires was == [t] + now && Distinct(was)
    ensures t !in now && Elements(was) == Elements(now) + {t}
  {
    assert was[0] == t;
    forall i | 0 <= i < |now| ensures now[i] != t {
      assert was[i + 1] == now[i];
    }
    forall x: nat ensures x in was <==> x == t || x in now {
    }
  }

  const EMPTY_TABLE := Table(seq(ENTRIES, _ => NO_PTE))

  class Memory {
    /** The pages from `end` up to PHYSTOP. */
    const lo: nat
    const hi: nat
    var page: map<nat, Page>
    var freelist: nat
    ghost var free: seq<nat>

    ghost predicate Valid()
      reads this
    {
      && 0 < lo <= hi
      && (forall p: nat :: p in page <==> lo <= p < hi)
      && Chain(page, freelist, free) && Distinct(free)
    }

    /** kinit: freerange hands every page to kfree, lowest first. */
    constructor (lo: nat, hi: nat, ram: map<nat, Page>)
      requires 0 < lo <= hi && forall p: nat :: p in ram <==> lo <= p < hi
      ensures Valid() && this.lo == lo && this.hi == hi
      ensures |free| == hi - lo && forall i :: 0 <= i < |free| ==> free[i] == hi - 1 - i
    {
      this.lo, this.hi := lo, hi;
      page, freelist, free := ram, 0, [];
      new;
      var p := lo;
      while p + 1 <= hi
        invariant lo <= p <= hi && Valid() && |free| == p - lo
        invariant forall i :: 0 <= i < |free| ==> free[i] == p - 1 - i
      {
        Kfree(p);
        p := p + 1;
      }
    }

    /** A page outside [lo, hi) is the panic; that the page is not free
        already is the caller's business, kfree does not check it. */
    method Kfree(p: nat)
      requires Valid() && lo <= p < hi && p !in free
      modifies this
      ensures Valid() && free == [p] + old(free)
      ensures page == old(page)[p := Free(old(freelist))]
    {
      page := page[p := Free(freelist)];
      freelist := p;
      free := [p] + free;
    }

    /** 0 when there is no page left. */
    method Kalloc() returns (r: nat)
      requires Valid()
      modifies this
      ensures Valid()
      ensures r == 0 <==> old(free) == []
      ensures r == 0 ==> free == [] && page == old(page)
      ensures r != 0 ==> old(free) == [r] + free && page == old(page)[r := Filled(5)]
    {
      r := freelist;
      if r != 0 {
        assert free[0] == r;
        assert forall i :: 0 <= i < |free| - 1 ==> After(free[1..], i) == After(free, i + 1);
        freelist := page[r].next;
        page := page[r := Filled(5)];
        free := free[1..];
      }
    }

    /** kalloc, then memset(page, 0, PGSIZE), for a page table. */
    method KallocTable() returns (r: nat)
      requires Valid()
      modifies this
      ensures Valid()
      ensures r == 0 ==> free == [] && page == old(page) && free == old(free)
      ensures r != 0 ==> r in old(free) && r !in free && Elements(old(free)) == Elements(free) + {r}
      ensures r != 0 ==> |old(free)| == |free| + 1
      ensures forall p :: p in free ==> p in old(free)
      ensures r != 0 ==> r in old(page) && page == old(page)[r := EMPTY_TABLE]
    {
      ghost var was := free;
      r := Kalloc();
      if r != 0 {
        TakenFromFree(was, r, free);
        assert was[0] == r && r in page;
        Store(r, EMPTY_TABLE);
      }
    }

    /** A page that has been handed out is written. */
    method Store(p: nat, contents: Page)
      requires Valid() && lo <= p < hi && p !in free
      modifies this`page
      ensures Valid() && page == old(page)[p := contents]
    {
      page := page[p := contents];
    }
  }
}
