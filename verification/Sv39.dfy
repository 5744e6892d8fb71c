/** What the hardware does with the page tables that the kernel makes: address
    translation as in the RISC-V privileged architecture, section 4.4. */
module Sv39 {
  import opened PageMemory
  import opened PageTree
  import opened PageTable

  const PAGE: nat := 4096
  const VPN_VALUES: nat := 512

  datatype Translation = Fault | To(pa: nat, flags: bv10)

  /** The bytes that an entry at this level stands for. */
  function Span(level: nat): (r: nat)
    ensures r > 0
  {
    if level == 0 then PAGE else VPN_VALUES * Span(level - 1)
  }

  /** Bits 12 to 20, 21 to 29 or 30 to 38 of the address. */
  function Vpn(level: nat, va: nat): (r: nat)
    ensures r < VPN_VALUES
  {
    va / Span(level) % VPN_VALUES
  }

  /** The walk from a table on: an entry without V, or with W and no R, is a
      fault, one with R or X is a leaf at its level, and any other points to
      the next table. */
  function Translate(page: map<nat, Page>, table: nat, level: nat, va: nat): Translation
    decreases level
  {
    if table !in page || !page[table].Table? || |page[table].ptes| != VPN_VALUES then Fault
    else
      var e := page[table].ptes[Vpn(level, va)];
      if e.flags & V == 0 || (e.flags & R == 0 && e.flags & W != 0) then Fault
      else if e.flags & R != 0 || e.flags & X != 0 then
        if e.ppn * PAGE % Span(level) != 0 then Fault
        else To(e.ppn * PAGE + va % Span(level), e.flags)
      else if level == 0 then Fault
      else Translate(page, e.ppn, level - 1, va)
  }

  /** What the flat map says about the address. */
  function Means(e: Pte, va: nat): Translation {
    if e.flags & V == 0 || (e.flags & R == 0 && e.flags & W != 0) || (e.flags & R == 0 && e.flags & X == 0) then Fault
    else To(e.ppn * PGSIZE + va % PGSIZE, e.flags)
  }

  lemma Spans()
    ensures Span(0) == 4096 && Span(1) == 4096 * 512 && Span(2) == 4096 * 512 * 512
  {
  }

  /** PX takes the bits that the hardware takes. */
  lemma SameIndex(level: nat, va: nat)
    requires level <= 2
    ensures Vpn(level, va) == Px(level, va / PGSIZE)
  {
    Spans();
    assert va / 4096 / 512 == va / 0x20_0000;
    assert va / 0x20_0000 / 512 == va / 0x4000_0000;
  }

  /** From any table of the tree on the address's path. */
  lemma {:induction false} WalkFrom(page: map<nat, Page>, nodes: map<Node, nat>, level: nat, va: nat)
    requires Tree(page, nodes) && level <= 2 && va / PGSIZE < MAXVPN && OnPath(level, va / PGSIZE) in nodes
    ensures Translate(page, nodes[OnPath(level, va / PGSIZE)], level, va) == Means(LeafOf(page, nodes, va / PGSIZE), va)
  {
    var vpn := va / PGSIZE;
    var n := OnPath(level, vpn);
    assert NodeOk(page, nodes, n);
    SameIndex(level, va);
    TablesAbove(page, nodes, vpn);
    if level > 0 {
      PathStep(level, vpn);
      var c := OnPath(level - 1, vpn);
      assert EntryOk(nodes, n, Px(level, vpn), page[nodes[n]].ptes[Px(level, vpn)]);
      assert V & V != 0 && V & R == 0 && V & W == 0 && V & X == 0;
      if c in nodes {
        WalkFrom(page, nodes, level - 1, va);
      } else {
        assert NO_PTE.flags & V == 0;
      }
    } else {
      Spans();
    }
  }

  /** A leaf table has the tables above it. */
  lemma {:induction false} TablesAbove(page: map<nat, Page>, nodes: map<Node, nat>, vpn: nat)
    requires Tree(page, nodes)
    ensures OnPath(0, vpn) in nodes ==> OnPath(1, vpn) in nodes
  {
    if OnPath(0, vpn) in nodes {
      assert NodeOk(page, nodes, OnPath(0, vpn));
    }
  }

  /** The hardware finds exactly what the flat map has: the frame of the page
      with its flags, or a fault where no page is mapped. */
  lemma HardwareAgrees(t: Pagetable, va: nat)
    requires t.Valid() && va / PGSIZE < MAXVPN
    ensures Translate(t.mem.page, t.root, 2, va) == Means(t.Leaf(va / PGSIZE), va)
  {
    PathStep(2, va / PGSIZE);
    WalkFrom(t.mem.page, t.nodes, 2, va);
  }
}
