/** The free list of lab2/user/umalloc.c as values, in units of one header:
    blocks in address order, the first of them the empty block at `base`. */
module FreeList {

  /** Where free memory starts and how many units it has. */
  datatype Blk = Blk(at: nat, n: nat)
  {
    function End(): nat {
      at + n
    }
  }

  const NULL: nat := 0

  /** Below all memory that sbrk hands out. */
  const BASE: nat := 1

  /** In address order, disjoint, and no two adjacent. */
  ghost predicate Canonical(blocks: seq<Blk>) {
    && blocks != [] && blocks[0] == Blk(BASE, 0)
    && (forall i :: 0 < i < |blocks| ==> blocks[i].n > 0)
    && (forall i, j :: 0 <= i < j < |blocks| ==> blocks[i].End() < blocks[j].at)
  }

  ghost function Range(at: nat, n: nat): (r: set<nat>)
    ensures forall u: nat :: u in r <==> at <= u < at + n
  {
    if n == 0 then {} else Range(at, n - 1) + {at + n - 1}
  }

  ghost function Units(blocks: seq<Blk>): set<nat> {
    if blocks == [] then {}
    else Units(blocks[..|blocks| - 1]) + Range(blocks[|blocks| - 1].at, blocks[|blocks| - 1].n)
  }

  ghost predicate Holds(blocks: seq<Blk>, u: nat) {
    exists i :: 0 <= i < |blocks| && blocks[i].at <= u < blocks[i].End()
  }

  lemma {:induction false} UnitsAre(blocks: seq<Blk>)
    ensures forall u :: u in Units(blocks) <==> Holds(blocks, u)
  {
    if blocks != [] {
      var last := |blocks| - 1;
      UnitsAre(blocks[..last]);
      forall u: nat ensures u in Units(blocks) <==> Holds(blocks, u) {
        if Holds(blocks, u) {
          var i :| 0 <= i < |blocks| && blocks[i].at <= u < blocks[i].End();
          assert i < last ==> blocks[..last][i] == blocks[i];
        }
        if Holds(blocks[..last], u) {
          var i :| 0 <= i < last && blocks[..last][i].at <= u < blocks[..last][i].End();
          assert blocks[i] == blocks[..last][i];
        }
        if u in Range(blocks[last].at, blocks[last].n) {
          assert blocks[last].at <= u < blocks[last].End();
        }
      }
    }
  }

  lemma {:induction false} UnitsConcat(a: seq<Blk>, b: seq<Blk>)
    ensures Units(a + b) == Units(a) + Units(b)
  {
    if b == [] {
      assert a + b == a;
    } else {
      assert (a + b)[..|a + b| - 1] == a + b[..|b| - 1];
      UnitsConcat(a, b[..|b| - 1]);
    }
  }

  lemma UnitsSplice(a: seq<Blk>, m: Blk, c: seq<Blk>)
    ensures Units(a + [m] + c) == Units(a) + Range(m.at, m.n) + Units(c)
  {
    UnitsConcat(a + [m], c);
    UnitsConcat(a, [m]);
    assert [m][..0] == [];
  }

  /** The free units determine the list. */
  lemma {:induction false} OneCanonicalList(a: seq<Blk>, b: seq<Blk>)
    requires Canonical(a) && Canonical(b) && Units(a) == Units(b)
    ensures a == b
  {
    hide Units;
    UnitsAre(a);
    UnitsAre(b);
    if |a| == 1 {
      NoUnits(a, b);
    } else if |b| == 1 {
      NoUnits(b, a);
    } else {
      SameLast(a, b);
      SameLast(b, a);
      LastApart(a);
      LastApart(b);
      OneCanonicalList(a[..|a| - 1], b[..|b| - 1]);
    }
  }

  lemma NoUnits(a: seq<Blk>, b: seq<Blk>)
    requires Canonical(a) && Canonical(b) && |a| == 1 && forall u :: Holds(a, u) <==> Holds(b, u)
    ensures a == b
  {
    assert |b| > 1 ==> Holds(b, b[1].at);
  }

  /** The last block of a is not higher, and does not start higher, than b's. */
  lemma SameLast(a: seq<Blk>, b: seq<Blk>)
    requires Canonical(a) && Canonical(b) && |a| > 1 && |b| > 1
    requires forall u :: Holds(a, u) <==> Holds(b, u)
    ensures a[|a| - 1].End() <= b[|b| - 1].End()
    ensures a[|a| - 1].End() == b[|b| - 1].End() ==> b[|b| - 1].at <= a[|a| - 1].at
  {
    var x, y := a[|a| - 1], b[|b| - 1];
    assert Holds(a, x.End() - 1);
    assert Holds(b, x.End() - 1);
    assert x.End() == y.End() && x.at < y.at ==> Holds(a, y.at - 1) && !Holds(b, y.at - 1);
  }

  lemma LastApart(a: seq<Blk>)
    requires Canonical(a) && |a| > 1
    ensures var x := a[|a| - 1];
            && a == a[..|a| - 1] + [x] && Canonical(a[..|a| - 1])
            && Units(a[..|a| - 1]) == Units(a) - Range(x.at, x.n)
  {
    hide Units, Range, Canonical;
    var last := |a| - 1;
    Around(a, last);
    Apart(a, last);
    CanonicalPrefix(a);
    assert a[..last + 1] == a;
  }

  lemma CanonicalPrefix(a: seq<Blk>)
    requires Canonical(a) && |a| > 1
    ensures Canonical(a[..|a| - 1])
  {
  }

  predicate JoinsUp(blocks: seq<Blk>, i: nat, b: Blk) {
    i + 1 < |blocks| && b.End() == blocks[i + 1].at
  }

  predicate JoinsDown(blocks: seq<Blk>, i: nat, b: Blk)
    requires i < |blocks|
  {
    blocks[i].End() == b.at
  }

  function Joined(blocks: seq<Blk>, i: nat, b: Blk): Blk
    requires i < |blocks|
  {
    var n := b.n + if JoinsUp(blocks, i, b) then blocks[i + 1].n else 0;
    if JoinsDown(blocks, i, b) then Blk(blocks[i].at, blocks[i].n + n) else Blk(b.at, n)
  }

  /** free: the block goes after block i, and joins the neighbours it touches. */
  function Insert(blocks: seq<Blk>, i: nat, b: Blk): seq<Blk>
    requires i < |blocks|
  {
    var k := if JoinsDown(blocks, i, b) then i else i + 1;
    var l := if JoinsUp(blocks, i, b) then i + 2 else i + 1;
    blocks[..k] + [Joined(blocks, i, b)] + blocks[l..]
  }

  /** malloc: the last n units of block i are taken. */
  function Carve(blocks: seq<Blk>, i: nat, n: nat): seq<Blk>
    requires i < |blocks| && n <= blocks[i].n
  {
    if blocks[i].n == n then blocks[..i] + blocks[i + 1..] else blocks[i := Blk(blocks[i].at, blocks[i].n - n)]
  }

  /** Where a block that is not free belongs: after the last lower block. */
  ghost predicate Follows(blocks: seq<Blk>, i: nat, at: nat) {
    i < |blocks| && blocks[i].at < at && (i + 1 < |blocks| ==> at < blocks[i + 1].at)
  }

  ghost predicate Outside(blocks: seq<Blk>, b: Blk) {
    b.n > 0 && b.at > BASE && forall u :: b.at <= u < b.End() ==> u !in Units(blocks)
  }

  /** A block outside the list lies between the blocks around it. */
  lemma Between(blocks: seq<Blk>, i: nat, b: Blk)
    requires Canonical(blocks) && Outside(blocks, b) && Follows(blocks, i, b.at)
    ensures blocks[i].End() <= b.at && (i + 1 < |blocks| ==> b.End() <= blocks[i + 1].at)
  {
    UnitsAre(blocks);
    assert b.at !in Units(blocks) && !Holds(blocks, b.at);
    if i + 1 < |blocks| && b.End() > blocks[i + 1].at {
      assert Holds(blocks, blocks[i + 1].at);
    }
  }

  lemma Splice(a: seq<Blk>, m: Blk, c: seq<Blk>)
    requires a == [] ==> m == Blk(BASE, 0)
    requires a != [] ==> Canonical(a) && m.n > 0
    requires forall i :: 0 <= i < |a| ==> a[i].End() < m.at && forall j :: 0 <= j < |c| ==> a[i].End() < c[j].at
    requires forall j :: 0 <= j < |c| ==> m.End() < c[j].at && c[j].n > 0
    requires forall i, j :: 0 <= i < j < |c| ==> c[i].End() < c[j].at
    ensures Canonical(a + [m] + c)
  {
  }

  lemma RangeSplit(at: nat, n: nat, m: nat)
    ensures Range(at, n + m) == Range(at, n) + Range(at + n, m)
  {
  }

  lemma InsertIsCanonical(blocks: seq<Blk>, i: nat, b: Blk)
    requires Canonical(blocks) && Outside(blocks, b) && Follows(blocks, i, b.at)
    ensures Canonical(Insert(blocks, i, b))
  {
    hide Units, Outside;
    Between(blocks, i, b);
    OutsideSize(blocks, b);
    var m := Joined(blocks, i, b);
    var k := if JoinsDown(blocks, i, b) then i else i + 1;
    var l := if JoinsUp(blocks, i, b) then i + 2 else i + 1;
    assert k > 0 && blocks[k - 1].End() < m.at;
    assert l < |blocks| ==> m.End() < blocks[l].at;
    JoinAround(blocks, k, m, l);
  }

  /** Replacing blocks k to l by one that touches no other. */
  lemma JoinAround(blocks: seq<Blk>, k: nat, m: Blk, l: nat)
    requires Canonical(blocks) && 0 < k <= l <= |blocks| && m.n > 0
    requires blocks[k - 1].End() < m.at && (l < |blocks| ==> m.End() < blocks[l].at)
    ensures Canonical(blocks[..k] + [m] + blocks[l..])
  {
    AfterSkip(blocks, l, m);
    var a, c := blocks[..k], blocks[l..];
    assert Canonical(a);
    forall i | 0 <= i < k ensures a[i].End() < m.at {
      assert i < k - 1 ==> blocks[i].End() < blocks[k - 1].at;
    }
    Splice(a, m, c);
  }

  lemma OutsideSize(blocks: seq<Blk>, b: Blk)
    requires Outside(blocks, b)
    ensures b.n > 0 && b.at > BASE
  {
  }

  lemma AfterSkip(blocks: seq<Blk>, k: nat, m: Blk)
    requires Canonical(blocks) && 0 < k <= |blocks| && (k < |blocks| ==> m.End() < blocks[k].at)
    ensures forall j :: 0 <= j < |blocks[k..]| ==> m.End() < blocks[k..][j].at && blocks[k..][j].n > 0
    ensures forall i, j :: 0 <= i < j < |blocks[k..]| ==> blocks[k..][i].End() < blocks[k..][j].at
  {
  }

  lemma OneUnits(b: Blk)
    ensures Units([b]) == Range(b.at, b.n)
  {
    assert [b][..0] == [];
  }

  /** The list taken apart around block i. */
  lemma Around(blocks: seq<Blk>, i: nat)
    requires i < |blocks|
    ensures Units(blocks) == Units(blocks[..i + 1]) + Units(blocks[i + 1..])
    ensures Units(blocks[..i + 1]) == Units(blocks[..i]) + Range(blocks[i].at, blocks[i].n)
    ensures Units(blocks[i..]) == Range(blocks[i].at, blocks[i].n) + Units(blocks[i + 1..])
  {
    hide Units, Range;
    var x := [blocks[i]];
    OneUnits(blocks[i]);
    UnitsConcat(blocks[..i + 1], blocks[i + 1..]);
    UnitsConcat(blocks[..i], x);
    UnitsConcat(x, blocks[i + 1..]);
    assert blocks[..i + 1] + blocks[i + 1..] == blocks;
    assert blocks[..i] + x == blocks[..i + 1];
    assert x + blocks[i + 1..] == blocks[i..];
  }

  /** The block and the one above it, if they join. */
  lemma UnitsAbove(blocks: seq<Blk>, i: nat, b: Blk)
    requires i < |blocks|
    ensures var up := JoinsUp(blocks, i, b);
            Units(blocks[i + 1..]) + Range(b.at, b.n)
            == Range(b.at, b.n + if up then blocks[i + 1].n else 0) + Units(blocks[if up then i + 2 else i + 1..])
  {
    hide Units, Range;
    if JoinsUp(blocks, i, b) {
      Around(blocks, i + 1);
      RangeSplit(b.at, b.n, blocks[i + 1].n);
    }
  }

  /** The block below and the n units on it, if they join. */
  lemma UnitsBelow(blocks: seq<Blk>, i: nat, b: Blk, n: nat)
    requires i < |blocks|
    ensures Units(blocks[..i + 1]) + Range(b.at, n)
            == if JoinsDown(blocks, i, b) then Units(blocks[..i]) + Range(blocks[i].at, blocks[i].n + n)
               else Units(blocks[..i + 1]) + Range(b.at, n)
  {
    hide Units, Range;
    if JoinsDown(blocks, i, b) {
      Around(blocks, i);
      RangeSplit(blocks[i].at, blocks[i].n, n);
    }
  }

  lemma Moved(low: set<nat>, high: set<nat>, given: set<nat>, joined: set<nat>, above: set<nat>, below: set<nat>)
    requires high + given == joined + above && low + joined == below
    ensures below + above == low + high + given
  {
  }

  lemma InsertUnits(blocks: seq<Blk>, i: nat, b: Blk)
    requires i < |blocks|
    ensures Units(Insert(blocks, i, b)) == Units(blocks) + Range(b.at, b.n)
  {
    hide Units, Range;
    var m := Joined(blocks, i, b);
    var k := if JoinsDown(blocks, i, b) then i else i + 1;
    var l := if JoinsUp(blocks, i, b) then i + 2 else i + 1;
    var n := b.n + if JoinsUp(blocks, i, b) then blocks[i + 1].n else 0;
    Around(blocks, i);
    UnitsAbove(blocks, i, b);
    UnitsBelow(blocks, i, b, n);
    UnitsSplice(blocks[..k], m, blocks[l..]);
    hide Joined, JoinsUp, JoinsDown, Insert;
    Moved(Units(blocks[..i + 1]), Units(blocks[i + 1..]), Range(b.at, b.n), Range(b.at, n), Units(blocks[l..]),
          Units(blocks[..k]) + Range(m.at, m.n));
  }

  lemma CarveIsCanonical(blocks: seq<Blk>, i: nat, n: nat)
    requires Canonical(blocks) && 0 < i < |blocks| && 0 < n <= blocks[i].n
    ensures Canonical(Carve(blocks, i, n))
  {
    hide Units;
  }

  lemma Apart(blocks: seq<Blk>, i: nat)
    requires Canonical(blocks) && i < |blocks|
    ensures forall u :: u in Units(blocks[..i]) ==> u !in Range(blocks[i].at, blocks[i].n)
    ensures forall u :: u in Units(blocks[i + 1..]) ==> u !in Range(blocks[i].at, blocks[i].n)
  {
    hide Units;
    UnitsAre(blocks[..i]);
    UnitsAre(blocks[i + 1..]);
  }

  lemma CarveUnits(blocks: seq<Blk>, i: nat, n: nat)
    requires Canonical(blocks) && 0 < i < |blocks| && 0 < n <= blocks[i].n
    ensures var at := blocks[i].End() - n;
            Units(Carve(blocks, i, n)) == Units(blocks) - Range(at, n) && Range(at, n) <= Units(blocks)
  {
    hide Units, Canonical;
    var m := blocks[i].n - n;
    Around(blocks, i);
    Apart(blocks, i);
    if m == 0 {
      UnitsConcat(blocks[..i], blocks[i + 1..]);
    } else {
      UnitsSplice(blocks[..i], Blk(blocks[i].at, m), blocks[i + 1..]);
      assert Carve(blocks, i, n) == blocks[..i] + [Blk(blocks[i].at, m)] + blocks[i + 1..];
    }
  }
}
