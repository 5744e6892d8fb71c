/** lab2/user/umalloc.c: the circular free list behind malloc and free.
    Addresses count headers of 16 bytes. */
module UserMalloc {
  import opened FreeList

  const HEADER: nat := 16
  const MORECORE: nat := 4096
  const UINT_LIMIT: nat := 0x1_0000_0000
  const INT_LIMIT: nat := 0x8000_0000

  function NUnits(nbytes: nat): nat {
    (nbytes + HEADER - 1) / HEADER + 1
  }

  function AtLeastMoreCore(nu: nat): nat {
    if nu < MORECORE then MORECORE else nu
  }

  /** The argument as sbrk's int parameter sees it. */
  function ToInt(bytes: nat): int {
    var low := bytes % UINT_LIMIT;
    if low < INT_LIMIT then low else low - UINT_LIMIT
  }

  /** The units that sbrk adds when morecore is asked for nu of them. */
  function Granted(nu: nat): nat {
    var n := ToInt(AtLeastMoreCore(nu) * HEADER);
    if n > 0 then n / HEADER else 0
  }

  /** sbrk grants what morecore enters in the new block's header for exactly
      the requests of at most 2^31 - 32 bytes. */
  lemma SbrkGrantsAll(nbytes: nat)
    requires nbytes < UINT_LIMIT
    ensures Granted(NUnits(nbytes)) == AtLeastMoreCore(NUnits(nbytes)) <==> nbytes <= INT_LIMIT - 2 * HEADER
  {
    var bytes := AtLeastMoreCore(NUnits(nbytes)) * HEADER;
    if bytes >= UINT_LIMIT {
      assert bytes == UINT_LIMIT || bytes == UINT_LIMIT + HEADER;
    }
  }

  /** The circular links and sizes in the blocks' headers. */
  ghost predicate Linked(ptr: map<nat, nat>, size: map<nat, nat>, blocks: seq<Blk>) {
    forall i :: 0 <= i < |blocks| ==>
      && blocks[i].at in ptr && blocks[i].at in size && size[blocks[i].at] == blocks[i].n
      && ptr[blocks[i].at] == blocks[if i + 1 < |blocks| then i + 1 else 0].at
  }

  ghost function UsedUnits(used: map<nat, nat>): set<nat> {
    set b, u | b in used && u in Range(b, used[b]) :: u
  }

  /** Allocated blocks: their headers say how big they are, they do not
      overlap, and with the free units they are all the units obtained. */
  ghost predicate Partition(size: map<nat, nat>, blocks: seq<Blk>, used: map<nat, nat>, obtained: set<nat>) {
    && (forall b :: b in used ==> b > BASE && used[b] > 0 && b in size && size[b] == used[b])
    && (forall a, b :: a in used && b in used && a != b ==> Range(a, used[a]) !! Range(b, used[b]))
    && Units(blocks) !! UsedUnits(used) && Units(blocks) + UsedUnits(used) == obtained
  }

  /** Somewhere in the list. */
  ghost predicate InList(blocks: seq<Blk>, p: nat) {
    exists i :: 0 <= i < |blocks| && blocks[i].at == p
  }

  ghost predicate Fits(blocks: seq<Blk>, n: nat) {
    exists i :: 0 <= i < |blocks| && blocks[i].n >= n
  }

  class Heap {
    /** The headers: s.ptr and s.size. */
    var ptr: map<nat, nat>
    var size: map<nat, nat>
    var freep: nat
    /** The end of the process's memory, and the most the kernel gives it. */
    var brk: nat
    const limit: nat
    ghost var blocks: seq<Blk>
    ghost var used: map<nat, nat>
    ghost var obtained: set<nat>

    ghost predicate Valid()
      reads this
    {
      && BASE < brk <= limit < UINT_LIMIT
      && (forall u :: u in obtained ==> BASE < u < brk)
      && (freep == NULL ==> used == map[])
      && Partition(size, blocks, used, obtained)
      && if freep == NULL then blocks == [] else Canonical(blocks) && Linked(ptr, size, blocks) && InList(blocks, freep)
    }

    constructor (brk: nat, limit: nat)
      requires BASE < brk <= limit < UINT_LIMIT
      ensures Valid() && freep == NULL && used == map[] && obtained == {}
    {
      ptr, size, freep := map[], map[], NULL;
      this.brk, this.limit := brk, limit;
      blocks, used, obtained := [], map[], {};
    }

    /** sbrk, in units: the old end of memory, or nothing when the kernel has
        no more.  The rest of the program may have called it in between. */
    method Sbrk(nu: nat) returns (ok: bool, p: nat)
      modifies this`brk
      ensures p == old(brk) && ok == (old(brk) + nu <= limit)
      ensures brk == if ok then old(brk) + nu else old(brk)
    {
      p := brk;
      ok := brk + nu <= limit;
      if ok {
        brk := brk + nu;
      }
    }

    /** Where free links the block: the free block it follows. */
    method Find(bp: nat, ghost t: nat) returns (p: nat)
      requires Canonical(blocks) && Linked(ptr, size, blocks) && InList(blocks, freep)
      requires Follows(blocks, t, bp)
      ensures p == blocks[t].at
    {
      hide Canonical;
      Neighbours(blocks, t, Blk(bp, 1));
      p := freep;
      ghost var i :| 0 <= i < |blocks| && blocks[i].at == p;
      while !(bp > p && bp < ptr[p])
        invariant 0 <= i < |blocks| && p == blocks[i].at
        invariant ptr[p] == if i + 1 < |blocks| then blocks[i + 1].at else blocks[0].at
        decreases if i <= t then t - i else |blocks| - i + t
      {
        if p >= ptr[p] && (bp > p || bp < ptr[p]) {
          assert i == |blocks| - 1 && i == t;
          break;
        }
        p := ptr[p];
        i := if i + 1 < |blocks| then i + 1 else 0;
      }
      assert i == t;
    }

    /** free: the block's units are free again, and the list stays ordered and
        fully coalesced. */
    method Free(ap: nat)
      requires Valid() && ap > 0 && ap - 1 in used
      modifies this`ptr, this`size, this`freep, this`blocks, this`used
      ensures Valid() && freep != NULL && used == old(used) - {ap - 1} && obtained == old(obtained)
      ensures Units(blocks) == old(Units(blocks)) + Range(ap - 1, old(used)[ap - 1])
    {
      hide Units, UsedUnits, Range, Canonical, Linked, Partition, Insert;
      var bp := ap - 1;
      UsedBlock(bp);
      ghost var b := Blk(bp, used[bp]);
      ghost var t := PlaceOf(blocks, b);
      Between(blocks, t, b);
      InsertIsCanonical(blocks, t, b);
      InsertUnits(blocks, t, b);
      ghost var was := size;
      Neighbours(blocks, t, b);
      InsertLinks(ptr, size, blocks, t, b);
      var p := Find(bp, t);
      Link(bp, p, t);
      Given(was, size, blocks, used, obtained, t, bp);
      StillInList(blocks, t, b);
      blocks := Insert(blocks, t, b);
      used := used - {bp};
      freep := p;
    }

    lemma UsedBlock(bp: nat)
      requires Valid() && bp in used
      ensures freep != NULL && Canonical(blocks) && Linked(ptr, size, blocks) && InList(blocks, freep)
      ensures Outside(blocks, Blk(bp, used[bp])) && bp in size && size[bp] == used[bp]
      ensures Bounded(blocks) && bp + used[bp] < UINT_LIMIT
    {
      hide Linked, Canonical;
      UsedIs(used, bp);
      UnitsAre(blocks);
      assert bp + used[bp] - 1 in Range(bp, used[bp]);
      FreeBlocksBounded(blocks, brk);
    }

    /** free's relinking, in its order. */
    method Link(bp: nat, p: nat, ghost t: nat)
      requires Linked(ptr, size, blocks) && bp in size && t < |blocks| && p == blocks[t].at < bp
      requires Bounded(blocks) && bp + size[bp] < UINT_LIMIT && blocks[0].at <= p
      requires forall i :: 0 <= i < |blocks| ==> blocks[i].at != bp && (blocks[i].at == p ==> i == t)
      modifies this`ptr, this`size
      ensures ptr == PtrAfter(old(ptr), blocks, t, Blk(bp, old(size)[bp]))
      ensures size == SizeAfter(old(size), blocks, t, Blk(bp, old(size)[bp]))
    {
      ghost var b := Blk(bp, size[bp]);
      assert JoinsUp(blocks, t, b) == (bp + size[bp] == ptr[p]);
      assert t + 1 < |blocks| ==> blocks[t + 1].at in ptr && blocks[t + 1].at in size;
      if bp + size[bp] == ptr[p] {
        size := size[bp := (size[bp] + size[ptr[p]]) % UINT_LIMIT];
        ptr := ptr[bp := ptr[ptr[p]]];
      } else {
        ptr := ptr[bp := ptr[p]];
      }
      assert size[p] == blocks[t].n;
      if p + size[p] == bp {
        size := size[p := (size[p] + size[bp]) % UINT_LIMIT];
        ptr := ptr[p := ptr[bp]];
      } else {
        ptr := ptr[p := bp];
      }
    }

    /** morecore: the new units are freed into the list. */
    method MoreCore(nu: nat) returns (p: nat)
      requires Valid() && freep != NULL && 0 < nu && AtLeastMoreCore(nu) * HEADER < INT_LIMIT
      modifies this
      ensures Valid() && freep != NULL && used == old(used)
      ensures p == NULL <==> old(brk) + AtLeastMoreCore(nu) > limit
      ensures p == NULL ==> brk == old(brk) && blocks == old(blocks) && obtained == old(obtained)
      ensures p != NULL ==> p == freep && brk == old(brk) + AtLeastMoreCore(nu) && Fits(blocks, nu)
      ensures p != NULL ==> Units(blocks) == old(Units(blocks)) + Range(old(brk), AtLeastMoreCore(nu))
      ensures p != NULL ==> obtained == old(obtained) + Range(old(brk), AtLeastMoreCore(nu))
    {
      hide Units, Range, UsedUnits, Canonical, Linked, Partition;
      var n := nu;
      if n < MORECORE {
        n := MORECORE;
      }
      GrantIs(nu);
      NewIsOutside();
      ghost var p0 := brk;
      var ok, hp := Sbrk(Granted(nu));
      if !ok {
        return NULL;
      }
      Obtained(ptr, size, blocks, used, obtained, hp, n);
      size := size[hp := n];
      used, obtained := used[hp := n], obtained + Range(hp, n);
      Free(hp + 1);
      assert used == old(used);
      InOneBlock(blocks, hp, n);
      FitsLess(blocks, n, nu);
      p := freep;
    }

    lemma NewIsOutside()
      requires Valid() && freep != NULL
      ensures forall u :: u in Units(blocks) + UsedUnits(used) ==> u < brk
      ensures brk !in used && Canonical(blocks) && Linked(ptr, size, blocks) && Partition(size, blocks, used, obtained)
    {
      hide Units, UsedUnits, Canonical, Linked;
      UsedStarts(used);
      assert forall b :: b in used ==> b in obtained;
    }

    /** malloc's unlinking: all of block i, or its tail. */
    method Take(prevp: nat, block: nat, nunits: nat, ghost i: nat) returns (r: nat)
      requires Valid() && freep != NULL && 0 < i < |blocks| && 0 < nunits <= blocks[i].n
      requires block == blocks[i].at && prevp == blocks[i - 1].at
      modifies this
      ensures Valid() && freep != NULL && obtained == old(obtained) && brk == old(brk)
      ensures r > 0 && r - 1 !in old(used) && used == old(used)[r - 1 := nunits]
      ensures Units(blocks) == old(Units(blocks)) - Range(r - 1, nunits) && Range(r - 1, nunits) <= old(Units(blocks))
    {
      hide Units, Range, UsedUnits, Canonical, Linked, Partition;
      Parts();
      CarveIsCanonical(blocks, i, nunits);
      CarveUnits(blocks, i, nunits);
      CarveLinks(ptr, size, blocks, i, nunits);
      Taken(size, blocks, used, obtained, i, nunits);
      var p := block;
      assert blocks[i].n == size[p] && p in size && p in ptr by {
        LinkedAt(ptr, size, blocks, i);
      }
      if size[p] == nunits {
        assert size[p := 0][p := nunits] == size;
        ptr := ptr[prevp := ptr[p]];
      } else {
        size := size[p := size[p] - nunits];
        p := p + size[p];
        size := size[p := nunits];
      }
      assert Carve(blocks, i, nunits)[i - 1].at == prevp;
      freep := prevp;
      used := used[p := nunits];
      blocks := Carve(blocks, i, nunits);
      return p + 1;
    }

    lemma Parts()
      requires Valid() && freep != NULL
      ensures Canonical(blocks) && Linked(ptr, size, blocks) && Partition(size, blocks, used, obtained)
      ensures InList(blocks, freep) && forall i :: 0 <= i < |blocks| ==> blocks[i].at >= BASE
    {
    }

    /** The empty block, linked to itself. */
    method Start() returns (p: nat)
      requires Valid() && freep == NULL
      modifies this`ptr, this`size, this`freep, this`blocks
      ensures Valid() && p == freep != NULL && Units(blocks) == Units(old(blocks)) == {}
      ensures forall n :: n > 0 ==> !Fits(blocks, n) && !Fits(old(blocks), n)
    {
      ptr, size := ptr[BASE := BASE], size[BASE := 0];
      freep := BASE;
      blocks := [Blk(BASE, 0)];
      OneUnits(blocks[0]);
      p := freep;
    }

    ghost method IndexOf(p: nat) returns (i: nat)
      requires Valid() && freep == p != NULL
      ensures i < |blocks| && blocks[i].at == p
    {
      i :| i < |blocks| && blocks[i].at == p;
    }

    lemma At(j: nat)
      requires Valid() && freep != NULL && j < |blocks|
      ensures blocks[j].at in ptr && ptr[blocks[j].at] == blocks[Next(j, |blocks|)].at
      ensures blocks[j].at in size && size[blocks[j].at] == blocks[j].n
      ensures forall k: nat :: k < |blocks| && blocks[k].at == blocks[j].at ==> k == j
    {
      hide Units, Partition;
    }

    lemma FitsAt(j: nat, n: nat)
      requires Valid() && freep != NULL && j < |blocks| && 0 < n && size[blocks[j].at] >= n
      ensures 0 < j && blocks[j].n >= n && Fits(blocks, n)
    {
      hide Units, Partition;
    }

    /** malloc: the tail of the first block that fits, searching from freep;
        sbrk is asked for more exactly when no free block fits. */
    method Malloc(nbytes: nat) returns (r: nat)
      requires Valid() && nbytes <= INT_LIMIT - 2 * HEADER
      modifies this
      ensures Valid()
      ensures r == NULL ==> !Fits(old(blocks), NUnits(nbytes)) && brk + AtLeastMoreCore(NUnits(nbytes)) > limit
      ensures r == NULL ==> used == old(used) && obtained == old(obtained) && Units(blocks) == old(Units(blocks))
      ensures r != NULL ==>
                var n := NUnits(nbytes);
                var more := if Fits(old(blocks), n) then {} else Range(old(brk), AtLeastMoreCore(n));
                && nbytes <= (n - 1) * HEADER && r - 1 !in old(used) && used == old(used)[r - 1 := n]
                && obtained == old(obtained) + more && Range(r - 1, n) <= old(Units(blocks)) + more
                && Units(blocks) == old(Units(blocks)) + more - Range(r - 1, n)
    {
      hide Heap.Valid, Units, Range, UsedUnits, Fits, Small, Passed, AtLeastMoreCore;
      var nunits := (nbytes + HEADER - 1) / HEADER + 1;
      EnoughUnits(nbytes);
      var prevp := freep;
      if prevp == NULL {
        prevp := Start();
      }
      ghost var before, units, asked := blocks, Units(blocks), false;
      ghost var more: set<nat> := {};
      ghost var i: nat := IndexOf(prevp);
      ghost var f: nat := i;
      At(i);
      NonePassed(blocks, f, nunits);
      var p := ptr[prevp];
      while true
        invariant Valid() && freep != NULL && used == old(used)
        invariant i < |blocks| && f < |blocks| && prevp == blocks[i].at && p == blocks[Next(i, |blocks|)].at
        invariant freep == blocks[f].at && Small(blocks, f, i, nunits)
        invariant obtained == old(obtained) + more && Units(blocks) == units + more
        invariant !asked ==> blocks == before && brk == old(brk) && more == {}
        invariant asked ==> Fits(blocks, nunits) && !Fits(before, nunits)
        invariant asked ==> more == Range(old(brk), AtLeastMoreCore(nunits))
        decreases if asked then 0 else 1, if i < f then f - i else |blocks| - i + f
      {
        ghost var j := Next(i, |blocks|);
        At(j);
        At(f);
        if size[p] >= nunits {
          FitsAt(j, nunits);
          r := Take(prevp, p, nunits, j);
          return;
        }
        if p == freep {
          AllSmall(blocks, f, i, nunits);
          p := MoreCore(nunits);
          if p == NULL {
            return NULL;
          }
          asked, more := true, Range(old(brk), AtLeastMoreCore(nunits));
          i := IndexOf(p);
          f := i;
          NonePassed(blocks, f, nunits);
        } else {
          SmallMore(blocks, f, i, nunits);
          i := j;
        }
        prevp := p;
        At(i);
        p := ptr[p];
      }
    }

    /** free undoes malloc: the very same list, if sbrk was not needed. */
    method MallocThenFree(nbytes: nat) returns (r: nat)
      requires Valid() && nbytes <= INT_LIMIT - 2 * HEADER && Fits(blocks, NUnits(nbytes)) && freep != NULL
      modifies this
      ensures Valid() && r != NULL && blocks == old(blocks) && used == old(used) && obtained == old(obtained)
    {
      hide Units, Range, UsedUnits, Canonical, Linked, Partition, Fits;
      Parts();
      ghost var was := used;
      r := Malloc(nbytes);
      Free(r);
      assert used == was;
      Parts();
      OneCanonicalList(blocks, old(blocks));
    }
  }

  function Next(i: nat, n: nat): nat {
    if i + 1 < n then i + 1 else 0
  }

  /** k comes after f, and not after i, going round the list. */
  predicate Passed(f: nat, i: nat, k: nat) {
    if f <= i then f < k <= i else k > f || k <= i
  }

  ghost predicate Small(blocks: seq<Blk>, f: nat, i: nat, n: nat) {
    forall k :: 0 <= k < |blocks| && Passed(f, i, k) ==> blocks[k].n < n
  }

  lemma NonePassed(blocks: seq<Blk>, f: nat, n: nat)
    ensures Small(blocks, f, f, n)
  {
  }

  lemma SmallMore(blocks: seq<Blk>, f: nat, i: nat, n: nat)
    requires f < |blocks| && i < |blocks| && Next(i, |blocks|) != f
    requires Small(blocks, f, i, n) && blocks[Next(i, |blocks|)].n < n
    ensures Small(blocks, f, Next(i, |blocks|), n)
  {
  }

  lemma AllSmall(blocks: seq<Blk>, f: nat, i: nat, n: nat)
    requires f < |blocks| && i < |blocks| && Next(i, |blocks|) == f && Small(blocks, f, i, n) && blocks[f].n < n
    ensures !Fits(blocks, n)
  {
    forall k | 0 <= k < |blocks| ensures blocks[k].n < n {
      assert k != f ==> Passed(f, i, k);
    }
  }

  lemma EnoughUnits(nbytes: nat)
    requires nbytes <= INT_LIMIT - 2 * HEADER
    ensures nbytes <= (NUnits(nbytes) - 1) * HEADER && AtLeastMoreCore(NUnits(nbytes)) * HEADER < INT_LIMIT
  {
  }

  lemma GrantIs(nu: nat)
    requires AtLeastMoreCore(nu) * HEADER < INT_LIMIT
    ensures Granted(nu) == AtLeastMoreCore(nu)
  {
  }

  /** New units, as a block that is about to be freed. */
  lemma Obtained(ptr: map<nat, nat>, size: map<nat, nat>, blocks: seq<Blk>, used: map<nat, nat>, obtained: set<nat>,
                 p: nat, n: nat)
    requires Canonical(blocks) && Linked(ptr, size, blocks) && Partition(size, blocks, used, obtained)
    requires p !in used && p > BASE && n > 0 && forall u :: u in Units(blocks) + UsedUnits(used) ==> u < p
    ensures Linked(ptr, size[p := n], blocks)
    ensures Partition(size[p := n], blocks, used[p := n], obtained + Range(p, n))
  {
    hide Units, UsedUnits, Range;
    UnitsAre(blocks);
    forall i | 0 <= i < |blocks| ensures blocks[i].at != p {
      assert i > 0 ==> Holds(blocks, blocks[i].at);
    }
    forall b | b in used ensures Range(b, used[b]) !! Range(p, n) {
      UsedIs(used, b);
    }
    UsedWith(used, p, n);
  }

  lemma UsedWith(used: map<nat, nat>, b: nat, n: nat)
    requires b !in used
    ensures UsedUnits(used[b := n]) == UsedUnits(used) + Range(b, n)
  {
    hide Range;
    var used' := used[b := n];
    forall u | u in UsedUnits(used) ensures u in UsedUnits(used') {
      var a :| a in used && u in Range(a, used[a]);
      assert u in Range(a, used'[a]);
    }
    UsedIs(used', b);
  }

  /** Free units without a gap are in one block. */
  lemma InOneBlock(blocks: seq<Blk>, p: nat, n: nat)
    requires Canonical(blocks) && n > 0 && Range(p, n) <= Units(blocks)
    ensures Fits(blocks, n)
  {
    UnitsAre(blocks);
    assert p in Range(p, n);
    var i :| 0 <= i < |blocks| && blocks[i].at <= p < blocks[i].End();
    var e := blocks[i].End();
    assert !Holds(blocks, e);
    assert e !in Range(p, n);
  }

  lemma FitsLess(blocks: seq<Blk>, n: nat, m: nat)
    requires Fits(blocks, n) && m <= n
    ensures Fits(blocks, m)
  {
  }

  lemma LinkedAt(ptr: map<nat, nat>, size: map<nat, nat>, blocks: seq<Blk>, i: nat)
    requires Linked(ptr, size, blocks) && i < |blocks|
    ensures blocks[i].at in ptr && blocks[i].at in size && size[blocks[i].at] == blocks[i].n
  {
  }

  lemma UnlinkLinks(ptr: map<nat, nat>, size: map<nat, nat>, blocks: seq<Blk>, i: nat)
    requires Canonical(blocks) && Linked(ptr, size, blocks) && 0 < i < |blocks|
    requires blocks[i].at in ptr
    ensures Linked(ptr[blocks[i - 1].at := ptr[blocks[i].at]], size, blocks[..i] + blocks[i + 1..])
  {
    hide Units;
    var now, ptr' := blocks[..i] + blocks[i + 1..], ptr[blocks[i - 1].at := ptr[blocks[i].at]];
    forall k | 0 <= k < |now|
      ensures now[k].at in ptr' && now[k].at in size && size[now[k].at] == now[k].n
      ensures ptr'[now[k].at] == now[if k + 1 < |now| then k + 1 else 0].at
    {
      var j := if k < i then k else k + 1;
      assert now[k] == blocks[j];
      assert j != i - 1 ==> blocks[j].at != blocks[i - 1].at;
    }
  }

  lemma ShrinkLinks(ptr: map<nat, nat>, size: map<nat, nat>, blocks: seq<Blk>, i: nat, n: nat)
    requires Canonical(blocks) && Linked(ptr, size, blocks) && 0 < i < |blocks| && 0 < n < blocks[i].n
    ensures Linked(ptr, size[blocks[i].at := blocks[i].n - n][blocks[i].End() - n := n],
                   blocks[i := Blk(blocks[i].at, blocks[i].n - n)])
  {
    hide Units;
    forall k | 0 <= k < |blocks| ensures blocks[k].at != blocks[i].End() - n && (k != i ==> blocks[k].at != blocks[i].at) {
    }
  }

  lemma CarveLinks(ptr: map<nat, nat>, size: map<nat, nat>, blocks: seq<Blk>, i: nat, n: nat)
    requires Canonical(blocks) && Linked(ptr, size, blocks) && 0 < i < |blocks| && 0 < n <= blocks[i].n
    ensures var p := blocks[i].at;
            && p in ptr && p in size
            && if blocks[i].n == n then Linked(ptr[blocks[i - 1].at := ptr[p]], size, Carve(blocks, i, n))
               else Linked(ptr, size[p := size[p] - n][blocks[i].End() - n := n], Carve(blocks, i, n))
  {
    hide Canonical, Linked;
    LinkedAt(ptr, size, blocks, i);
    if blocks[i].n == n {
      UnlinkLinks(ptr, size, blocks, i);
    } else {
      ShrinkLinks(ptr, size, blocks, i, n);
    }
  }

  /** The units that malloc hands out leave the free ones. */
  lemma Taken(size: map<nat, nat>, blocks: seq<Blk>, used: map<nat, nat>, obtained: set<nat>, i: nat, n: nat)
    requires Canonical(blocks) && Partition(size, blocks, used, obtained)
    requires 0 < i < |blocks| && 0 < n <= blocks[i].n && blocks[i].at in size
    requires Units(Carve(blocks, i, n)) == Units(blocks) - Range(blocks[i].End() - n, n)
    requires Range(blocks[i].End() - n, n) <= Units(blocks)
    ensures var b := blocks[i].End() - n;
            && b !in used && b > BASE
            && Partition(size[blocks[i].at := blocks[i].n - n][b := n], Carve(blocks, i, n), used[b := n], obtained)
  {
    hide Units, UsedUnits, Range, Carve;
    var b := blocks[i].End() - n;
    assert b in Range(b, n) && BASE < blocks[i].at;
    forall a | a in used ensures a != b && a != blocks[i].at && Range(a, used[a]) !! Range(b, n) {
      NotInList(blocks, used, a, i);
      UsedIs(used, a);
      assert a in Range(a, used[a]);
    }
    UsedWith(used, b, n);
  }

  ghost predicate Bounded(blocks: seq<Blk>) {
    forall i :: 0 <= i < |blocks| ==> blocks[i].End() < UINT_LIMIT
  }

  lemma FreeBlocksBounded(blocks: seq<Blk>, brk: nat)
    requires Canonical(blocks) && BASE < brk < UINT_LIMIT && forall u: nat :: Holds(blocks, u) ==> u < brk
    ensures Bounded(blocks)
  {
    forall i | 0 <= i < |blocks| ensures blocks[i].End() < UINT_LIMIT {
      if i > 0 {
        assert Holds(blocks, blocks[i].End() - 1);
      }
    }
  }

  lemma UsedIs(used: map<nat, nat>, b: nat)
    requires b in used
    ensures Range(b, used[b]) <= UsedUnits(used)
  {
  }

  lemma UsedStarts(used: map<nat, nat>)
    ensures forall b :: b in used && used[b] > 0 ==> b in UsedUnits(used)
  {
    forall b | b in used && used[b] > 0 ensures b in UsedUnits(used) {
      UsedIs(used, b);
      assert b in Range(b, used[b]);
    }
  }

  /** The headers after free. */
  function PtrAfter(ptr: map<nat, nat>, blocks: seq<Blk>, t: nat, b: Blk): map<nat, nat>
    requires t < |blocks|
  {
    var l := if JoinsUp(blocks, t, b) then t + 2 else t + 1;
    var next := blocks[if l < |blocks| then l else 0].at;
    ptr[b.at := next][blocks[t].at := if JoinsDown(blocks, t, b) then next else b.at]
  }

  function SizeAfter(size: map<nat, nat>, blocks: seq<Blk>, t: nat, b: Blk): map<nat, nat>
    requires t < |blocks|
  {
    var n := b.n + if JoinsUp(blocks, t, b) then blocks[t + 1].n else 0;
    var grown := size[b.at := n];
    if JoinsDown(blocks, t, b) then grown[blocks[t].at := blocks[t].n + n] else grown
  }

  lemma PlaceOf(blocks: seq<Blk>, b: Blk) returns (t: nat)
    requires Canonical(blocks) && Outside(blocks, b)
    ensures Follows(blocks, t, b.at)
  {
    UnitsAre(blocks);
    t := 0;
    while t + 1 < |blocks| && blocks[t + 1].at < b.at
      invariant t < |blocks| && blocks[t].at < b.at
    {
      t := t + 1;
    }
    assert b.at !in Units(blocks);
    assert t + 1 < |blocks| && blocks[t + 1].at == b.at ==> Holds(blocks, b.at);
  }

  lemma Neighbours(blocks: seq<Blk>, t: nat, b: Blk)
    requires Canonical(blocks) && Follows(blocks, t, b.at)
    ensures blocks[t].at < b.at && (t + 1 < |blocks| ==> b.at < blocks[t + 1].at) && blocks[0].at == BASE <= blocks[t].at
    ensures forall i, j :: 0 <= i < j < |blocks| ==> blocks[i].at < blocks[j].at
    ensures forall i :: 0 <= i < |blocks| ==> blocks[i].at != b.at && (blocks[i].at < b.at <==> i <= t)
  {
    forall i | 0 <= i < |blocks| ensures blocks[i].at != b.at && (blocks[i].at < b.at <==> i <= t) {
      assert i < t ==> blocks[i].at < blocks[t].at;
      assert i > t + 1 ==> blocks[t + 1].at < blocks[i].at;
    }
  }

  /** An index of Insert's list is an old one, before or after the new block. */
  lemma InsertAt(blocks: seq<Blk>, t: nat, b: Blk, i: nat)
    requires t < |blocks| && i < |Insert(blocks, t, b)|
    ensures var k := if JoinsDown(blocks, t, b) then t else t + 1;
            var l := if JoinsUp(blocks, t, b) then t + 2 else t + 1;
            && |Insert(blocks, t, b)| == k + 1 + |blocks| - l && l <= |blocks|
            && Insert(blocks, t, b)[i] == if i < k then blocks[i] else if i == k then Joined(blocks, t, b)
                                          else blocks[i - k - 1 + l]
  {
  }

  lemma InsertLinks(ptr: map<nat, nat>, size: map<nat, nat>, blocks: seq<Blk>, t: nat, b: Blk)
    requires Canonical(blocks) && Linked(ptr, size, blocks) && Follows(blocks, t, b.at)
    ensures Linked(PtrAfter(ptr, blocks, t, b), SizeAfter(size, blocks, t, b), Insert(blocks, t, b))
  {
    hide Insert, Canonical;
    Neighbours(blocks, t, b);
    var now, ptr', size' := Insert(blocks, t, b), PtrAfter(ptr, blocks, t, b), SizeAfter(size, blocks, t, b);
    forall i | 0 <= i < |now|
      ensures now[i].at in ptr' && now[i].at in size' && size'[now[i].at] == now[i].n
      ensures ptr'[now[i].at] == now[if i + 1 < |now| then i + 1 else 0].at
    {
      InsertAt(blocks, t, b, i);
      InsertAt(blocks, t, b, if i + 1 < |now| then i + 1 else 0);
    }
  }

  lemma Given(was: map<nat, nat>, now: map<nat, nat>, blocks: seq<Blk>, used: map<nat, nat>, obtained: set<nat>,
              t: nat, bp: nat)
    requires Partition(was, blocks, used, obtained) && bp in used && Canonical(blocks) && t < |blocks|
    requires Units(Insert(blocks, t, Blk(bp, used[bp]))) == Units(blocks) + Range(bp, used[bp])
    requires forall a :: a in was && a != bp && a != blocks[t].at ==> a in now && now[a] == was[a]
    ensures Partition(now, Insert(blocks, t, Blk(bp, used[bp])), used - {bp}, obtained)
  {
    hide Units, Insert, UsedUnits, Canonical, Range;
    var used' := used - {bp};
    forall a | a in used' ensures a in now && now[a] == used'[a] {
      NotInList(blocks, used, a, t);
    }
    UsedWithout(used, bp);
  }

  /** A free block is not where an allocated one is. */
  lemma NotInList(blocks: seq<Blk>, used: map<nat, nat>, a: nat, t: nat)
    requires Canonical(blocks) && t < |blocks| && a in used && a > BASE && used[a] > 0
    requires Units(blocks) !! UsedUnits(used)
    ensures a != blocks[t].at
  {
    hide Units, UsedUnits;
    UnitsAre(blocks);
    UsedIs(used, a);
    assert a in Range(a, used[a]);
    assert a == blocks[t].at ==> Holds(blocks, a);
  }

  lemma UsedWithout(used: map<nat, nat>, b: nat)
    requires b in used
    requires forall a, b :: a in used && b in used && a != b ==> Range(a, used[a]) !! Range(b, used[b])
    ensures UsedUnits(used) == UsedUnits(used - {b}) + Range(b, used[b])
    ensures UsedUnits(used - {b}) !! Range(b, used[b])
  {
    hide Range;
    var used' := used - {b};
    forall u | u in UsedUnits(used') ensures u in UsedUnits(used) && u !in Range(b, used[b]) {
      var a :| a in used' && u in Range(a, used'[a]);
      assert u in Range(a, used[a]);
    }
    forall u | u in UsedUnits(used) ensures u in UsedUnits(used') || u in Range(b, used[b]) {
      var a :| a in used && u in Range(a, used[a]);
      assert a != b ==> u in Range(a, used'[a]);
    }
    UsedIs(used, b);
  }

  lemma StillInList(blocks: seq<Blk>, t: nat, b: Blk)
    requires t < |blocks|
    ensures InList(Insert(blocks, t, b), blocks[t].at)
  {
    assert Insert(blocks, t, b)[t].at == blocks[t].at;
  }
}
