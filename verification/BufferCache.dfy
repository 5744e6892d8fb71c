/** lab2/kernel/bio.c: the buffer cache, a doubly linked list of NBUF buffers
    ordered by how recently each was released. */
module BufferCache {
  import opened Blocks

  const NBUF: nat := 30

  /** A disk whose single-block writes are atomic.  `images` records the whole
      disk after every write: these are the states a crash can leave behind. */
  class Disk {
    var blocks: seq<Block>
    var images: seq<seq<Block>>

    constructor (contents: seq<Block>)
      ensures blocks == contents && images == []
    {
      blocks, images := contents, [];
    }

    method Read(bn: nat) returns (b: Block)
      requires bn < |blocks|
      ensures b == blocks[bn]
    {
      b := blocks[bn];
    }

    method Write(bn: nat, b: Block)
      requires bn < |blocks|
      modifies this
      ensures blocks == old(blocks)[bn := b]
      ensures images == old(images) + [blocks]
    {
      blocks := blocks[bn := b];
      images := images + [blocks];
    }
  }

  /** struct buf without its list links; `locked` is the sleep lock. */
  datatype Buf = Buf(valid: bool, locked: bool, dev: nat, blockno: nat, refcnt: nat, data: Block)

  /** A list of distinct buffers. */
  ghost predicate IsList(order: seq<nat>) {
    && (forall k :: 0 <= k < |order| ==> order[k] < NBUF)
    && (forall j, k :: 0 <= j < k < |order| ==> order[j] != order[k])
  }

  /** A list of all the buffers. */
  ghost predicate IsOrder(order: seq<nat>) {
    IsList(order) && |order| == NBUF && (forall i: nat :: i < NBUF ==> i in order)
  }

  /** The head, the buffers in list order, and the head again. */
  ghost function Ring(order: seq<nat>): seq<nat> {
    [NBUF] + order + [NBUF]
  }

  /** next and prev run along the ring, in opposite directions. */
  ghost predicate Linked(order: seq<nat>, prev: seq<nat>, next: seq<nat>)
    requires IsList(order) && |prev| == |next| == NBUF + 1
  {
    var r := Ring(order);
    forall k :: 0 <= k <= |order| ==> next[r[k]] == r[k + 1] && prev[r[k + 1]] == r[k]
  }

  /** No two buffers hold the same block of a real device. */
  ghost predicate Unique(bufs: seq<Buf>) {
    forall i, j :: 0 <= i < j < |bufs| && bufs[i].dev != 0 && bufs[i].dev == bufs[j].dev
      ==> bufs[i].blockno != bufs[j].blockno
  }

  ghost predicate Holds(b: Buf, dev: nat, bn: nat) {
    b.dev == dev && b.blockno == bn
  }

  /** Nearer the front of the list means released later. */
  ghost predicate Stamped(order: seq<nat>, stamp: seq<nat>, clock: nat)
    requires IsOrder(order) && |stamp| == NBUF
  {
    && (forall i :: 0 <= i < NBUF ==> stamp[i] <= clock)
    && (forall j, k :: 0 <= j < k < NBUF ==> stamp[order[j]] >= stamp[order[k]])
  }

  ghost function Without(s: seq<nat>, k: nat): seq<nat>
    requires k < |s|
  {
    s[..k] + s[k + 1..]
  }

  class BCache {
    const disk: Disk
    const buf: array<Buf>
    const prev: array<nat>
    const next: array<nat>
    ghost var order: seq<nat>
    /** When each buffer was last released, on a clock that ticks at each release. */
    ghost var stamp: seq<nat>
    ghost var clock: nat

    ghost predicate Valid()
      reads this, buf, prev, next
    {
      && buf.Length == NBUF && prev.Length == next.Length == NBUF + 1 && prev != next
      && IsOrder(order) && Linked(order, prev[..], next[..])
      && Unique(buf[..])
      && |stamp| == NBUF && Stamped(order, stamp, clock)
    }

    /** binit */
    constructor (disk: Disk)
      ensures Valid() && fresh(buf) && fresh(prev) && fresh(next)
      ensures this.disk == disk
      ensures forall i :: 0 <= i < NBUF ==> buf[i] == Buf(false, false, 0, 0, 0, ZeroBlock())
    {
      this.disk := disk;
      var p, n := new nat[NBUF + 1](_ => 0), new nat[NBUF + 1](_ => 0);
      var bufs := new Buf[NBUF](_ => Buf(false, false, 0, 0, 0, ZeroBlock()));
      ghost var o := LinkAll(p, n);
      prev, next, buf := p, n, bufs;
      order := o;
      stamp, clock := seq(NBUF, _ => 0), 0;
    }

    /** bget's first loop, from the most recently released buffer. */
    method Cached(dev: nat, bn: nat) returns (i: int)
      requires Valid()
      ensures -1 <= i < NBUF
      ensures i >= 0 ==> Holds(buf[i], dev, bn)
      ensures i < 0 ==> forall j :: 0 <= j < NBUF ==> !Holds(buf[j], dev, bn)
    {
      ghost var r := Ring(order);
      ghost var k := 1;
      assert next[r[0]] == r[1];
      var b := next[NBUF];
      while b != NBUF
        invariant 1 <= k <= NBUF + 1 && b == r[k]
        invariant forall j :: 0 <= j < k - 1 ==> !Holds(buf[order[j]], dev, bn)
        decreases NBUF + 1 - k
      {
        if buf[b].dev == dev && buf[b].blockno == bn {
          return b;
        }
        b := next[b];
        k := k + 1;
      }
      forall j: nat | j < NBUF ensures !Holds(buf[j], dev, bn) {
        assert j in order;
      }
      i := -1;
    }

    /** bget's second loop, from the least recently released buffer. */
    method Recyclable() returns (i: int)
      requires Valid()
      ensures -1 <= i < NBUF
      ensures i >= 0 ==> buf[i].refcnt == 0
                         && forall j :: 0 <= j < NBUF && buf[j].refcnt == 0 ==> stamp[i] <= stamp[j]
      ensures i < 0 ==> forall j :: 0 <= j < NBUF ==> buf[j].refcnt > 0
    {
      ghost var r := Ring(order);
      ghost var k := NBUF;
      assert prev[r[NBUF + 1]] == r[NBUF];
      var b := prev[NBUF];
      while b != NBUF
        invariant 0 <= k <= NBUF && b == r[k]
        invariant forall j :: k <= j < NBUF ==> buf[order[j]].refcnt > 0
        decreases k
      {
        if buf[b].refcnt == 0 {
          LastReleased(order, stamp, clock, buf[..], k - 1);
          return b;
        }
        b := prev[b];
        k := k - 1;
      }
      forall j: nat | j < NBUF ensures buf[j].refcnt > 0 {
        assert j in order;
      }
      i := -1;
    }

    /** bget: the buffer holding the block if there is one, else the least
        recently released unreferenced buffer; None is "bget: no buffers". */
    method Bget(dev: nat, bn: nat) returns (i: int)
      requires Valid() && dev != 0
      modifies buf
      ensures Valid() && order == old(order) && stamp == old(stamp) && clock == old(clock)
      ensures -1 <= i < NBUF
      ensures i < 0 <==> forall j :: 0 <= j < NBUF ==> !Holds(old(buf[j]), dev, bn) && old(buf[j]).refcnt > 0
      ensures i < 0 ==> buf[..] == old(buf[..])
      ensures i >= 0 && Holds(old(buf[i]), dev, bn) ==>
                buf[..] == old(buf[..])[i := old(buf[i]).(refcnt := old(buf[i]).refcnt + 1)]
      ensures i >= 0 && !Holds(old(buf[i]), dev, bn) ==>
                && (forall j :: 0 <= j < NBUF ==> !Holds(old(buf[j]), dev, bn))
                && old(buf[i]).refcnt == 0
                && (forall j :: 0 <= j < NBUF && old(buf[j]).refcnt == 0 ==> stamp[i] <= stamp[j])
                && buf[..] == old(buf[..])[i := old(buf[i]).(valid := false, dev := dev, blockno := bn, refcnt := 1)]
    {
      i := Cached(dev, bn);
      if i >= 0 {
        buf[i] := buf[i].(refcnt := buf[i].refcnt + 1);
        return;
      }
      i := Recyclable();
      if i >= 0 {
        buf[i] := buf[i].(dev := dev, blockno := bn, valid := false, refcnt := 1);
      }
    }

    /** bread: acquiring the sleep lock waits until the buffer is unlocked, so
        in a step that completes the block is not locked by anyone else. */
    method Bread(dev: nat, bn: nat) returns (i: int)
      requires Valid() && dev != 0 && bn < |disk.blocks|
      requires forall j :: 0 <= j < NBUF && Holds(buf[j], dev, bn) ==> !buf[j].locked
      requires forall j :: 0 <= j < NBUF && buf[j].refcnt == 0 ==> !buf[j].locked
      modifies buf
      ensures Valid() && -1 <= i < NBUF
      ensures i < 0 <==> forall j :: 0 <= j < NBUF ==> !Holds(old(buf[j]), dev, bn) && old(buf[j]).refcnt > 0
      ensures i < 0 ==> buf[..] == old(buf[..])
      ensures i >= 0 && !Holds(old(buf[i]), dev, bn) ==>
                && old(buf[i]).refcnt == 0
                && (forall j :: 0 <= j < NBUF ==> !Holds(old(buf[j]), dev, bn))
      ensures i >= 0 ==>
                var was := old(buf[i]);
                var cached := Holds(was, dev, bn);
                buf[..] == old(buf[..])[i := Buf(true, true, dev, bn,
                                                 if cached then was.refcnt + 1 else 1,
                                                 if cached && was.valid then was.data else disk.blocks[bn])]
    {
      i := Bget(dev, bn);
      if i >= 0 {
        buf[i] := buf[i].(locked := true);
        if !buf[i].valid {
          var d := disk.Read(bn);
          buf[i] := buf[i].(data := d);
          buf[i] := buf[i].(valid := true);
        }
      }
    }

    method Bwrite(i: nat)
      requires Valid() && i < NBUF && buf[i].locked && buf[i].blockno < |disk.blocks|
      modifies disk
      ensures Valid()
      ensures disk.blocks == old(disk.blocks)[buf[i].blockno := buf[i].data]
      ensures disk.images == old(disk.images) + [disk.blocks]
    {
      disk.Write(buf[i].blockno, buf[i].data);
    }

    /** brelse: the last reference moves the buffer to the front of the list. */
    method Brelse(i: nat)
      requires Valid() && i < NBUF && buf[i].locked && buf[i].refcnt > 0
      modifies this, buf, prev, next
      ensures Valid()
      ensures buf[..] == old(buf[..])[i := old(buf[i]).(locked := false, refcnt := old(buf[i]).refcnt - 1)]
      ensures old(buf[i]).refcnt > 1 ==> order == old(order) && stamp == old(stamp) && clock == old(clock)
      ensures old(buf[i]).refcnt == 1 ==>
                && clock == old(clock) + 1 && stamp == old(stamp)[i := clock]
                && exists k :: 0 <= k < NBUF && old(order)[k] == i && order == [i] + Without(old(order), k)
    {
      buf[i] := buf[i].(locked := false);
      buf[i] := buf[i].(refcnt := buf[i].refcnt - 1);
      assert Unique(buf[..]);
      if buf[i].refcnt == 0 {
        MoveFirst(i);
      }
    }

    /** The six assignments of brelse that move a buffer to the front. */
    method MoveFirst(i: nat)
      requires Valid() && i < NBUF
      modifies this, prev, next
      ensures Valid() && clock == old(clock) + 1 && stamp == old(stamp)[i := clock]
      ensures exists k :: 0 <= k < NBUF && old(order)[k] == i && order == [i] + Without(old(order), k)
    {
      hide Linked, Stamped, Unique, Ring;
      assert i in order;
      ghost var k :| 0 <= k < NBUF && order[k] == i;
      LinkedAt(order, prev[..], next[..], k);
      Unlink(order, prev[..], next[..], i, k);
      ghost var p0: seq<nat>, n0: seq<nat> := prev[..], next[..];
      prev[next[i]] := prev[i];
      next[prev[i]] := next[i];
      ghost var p1: seq<nat>, n1: seq<nat> := p0[n0[i] := p0[i]], n0[p0[i] := n0[i]];
      assert prev[..] == p1 && next[..] == n1;
      InsertFront(Without(order, k), p1, n1, i);
      next[i] := next[NBUF];
      prev[i] := NBUF;
      prev[next[NBUF]] := i;
      next[NBUF] := i;
      assert prev[..] == p1[i := NBUF][n1[NBUF] := i] && next[..] == n1[i := n1[NBUF]][NBUF := i];
      FrontIsOrder(order, i, k);
      StampFront(order, stamp, clock, i, k);
      order := [i] + Without(order, k);
      clock := clock + 1;
      stamp := stamp[i := clock];
    }

    method Bpin(i: nat)
      requires Valid() && i < NBUF
      modifies buf
      ensures Valid()
      ensures buf[..] == old(buf[..])[i := old(buf[i]).(refcnt := old(buf[i]).refcnt + 1)]
    {
      buf[i] := buf[i].(refcnt := buf[i].refcnt + 1);
    }

    method Bunpin(i: nat)
      requires Valid() && i < NBUF && buf[i].refcnt > 0
      modifies buf
      ensures Valid()
      ensures buf[..] == old(buf[..])[i := old(buf[i]).(refcnt := old(buf[i]).refcnt - 1)]
    {
      buf[i] := buf[i].(refcnt := buf[i].refcnt - 1);
    }
  }

  /** binit's loop: each buffer is inserted after the head. */
  method LinkAll(p: array<nat>, n: array<nat>) returns (ghost o: seq<nat>)
    requires p.Length == n.Length == NBUF + 1 && p != n
    modifies p, n
    ensures IsOrder(o) && Linked(o, p[..], n[..])
  {
    o := [];
    p[NBUF], n[NBUF] := NBUF, NBUF;
    var b: nat := 0;
    while b < NBUF
      invariant b <= NBUF && |o| == b
      invariant forall k :: 0 <= k < b ==> o[k] == b - 1 - k
      invariant Linked(o, p[..], n[..])
    {
      assert n[Ring(o)[0]] == Ring(o)[1];
      InsertFront(o, p[..], n[..], b);
      ghost var p0: seq<nat>, n0: seq<nat> := p[..], n[..];
      n[b] := n[NBUF];
      p[b] := NBUF;
      p[n[NBUF]] := b;
      n[NBUF] := b;
      assert p[..] == p0[b := NBUF][n0[NBUF] := b] && n[..] == n0[b := n0[NBUF]][NBUF := b];
      o := [b] + o;
      b := b + 1;
    }
    forall i: nat | i < NBUF ensures i in o {
      assert o[NBUF - 1 - i] == i;
    }
  }

  /** The unreferenced buffer nearest the end of the list was released first. */
  lemma LastReleased(order: seq<nat>, stamp: seq<nat>, clock: nat, bufs: seq<Buf>, k: nat)
    requires IsOrder(order) && |stamp| == NBUF && Stamped(order, stamp, clock) && |bufs| == NBUF && k < NBUF
    requires forall j :: k < j < NBUF ==> bufs[order[j]].refcnt > 0
    ensures forall j :: 0 <= j < NBUF && bufs[j].refcnt == 0 ==> stamp[order[k]] <= stamp[j]
  {
    forall j: nat | j < NBUF && bufs[j].refcnt == 0 ensures stamp[order[k]] <= stamp[j] {
      assert j in order;
      var m :| 0 <= m < NBUF && order[m] == j;
      assert m <= k;
    }
  }

  lemma LinkedAt(order: seq<nat>, prev: seq<nat>, next: seq<nat>, k: nat)
    requires IsOrder(order) && |prev| == |next| == NBUF + 1 && Linked(order, prev, next) && k < NBUF
    ensures prev[order[k]] == Ring(order)[k] && next[order[k]] == Ring(order)[k + 2]
    ensures next[NBUF] == order[0] && prev[order[k]] <= NBUF && next[order[k]] <= NBUF
  {
    var r := Ring(order);
    assert r[k + 1] == order[k];
    assert prev[r[k + 1]] == r[k] && next[r[k + 1]] == r[k + 2];
    assert next[r[0]] == r[1];
  }

  /** b->next->prev = b->prev; b->prev->next = b->next; */
  lemma Unlink(order: seq<nat>, prev: seq<nat>, next: seq<nat>, b: nat, k: nat)
    requires IsOrder(order) && k < NBUF && order[k] == b
    requires |prev| == |next| == NBUF + 1 && Linked(order, prev, next)
    requires prev[b] <= NBUF && next[b] <= NBUF
    ensures IsList(Without(order, k)) && b !in Without(order, k)
    ensures Linked(Without(order, k), prev[next[b] := prev[b]], next[prev[b] := next[b]])
  {
    var w := Without(order, k);
    var r, r' := Ring(order), Ring(w);
    LinkedAt(order, prev, next, k);
    forall j | 0 <= j < NBUF
      ensures next[prev[b] := next[b]][r'[j]] == r'[j + 1] && prev[next[b] := prev[b]][r'[j + 1]] == r'[j]
    {
      var m := if j <= k then j else j + 1;
      assert r'[j] == r[m] && r'[j + 1] == if j < k then r[j + 1] else r[j + 2];
      assert next[r[m]] == r[m + 1] && prev[r[m + 1]] == r[m];
    }
  }

  /** b->next = head.next; b->prev = &head; head.next->prev = b; head.next = b; */
  lemma InsertFront(w: seq<nat>, prev: seq<nat>, next: seq<nat>, b: nat)
    requires IsList(w) && b < NBUF && b !in w
    requires |prev| == |next| == NBUF + 1 && Linked(w, prev, next) && next[NBUF] <= NBUF
    ensures IsList([b] + w)
    ensures Linked([b] + w, prev[b := NBUF][next[NBUF] := b], next[b := next[NBUF]][NBUF := b])
  {
    var r, r' := Ring(w), Ring([b] + w);
    assert next[r[0]] == r[1];
    var p', n' := prev[b := NBUF][next[NBUF] := b], next[b := next[NBUF]][NBUF := b];
    forall j | 0 <= j <= |w| + 1 ensures n'[r'[j]] == r'[j + 1] && p'[r'[j + 1]] == r'[j] {
      if j >= 2 {
        assert r'[j] == r[j - 1] && r'[j + 1] == r[j];
        assert next[r[j - 1]] == r[j] && prev[r[j]] == r[j - 1];
      }
    }
  }

  lemma FrontIsOrder(order: seq<nat>, b: nat, k: nat)
    requires IsOrder(order) && k < NBUF && order[k] == b && IsList([b] + Without(order, k))
    ensures IsOrder([b] + Without(order, k))
  {
    var o := [b] + Without(order, k);
    forall i: nat | i < NBUF ensures i in o {
      assert i in order;
      var m :| 0 <= m < NBUF && order[m] == i;
      assert i == if m == k then o[0] else if m < k then o[m + 1] else o[m];
    }
  }

  lemma StampFront(order: seq<nat>, stamp: seq<nat>, clock: nat, b: nat, k: nat)
    requires IsOrder(order) && |stamp| == NBUF && Stamped(order, stamp, clock) && k < NBUF && order[k] == b
    requires IsOrder([b] + Without(order, k))
    ensures Stamped([b] + Without(order, k), stamp[b := clock + 1], clock + 1)
  {
    var o := [b] + Without(order, k);
    assert forall j :: 0 <= j < NBUF ==> o[j] == if j == 0 then b else if j <= k then order[j - 1] else order[j];
  }
}
