/** lab2/kernel/virtio_disk.c: the driver over its descriptors and rings, next
    to a device that takes requests and completes them in any order. */
module VirtioDisk {
  import opened Blocks
  import opened Counting
  import opened VirtioQueue

  class Driver {
    const free: array<bool>
    const desc: array<Desc>
    const ops: array<Op>
    const info: array<Info>
    const avail: array<nat>
    const used: array<nat>
    /** b->disk and b->data of each buffer. */
    const waiting: array<bool>
    const data: array<Block>
    /** avail->idx, used->idx, and how far the device and the driver have looked. */
    var availIdx: nat
    var usedIdx: nat
    var deviceIdx: nat
    var seenIdx: nat
    var image: seq<Block>
    ghost var chain: map<nat, Chain>
    ghost var owner: map<nat, nat>
    ghost var reqs: map<nat, Req>
    ghost var queue: seq<nat>
    ghost var posted: seq<nat>

    ghost function Shared(): Queue
      reads this, free, desc, ops, info, avail, used, waiting
    {
      Queue(free[..], desc[..], ops[..], info[..], avail[..], availIdx, used[..], usedIdx, deviceIdx, seenIdx,
            waiting[..], chain, owner)
    }

    ghost function State(): Spec
      reads this, data
    {
      Spec(image, data[..], reqs, queue, posted)
    }

    ghost predicate Valid()
      reads this, free, desc, ops, info, avail, used, waiting, data
    {
      avail != used && free != waiting && Represents(Shared(), State())
    }

    constructor (image: seq<Block>, buffers: seq<Block>)
      requires |image| <= WORD_LIMIT / 2
      ensures Valid() && State() == Spec(image, buffers, map[], [], [])
      ensures fresh(free) && fresh(desc) && fresh(ops) && fresh(info) && fresh(avail) && fresh(used)
      ensures fresh(waiting) && fresh(data)
    {
      free := new bool[NUM](_ => true);
      desc := new Desc[NUM](_ => FREE_DESC);
      ops := new Op[NUM](_ => Op(false, 0));
      info := new Info[NUM](_ => Info(Null, 0));
      avail := new nat[NUM](_ => 0);
      used := new nat[NUM](_ => 0);
      waiting := new bool[|buffers|](_ => false);
      data := new Block[|buffers|](i requires 0 <= i < |buffers| => buffers[i]);
      availIdx, usedIdx, deviceIdx, seenIdx := 0, 0, 0, 0;
      this.image := image;
      chain, owner, reqs, queue, posted := map[], map[], map[], [], [];
      new;
      hide Represents;
      IdleOk(Shared(), State());
      assert data[..] == buffers;
    }

    lemma SizesOk()
      requires Valid()
      ensures free.Length == desc.Length == ops.Length == info.Length == avail.Length == used.Length == NUM
      ensures waiting.Length == data.Length && |image| <= WORD_LIMIT / 2 && avail != used && free != waiting
    {
    }

    lemma FreeOnes()
      requires Valid()
      ensures forall i :: 0 <= i < NUM && free[i] ==> desc[i] == FREE_DESC
    {
    }

    /** The lowest free descriptor, or -1. */
    method AllocDesc() returns (i: int)
      requires free.Length == NUM
      modifies free
      ensures -1 <= i < NUM
      ensures i < 0 ==> free[..] == old(free[..]) && forall k :: 0 <= k < NUM ==> !free[k]
      ensures i >= 0 ==> old(free[i]) && free[..] == old(free[..])[i := false]
      ensures i >= 0 ==> forall k :: 0 <= k < i ==> !free[k]
    {
      i := 0;
      while i < NUM
        invariant 0 <= i <= NUM && free[..] == old(free[..]) && forall k :: 0 <= k < i ==> !free[k]
      {
        if free[i] {
          free[i] := false;
          return;
        }
        i := i + 1;
      }
      return -1;
    }

    /** A descriptor out of range or free already is the panic. */
    method FreeDesc(i: nat)
      requires free.Length == desc.Length == NUM && i < NUM && !free[i]
      modifies free, desc
      ensures free[..] == old(free[..])[i := true] && desc[..] == old(desc[..])[i := FREE_DESC]
    {
      desc[i] := FREE_DESC;
      free[i] := true;
    }

    /** alloc3_desc: three descriptors, or none and nothing changes. */
    method Alloc3Desc(idx: array<int>) returns (ok: bool)
      requires free.Length == desc.Length == NUM && idx.Length == 3
      requires forall i :: 0 <= i < NUM && free[i] ==> desc[i] == FREE_DESC
      modifies free, desc, idx
      ensures desc[..] == old(desc[..])
      ensures !ok ==> free[..] == old(free[..]) && |FreeSet(free[..])| < 3
      ensures ok ==> Taken3(old(free[..]), free[..], idx[..], 3)
    {
      ghost var was := free[..];
      var i := 0;
      while i < 3
        invariant 0 <= i <= 3 && desc[..] == old(desc[..]) && Taken3(was, free[..], idx[..], i)
      {
        ghost var now, before := free[..], idx[..];
        idx[i] := AllocDesc();
        if idx[i] < 0 {
          assert idx[..i] == before[..i];
          FewFree(was, free[..], idx[..i]);
          GiveBack(idx, i, was);
          return false;
        }
        OneMore(was, now, before, i, idx[i]);
        assert idx[..] == before[i := idx[i]];
        i := i + 1;
      }
      return true;
    }

    /** alloc3_desc's clean-up. */
    method GiveBack(idx: array<int>, n: nat, ghost was: seq<bool>)
      requires free.Length == desc.Length == NUM && idx.Length == 3 && n <= 3
      requires Taken3(was, free[..], idx[..], n)
      requires forall i :: 0 <= i < NUM && was[i] ==> desc[i] == FREE_DESC
      modifies free, desc
      ensures free[..] == was && desc[..] == old(desc[..])
    {
      var j := 0;
      while j < n
        invariant 0 <= j <= n && desc[..] == old(desc[..])
        invariant forall k :: 0 <= k < NUM ==> free[k] == (was[k] && k !in idx[j..n])
      {
        assert idx[j] in idx[j..n];
        FreeDesc(idx[j]);
        j := j + 1;
      }
    }

    /** free_chain, on a chain that is all busy. */
    method FreeChain(first: nat, ghost c: Chain)
      requires free.Length == desc.Length == NUM && c.InRange() && c.Three() && first == c.head
      requires !free[c.head] && !free[c.data] && !free[c.status]
      requires desc[c.head].flags & NEXT != 0 && desc[c.head].next == c.data
      requires desc[c.data].flags & NEXT != 0 && desc[c.data].next == c.status
      requires desc[c.status].flags & NEXT == 0
      modifies free, desc
      ensures free[..] == old(free[..])[c.head := true][c.data := true][c.status := true]
      ensures desc[..] == old(desc[..])[c.head := FREE_DESC][c.data := FREE_DESC][c.status := FREE_DESC]
    {
      var i := first;
      ghost var k := 0;
      ghost var freeing, desc0, free0 := [c.head, c.data, c.status], desc[..], free[..];
      while true
        invariant 0 <= k < 3 && i == freeing[k]
        invariant forall m :: 0 <= m < NUM ==> desc[m] == if m in freeing[..k] then FREE_DESC else desc0[m]
        invariant forall m :: 0 <= m < NUM ==> free[m] == (m in freeing[..k] || free0[m])
        decreases 3 - k
      {
        var flags, next := desc[i].flags, desc[i].next;
        assert freeing[..k + 1] == freeing[..k] + [i];
        FreeDesc(i);
        assert forall m :: 0 <= m < NUM ==> desc[m] == if m in freeing[..k + 1] then FREE_DESC else desc0[m];
        assert forall m :: 0 <= m < NUM ==> free[m] == (m in freeing[..k + 1] || free0[m]);
        if flags & NEXT != 0 {
          i := next;
          k := k + 1;
        } else {
          break;
        }
      }
      assert k == 2 && freeing[..3] == freeing;
      assert free[..] == free0[c.head := true][c.data := true][c.status := true];
      assert desc[..] == desc0[c.head := FREE_DESC][c.data := FREE_DESC][c.status := FREE_DESC];
    }

    /** virtio_disk_rw up to the avail ring's slot; false means that it has to
        sleep until descriptors are free. */
    method Prepare(b: nat, write: bool, bn: nat) returns (ok: bool)
      requires Valid() && Unlocked(State()) && b < data.Length && bn < |image| && b !in reqs
      modifies this, free, desc, ops, info, avail, waiting
      ensures Valid() && State() == old(Step(State(), VirtioQueue.Prepare(b, write, bn)))
      ensures ok <==> old(|reqs.Keys|) < 2
      ensures ok ==> b in chain && chain[b].head < NUM
      ensures ok ==> var op := ops[chain[b].head]; op.sector * 512 == bn * BSIZE && op.out == write
    {
      hide Represents;
      SizesOk();
      FreeOnes();
      FreeCount(Shared(), State());
      var idx := new int[3];
      ghost var q, s := Shared(), State();
      ok := Alloc3Desc(idx);
      if ok {
        ThreeFree(q.free, free[..], idx[..]);
        Submit(Chain(idx[0], idx[1], idx[2]), b, write, bn, q, s);
        SizesOk();
        SectorsOf(Shared(), State(), b);
      } else {
        assert Shared() == q;
      }
    }

    /** virtio_disk_rw with its three descriptors allocated. */
    method Submit(c: Chain, b: nat, write: bool, bn: nat, ghost q: Queue, ghost s: Spec)
      requires Represents(q, s) && Enabled(s, VirtioQueue.Prepare(b, write, bn)) && s == State()
      requires avail != used && free != waiting && c.InRange() && c.Three()
      requires |q.free| == NUM && q.free[c.head] && q.free[c.data] && q.free[c.status]
      requires free[..] == q.free[c.head := false][c.data := false][c.status := false]
      requires Shared().(free := q.free) == q
      modifies this`chain, this`owner, this`reqs, desc, ops, info, avail, waiting
      ensures Valid() && State() == Step(s, VirtioQueue.Prepare(b, write, bn))
    {
      hide Represents;
      assert |q.disk| == |s.data| && |q.desc| == |q.ops| == |q.info| == |q.avail| == NUM by {
        RepresentsSizes(q, s);
      }
      PrepareOk(q, s, c, b, write, bn);
      Fill(c, b, write, bn);
      chain := chain[b := c];
      owner := owner[c.head := b][c.data := b][c.status := b];
      reqs := reqs[b := Req(write, bn, Prepared)];
      assert Shared() == Format(q, c, b, write, bn);
    }

    /** Formatting the three descriptors and the slot. */
    method Fill(c: Chain, b: nat, write: bool, bn: nat)
      requires free.Length == desc.Length == ops.Length == info.Length == avail.Length == NUM && c.InRange()
      requires b < waiting.Length && free != waiting && avail != used
      modifies desc, ops, info, avail, waiting
      ensures desc[..] == old(desc[..])[c.head := Desc(OpOf(c.head), 16, NEXT, c.data)]
                                       [c.data := Desc(DataOf(b), BSIZE, DataFlags(write), c.status)]
                                       [c.status := Desc(StatusOf(c.head), 1, WRITE, 0)]
      ensures ops[..] == old(ops[..])[c.head := Op(write, bn * 2 % WORD_LIMIT)]
      ensures info[..] == old(info[..])[c.head := Info(Buf(b), 0xff)]
      ensures waiting[..] == old(waiting[..])[b := true]
      ensures avail[..] == old(avail[..])[Slot(availIdx, 0) := c.head]
    {
      ops[c.head] := Op(write, bn * 2 % WORD_LIMIT);
      desc[c.head] := Desc(OpOf(c.head), 16, NEXT, c.data);
      var flags: bv16 := if write then 0 else WRITE;
      desc[c.data] := Desc(DataOf(b), BSIZE, flags | NEXT, c.status);
      desc[c.status] := Desc(StatusOf(c.head), 1, WRITE, 0);
      waiting[b] := true;
      info[c.head] := Info(Buf(b), 0xff);
      avail[availIdx % NUM] := c.head;
    }

    /** The device may look at the request from here on. */
    method Publish(ghost b: nat)
      requires Valid() && InPhase(reqs, b, Prepared)
      modifies this`availIdx, this`reqs, this`queue
      ensures Valid() && State() == old(Step(State(), VirtioQueue.Publish(b)))
    {
      hide Represents;
      PublishOk(Shared(), State(), b);
      availIdx := (availIdx + 1) % IDX_LIMIT;
      reqs := Moved(reqs, b, Queued);
      queue := queue + [b];
    }

    /** The device takes the next avail entry. */
    method DeviceTake() returns (head: nat)
      requires Valid() && queue != []
      modifies this`deviceIdx, this`reqs, this`queue
      ensures Valid() && State() == old(Step(State(), Take))
      ensures old(queue[0]) in chain && head == chain[old(queue[0])].head
    {
      hide Represents;
      SizesOk();
      TakeOk(Shared(), State());
      head := avail[deviceIdx % NUM];
      deviceIdx := (deviceIdx + 1) % IDX_LIMIT;
      reqs := Moved(reqs, queue[0], Taken);
      queue := queue[1..];
    }

    /** The device follows the descriptors that the driver wrote. */
    method Transfer(head: nat, ghost b: nat, ghost c: Chain, ghost write: bool, ghost bn: nat)
      requires desc.Length == ops.Length == info.Length == used.Length == NUM && c.InRange() && head == c.head
      requires Formatted(desc[..], ops[..], info[..], c, b, write, bn, false)
      requires b < data.Length && bn < |image| <= WORD_LIMIT / 2 && avail != used
      modifies this`image, this`usedIdx, data, info, used
      ensures image == if write then old(image)[bn := old(data[b])] else old(image)
      ensures data[..] == if write then old(data[..]) else old(data[..])[b := old(image)[bn]]
      ensures info[..] == old(info[..])[head := Info(Buf(b), 0)]
      ensures used[..] == old(used[..])[Slot(old(usedIdx), 0) := head]
      ensures usedIdx == (old(usedIdx) + 1) % IDX_LIMIT
    {
      WholeBlock(image, bn);
      FlagsMean();
      assert data[b][..BSIZE] == data[b] && data[b][BSIZE..] == [] && image[bn] + [] == image[bn];
      var header := desc[head];
      var body := desc[header.next];
      var last := desc[body.next];
      var op := ops[header.addr.d];
      var at := op.sector * SECTOR;
      var status := 1;
      if header.flags & WRITE == 0 && header.len == 16 && last.flags & WRITE != 0 && last.len == 1
         && op.out == (body.flags & WRITE == 0) && body.len <= BSIZE && at + body.len <= |image| * BSIZE {
        if op.out {
          image := PutBytes(image, at, data[body.addr.b][..body.len]);
        } else {
          data[body.addr.b] := DiskBytes(image, at, body.len) + data[body.addr.b][body.len..];
        }
        status := 0;
      }
      var target := last.addr.d;
      info[target] := info[target].(status := status);
      used[usedIdx % NUM] := head;
      usedIdx := (usedIdx + 1) % IDX_LIMIT;
    }

    /** The device carries out a request that it has taken, whichever it likes. */
    method DeviceComplete(head: nat, ghost b: nat)
      requires Valid() && InPhase(reqs, b, Taken) && b in chain && head == chain[b].head
      modifies this`image, this`usedIdx, this`reqs, this`posted, data, info, used
      ensures Valid() && State() == old(Step(State(), Complete(b)))
    {
      hide Represents;
      SizesOk();
      ChainMeans(Shared(), State(), b);
      CompleteOk(Shared(), State(), b);
      ghost var q := Shared();
      Transfer(head, b, chain[b], reqs[b].write, reqs[b].bn);
      reqs := Moved(reqs, b, Done);
      posted := posted + [b];
      assert Shared() == Posted(q, head, b);
    }

    /** One turn of virtio_disk_intr's loop; a status other than 0 is the panic. */
    method Acknowledge() returns (more: bool)
      requires Valid() && Unlocked(State())
      modifies this`seenIdx, this`reqs, this`posted, waiting
      ensures Valid() && State() == old(Step(State(), Ack))
      ensures more <==> old(posted) != []
    {
      hide Represents;
      SizesOk();
      AnyPosted();
      more := seenIdx != usedIdx;
      if more {
        ghost var b := posted[0];
        AckOk(Shared(), State());
        ChainMeans(Shared(), State(), b);
        var id := used[seenIdx % NUM];
        assert info[id].status == 0;
        waiting[info[id].b.b] := false;
        seenIdx := (seenIdx + 1) % IDX_LIMIT;
        reqs := Moved(reqs, b, Seen);
        posted := posted[1..];
      }
    }

    lemma AnyPosted()
      requires Valid()
      ensures seenIdx != usedIdx <==> posted != []
      ensures posted != [] ==> posted[0] in reqs && InPhase(reqs, posted[0], Done)
      ensures Distinct(posted) && forall b :: b in posted <==> InPhase(reqs, b, Done)
    {
      hide Represents;
      PostedIs(Shared(), State());
    }

    /** virtio_disk_intr: every completed request is seen, nothing else changes. */
    method Interrupt()
      requires Valid() && Unlocked(State())
      modifies this`seenIdx, this`reqs, this`posted, waiting
      ensures Valid() && posted == [] && reqs.Keys == old(reqs.Keys)
      ensures forall b :: b in reqs ==>
                reqs[b] == if old(reqs[b]).phase == Done then old(reqs[b]).(phase := Seen) else old(reqs[b])
    {
      hide Represents;
      AnyPosted();
      var more := true;
      while more
        invariant Valid() && reqs.Keys == old(reqs.Keys) && Unlocked(State())
        invariant forall b :: b in reqs ==>
                    reqs[b] == if old(reqs[b]).phase == Done && b !in posted then old(reqs[b]).(phase := Seen)
                               else old(reqs[b])
        invariant !more ==> posted == []
        decreases |posted|, more
      {
        AnyPosted();
        ghost var now := posted;
        if now != [] {
          Oldest(now);
        }
        more := Acknowledge();
      }
    }

    /** The end of virtio_disk_rw, once b->disk is clear. */
    method Finish(b: nat, head: nat)
      requires Valid() && Unlocked(State()) && b in reqs && b < waiting.Length && !waiting[b]
      requires b in chain && head == chain[b].head
      modifies this`reqs, this`chain, this`owner, free, desc, info
      ensures Valid() && State() == old(Step(State(), VirtioQueue.Finish(b)))
      ensures b !in reqs
    {
      hide Represents;
      SizesOk();
      NotWaiting(b);
      ChainMeans(Shared(), State(), b);
      ChainIsBusy(b);
      FinishOk(Shared(), State(), b);
      ghost var q, c := Shared(), chain[b];
      info[head] := info[head].(b := Null);
      FreeChain(head, c);
      chain, owner := chain - {b}, owner - {c.head, c.data, c.status};
      reqs := reqs - {b};
      assert Shared() == Release(q, b);
    }

    lemma NotWaiting(b: nat)
      requires Valid() && b in reqs && b < waiting.Length && !waiting[b]
      ensures InPhase(reqs, b, Seen)
    {
    }

    lemma ChainIsBusy(b: nat)
      requires Valid() && b in chain && chain[b].InRange()
      ensures !free[chain[b].head] && !free[chain[b].data] && !free[chain[b].status]
    {
      var c := chain[b];
      assert c.Has(c.head) && c.Has(c.data) && c.Has(c.status);
    }

    /** A process that holds the buffer's lock changes b->data. */
    method Store(b: nat, d: Block)
      requires Valid() && b < data.Length && b !in reqs
      modifies data
      ensures Valid() && State() == old(Step(State(), VirtioQueue.Store(b, d)))
    {
      hide Represents;
      StoreOk(Shared(), State(), b, d);
      data[b] := d;
    }
  }

  /** alloc3_desc after n turns. */
  ghost predicate Taken3(was: seq<bool>, now: seq<bool>, idx: seq<int>, n: nat) {
    && |was| == |now| == NUM && n <= 3 == |idx|
    && (forall j :: 0 <= j < n ==> 0 <= idx[j] < NUM && was[idx[j]])
    && (forall j, k :: 0 <= j < k < n ==> idx[j] != idx[k])
    && (forall k :: 0 <= k < NUM ==> now[k] == (was[k] && k !in idx[..n]))
  }

  lemma FewFree(was: seq<bool>, now: seq<bool>, idx: seq<int>)
    requires |was| == |now| == NUM && |idx| < 3
    requires forall k :: 0 <= k < NUM ==> !now[k] && now[k] == (was[k] && k !in idx)
    ensures |FreeSet(was)| < 3
  {
    var listed := set i: nat | i in idx;
    assert FreeSet(was) <= listed;
    SubsetSize(FreeSet(was), listed);
    ElementsFit(idx);
  }

  lemma {:induction false} ElementsFit(idx: seq<int>)
    ensures |(set i: nat | i in idx)| <= |idx|
  {
    if idx != [] {
      var rest := idx[1..];
      ElementsFit(rest);
      assert idx == [idx[0]] + rest;
      var more: set<nat> := if idx[0] >= 0 then {idx[0]} else {};
      assert (set i: nat | i in idx) == (set i: nat | i in rest) + more;
    }
  }

  lemma OneMore(was: seq<bool>, now: seq<bool>, idx: seq<int>, n: nat, i: int)
    requires Taken3(was, now, idx, n) && n < 3 && 0 <= i < NUM && now[i]
    ensures Taken3(was, now[i := false], idx[n := i], n + 1)
  {
    assert idx[n := i][..n + 1] == idx[..n] + [i];
  }

  lemma ThreeFree(was: seq<bool>, now: seq<bool>, idx: seq<int>)
    requires Taken3(was, now, idx, 3)
    ensures |FreeSet(was)| >= 3
    ensures was[idx[0]] && was[idx[1]] && was[idx[2]] && idx[0] != idx[1] && idx[0] != idx[2] && idx[1] != idx[2]
    ensures now == was[idx[0] := false][idx[1] := false][idx[2] := false]
  {
    var three: set<nat> := {idx[0], idx[1], idx[2]};
    assert |three| == 3;
    SubsetSize(three, FreeSet(was));
    assert idx[..3] == [idx[0], idx[1], idx[2]];
  }

  lemma FlagsMean()
    ensures NEXT & WRITE == 0 && WRITE & WRITE != 0
    ensures forall write: bool :: write == (DataFlags(write) & WRITE == 0)
  {
  }

  /** What the device sees: a row of bytes, block after block. */
  function DiskBytes(image: seq<Block>, at: nat, len: nat): seq<byte>
    requires at + len <= |image| * BSIZE
  {
    seq(len, k requires 0 <= k < len => image[(at + k) / BSIZE][(at + k) % BSIZE])
  }

  function PutBytes(image: seq<Block>, at: nat, d: seq<byte>): seq<Block>
    requires at + |d| <= |image| * BSIZE
  {
    seq(|image|, i requires 0 <= i < |image| => PutInBlock(image[i], i * BSIZE, at, d))
  }

  /** The part of the bytes at `at` that falls in the block that begins at `start`. */
  function PutInBlock(b: Block, start: nat, at: nat, d: seq<byte>): Block {
    seq(BSIZE, j requires 0 <= j < BSIZE => if at <= start + j < at + |d| then d[start + j - at] else b[j])
  }

  lemma WholeBlock(image: seq<Block>, bn: nat)
    requires bn < |image|
    ensures bn * BSIZE + BSIZE <= |image| * BSIZE && DiskBytes(image, bn * BSIZE, BSIZE) == image[bn]
    ensures forall d: Block :: PutBytes(image, bn * BSIZE, d) == image[bn := d]
  {
    var got := DiskBytes(image, bn * BSIZE, BSIZE);
    forall k: nat | k < BSIZE ensures got[k] == image[bn][k] {
      assert (bn * BSIZE + k) / BSIZE == bn && (bn * BSIZE + k) % BSIZE == k;
    }
    forall d: Block ensures PutBytes(image, bn * BSIZE, d) == image[bn := d] {
      forall i: nat | i < |image| ensures PutInBlock(image[i], i * BSIZE, bn * BSIZE, d) == image[bn := d][i] {
        assert i < bn ==> (i + 1) * BSIZE <= bn * BSIZE;
        assert i > bn ==> i * BSIZE >= (bn + 1) * BSIZE;
      }
    }
  }

  lemma IdleOk(q: Queue, s: Spec)
    requires Sizes(q, s) && q.chain == map[] && q.owner == map[]
    requires s.reqs == map[] && s.queue == [] && s.posted == []
    requires q.availIdx == q.usedIdx == q.deviceIdx == q.seenIdx == 0
    requires forall i :: 0 <= i < NUM ==> q.free[i] && q.desc[i] == FREE_DESC
    requires forall b :: 0 <= b < |q.disk| ==> !q.disk[b]
    ensures Represents(q, s)
  {
    hide Formatted;
  }
}
