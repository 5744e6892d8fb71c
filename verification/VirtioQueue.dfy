/** The requests of lab2/kernel/virtio_disk.c as values: what the driver and
    the device do to a disk, to the buffers and to the requests in flight, and
    how the split virtqueue (virtio 1.1, section 2.6) represents them. */
module VirtioQueue {
  import opened Blocks

  const NUM: nat := 8
  const NEXT: bv16 := 1
  const WRITE: bv16 := 2

  /** Prepared: the driver holds vdisk_lock and has not raised avail->idx yet;
      Queued: in the avail ring; Taken: the device works on it; Done: in the
      used ring; Seen: the interrupt handler has cleared b->disk. */
  datatype Phase = Prepared | Queued | Taken | Done | Seen

  datatype Req = Req(write: bool, bn: nat, phase: Phase)

  /** The disk, the buffers' contents, the request on each buffer in flight,
      and the buffers in the avail and in the used ring, oldest first. */
  datatype Spec = Spec(image: seq<Block>, data: seq<Block>, reqs: map<nat, Req>, queue: seq<nat>, posted: seq<nat>)

  datatype Event =
    | Prepare(b: nat, write: bool, bn: nat)
    | Publish(b: nat)
    | Take
    | Complete(b: nat)
    | Ack
    | Finish(b: nat)
    | Store(b: nat, d: Block)

  predicate InPhase(reqs: map<nat, Req>, b: nat, phase: Phase) {
    b in reqs && reqs[b].phase == phase
  }

  predicate Unlocked(s: Spec) {
    forall b :: b in s.reqs ==> s.reqs[b].phase != Prepared
  }

  /** Whether the event can happen; the driver's need vdisk_lock. */
  predicate Enabled(s: Spec, e: Event) {
    match e
    case Prepare(b, _, bn) => Unlocked(s) && b < |s.data| && bn < |s.image| && b !in s.reqs && |s.reqs.Keys| < 2
    case Publish(b) => InPhase(s.reqs, b, Prepared)
    case Take => s.queue != []
    case Complete(b) => InPhase(s.reqs, b, Taken) && b < |s.data| && s.reqs[b].bn < |s.image|
    case Ack => Unlocked(s) && s.posted != [] && s.posted[0] in s.reqs
    case Finish(b) => Unlocked(s) && InPhase(s.reqs, b, Seen)
    case Store(b, _) => b < |s.data| && b !in s.reqs
  }

  function Moved(reqs: map<nat, Req>, b: nat, phase: Phase): (r: map<nat, Req>)
    ensures r.Keys == reqs.Keys
    ensures forall a :: a in reqs ==> r[a] == if a == b then reqs[a].(phase := phase) else reqs[a]
  {
    if b in reqs then reqs[b := reqs[b].(phase := phase)] else reqs
  }

  function Step(s: Spec, e: Event): Spec {
    if !Enabled(s, e) then s
    else match e
      case Prepare(b, write, bn) => s.(reqs := s.reqs[b := Req(write, bn, Prepared)])
      case Publish(b) => s.(reqs := Moved(s.reqs, b, Queued), queue := s.queue + [b])
      case Take => s.(reqs := Moved(s.reqs, s.queue[0], Taken), queue := s.queue[1..])
      case Complete(b) =>
        var r := s.reqs[b];
        s.(image := if r.write then s.image[r.bn := s.data[b]] else s.image,
           data := if r.write then s.data else s.data[b := s.image[r.bn]],
           reqs := Moved(s.reqs, b, Done), posted := s.posted + [b])
      case Ack => s.(reqs := Moved(s.reqs, s.posted[0], Seen), posted := s.posted[1..])
      case Finish(b) => s.(reqs := s.reqs - {b})
      case Store(b, d) => s.(data := s.data[b := d])
  }

  function Run(s: Spec, run: seq<Event>): Spec {
    if run == [] then s else Step(Run(s, run[..|run| - 1]), run[|run| - 1])
  }

  /** How many of the run's events that are like e could happen. */
  function Count(s: Spec, run: seq<Event>, like: Event -> bool): nat {
    if run == [] then 0
    else
      var t, e := Run(s, run[..|run| - 1]), run[|run| - 1];
      Count(s, run[..|run| - 1], like) + if like(e) && Enabled(t, e) then 1 else 0
  }

  function Bit(c: bool): nat {
    if c then 1 else 0
  }

  /** One event moves a buffer's request by at most one phase. */
  lemma StepPhase(s: Spec, e: Event, b: nat)
    requires RingsMatch(s)
    ensures var t := Step(s, e);
            && Bit(b in t.reqs) + Bit(e == Finish(b) && Enabled(s, e))
               == Bit(b in s.reqs) + Bit(e.Prepare? && e.b == b && Enabled(s, e))
            && Bit(InPhase(t.reqs, b, Done) || InPhase(t.reqs, b, Seen)) + Bit(e == Finish(b) && Enabled(s, e))
               == Bit(InPhase(s.reqs, b, Done) || InPhase(s.reqs, b, Seen)) + Bit(e == Complete(b) && Enabled(s, e))
  {
    assert e.Take? && Enabled(s, e) ==> InPhase(s.reqs, s.queue[0], Queued);
    assert e.Ack? && Enabled(s, e) ==> InPhase(s.reqs, s.posted[0], Done);
  }

  /** In every run, every finished request on a buffer was completed by the
      device exactly once, and an unfinished one at most once. */
  lemma {:induction false} CompletedOnce(s: Spec, run: seq<Event>, b: nat)
    requires s.reqs == map[] && s.queue == [] && s.posted == []
    ensures var t := Run(s, run);
            var accepted := Count(s, run, (e: Event) => e.Prepare? && e.b == b);
            var completed := Count(s, run, (e: Event) => e == Complete(b));
            var finished := Count(s, run, (e: Event) => e == Finish(b));
            && accepted == finished + Bit(b in t.reqs)
            && completed == finished + Bit(InPhase(t.reqs, b, Done) || InPhase(t.reqs, b, Seen))
  {
    hide Step, Enabled, RingsMatch;
    if run != [] {
      CompletedOnce(s, run[..|run| - 1], b);
      QueuesMatch(s, run[..|run| - 1]);
      StepPhase(Run(s, run[..|run| - 1]), run[|run| - 1], b);
    }
  }

  /** The rings hold the requests of their phase, each once. */
  ghost predicate RingsMatch(s: Spec) {
    && (forall b :: b in s.queue <==> InPhase(s.reqs, b, Queued))
    && (forall b :: b in s.posted <==> InPhase(s.reqs, b, Done))
    && Distinct(s.queue) && Distinct(s.posted)
  }

  ghost predicate Distinct(bs: seq<nat>) {
    forall j, k :: 0 <= j < k < |bs| ==> bs[j] != bs[k]
  }

  lemma Oldest(bs: seq<nat>)
    requires bs != [] && Distinct(bs)
    ensures Distinct(bs[1..]) && bs[0] in bs && bs[0] !in bs[1..] && forall b :: b in bs <==> b == bs[0] || b in bs[1..]
  {
    assert bs == [bs[0]] + bs[1..];
  }

  lemma StepRings(s: Spec, e: Event)
    requires RingsMatch(s)
    ensures RingsMatch(Step(s, e))
  {
    if Enabled(s, e) {
      match e
      case Publish(b) => assert b !in s.queue && Distinct(s.queue + [b]);
      case Take => Oldest(s.queue);
      case Complete(b) => assert b !in s.posted && Distinct(s.posted + [b]);
      case Ack => Oldest(s.posted);
      case _ =>
    }
  }

  lemma {:induction false} QueuesMatch(s: Spec, run: seq<Event>)
    requires s.reqs == map[] && s.queue == [] && s.posted == []
    ensures RingsMatch(Run(s, run))
  {
    if run != [] {
      QueuesMatch(s, run[..|run| - 1]);
      StepRings(Run(s, run[..|run| - 1]), run[|run| - 1]);
    }
  }

  /** A buffer changes only when its own read completes, or by its owner while
      it is not in flight; a disk block only when a write to it completes, and
      then it gets that buffer's contents. */
  lemma OwnBufferOnly(s: Spec, e: Event)
    ensures var t := Step(s, e);
            && |t.data| == |s.data| && |t.image| == |s.image|
            && (forall b: nat :: b < |s.data| && t.data[b] != s.data[b] ==>
                  || (e.Store? && e.b == b && b !in s.reqs)
                  || (e == Complete(b) && InPhase(s.reqs, b, Taken) && !s.reqs[b].write
                      && t.data[b] == s.image[s.reqs[b].bn]))
            && (forall bn: nat :: bn < |s.image| && t.image[bn] != s.image[bn] ==>
                  e.Complete? && InPhase(s.reqs, e.b, Taken) && s.reqs[e.b].write && s.reqs[e.b].bn == bn
                  && t.image[bn] == s.data[e.b])
  {
  }

  /** A request whose transfer the device has still to do. */
  predicate Underway(s: Spec, b: nat) {
    b in s.reqs && s.reqs[b].phase != Done && s.reqs[b].phase != Seen
  }

  lemma StepUnderway(s: Spec, e: Event, b: nat)
    requires RingsMatch(s) && Underway(s, b) && b < |s.data| && e != Complete(b)
    ensures var t := Step(s, e);
            && Underway(t, b) && t.reqs[b].write == s.reqs[b].write && t.reqs[b].bn == s.reqs[b].bn
            && |t.data| == |s.data| && |t.image| == |s.image| && t.data[b] == s.data[b]
  {
    assert e.Ack? && Enabled(s, e) ==> s.posted[0] in s.posted;
    assert e.Take? && Enabled(s, e) ==> s.queue[0] in s.queue;
    hide Distinct;
  }

  lemma StepDone(s: Spec, e: Event, b: nat)
    requires RingsMatch(s) && b in s.reqs && !Underway(s, b) && b < |s.data| && e != Finish(b)
    ensures var t := Step(s, e);
            b in t.reqs && !Underway(t, b) && |t.data| == |s.data| && t.data[b] == s.data[b]
  {
    assert e.Take? && Enabled(s, e) ==> s.queue[0] in s.queue;
    hide Distinct;
  }

  lemma {:induction false} RunRings(s: Spec, run: seq<Event>)
    requires RingsMatch(s)
    ensures RingsMatch(Run(s, run))
  {
    hide RingsMatch, Step;
    if run != [] {
      RunRings(s, run[..|run| - 1]);
      StepRings(Run(s, run[..|run| - 1]), run[|run| - 1]);
    }
  }

  /** Until the device completes it, a request stays what it is, and nobody
      changes its buffer. */
  lemma {:induction false} BufferKept(s: Spec, run: seq<Event>, b: nat)
    requires RingsMatch(s) && Underway(s, b) && b < |s.data| && Complete(b) !in run
    ensures var t := Run(s, run);
            && Underway(t, b) && t.reqs[b].write == s.reqs[b].write && t.reqs[b].bn == s.reqs[b].bn
            && |t.data| == |s.data| && |t.image| == |s.image| && t.data[b] == s.data[b]
  {
    hide RingsMatch, Step, Underway;
    if run != [] {
      var k := |run| - 1;
      assert run[k] in run && forall e :: e in run[..k] ==> e in run;
      BufferKept(s, run[..k], b);
      RunRings(s, run[..k]);
      StepUnderway(Run(s, run[..k]), run[k], b);
    }
  }

  /** Once it has, nobody changes the buffer before its owner is through. */
  lemma {:induction false} ResultKept(s: Spec, run: seq<Event>, b: nat)
    requires RingsMatch(s) && b in s.reqs && !Underway(s, b) && b < |s.data| && Finish(b) !in run
    ensures var t := Run(s, run);
            b in t.reqs && !Underway(t, b) && |t.data| == |s.data| && t.data[b] == s.data[b]
  {
    hide RingsMatch, Step, Underway;
    if run != [] {
      var k := |run| - 1;
      assert run[k] in run && forall e :: e in run[..k] ==> e in run;
      ResultKept(s, run[..k], b);
      RunRings(s, run[..k]);
      StepDone(Run(s, run[..k]), run[k], b);
    }
  }

  /** A whole request, among any other events: a write puts on its disk block
      what the buffer held when the request was made, and a read leaves in the
      buffer, for its owner, what was on the block when the device read it. */
  lemma TransferIsRight(s: Spec, run: seq<Event>, more: seq<Event>, b: nat)
    requires RingsMatch(s) && Underway(s, b) && b < |s.data| && s.reqs[b].bn < |s.image|
    requires Complete(b) !in run && Enabled(Run(s, run), Complete(b)) && Finish(b) !in more
    ensures var t := Run(s, run);
            var u := Step(t, Complete(b));
            var bn := s.reqs[b].bn;
            && |u.image| == |t.image| == |s.image| && |Run(u, more).data| == |s.data|
            && (forall c: nat :: c < |s.image| && (c != bn || !s.reqs[b].write) ==> u.image[c] == t.image[c])
            && (s.reqs[b].write ==> u.image[bn] == Run(u, more).data[b] == s.data[b])
            && (!s.reqs[b].write ==> Run(u, more).data[b] == t.image[bn])
  {
    hide Run, RingsMatch;
    var t := Run(s, run);
    BufferKept(s, run, b);
    RunRings(s, run);
    StepRings(t, Complete(b));
    ResultKept(Step(t, Complete(b)), more, b);
  }

  function Times(e: Event, n: nat): (r: seq<Event>)
    ensures |r| == n && forall k :: 0 <= k < n ==> r[k] == e
  {
    seq(n, _ => e)
  }

  lemma OnceMore(s: Spec, e: Event, n: nat)
    ensures Run(s, Times(e, n + 1)) == Step(Run(s, Times(e, n)), e)
  {
    assert Times(e, n + 1)[..n] == Times(e, n);
  }

  /** Nothing but phases differs. */
  ghost predicate SameRequests(s: Spec, t: Spec) {
    && t.image == s.image && t.data == s.data && t.reqs.Keys == s.reqs.Keys
    && forall b :: b in s.reqs ==> t.reqs[b].write == s.reqs[b].write && t.reqs[b].bn == s.reqs[b].bn
  }

  /** The device has taken the first n requests of its queue. */
  ghost predicate HasTaken(s: Spec, t: Spec, n: nat)
    requires n <= |s.queue|
  {
    && SameRequests(s, t) && t.queue == s.queue[n..] && t.posted == s.posted
    && forall b :: b in s.reqs ==> t.reqs[b].phase == if b in s.queue[..n] then Taken else s.reqs[b].phase
  }

  lemma {:induction false} Takes(s: Spec, n: nat)
    requires RingsMatch(s) && n <= |s.queue|
    ensures HasTaken(s, Run(s, Times(Take, n)), n)
  {
    if n > 0 {
      Takes(s, n - 1);
      OnceMore(s, Take, n - 1);
      hide Run, Step, HasTaken;
      TakeOne(s, Run(s, Times(Take, n - 1)), n);
    }
  }

  lemma TakeOne(s: Spec, t: Spec, n: nat)
    requires 0 < n <= |s.queue| && HasTaken(s, t, n - 1)
    ensures HasTaken(s, Step(t, Take), n)
  {
    assert s.queue[..n] == s.queue[..n - 1] + [s.queue[n - 1]];
    assert t.queue[0] == s.queue[n - 1] && t.queue[1..] == s.queue[n..];
  }

  /** The handler has seen the first n completions. */
  ghost predicate Acked(s: Spec, t: Spec, n: nat)
    requires n <= |s.posted|
  {
    && SameRequests(s, t) && t.queue == s.queue && t.posted == s.posted[n..] && Unlocked(t)
    && forall b :: b in s.reqs ==> t.reqs[b].phase == if b in s.posted[..n] then Seen else s.reqs[b].phase
  }

  lemma {:induction false} Acks(s: Spec, n: nat)
    requires RingsMatch(s) && Unlocked(s) && n <= |s.posted|
    ensures Acked(s, Run(s, Times(Ack, n)), n)
  {
    if n > 0 {
      Acks(s, n - 1);
      OnceMore(s, Ack, n - 1);
      assert s.posted[n - 1] in s.posted;
      hide Run, Step, Acked;
      AckOne(s, Run(s, Times(Ack, n - 1)), n);
    }
  }

  lemma AckOne(s: Spec, t: Spec, n: nat)
    requires 0 < n <= |s.posted| && s.posted[n - 1] in s.reqs && Acked(s, t, n - 1)
    ensures Acked(s, Step(t, Ack), n)
  {
    assert s.posted[..n] == s.posted[..n - 1] + [s.posted[n - 1]];
    assert t.posted[0] == s.posted[n - 1] && t.posted[1..] == s.posted[n..];
  }

  /** No request is stuck: one that is accepted can be published, taken after
      those before it, completed, seen, and given back; its transfer is done
      then, and all other requests are still there. */
  lemma Served(s: Spec, b: nat, write: bool, bn: nat)
    requires RingsMatch(s) && Unlocked(s) && b < |s.data| && bn < |s.image| && b !in s.reqs && |s.reqs.Keys| < 2
    ensures var published := Step(Step(s, Prepare(b, write, bn)), Publish(b));
            var taken := Run(published, Times(Take, |s.queue| + 1));
            var completed := Step(taken, Complete(b));
            var seen := Run(completed, Times(Ack, |s.posted| + 1));
            var t := Step(seen, Finish(b));
            && t.image == (if write then s.image[bn := s.data[b]] else s.image)
            && t.data == (if write then s.data else s.data[b := s.image[bn]])
            && t.queue == t.posted == [] && t.reqs.Keys == s.reqs.Keys
            && forall a :: a in s.reqs ==> t.reqs[a].write == s.reqs[a].write && t.reqs[a].bn == s.reqs[a].bn
  {
    hide Run, Step;
    var prepared := Step(s, Prepare(b, write, bn));
    var published := Step(prepared, Publish(b));
    StepRings(s, Prepare(b, write, bn));
    StepRings(prepared, Publish(b));
    PublishedIs(s, b, write, bn);
    Takes(published, |s.queue| + 1);
    RunRings(published, Times(Take, |s.queue| + 1));
    var taken := Run(published, Times(Take, |s.queue| + 1));
    assert published.queue[|s.queue|] == b && published.queue[..|s.queue| + 1] == published.queue;
    var completed := Step(taken, Complete(b));
    CompletedIs(taken, b);
    StepRings(taken, Complete(b));
    Acks(completed, |s.posted| + 1);
    assert completed.posted[|s.posted|] == b && completed.posted[..|s.posted| + 1] == completed.posted;
    FinishedIs(Run(completed, Times(Ack, |s.posted| + 1)), b);
  }

  lemma PublishedIs(s: Spec, b: nat, write: bool, bn: nat)
    requires Enabled(s, Prepare(b, write, bn))
    ensures var t := Step(Step(s, Prepare(b, write, bn)), Publish(b));
            && t.image == s.image && t.data == s.data && t.queue == s.queue + [b] && t.posted == s.posted
            && t.reqs == s.reqs[b := Req(write, bn, Queued)] && Unlocked(t)
  {
  }

  lemma CompletedIs(s: Spec, b: nat)
    requires InPhase(s.reqs, b, Taken) && b < |s.data| && s.reqs[b].bn < |s.image|
    ensures var t, r := Step(s, Complete(b)), s.reqs[b];
            && t.image == (if r.write then s.image[r.bn := s.data[b]] else s.image)
            && t.data == (if r.write then s.data else s.data[b := s.image[r.bn]])
            && t.queue == s.queue && t.posted == s.posted + [b] && t.reqs == s.reqs[b := r.(phase := Done)]
  {
  }

  lemma FinishedIs(s: Spec, b: nat)
    requires Unlocked(s) && InPhase(s.reqs, b, Seen)
    ensures Step(s, Finish(b)) == s.(reqs := s.reqs - {b})
  {
  }

  datatype Addr = Nil | OpOf(d: nat) | DataOf(b: nat) | StatusOf(d: nat)

  datatype Desc = Desc(addr: Addr, len: nat, flags: bv16, next: nat)

  const FREE_DESC := Desc(Nil, 0, 0, 0)

  /** struct virtio_blk_req */
  datatype Op = Op(out: bool, sector: nat)

  datatype Ptr = Null | Buf(b: nat)

  datatype Info = Info(b: Ptr, status: nat)

  /** The descriptors of a request: header, data and status. */
  datatype Chain = Chain(head: nat, data: nat, status: nat)
  {
    ghost predicate Has(i: nat) {
      i == head || i == data || i == status
    }

    predicate Apart(c: Chain) {
      head !in {c.head, c.data, c.status} && data !in {c.head, c.data, c.status} && status !in {c.head, c.data, c.status}
    }

    predicate InRange() {
      head < NUM && data < NUM && status < NUM
    }

    ghost predicate Three() {
      head != data && head != status && data != status
    }
  }

  /** The memory that driver and device share, with the chain of each request
      and the request that each busy descriptor belongs to. */
  datatype Queue = Queue(free: seq<bool>, desc: seq<Desc>, ops: seq<Op>, info: seq<Info>,
                         avail: seq<nat>, availIdx: nat, used: seq<nat>, usedIdx: nat,
                         deviceIdx: nat, seenIdx: nat, disk: seq<bool>,
                         chain: map<nat, Chain>, owner: map<nat, nat>)

  const IDX_LIMIT: nat := 0x1_0000

  /** The device's unit, whatever the blocks of the file system are. */
  const SECTOR: nat := 512

  function DataFlags(write: bool): bv16 {
    if write then NEXT else WRITE | NEXT
  }

  ghost predicate Sizes(q: Queue, s: Spec) {
    && |q.free| == |q.desc| == |q.ops| == |q.info| == |q.avail| == |q.used| == NUM
    && |q.disk| == |s.data| && |s.image| <= WORD_LIMIT / 2
  }

  /** The chain of a request on b is formatted. */
  ghost predicate Formatted(desc: seq<Desc>, ops: seq<Op>, info: seq<Info>, c: Chain, b: nat, write: bool, bn: nat,
                            done: bool)
    requires |desc| == |ops| == |info| == NUM && c.InRange()
  {
    && desc[c.head] == Desc(OpOf(c.head), 16, NEXT, c.data)
    && desc[c.data] == Desc(DataOf(b), BSIZE, DataFlags(write), c.status)
    && desc[c.status] == Desc(StatusOf(c.head), 1, WRITE, 0)
    && ops[c.head].out == write && ops[c.head].sector * SECTOR == bn * BSIZE
    && info[c.head] == Info(Buf(b), if done then 0 else 0xff)
  }

  predicate IsDone(r: Req) {
    r.phase.Done? || r.phase.Seen?
  }

  ghost predicate ChainOk(q: Queue, s: Spec, b: nat)
    requires Sizes(q, s)
  {
    && b in q.chain && b in s.reqs && b < |s.data| && s.reqs[b].bn < |s.image| && q.chain[b].InRange()
    && Formatted(q.desc, q.ops, q.info, q.chain[b], b, s.reqs[b].write, s.reqs[b].bn, IsDone(s.reqs[b]))
  }

  /** The busy descriptors split into disjoint chains of three. */
  ghost predicate Split(chain: map<nat, Chain>, owner: map<nat, nat>) {
    && (forall b :: b in chain ==> chain[b].Three() && forall i :: chain[b].Has(i) ==> i in owner && owner[i] == b)
    && (forall i :: i in owner ==> owner[i] in chain && chain[owner[i]].Has(i))
  }

  ghost predicate FreeOk(free: seq<bool>, desc: seq<Desc>, owner: map<nat, nat>)
    requires |free| == |desc| == NUM
  {
    && (forall i :: i in owner ==> i < NUM)
    && (forall i: nat :: i < NUM ==> free[i] == (i !in owner) && (free[i] ==> desc[i] == FREE_DESC))
  }

  ghost predicate Chains(q: Queue, s: Spec)
    requires Sizes(q, s)
  {
    && q.chain.Keys == s.reqs.Keys && Split(q.chain, q.owner) && FreeOk(q.free, q.desc, q.owner)
    && (forall b :: b in s.reqs ==> ChainOk(q, s, b))
  }

  /** The slot of the k-th entry after idx. */
  function Slot(idx: nat, k: nat): (r: nat)
    ensures r < NUM
  {
    (idx + k) % NUM
  }

  /** Ring slots from idx on hold the heads of these requests' chains. */
  ghost predicate RingHolds(ring: seq<nat>, idx: nat, bs: seq<nat>, chain: map<nat, Chain>)
    requires |ring| == NUM
  {
    forall k :: 0 <= k < |bs| ==> bs[k] in chain && ring[Slot(idx, k)] == chain[bs[k]].head
  }

  /** idx, the other side's index and the entries between them. */
  ghost predicate IndexOk(ring: seq<nat>, from: nat, idx: nat, bs: seq<nat>, chain: map<nat, Chain>) {
    |ring| == NUM && from < IDX_LIMIT && idx == (from + |bs|) % IDX_LIMIT && RingHolds(ring, from, bs, chain)
  }

  /** The one request that is not published yet has its slot. */
  ghost predicate PreparedOk(avail: seq<nat>, idx: nat, reqs: map<nat, Req>, chain: map<nat, Chain>) {
    && |avail| == NUM
    && (forall a, b :: InPhase(reqs, a, Prepared) && InPhase(reqs, b, Prepared) ==> a == b)
    && (forall b :: InPhase(reqs, b, Prepared) ==> b in chain && avail[Slot(idx, 0)] == chain[b].head)
  }

  /** b->disk */
  ghost predicate FlagsOk(disk: seq<bool>, reqs: map<nat, Req>) {
    forall b: nat :: b < |disk| ==> disk[b] == (b in reqs && reqs[b].phase != Seen)
  }

  ghost predicate Rings(q: Queue, s: Spec)
    requires Sizes(q, s)
  {
    && IndexOk(q.avail, q.deviceIdx, q.availIdx, s.queue, q.chain)
    && IndexOk(q.used, q.seenIdx, q.usedIdx, s.posted, q.chain)
    && PreparedOk(q.avail, q.availIdx, s.reqs, q.chain) && FlagsOk(q.disk, s.reqs)
  }

  /** The queue represents these requests. */
  ghost predicate Represents(q: Queue, s: Spec) {
    Sizes(q, s) && Chains(q, s) && Rings(q, s) && RingsMatch(s)
  }

  lemma RepresentsSizes(q: Queue, s: Spec)
    requires Represents(q, s)
    ensures Sizes(q, s)
  {
  }

  ghost function FreeSet(free: seq<bool>): set<nat> {
    set i | 0 <= i < |free| && free[i]
  }

  lemma WithoutChain(chain: map<nat, Chain>, owner: map<nat, nat>, b: nat)
    requires Split(chain, owner) && b in chain
    ensures var three := {chain[b].head, chain[b].data, chain[b].status};
            three <= owner.Keys && |three| == 3 && Split(chain - {b}, owner - three)
  {
    assert chain[b].Has(chain[b].head) && chain[b].Has(chain[b].data) && chain[b].Has(chain[b].status);
  }

  lemma {:induction false} OwnerSize(chain: map<nat, Chain>, owner: map<nat, nat>)
    requires Split(chain, owner)
    ensures |owner.Keys| == 3 * |chain.Keys|
    decreases |chain.Keys|
  {
    hide Split;
    if chain.Keys == {} {
      NoChains(chain, owner);
    } else {
      var b :| b in chain.Keys;
      var three := {chain[b].head, chain[b].data, chain[b].status};
      WithoutChain(chain, owner, b);
      assert (owner - three).Keys == owner.Keys - three && (chain - {b}).Keys == chain.Keys - {b};
      OwnerSize(chain - {b}, owner - three);
    }
  }

  lemma NoChains(chain: map<nat, Chain>, owner: map<nat, nat>)
    requires Split(chain, owner) && chain.Keys == {}
    ensures owner.Keys == {}
  {
    assert forall i :: i in owner ==> owner[i] in chain.Keys;
  }

  ghost function Below(n: nat): (r: set<nat>)
    ensures |r| == n && forall i: nat :: i in r <==> i < n
  {
    if n == 0 then {} else Below(n - 1) + {n - 1}
  }

  lemma FreeAndOwned(free: seq<bool>, owned: set<nat>)
    requires forall i :: i in owned ==> i < |free|
    requires forall i: nat :: i < |free| ==> free[i] == (i !in owned)
    ensures |FreeSet(free)| + |owned| == |free|
  {
    assert owned + FreeSet(free) == Below(|free|) && owned !! FreeSet(free);
  }

  lemma FreeMeans(q: Queue, s: Spec)
    requires Represents(q, s)
    ensures Split(q.chain, q.owner)
    ensures forall i :: i in q.owner ==> i < NUM
    ensures forall i: nat :: i < NUM ==> q.free[i] == (i !in q.owner)
  {
    hide ChainOk, Rings, RingsMatch, Split;
  }

  /** Busy descriptors come in threes: with two requests two are left. */
  lemma FreeCount(q: Queue, s: Spec)
    requires Represents(q, s)
    ensures |FreeSet(q.free)| == NUM - 3 * |s.reqs.Keys| && |s.reqs.Keys| <= 2
  {
    hide ChainOk, Rings, RingsMatch, Split, FreeOk;
    FreeMeans(q, s);
    OwnerSize(q.chain, q.owner);
    FreeAndOwned(q.free, q.owner.Keys);
  }

  lemma {:induction false} ListFits(bs: seq<nat>, keys: set<nat>)
    requires Distinct(bs) && forall b :: b in bs ==> b in keys
    ensures |bs| <= |keys|
  {
    if bs != [] {
      Oldest(bs);
      ListFits(bs[1..], keys - {bs[0]});
    }
  }

  /** At most two requests are in a ring, so that no slot is used twice. */
  lemma RingsShort(q: Queue, s: Spec)
    requires Represents(q, s)
    ensures |s.queue| <= 2 && |s.posted| <= 2
  {
    hide ChainOk, Rings, Split;
    FreeCount(q, s);
    ListFits(s.queue, s.reqs.Keys);
    ListFits(s.posted, s.reqs.Keys);
  }

  /** The used ring is empty exactly when the two indices are equal. */
  lemma PostedIs(q: Queue, s: Spec)
    requires Represents(q, s)
    ensures q.seenIdx != q.usedIdx <==> s.posted != []
    ensures s.posted != [] ==> s.posted[0] in s.reqs && InPhase(s.reqs, s.posted[0], Done)
    ensures Distinct(s.posted) && forall b :: b in s.posted <==> InPhase(s.reqs, b, Done)
  {
    hide Represents, Distinct, IndexMoved;
    RingsShort(q, s);
    UsedIndex(q, s);
    IndexMoves(q.seenIdx, q.usedIdx, |s.posted|);
    assert s.posted != [] ==> s.posted[0] in s.posted;
  }

  ghost predicate IndexMoved(from: nat, idx: nat, n: nat) {
    from < IDX_LIMIT && idx == (from + n) % IDX_LIMIT
  }

  lemma UsedIndex(q: Queue, s: Spec)
    requires Represents(q, s)
    ensures RingsMatch(s) && IndexMoved(q.seenIdx, q.usedIdx, |s.posted|)
  {
    hide Chains, PreparedOk, FlagsOk, RingHolds, RingsMatch;
  }

  lemma IndexMoves(from: nat, idx: nat, n: nat)
    requires IndexMoved(from, idx, n) && n <= NUM
    ensures idx != from <==> n > 0
  {
    assert (from + n) % IDX_LIMIT == if from + n < IDX_LIMIT then from + n else from + n - IDX_LIMIT;
  }

  /** NUM divides the range of the 16-bit indices, so wrapping keeps slots. */
  lemma SlotOfIndex(idx: nat, k: nat)
    requires idx < IDX_LIMIT && k <= NUM
    ensures Slot((idx + k) % IDX_LIMIT, 0) == Slot(idx, k)
    ensures Slot((idx + 1) % IDX_LIMIT, k) == Slot(idx, k + 1)
  {
    assert (idx + k) % IDX_LIMIT == if idx + k < IDX_LIMIT then idx + k else idx + k - IDX_LIMIT;
    assert (idx + 1) % IDX_LIMIT == if idx + 1 < IDX_LIMIT then idx + 1 else 0;
  }

  lemma SlotsDiffer(idx: nat, j: nat, k: nat)
    requires j < k < j + NUM
    ensures Slot(idx, j) != Slot(idx, k)
  {
  }

  lemma RingGrows(ring: seq<nat>, from: nat, idx: nat, bs: seq<nat>, b: nat, chain: map<nat, Chain>)
    requires IndexOk(ring, from, idx, bs, chain) && |bs| < NUM && b in chain
    ensures IndexOk(ring[Slot(idx, 0) := chain[b].head], from, (idx + 1) % IDX_LIMIT, bs + [b], chain)
  {
    hide Slot;
    SlotOfIndex(from, |bs|);
    forall k | 0 <= k < |bs| ensures Slot(from, k) != Slot(from, |bs|) {
      SlotsDiffer(from, k, |bs|);
    }
  }

  lemma RingShrinks(ring: seq<nat>, from: nat, idx: nat, bs: seq<nat>, chain: map<nat, Chain>)
    requires IndexOk(ring, from, idx, bs, chain) && 0 < |bs| <= NUM
    ensures bs[0] in chain && ring[Slot(from, 0)] == chain[bs[0]].head
    ensures IndexOk(ring, (from + 1) % IDX_LIMIT, idx, bs[1..], chain)
  {
    hide Slot;
    forall k | 0 <= k < |bs[1..]|
      ensures bs[1..][k] in chain && ring[Slot((from + 1) % IDX_LIMIT, k)] == chain[bs[1..][k]].head
    {
      SlotOfIndex(from, k);
      assert bs[k + 1] in chain;
    }
  }

  /** Writing the next slot, for a request that is not published yet. */
  lemma SlotIsUnused(ring: seq<nat>, from: nat, idx: nat, bs: seq<nat>, chain: map<nat, Chain>, h: nat,
                     chain': map<nat, Chain>)
    requires IndexOk(ring, from, idx, bs, chain) && |bs| < NUM
    requires forall b :: b in bs ==> b in chain' && (b in chain ==> chain'[b] == chain[b])
    ensures IndexOk(ring[Slot(idx, 0) := h], from, idx, bs, chain') && IndexOk(ring, from, idx, bs, chain')
  {
    hide Slot;
    SlotOfIndex(from, |bs|);
    forall k | 0 <= k < |bs| ensures Slot(from, k) != Slot(from, |bs|) && bs[k] in chain {
      SlotsDiffer(from, k, |bs|);
    }
  }

  lemma PreparedKept(avail: seq<nat>, idx: nat, reqs: map<nat, Req>, chain: map<nat, Chain>, reqs': map<nat, Req>,
                     chain': map<nat, Chain>)
    requires PreparedOk(avail, idx, reqs, chain)
    requires forall a :: InPhase(reqs', a, Prepared) ==> InPhase(reqs, a, Prepared)
    requires forall a :: a in chain && a in reqs' ==> a in chain' && chain'[a] == chain[a]
    ensures PreparedOk(avail, idx, reqs', chain')
  {
  }

  function Format(q: Queue, c: Chain, b: nat, write: bool, bn: nat): Queue
    requires |q.free| == |q.desc| == |q.ops| == |q.info| == |q.avail| == NUM && b < |q.disk| && c.InRange()
  {
    q.(free := q.free[c.head := false][c.data := false][c.status := false],
       desc := q.desc[c.head := Desc(OpOf(c.head), 16, NEXT, c.data)]
                     [c.data := Desc(DataOf(b), BSIZE, DataFlags(write), c.status)]
                     [c.status := Desc(StatusOf(c.head), 1, WRITE, 0)],
       ops := q.ops[c.head := Op(write, bn * 2 % WORD_LIMIT)],
       info := q.info[c.head := Info(Buf(b), 0xff)],
       disk := q.disk[b := true],
       avail := q.avail[Slot(q.availIdx, 0) := c.head],
       chain := q.chain[b := c],
       owner := q.owner[c.head := b][c.data := b][c.status := b])
  }

  lemma SplitGrows(chain: map<nat, Chain>, owner: map<nat, nat>, b: nat, c: Chain)
    requires Split(chain, owner) && b !in chain && c.Three()
    requires c.head !in owner && c.data !in owner && c.status !in owner
    ensures Split(chain[b := c], owner[c.head := b][c.data := b][c.status := b])
  {
  }

  /** A chain whose descriptors, header and status are as they were. */
  lemma ChainKept(q: Queue, s: Spec, q': Queue, s': Spec, a: nat)
    requires Sizes(q, s) && Sizes(q', s') && ChainOk(q, s, a) && |s'.data| == |s.data| && |s'.image| == |s.image|
    requires a in q'.chain && q'.chain[a] == q.chain[a] && a in s'.reqs
    requires s'.reqs[a] == s.reqs[a].(phase := s'.reqs[a].phase) && IsDone(s'.reqs[a]) == IsDone(s.reqs[a])
    requires var c := q.chain[a];
             && q'.desc[c.head] == q.desc[c.head] && q'.desc[c.data] == q.desc[c.data]
             && q'.desc[c.status] == q.desc[c.status]
             && q'.ops[c.head] == q.ops[c.head] && q'.info[c.head] == q.info[c.head]
    ensures ChainOk(q', s', a)
  {
  }

  /** Chains do not share descriptors, with each other or with free ones. */
  lemma ChainApart(q: Queue, s: Spec, a: nat, c: Chain)
    requires Represents(q, s) && a in s.reqs && c.InRange()
    requires q.free[c.head] && q.free[c.data] && q.free[c.status]
    ensures ChainOk(q, s, a) && q.chain[a].Apart(c)
  {
    hide Formatted, Rings, RingsMatch;
    var d := q.chain[a];
    assert d.Has(d.head) && d.Has(d.data) && d.Has(d.status);
  }

  lemma TwoChains(q: Queue, s: Spec, a: nat, b: nat)
    requires Represents(q, s) && a in s.reqs && b in s.reqs && a != b
    ensures ChainOk(q, s, a) && ChainOk(q, s, b) && q.chain[a].Apart(q.chain[b])
  {
    hide Formatted, Rings, RingsMatch;
    var d := q.chain[a];
    assert d.Has(d.head) && d.Has(d.data) && d.Has(d.status);
  }

  lemma InRings(q: Queue, s: Spec)
    requires Represents(q, s)
    ensures q.chain.Keys == s.reqs.Keys
    ensures forall b :: b in s.queue ==> b in q.chain && InPhase(s.reqs, b, Queued)
    ensures forall b :: b in s.posted ==> b in q.chain && InPhase(s.reqs, b, Done)
    ensures |s.queue| <= 2 && |s.posted| <= 2
  {
    hide ChainOk, Split, FreeOk, Rings;
    RingsShort(q, s);
  }

  lemma FormatFree(q: Queue, c: Chain, b: nat, write: bool, bn: nat)
    requires |q.free| == |q.desc| == |q.ops| == |q.info| == |q.avail| == NUM && b < |q.disk| && c.InRange()
    requires FreeOk(q.free, q.desc, q.owner)
    ensures var q' := Format(q, c, b, write, bn); FreeOk(q'.free, q'.desc, q'.owner)
  {
  }

  lemma FormatChain(q: Queue, c: Chain, b: nat, write: bool, bn: nat)
    requires |q.free| == |q.desc| == |q.ops| == |q.info| == |q.avail| == NUM && b < |q.disk| && c.InRange() && c.Three()
    requires bn < WORD_LIMIT / 2
    ensures var q' := Format(q, c, b, write, bn); Formatted(q'.desc, q'.ops, q'.info, c, b, write, bn, false)
  {
  }

  lemma PrepareChains(q: Queue, s: Spec, c: Chain, b: nat, write: bool, bn: nat)
    requires Represents(q, s) && Enabled(s, Prepare(b, write, bn)) && c.InRange() && c.Three()
    requires q.free[c.head] && q.free[c.data] && q.free[c.status]
    ensures var q', s' := Format(q, c, b, write, bn), Step(s, Prepare(b, write, bn));
            Sizes(q', s') && Chains(q', s')
  {
    hide Split, Rings, RingsMatch, Formatted, FreeOk;
    var q', s' := Format(q, c, b, write, bn), Step(s, Prepare(b, write, bn));
    FormatFree(q, c, b, write, bn);
    FormatChain(q, c, b, write, bn);
    FreeMeans(q, s);
    SplitGrows(q.chain, q.owner, b, c);
    forall a | a in s'.reqs && a != b ensures ChainOk(q', s', a) {
      ChainApart(q, s, a, c);
      ChainKept(q, s, q', s', a);
    }
  }

  lemma PrepareOk(q: Queue, s: Spec, c: Chain, b: nat, write: bool, bn: nat)
    requires Represents(q, s) && Enabled(s, Prepare(b, write, bn)) && c.InRange() && c.Three()
    requires q.free[c.head] && q.free[c.data] && q.free[c.status]
    ensures Represents(Format(q, c, b, write, bn), Step(s, Prepare(b, write, bn)))
  {
    hide Chains, IndexOk, RingsMatch, Slot;
    var q', s' := Format(q, c, b, write, bn), Step(s, Prepare(b, write, bn));
    RingsShort(q, s);
    PrepareChains(q, s, c, b, write, bn);
    StepRings(s, Prepare(b, write, bn));
    InRings(q, s);
    SlotIsUnused(q.avail, q.deviceIdx, q.availIdx, s.queue, q.chain, c.head, q'.chain);
    SlotIsUnused(q.used, q.seenIdx, q.usedIdx, s.posted, q.chain, c.head, q'.chain);
  }

  /** Nothing but phases changes, and none of them tells the driver more. */
  lemma ChainsKept(q: Queue, s: Spec, q': Queue, s': Spec)
    requires Sizes(q, s) && Chains(q, s) && Sizes(q', s') && |s'.data| == |s.data| && |s'.image| == |s.image|
    requires q'.chain == q.chain && q'.owner == q.owner && q'.free == q.free
    requires q'.desc == q.desc && q'.ops == q.ops && q'.info == q.info
    requires s'.reqs.Keys == s.reqs.Keys
    requires forall a :: a in s.reqs ==> s'.reqs[a] == s.reqs[a].(phase := s'.reqs[a].phase)
                                         && IsDone(s'.reqs[a]) == IsDone(s.reqs[a])
    ensures Chains(q', s')
  {
    hide Formatted, Split, FreeOk;
  }

  lemma PublishOk(q: Queue, s: Spec, b: nat)
    requires Represents(q, s) && InPhase(s.reqs, b, Prepared)
    ensures Represents(q.(availIdx := (q.availIdx + 1) % IDX_LIMIT), Step(s, Publish(b)))
  {
    hide Chains, IndexOk, RingsMatch, Slot;
    var q', s' := q.(availIdx := (q.availIdx + 1) % IDX_LIMIT), Step(s, Publish(b));
    RingsShort(q, s);
    RingGrows(q.avail, q.deviceIdx, q.availIdx, s.queue, b, q.chain);
    assert q.avail[Slot(q.availIdx, 0) := q.chain[b].head] == q.avail;
    StepRings(s, Publish(b));
    ChainsKept(q, s, q', s');
    forall a ensures !InPhase(s'.reqs, a, Prepared) {
      assert InPhase(s'.reqs, a, Prepared) ==> InPhase(s.reqs, a, Prepared);
    }
  }

  lemma TakeOk(q: Queue, s: Spec)
    requires Represents(q, s) && s.queue != []
    ensures Represents(q.(deviceIdx := (q.deviceIdx + 1) % IDX_LIMIT), Step(s, Take))
    ensures s.queue[0] in q.chain && q.avail[Slot(q.deviceIdx, 0)] == q.chain[s.queue[0]].head
  {
    hide Chains, IndexOk, RingsMatch, Slot, PreparedOk;
    InRings(q, s);
    RingShrinks(q.avail, q.deviceIdx, q.availIdx, s.queue, q.chain);
    StepRings(s, Take);
    assert InPhase(s.reqs, s.queue[0], Queued);
    ChainsKept(q, s, q.(deviceIdx := (q.deviceIdx + 1) % IDX_LIMIT), Step(s, Take));
    PreparedKept(q.avail, q.availIdx, s.reqs, q.chain, Step(s, Take).reqs, q.chain);
  }

  function Posted(q: Queue, h: nat, b: nat): Queue
    requires |q.info| == |q.used| == NUM && h < NUM
  {
    q.(info := q.info[h := Info(Buf(b), 0)], used := q.used[Slot(q.usedIdx, 0) := h],
       usedIdx := (q.usedIdx + 1) % IDX_LIMIT)
  }

  lemma CompleteChains(q: Queue, s: Spec, b: nat)
    requires Represents(q, s) && Enabled(s, Complete(b)) && b in q.chain && q.chain[b].InRange()
    ensures var q', s' := Posted(q, q.chain[b].head, b), Step(s, Complete(b)); Sizes(q', s') && Chains(q', s')
  {
    hide Split, FreeOk, Rings, RingsMatch, Formatted;
    var q', s' := Posted(q, q.chain[b].head, b), Step(s, Complete(b));
    forall a | a in s.reqs && a != b ensures ChainOk(q', s', a) {
      TwoChains(q, s, a, b);
      ChainKept(q, s, q', s', a);
    }
    DoneChain(q.desc, q.ops, q.info, q.chain[b], b, s.reqs[b].write, s.reqs[b].bn);
  }

  lemma DoneChain(desc: seq<Desc>, ops: seq<Op>, info: seq<Info>, c: Chain, b: nat, write: bool, bn: nat)
    requires |desc| == |ops| == |info| == NUM && c.InRange() && Formatted(desc, ops, info, c, b, write, bn, false)
    ensures Formatted(desc, ops, info[c.head := Info(Buf(b), 0)], c, b, write, bn, true)
  {
  }

  lemma CompleteOk(q: Queue, s: Spec, b: nat)
    requires Represents(q, s) && Enabled(s, Complete(b)) && b in q.chain && q.chain[b].InRange()
    ensures Represents(Posted(q, q.chain[b].head, b), Step(s, Complete(b)))
  {
    hide Chains, IndexOk, RingsMatch, Slot, PreparedOk;
    RingsShort(q, s);
    CompleteChains(q, s, b);
    RingGrows(q.used, q.seenIdx, q.usedIdx, s.posted, b, q.chain);
    StepRings(s, Complete(b));
    PreparedKept(q.avail, q.availIdx, s.reqs, q.chain, Step(s, Complete(b)).reqs, q.chain);
  }

  lemma AckOk(q: Queue, s: Spec)
    requires Represents(q, s) && Enabled(s, Ack)
    ensures s.posted[0] < |q.disk| && s.posted[0] in q.chain
    ensures q.used[Slot(q.seenIdx, 0)] == q.chain[s.posted[0]].head
    ensures Represents(q.(seenIdx := (q.seenIdx + 1) % IDX_LIMIT, disk := q.disk[s.posted[0] := false]), Step(s, Ack))
  {
    hide Chains, IndexOk, RingsMatch, Slot, PreparedOk;
    InRings(q, s);
    RingShrinks(q.used, q.seenIdx, q.usedIdx, s.posted, q.chain);
    StepRings(s, Ack);
    assert InPhase(s.reqs, s.posted[0], Done);
    ChainMeans(q, s, s.posted[0]);
    var q' := q.(seenIdx := (q.seenIdx + 1) % IDX_LIMIT, disk := q.disk[s.posted[0] := false]);
    ChainsKept(q, s, q', Step(s, Ack));
    PreparedKept(q.avail, q.availIdx, s.reqs, q.chain, Step(s, Ack).reqs, q.chain);
  }

  lemma ChainMeans(q: Queue, s: Spec, b: nat)
    requires Represents(q, s) && b in s.reqs
    ensures ChainOk(q, s, b) && q.chain[b].Three()
  {
    hide Formatted, FreeOk, Rings, RingsMatch;
  }

  /** What the device is told: the sectors are those of the request's block. */
  lemma SectorsOf(q: Queue, s: Spec, b: nat)
    requires Represents(q, s) && b in s.reqs
    ensures b in q.chain && q.chain[b].head < |q.ops|
    ensures var op := q.ops[q.chain[b].head]; op.sector * 512 == s.reqs[b].bn * BSIZE && op.out == s.reqs[b].write
  {
    ChainMeans(q, s, b);
    hide Chains, Rings, RingsMatch;
  }

  function Release(q: Queue, b: nat): Queue
    requires |q.free| == |q.desc| == |q.info| == NUM && b in q.chain && q.chain[b].InRange()
  {
    var c := q.chain[b];
    q.(free := q.free[c.head := true][c.data := true][c.status := true],
       desc := q.desc[c.head := FREE_DESC][c.data := FREE_DESC][c.status := FREE_DESC],
       info := q.info[c.head := q.info[c.head].(b := Null)],
       chain := q.chain - {b}, owner := q.owner - {c.head, c.data, c.status})
  }

  lemma ReleaseFree(q: Queue, b: nat)
    requires |q.free| == |q.desc| == |q.info| == NUM && b in q.chain && q.chain[b].InRange()
    requires FreeOk(q.free, q.desc, q.owner)
    ensures FreeOk(Release(q, b).free, Release(q, b).desc, Release(q, b).owner)
  {
  }

  lemma FinishChains(q: Queue, s: Spec, b: nat)
    requires Represents(q, s) && Enabled(s, Finish(b)) && b in q.chain && q.chain[b].InRange()
    ensures Sizes(Release(q, b), Step(s, Finish(b))) && Chains(Release(q, b), Step(s, Finish(b)))
  {
    hide Split, Rings, RingsMatch, Formatted, FreeOk;
    var q', s' := Release(q, b), Step(s, Finish(b));
    WithoutChain(q.chain, q.owner, b);
    ReleaseFree(q, b);
    forall a | a in s'.reqs ensures ChainOk(q', s', a) {
      TwoChains(q, s, a, b);
      ChainKept(q, s, q', s', a);
    }
  }

  lemma FinishOk(q: Queue, s: Spec, b: nat)
    requires Represents(q, s) && Enabled(s, Finish(b)) && b in q.chain && q.chain[b].InRange()
    ensures Represents(Release(q, b), Step(s, Finish(b)))
  {
    hide Chains, IndexOk, RingsMatch, Slot, PreparedOk;
    var q', s' := Release(q, b), Step(s, Finish(b));
    FinishChains(q, s, b);
    RingsShort(q, s);
    StepRings(s, Finish(b));
    InRings(q, s);
    SlotIsUnused(q.avail, q.deviceIdx, q.availIdx, s.queue, q.chain, 0, q'.chain);
    SlotIsUnused(q.used, q.seenIdx, q.usedIdx, s.posted, q.chain, 0, q'.chain);
    PreparedKept(q.avail, q.availIdx, s.reqs, q.chain, s'.reqs, q'.chain);
  }

  lemma StoreOk(q: Queue, s: Spec, b: nat, d: Block)
    requires Represents(q, s)
    ensures Represents(q, Step(s, Store(b, d)))
  {
    hide Chains, IndexOk, PreparedOk;
    ChainsKept(q, s, q, Step(s, Store(b, d)));
  }
}
