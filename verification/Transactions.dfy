/** Log and cache together refine a plain block map with atomic commits, in
    every run of the operations that file system calls perform:
    begin_op, bread, changing b->data, log_write, brelse and end_op, by any
    number of processes interleaved in any order. */
module Transactions {
  import opened Blocks
  import opened BufferCache
  import opened Counting
  import opened LogFormat
  import opened Log

  /** What a caller sees of an operation: that it did not go ahead, that it did,
      or the contents of the block that it has locked. */
  datatype Answer = Refused | Accepted | Contents(d: Block)

  datatype Op =
    | Begin
    | Bread(bn: nat)
    | Store(bn: nat, d: Block)
    | LogWrite(bn: nat)
    | Brelse(bn: nat)
    | End

  /** A block that a process has locked: its contents, and whether they have
      been changed since they were read or logged. */
  datatype Held = Held(data: Block, changed: bool)

  /** The plain block map: what bread returns, what the last commit made
      durable, what is locked, what is logged, and the open operations. */
  datatype Spec = Spec(view: Image, committed: Image, held: map<nat, Held>, logged: seq<nat>, outstanding: nat)

  /** Whether the operation can go ahead: its caller keeps to the protocol and
      does not have to wait. */
  predicate Goes(lay: Layout, s: Spec, op: Op) {
    match op
    case Begin => |s.logged| + (s.outstanding + 1) * MAXOPBLOCKS <= LOGSIZE
    case Bread(bn) => CanRead(lay, s, bn)
    case Store(bn, d) => bn in s.held
    case LogWrite(bn) => bn in s.held && lay.Home(bn) && s.outstanding > 0 && |s.logged| < lay.size - 1
    case Brelse(bn) => bn in s.held && !s.held[bn].changed
    case End => s.outstanding > 1 || (s.outstanding == 1 && s.held == map[])
  }

  /** An operation that cannot go ahead is a step that does nothing. */
  function Step(lay: Layout, s: Spec, op: Op): (t: Spec)
    requires |s.view| == lay.blocks
    ensures |t.view| == lay.blocks
  {
    if !Goes(lay, s, op) then s
    else match op
      case Begin => s.(outstanding := s.outstanding + 1)
      case Bread(bn) => s.(held := s.held[bn := Held(s.view[bn], false)])
      case Store(bn, d) => s.(held := s.held[bn := Held(d, true)])
      case LogWrite(bn) =>
        s.(view := s.view[bn := s.held[bn].data],
           held := s.held[bn := Held(s.held[bn].data, false)],
           logged := if bn in s.logged then s.logged else s.logged + [bn])
      case Brelse(bn) => s.(held := s.held - {bn})
      case End =>
        if s.outstanding > 1 then s.(outstanding := s.outstanding - 1)
        else s.(outstanding := 0, committed := s.view, logged := [])
  }

  /** A block can be locked when nobody has it and a buffer is left. */
  predicate CanRead(lay: Layout, s: Spec, bn: nat) {
    lay.Home(bn) && bn !in s.held && |s.logged| + |s.held| < NBUF
  }

  function Result(lay: Layout, s: Spec, op: Op): Answer
    requires |s.view| == lay.blocks
  {
    if !Goes(lay, s, op) then Refused else if op.Bread? then Contents(s.view[op.bn]) else Accepted
  }

  function Run(lay: Layout, s: Spec, ops: seq<Op>, k: nat): (t: Spec)
    requires |s.view| == lay.blocks && k <= |ops|
    ensures |t.view| == lay.blocks
  {
    if k == 0 then s else Step(lay, Run(lay, s, ops, k - 1), ops[k - 1])
  }

  ghost predicate SameHome(lay: Layout, a: Image, b: Image) {
    |a| == |b| == lay.blocks && forall bn: nat :: lay.Home(bn) ==> a[bn] == b[bn]
  }

  /** Recovering from this image gives the committed state of s. */
  ghost predicate Commits(lay: Layout, s: Spec, image: Image) {
    WellFormed(lay, image) && SameHome(lay, Recovered(lay, image), s.committed)
  }

  ghost predicate CommittedByPrefix(lay: Layout, s: Spec, ops: seq<Op>, k: nat, image: Image)
    requires |s.view| == lay.blocks && k <= |ops|
  {
    exists m :: 0 <= m <= k && Commits(lay, Run(lay, s, ops, m), image)
  }

  /** The buffers that processes hold. */
  ghost predicate HoldsBuffers(bufs: seq<Buf>, dirty: set<nat>, ptr: map<nat, nat>, held: map<nat, Held>) {
    && ptr.Keys == held.Keys
    && (forall bn :: bn in ptr ==> ptr[bn] < |bufs| && HeldBy(bufs[ptr[bn]], bn, held[bn], ptr[bn] in dirty))
    && (forall i :: 0 <= i < |bufs| && bufs[i].locked ==> bufs[i].blockno in ptr && ptr[bufs[i].blockno] == i)
  }

  ghost predicate HeldBy(b: Buf, bn: nat, h: Held, isDirty: bool) {
    b.locked && b.dev == ROOTDEV && b.blockno == bn && b.data == h.data && isDirty == h.changed
  }

  class Session {
    const log: Log
    /** The pointers that bread has returned and brelse has not taken back. */
    var ptr: map<nat, nat>
    /** The locked blocks changed since they were read or logged. */
    var changed: set<nat>

    /** Nobody holds a buffer yet. */
    constructor (log: Log)
      ensures this.log == log && ptr == map[] && changed == {}
    {
      this.log := log;
      ptr, changed := map[], {};
    }

    ghost predicate Refines(s: Spec)
      reads this, log, log.block, log.cache, log.cache.disk, log.cache.buf, log.cache.prev, log.cache.next
    {
      && log.Open() && s.outstanding == log.outstanding && s.logged == log.block[..log.n]
      && SameHome(log.lay, s.view, log.view) && SameHome(log.lay, s.committed, log.cache.disk.blocks)
      && HoldsBuffers(log.cache.buf[..], log.dirty, ptr, s.held)
      && (forall bn :: bn in s.held ==> s.held[bn].changed == (bn in changed))
    }

    lemma Room(s: Spec)
      requires Refines(s) && |s.logged| + |s.held| < NBUF
      ensures exists i :: 0 <= i < NBUF && log.cache.buf[i].refcnt == 0
    {
      RoomForOne(log.cache.buf[..], log.dirty, log.view, s.logged, ptr, s.held);
    }

    lemma Facts(s: Spec)
      requires Refines(s)
      ensures log.cache.buf.Length == NBUF && Unique(log.cache.buf[..]) && log.block.Length == LOGSIZE
      ensures log.n <= LOGSIZE && IsLog(log.lay, log.block[..log.n])
      ensures log.block != log.cache.prev && log.block != log.cache.next
      ensures |log.view| == |log.cache.disk.blocks| == log.lay.blocks
      ensures forall i :: 0 <= i < NBUF ==> BufferInv(log.cache.buf[i], i in log.dirty, log.view, s.logged)
    {
    }

    lemma Counts(s: Spec)
      requires Refines(s)
      ensures |s.view| == |log.view| == log.lay.blocks && |s.logged| == log.n && s.outstanding == log.outstanding
      ensures |s.held| == |ptr| && s.held.Keys == ptr.Keys && (s.held == map[] <==> ptr == map[])
      ensures forall bn :: bn in s.held ==> s.held[bn].changed == (bn in changed)
    {
      assert |s.held.Keys| == |ptr.Keys|;
    }

    /** A crash anywhere in end_op recovers to one of its two end states. */
    lemma FinishImages(s: Spec)
      requires Refines(s) && s.outstanding == 1 && s.held == map[]
      ensures IsLog(log.lay, s.logged) && |log.cache.disk.blocks| == |log.view| == log.lay.blocks
      ensures forall image :: image in CommitImages(log.lay, log.cache.disk.blocks, log.view, s.logged) ==>
                Commits(log.lay, s, image) || Commits(log.lay, Step(log.lay, s, End), image)
    {
      hide BCache.Valid, HoldsBuffers, BufferInv, CommitImages, Commits;
      var images := CommitImages(log.lay, log.cache.disk.blocks, log.view, s.logged);
      forall image | image in images
        ensures Commits(log.lay, s, image) || Commits(log.lay, Step(log.lay, s, End), image)
      {
        var k :| 0 <= k < |images| && images[k] == image;
        CommitImageRecovers(log.lay, log.cache.disk.blocks, log.view, s, k);
      }
    }

    lemma HolderOf(s: Spec, bn: nat)
      requires Refines(s) && bn in ptr
      ensures bn in s.held && ptr[bn] < NBUF
      ensures HeldBy(log.cache.buf[ptr[bn]], bn, s.held[bn], ptr[bn] in log.dirty)
    {
    }

    lemma NobodyHolds(s: Spec, bn: nat)
      requires Refines(s) && bn !in s.held
      ensures forall j :: 0 <= j < NBUF && Holds(log.cache.buf[j], ROOTDEV, bn) ==> !log.cache.buf[j].locked
    {
    }

    lemma NothingHeld(s: Spec)
      requires Refines(s) && ptr == map[]
      ensures Unlocked(log.cache.buf[..]) && log.dirty == {} && s.held == map[]
    {
      assert s.held.Keys == {};
      Facts(s);
    }

    method Read(bn: nat, ghost s: Spec) returns (r: Answer)
      requires Refines(s) && CanRead(log.lay, s, bn)
      modifies this, log.cache.buf
      ensures Refines(Step(log.lay, s, Bread(bn))) && r == Contents(s.view[bn])
    {
      hide Log.Valid, BufferInv, HoldsBuffers;
      Facts(s);
      Room(s);
      NobodyHolds(s, bn);
      ghost var was := log.cache.buf[..];
      var i := log.Bread(bn);
      HoldMore(was, log.cache.buf[..], log.dirty, ptr, s.held, bn, i);
      r := Contents(log.cache.buf[i].data);
      ptr := ptr[bn := i];
      changed := changed - {bn};
    }

    method Change(bn: nat, d: Block, ghost s: Spec)
      requires Refines(s) && bn in ptr
      modifies this`changed, log`dirty, log.cache.buf
      ensures Refines(Step(log.lay, s, Store(bn, d)))
    {
      hide Log.Valid, BufferInv;
      Facts(s);
      log.Modify(ptr[bn], d);
      changed := changed + {bn};
    }

    method Write(bn: nat, ghost s: Spec)
      requires Refines(s) && bn in ptr && log.lay.Home(bn) && log.outstanding > 0 && log.n < log.lay.size - 1
      modifies this`changed, log`view, log`dirty, log`pending, log`n, log.block, log.cache.buf
      ensures Refines(Step(log.lay, s, LogWrite(bn)))
    {
      hide Log.Valid, BufferInv, HoldsBuffers;
      Facts(s);
      HolderOf(s, bn);
      ghost var was, dirty := log.cache.buf[..], log.dirty;
      var r := log.LogWrite(ptr[bn]);
      HoldLogged(was, log.cache.buf[..], dirty, ptr, s.held, bn);
      changed := changed - {bn};
    }

    method Release(bn: nat, ghost s: Spec)
      requires Refines(s) && bn in ptr && bn !in changed
      modifies this, log.cache, log.cache.buf, log.cache.prev, log.cache.next
      ensures Refines(Step(log.lay, s, Brelse(bn)))
    {
      hide Log.Valid, BufferInv;
      Facts(s);
      log.Brelse(ptr[bn]);
      ptr := ptr - {bn};
    }

    method Finish(ghost s: Spec)
      requires Refines(s) && log.outstanding > 0 && (log.outstanding == 1 ==> ptr == map[])
      modifies log, log.cache, log.cache.buf, log.cache.prev, log.cache.next, log.cache.disk
      ensures Refines(Step(log.lay, s, End))
      ensures log.cache.disk.images == old(log.cache.disk.images) +
              if log.outstanding > 0 || old(log.n) == 0 then []
              else CommitImages(log.lay, old(log.cache.disk.blocks), old(log.view), s.logged)
    {
      hide Log.Valid, BufferInv;
      Facts(s);
      if log.outstanding == 1 {
        NothingHeld(s);
      }
      log.EndOp();
      assert log.n == 0 ==> log.block[..log.n] == [];
    }

    /** Any run: what bread returns is what the block map says, and a crash
        after any disk write of the run recovers to a state that some prefix
        of the run had committed. */
    method RunAll(ops: seq<Op>, ghost s: Spec) returns (results: seq<Answer>)
      requires |s.view| == log.lay.blocks && Refines(s)
      modifies this, log, log.block, log.cache, log.cache.buf, log.cache.prev, log.cache.next, log.cache.disk
      ensures Refines(Run(log.lay, s, ops, |ops|))
      ensures |results| == |ops|
      ensures forall k :: 0 <= k < |ops| ==> results[k] == Result(log.lay, Run(log.lay, s, ops, k), ops[k])
      ensures old(log.cache.disk.images) <= log.cache.disk.images
      ensures forall j :: |old(log.cache.disk.images)| <= j < |log.cache.disk.images| ==>
                CommittedByPrefix(log.lay, s, ops, |ops|, log.cache.disk.images[j])
    {
      hide Session.Refines, CommittedByPrefix, Commits, Result, Step;
      results := [];
      ghost var images := log.cache.disk.images;
      var k := 0;
      while k < |ops|
        invariant 0 <= k <= |ops| && Refines(Run(log.lay, s, ops, k)) && |results| == k
        invariant forall i :: 0 <= i < k ==> results[i] == Result(log.lay, Run(log.lay, s, ops, i), ops[i])
        invariant images <= log.cache.disk.images
        invariant forall j :: |images| <= j < |log.cache.disk.images| ==>
                    CommittedByPrefix(log.lay, s, ops, k, log.cache.disk.images[j])
      {
        ghost var before := log.cache.disk.images;
        var r := Perform(ops[k], Run(log.lay, s, ops, k));
        PrefixGrows(log.lay, s, ops, k, images, before, log.cache.disk.images);
        results := results + [r];
        k := k + 1;
      }
    }

    /** One operation, or nothing when it cannot go ahead. */
    method Perform(op: Op, ghost s: Spec) returns (r: Answer)
      requires Refines(s)
      modifies this, log, log.block, log.cache, log.cache.buf, log.cache.prev, log.cache.next, log.cache.disk
      ensures |s.view| == log.lay.blocks
      ensures Refines(Step(log.lay, s, op)) && r == Result(log.lay, s, op)
      ensures old(log.cache.disk.images) <= log.cache.disk.images
      ensures forall j :: |old(log.cache.disk.images)| <= j < |log.cache.disk.images| ==>
                Commits(log.lay, s, log.cache.disk.images[j])
                || Commits(log.lay, Step(log.lay, s, op), log.cache.disk.images[j])
    {
      hide Log.Valid, HoldsBuffers;
      Counts(s);
      r := Refused;
      match op {
        case Begin =>
          var admitted := log.BeginOp();
          r := if admitted then Accepted else Refused;
        case Bread(bn) =>
          if log.lay.Home(bn) && bn !in ptr && log.n + |ptr| < NBUF {
            r := Read(bn, s);
          }
        case Store(bn, d) =>
          if bn in ptr {
            Change(bn, d, s);
            r := Accepted;
          }
        case LogWrite(bn) =>
          if bn in ptr && log.lay.Home(bn) && log.outstanding > 0 && log.n < log.lay.size - 1 {
            Write(bn, s);
            r := Accepted;
          }
        case Brelse(bn) =>
          if bn in ptr && bn !in changed {
            Release(bn, s);
            r := Accepted;
          }
        case End =>
          if log.outstanding > 1 || (log.outstanding == 1 && ptr == map[]) {
            if log.outstanding == 1 {
              FinishImages(s);
            }
            Finish(s);
            r := Accepted;
          }
      }
    }
  }

  /** One more operation, with its writes, keeps every image a prefix's. */
  lemma PrefixGrows(lay: Layout, s: Spec, ops: seq<Op>, k: nat, was: seq<Image>, now: seq<Image>, next: seq<Image>)
    requires |s.view| == lay.blocks && k < |ops| && was <= now <= next
    requires forall j :: |was| <= j < |now| ==> CommittedByPrefix(lay, s, ops, k, now[j])
    requires forall j :: |now| <= j < |next| ==>
               Commits(lay, Run(lay, s, ops, k), next[j]) || Commits(lay, Run(lay, s, ops, k + 1), next[j])
    ensures forall j :: |was| <= j < |next| ==> CommittedByPrefix(lay, s, ops, k + 1, next[j])
  {
    hide Commits, Run;
    forall j | |was| <= j < |next| ensures CommittedByPrefix(lay, s, ops, k + 1, next[j]) {
      if j < |now| {
        assert next[j] == now[j] && CommittedByPrefix(lay, s, ops, k, now[j]);
        var m :| 0 <= m <= k && Commits(lay, Run(lay, s, ops, m), now[j]);
      }
    }
  }

  lemma CommitImageRecovers(lay: Layout, d: Image, v: Image, s: Spec, k: nat)
    requires IsLog(lay, s.logged) && SameHome(lay, s.committed, d) && SameHome(lay, s.view, v)
    requires Word(d[lay.start], 0) == 0
    requires forall bn: nat :: lay.Home(bn) && bn !in s.logged ==> d[bn] == v[bn]
    requires s.outstanding == 1 && s.held == map[] && k < |CommitImages(lay, d, v, s.logged)|
    ensures var image := CommitImages(lay, d, v, s.logged)[k];
            Commits(lay, s, image) || Commits(lay, Step(lay, s, End), image)
  {
    hide CommitImages, Recovered;
    CrashImageIs(lay, d, v, s.logged, k);
    CommitIsAtomic(lay, d, v, s.logged, k + 1);
  }

  lemma CrashImageIs(lay: Layout, d: Image, v: Image, lh: seq<nat>, k: nat)
    requires IsLog(lay, lh) && |d| == |v| == lay.blocks && k < |CommitImages(lay, d, v, lh)|
    ensures k + 1 <= 2 * |lh| + 2 && CrashImage(lay, d, v, lh, k + 1) == CommitImages(lay, d, v, lh)[k]
  {
  }

  lemma HoldMore(was: seq<Buf>, now: seq<Buf>, dirty: set<nat>, ptr: map<nat, nat>, held: map<nat, Held>,
                 bn: nat, i: nat)
    requires HoldsBuffers(was, dirty, ptr, held) && bn !in held && i < |was| && !was[i].locked && i !in dirty
    requires |now| == |was| && now == was[i := now[i]] && now[i].locked && now[i].dev == ROOTDEV && now[i].blockno == bn
    ensures HoldsBuffers(now, dirty, ptr[bn := i], held[bn := Held(now[i].data, false)])
  {
  }

  lemma HoldLogged(was: seq<Buf>, now: seq<Buf>, dirty: set<nat>, ptr: map<nat, nat>, held: map<nat, Held>, bn: nat)
    requires HoldsBuffers(was, dirty, ptr, held) && bn in ptr && ptr[bn] < |was|
    requires |now| == |was| && now == was[ptr[bn] := now[ptr[bn]]]
      && now[ptr[bn]] == was[ptr[bn]].(refcnt := now[ptr[bn]].refcnt)
    ensures HoldsBuffers(now, dirty - {ptr[bn]}, ptr, held[bn := Held(held[bn].data, false)])
  {
  }

  /** With fewer blocks logged or locked than there are buffers, bget finds one. */
  lemma RoomForOne(bufs: seq<Buf>, dirty: set<nat>, view: Image, logged: seq<nat>, ptr: map<nat, nat>,
                   held: map<nat, Held>)
    requires |bufs| == NBUF && Unique(bufs) && HoldsBuffers(bufs, dirty, ptr, held)
    requires forall i :: 0 <= i < NBUF ==> BufferInv(bufs[i], i in dirty, view, logged)
    requires |logged| + |held| < NBUF
    ensures exists i :: 0 <= i < NBUF && bufs[i].refcnt == 0
  {
    if forall i :: 0 <= i < NBUF ==> bufs[i].refcnt > 0 {
      var all := BlocksOf(bufs, -1, NBUF);
      SetFitsList(all - held.Keys, logged);
      WithoutSize(all, held.Keys);
    }
  }

  lemma WithoutSize(a: set<nat>, b: set<nat>)
    ensures |a| <= |a - b| + |b|
  {
    SubsetSize(a, (a - b) + b);
  }
}
