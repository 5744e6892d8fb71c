/** lab2/kernel/log.c over lab2/kernel/bio.c: transactions whose writes stay in
    the cache until the last outstanding operation commits them. */
module Log {
  import opened Blocks
  import opened BufferCache
  import opened Counting
  import opened LogFormat

  const ROOTDEV: nat := 1

  datatype Outcome = Done | TooBig | OutsideTransaction

  ghost predicate Distinct(s: seq<nat>) {
    forall i, j :: 0 <= i < j < |s| ==> s[i] != s[j]
  }

  ghost predicate Pinned(b: Buf, pending: seq<nat>) {
    b.dev == ROOTDEV && b.blockno in pending
  }

  /** What the cache owes the plain block map `view`.  `pending` lists the
      blocks whose last logged value is not yet at home, `dirty` the locked
      buffers whose holder has changed them and not logged the change. */
  ghost predicate BufferInv(b: Buf, isDirty: bool, view: Image, pending: seq<nat>) {
    && (b.dev == 0 || (b.dev == ROOTDEV && b.blockno < |view|))
    && (b.dev == 0 ==> !b.valid && !b.locked)
    && b.refcnt == (if b.locked then 1 else 0) + (if Pinned(b, pending) then 1 else 0)
    && (b.locked ==> b.valid)
    && (isDirty ==> b.locked)
    && (b.valid && !isDirty ==> b.data == view[b.blockno])
  }

  ghost predicate CacheInv(bufs: seq<Buf>, dirty: set<nat>, disk: Image, view: Image, pending: seq<nat>) {
    && |disk| == |view| && (forall i :: i in dirty ==> i < |bufs|)
    && (forall i :: 0 <= i < |bufs| ==> BufferInv(bufs[i], i in dirty, view, pending))
    && (forall bn: nat :: bn < |view| && bn !in pending ==> disk[bn] == view[bn])
    && (forall bn :: bn in pending ==> IsCached(bufs, bn))
  }

  ghost predicate IsCached(bufs: seq<Buf>, bn: nat) {
    exists i :: 0 <= i < |bufs| && bufs[i].dev == ROOTDEV && bufs[i].blockno == bn && bufs[i].valid
  }

  ghost predicate Unlocked(bufs: seq<Buf>) {
    forall i :: 0 <= i < |bufs| ==> !bufs[i].locked
  }

  class Log {
    const cache: BCache
    const lay: Layout
    var outstanding: nat
    var committing: bool
    var n: nat
    const block: array<nat>
    /** The plain block map that callers of bread see. */
    ghost var view: Image
    ghost var dirty: set<nat>
    ghost var pending: seq<nat>

    /** initlog: read the header, install what it lists, clear it. */
    constructor (cache: BCache, lay: Layout)
      requires cache.Valid() && WellFormed(lay, cache.disk.blocks)
      requires forall i :: 0 <= i < NBUF ==> BufferInv(cache.buf[i], false, cache.disk.blocks, [])
      requires Unlocked(cache.buf[..])
      modifies cache, cache.buf, cache.prev, cache.next, cache.disk
      ensures Open() && n == 0 && outstanding == 0 && dirty == {} && Unlocked(cache.buf[..])
      ensures this.cache == cache && this.lay == lay && fresh(block)
      ensures view == cache.disk.blocks == Recovered(lay, old(cache.disk.blocks))
      ensures cache.disk.images == old(cache.disk.images) + RecoveryImages(lay, old(cache.disk.blocks))
    {
      hide Linked, Stamped, IsOrder, Unique, BufferInv, Recovered, RecoveryImages;
      this.cache, this.lay := cache, lay;
      block := new nat[LOGSIZE];
      outstanding, committing, n := 0, false, 0;
      view, dirty, pending := cache.disk.blocks, {}, [];
      new;
      RecoverFromLog();
    }

    method RecoverFromLog()
      requires Valid() && Unlocked(cache.buf[..]) && dirty == {} && pending == [] && view == cache.disk.blocks
      requires WellFormed(lay, view) && !committing
      modifies this`view, this`dirty, this`pending, this`n, block, cache, cache.buf, cache.prev, cache.next, cache.disk
      ensures Open() && n == 0 && dirty == {} && Unlocked(cache.buf[..])
      ensures view == cache.disk.blocks == Recovered(lay, old(view))
      ensures cache.disk.images == old(cache.disk.images) + RecoveryImages(lay, old(view))
    {
      hide Log.Valid, Install, Word, EncodeHead;
      ghost var d := view;
      ReadHead();
      Shape();
      assert block[..n] == HeadList(d[lay.start]);
      InstallTrans(true);
      Reset();
      HeadRoundTrip(view[lay.start], []);
      InStep();
      WriteHead();
      InStep();
    }

    ghost predicate Valid()
      reads this, block, cache, cache.disk, cache.buf, cache.prev, cache.next
    {
      && cache.Valid() && block != cache.prev && block != cache.next
      && lay.Valid() && |view| == |cache.disk.blocks| == lay.blocks
      && block.Length == LOGSIZE && n <= LOGSIZE && IsLog(lay, block[..n])
      && CacheInv(cache.buf[..], dirty, cache.disk.blocks, view, pending)
      && Distinct(pending) && IsLog(lay, pending)
    }

    /** The disk's log is empty, and nothing that is logged is at home. */
    ghost predicate Settled()
      reads this, block, cache, cache.disk, cache.buf, cache.prev, cache.next
    {
      Valid() && pending == block[..n] && Word(cache.disk.blocks[lay.start], 0) == 0
    }

    /** The state between a commit and the next. */
    ghost predicate Open()
      reads this, block, cache, cache.disk, cache.buf, cache.prev, cache.next
    {
      Settled() && !committing
    }

    /** bread, with the cache's promise restated for the block map. */
    method Bread(bn: nat) returns (i: int)
      requires Valid() && bn < |view|
      requires forall j :: 0 <= j < NBUF && Holds(cache.buf[j], ROOTDEV, bn) ==> !cache.buf[j].locked
      modifies cache.buf
      ensures Valid() && -1 <= i < NBUF
      ensures i < 0 ==> cache.buf[..] == old(cache.buf[..]) && !IsCached(cache.buf[..], bn)
                        && forall j :: 0 <= j < NBUF ==> cache.buf[j].refcnt > 0
      ensures i >= 0 ==>
                && !old(cache.buf[i].locked) && i !in dirty
                && cache.buf[..] == old(cache.buf[..])[i := cache.buf[i]]
                && cache.buf[i] == Buf(true, true, ROOTDEV, bn, if bn in pending then 2 else 1, view[bn])
    {
      ghost var was := cache.buf[..];
      i := cache.Bread(ROOTDEV, bn);
      if i >= 0 {
        StillCached(was, cache.buf[..], view, dirty, pending, i);
      }
    }

    /** bread by commit or recovery, which never run out of buffers: at most
        one buffer is locked, and every other referenced one is pinned. */
    method BreadSure(bn: nat, ghost held: int) returns (i: nat)
      requires Valid() && bn < |view| && -1 <= held < NBUF && (held >= 0 ==> cache.buf[held].locked)
      requires forall j :: 0 <= j < NBUF && cache.buf[j].locked ==> j == held && cache.buf[j].blockno != bn
      requires bn in pending || |pending| + (if held >= 0 then 1 else 0) < NBUF
      modifies cache.buf
      ensures Valid() && i < NBUF && i != held && i !in dirty
      ensures cache.buf[..] == old(cache.buf[..])[i := cache.buf[i]]
      ensures cache.buf[i] == Buf(true, true, ROOTDEV, bn, if bn in pending then 2 else 1, view[bn])
    {
      if bn !in pending {
        SomeUnreferenced(cache.buf[..], dirty, view, pending, held);
      }
      i := Bread(bn);
    }

    /** The two reads at the start of each turn of write_log and install_trans. */
    method BreadPair(first: nat, second: nat) returns (i: nat, j: nat)
      requires Valid() && first < |view| && second < |view| && first != second
      requires Unlocked(cache.buf[..]) && |pending| < NBUF
      requires second in pending || |pending| + 1 < NBUF
      modifies cache.buf
      ensures Valid() && i < NBUF && j < NBUF && i != j && i !in dirty && j !in dirty
      ensures cache.buf[i] == Buf(true, true, ROOTDEV, first, if first in pending then 2 else 1, view[first])
      ensures cache.buf[j] == Buf(true, true, ROOTDEV, second, if second in pending then 2 else 1, view[second])
      ensures forall k :: 0 <= k < NBUF && cache.buf[k].locked ==> k == i || k == j
    {
      assert cache.buf.Length == NBUF;
      hide Log.Valid;
      i := BreadSure(first, -1);
      j := BreadSure(second, i);
    }

    /** memmove(to->data, from->data, BSIZE); bwrite(to); */
    method CopyOut(from: nat, to: nat)
      requires Valid() && from < NBUF && to < NBUF && cache.buf[from].locked && cache.buf[to].locked
      modifies this`view, this`dirty, cache.buf, cache.disk
      ensures Valid() && dirty == old(dirty) - {to}
      ensures cache.buf[..] == old(cache.buf[..])[to := old(cache.buf[to]).(data := old(cache.buf[from]).data)]
      ensures view == old(view)[old(cache.buf[to]).blockno := old(cache.buf[from]).data]
      ensures cache.disk.blocks == old(cache.disk.blocks)[old(cache.buf[to]).blockno := old(cache.buf[from]).data]
      ensures cache.disk.images == old(cache.disk.images) + [cache.disk.blocks]
    {
      Modify(to, cache.buf[from].data);
      Bwrite(to);
    }

    method ReleaseBoth(a: nat, b: nat)
      requires Valid() && a < NBUF && b < NBUF && a != b && cache.buf[a].locked && cache.buf[b].locked
      requires a !in dirty && b !in dirty
      modifies cache, cache.buf, cache.prev, cache.next
      ensures Valid()
      ensures forall i :: 0 <= i < NBUF ==> cache.buf[i].locked == (old(cache.buf[i]).locked && i != a && i != b)
    {
      Brelse(a);
      Brelse(b);
    }

    /** The holder of a buffer stores new contents in it. */
    method Modify(i: nat, d: Block)
      requires Valid() && i < NBUF && cache.buf[i].locked
      modifies this`dirty, cache.buf
      ensures Valid() && dirty == old(dirty) + {i}
      ensures cache.buf[..] == old(cache.buf[..])[i := old(cache.buf[i]).(data := d)]
    {
      ghost var was := cache.buf[..];
      cache.buf[i] := cache.buf[i].(data := d);
      dirty := dirty + {i};
      KeepsBlocks(was, cache.buf[..], pending);
    }

    method Brelse(i: nat)
      requires Valid() && i < NBUF && cache.buf[i].locked && i !in dirty
      modifies cache, cache.buf, cache.prev, cache.next
      ensures Valid()
      ensures cache.buf[..] ==
              old(cache.buf[..])[i := old(cache.buf[i]).(locked := false, refcnt := old(cache.buf[i]).refcnt - 1)]
    {
      ghost var was := cache.buf[..];
      cache.Brelse(i);
      KeepsBlocks(was, cache.buf[..], pending);
    }

    /** bwrite: the block map and the disk change together. */
    method Bwrite(i: nat)
      requires Valid() && i < NBUF && cache.buf[i].locked
      modifies this`view, this`dirty, cache.disk
      ensures Valid() && dirty == old(dirty) - {i}
      ensures view == old(view)[cache.buf[i].blockno := cache.buf[i].data]
      ensures cache.disk.blocks == old(cache.disk.blocks)[cache.buf[i].blockno := cache.buf[i].data]
      ensures cache.disk.images == old(cache.disk.images) + [cache.disk.blocks]
    {
      cache.Bwrite(i);
      view := view[cache.buf[i].blockno := cache.buf[i].data];
      dirty := dirty - {i};
    }

    /** log_write: absorb a block that is already logged, else append and pin. */
    method LogWrite(i: nat) returns (r: Outcome)
      requires Open() && i < NBUF && cache.buf[i].locked && lay.Home(cache.buf[i].blockno)
      modifies this`view, this`dirty, this`pending, this`n, block, cache.buf
      ensures Open()
      ensures r == TooBig <==> old(n) >= LOGSIZE || old(n) >= lay.size - 1
      ensures r == OutsideTransaction <==> old(n) < LOGSIZE && old(n) < lay.size - 1 && outstanding < 1
      ensures r != Done ==>
                && view == old(view) && dirty == old(dirty)
                && n == old(n) && block[..] == old(block[..]) && cache.buf[..] == old(cache.buf[..])
      ensures r == Done ==>
                var b := old(cache.buf[i]);
                var was := old(block[..n]);
                && view == old(view)[b.blockno := b.data] && dirty == old(dirty) - {i}
                && block[..n] == (if b.blockno in was then was else was + [b.blockno])
                && cache.buf[..] == old(cache.buf[..])[i := if b.blockno in was then b else b.(refcnt := b.refcnt + 1)]
    {
      if n >= LOGSIZE || n >= lay.size - 1 {
        return TooBig;
      }
      if outstanding < 1 {
        return OutsideTransaction;
      }
      var k := Logged(cache.buf[i].blockno);
      Append(i, k);
      return Done;
    }

    /** log_write's loop: the entry for the block, or one past the last. */
    method Logged(bn: nat) returns (k: nat)
      requires n <= block.Length
      ensures k <= n && bn !in block[..k] && (k < n ==> block[k] == bn)
    {
      k := 0;
      while k < n && block[k] != bn
        invariant 0 <= k <= n && bn !in block[..k]
      {
        k := k + 1;
      }
    }

    method Append(i: nat, k: nat)
      requires Open() && i < NBUF && cache.buf[i].locked && lay.Home(cache.buf[i].blockno)
      requires n < LOGSIZE && n < lay.size - 1
      requires k <= n && cache.buf[i].blockno !in block[..k] && (k < n ==> block[k] == cache.buf[i].blockno)
      modifies this`view, this`dirty, this`pending, this`n, block, cache.buf
      ensures Open() && dirty == old(dirty) - {i}
      ensures view == old(view)[old(cache.buf[i]).blockno := old(cache.buf[i]).data]
      ensures old(k < n) ==> block[..n] == old(block[..n]) && cache.buf[..] == old(cache.buf[..])
      ensures old(k == n) ==>
                var b := old(cache.buf[i]);
                && block[..n] == old(block[..n]) + [b.blockno]
                && cache.buf[..] == old(cache.buf[..])[i := b.(refcnt := b.refcnt + 1)]
    {
      hide CacheInv, BCache.Valid, Unique;
      UniqueBuffers();
      ghost var was, logged, b := cache.buf[..], block[..n], cache.buf[i];
      AppendInv(was, dirty, cache.disk.blocks, view, logged, i);
      block[k] := cache.buf[i].blockno;
      view := view[b.blockno := b.data];
      dirty := dirty - {i};
      if k == n {
        cache.Bpin(i);
        n := n + 1;
        pending := logged + [b.blockno];
        assert block[..n] == pending;
      } else {
        assert block[..n] == logged && b.blockno in logged;
      }
    }

    method Bunpin(i: nat)
      requires Valid() && i < NBUF && cache.buf[i].locked && i !in dirty && cache.buf[i].dev == ROOTDEV
      requires |pending| > 0 && cache.buf[i].blockno == pending[0]
      requires cache.disk.blocks[pending[0]] == view[pending[0]]
      modifies this`pending, cache.buf
      ensures Valid() && pending == old(pending)[1..]
      ensures cache.buf[..] == old(cache.buf[..])[i := old(cache.buf[i]).(refcnt := old(cache.buf[i]).refcnt - 1)]
    {
      ghost var was := cache.buf[..];
      cache.Bunpin(i);
      KeepsBlocks(was, cache.buf[..], pending);
      assert pending == [pending[0]] + pending[1..];
      pending := pending[1..];
    }

    /** What the loops of commit and recovery leave as they found it. */
    twostate predicate Kept()
      reads this, block, cache.buf
    {
      && n == old(n) && block[..] == old(block[..]) && outstanding == old(outstanding)
      && committing == old(committing) && dirty == {} && Unlocked(cache.buf[..])
    }

    method ReadHead()
      requires Valid() && Unlocked(cache.buf[..]) && dirty == {} && pending == []
      requires WellFormed(lay, view)
      modifies this`n, block, cache, cache.buf, cache.prev, cache.next
      ensures Valid() && Unlocked(cache.buf[..])
      ensures block[..n] == HeadList(view[lay.start])
      ensures outstanding == old(outstanding) && committing == old(committing)
    {
      hide BufferInv, IsCached, Linked, IsOrder, Stamped;
      n := 0;
      SomeUnreferenced(cache.buf[..], dirty, view, pending, -1);
      var b := Bread(lay.start);
      var head := cache.buf[b].data;
      var m := Word(head, 0);
      var i := 0;
      while i < m
        invariant 0 <= i <= m
        invariant forall j :: 0 <= j < i ==> block[j] == Word(head, j + 1)
        modifies block
      {
        block[i] := Word(head, i + 1);
        i := i + 1;
      }
      n := m;
      assert block[..n] == HeadList(view[lay.start]);
      Brelse(b);
    }

    method WriteHead()
      requires Valid() && Unlocked(cache.buf[..]) && dirty == {} && |pending| < NBUF
      modifies this`view, this`dirty, cache, cache.buf, cache.prev, cache.next, cache.disk
      ensures Valid() && Kept()
      ensures view == WithHead(lay, old(view), block[..n])
      ensures cache.disk.blocks == WithHead(lay, old(cache.disk.blocks), block[..n])
      ensures cache.disk.images == old(cache.disk.images) + [cache.disk.blocks]
    {
      SomeUnreferenced(cache.buf[..], dirty, view, pending, -1);
      assert lay.start !in pending;
      var b := Bread(lay.start);
      var head := cache.buf[b].data;
      head := NewHead(head);
      Modify(b, head);
      Bwrite(b);
      Brelse(b);
    }

    /** The words of struct logheader, in a copy of the block. */
    method NewHead(was: Block) returns (head: Block)
      requires Valid()
      ensures head == EncodeHead(was, block[..n])
    {
      hide BufferInv, IsCached, Linked, IsOrder, Stamped, CacheInv;
      ghost var lh := block[..n];
      head := SetWord(was, 0, n);
      var i := 0;
      while i < n
        invariant 0 <= i <= n && head == PutEntries(was, lh, i)
      {
        head := SetWord(head, i + 1, block[i]);
        i := i + 1;
      }
    }

    lemma UniqueBuffers()
      requires Valid()
      ensures Unique(cache.buf[..]) && cache.buf.Length == NBUF
    {
    }

    lemma Shape()
      requires Valid()
      ensures cache.buf.Length == NBUF && block.Length == LOGSIZE && n <= LOGSIZE
      ensures |view| == |cache.disk.blocks| == lay.blocks && IsLog(lay, block[..n])
    {
    }

    lemma TailFacts(tail: nat)
      requires Valid() && tail < n
      ensures cache.buf.Length == NBUF && block.Length == LOGSIZE && n <= LOGSIZE && |pending| < NBUF
      ensures block[tail] < |view| == |cache.disk.blocks| && lay.Home(block[tail])
      ensures lay.start + tail + 1 < |view| && lay.start + tail + 1 != block[tail]
    {
      assert block[tail] == block[..n][tail];
    }

    /** One turn of write_log's loop. */
    method LogOne(tail: nat)
      requires Valid() && tail < n && Unlocked(cache.buf[..]) && dirty == {} && pending == block[..n]
      modifies this`view, this`dirty, cache, cache.buf, cache.prev, cache.next, cache.disk
      ensures Valid() && Kept()
      ensures view == old(view)[lay.start + tail + 1 := old(view)[block[tail]]]
      ensures cache.disk.blocks == old(cache.disk.blocks)[lay.start + tail + 1 := old(view)[block[tail]]]
      ensures cache.disk.images == old(cache.disk.images) + [cache.disk.blocks]
    {
      hide Log.Valid;
      TailFacts(tail);
      assert block[tail] == pending[tail] && pending[tail] in pending;
      var to, from := BreadPair(lay.start + tail + 1, block[tail]);
      CopyOut(from, to);
      ReleaseBoth(from, to);
    }

    /** One turn of install_trans's loop. */
    method InstallOne(tail: nat, recovering: bool)
      requires Valid() && Unlocked(cache.buf[..]) && dirty == {} && tail < n
      requires if recovering then pending == [] else pending == block[tail..n]
      modifies this`view, this`dirty, this`pending, cache, cache.buf, cache.prev, cache.next, cache.disk
      ensures Valid() && Kept()
      ensures pending == if recovering then [] else block[tail + 1..n]
      ensures view == old(view)[block[tail] := old(view)[lay.start + tail + 1]]
      ensures cache.disk.blocks == old(cache.disk.blocks)[block[tail] := old(view)[lay.start + tail + 1]]
      ensures cache.disk.images == old(cache.disk.images) + [cache.disk.blocks]
    {
      hide Log.Valid;
      TailFacts(tail);
      assert !recovering ==> pending[0] == block[tail] && pending[0] in pending;
      var lbuf, dbuf := BreadPair(lay.start + tail + 1, block[tail]);
      CopyOut(lbuf, dbuf);
      if !recovering {
        Bunpin(dbuf);
      }
      ReleaseBoth(lbuf, dbuf);
    }

    method WriteLog()
      requires Valid() && Unlocked(cache.buf[..]) && dirty == {} && pending == block[..n]
      modifies this`view, this`dirty, cache, cache.buf, cache.prev, cache.next, cache.disk
      ensures Valid() && Kept()
      ensures view == CopyLog(lay, old(view), old(view), block[..n], n)
      ensures cache.disk.blocks == CopyLog(lay, old(cache.disk.blocks), old(view), block[..n], n)
      ensures cache.disk.images ==
              old(cache.disk.images) + CopyImages(lay, old(cache.disk.blocks), old(view), block[..n], n)
    {
      hide Log.Valid;
      Shape();
      ghost var lh, d0, v0, images0 := block[..n], cache.disk.blocks, view, cache.disk.images;
      var tail := 0;
      while tail < n
        invariant 0 <= tail <= n && Valid() && Kept() && pending == lh
        invariant view == CopyLog(lay, v0, v0, lh, tail)
        invariant cache.disk.blocks == CopyLog(lay, d0, v0, lh, tail)
        invariant cache.disk.images == images0 + CopyImages(lay, d0, v0, lh, tail)
      {
        CopyLogAt(lay, v0, v0, lh, tail, lh[tail]);
        LogOne(tail);
        tail := tail + 1;
      }
    }

    method InstallTrans(recovering: bool)
      requires Valid() && IsLog(lay, block[..n]) && |view| == |cache.disk.blocks| == lay.blocks
      requires Unlocked(cache.buf[..]) && dirty == {}
      requires pending == if recovering then [] else block[..n]
      requires SameLog(lay, cache.disk.blocks, view)
      modifies this`view, this`dirty, this`pending, cache, cache.buf, cache.prev, cache.next, cache.disk
      ensures Valid() && Kept() && pending == []
      ensures view == Install(lay, old(view), block[..n], n)
      ensures cache.disk.blocks == Install(lay, old(cache.disk.blocks), block[..n], n)
      ensures cache.disk.images ==
              old(cache.disk.images) + InstallImages(lay, old(cache.disk.blocks), block[..n], n)
    {
      hide Log.Valid;
      Shape();
      ghost var lh, d0, v0, images0 := block[..n], cache.disk.blocks, view, cache.disk.images;
      var tail := 0;
      while tail < n
        invariant 0 <= tail <= n && Valid() && Kept() && block[..n] == lh
        invariant pending == if recovering then [] else block[tail..n]
        invariant view == Install(lay, v0, lh, tail)
        invariant cache.disk.blocks == Install(lay, d0, lh, tail)
        invariant cache.disk.images == images0 + InstallImages(lay, d0, lh, tail)
      {
        InstallStep(lay, d0, v0, lh, tail);
        InstallOne(tail, recovering);
        tail := tail + 1;
      }
    }

    method Commit()
      requires Settled() && Unlocked(cache.buf[..]) && dirty == {}
      modifies this`view, this`dirty, this`pending, this`n, cache, cache.buf, cache.prev, cache.next, cache.disk
      ensures Settled() && n == 0 && Unlocked(cache.buf[..]) && dirty == {} && view == cache.disk.blocks
      ensures |view| == |old(view)| && forall bn: nat :: lay.Home(bn) ==> view[bn] == old(view)[bn]
      ensures cache.disk.images == old(cache.disk.images) +
              if old(n) == 0 then []
              else CommitImages(lay, old(cache.disk.blocks), old(view), old(block[..n]))
    {
      InStep();
      if n > 0 {
        WriteTransaction();
      }
    }

    /** commit up to its commit point. */
    method Record()
      requires Valid() && pending == block[..n] && Unlocked(cache.buf[..]) && dirty == {}
      modifies this`view, this`dirty, cache, cache.buf, cache.prev, cache.next, cache.disk
      ensures Valid() && Kept() && pending == block[..n] && IsLog(lay, block[..n])
      ensures |view| == |cache.disk.blocks| == |old(view)| == |old(cache.disk.blocks)| == lay.blocks
      ensures view == WithHead(lay, CopyLog(lay, old(view), old(view), block[..n], n), block[..n])
      ensures cache.disk.blocks ==
              WithHead(lay, CopyLog(lay, old(cache.disk.blocks), old(view), block[..n], n), block[..n])
      ensures cache.disk.images ==
              old(cache.disk.images) + CopyImages(lay, old(cache.disk.blocks), old(view), block[..n], n)
              + [cache.disk.blocks]
      ensures SameLog(lay, cache.disk.blocks, view)
    {
      hide Log.Valid, CopyLog, EncodeHead, Word;
      Shape();
      InStep();
      ghost var lh, d0, v0 := block[..n], cache.disk.blocks, view;
      WriteLog();
      WriteHead();
      CommittedLog(lay, d0, v0, lh, n);
    }

    /** commit when something is logged. */
    method WriteTransaction()
      requires Valid() && pending == block[..n] && Unlocked(cache.buf[..]) && dirty == {}
      modifies this`view, this`dirty, this`pending, this`n, cache, cache.buf, cache.prev, cache.next, cache.disk
      ensures Valid() && n == 0 && pending == [] && Unlocked(cache.buf[..]) && dirty == {}
      ensures committing == old(committing) && view == cache.disk.blocks
      ensures Word(view[lay.start], 0) == 0
      ensures |view| == |old(view)| && forall bn: nat :: lay.Home(bn) ==> view[bn] == old(view)[bn]
      ensures cache.disk.images ==
              old(cache.disk.images) + CommitImages(lay, old(cache.disk.blocks), old(view), old(block[..n]))
    {
      hide Log.Valid, CopyLog, Install, EncodeHead, Word;
      Shape();
      InStep();
      ghost var lh, v0 := block[..n], view;
      Record();
      InstallTrans(false);
      InstallKeepsView(lay, v0, lh, n);
      Reset();
      HeadRoundTrip(view[lay.start], []);
      WriteHead();
      InStep();
    }

    method Reset()
      requires Valid() && pending == []
      modifies this`n
      ensures Valid() && n == 0 && block[..n] == []
    {
      n := 0;
    }

    /** The disk differs from the block map in the pending blocks only. */
    lemma InStep()
      requires Valid()
      ensures |view| == |cache.disk.blocks| == lay.blocks && SameLog(lay, cache.disk.blocks, view)
      ensures pending == [] ==> cache.disk.blocks == view
    {
    }

    /** begin_op's test; false means that the caller goes to sleep. */
    method BeginOp() returns (admitted: bool)
      requires Open()
      modifies this`outstanding
      ensures Open()
      ensures admitted <==> !committing && n + (old(outstanding) + 1) * MAXOPBLOCKS <= LOGSIZE
      ensures outstanding == if admitted then old(outstanding) + 1 else old(outstanding)
    {
      admitted := !(committing || n + (outstanding + 1) * MAXOPBLOCKS > LOGSIZE);
      if admitted {
        outstanding := outstanding + 1;
      }
    }

    /** end_op: the last outstanding operation commits. */
    method EndOp()
      requires Open() && outstanding > 0
      requires outstanding == 1 ==> Unlocked(cache.buf[..]) && dirty == {}
      modifies this, cache, cache.buf, cache.prev, cache.next, cache.disk
      ensures Open() && outstanding == old(outstanding) - 1
      ensures |view| == |old(view)| && forall bn: nat :: lay.Home(bn) ==> view[bn] == old(view)[bn]
      ensures dirty == old(dirty)
      ensures outstanding > 0 ==>
                && n == old(n) && view == old(view) && cache.buf[..] == old(cache.buf[..])
                && cache.disk.blocks == old(cache.disk.blocks) && cache.disk.images == old(cache.disk.images)
      ensures outstanding == 0 ==>
                && n == 0 && view == cache.disk.blocks && Unlocked(cache.buf[..])
                && cache.disk.images == old(cache.disk.images) +
                   (if old(n) == 0 then []
                    else CommitImages(lay, old(cache.disk.blocks), old(view), old(block[..n])))
    {
      outstanding := outstanding - 1;
      if outstanding == 0 {
        committing := true;
        Commit();
        committing := false;
      }
    }
  }

  /** Buffers that keep their block and stay valid leave every block cached. */
  lemma KeepsBlocks(was: seq<Buf>, now: seq<Buf>, pending: seq<nat>)
    requires |was| == |now|
    requires forall i :: 0 <= i < |was| ==>
               now[i].dev == was[i].dev && now[i].blockno == was[i].blockno && (was[i].valid ==> now[i].valid)
    ensures forall bn :: bn in pending && IsCached(was, bn) ==> IsCached(now, bn)
  {
    forall bn | bn in pending && IsCached(was, bn) ensures IsCached(now, bn) {
      var i :| 0 <= i < |was| && was[i].dev == ROOTDEV && was[i].blockno == bn && was[i].valid;
      assert now[i].dev == ROOTDEV;
    }
  }

  /** Logging a locked buffer updates the block map at its block, and pins
      the buffer if the block is not in the log yet. */
  lemma AppendInv(was: seq<Buf>, dirty: set<nat>, disk: Image, view: Image, logged: seq<nat>, i: nat)
    requires CacheInv(was, dirty, disk, view, logged) && Unique(was) && i < |was| && was[i].locked
    ensures var b := was[i];
            var first := b.blockno !in logged;
            && b.dev == ROOTDEV && b.blockno < |view|
            && CacheInv(if first then was[i := b.(refcnt := b.refcnt + 1)] else was, dirty - {i}, disk,
                        view[b.blockno := b.data], if first then logged + [b.blockno] else logged)
  {
    var b := was[i];
    assert BufferInv(b, i in dirty, view, logged);
    if b.blockno !in logged {
      var now := was[i := b.(refcnt := b.refcnt + 1)];
      KeepsBlocks(was, now, logged);
      assert now[i].dev == ROOTDEV;
    }
  }

  /** bget never recycles the buffer of a logged block. */
  lemma StillCached(was: seq<Buf>, now: seq<Buf>, view: Image, dirty: set<nat>, pending: seq<nat>, i: nat)
    requires |was| == |now| && i < |was| && now == was[i := now[i]] && now[i].valid
    requires forall j :: 0 <= j < |was| ==> BufferInv(was[j], j in dirty, view, pending)
    requires Holds(was[i], now[i].dev, now[i].blockno) || was[i].refcnt == 0
    ensures forall bn :: bn in pending && IsCached(was, bn) ==> IsCached(now, bn)
  {
    forall bn | bn in pending && IsCached(was, bn) ensures IsCached(now, bn) {
      var j :| 0 <= j < |was| && was[j].dev == ROOTDEV && was[j].blockno == bn && was[j].valid;
      assert BufferInv(was[j], j in dirty, view, pending);
      assert now[j].dev == ROOTDEV;
    }
  }

  /** Two images with the same log area. */
  ghost predicate SameLog(lay: Layout, a: Image, b: Image)
    requires lay.Valid() && |a| == |b| == lay.blocks
  {
    forall bn: nat :: lay.start <= bn < lay.start + lay.size ==> a[bn] == b[bn]
  }

  lemma InstallStep(lay: Layout, v: Image, d: Image, lh: seq<nat>, tail: nat)
    requires IsLog(lay, lh) && |v| == |d| == lay.blocks && SameLog(lay, v, d) && tail < |lh|
    ensures Install(lay, v, lh, tail)[lay.start + tail + 1] == Install(lay, d, lh, tail)[lay.start + tail + 1]
  {
    InstallAt(lay, v, lh, tail, lay.start + tail + 1);
    InstallAt(lay, d, lh, tail, lay.start + tail + 1);
    NotLogged(lay, lh, tail, lay.start + tail + 1);
  }

  /** After the header is written, the log of the block map is the disk's. */
  lemma CommittedLog(lay: Layout, d: Image, v: Image, lh: seq<nat>, n: nat)
    requires |d| == |v| == lay.blocks && IsLog(lay, lh) && n == |lh| && SameLog(lay, d, v)
    ensures SameLog(lay, WithHead(lay, CopyLog(lay, d, v, lh, n), lh), WithHead(lay, CopyLog(lay, v, v, lh, n), lh))
  {
    forall bn: nat | lay.start <= bn < lay.start + lay.size
      ensures CopyLog(lay, d, v, lh, n)[bn] == CopyLog(lay, v, v, lh, n)[bn]
    {
      CopyLogAt(lay, d, v, lh, n, bn);
      CopyLogAt(lay, v, v, lh, n, bn);
    }
  }

  /** Installing changes no home block of the block map. */
  lemma InstallKeepsView(lay: Layout, v: Image, lh: seq<nat>, n: nat)
    requires |v| == lay.blocks && IsLog(lay, lh) && n == |lh|
    ensures var decided := WithHead(lay, CopyLog(lay, v, v, lh, n), lh);
            forall bn: nat :: lay.Home(bn) ==> Install(lay, decided, lh, n)[bn] == v[bn]
  {
    CopiedBlocks(lay, v, v, lh, n);
    InstallCopies(lay, v, v, lh, WithHead(lay, CopyLog(lay, v, v, lh, n), lh), n);
  }

  /** At most one locked buffer, and fewer blocks pinned than the rest of the
      buffers: "bget: no buffers" cannot happen. */
  lemma SomeUnreferenced(bufs: seq<Buf>, dirty: set<nat>, view: Image, pending: seq<nat>, held: int)
    requires |bufs| == NBUF && Unique(bufs) && -1 <= held < NBUF
    requires forall i :: 0 <= i < NBUF ==> BufferInv(bufs[i], i in dirty, view, pending)
    requires forall i :: 0 <= i < NBUF && bufs[i].locked ==> i == held
    requires |pending| + (if held >= 0 then 1 else 0) < NBUF
    ensures exists i :: 0 <= i < NBUF && bufs[i].refcnt == 0
  {
    if forall i :: 0 <= i < NBUF ==> bufs[i].refcnt > 0 {
      var all := BlocksOf(bufs, held, NBUF);
      SetFitsList(all, pending);
    }
  }

  /** The distinct blocks of the first k buffers, leaving out one. */
  lemma {:induction false} BlocksOf(bufs: seq<Buf>, held: int, k: nat) returns (s: set<nat>)
    requires Unique(bufs) && k <= |bufs|
    requires forall i :: 0 <= i < |bufs| && i != held ==> bufs[i].dev == ROOTDEV
    ensures forall bn :: bn in s ==> exists i :: 0 <= i < k && i != held && bufs[i].blockno == bn
    ensures |s| == if 0 <= held < k then k - 1 else k
  {
    s := {};
    if k > 0 {
      var r := BlocksOf(bufs, held, k - 1);
      s := if k - 1 == held then r else r + {bufs[k - 1].blockno};
    }
  }
}
