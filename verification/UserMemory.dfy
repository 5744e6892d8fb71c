/** lab2/kernel/vm.c: copyout, copyin and copyinstr, between the kernel and the
    bytes of a user address space. */
module UserMemory {
  import opened PageMemory
  import opened PageTree
  import opened PageTable

  /** walkaddr finds the page: below MAXVA, valid and for users. */
  predicate IsUser(e: Pte, v: nat) {
    v < MAXVPN && e.flags & V != 0 && e.flags & U != 0
  }

  ghost predicate FrameOk(t: Pagetable, v: nat)
    requires t.Valid()
    reads t, t.mem
  {
    var p := t.Leaf(v).ppn;
    0 < p && t.IsFrame(p) && t.mem.lo <= p < t.mem.hi && t.mem.page[p].Frame? && |t.mem.page[p].bytes| == PGSIZE
  }

  /** Every user page is a frame of its own. */
  ghost predicate Space(t: Pagetable)
    reads t, t.mem
  {
    && t.Valid()
    && (forall v: nat :: IsUser(t.Leaf(v), v) ==> FrameOk(t, v))
    && forall v: nat, w: nat :: IsUser(t.Leaf(v), v) && IsUser(t.Leaf(w), w) && v != w ==> t.Leaf(v).ppn != t.Leaf(w).ppn
  }

  ghost predicate Reachable(t: Pagetable, va: nat)
    requires t.Valid()
    reads t, t.mem
  {
    IsUser(t.Leaf(va / PGSIZE), va / PGSIZE)
  }

  /** The byte at a user address. */
  ghost function ByteAt(t: Pagetable, va: nat): int
    requires Space(t) && Reachable(t, va)
    reads t, t.mem
  {
    assert FrameOk(t, va / PGSIZE);
    t.mem.page[t.Leaf(va / PGSIZE).ppn].bytes[va % PGSIZE]
  }

  /** The part of [va, va + len) that lies in va's page. */
  function InPage(va: nat, len: nat): nat {
    if PGSIZE - va % PGSIZE > len then len else PGSIZE - va % PGSIZE
  }

  lemma SamePage(va: nat, len: nat, k: nat)
    requires k < InPage(va, len)
    ensures (va + k) / PGSIZE == va / PGSIZE && (va + k) % PGSIZE == va % PGSIZE + k
  {
  }

  lemma NextPage(va: nat, len: nat)
    ensures InPage(va, len) < len ==> va + InPage(va, len) == va / PGSIZE * PGSIZE + PGSIZE
  {
  }

  /** walkaddr for the page of va, as its frame. */
  method PageOf(t: Pagetable, va: nat, ghost leaf: nat -> Pte, ghost f: nat -> int) returns (found: bool, p: nat)
    requires Holds(t, leaf, f)
    modifies t.mem, t`nodes
    ensures Holds(t, leaf, f) && t.nodes == old(t.nodes) && unchanged(t.mem)
    ensures found == UserAt(leaf, va)
    ensures found ==> Reachable(t, va) && p == t.Leaf(va / PGSIZE).ppn && FrameOk(t, va / PGSIZE)
  {
    hide Pagetable.Valid, Pagetable.Leaf;
    var pa := t.WalkAddr(va / PGSIZE * PGSIZE);
    PageStart(va);
    p := pa / PGSIZE;
    found := pa != 0;
    assert Reachable(t, va) ==> FrameOk(t, va / PGSIZE);
  }

  lemma PageStart(va: nat)
    ensures va / PGSIZE * PGSIZE / PGSIZE == va / PGSIZE && forall p: nat :: p * PGSIZE / PGSIZE == p
  {
  }

  /** The same translations, and the bytes of the user pages as in f. */
  ghost predicate Holds(t: Pagetable, leaf: nat -> Pte, f: nat -> int)
    reads t, t.mem
  {
    && Space(t) && (forall v: nat :: t.Leaf(v) == leaf(v))
    && forall va: nat :: Reachable(t, va) ==> ByteAt(t, va) == f(va)
  }

  /** The bytes of f with d at va. */
  ghost function Patch(f: nat -> int, va: nat, d: seq<int>): nat -> int {
    (x: nat) => if va <= x < va + |d| then d[x - va] else f(x)
  }

  ghost predicate IsUsersFrame(leaf: nat -> Pte, p: nat) {
    exists v: nat :: IsUser(leaf(v), v) && leaf(v).ppn == p
  }

  /** No page but those of the user has changed. */
  ghost predicate OnlyUsers(leaf: nat -> Pte, was: map<nat, Page>, now: map<nat, Page>) {
    was.Keys == now.Keys && forall p :: p in was && !IsUsersFrame(leaf, p) ==> now[p] == was[p]
  }

  /** memmove into the frame of va's page. */
  method WritePage(t: Pagetable, va: nat, p: nat, d: seq<int>, ghost leaf: nat -> Pte, ghost f: nat -> int)
    requires Holds(t, leaf, f) && Reachable(t, va) && p == t.Leaf(va / PGSIZE).ppn && FrameOk(t, va / PGSIZE)
    requires |d| <= PGSIZE - va % PGSIZE
    modifies t.mem`page
    ensures Holds(t, leaf, Patch(f, va, d)) && OnlyUsers(leaf, old(t.mem.page), t.mem.page)
  {
    ghost var was := t.mem.page;
    var o := va % PGSIZE;
    var bytes := t.mem.page[p].bytes;
    var now := bytes[..o] + d + bytes[o + |d|..];
    t.TreeIs();
    t.mem.Store(p, Frame(now));
    SameTables(was, t.mem.page, t.nodes);
    StillHolds(t, was, va, p, d, now, leaf, f);
  }

  lemma StillHolds(t: Pagetable, was: map<nat, Page>, va: nat, p: nat, d: seq<int>, now: seq<int>,
                   leaf: nat -> Pte, f: nat -> int)
    requires t.Valid() && (forall v: nat :: t.Leaf(v) == leaf(v)) && UserAt(leaf, va)
    requires p == leaf(va / PGSIZE).ppn && p in was && t.mem.page == was[p := Frame(now)] && was[p].Frame?
    requires forall v: nat :: IsUser(leaf(v), v) ==>
               var q := leaf(v).ppn;
               0 < q && t.IsFrame(q) && t.mem.lo <= q < t.mem.hi && q in was && was[q].Frame? && |was[q].bytes| == PGSIZE
    requires forall v: nat, w: nat :: IsUser(leaf(v), v) && IsUser(leaf(w), w) && v != w ==> leaf(v).ppn != leaf(w).ppn
    requires forall x: nat :: UserAt(leaf, x) ==> was[leaf(x / PGSIZE).ppn].bytes[x % PGSIZE] == f(x)
    requires var o := va % PGSIZE; |d| <= PGSIZE - o && now == was[p].bytes[..o] + d + was[p].bytes[o + |d|..]
    ensures Holds(t, leaf, Patch(f, va, d))
  {
    hide Pagetable.Valid, Pagetable.Leaf;
    assert Space(t);
    forall x: nat | Reachable(t, x) ensures ByteAt(t, x) == Patch(f, va, d)(x) {
      if x / PGSIZE == va / PGSIZE {
        OneByte(va, |d|, x);
      } else {
        OtherPage(va, |d|, x);
      }
    }
  }

  lemma OneByte(va: nat, n: nat, x: nat)
    requires x / PGSIZE == va / PGSIZE && n <= PGSIZE - va % PGSIZE
    ensures va <= x < va + n <==> va % PGSIZE <= x % PGSIZE < va % PGSIZE + n
    ensures va <= x ==> x % PGSIZE - va % PGSIZE == x - va
  {
  }

  lemma OtherPage(va: nat, n: nat, x: nat)
    requires x / PGSIZE != va / PGSIZE && n <= PGSIZE - va % PGSIZE
    ensures !(va <= x < va + n)
  {
  }

  predicate UserAt(leaf: nat -> Pte, x: nat) {
    IsUser(leaf(x / PGSIZE), x / PGSIZE)
  }

  /** All of [va, va + n) can be reached. */
  ghost predicate AllReachable(leaf: nat -> Pte, va: nat, n: nat) {
    forall x: nat :: va <= x < va + n ==> UserAt(leaf, x)
  }

  lemma MoreReachable(leaf: nat -> Pte, va: nat, done: nat, n: nat)
    requires AllReachable(leaf, va, done) && UserAt(leaf, va + done)
    requires n <= PGSIZE - (va + done) % PGSIZE
    ensures AllReachable(leaf, va, done + n)
  {
    forall x: nat | va + done <= x < va + done + n ensures x / PGSIZE == (va + done) / PGSIZE {
      SamePage(va + done, n, x - (va + done));
    }
  }

  ghost predicate Same(f: nat -> int, g: nat -> int) {
    forall x: nat :: f(x) == g(x)
  }

  lemma HoldsSame(t: Pagetable, leaf: nat -> Pte, f: nat -> int, g: nat -> int)
    requires Holds(t, leaf, f) && Same(f, g)
    ensures Holds(t, leaf, g)
  {
  }

  lemma PatchTwice(f: nat -> int, va: nat, src: seq<int>, done: nat, n: nat)
    requires done + n <= |src|
    ensures Same(Patch(Patch(f, va, src[..done]), va + done, src[done..done + n]), Patch(f, va, src[..done + n]))
  {
  }

  /** copyout: src is at dstva afterwards, or all of it that comes before the
      first page that is not the user's; no other user byte changes. */
  method CopyOut(t: Pagetable, dstva: nat, src: seq<int>, ghost leaf: nat -> Pte, ghost f: nat -> int)
      returns (ok: bool, ghost done: nat)
    requires Holds(t, leaf, f)
    modifies t.mem, t`nodes
    ensures done <= |src| && Holds(t, leaf, Patch(f, dstva, src[..done])) && t.nodes == old(t.nodes)
    ensures t.mem.free == old(t.mem.free) && OnlyUsers(leaf, old(t.mem.page), t.mem.page)
    ensures forall x: nat :: Reachable(t, x) ==>
              ByteAt(t, x) == if dstva <= x < dstva + done then src[x - dstva] else f(x)
    ensures ok <==> AllReachable(leaf, dstva, |src|)
    ensures if ok then done == |src|
            else done < |src| && AllReachable(leaf, dstva, done)
                 && !UserAt(leaf, dstva + done)
  {
    hide Holds, Space, FrameOk, UserAt, Patch, IsUsersFrame;
    done := 0;
    var va, len := dstva, |src|;
    assert Holds(t, leaf, Patch(f, dstva, src[..done])) by {
      PatchNothing(f, dstva, src[..0]);
      HoldsSame(t, leaf, f, Patch(f, dstva, src[..0]));
    }
    while len > 0
      invariant 0 <= len && done + len == |src| && (len > 0 ==> va == dstva + done)
      invariant Holds(t, leaf, Patch(f, dstva, src[..done])) && AllReachable(leaf, dstva, done) && t.nodes == old(t.nodes)
      invariant t.mem.free == old(t.mem.free) && OnlyUsers(leaf, old(t.mem.page), t.mem.page)
    {
      var found, p := PageOf(t, va, leaf, Patch(f, dstva, src[..done]));
      if !found {
        Placed(t, leaf, f, dstva, src[..done]);
        return false, done;
      }
      var n := PGSIZE - va % PGSIZE;
      if n > len {
        n := len;
      }
      var from := |src| - len;
      WritePage(t, va, p, src[from..from + n], leaf, Patch(f, dstva, src[..done]));
      PatchTwice(f, dstva, src, done, n);
      HoldsSame(t, leaf, Patch(Patch(f, dstva, src[..done]), va, src[from..from + n]), Patch(f, dstva, src[..done + n]));
      MoreReachable(leaf, dstva, done, n);
      NextPage(va, len);
      done := done + n;
      len := len - n;
      va := va / PGSIZE * PGSIZE + PGSIZE;
    }
    Placed(t, leaf, f, dstva, src[..done]);
    return true, done;
  }

  lemma Placed(t: Pagetable, leaf: nat -> Pte, f: nat -> int, va: nat, d: seq<int>)
    requires Holds(t, leaf, Patch(f, va, d))
    ensures Space(t) && forall x: nat :: Reachable(t, x) ==> ByteAt(t, x) == if va <= x < va + |d| then d[x - va] else f(x)
  {
  }

  /** copyout does not look at PTE_W: a byte that the user may only read is
      written all the same. */
  method CopyOutReadOnly(t: Pagetable, va: nat, b: int, ghost leaf: nat -> Pte, ghost f: nat -> int)
      returns (ok: bool)
    requires Holds(t, leaf, f) && va / PGSIZE < MAXVPN && leaf(va / PGSIZE).flags == V | R | U
    modifies t.mem, t`nodes
    ensures ok && Holds(t, leaf, Patch(f, va, [b])) && UserAt(leaf, va) && leaf(va / PGSIZE).flags & W == 0
    ensures Reachable(t, va) && ByteAt(t, va) == b
  {
    assert (V | R | U) & V != 0 && (V | R | U) & U != 0 && (V | R | U) & W == 0;
    hide Holds, Patch;
    ghost var done;
    ok, done := CopyOut(t, va, [b], leaf, f);
    assert [b][..1] == [b];
  }

  lemma PatchNothing(f: nat -> int, va: nat, d: seq<int>)
    requires d == []
    ensures Same(f, Patch(f, va, d))
  {
  }

  /** The bytes of f from va on. */
  ghost predicate IsCopy(f: nat -> int, va: nat, d: seq<int>) {
    forall k :: 0 <= k < |d| ==> d[k] == f(va + k)
  }

  /** memmove out of the frame of va's page. */
  method ReadPage(t: Pagetable, va: nat, p: nat, n: nat, ghost leaf: nat -> Pte, ghost f: nat -> int)
      returns (d: seq<int>)
    requires Holds(t, leaf, f) && Reachable(t, va) && p == t.Leaf(va / PGSIZE).ppn && FrameOk(t, va / PGSIZE)
    requires n <= PGSIZE - va % PGSIZE
    ensures |d| == n && IsCopy(f, va, d)
  {
    hide Pagetable.Valid, Pagetable.Leaf;
    var o := va % PGSIZE;
    d := t.mem.page[p].bytes[o..o + n];
    forall k: nat | k < n ensures d[k] == f(va + k) {
      SamePage(va, n, k);
      assert Reachable(t, va + k) && ByteAt(t, va + k) == f(va + k);
    }
  }

  /** copyin: the bytes from srcva on, up to the first page that is not the
      user's; the user's memory is as it was. */
  method CopyIn(t: Pagetable, srcva: nat, len: nat, ghost leaf: nat -> Pte, ghost f: nat -> int)
      returns (ok: bool, dst: seq<int>)
    requires Holds(t, leaf, f)
    modifies t.mem, t`nodes
    ensures Holds(t, leaf, f) && t.nodes == old(t.nodes) && unchanged(t.mem)
    ensures ok <==> AllReachable(leaf, srcva, len)
    ensures |dst| <= len && IsCopy(f, srcva, dst)
    ensures if ok then |dst| == len else |dst| < len && AllReachable(leaf, srcva, |dst|)
                                         && !UserAt(leaf, srcva + |dst|)
  {
    hide Holds, Space, FrameOk, UserAt;
    dst := [];
    var va, left := srcva, len;
    while left > 0
      invariant 0 <= left && |dst| + left == len && (left > 0 ==> va == srcva + |dst|)
      invariant Holds(t, leaf, f) && AllReachable(leaf, srcva, |dst|) && IsCopy(f, srcva, dst) && t.nodes == old(t.nodes)
      invariant unchanged(t.mem)
    {
      var found, p := PageOf(t, va, leaf, f);
      if !found {
        return false, dst;
      }
      var n := PGSIZE - va % PGSIZE;
      if n > left {
        n := left;
      }
      var d := ReadPage(t, va, p, n, leaf, f);
      MoreReachable(leaf, srcva, |dst|, n);
      NextPage(va, left);
      dst := dst + d;
      left := left - n;
      va := va / PGSIZE * PGSIZE + PGSIZE;
    }
    return true, dst;
  }

  /** The first NUL of a byte sequence ends it. */
  ghost predicate IsCString(d: seq<int>) {
    d != [] && d[|d| - 1] == 0 && forall k :: 0 <= k < |d| - 1 ==> d[k] != 0
  }

  /** A NUL at va + n, with nothing that cannot be reached before it. */
  ghost predicate EndsAt(leaf: nat -> Pte, f: nat -> int, va: nat, n: nat) {
    AllReachable(leaf, va, n + 1) && f(va + n) == 0
  }

  /** copyinstr's loop over one page. */
  method ScanPage(d: seq<int>) returns (gotNull: bool, k: nat)
    ensures k <= |d| && (forall j :: 0 <= j < k ==> d[j] != 0)
    ensures if gotNull then k < |d| && d[k] == 0 else k == |d|
  {
    k := 0;
    while k < |d|
      invariant k <= |d| && forall j :: 0 <= j < k ==> d[j] != 0
    {
      if d[k] == 0 {
        return true, k;
      }
      k := k + 1;
    }
    return false, k;
  }

  /** copyinstr: the string at srcva with its NUL, if that comes within max
      bytes and before any page that is not the user's; otherwise -1. */
  method CopyInStr(t: Pagetable, srcva: nat, max: nat, ghost leaf: nat -> Pte, ghost f: nat -> int)
      returns (ok: bool, dst: seq<int>)
    requires Holds(t, leaf, f)
    modifies t.mem, t`nodes
    ensures Holds(t, leaf, f) && t.nodes == old(t.nodes) && unchanged(t.mem)
    ensures |dst| <= max && IsCopy(f, srcva, dst)
    ensures ok <==> exists n :: 0 <= n < max && EndsAt(leaf, f, srcva, n)
    ensures ok ==> IsCString(dst) && AllReachable(leaf, srcva, |dst|)
  {
    hide Holds, Space, FrameOk, UserAt;
    dst := [];
    var va, left, gotNull := srcva, max, false;
    while !gotNull && left > 0
      invariant 0 <= left && |dst| + left == max && (left > 0 && !gotNull ==> va == srcva + |dst|)
      invariant Holds(t, leaf, f) && AllReachable(leaf, srcva, |dst|) && IsCopy(f, srcva, dst) && t.nodes == old(t.nodes)
      invariant unchanged(t.mem)
      invariant if gotNull then IsCString(dst) else forall k :: 0 <= k < |dst| ==> dst[k] != 0
      decreases left, !gotNull
    {
      var found, p := PageOf(t, va, leaf, f);
      if !found {
        NoString(leaf, f, srcva, max, dst);
        return false, dst;
      }
      var n := PGSIZE - va % PGSIZE;
      if n > left {
        n := left;
      }
      var d := ReadPage(t, va, p, n, leaf, f);
      var k;
      gotNull, k := ScanPage(d);
      if gotNull {
        k := k + 1;
      }
      MoreReachable(leaf, srcva, |dst|, k);
      NextPage(va, left);
      dst := dst + d[..k];
      left := left - k;
      va := va / PGSIZE * PGSIZE + PGSIZE;
    }
    if gotNull {
      assert EndsAt(leaf, f, srcva, |dst| - 1);
    } else {
      NoString(leaf, f, srcva, max, dst);
    }
    return gotNull, dst;
  }

  lemma NoString(leaf: nat -> Pte, f: nat -> int, va: nat, max: nat, d: seq<int>)
    requires IsCopy(f, va, d) && (forall k :: 0 <= k < |d| ==> d[k] != 0) && |d| <= max
    requires |d| < max ==> !UserAt(leaf, va + |d|)
    ensures forall n :: 0 <= n < max ==> !EndsAt(leaf, f, va, n)
  {
    var x: nat := va + |d|;
    forall n | 0 <= n < max ensures !EndsAt(leaf, f, va, n) {
      if n < |d| {
        assert d[n] == f(va + n);
      } else {
        assert AllReachable(leaf, va, n + 1) ==> UserAt(leaf, x);
      }
    }
  }
}
