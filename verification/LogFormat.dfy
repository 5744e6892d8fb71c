/** The on-disk log of lab2/kernel/log.c as values: the header block, what
    commit and recovery write, and what every crash in between leaves. */
module LogFormat {
  import opened Blocks

  const LOGSIZE: nat := 30
  const MAXOPBLOCKS: nat := 10

  type Image = seq<Block>

  /** Where the log is: a header block, then size - 1 log blocks.  mkfs makes
      size equal to LOGSIZE. */
  datatype Layout = Layout(start: nat, size: nat, blocks: nat) {
    predicate Valid() {
      1 <= size <= LOGSIZE && start + size <= blocks < WORD_LIMIT
    }

    predicate Home(bn: nat) {
      bn < blocks && !(start <= bn < start + size)
    }
  }

  /** A list of block numbers that the log can hold. */
  ghost predicate IsLog(lay: Layout, lh: seq<nat>) {
    lay.Valid() && |lh| <= LOGSIZE && |lh| < lay.size && forall j :: 0 <= j < |lh| ==> lay.Home(lh[j])
  }

  function HeadList(b: Block): seq<nat>
    requires Word(b, 0) <= LOGSIZE
  {
    seq(Word(b, 0), j requires 0 <= j < Word(b, 0) => Word(b, j + 1))
  }

  /** write_head after k turns of its loop, and after the last. */
  function PutEntries(b: Block, lh: seq<nat>, k: nat): Block
    requires k <= |lh| <= LOGSIZE && forall j :: 0 <= j < |lh| ==> lh[j] < WORD_LIMIT
  {
    if k == 0 then SetWord(b, 0, |lh|) else SetWord(PutEntries(b, lh, k - 1), k, lh[k - 1])
  }

  function EncodeHead(b: Block, lh: seq<nat>): Block
    requires |lh| <= LOGSIZE && forall j :: 0 <= j < |lh| ==> lh[j] < WORD_LIMIT
  {
    PutEntries(b, lh, |lh|)
  }

  lemma {:induction false} WordOfEntries(b: Block, lh: seq<nat>, k: nat, j: nat)
    requires k <= |lh| <= LOGSIZE && j < WORDS && forall j :: 0 <= j < |lh| ==> lh[j] < WORD_LIMIT
    ensures Word(PutEntries(b, lh, k), j) ==
            if j == 0 then |lh| else if j <= k then lh[j - 1] else Word(b, j)
  {
    if k == 0 {
      WordOfSetWord(b, 0, |lh|, j);
    } else {
      WordOfEntries(b, lh, k - 1, j);
      WordOfSetWord(PutEntries(b, lh, k - 1), k, lh[k - 1], j);
    }
  }

  /** A header written by write_head reads back as the list written, and the
      words past the list keep their old values. */
  lemma HeadRoundTrip(b: Block, lh: seq<nat>)
    requires |lh| <= LOGSIZE && forall j :: 0 <= j < |lh| ==> lh[j] < WORD_LIMIT
    ensures Word(EncodeHead(b, lh), 0) == |lh| && HeadList(EncodeHead(b, lh)) == lh
    ensures forall j :: |lh| < j < WORDS ==> Word(EncodeHead(b, lh), j) == Word(b, j)
  {
    forall j | 0 <= j < WORDS
      ensures Word(EncodeHead(b, lh), j) == if j == 0 then |lh| else if j <= |lh| then lh[j - 1] else Word(b, j)
    {
      WordOfEntries(b, lh, |lh|, j);
    }
  }

  /** A disk whose header is one that commit or mkfs can have written. */
  ghost predicate WellFormed(lay: Layout, d: Image) {
    && lay.Valid() && |d| == lay.blocks
    && Word(d[lay.start], 0) <= LOGSIZE && IsLog(lay, HeadList(d[lay.start]))
  }

  /** write_log after k turns of its loop, reading the blocks from `cached`. */
  function CopyLog<T>(lay: Layout, d: seq<T>, cached: seq<T>, lh: seq<nat>, k: nat): (r: seq<T>)
    requires IsLog(lay, lh) && |d| == |cached| == lay.blocks && k <= |lh|
    ensures |r| == |d|
  {
    if k == 0 then d
    else CopyLog(lay, d, cached, lh, k - 1)[lay.start + k := cached[lh[k - 1]]]
  }

  /** install_trans after k turns of its loop. */
  function Install<T>(lay: Layout, d: seq<T>, lh: seq<nat>, k: nat): (r: seq<T>)
    requires IsLog(lay, lh) && |d| == lay.blocks && k <= |lh|
    ensures |r| == |d|
  {
    if k == 0 then d
    else var p := Install(lay, d, lh, k - 1); p[lh[k - 1] := p[lay.start + k]]
  }

  function WithHead(lay: Layout, d: Image, lh: seq<nat>): Image
    requires IsLog(lay, lh) && |d| == lay.blocks
  {
    d[lay.start := EncodeHead(d[lay.start], lh)]
  }

  /** The disk that an uninterrupted recovery produces. */
  function Recovered(lay: Layout, d: Image): (r: Image)
    requires WellFormed(lay, d)
    ensures |r| == |d|
  {
    var lh := HeadList(d[lay.start]);
    WithHead(lay, Install(lay, d, lh, |lh|), [])
  }

  /** The disk after each of the first k writes of write_log. */
  ghost function CopyImages(lay: Layout, d: Image, cached: Image, lh: seq<nat>, k: nat): (r: seq<Image>)
    requires IsLog(lay, lh) && |d| == |cached| == lay.blocks && k <= |lh|
    ensures |r| == k && forall j :: 0 <= j < k ==> r[j] == CopyLog(lay, d, cached, lh, j + 1)
  {
    if k == 0 then [] else CopyImages(lay, d, cached, lh, k - 1) + [CopyLog(lay, d, cached, lh, k)]
  }

  /** The disk after each of the first k writes of install_trans. */
  ghost function InstallImages(lay: Layout, d: Image, lh: seq<nat>, k: nat): (r: seq<Image>)
    requires IsLog(lay, lh) && |d| == lay.blocks && k <= |lh|
    ensures |r| == k && forall j :: 0 <= j < k ==> r[j] == Install(lay, d, lh, j + 1)
  {
    if k == 0 then [] else InstallImages(lay, d, lh, k - 1) + [Install(lay, d, lh, k)]
  }

  /** The disk after each of recovery's writes, in order. */
  ghost function RecoveryImages(lay: Layout, d: Image): seq<Image>
    requires WellFormed(lay, d)
  {
    var lh := HeadList(d[lay.start]);
    var n := |lh|;
    InstallImages(lay, d, lh, n) + [Recovered(lay, d)]
  }

  /** The disk after each of commit's writes, in order: the log blocks, the
      header, the home blocks, and the empty header. */
  ghost function CommitImages(lay: Layout, d: Image, cached: Image, lh: seq<nat>): seq<Image>
    requires IsLog(lay, lh) && |d| == |cached| == lay.blocks
  {
    var n := |lh|;
    var logged := CopyLog(lay, d, cached, lh, n);
    var decided := WithHead(lay, logged, lh);
    CopyImages(lay, d, cached, lh, n) + [decided] + InstallImages(lay, decided, lh, n)
    + [WithHead(lay, Install(lay, decided, lh, n), [])]
  }

  /** The same home blocks, except those listed, which are as in `cached`. */
  ghost predicate Updated<T>(lay: Layout, d: seq<T>, cached: seq<T>, lh: seq<nat>, r: seq<T>)
    requires |d| == |cached| == |r| == lay.blocks
  {
    forall bn: nat :: lay.Home(bn) ==> r[bn] == if bn in lh then cached[bn] else d[bn]
  }

  lemma {:induction false} CopyLogAt<T>(lay: Layout, d: seq<T>, cached: seq<T>, lh: seq<nat>, k: nat, bn: nat)
    requires IsLog(lay, lh) && |d| == |cached| == lay.blocks && k <= |lh| && bn < lay.blocks
    ensures CopyLog(lay, d, cached, lh, k)[bn] ==
            if lay.start < bn <= lay.start + k then cached[lh[bn - lay.start - 1]] else d[bn]
  {
    if k > 0 {
      CopyLogAt(lay, d, cached, lh, k - 1, bn);
    }
  }

  /** The last of the first k entries that names the block; -1 if none does. */
  ghost function LastEntry(lh: seq<nat>, k: nat, bn: nat): (j: int)
    requires k <= |lh|
    ensures -1 <= j < k && (j >= 0 ==> lh[j] == bn)
    ensures j >= 0 <==> bn in lh[..k]
  {
    if k == 0 then -1
    else
      assert lh[..k] == lh[..k - 1] + [lh[k - 1]];
      if lh[k - 1] == bn then k - 1 else LastEntry(lh, k - 1, bn)
  }

  /** Installing touches home blocks only, and leaves each listed one equal to
      the block that the last entry naming it has in the log. */
  lemma {:induction false} InstallAt<T>(lay: Layout, d: seq<T>, lh: seq<nat>, k: nat, bn: nat)
    requires IsLog(lay, lh) && |d| == lay.blocks && k <= |lh| && bn < lay.blocks
    ensures var j := LastEntry(lh, k, bn);
            Install(lay, d, lh, k)[bn] == if j < 0 then d[bn] else d[lay.start + j + 1]
  {
    if k > 0 {
      InstallAt(lay, d, lh, k - 1, bn);
      InstallAt(lay, d, lh, k - 1, lay.start + k);
      NotLogged(lay, lh, k - 1, lay.start + k);
    }
  }

  lemma NotLogged(lay: Layout, lh: seq<nat>, k: nat, bn: nat)
    requires IsLog(lay, lh) && k <= |lh| && lay.start <= bn < lay.start + lay.size
    ensures LastEntry(lh, k, bn) == -1
  {
  }

  lemma InstallKeepsLog<T>(lay: Layout, d: seq<T>, lh: seq<nat>, k: nat)
    requires IsLog(lay, lh) && |d| == lay.blocks && k <= |lh|
    ensures forall bn :: lay.start <= bn < lay.start + lay.size ==> Install(lay, d, lh, k)[bn] == d[bn]
  {
    forall bn | lay.start <= bn < lay.start + lay.size ensures Install(lay, d, lh, k)[bn] == d[bn] {
      InstallAt(lay, d, lh, k, bn);
      NotLogged(lay, lh, k, bn);
    }
  }

  lemma {:induction false} LastEntryGrows(lh: seq<nat>, k: nat, n: nat, bn: nat)
    requires k <= n <= |lh|
    ensures LastEntry(lh, n, bn) >= LastEntry(lh, k, bn)
  {
    if k < n {
      LastEntryGrows(lh, k, n - 1, bn);
    }
  }

  /** Installing from a half-installed disk ends where installing would. */
  lemma InstallAgain<T>(lay: Layout, d: seq<T>, lh: seq<nat>, k: nat, n: nat)
    requires IsLog(lay, lh) && |d| == lay.blocks && k <= n == |lh|
    ensures Install(lay, Install(lay, d, lh, k), lh, n) == Install(lay, d, lh, n)
  {
    var half := Install(lay, d, lh, k);
    InstallKeepsLog(lay, d, lh, k);
    forall bn: nat | bn < lay.blocks ensures Install(lay, half, lh, n)[bn] == Install(lay, d, lh, n)[bn] {
      InstallAt(lay, half, lh, n, bn);
      InstallAt(lay, d, lh, n, bn);
      InstallAt(lay, d, lh, k, bn);
      LastEntryGrows(lh, k, n, bn);
    }
  }

  lemma ClearAgain(lay: Layout, d: Image)
    requires WellFormed(lay, d) && HeadList(d[lay.start]) == []
    ensures Recovered(lay, d) == WithHead(lay, d, [])
  {
  }

  /** A crash during recovery loses nothing: recovering from any image that
      recovery writes gives the very disk that recovery was to give. */
  lemma RecoveryIsIdempotent(lay: Layout, d: Image, k: nat)
    requires WellFormed(lay, d) && k < |RecoveryImages(lay, d)|
    ensures WellFormed(lay, RecoveryImages(lay, d)[k])
    ensures Recovered(lay, RecoveryImages(lay, d)[k]) == Recovered(lay, d)
  {
    var lh := HeadList(d[lay.start]);
    var n := |lh|;
    InstallKeepsLog(lay, d, lh, n);
    if k < n {
      InstallKeepsLog(lay, d, lh, k + 1);
      InstallAgain(lay, d, lh, k + 1, n);
    } else {
      var b := d[lay.start];
      HeadRoundTrip(b, []);
      ClearAgain(lay, Recovered(lay, d));
      assert EncodeHead(EncodeHead(b, []), []) == EncodeHead(b, []);
    }
  }

  /** The crash image before commit's first write, or after its k-th. */
  ghost function CrashImage(lay: Layout, d: Image, cached: Image, lh: seq<nat>, k: nat): Image
    requires IsLog(lay, lh) && |d| == |cached| == lay.blocks && k <= 2 * |lh| + 2
  {
    if k == 0 then d else CommitImages(lay, d, cached, lh)[k - 1]
  }

  /** The commit point: a crash before the header is written loses the whole
      transaction, a crash after it loses nothing. */
  lemma CommitIsAtomic(lay: Layout, d: Image, cached: Image, lh: seq<nat>, k: nat)
    requires WellFormed(lay, d) && HeadList(d[lay.start]) == []
    requires IsLog(lay, lh) && |cached| == lay.blocks && k <= 2 * |lh| + 2
    ensures WellFormed(lay, CrashImage(lay, d, cached, lh, k))
    ensures Updated(lay, d, cached, if k <= |lh| then [] else lh,
                    Recovered(lay, CrashImage(lay, d, cached, lh, k)))
  {
    hide CrashImage;
    var n := |lh|;
    if k <= n {
      UndecidedImage(lay, d, cached, lh, k);
      BeforeHead(lay, d, cached, lh, k);
    } else {
      DecidedImage(lay, d, cached, lh, n);
      AfterHead(lay, d, cached, lh, k, n);
      if k > n + 1 {
        RecoveryIsIdempotent(lay, WithHead(lay, CopyLog(lay, d, cached, lh, n), lh), k - n - 2);
      }
    }
  }

  lemma BeforeHead(lay: Layout, d: Image, cached: Image, lh: seq<nat>, k: nat)
    requires IsLog(lay, lh) && |d| == |cached| == lay.blocks && k <= |lh|
    ensures CrashImage(lay, d, cached, lh, k) == CopyLog(lay, d, cached, lh, k)
  {
  }

  /** From the header write on, a crash leaves what a crash in recovery does. */
  lemma AfterHead(lay: Layout, d: Image, cached: Image, lh: seq<nat>, k: nat, n: nat)
    requires IsLog(lay, lh) && |d| == |cached| == lay.blocks && n == |lh| && n < k <= 2 * n + 2
    requires var decided := WithHead(lay, CopyLog(lay, d, cached, lh, n), lh);
             WellFormed(lay, decided) && HeadList(decided[lay.start]) == lh
    ensures var decided := WithHead(lay, CopyLog(lay, d, cached, lh, n), lh);
            if k == n + 1 then CrashImage(lay, d, cached, lh, k) == decided
            else k - n - 2 < |RecoveryImages(lay, decided)|
                 && CrashImage(lay, d, cached, lh, k) == RecoveryImages(lay, decided)[k - n - 2]
  {
    hide WithHead, WellFormed, HeadList, CopyLog, Install;
  }

  lemma UndecidedImage(lay: Layout, d: Image, cached: Image, lh: seq<nat>, k: nat)
    requires WellFormed(lay, d) && HeadList(d[lay.start]) == []
    requires IsLog(lay, lh) && |cached| == lay.blocks && k <= |lh|
    ensures var c := CopyLog(lay, d, cached, lh, k);
            WellFormed(lay, c) && Updated(lay, d, cached, [], Recovered(lay, c))
  {
    var c := CopyLog(lay, d, cached, lh, k);
    forall bn: nat | lay.Home(bn) || bn == lay.start ensures c[bn] == d[bn] {
      CopyLogAt(lay, d, cached, lh, k, bn);
    }
    ClearAgain(lay, c);
  }

  /** Installing from a disk whose log blocks are the copies of `cached`. */
  lemma InstallCopies<T>(lay: Layout, d: seq<T>, cached: seq<T>, lh: seq<nat>, logged: seq<T>, n: nat)
    requires |d| == |cached| == |logged| == lay.blocks && IsLog(lay, lh) && n == |lh|
    requires forall bn: nat :: lay.Home(bn) ==> logged[bn] == d[bn]
    requires forall j :: 0 <= j < n ==> logged[lay.start + j + 1] == cached[lh[j]]
    ensures Updated(lay, d, cached, lh, Install(lay, logged, lh, n))
  {
    assert lh[..n] == lh;
    forall bn: nat | lay.Home(bn)
      ensures Install(lay, logged, lh, n)[bn] == if bn in lh then cached[bn] else d[bn]
    {
      InstallAt(lay, logged, lh, n, bn);
    }
  }

  lemma CopiedBlocks<T>(lay: Layout, d: seq<T>, cached: seq<T>, lh: seq<nat>, n: nat)
    requires |d| == |cached| == lay.blocks && IsLog(lay, lh) && n == |lh|
    ensures forall bn: nat :: lay.Home(bn) ==> CopyLog(lay, d, cached, lh, n)[bn] == d[bn]
    ensures forall j :: 0 <= j < n ==> CopyLog(lay, d, cached, lh, n)[lay.start + j + 1] == cached[lh[j]]
  {
    forall bn: nat | bn < lay.blocks
      ensures CopyLog(lay, d, cached, lh, n)[bn] ==
              if lay.start < bn <= lay.start + n then cached[lh[bn - lay.start - 1]] else d[bn]
    {
      CopyLogAt(lay, d, cached, lh, n, bn);
    }
  }

  /** Once the header is on disk, recovery installs the transaction. */
  lemma DecidedImage(lay: Layout, d: Image, cached: Image, lh: seq<nat>, n: nat)
    requires |d| == |cached| == lay.blocks && IsLog(lay, lh) && n == |lh|
    ensures var decided := WithHead(lay, CopyLog(lay, d, cached, lh, n), lh);
            && WellFormed(lay, decided) && HeadList(decided[lay.start]) == lh
            && Updated(lay, d, cached, lh, Recovered(lay, decided))
  {
    var logged := CopyLog(lay, d, cached, lh, n);
    var decided := WithHead(lay, logged, lh);
    HeadRoundTrip(logged[lay.start], lh);
    assert decided[lay.start] == EncodeHead(logged[lay.start], lh);
    forall bn: nat | bn < lay.blocks && bn != lay.start ensures decided[bn] == logged[bn] {}
    RecoverDecided(lay, d, cached, lh, logged, decided, n);
  }

  lemma RecoverDecided(lay: Layout, d: Image, cached: Image, lh: seq<nat>, logged: Image, decided: Image, n: nat)
    requires |d| == |cached| == |decided| == lay.blocks && IsLog(lay, lh) && n == |lh|
    requires logged == CopyLog(lay, d, cached, lh, n)
    requires Word(decided[lay.start], 0) == n && HeadList(decided[lay.start]) == lh
    requires forall bn: nat :: bn < lay.blocks && bn != lay.start ==> decided[bn] == logged[bn]
    ensures WellFormed(lay, decided) && Updated(lay, d, cached, lh, Recovered(lay, decided))
  {
    CopiedBlocks(lay, d, cached, lh, n);
    InstallCopies(lay, d, cached, lh, decided, n);
    RecoveredHomes(lay, decided, lh);
  }

  /** Recovery's last write, the empty header, is not to a home block. */
  lemma RecoveredHomes(lay: Layout, d: Image, lh: seq<nat>)
    requires WellFormed(lay, d) && HeadList(d[lay.start]) == lh
    ensures forall bn: nat :: lay.Home(bn) ==> Recovered(lay, d)[bn] == Install(lay, d, lh, |lh|)[bn]
  {
  }

  /** Each image is one that recovering from the image before it could have
      been crashed at, or that image itself. */
  ghost predicate CrashChain(lay: Layout, cs: seq<Image>) {
    && (forall i :: 0 <= i < |cs| ==> WellFormed(lay, cs[i]))
    && forall i :: 0 < i < |cs| ==> cs[i] == cs[i - 1] || cs[i] in RecoveryImages(lay, cs[i - 1])
  }

  /** However often recovery is itself cut short, the recovery that finishes
      produces what the first would have. */
  lemma {:induction false} ManyCrashes(lay: Layout, cs: seq<Image>)
    requires |cs| > 0 && CrashChain(lay, cs)
    ensures Recovered(lay, cs[|cs| - 1]) == Recovered(lay, cs[0])
  {
    var n := |cs| - 1;
    if n > 0 {
      ManyCrashes(lay, cs[..n]);
      if cs[n] != cs[n - 1] {
        var k :| 0 <= k < |RecoveryImages(lay, cs[n - 1])| && RecoveryImages(lay, cs[n - 1])[k] == cs[n];
        RecoveryIsIdempotent(lay, cs[n - 1], k);
      }
    }
  }

  /** Atomicity: whatever the crash point in commit, and however many crashes
      in the recoveries that follow, the home blocks end up all old or all new,
      and which of the two depends only on whether the header was written. */
  lemma CrashSafety(lay: Layout, d: Image, cached: Image, lh: seq<nat>, k: nat, cs: seq<Image>)
    requires WellFormed(lay, d) && HeadList(d[lay.start]) == []
    requires IsLog(lay, lh) && |cached| == lay.blocks && k <= 2 * |lh| + 2
    requires |cs| > 0 && CrashChain(lay, cs) && cs[0] == CrashImage(lay, d, cached, lh, k)
    ensures Updated(lay, d, cached, if k <= |lh| then [] else lh, Recovered(lay, cs[|cs| - 1]))
  {
    CommitIsAtomic(lay, d, cached, lh, k);
    ManyCrashes(lay, cs);
  }
}
