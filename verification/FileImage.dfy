/** lab2/kernel/fs.c, lab2/kernel/fs.h: the blocks that the log shows to the
    file system, with the inodes, the free map and the files that they hold. */
module FileImage {
  import opened Blocks

  const NDIRECT: nat := 12
  const MAXFILE: nat := 268
  const IPB: nat := 16

  /** The superblock; the data blocks are the last ones. */
  datatype Superblock = Superblock(size: nat, inodestart: nat, ninodes: nat, bmapstart: nat, datastart: nat)
  {
    /** IBLOCK(i) */
    function InodeBlock(i: nat): nat {
      i / IPB + inodestart
    }

    /** BBLOCK(b) */
    function BitmapBlock(b: nat): nat {
      b / BITS + bmapstart
    }

    ghost predicate Ok() {
      && 0 < inodestart && datastart <= size < WORD_LIMIT
      && (forall i: nat :: i < ninodes ==> InodeBlock(i) < bmapstart)
      && (forall b: nat :: b < size ==> BitmapBlock(b) < datastart)
      && bmapstart < datastart
    }
  }

  /** NDIRECT addresses, and that of the indirect block. */
  datatype Inode = Inode(size: nat, addrs: seq<nat>)

  /** What a data block is used for. */
  datatype Slot = Data(inum: nat, bn: nat) | Indirect(inum: nat)

  datatype Fs = Fs(sb: Superblock, blocks: seq<Block>, inodes: seq<Inode>, owner: map<nat, Slot>)

  ghost predicate Shape(fs: Fs) {
    && fs.sb.Ok() && |fs.blocks| == fs.sb.size && |fs.inodes| == fs.sb.ninodes
    && forall i :: 0 <= i < |fs.inodes| ==> InodeShape(fs, fs.inodes[i])
  }

  ghost predicate InodeShape(fs: Fs, ino: Inode) {
    |ino.addrs| == NDIRECT + 1 && ino.size < WORD_LIMIT && forall j :: 0 <= j <= NDIRECT ==> ino.addrs[j] < fs.sb.size
  }

  /** The disk block of block bn of a file, 0 if there is none. */
  function AddrOf(blocks: seq<Block>, ino: Inode, bn: nat): nat
    requires |ino.addrs| == NDIRECT + 1 && bn < MAXFILE && ino.addrs[NDIRECT] < |blocks|
  {
    if bn < NDIRECT then ino.addrs[bn]
    else if ino.addrs[NDIRECT] == 0 then 0
    else Word(blocks[ino.addrs[NDIRECT]], bn - NDIRECT)
  }

  function At(fs: Fs, i: nat, bn: nat): nat
    requires Shape(fs) && i < |fs.inodes| && bn < MAXFILE
  {
    assert InodeShape(fs, fs.inodes[i]);
    AddrOf(fs.blocks, fs.inodes[i], bn)
  }

  predicate Marked(sb: Superblock, blocks: seq<Block>, b: nat)
    requires sb.BitmapBlock(b) < |blocks|
  {
    Bit(blocks[sb.BitmapBlock(b)], b % BITS)
  }

  /** The free map marks the metadata and the owned blocks. */
  ghost predicate MapOk(fs: Fs)
    requires Shape(fs)
  {
    && (forall b :: b in fs.owner ==> fs.sb.datastart <= b < fs.sb.size)
    && forall b: nat :: b < fs.sb.size ==>
         fs.sb.BitmapBlock(b) < |fs.blocks| && (Marked(fs.sb, fs.blocks, b) <==> b < fs.sb.datastart || b in fs.owner)
  }

  /** Blocks of file `skip` below lo do not count: itrunc has freed them. */
  ghost predicate Counts(i: nat, bn: nat, skip: nat, lo: nat) {
    bn < MAXFILE && (i == skip ==> bn >= lo)
  }

  /** Every block of a file is owned by that file, in that place, and every
      owned block is where its owner says. */
  ghost predicate OwnedFrom(fs: Fs, skip: nat, lo: nat)
    requires Shape(fs)
  {
    && (forall i: nat, bn: nat :: i < |fs.inodes| && Counts(i, bn, skip, lo) && At(fs, i, bn) != 0 ==>
          At(fs, i, bn) in fs.owner && fs.owner[At(fs, i, bn)] == Data(i, bn))
    && (forall i: nat :: i < |fs.inodes| ==> IndirectOk(fs, i))
    && (forall b :: b in fs.owner ==> OwnerOk(fs, b, skip, lo))
  }

  ghost predicate IndirectOk(fs: Fs, i: nat)
    requires Shape(fs) && i < |fs.inodes|
  {
    assert InodeShape(fs, fs.inodes[i]);
    var a := fs.inodes[i].addrs[NDIRECT];
    a != 0 ==> a in fs.owner && fs.owner[a] == Indirect(i)
  }

  ghost predicate OwnerOk(fs: Fs, b: nat, skip: nat, lo: nat)
    requires Shape(fs) && b in fs.owner
  {
    match fs.owner[b]
    case Data(i, bn) => i < |fs.inodes| && Counts(i, bn, skip, lo) && At(fs, i, bn) == b
    case Indirect(i) => i < |fs.inodes| && (assert InodeShape(fs, fs.inodes[i]); fs.inodes[i].addrs[NDIRECT] == b)
  }

  ghost predicate Owned(fs: Fs)
    requires Shape(fs)
  {
    OwnedFrom(fs, 0, 0)
  }

  /** Every block below the size of a file is there. */
  ghost predicate SizesOk(fs: Fs)
    requires Shape(fs)
  {
    forall i: nat :: i < |fs.inodes| ==> SizeOk(fs, i, fs.inodes[i].size)
  }

  ghost predicate SizeOk(fs: Fs, i: nat, size: nat)
    requires Shape(fs) && i < |fs.inodes|
  {
    size <= MAXFILE * BSIZE && forall bn: nat :: bn < MAXFILE && bn * BSIZE < size ==> At(fs, i, bn) != 0
  }

  ghost predicate Inv(fs: Fs) {
    Shape(fs) && MapOk(fs) && Owned(fs) && SizesOk(fs)
  }

  /** Byte k of file i. */
  ghost function ByteAt(fs: Fs, i: nat, k: nat): byte
    requires Shape(fs) && i < |fs.inodes|
  {
    if k / BSIZE < MAXFILE && At(fs, i, k / BSIZE) < |fs.blocks| then fs.blocks[At(fs, i, k / BSIZE)][k % BSIZE] else 0
  }

  ghost function Content(fs: Fs, i: nat): (r: seq<byte>)
    requires Shape(fs) && i < |fs.inodes|
    ensures |r| == fs.inodes[i].size
    ensures forall k: nat :: k < |r| ==> r[k] == ByteAt(fs, i, k)
  {
    seq(fs.inodes[i].size, k requires 0 <= k => ByteAt(fs, i, k))
  }

  ghost predicate SameContents(fs: Fs, fs': Fs)
    requires Shape(fs) && Shape(fs')
  {
    |fs'.inodes| == |fs.inodes| && forall i: nat :: i < |fs.inodes| ==> Content(fs', i) == Content(fs, i)
  }

  /** The files' blocks, all but block bn of file i, are where they were and
      hold what they held; new blocks may have been added. */
  ghost predicate KeepsData(fs: Fs, fs': Fs, i: nat, bn: nat)
    requires Shape(fs) && Shape(fs')
  {
    && |fs'.inodes| == |fs.inodes| && |fs'.blocks| == |fs.blocks|
    && forall j: nat, k: nat :: j < |fs.inodes| && k < MAXFILE && At(fs, j, k) != 0 && !(j == i && k == bn) ==>
         && At(fs', j, k) == At(fs, j, k) < |fs.blocks|
         && fs'.blocks[At(fs, j, k)] == fs.blocks[At(fs, j, k)]
  }

  ghost predicate KeepsAll(fs: Fs, fs': Fs)
    requires Shape(fs) && Shape(fs')
  {
    KeepsData(fs, fs', |fs.inodes|, 0)
  }

  lemma KeepsTwice(fs0: Fs, fs1: Fs, fs2: Fs)
    requires Shape(fs0) && Shape(fs1) && Shape(fs2) && KeepsAll(fs0, fs1) && KeepsAll(fs1, fs2)
    requires SameContents(fs0, fs1) && SameContents(fs1, fs2)
    ensures KeepsAll(fs0, fs2) && SameContents(fs0, fs2)
  {
    hide Shape, Content;
  }

  lemma KeepsSelf(fs: Fs)
    requires Inv(fs)
    ensures KeepsAll(fs, fs) && SameContents(fs, fs)
  {
    forall j: nat, k: nat | j < |fs.inodes| && k < MAXFILE && At(fs, j, k) != 0 ensures At(fs, j, k) < |fs.blocks| {
      AtIs(fs, j, k);
      OwnedInRange(fs, At(fs, j, k));
    }
  }

  /** The owned block of a file is data, and no other's. */
  lemma AtIs(fs: Fs, i: nat, bn: nat)
    requires Shape(fs) && OwnedFrom(fs, 0, 0) && i < |fs.inodes| && bn < MAXFILE && At(fs, i, bn) != 0
    ensures At(fs, i, bn) in fs.owner && fs.owner[At(fs, i, bn)] == Data(i, bn)
  {
    assert Counts(i, bn, 0, 0);
  }

  /** balloc's writes: the bit and the zeroed block. */
  function Allocated(fs: Fs, b: nat): seq<Block>
    requires b < |fs.blocks| && fs.sb.BitmapBlock(b) < |fs.blocks|
  {
    var m := fs.sb.BitmapBlock(b);
    fs.blocks[m := Flip(fs.blocks[m], b % BITS)][b := ZeroBlock()]
  }

  /** A free block becomes the direct block bn of file i. */
  function GiveDirect(fs: Fs, i: nat, bn: nat, b: nat): Fs
    requires b < |fs.blocks| && fs.sb.BitmapBlock(b) < |fs.blocks| && i < |fs.inodes|
    requires bn < |fs.inodes[i].addrs|
  {
    var ino := fs.inodes[i];
    fs.(blocks := Allocated(fs, b), inodes := fs.inodes[i := ino.(addrs := ino.addrs[bn := b])],
       owner := fs.owner[b := if bn == NDIRECT then Indirect(i) else Data(i, bn)])
  }

  /** A free block becomes the block bn that the indirect block of file i lists. */
  function GiveEntry(fs: Fs, i: nat, bn: nat, b: nat): Fs
    requires 0 < b < |fs.blocks| < WORD_LIMIT && fs.sb.BitmapBlock(b) < |fs.blocks| && i < |fs.inodes|
    requires NDIRECT <= bn < MAXFILE && |fs.inodes[i].addrs| == NDIRECT + 1 && fs.inodes[i].addrs[NDIRECT] < |fs.blocks|
  {
    var a := fs.inodes[i].addrs[NDIRECT];
    var blocks := Allocated(fs, b);
    fs.(blocks := blocks[a := SetWord(blocks[a], bn - NDIRECT, b)], owner := fs.owner[b := Data(i, bn)])
  }

  /** Blocks that no file owns: the boot block and the metadata. */
  lemma FreeBlock(fs: Fs, b: nat)
    requires Shape(fs) && MapOk(fs) && b < fs.sb.size && !Marked(fs.sb, fs.blocks, b)
    ensures b !in fs.owner && fs.sb.datastart <= b && 0 < b && fs.sb.BitmapBlock(b) < fs.sb.datastart
    ensures fs.sb.BitmapBlock(b) !in fs.owner && 0 !in fs.owner
  {
  }

  lemma AllocatedMap(fs: Fs, b: nat, s: Slot, fs': Fs)
    requires Shape(fs) && MapOk(fs) && b < fs.sb.size && fs.sb.BitmapBlock(b) < |fs.blocks|
    requires !Marked(fs.sb, fs.blocks, b)
    requires Shape(fs') && fs'.sb == fs.sb && fs'.owner == fs.owner[b := s]
    requires forall m: nat :: m < fs.sb.datastart ==> fs'.blocks[m] == Allocated(fs, b)[m]
    ensures MapOk(fs')
  {
    FreeBlock(fs, b);
    forall c: nat | c < fs.sb.size
      ensures Marked(fs'.sb, fs'.blocks, c) <==> c < fs.sb.datastart || c in fs'.owner
    {
      var m := fs.sb.BitmapBlock(c);
      assert m < fs.sb.datastart;
      assert Marked(fs.sb, fs.blocks, c) <==> c < fs.sb.datastart || c in fs.owner;
      assert m == fs.sb.BitmapBlock(b) && c != b ==> c % BITS != b % BITS;
    }
  }

  /** fs' is fs with the unused block b in a place that was empty. */
  ghost predicate Extends(fs: Fs, fs': Fs, i: nat, bn: nat, b: nat, s: Slot)
    requires Shape(fs) && Shape(fs')
  {
    && fs'.sb == fs.sb && |fs'.inodes| == |fs.inodes| && i < |fs.inodes| && 0 < b < fs.sb.size
    && b !in fs.owner && fs'.owner == fs.owner[b := s]
    && (forall j: nat, k: nat :: j < |fs.inodes| && k < MAXFILE ==>
          At(fs', j, k) == if s == Data(j, k) then b else At(fs, j, k))
    && (forall j: nat :: j < |fs.inodes| ==> SameButFor(fs, fs', j, b, s))
    && (forall a :: a in fs.owner && fs.owner[a].Data? && a < fs.sb.size ==> fs'.blocks[a] == fs.blocks[a])
    && match s
       case Data(j, k) => j == i && k == bn && bn < MAXFILE && At(fs, i, bn) == 0
       case Indirect(j) => j == i && (assert InodeShape(fs, fs.inodes[i]); fs.inodes[i].addrs[NDIRECT] == 0)
  }

  ghost predicate SameButFor(fs: Fs, fs': Fs, j: nat, b: nat, s: Slot)
    requires Shape(fs) && Shape(fs') && j < |fs.inodes| == |fs'.inodes|
  {
    assert InodeShape(fs, fs.inodes[j]) && InodeShape(fs', fs'.inodes[j]);
    && fs'.inodes[j].size == fs.inodes[j].size
    && fs'.inodes[j].addrs[NDIRECT] == if s == Indirect(j) then b else fs.inodes[j].addrs[NDIRECT]
  }

  lemma ExtendsOwned(fs: Fs, fs': Fs, i: nat, bn: nat, b: nat, s: Slot)
    requires Shape(fs) && Shape(fs') && Owned(fs) && Extends(fs, fs', i, bn, b, s) && 0 !in fs.owner
    ensures Owned(fs')
  {
    hide Shape;
    forall j: nat | j < |fs.inodes| ensures IndirectOk(fs', j) {
      assert SameButFor(fs, fs', j, b, s) && IndirectOk(fs, j);
    }
    forall j: nat, k: nat | j < |fs.inodes| && Counts(j, k, 0, 0) && At(fs', j, k) != 0
      ensures At(fs', j, k) in fs'.owner && fs'.owner[At(fs', j, k)] == Data(j, k)
    {
      if s != Data(j, k) {
        AtIs(fs, j, k);
      }
    }
    forall a | a in fs'.owner ensures OwnerOk(fs', a, 0, 0) {
      if a != b {
        assert OwnerOk(fs, a, 0, 0);
        match fs.owner[a]
        case Data(j, k) => assert At(fs, j, k) == a && At(fs', j, k) == a;
        case Indirect(j) => assert SameButFor(fs, fs', j, b, s);
      } else if s.Data? {
        assert At(fs', i, bn) == b;
      } else {
        assert SameButFor(fs, fs', i, b, s);
      }
    }
  }

  lemma ExtendsContents(fs: Fs, fs': Fs, i: nat, bn: nat, b: nat, s: Slot)
    requires Inv(fs) && Shape(fs') && Extends(fs, fs', i, bn, b, s)
    ensures SizesOk(fs') && SameContents(fs, fs')
  {
    hide MapOk;
    forall j: nat | j < |fs.inodes| ensures SizeOk(fs', j, fs'.inodes[j].size) && Content(fs', j) == Content(fs, j) {
      assert SameButFor(fs, fs', j, b, s);
      assert SizeOk(fs, j, fs.inodes[j].size);
      assert SizeOk(fs', j, fs'.inodes[j].size);
      forall k: nat | k < fs.inodes[j].size ensures ByteAt(fs', j, k) == ByteAt(fs, j, k) {
        DataAt(fs, j, k);
        assert At(fs', j, k / BSIZE) == At(fs, j, k / BSIZE);
      }
    }
  }

  lemma ExtendsKeeps(fs: Fs, fs': Fs, i: nat, bn: nat, b: nat, s: Slot)
    requires Inv(fs) && Shape(fs') && Extends(fs, fs', i, bn, b, s)
    ensures KeepsAll(fs, fs')
  {
    forall j: nat, k: nat | j < |fs.inodes| && k < MAXFILE && At(fs, j, k) != 0
      ensures At(fs', j, k) == At(fs, j, k) < |fs.blocks|
      ensures fs'.blocks[At(fs, j, k)] == fs.blocks[At(fs, j, k)]
    {
      AtIs(fs, j, k);
    }
  }

  /** The block of a byte of a file. */
  lemma DataAt(fs: Fs, i: nat, k: nat)
    requires Inv(fs) && i < |fs.inodes| && k < fs.inodes[i].size
    ensures k / BSIZE < MAXFILE
    ensures var a := At(fs, i, k / BSIZE);
            && a in fs.owner && fs.owner[a] == Data(i, k / BSIZE) && 0 < fs.sb.datastart <= a < fs.sb.size
  {
    hide Shape;
    assert SizeOk(fs, i, fs.inodes[i].size);
    assert k / BSIZE * BSIZE <= k;
    AtIs(fs, i, k / BSIZE);
    ShapeIs(fs);
  }

  lemma ShapeIs(fs: Fs)
    requires Shape(fs)
    ensures 0 < fs.sb.datastart && |fs.blocks| == fs.sb.size && |fs.inodes| == fs.sb.ninodes
  {
    assert fs.sb.size > 0 ==> fs.sb.BitmapBlock(0) < fs.sb.datastart;
  }

  /** Indirect blocks are data blocks that nobody else writes. */
  lemma IndirectAt(fs: Fs, i: nat)
    requires Inv(fs) && i < |fs.inodes|
    ensures |fs.inodes[i].addrs| == NDIRECT + 1
    ensures var a := fs.inodes[i].addrs[NDIRECT];
            a != 0 ==> a in fs.owner && fs.owner[a] == Indirect(i) && fs.sb.datastart <= a < fs.sb.size
  {
    assert InodeShape(fs, fs.inodes[i]);
    assert IndirectOk(fs, i);
  }

  /** A file's blocks are found as before if its inode and its indirect block
      are as before. */
  lemma AtSame(fs: Fs, fs': Fs, i: nat, bn: nat)
    requires Inv(fs) && Shape(fs') && i < |fs.inodes| == |fs'.inodes| && bn < MAXFILE && |fs'.blocks| == |fs.blocks|
    requires fs'.inodes[i].addrs == fs.inodes[i].addrs
    requires forall a :: a in fs.owner && a < |fs.blocks| && fs.owner[a] == Indirect(i) ==> fs'.blocks[a] == fs.blocks[a]
    ensures At(fs', i, bn) == At(fs, i, bn)
  {
    IndirectAt(fs, i);
  }

  lemma GiveDirectShape(fs: Fs, i: nat, bn: nat, b: nat)
    requires Inv(fs) && i < |fs.inodes| && bn <= NDIRECT && |fs.inodes[i].addrs| == NDIRECT + 1
    requires b < fs.sb.size && !Marked(fs.sb, fs.blocks, b)
    ensures Shape(GiveDirect(fs, i, bn, b)) && MapOk(GiveDirect(fs, i, bn, b))
  {
    hide Owned, SizesOk;
    var fs' := GiveDirect(fs, i, bn, b);
    assert InodeShape(fs, fs.inodes[i]);
    forall j | 0 <= j < |fs'.inodes| ensures InodeShape(fs', fs'.inodes[j]) {
      assert InodeShape(fs, fs.inodes[j]);
    }
    AllocatedMap(fs, b, if bn == NDIRECT then Indirect(i) else Data(i, bn), fs');
  }

  lemma GiveDirectAt(fs: Fs, i: nat, bn: nat, b: nat, j: nat, k: nat)
    requires Inv(fs) && i < |fs.inodes| && bn <= NDIRECT && |fs.inodes[i].addrs| == NDIRECT + 1
    requires b < |fs.blocks| && fs.sb.BitmapBlock(b) < |fs.blocks| && fs.inodes[i].addrs[bn] == 0
    requires forall a :: a in fs.owner ==> a < |fs.blocks| && Allocated(fs, b)[a] == fs.blocks[a]
    requires Shape(GiveDirect(fs, i, bn, b)) && j < |fs.inodes| && k < MAXFILE
    ensures At(GiveDirect(fs, i, bn, b), j, k) == if j == i && k == bn && bn < NDIRECT then b else At(fs, j, k)
  {
    hide Shape, MapOk, Marked, Flip, Word;
    if j != i {
      AtSame(fs, GiveDirect(fs, i, bn, b), j, k);
    } else {
      IndirectAt(fs, i);
      if k >= NDIRECT {
        WordOfZeroBlock(k - NDIRECT);
      }
    }
  }

  /** bmap's first two allocations. */
  lemma GiveDirectOk(fs: Fs, i: nat, bn: nat, b: nat)
    requires Inv(fs) && i < |fs.inodes| && bn <= NDIRECT && |fs.inodes[i].addrs| == NDIRECT + 1
    requires b < fs.sb.size && fs.sb.BitmapBlock(b) < |fs.blocks| && !Marked(fs.sb, fs.blocks, b)
    requires fs.inodes[i].addrs[bn] == 0
    ensures var fs' := GiveDirect(fs, i, bn, b); Inv(fs') && SameContents(fs, fs') && KeepsAll(fs, fs')
    ensures bn < NDIRECT ==> At(GiveDirect(fs, i, bn, b), i, bn) == b
    ensures forall k: nat :: NDIRECT <= k < MAXFILE ==> At(GiveDirect(fs, i, bn, b), i, k) == At(fs, i, k)
  {
    hide Shape, MapOk, Marked, Flip, Word;
    ShapeIs(fs);
    FreeBlock(fs, b);
    var fs', s := GiveDirect(fs, i, bn, b), if bn == NDIRECT then Indirect(i) else Data(i, bn);
    GiveDirectShape(fs, i, bn, b);
    OwnedBlocks(fs, b);
    forall j: nat | j < |fs.inodes| ensures SameButFor(fs, fs', j, b, s) {
    }
    forall j: nat, k: nat | j < |fs.inodes| && k < MAXFILE
      ensures At(fs', j, k) == if s == Data(j, k) then b else At(fs, j, k)
    {
      GiveDirectAt(fs, i, bn, b, j, k);
    }
    ExtendsOwned(fs, fs', i, bn, b, s);
    ExtendsContents(fs, fs', i, bn, b, s);
    ExtendsKeeps(fs, fs', i, bn, b, s);
  }

  /** What balloc writes is not owned. */
  lemma OwnedBlocks(fs: Fs, b: nat)
    requires Shape(fs) && MapOk(fs) && b < fs.sb.size && b !in fs.owner && fs.sb.BitmapBlock(b) !in fs.owner
    requires fs.sb.BitmapBlock(b) < |fs.blocks|
    ensures forall a :: a in fs.owner ==> a < |fs.blocks| && Allocated(fs, b)[a] == fs.blocks[a]
  {
  }

  lemma GiveEntryShape(fs: Fs, i: nat, bn: nat, b: nat)
    requires Inv(fs) && i < |fs.inodes| && NDIRECT <= bn < MAXFILE && |fs.inodes[i].addrs| == NDIRECT + 1
    requires 0 < b < fs.sb.size == |fs.blocks| < WORD_LIMIT && !Marked(fs.sb, fs.blocks, b)
    requires 0 < fs.inodes[i].addrs[NDIRECT] < |fs.blocks|
    ensures Shape(GiveEntry(fs, i, bn, b)) && MapOk(GiveEntry(fs, i, bn, b))
  {
    hide Owned, SizesOk;
    var fs' := GiveEntry(fs, i, bn, b);
    forall j | 0 <= j < |fs'.inodes| ensures InodeShape(fs', fs'.inodes[j]) {
      assert InodeShape(fs, fs.inodes[j]);
    }
    IndirectAt(fs, i);
    AllocatedMap(fs, b, Data(i, bn), fs');
  }

  lemma GiveEntryAt(fs: Fs, i: nat, bn: nat, b: nat, j: nat, k: nat)
    requires Inv(fs) && i < |fs.inodes| && NDIRECT <= bn < MAXFILE && |fs.inodes[i].addrs| == NDIRECT + 1
    requires 0 < b < |fs.blocks| < WORD_LIMIT && fs.sb.BitmapBlock(b) < |fs.blocks|
    requires 0 < fs.inodes[i].addrs[NDIRECT] < |fs.blocks|
    requires forall a :: a in fs.owner ==> a < |fs.blocks| && Allocated(fs, b)[a] == fs.blocks[a]
    requires Shape(GiveEntry(fs, i, bn, b)) && j < |fs.inodes| && k < MAXFILE
    ensures At(GiveEntry(fs, i, bn, b), j, k) == if j == i && k == bn then b else At(fs, j, k)
  {
    hide Shape, MapOk, Marked, Flip, Word, SetWord;
    IndirectAt(fs, i);
    if j != i {
      AtSame(fs, GiveEntry(fs, i, bn, b), j, k);
    } else if k >= NDIRECT {
      WordOfSetWord(fs.blocks[fs.inodes[i].addrs[NDIRECT]], bn - NDIRECT, b, k - NDIRECT);
    }
  }

  /** bmap's last allocation. */
  lemma GiveEntryOk(fs: Fs, i: nat, bn: nat, b: nat)
    requires Inv(fs) && i < |fs.inodes| && NDIRECT <= bn < MAXFILE && |fs.inodes[i].addrs| == NDIRECT + 1
    requires 0 < b < fs.sb.size == |fs.blocks| < WORD_LIMIT && fs.sb.BitmapBlock(b) < |fs.blocks|
    requires !Marked(fs.sb, fs.blocks, b)
    requires 0 < fs.inodes[i].addrs[NDIRECT] < |fs.blocks| && At(fs, i, bn) == 0
    ensures var fs' := GiveEntry(fs, i, bn, b);
            Inv(fs') && SameContents(fs, fs') && KeepsAll(fs, fs') && At(fs', i, bn) == b
  {
    hide Shape, MapOk, Marked, Flip, Word, SetWord;
    FreeBlock(fs, b);
    IndirectAt(fs, i);
    var fs', s := GiveEntry(fs, i, bn, b), Data(i, bn);
    GiveEntryShape(fs, i, bn, b);
    OwnedBlocks(fs, b);
    forall j: nat | j < |fs.inodes| ensures SameButFor(fs, fs', j, b, s) {
    }
    forall j: nat, k: nat | j < |fs.inodes| && k < MAXFILE
      ensures At(fs', j, k) == if s == Data(j, k) then b else At(fs, j, k)
    {
      GiveEntryAt(fs, i, bn, b, j, k);
    }
    ExtendsOwned(fs, fs', i, bn, b, s);
    ExtendsContents(fs, fs', i, bn, b, s);
    ExtendsKeeps(fs, fs', i, bn, b, s);
  }

  /** A block that is neither a free-map block nor an indirect block changes
      no file's addresses. */
  lemma WriteKeeps(fs: Fs, a: nat, d: Block)
    requires Inv(fs) && a < |fs.blocks| && (a < fs.sb.bmapstart || (a in fs.owner && fs.owner[a].Data?))
    ensures var fs' := fs.(blocks := fs.blocks[a := d]);
            Inv(fs') && forall i: nat, bn: nat :: i < |fs.inodes| && bn < MAXFILE ==> At(fs', i, bn) == At(fs, i, bn)
  {
    var fs' := fs.(blocks := fs.blocks[a := d]);
    WriteShape(fs, a, d);
    hide Shape, MapOk, Marked, Word;
    forall i: nat, bn: nat | i < |fs.inodes| && bn < MAXFILE ensures At(fs', i, bn) == At(fs, i, bn) {
      OwnedIsData(fs, a);
      AtSame(fs, fs', i, bn);
    }
    OwnedSame(fs, fs');
    forall i: nat | i < |fs.inodes| ensures SizeOk(fs', i, fs'.inodes[i].size) {
      assert SizeOk(fs, i, fs.inodes[i].size);
    }
  }

  lemma OwnedIsData(fs: Fs, a: nat)
    requires Inv(fs) && (a < fs.sb.bmapstart || (a in fs.owner && fs.owner[a].Data?))
    ensures a in fs.owner ==> fs.owner[a].Data?
  {
  }

  lemma WriteShape(fs: Fs, a: nat, d: Block)
    requires Inv(fs) && a < |fs.blocks| && (a < fs.sb.bmapstart || (a in fs.owner && fs.owner[a].Data?))
    ensures Shape(fs.(blocks := fs.blocks[a := d])) && MapOk(fs.(blocks := fs.blocks[a := d]))
  {
    hide Owned, SizesOk, Bit;
    var fs' := fs.(blocks := fs.blocks[a := d]);
    forall j | 0 <= j < |fs'.inodes| ensures InodeShape(fs', fs'.inodes[j]) {
      assert InodeShape(fs, fs.inodes[j]);
    }
    forall b: nat | b < fs.sb.size ensures Marked(fs'.sb, fs'.blocks, b) <==> b < fs.sb.datastart || b in fs.owner {
      assert Marked(fs.sb, fs.blocks, b) <==> b < fs.sb.datastart || b in fs.owner;
    }
  }

  /** Ownership is a matter of addresses. */
  lemma OwnedSame(fs: Fs, fs': Fs)
    requires Shape(fs) && Shape(fs') && Owned(fs) && fs'.owner == fs.owner && |fs'.inodes| == |fs.inodes|
    requires forall i: nat, bn: nat :: i < |fs.inodes| && bn < MAXFILE ==> At(fs', i, bn) == At(fs, i, bn)
    requires forall i: nat :: i < |fs.inodes| ==> fs'.inodes[i].addrs == fs.inodes[i].addrs
    ensures Owned(fs')
  {
    hide Shape;
    forall i: nat | i < |fs.inodes| ensures IndirectOk(fs', i) {
      assert IndirectOk(fs, i);
    }
    forall b | b in fs'.owner ensures OwnerOk(fs', b, 0, 0) {
      assert OwnerOk(fs, b, 0, 0);
    }
    forall i: nat, bn: nat | i < |fs.inodes| && Counts(i, bn, 0, 0) && At(fs', i, bn) != 0
      ensures At(fs', i, bn) in fs'.owner && fs'.owner[At(fs', i, bn)] == Data(i, bn)
    {
      AtIs(fs, i, bn);
    }
  }

  /** Writing a block of a file changes that block of that file only. */
  lemma WriteDataOk(fs: Fs, i: nat, bn: nat, d: Block)
    requires Inv(fs) && i < |fs.inodes| && bn < MAXFILE && 0 < At(fs, i, bn) < |fs.blocks|
    ensures var fs' := fs.(blocks := fs.blocks[At(fs, i, bn) := d]);
            && Inv(fs')
            && (forall j: nat :: j < |fs.inodes| && j != i ==> Content(fs', j) == Content(fs, j))
            && KeepsData(fs, fs', i, bn)
            && (forall j: nat, k: nat :: j < |fs.inodes| && k < MAXFILE ==> At(fs', j, k) == At(fs, j, k))
  {
    hide MapOk, Word;
    var a := At(fs, i, bn);
    var fs' := fs.(blocks := fs.blocks[a := d]);
    AtIs(fs, i, bn);
    WriteKeeps(fs, a, d);
    forall j: nat, k: nat | j < |fs.inodes| && k < MAXFILE && At(fs, j, k) != 0 && !(j == i && k == bn)
      ensures At(fs, j, k) < |fs.blocks| && fs'.blocks[At(fs, j, k)] == fs.blocks[At(fs, j, k)]
    {
      AtIs(fs, j, k);
      OwnedInRange(fs, At(fs, j, k));
    }
    forall j: nat | j < |fs.inodes| && j != i ensures Content(fs', j) == Content(fs, j) {
      forall k: nat | k < fs.inodes[j].size ensures ByteAt(fs', j, k) == ByteAt(fs, j, k) {
        DataAt(fs, j, k);
      }
    }
  }

  lemma OwnedInRange(fs: Fs, b: nat)
    requires Shape(fs) && MapOk(fs) && b in fs.owner
    ensures fs.sb.datastart <= b < |fs.blocks|
  {
  }

  /** Writing a block below the free map changes no file. */
  lemma WriteMetaOk(fs: Fs, a: nat, d: Block)
    requires Inv(fs) && a < fs.sb.bmapstart && a < |fs.blocks|
    ensures var fs' := fs.(blocks := fs.blocks[a := d]); Inv(fs') && SameContents(fs, fs')
  {
    hide MapOk, Word;
    var fs' := fs.(blocks := fs.blocks[a := d]);
    WriteKeeps(fs, a, d);
    forall i: nat | i < |fs.inodes| ensures Content(fs', i) == Content(fs, i) {
      forall k: nat | k < fs.inodes[i].size ensures ByteAt(fs', i, k) == ByteAt(fs, i, k) {
        DataAt(fs, i, k);
      }
    }
  }

  /** A new size, with all its blocks there. */
  lemma ResizeOk(fs: Fs, i: nat, size: nat)
    requires Inv(fs) && i < |fs.inodes| && SizeOk(fs, i, size)
    ensures var fs' := fs.(inodes := fs.inodes[i := fs.inodes[i].(size := size)]);
            && Inv(fs') && (forall j: nat :: j < |fs.inodes| && j != i ==> Content(fs', j) == Content(fs, j))
            && forall k: nat :: ByteAt(fs', i, k) == ByteAt(fs, i, k)
  {
    var fs' := fs.(inodes := fs.inodes[i := fs.inodes[i].(size := size)]);
    forall j | 0 <= j < |fs'.inodes| ensures InodeShape(fs', fs'.inodes[j]) {
      assert InodeShape(fs, fs.inodes[j]);
    }
    assert MapOk(fs') by {
      hide Owned, SizesOk, Bit;
      assert forall b: nat :: Marked.requires(fs.sb, fs.blocks, b) ==>
        Marked(fs'.sb, fs'.blocks, b) == Marked(fs.sb, fs.blocks, b);
    }
    hide Shape, MapOk, Word;
    OwnedSame(fs, fs');
    forall j: nat | j < |fs.inodes| ensures SizeOk(fs', j, fs'.inodes[j].size) {
      assert SizeOk(fs, j, fs.inodes[j].size);
    }
    forall j: nat, k: nat | j < |fs.inodes| ensures ByteAt(fs', j, k) == ByteAt(fs, j, k) {
    }
  }

  /** Writing consecutive words. */
  function SetWords(b: Block, from: nat, ws: seq<nat>): Block
    requires from + |ws| <= WORDS && forall j :: 0 <= j < |ws| ==> ws[j] < WORD_LIMIT
  {
    if ws == [] then b else SetWord(SetWords(b, from, ws[..|ws| - 1]), from + |ws| - 1, ws[|ws| - 1])
  }

  lemma {:induction false} WordOfSetWords(b: Block, from: nat, ws: seq<nat>, j: nat)
    requires from + |ws| <= WORDS && (forall j :: 0 <= j < |ws| ==> ws[j] < WORD_LIMIT) && j < WORDS
    ensures Word(SetWords(b, from, ws), j) == if from <= j < from + |ws| then ws[j - from] else Word(b, j)
  {
    hide Word, SetWord;
    if ws != [] {
      WordOfSetWords(b, from, ws[..|ws| - 1], j);
      WordOfSetWord(SetWords(b, from, ws[..|ws| - 1]), from + |ws| - 1, ws[|ws| - 1], j);
    }
  }

  /** struct dinode: four shorts, the size and the addresses. */
  ghost predicate IsDinode(b: Block, slot: nat, ino: Inode)
    requires slot < IPB
  {
    && |ino.addrs| == NDIRECT + 1 && Word(b, 16 * slot + 2) == ino.size
    && forall j: nat :: j <= NDIRECT ==> Word(b, 16 * slot + 3 + j) == ino.addrs[j]
  }

  ghost predicate DinodeOk(fs: Fs, i: nat)
    requires Shape(fs) && i < |fs.inodes|
  {
    IsDinode(fs.blocks[fs.sb.InodeBlock(i)], i % IPB, fs.inodes[i])
  }

  /** The inodes on disk are those in memory, all but one. */
  ghost predicate DinodesBut(fs: Fs, but: nat)
    requires Shape(fs)
  {
    forall i: nat :: i < |fs.inodes| && i != but ==> DinodeOk(fs, i)
  }

  ghost predicate DinodesOk(fs: Fs)
    requires Shape(fs)
  {
    forall i: nat :: i < |fs.inodes| ==> DinodeOk(fs, i)
  }

  function PutInode(b: Block, slot: nat, ino: Inode): Block
    requires slot < IPB && |ino.addrs| == NDIRECT + 1 && ino.size < WORD_LIMIT
    requires forall j :: 0 <= j <= NDIRECT ==> ino.addrs[j] < WORD_LIMIT
  {
    SetWords(b, 16 * slot + 2, [ino.size] + ino.addrs)
  }

  /** An inode is read back as it was put, and the others in its block stay. */
  lemma PutInodeOk(b: Block, slot: nat, ino: Inode, other: nat, was: Inode)
    requires slot < IPB && |ino.addrs| == NDIRECT + 1 && ino.size < WORD_LIMIT && other < IPB
    requires forall j :: 0 <= j <= NDIRECT ==> ino.addrs[j] < WORD_LIMIT
    ensures IsDinode(PutInode(b, slot, ino), slot, ino)
    ensures other != slot && IsDinode(b, other, was) ==> IsDinode(PutInode(b, slot, ino), other, was)
  {
    hide Word, SetWords;
    forall j: nat | j < WORDS
      ensures Word(PutInode(b, slot, ino), j)
              == if 16 * slot + 2 <= j < 16 * slot + 16 then ([ino.size] + ino.addrs)[j - 16 * slot - 2] else Word(b, j)
    {
      WordOfSetWords(b, 16 * slot + 2, [ino.size] + ino.addrs, j);
    }
  }

  lemma IupdateOk(fs: Fs, i: nat)
    requires Inv(fs) && i < |fs.inodes| && DinodesBut(fs, i) && fs.sb.InodeBlock(i) < |fs.blocks|
    requires |fs.inodes[i].addrs| == NDIRECT + 1 && fs.inodes[i].size < WORD_LIMIT
    requires forall j :: 0 <= j <= NDIRECT ==> fs.inodes[i].addrs[j] < WORD_LIMIT
    ensures var m := fs.sb.InodeBlock(i);
            var fs' := fs.(blocks := fs.blocks[m := PutInode(fs.blocks[m], i % IPB, fs.inodes[i])]);
            Inv(fs') && SameContents(fs, fs') && DinodesOk(fs')
  {
    hide PutInode, IsDinode, SizesOk, Owned, MapOk;
    var m := fs.sb.InodeBlock(i);
    var d := PutInode(fs.blocks[m], i % IPB, fs.inodes[i]);
    WriteMetaOk(fs, m, d);
    var fs' := fs.(blocks := fs.blocks[m := d]);
    forall j: nat | j < |fs.inodes| ensures DinodeOk(fs', j) {
      PutInodeOk(fs.blocks[m], i % IPB, fs.inodes[i], j % IPB, fs.inodes[j]);
      assert j != i ==> DinodeOk(fs, j);
    }
  }

  /** Blocks from the free map on are not inode blocks. */
  lemma DinodesKept(fs: Fs, fs': Fs, i: nat)
    requires Shape(fs) && Shape(fs') && DinodesBut(fs, i) && fs'.sb == fs.sb && |fs'.inodes| == |fs.inodes|
    requires forall j :: 0 <= j < |fs.inodes| && j != i ==> fs'.inodes[j] == fs.inodes[j]
    requires forall b: nat :: b < fs.sb.bmapstart && b < |fs.blocks| ==> fs'.blocks[b] == fs.blocks[b]
    ensures DinodesBut(fs', i)
  {
    hide IsDinode;
    forall j: nat | j < |fs.inodes| && j != i ensures DinodeOk(fs', j) {
      assert DinodeOk(fs, j);
    }
  }

  /** bfree */
  function Freed(fs: Fs, b: nat): Fs
    requires fs.sb.BitmapBlock(b) < |fs.blocks|
  {
    var m := fs.sb.BitmapBlock(b);
    fs.(blocks := fs.blocks[m := Flip(fs.blocks[m], b % BITS)], owner := fs.owner - {b})
  }

  lemma FreedMap(fs: Fs, b: nat)
    requires Shape(fs) && MapOk(fs) && b in fs.owner && b < fs.sb.size && fs.sb.BitmapBlock(b) < |fs.blocks|
    ensures Marked(fs.sb, fs.blocks, b) && Shape(Freed(fs, b)) && MapOk(Freed(fs, b))
    ensures forall a :: fs.sb.datastart <= a < |fs.blocks| ==> Freed(fs, b).blocks[a] == fs.blocks[a]
    ensures forall a: nat :: a < fs.sb.bmapstart && a < |fs.blocks| ==> Freed(fs, b).blocks[a] == fs.blocks[a]
  {
    var fs' := Freed(fs, b);
    assert fs.sb.BitmapBlock(b) < fs.sb.datastart;
    forall j | 0 <= j < |fs'.inodes| ensures InodeShape(fs', fs'.inodes[j]) {
      assert InodeShape(fs, fs.inodes[j]);
    }
    forall c: nat | c < fs.sb.size
      ensures Marked(fs'.sb, fs'.blocks, c) <==> c < fs.sb.datastart || c in fs'.owner
    {
      var m := fs.sb.BitmapBlock(c);
      assert Marked(fs.sb, fs.blocks, c) <==> c < fs.sb.datastart || c in fs.owner;
      assert m == fs.sb.BitmapBlock(b) && c != b ==> c % BITS != b % BITS;
    }
  }

  /** itrunc on file i, when its blocks below lo are free again. */
  ghost predicate Truncating(fs: Fs, i: nat, lo: nat) {
    && Shape(fs) && i < |fs.inodes| && MapOk(fs) && OwnedFrom(fs, i, lo)
    && forall j: nat :: j < |fs.inodes| && j != i ==> SizeOk(fs, j, fs.inodes[j].size)
  }

  ghost predicate OthersSame(fs: Fs, fs': Fs, i: nat)
    requires Shape(fs) && Shape(fs')
  {
    && |fs'.inodes| == |fs.inodes|
    && forall j: nat :: j < |fs.inodes| && j != i ==>
         fs'.inodes[j] == fs.inodes[j] && Content(fs', j) == Content(fs, j)
  }

  lemma StartTruncating(fs: Fs, i: nat)
    requires Inv(fs) && i < |fs.inodes|
    ensures Truncating(fs, i, 0)
  {
    hide MapOk, Shape;
    forall b | b in fs.owner ensures OwnerOk(fs, b, i, 0) {
      assert OwnerOk(fs, b, 0, 0);
    }
    forall j: nat, k: nat | j < |fs.inodes| && Counts(j, k, i, 0) && At(fs, j, k) != 0
      ensures At(fs, j, k) in fs.owner && fs.owner[At(fs, j, k)] == Data(j, k)
    {
      AtIs(fs, j, k);
    }
  }

  lemma IndirectIn(fs: Fs, i: nat, lo: nat, j: nat)
    requires Truncating(fs, i, lo) && j < |fs.inodes|
    ensures |fs.inodes[j].addrs| == NDIRECT + 1
    ensures var a := fs.inodes[j].addrs[NDIRECT];
            a != 0 ==> a in fs.owner && fs.owner[a] == Indirect(j) && fs.sb.datastart <= a < |fs.blocks|
  {
    assert InodeShape(fs, fs.inodes[j]);
    assert IndirectOk(fs, j);
  }

  /** Blocks that no longer count, or that were not there, are skipped. */
  lemma SkipOne(fs: Fs, i: nat, lo: nat)
    requires Truncating(fs, i, lo) && lo < MAXFILE && At(fs, i, lo) == 0
    ensures Truncating(fs, i, lo + 1)
  {
    hide MapOk;
    forall b | b in fs.owner ensures OwnerOk(fs, b, i, lo + 1) {
      assert OwnerOk(fs, b, i, lo);
      assert b != 0 by { OwnedIsReal(fs, b); }
    }
    forall j: nat, k: nat | j < |fs.inodes| && Counts(j, k, i, lo + 1) ensures Counts(j, k, i, lo) {
    }
  }

  lemma OwnedIsReal(fs: Fs, b: nat)
    requires Shape(fs) && MapOk(fs) && b in fs.owner
    ensures 0 < fs.sb.datastart <= b < |fs.blocks| && fs.sb.BitmapBlock(b) < fs.sb.datastart
  {
    assert fs.sb.BitmapBlock(b) < fs.sb.datastart;
  }

  /** Freeing block lo of file i. */
  lemma FreeOne(fs: Fs, i: nat, lo: nat)
    requires Truncating(fs, i, lo) && lo < MAXFILE && At(fs, i, lo) != 0
    ensures var b := At(fs, i, lo);
            && b in fs.owner && fs.owner[b] == Data(i, lo) && b < fs.sb.size && fs.sb.BitmapBlock(b) < |fs.blocks|
            && Marked(fs.sb, fs.blocks, b)
            && Truncating(Freed(fs, b), i, lo + 1) && OthersSame(fs, Freed(fs, b), i)
            && forall k: nat :: k < MAXFILE ==> At(Freed(fs, b), i, k) == At(fs, i, k)
  {
    var b := At(fs, i, lo);
    assert Counts(i, lo, i, lo);
    OwnedIsReal(fs, b);
    FreedMap(fs, b);
    hide MapOk, Shape;
    FreedAddresses(fs, i, lo, b);
    FreedOwners(fs, i, lo, b);
    FreedOthers(fs, i, lo, b);
  }

  lemma FreedAddresses(fs: Fs, i: nat, lo: nat, b: nat)
    requires Truncating(fs, i, lo) && b in fs.owner && b < fs.sb.size && fs.sb.BitmapBlock(b) < |fs.blocks|
    requires Shape(Freed(fs, b))
    requires forall a :: fs.sb.datastart <= a < |fs.blocks| ==> Freed(fs, b).blocks[a] == fs.blocks[a]
    ensures forall j: nat, k: nat :: j < |fs.inodes| && k < MAXFILE ==> At(Freed(fs, b), j, k) == At(fs, j, k)
  {
    hide MapOk, Shape, Flip, Word;
    forall j: nat, k: nat | j < |fs.inodes| && k < MAXFILE ensures At(Freed(fs, b), j, k) == At(fs, j, k) {
      IndirectIn(fs, i, lo, j);
    }
  }

  lemma FreedOwners(fs: Fs, i: nat, lo: nat, b: nat)
    requires Truncating(fs, i, lo) && b in fs.owner && fs.owner[b] == Data(i, lo) && fs.sb.BitmapBlock(b) < |fs.blocks|
    requires Shape(Freed(fs, b)) && At(fs, i, lo) == b
    requires forall j: nat, k: nat :: j < |fs.inodes| && k < MAXFILE ==> At(Freed(fs, b), j, k) == At(fs, j, k)
    ensures OwnedFrom(Freed(fs, b), i, lo + 1)
  {
    hide MapOk, Shape, Flip, Word;
    var fs' := Freed(fs, b);
    forall j: nat | j < |fs.inodes| ensures IndirectOk(fs', j) {
      assert IndirectOk(fs, j);
    }
    forall a | a in fs'.owner ensures OwnerOk(fs', a, i, lo + 1) {
      assert OwnerOk(fs, a, i, lo);
    }
    forall j: nat, k: nat | j < |fs.inodes| && Counts(j, k, i, lo + 1) && At(fs', j, k) != 0
      ensures At(fs', j, k) in fs'.owner && fs'.owner[At(fs', j, k)] == Data(j, k)
    {
      assert Counts(j, k, i, lo) && At(fs, j, k) in fs.owner;
    }
  }

  lemma OtherDataAt(fs: Fs, i: nat, lo: nat, j: nat, k: nat)
    requires Truncating(fs, i, lo) && j < |fs.inodes| && j != i && k < fs.inodes[j].size
    ensures k / BSIZE < MAXFILE
    ensures var a := At(fs, j, k / BSIZE);
            a in fs.owner && fs.owner[a] == Data(j, k / BSIZE) && fs.sb.datastart <= a < |fs.blocks|
  {
    assert SizeOk(fs, j, fs.inodes[j].size);
    assert k / BSIZE * BSIZE <= k;
    assert Counts(j, k / BSIZE, i, lo);
    hide Shape;
    OwnedIsReal(fs, At(fs, j, k / BSIZE));
  }

  lemma FreedOthers(fs: Fs, i: nat, lo: nat, b: nat)
    requires Truncating(fs, i, lo) && b in fs.owner && b < fs.sb.size && fs.sb.BitmapBlock(b) < |fs.blocks|
    requires Shape(Freed(fs, b))
    requires forall a :: fs.sb.datastart <= a < |fs.blocks| ==> Freed(fs, b).blocks[a] == fs.blocks[a]
    requires forall j: nat, k: nat :: j < |fs.inodes| && k < MAXFILE ==> At(Freed(fs, b), j, k) == At(fs, j, k)
    ensures OthersSame(fs, Freed(fs, b), i)
    ensures forall j: nat :: j < |fs.inodes| && j != i ==> SizeOk(Freed(fs, b), j, fs.inodes[j].size)
  {
    hide MapOk, Shape, Flip, Word;
    var fs' := Freed(fs, b);
    forall j: nat | j < |fs.inodes| && j != i
      ensures SizeOk(fs', j, fs.inodes[j].size) && Content(fs', j) == Content(fs, j)
    {
      assert SizeOk(fs, j, fs.inodes[j].size);
      forall k: nat | k < fs.inodes[j].size ensures ByteAt(fs', j, k) == ByteAt(fs, j, k) {
        OtherDataAt(fs, i, lo, j, k);
      }
    }
  }

  /** The inode of the file that is being truncated. */
  function WithAddr(fs: Fs, i: nat, bn: nat): Fs
    requires i < |fs.inodes| && bn < |fs.inodes[i].addrs|
  {
    fs.(inodes := fs.inodes[i := fs.inodes[i].(addrs := fs.inodes[i].addrs[bn := 0])])
  }

  lemma InodeOnly(fs: Fs, i: nat, lo: nat, ino: Inode)
    requires Truncating(fs, i, lo) && |ino.addrs| == NDIRECT + 1 && ino.size <= fs.inodes[i].size
    requires forall j :: 0 <= j <= NDIRECT ==> ino.addrs[j] == fs.inodes[i].addrs[j] || ino.addrs[j] == 0
    ensures var fs' := fs.(inodes := fs.inodes[i := ino]);
            && Shape(fs') && MapOk(fs') && OthersSame(fs, fs', i)
            && forall j: nat :: j < |fs.inodes| && j != i ==> SizeOk(fs', j, fs'.inodes[j].size)
  {
    var fs' := fs.(inodes := fs.inodes[i := ino]);
    forall j | 0 <= j < |fs'.inodes| ensures InodeShape(fs', fs'.inodes[j]) {
      assert InodeShape(fs, fs.inodes[j]);
      assert InodeShape(fs, fs.inodes[i]);
    }
    assert MapOk(fs') by {
      hide OwnedFrom, Bit;
      assert forall b: nat :: Marked.requires(fs.sb, fs.blocks, b) ==>
        Marked(fs'.sb, fs'.blocks, b) == Marked(fs.sb, fs.blocks, b);
    }
    hide Shape, MapOk, Word;
    forall j: nat | j < |fs.inodes| && j != i
      ensures SizeOk(fs', j, fs'.inodes[j].size) && Content(fs', j) == Content(fs, j)
    {
      assert SizeOk(fs, j, fs.inodes[j].size);
      assert forall k: nat :: k < MAXFILE ==> At(fs', j, k) == At(fs, j, k);
      assert forall k: nat :: ByteAt(fs', j, k) == ByteAt(fs, j, k);
    }
  }

  /** A freed direct block's address is cleared. */
  lemma ClearAddr(fs: Fs, i: nat, lo: nat)
    requires Truncating(fs, i, lo + 1) && lo < NDIRECT && |fs.inodes[i].addrs| == NDIRECT + 1
    ensures Truncating(WithAddr(fs, i, lo), i, lo + 1) && OthersSame(fs, WithAddr(fs, i, lo), i)
  {
    var fs' := WithAddr(fs, i, lo);
    InodeOnly(fs, i, lo + 1, fs'.inodes[i]);
    hide Shape, MapOk, Word;
    forall j: nat, k: nat | j < |fs.inodes| && Counts(j, k, i, lo + 1) ensures At(fs', j, k) == At(fs, j, k) {
    }
    forall j: nat | j < |fs.inodes| ensures IndirectOk(fs', j) {
      assert IndirectOk(fs, j);
    }
    forall b | b in fs'.owner ensures OwnerOk(fs', b, i, lo + 1) {
      assert OwnerOk(fs, b, i, lo + 1);
    }
  }

  /** Nothing but the indirect block is left of file i, and it goes too. */
  function Dropped(fs: Fs, i: nat): Fs
    requires i < |fs.inodes| && |fs.inodes[i].addrs| == NDIRECT + 1
    requires fs.sb.BitmapBlock(fs.inodes[i].addrs[NDIRECT]) < |fs.blocks|
  {
    WithAddr(Freed(fs, fs.inodes[i].addrs[NDIRECT]), i, NDIRECT)
  }

  lemma {:induction false} DropIndirect(fs: Fs, i: nat)
    requires Truncating(fs, i, MAXFILE) && |fs.inodes[i].addrs| == NDIRECT + 1 && fs.inodes[i].addrs[NDIRECT] != 0
    ensures var a := fs.inodes[i].addrs[NDIRECT];
            && a in fs.owner && fs.owner[a] == Indirect(i) && a < fs.sb.size && fs.sb.BitmapBlock(a) < |fs.blocks|
            && Marked(fs.sb, fs.blocks, a)
            && Truncating(Dropped(fs, i), i, MAXFILE) && OthersSame(fs, Dropped(fs, i), i)
  {
    var a := fs.inodes[i].addrs[NDIRECT];
    IndirectIn(fs, i, MAXFILE, i);
    OwnedIsReal(fs, a);
    FreedMap(fs, a);
    hide MapOk, Shape;
    FreedAddresses(fs, i, MAXFILE, a);
    FreedOthers(fs, i, MAXFILE, a);
    DroppedOwners(fs, i, a);
  }

  lemma DroppedOwners(fs: Fs, i: nat, a: nat)
    requires Truncating(fs, i, MAXFILE) && |fs.inodes[i].addrs| == NDIRECT + 1 && a == fs.inodes[i].addrs[NDIRECT] != 0
    requires fs.sb.BitmapBlock(a) < |fs.blocks| && a in fs.owner && fs.owner[a] == Indirect(i) && a < fs.sb.size
    requires Shape(Freed(fs, a)) && MapOk(Freed(fs, a)) && OthersSame(fs, Freed(fs, a), i)
    requires forall j: nat :: j < |fs.inodes| && j != i ==> SizeOk(Freed(fs, a), j, fs.inodes[j].size)
    requires forall j: nat, k: nat :: j < |fs.inodes| && k < MAXFILE ==> At(Freed(fs, a), j, k) == At(fs, j, k)
    ensures Truncating(Dropped(fs, i), i, MAXFILE) && OthersSame(fs, Dropped(fs, i), i)
  {
    hide MapOk, Shape, Flip, Word, OthersSame;
    var mid, fs' := Freed(fs, a), Dropped(fs, i);
    DroppedShape(mid, i);
    ClearedContents(fs, mid, i);
    forall j: nat | j < |fs.inodes| ensures IndirectOk(fs', j) {
      assert IndirectOk(fs, j);
    }
    forall j: nat, k: nat | j < |fs.inodes| && j != i && k < MAXFILE ensures At(fs', j, k) == At(fs, j, k) {
      assert At(fs', j, k) == At(mid, j, k);
    }
    DroppedOwnersOk(fs, i, a);
  }

  lemma DroppedOwnersOk(fs: Fs, i: nat, a: nat)
    requires Truncating(fs, i, MAXFILE) && |fs.inodes[i].addrs| == NDIRECT + 1 && a == fs.inodes[i].addrs[NDIRECT]
    requires fs.sb.BitmapBlock(a) < |fs.blocks| && a in fs.owner && fs.owner[a] == Indirect(i) && Shape(Dropped(fs, i))
    requires forall j: nat, k: nat :: j < |fs.inodes| && j != i && k < MAXFILE ==> At(Dropped(fs, i), j, k) == At(fs, j, k)
    requires forall j: nat :: j < |fs.inodes| ==> IndirectOk(Dropped(fs, i), j)
    ensures OwnedFrom(Dropped(fs, i), i, MAXFILE)
  {
    hide MapOk, Shape, Flip, Word;
    var fs' := Dropped(fs, i);
    forall b | b in fs'.owner ensures OwnerOk(fs', b, i, MAXFILE) {
      assert OwnerOk(fs, b, i, MAXFILE);
    }
    forall j: nat, k: nat | j < |fs.inodes| && Counts(j, k, i, MAXFILE) && At(fs', j, k) != 0
      ensures At(fs', j, k) in fs'.owner && fs'.owner[At(fs', j, k)] == Data(j, k)
    {
      assert j != i && At(fs, j, k) in fs.owner && fs.owner[At(fs, j, k)] == Data(j, k);
    }
  }

  lemma ClearedContents(fs: Fs, mid: Fs, i: nat)
    requires Shape(fs) && Shape(mid) && i < |fs.inodes| && OthersSame(fs, mid, i)
    requires |mid.inodes[i].addrs| == NDIRECT + 1 && Shape(WithAddr(mid, i, NDIRECT))
    requires forall j: nat :: j < |fs.inodes| && j != i ==> SizeOk(mid, j, fs.inodes[j].size)
    ensures var fs' := WithAddr(mid, i, NDIRECT);
            && OthersSame(fs, fs', i)
            && (forall j: nat, k: nat :: j < |fs.inodes| && j != i && k < MAXFILE ==> At(fs', j, k) == At(mid, j, k))
            && forall j: nat :: j < |fs.inodes| && j != i ==> SizeOk(fs', j, fs'.inodes[j].size)
  {
    hide Shape, Word;
    var fs' := WithAddr(mid, i, NDIRECT);
    forall j: nat | j < |fs.inodes| && j != i
      ensures SizeOk(fs', j, fs'.inodes[j].size) && Content(fs', j) == Content(fs, j)
    {
      assert SizeOk(mid, j, fs.inodes[j].size) && Content(mid, j) == Content(fs, j);
      assert forall k: nat :: k < MAXFILE ==> At(fs', j, k) == At(mid, j, k);
      assert forall k: nat :: ByteAt(fs', j, k) == ByteAt(mid, j, k);
    }
  }

  lemma DroppedShape(fs: Fs, i: nat)
    requires Shape(fs) && MapOk(fs) && i < |fs.inodes| && |fs.inodes[i].addrs| == NDIRECT + 1
    ensures Shape(WithAddr(fs, i, NDIRECT)) && MapOk(WithAddr(fs, i, NDIRECT))
  {
    var fs' := WithAddr(fs, i, NDIRECT);
    forall j | 0 <= j < |fs'.inodes| ensures InodeShape(fs', fs'.inodes[j]) {
      assert InodeShape(fs, fs.inodes[j]);
      assert InodeShape(fs, fs.inodes[i]);
    }
    hide Bit;
    assert forall b: nat :: Marked.requires(fs.sb, fs.blocks, b) ==>
        Marked(fs'.sb, fs'.blocks, b) == Marked(fs.sb, fs.blocks, b);
  }

  /** A file with no addresses is an empty file. */
  lemma EmptyFile(fs: Fs, i: nat, lo: nat)
    requires Truncating(fs, i, lo) && |fs.inodes[i].addrs| == NDIRECT + 1
    requires forall j :: 0 <= j <= NDIRECT ==> fs.inodes[i].addrs[j] == 0
    ensures var fs' := fs.(inodes := fs.inodes[i := fs.inodes[i].(size := 0)]);
            Inv(fs') && OthersSame(fs, fs', i) && Content(fs', i) == []
  {
    var fs' := fs.(inodes := fs.inodes[i := fs.inodes[i].(size := 0)]);
    InodeOnly(fs, i, lo, fs'.inodes[i]);
    hide Shape, MapOk, Word;
    forall j: nat | j < |fs.inodes| ensures IndirectOk(fs', j) {
      assert IndirectOk(fs, j);
    }
    forall b | b in fs'.owner ensures OwnerOk(fs', b, 0, 0) {
      assert OwnerOk(fs, b, i, lo);
      OwnedIsReal(fs, b);
    }
    forall j: nat, k: nat | j < |fs.inodes| && Counts(j, k, 0, 0) && At(fs', j, k) != 0
      ensures At(fs', j, k) in fs'.owner && fs'.owner[At(fs', j, k)] == Data(j, k)
    {
      assert j != i && Counts(j, k, i, lo) && At(fs', j, k) == At(fs, j, k);
    }
  }

  /** Bytes within one block of a file. */
  lemma ContentSlice(fs: Fs, i: nat, off: nat, n: nat)
    requires Inv(fs) && i < |fs.inodes| && 0 < n && off % BSIZE + n <= BSIZE && off + n <= fs.inodes[i].size
    ensures off / BSIZE < MAXFILE && 0 < At(fs, i, off / BSIZE) < |fs.blocks|
    ensures Content(fs, i)[off..off + n]
            == fs.blocks[At(fs, i, off / BSIZE)][off % BSIZE..off % BSIZE + n]
  {
    hide Shape, MapOk, Word;
    ShapeIs(fs);
    DataAt(fs, i, off);
    forall k | off <= k < off + n ensures k / BSIZE == off / BSIZE && k % BSIZE == off % BSIZE + (k - off) {
      InBlock(off, n, k);
    }
  }

  lemma InBlock(off: nat, n: nat, k: nat)
    requires off % BSIZE + n <= BSIZE && off <= k < off + n
    ensures k / BSIZE == off / BSIZE && k % BSIZE == off % BSIZE + (k - off)
  {
  }

  /** The bytes d have been written at off, within one block of file i. */
  ghost predicate Chunk(fs: Fs, fs': Fs, i: nat, off: nat, d: seq<byte>)
    requires Shape(fs) && Shape(fs') && i < |fs.inodes|
  {
    && OthersSame(fs, fs', i) && KeepsData(fs, fs', i, off / BSIZE) && off / BSIZE < MAXFILE
    && 0 < At(fs', i, off / BSIZE) < |fs'.blocks|
    && (At(fs, i, off / BSIZE) != 0 ==> At(fs', i, off / BSIZE) == At(fs, i, off / BSIZE) < |fs.blocks|)
    && forall x: nat :: x < BSIZE ==>
         if off % BSIZE <= x < off % BSIZE + |d| then fs'.blocks[At(fs', i, off / BSIZE)][x] == d[x - off % BSIZE]
         else At(fs, i, off / BSIZE) != 0 ==>
                fs'.blocks[At(fs', i, off / BSIZE)][x] == fs.blocks[At(fs, i, off / BSIZE)][x]
  }

  /** The first tot bytes of src have been written at off of file i; the rest
      of the file, up to `end`, is as it was in fs0. */
  ghost predicate Written(fs0: Fs, fs: Fs, i: nat, off: nat, src: seq<byte>, tot: nat)
    requires Shape(fs0) && Shape(fs) && i < |fs0.inodes| == |fs.inodes|
  {
    && tot <= |src| && OthersSame(fs0, fs, i)
    && forall k: nat :: k < fs0.inodes[i].size || k < off + tot ==> ByteIs(fs0, fs, i, off, src, tot, k)
  }

  ghost predicate ByteIs(fs0: Fs, fs: Fs, i: nat, off: nat, src: seq<byte>, tot: nat, k: nat)
    requires Shape(fs0) && Shape(fs) && i < |fs0.inodes| == |fs.inodes| && tot <= |src|
  {
    && k / BSIZE < MAXFILE && 0 < At(fs, i, k / BSIZE) < |fs.blocks|
    && ByteAt(fs, i, k) == if off <= k < off + tot then src[k - off] else ByteAt(fs0, i, k)
  }

  lemma NothingWritten(fs: Fs, i: nat, off: nat, src: seq<byte>)
    requires Inv(fs) && i < |fs.inodes| && off <= fs.inodes[i].size
    ensures Written(fs, fs, i, off, src, 0)
  {
    hide Shape, MapOk, Word;
    ShapeIs(fs);
    forall k: nat | k < fs.inodes[i].size ensures ByteIs(fs, fs, i, off, src, 0, k) {
      DataAt(fs, i, k);
    }
  }

  lemma WrittenMore(fs0: Fs, fs: Fs, fs': Fs, i: nat, off: nat, src: seq<byte>, tot: nat, n: nat)
    requires Shape(fs0) && Shape(fs) && Shape(fs') && i < |fs0.inodes| == |fs.inodes| == |fs'.inodes|
    requires tot + n <= |src| && (off + tot) % BSIZE + n <= BSIZE
    requires Written(fs0, fs, i, off, src, tot) && Chunk(fs, fs', i, off + tot, src[tot..tot + n])
    ensures Written(fs0, fs', i, off, src, tot + n)
  {
    hide Shape, Word;
    var bn, t := (off + tot) / BSIZE, tot + n;
    forall k: nat | k < fs0.inodes[i].size || k < off + t ensures ByteIs(fs0, fs', i, off, src, t, k) {
      if k < fs0.inodes[i].size || k < off + tot {
        assert ByteIs(fs0, fs, i, off, src, tot, k);
        if k / BSIZE == bn {
          SameBlock(off + tot, n, k);
        } else {
          OtherBlock(off + tot, n, k);
        }
      } else {
        InBlock(off + tot, n, k);
      }
    }
  }

  lemma SameBlock(off: nat, n: nat, k: nat)
    requires off % BSIZE + n <= BSIZE && k / BSIZE == off / BSIZE
    ensures off <= k < off + n <==> off % BSIZE <= k % BSIZE < off % BSIZE + n
    ensures off <= k ==> k % BSIZE - off % BSIZE == k - off
  {
  }

  lemma OtherBlock(off: nat, n: nat, k: nat)
    requires off % BSIZE + n <= BSIZE && k / BSIZE != off / BSIZE
    ensures !(off <= k < off + n)
  {
    if off <= k < off + n {
      InBlock(off, n, k);
    }
  }

  lemma WrittenKept(fs0: Fs, fs: Fs, fs': Fs, i: nat, off: nat, src: seq<byte>, tot: nat)
    requires Shape(fs0) && Shape(fs) && Shape(fs') && i < |fs0.inodes| == |fs.inodes| == |fs'.inodes|
    requires Written(fs0, fs, i, off, src, tot) && KeepsAll(fs, fs') && OthersSame(fs, fs', i)
    ensures Written(fs0, fs', i, off, src, tot)
  {
    hide Shape, Word;
    forall k: nat | k < fs0.inodes[i].size || k < off + tot ensures ByteIs(fs0, fs', i, off, src, tot, k) {
      assert ByteIs(fs0, fs, i, off, src, tot, k);
    }
  }

  /** The size that writei leaves is backed by blocks. */
  lemma WrittenSize(fs0: Fs, fs: Fs, i: nat, off: nat, src: seq<byte>, tot: nat)
    requires Inv(fs) && Shape(fs0) && i < |fs0.inodes| == |fs.inodes| && Written(fs0, fs, i, off, src, tot)
    requires off + tot <= MAXFILE * BSIZE
    ensures SizeOk(fs, i, off + tot)
  {
    hide Shape, MapOk, Word;
    forall bn: nat | bn < MAXFILE && bn * BSIZE < off + tot ensures At(fs, i, bn) != 0 {
      assert ByteIs(fs0, fs, i, off, src, tot, bn * BSIZE);
      assert bn * BSIZE / BSIZE == bn;
    }
  }
}
