/** lab2/kernel/fs.c and the chunks of lab2/kernel/file.c's filewrite: block
    allocation and file contents, over the block map that the log provides. */
module FileBlocks {
  import opened Blocks
  import opened Counting
  import opened LogFormat
  import opened FileImage

  /** The file's bytes with src written at off; past the end nothing is. */
  function Patch(bytes: seq<byte>, off: nat, src: seq<byte>): seq<byte> {
    if off > |bytes| then bytes else bytes[..off] + src + if off + |src| < |bytes| then bytes[off + |src|..] else []
  }

  ghost predicate IsBitmap(sb: Superblock, m: nat) {
    exists b: nat :: b < sb.size && m == sb.BitmapBlock(b)
  }

  ghost function IndirectOf(fs: Fs, i: nat): nat
    requires i < |fs.inodes|
  {
    if |fs.inodes[i].addrs| == NDIRECT + 1 then fs.inodes[i].addrs[NDIRECT] else 0
  }

  ghost predicate IsData(fs: Fs, i: nat, lo: nat, hi: nat, m: nat)
    requires Shape(fs) && i < |fs.inodes|
  {
    exists bn: nat :: lo / BSIZE <= bn && bn * BSIZE < hi && bn < MAXFILE && At(fs, i, bn) == m
  }

  /** The blocks that writing bytes lo to hi of file i may log. */
  ghost predicate MayLog(fs: Fs, i: nat, lo: nat, hi: nat, m: nat)
    requires Shape(fs) && i < |fs.inodes|
  {
    IsBitmap(fs.sb, m) || (m != 0 && (m == IndirectOf(fs, i) || IsData(fs, i, lo, hi, m)))
  }

  /** More operations have ended, each within the log's budget when the free
      map is one block. */
  ghost predicate Grown(was: seq<set<nat>>, now: seq<set<nat>>, sb: Superblock) {
    was <= now && (sb.size <= BITS ==> forall k :: |was| <= k < |now| ==> |now[k]| <= MAXOPBLOCKS - 3)
  }

  /** struct file, for an inode. */
  class OpenFile {
    const ip: nat
    var off: nat

    constructor (ip: nat)
      ensures this.ip == ip && off == 0
    {
      this.ip, off := ip, 0;
    }
  }

  class FileSystem {
    const sb: Superblock
    /** What bread returns for each block. */
    var blocks: seq<Block>
    /** The inodes in memory. */
    var inodes: seq<Inode>
    ghost var owner: map<nat, Slot>
    /** The blocks that the current operation has passed to log_write. */
    ghost var logged: set<nat>
    /** The same for each operation that has ended. */
    ghost var ops: seq<set<nat>>

    /** A file system that mkfs, or an earlier run, left on the disk. */
    constructor (sb: Superblock, blocks: seq<Block>, inodes: seq<Inode>, ghost owner: map<nat, Slot>)
      requires Inv(Fs(sb, blocks, inodes, owner)) && DinodesOk(Fs(sb, blocks, inodes, owner))
      ensures Valid() && State() == Fs(sb, blocks, inodes, owner) && logged == {} && ops == []
    {
      this.sb, this.blocks, this.inodes, this.owner := sb, blocks, inodes, owner;
      logged, ops := {}, [];
    }

    ghost function State(): Fs
      reads this
    {
      Fs(sb, blocks, inodes, owner)
    }

    ghost predicate Valid()
      reads this
    {
      Inv(State()) && DinodesOk(State())
    }

    ghost predicate Full()
      reads this
    {
      forall b: nat :: b < sb.size && sb.BitmapBlock(b) < |blocks| ==> Marked(sb, blocks, b)
    }

    /** log_write of a block with new contents. */
    method Write(bn: nat, d: Block)
      requires bn < |blocks|
      modifies this`blocks, this`logged
      ensures blocks == old(blocks)[bn := d] && logged == old(logged) + {bn}
    {
      blocks := blocks[bn := d];
      logged := logged + {bn};
    }

    /** balloc: the lowest free block, marked and zeroed; 0 when the disk is full. */
    method Balloc() returns (r: nat)
      requires Shape(State()) && MapOk(State())
      modifies this`blocks, this`logged
      ensures r == 0 ==> blocks == old(blocks) && logged == old(logged) && Full()
      ensures r != 0 ==> r < sb.size && sb.BitmapBlock(r) < |old(blocks)| == |blocks|
      ensures r != 0 ==> !Marked(sb, old(blocks), r) && blocks == Allocated(old(State()), r)
      ensures r != 0 ==> forall c: nat :: c < r ==> sb.BitmapBlock(c) < |blocks| && Marked(sb, old(blocks), c)
      ensures r != 0 ==> logged == old(logged) + {sb.BitmapBlock(r), r}
    {
      hide MapOk, Shape, Bit, Flip;
      var b := 0;
      while b < sb.size
        invariant b % BITS == 0 && blocks == old(blocks) && logged == old(logged)
        invariant forall c: nat :: c < b && c < sb.size ==> sb.BitmapBlock(c) < |blocks| && Marked(sb, blocks, c)
      {
        var bi := 0;
        while bi < BITS && b + bi < sb.size
          invariant 0 <= bi <= BITS && blocks == old(blocks) && logged == old(logged)
          invariant forall c: nat :: c < b + bi && c < sb.size ==> sb.BitmapBlock(c) < |blocks| && Marked(sb, blocks, c)
        {
          BitOf(b, bi);
          if !HasBit(blocks[sb.BitmapBlock(b)][bi / 8], bi % 8) {
            Take(b + bi);
            return b + bi;
          }
          bi := bi + 1;
        }
        b := b + BITS;
      }
      return 0;
    }

    lemma BitOf(b: nat, bi: nat)
      requires Shape(State()) && b % BITS == 0 && bi < BITS && b + bi < sb.size
      ensures sb.BitmapBlock(b + bi) == sb.BitmapBlock(b) < sb.datastart <= |blocks| && (b + bi) % BITS == bi
      ensures Marked(sb, blocks, b + bi) <==> HasBit(blocks[sb.BitmapBlock(b)][bi / 8], bi % 8)
    {
    }

    /** balloc, when it has found a clear bit: set it and zero the block. */
    method Take(r: nat)
      requires Shape(State()) && MapOk(State()) && r < sb.size && sb.BitmapBlock(r) < |blocks|
      requires !Marked(sb, blocks, r)
      modifies this`blocks, this`logged
      ensures r != 0 && |blocks| == |old(blocks)| && blocks == Allocated(old(State()), r)
      ensures logged == old(logged) + {sb.BitmapBlock(r), r}
    {
      hide MapOk, Shape, Marked, Bit, Flip;
      FreeBlock(State(), r);
      ShapeIs(State());
      Write(sb.BitmapBlock(r), Flip(blocks[sb.BitmapBlock(r)], r % BITS));
      Write(r, ZeroBlock());
    }

    /** bfree; a clear bit is the panic. */
    method Bfree(b: nat)
      requires b < sb.size && sb.BitmapBlock(b) < |blocks| && Marked(sb, blocks, b)
      modifies this`blocks, this`owner, this`logged
      ensures State() == Freed(old(State()), b) && logged == old(logged) + {sb.BitmapBlock(b)}
    {
      var m := sb.BitmapBlock(b);
      Write(m, Flip(blocks[m], b % BITS));
      owner := owner - {b};
    }

    /** What bmap may change besides the block it returns. */
    twostate predicate Mapped(i: nat, a: nat)
      requires old(Inv(State())) && Inv(State()) && i < |inodes|
      reads this
    {
      && SameContents(old(State()), State()) && KeepsAll(old(State()), State())
      && inodes == old(inodes)[i := inodes[i]] && inodes[i].size == old(inodes[i]).size
      && |blocks| == |old(blocks)|
      && (forall b: nat :: b < sb.bmapstart && b < |blocks| ==> blocks[b] == old(blocks)[b])
      && (old(IndirectOf(State(), i)) != 0 ==> IndirectOf(State(), i) == old(IndirectOf(State(), i)))
      && logged >= old(logged)
      && forall m :: m in logged - old(logged) ==>
           IsBitmap(sb, m) || (m != 0 && (m == a || m == IndirectOf(State(), i)))
    }

    /** bmap: the disk block of block bn of the file, allocated if need be; 0
        when the disk is full. */
    method Bmap(i: nat, bn: nat) returns (a: nat)
      requires Inv(State()) && i < |inodes| && bn < MAXFILE
      modifies this`blocks, this`inodes, this`owner, this`logged
      ensures Inv(State()) && i < |inodes| && a == At(State(), i, bn) && a < sb.size
      ensures Mapped(i, a)
      ensures a == 0 ==> Full()
      ensures old(At(State(), i, bn)) != 0 ==> State() == old(State()) && logged == old(logged)
    {
      hide Shape, MapOk, Owned, SizesOk, SameContents, KeepsAll;
      ghost var fs0 := State();
      Addresses(i, bn);
      if bn < NDIRECT {
        a := inodes[i].addrs[bn];
        if a == 0 {
          a := Direct(i, bn);
        }
        return;
      }
      if inodes[i].addrs[NDIRECT] == 0 {
        a := Direct(i, NDIRECT);
        if a == 0 {
          return 0;
        }
      }
      ghost var fs1 := State();
      Addresses(i, bn);
      a := Entry(i, bn);
      KeepsTwice(fs0, fs1, State());
      assert inodes == old(inodes)[i := inodes[i]];
    }

    lemma Addresses(i: nat, bn: nat)
      requires Inv(State()) && i < |inodes| && bn < MAXFILE
      ensures |inodes[i].addrs| == NDIRECT + 1 && inodes[i].addrs[NDIRECT] < |blocks| == sb.size < WORD_LIMIT
      ensures At(State(), i, bn) == AddrOf(blocks, inodes[i], bn) < sb.size
      ensures KeepsAll(State(), State()) && SameContents(State(), State())
    {
      assert InodeShape(State(), inodes[i]);
      KeepsSelf(State());
      if At(State(), i, bn) != 0 {
        AtIs(State(), i, bn);
        OwnedInRange(State(), At(State(), i, bn));
      }
    }

    /** A block for an empty entry of ip->addrs. */
    method Direct(i: nat, bn: nat) returns (a: nat)
      requires Inv(State()) && i < |inodes| && bn <= NDIRECT
      requires |inodes[i].addrs| == NDIRECT + 1 && inodes[i].addrs[bn] == 0
      modifies this`blocks, this`inodes, this`owner, this`logged
      ensures Inv(State()) && i < |inodes| && a < sb.size
      ensures |inodes[i].addrs| == NDIRECT + 1 && a == inodes[i].addrs[bn]
      ensures Mapped(i, a)
      ensures a == 0 ==> Full() && State() == old(State())
      ensures bn < NDIRECT ==> a == At(State(), i, bn)
      ensures forall k: nat :: NDIRECT <= k < MAXFILE ==> At(State(), i, k) == old(At(State(), i, k))
    {
      hide Shape, MapOk, Owned, SizesOk, SameContents, KeepsAll;
      ghost var fs0 := State();
      Addresses(i, 0);
      a := Balloc();
      if a != 0 {
        GiveDirectOk(fs0, i, bn, a);
        MetaKept(fs0, a);
        inodes := inodes[i := inodes[i].(addrs := inodes[i].addrs[bn := a])];
        owner := owner[a := if bn == NDIRECT then Indirect(i) else Data(i, bn)];
        assert State() == GiveDirect(fs0, i, bn, a);
      }
    }

    /** balloc writes no block below the free map. */
    lemma MetaKept(fs: Fs, a: nat)
      requires Inv(fs) && a < fs.sb.size && fs.sb.BitmapBlock(a) < |fs.blocks| && !Marked(fs.sb, fs.blocks, a)
      ensures forall b: nat :: b < fs.sb.bmapstart && b < |fs.blocks| ==> Allocated(fs, a)[b] == fs.blocks[b]
      ensures |fs.blocks| == fs.sb.size && 0 < a && a !in fs.owner
      ensures fs.sb.BitmapBlock(a) !in fs.owner
      ensures forall b :: b in fs.owner ==> fs.sb.bmapstart < b < |fs.blocks| && Allocated(fs, a)[b] == fs.blocks[b]
    {
      FreeBlock(fs, a);
      OwnedBlocks(fs, a);
    }

    /** A block for an entry of the indirect block. */
    method Entry(i: nat, bn: nat) returns (a: nat)
      requires Inv(State()) && i < |inodes| && NDIRECT <= bn < MAXFILE
      requires |inodes[i].addrs| == NDIRECT + 1 && 0 < inodes[i].addrs[NDIRECT] < |blocks|
      modifies this`blocks, this`owner, this`logged
      ensures Inv(State()) && i < |inodes| && a == At(State(), i, bn) && a < sb.size
      ensures Mapped(i, a) && inodes == old(inodes)
      ensures a == 0 ==> Full()
      ensures old(At(State(), i, bn)) != 0 ==> State() == old(State()) && logged == old(logged)
    {
      hide Shape, MapOk, Owned, SizesOk, SameContents, KeepsAll;
      ghost var fs0 := State();
      var indirect := inodes[i].addrs[NDIRECT];
      Addresses(i, bn);
      IndirectAt(fs0, i);
      a := Word(blocks[indirect], bn - NDIRECT);
      if a == 0 {
        a := Balloc();
        if a != 0 {
          MetaKept(fs0, a);
          GiveEntryOk(fs0, i, bn, a);
          Write(indirect, SetWord(blocks[indirect], bn - NDIRECT, a));
          owner := owner[a := Data(i, bn)];
          assert State() == GiveEntry(fs0, i, bn, a);
        }
      }
    }

    /** iupdate: the inode on disk is the one in memory. */
    method Iupdate(i: nat)
      requires Inv(State()) && i < |inodes| && DinodesBut(State(), i)
      modifies this`blocks, this`logged
      ensures Valid() && SameContents(old(State()), State()) && logged == old(logged) + {sb.InodeBlock(i)}
      ensures |blocks| == |old(blocks)| && forall b: nat :: sb.bmapstart <= b < |blocks| ==> blocks[b] == old(blocks)[b]
    {
      hide MapOk, Owned, SizesOk, PutInode, IsDinode;
      assert InodeShape(State(), inodes[i]);
      IupdateOk(State(), i);
      var m := sb.InodeBlock(i);
      Write(m, PutInode(blocks[m], i % IPB, inodes[i]));
    }

    /** readi: the bytes from off to off + n that the file has; it allocates
        nothing. */
    method Readi(i: nat, off: nat, n: nat) returns (r: seq<byte>)
      requires Valid() && i < |inodes| && off < WORD_LIMIT && n < WORD_LIMIT
      modifies this`blocks, this`inodes, this`owner, this`logged
      ensures State() == old(State()) && logged == old(logged)
      ensures var bytes := Content(State(), i);
              r == if off > |bytes| || off + n >= WORD_LIMIT then []
                   else if off + n > |bytes| then bytes[off..] else bytes[off..off + n]
    {
      hide Shape, MapOk, Owned, SizesOk, DinodesOk, SameContents, KeepsAll, Content, ByteAt, At;
      r := [];
      if off > inodes[i].size || (off + n) % WORD_LIMIT < off {
        return;
      }
      ghost var bytes := Content(State(), i);
      var m := if off + n > inodes[i].size then inodes[i].size - off else n;
      var tot := 0;
      while tot < m
        invariant 0 <= tot <= m && State() == old(State()) && logged == old(logged)
        invariant r == bytes[off..off + tot]
      {
        var o := off + tot;
        var k := if m - tot < BSIZE - o % BSIZE then m - tot else BSIZE - o % BSIZE;
        ContentSlice(State(), i, o, k);
        var a := Bmap(i, o / BSIZE);
        if a == 0 {
          break;
        }
        r := r + blocks[a][o % BSIZE..o % BSIZE + k];
        assert bytes[off..o + k] == bytes[off..o] + bytes[o..o + k];
        tot := tot + k;
      }
    }

    /** One turn of writei's loop; false when the disk is full. */
    method PutChunk(i: nat, off: nat, d: seq<byte>) returns (ok: bool)
      requires Inv(State()) && i < |inodes| && DinodesBut(State(), i)
      requires 0 < |d| && off % BSIZE + |d| <= BSIZE && off / BSIZE < MAXFILE
      modifies this`blocks, this`inodes, this`owner, this`logged
      ensures Inv(State()) && i < |inodes| == |old(inodes)| && DinodesBut(State(), i)
      ensures inodes[i].size == old(inodes[i]).size
        && (old(IndirectOf(State(), i)) != 0 ==> IndirectOf(State(), i) == old(IndirectOf(State(), i)))
      ensures ok ==> Chunk(old(State()), State(), i, off, d)
      ensures !ok ==> Full() && KeepsAll(old(State()), State()) && OthersSame(old(State()), State(), i)
      ensures logged >= old(logged)
      ensures forall m :: m in logged - old(logged) ==>
                IsBitmap(sb, m) || (m != 0 && (m == IndirectOf(State(), i) || m == At(State(), i, off / BSIZE)))
      ensures forall k: nat :: k < MAXFILE && old(At(State(), i, k)) != 0 ==> At(State(), i, k) == old(At(State(), i, k))
    {
      hide Shape, MapOk, Owned, SizesOk, SameContents, KeepsAll, DinodesBut, KeepsData;
      ghost var fs0 := State();
      var a := Bmap(i, off / BSIZE);
      ghost var fs1 := State();
      SameToOthers(fs0, fs1, i);
      DinodesKept(fs0, fs1, i);
      AddressesStay(fs0, fs1, i);
      if a == 0 {
        return false;
      }
      ShapeIs(fs1);
      WriteDataOk(fs1, i, off / BSIZE, blocks[a][..off % BSIZE] + d + blocks[a][off % BSIZE + |d|..]);
      Write(a, blocks[a][..off % BSIZE] + d + blocks[a][off % BSIZE + |d|..]);
      DataAboveMap(fs1, i, off / BSIZE);
      DinodesKept(fs1, State(), i);
      ChunkIs(fs0, fs1, State(), i, off, d);
      return true;
    }

    /** writei: -1, or how much of src was written: all of it, unless the disk
        is full.  Then the file is as before but for those bytes, and every
        other file is as before. */
    method Writei(i: nat, src: seq<byte>, off: nat) returns (tot: int)
      requires Valid() && i < |inodes| && off < WORD_LIMIT && |src| < WORD_LIMIT
      modifies this`blocks, this`inodes, this`owner, this`logged
      ensures Valid() && i < |inodes| == |old(inodes)| && -1 <= tot <= |src|
      ensures tot < 0 <==> off > |old(Content(State(), i))| || off + |src| > MAXFILE * BSIZE
      ensures tot < 0 ==> State() == old(State()) && logged == old(logged)
      ensures tot >= 0 ==> Content(State(), i) == Patch(old(Content(State(), i)), off, src[..tot])
      ensures 0 <= tot < |src| ==> Full()
      ensures forall j: nat :: j < |inodes| && j != i ==> Content(State(), j) == old(Content(State(), j))
      ensures forall m :: m in logged - old(logged) ==>
                m == sb.InodeBlock(i) || MayLog(State(), i, off, off + |src|, m)
    {
      hide Shape, MapOk, Owned, SizesOk, SameContents, KeepsAll, DinodesBut, KeepsData, DinodesOk, Written, Chunk;
      ghost var fs0 := State();
      if off > inodes[i].size || (off + |src|) % WORD_LIMIT < off {
        return -1;
      }
      if off + |src| > MAXFILE * BSIZE {
        return -1;
      }
      NothingWritten(fs0, i, off, src);
      AllDinodes(fs0, i);
      tot := 0;
      while tot < |src|
        invariant 0 <= tot <= |src| && Inv(State()) && i < |inodes| == |old(inodes)| && DinodesBut(State(), i)
        invariant inodes[i].size == old(inodes[i]).size && Written(fs0, State(), i, off, src, tot)
        invariant forall m :: m in logged - old(logged) ==> MayLog(State(), i, off, off + |src|, m)
      {
        var o := off + tot;
        var k := if |src| - tot < BSIZE - o % BSIZE then |src| - tot else BSIZE - o % BSIZE;
        ghost var fs, was := State(), logged;
        var ok := PutChunk(i, o, src[tot..tot + k]);
        LoggedMore(fs, State(), i, was - old(logged), logged - old(logged), off, off + |src|, o);
        if !ok {
          WrittenKept(fs0, fs, State(), i, off, src, tot);
          break;
        }
        WrittenMore(fs0, fs, State(), i, off, src, tot, k);
        tot := tot + k;
      }
      ghost var fs, end := State(), off + |src|;
      assert forall m :: m in logged - old(logged) ==> MayLog(fs, i, off, end, m);
      Finish(i, src, off, tot, fs0);
      MayLogSame(fs, State(), i, off, end);
      assert forall m :: m in logged - old(logged) ==> m == sb.InodeBlock(i) || MayLog(fs, i, off, end, m);
    }

    /** writei after its loop. */
    method Finish(i: nat, src: seq<byte>, off: nat, tot: nat, ghost fs0: Fs)
      requires Inv(fs0) && Inv(State()) && fs0.sb == sb && i < |inodes| == |fs0.inodes| && DinodesBut(State(), i)
      requires Written(fs0, State(), i, off, src, tot) && inodes[i].size == fs0.inodes[i].size
      requires off <= inodes[i].size && off + tot <= MAXFILE * BSIZE
      modifies this`blocks, this`inodes, this`logged
      ensures Valid() && i < |inodes| == |fs0.inodes| && logged == old(logged) + {sb.InodeBlock(i)}
      ensures Content(State(), i) == Patch(Content(fs0, i), off, src[..tot])
      ensures forall j: nat :: j < |inodes| && j != i ==> Content(State(), j) == Content(fs0, j)
      ensures |blocks| == |old(blocks)| && forall b: nat :: sb.bmapstart <= b < |blocks| ==> blocks[b] == old(blocks)[b]
      ensures IndirectOf(State(), i) == old(IndirectOf(State(), i))
      ensures forall bn: nat :: bn < MAXFILE ==> At(State(), i, bn) == old(At(State(), i, bn))
    {
      hide Shape, MapOk, Owned, SizesOk, KeepsAll, DinodesBut, KeepsData, DinodesOk;
      ghost var fs := State();
      WrittenSize(fs0, fs, i, off, src, tot);
      if off + tot > inodes[i].size {
        ResizeOk(fs, i, off + tot);
        inodes := inodes[i := inodes[i].(size := off + tot)];
        DinodesKept(fs, State(), i);
      }
      ghost var fs1 := State();
      PatchIs(fs0, fs, fs1, i, off, src, tot);
      Iupdate(i);
      AddressesKept(fs, State(), i);
    }

    /** What itrunc's loops keep, started on fs0. */
    ghost predicate TruncKept(fs0: Fs, i: nat)
      reads this
    {
      && Shape(fs0) && Shape(State()) && i < |fs0.inodes| && sb == fs0.sb && OthersSame(fs0, State(), i)
      && (forall b: nat :: b < sb.bmapstart && b < |fs0.blocks| ==> blocks[b] == fs0.blocks[b])
      && (forall b :: b in owner ==> b in fs0.owner && owner[b] == fs0.owner[b])
      && (forall b :: b in fs0.owner && fs0.owner[b].inum != i ==> b in owner)
    }

    /** itrunc's bfree of block bn. */
    method FreeBlockOf(i: nat, bn: nat, b: nat, ghost fs0: Fs)
      requires Truncating(State(), i, bn) && bn < MAXFILE && b == At(State(), i, bn) != 0 && TruncKept(fs0, i)
      modifies this`blocks, this`owner, this`logged
      ensures Truncating(State(), i, bn + 1) && TruncKept(fs0, i) && |blocks| == |old(blocks)|
      ensures forall c :: sb.datastart <= c < |blocks| ==> blocks[c] == old(blocks)[c]
      ensures forall k: nat :: k < MAXFILE ==> At(State(), i, k) == old(At(State(), i, k))
      ensures logged >= old(logged) && forall m :: m in logged - old(logged) ==> IsBitmap(sb, m)
    {
      hide Shape, MapOk, OwnedFrom, SizesOk, OthersSame;
      ghost var fs := State();
      FreeOne(fs, i, bn);
      ShapeIs(fs);
      OwnedInRange(fs, b);
      FreedMap(fs, b);
      Bfree(b);
      OthersTwice(fs0, fs, State(), i);
    }

    /** itrunc's first loop. */
    method TruncDirect(i: nat, ghost fs0: Fs)
      requires Truncating(State(), i, 0) && TruncKept(fs0, i)
      modifies this`blocks, this`inodes, this`owner, this`logged
      ensures Truncating(State(), i, NDIRECT) && TruncKept(fs0, i)
      ensures |inodes[i].addrs| == NDIRECT + 1 && forall j :: 0 <= j < NDIRECT ==> inodes[i].addrs[j] == 0
      ensures logged >= old(logged) && forall m :: m in logged - old(logged) ==> IsBitmap(sb, m)
    {
      hide Shape, MapOk, OwnedFrom, SizesOk, OthersSame;
      var k := 0;
      IndirectIn(State(), i, 0, i);
      while k < NDIRECT
        invariant 0 <= k <= NDIRECT && Truncating(State(), i, k) && TruncKept(fs0, i)
        invariant |inodes[i].addrs| == NDIRECT + 1 && forall j :: 0 <= j < k ==> inodes[i].addrs[j] == 0
        invariant logged >= old(logged) && forall m :: m in logged - old(logged) ==> IsBitmap(sb, m)
      {
        IndirectIn(State(), i, k, i);
        if inodes[i].addrs[k] != 0 {
          FreeBlockOf(i, k, inodes[i].addrs[k], fs0);
          ghost var fs := State();
          ClearAddr(fs, i, k);
          inodes := inodes[i := inodes[i].(addrs := inodes[i].addrs[k := 0])];
          OthersTwice(fs0, fs, State(), i);
        } else {
          SkipOne(State(), i, k);
        }
        k := k + 1;
      }
    }

    /** itrunc's second loop, and the indirect block itself. */
    method TruncIndirect(i: nat, ghost fs0: Fs)
      requires Truncating(State(), i, NDIRECT) && TruncKept(fs0, i)
      requires |inodes[i].addrs| == NDIRECT + 1 && inodes[i].addrs[NDIRECT] != 0
      requires forall j :: 0 <= j < NDIRECT ==> inodes[i].addrs[j] == 0
      modifies this`blocks, this`inodes, this`owner, this`logged
      ensures Truncating(State(), i, MAXFILE) && TruncKept(fs0, i)
      ensures |inodes[i].addrs| == NDIRECT + 1 && forall j :: 0 <= j <= NDIRECT ==> inodes[i].addrs[j] == 0
      ensures logged >= old(logged) && forall m :: m in logged - old(logged) ==> IsBitmap(sb, m)
    {
      hide Shape, MapOk, OwnedFrom, SizesOk, OthersSame, Word;
      IndirectIn(State(), i, NDIRECT, i);
      var bp := blocks[inodes[i].addrs[NDIRECT]];
      var j := 0;
      while j < WORDS
        invariant 0 <= j <= WORDS && Truncating(State(), i, NDIRECT + j) && TruncKept(fs0, i)
        invariant inodes == old(inodes) && sb.datastart <= inodes[i].addrs[NDIRECT] < |blocks|
        invariant blocks[inodes[i].addrs[NDIRECT]] == bp
        invariant logged >= old(logged) && forall m :: m in logged - old(logged) ==> IsBitmap(sb, m)
      {
        if Word(bp, j) != 0 {
          FreeBlockOf(i, NDIRECT + j, Word(bp, j), fs0);
        } else {
          SkipOne(State(), i, NDIRECT + j);
        }
        j := j + 1;
      }
      ghost var fs := State();
      DropIndirect(fs, i);
      FreedMap(fs, inodes[i].addrs[NDIRECT]);
      Bfree(inodes[i].addrs[NDIRECT]);
      inodes := inodes[i := inodes[i].(addrs := inodes[i].addrs[NDIRECT := 0])];
      assert State() == Dropped(fs, i);
      OthersTwice(fs0, fs, State(), i);
    }

    /** itrunc: the file is empty, exactly its blocks are free again, and every
        other file is as before. */
    method Itrunc(i: nat)
      requires Valid() && i < |inodes|
      modifies this`blocks, this`inodes, this`owner, this`logged
      ensures Valid() && i < |inodes| == |old(inodes)| && Content(State(), i) == []
      ensures forall j: nat :: j < |inodes| && j != i ==> Content(State(), j) == old(Content(State(), j))
      ensures forall b :: b in owner <==> b in old(owner) && old(owner)[b].inum != i
      ensures forall m :: m in logged - old(logged) ==> IsBitmap(sb, m) || m == sb.InodeBlock(i)
    {
      hide Shape, MapOk, Owned, OwnedFrom, SizesOk, DinodesBut, DinodesOk, OthersSame, SameContents;
      ghost var fs0 := State();
      StartTruncating(fs0, i);
      AllDinodes(fs0, i);
      OthersSelf(fs0, i);
      TruncDirect(i, fs0);
      ghost var lo := NDIRECT;
      if inodes[i].addrs[NDIRECT] != 0 {
        TruncIndirect(i, fs0);
        lo := MAXFILE;
      }
      ghost var fs := State();
      EmptyFile(fs, i, lo);
      inodes := inodes[i := inodes[i].(size := 0)];
      OthersTwice(fs0, fs, State(), i);
      ghost var fs1 := State();
      OthersMeans(fs0, fs1, i);
      DinodesKept(fs0, fs1, i);
      NothingOwned(fs1, i);
      Iupdate(i);
      SameMeans(fs1, State());
    }

    lemma SizeFits(i: nat)
      requires Valid() && i < |inodes|
      ensures |Content(State(), i)| <= MAXFILE * BSIZE
    {
      assert SizeOk(State(), i, inodes[i].size);
    }

    lemma HasShape()
      requires Valid()
      ensures Shape(State())
    {
    }

    /** One writei between begin_op and end_op. */
    method WriteOp(i: nat, d: seq<byte>, off: nat) returns (r: int)
      requires Valid() && i < |inodes| && off < WORD_LIMIT && |d| <= 3 * BSIZE
      modifies this`blocks, this`inodes, this`owner, this`logged, this`ops
      ensures Valid() && i < |inodes| == |old(inodes)| && -1 <= r <= |d|
      ensures r < 0 <==> off > |old(Content(State(), i))| || off + |d| > MAXFILE * BSIZE
      ensures r < 0 ==> State() == old(State())
      ensures 0 <= r < |d| ==> Full()
      ensures r >= 0 ==> Content(State(), i) == Patch(old(Content(State(), i)), off, d[..r]) && off + r <= MAXFILE * BSIZE
      ensures forall j: nat :: j < |inodes| && j != i ==> Content(State(), j) == old(Content(State(), j))
      ensures ops == old(ops) + [logged] && (sb.size <= BITS ==> |logged| <= MAXOPBLOCKS - 3)
    {
      hide MapOk, Owned, SizesOk, DinodesOk, Shape, Content, IsBitmap, MayLog;
      logged := {};
      r := Writei(i, d, off);
      assert forall m :: m in logged ==> m in logged - {};
      if sb.size <= BITS {
        WithinBudget(State(), i, off, off + |d|, logged);
      }
      ops := ops + [logged];
    }

    /** filewrite on an inode: chunks small enough for one log operation each.
        The file holds what was written, up to the first error: nothing when the
        offset is past the end; all of it when it fits in a file; otherwise all
        chunks that end within the largest file -- or less, if the disk is full
        afterwards. */
    method Filewrite(f: OpenFile, src: seq<byte>) returns (ret: int)
      requires Valid() && f.ip < |inodes| && f.off < WORD_LIMIT && |src| < WORD_LIMIT / 2
      modifies this`blocks, this`inodes, this`owner, this`logged, this`ops, f`off
      ensures Valid() && |inodes| == |old(inodes)| && old(f.off) <= f.off <= old(f.off) + |src|
      ensures ret == if f.off == old(f.off) + |src| then |src| else -1
      ensures Content(State(), f.ip) == Patch(old(Content(State(), f.ip)), old(f.off), src[..f.off - old(f.off)])
      ensures Reaches(old(f.off), |old(Content(State(), f.ip))|, |src|, f.off - old(f.off), Full())
      ensures forall j: nat :: j < |inodes| && j != f.ip ==> Content(State(), j) == old(Content(State(), j))
      ensures Grown(old(ops), ops, sb)
    {
      hide FileSystem.Valid, FileSystem.Full, MapOk, Owned, SizesOk, Shape, Content, Patch, ByteAt, Reaches;
      HasShape();
      SizeFits(f.ip);
      ghost var bytes, off0 := Content(State(), f.ip), f.off;
      var max := (MAXOPBLOCKS - 1 - 1 - 2) / 2 * BSIZE;
      var i := 0;
      NoPatch(bytes, off0);
      while i < |src|
        invariant 0 <= i <= |src| && f.off == off0 + i && Valid() && |inodes| == |old(inodes)|
        invariant i > 0 ==> off0 <= |bytes| && f.off <= MAXFILE * BSIZE
        invariant i % max == 0 || i == |src|
        invariant Shape(State()) && Content(State(), f.ip) == Patch(bytes, off0, src[..i])
        invariant forall j: nat :: j < |inodes| && j != f.ip ==> Content(State(), j) == old(Content(State(), j))
        invariant Grown(old(ops), ops, sb)
      {
        var n1 := |src| - i;
        if n1 > max {
          n1 := max;
        }
        var r := WriteOp(f.ip, src[i..i + n1], f.off);
        HasShape();
        if r > 0 {
          PatchMore(bytes, off0, src, i, n1, r);
          f.off := f.off + r;
        } else {
          NoPatch(Patch(bytes, off0, src[..i]), f.off);
        }
        if r != n1 {
          PatchLength(bytes, off0, src[..i]);
          StopsAt(off0, |bytes|, |src|, i, n1, r, Full());
          break;
        }
        i := i + r;
      }
      AllWritten(off0, |bytes|, |src|, Full());
      ret := if i == |src| then |src| else -1;
    }
  }

  lemma SameToOthers(fs: Fs, fs': Fs, i: nat)
    requires Shape(fs) && Shape(fs') && SameContents(fs, fs') && i < |fs.inodes|
    requires fs'.inodes == fs.inodes[i := fs'.inodes[i]]
    ensures OthersSame(fs, fs', i)
  {
  }

  lemma AddressesStay(fs: Fs, fs': Fs, i: nat)
    requires Shape(fs) && Shape(fs') && KeepsAll(fs, fs') && i < |fs.inodes|
    ensures forall k: nat :: k < MAXFILE && At(fs, i, k) != 0 ==> At(fs', i, k) == At(fs, i, k)
  {
    hide Shape, Word;
  }

  lemma AllDinodes(fs: Fs, i: nat)
    requires Shape(fs) && DinodesOk(fs)
    ensures DinodesBut(fs, i)
  {
  }

  lemma DataAboveMap(fs: Fs, i: nat, bn: nat)
    requires Inv(fs) && i < |fs.inodes| && bn < MAXFILE && At(fs, i, bn) != 0
    ensures fs.sb.bmapstart <= At(fs, i, bn) < |fs.blocks|
  {
    AtIs(fs, i, bn);
    OwnedInRange(fs, At(fs, i, bn));
  }

  lemma ChunkIs(fs0: Fs, fs1: Fs, fs2: Fs, i: nat, off: nat, d: seq<byte>)
    requires Shape(fs0) && Shape(fs1) && Shape(fs2) && i < |fs0.inodes| == |fs1.inodes| == |fs2.inodes|
    requires KeepsAll(fs0, fs1) && OthersSame(fs0, fs1, i) && off / BSIZE < MAXFILE && off % BSIZE + |d| <= BSIZE
    requires KeepsData(fs1, fs2, i, off / BSIZE)
    requires fs2.inodes == fs1.inodes && forall j: nat :: j < |fs1.inodes| && j != i ==> Content(fs2, j) == Content(fs1, j)
    requires 0 < At(fs1, i, off / BSIZE) == At(fs2, i, off / BSIZE) < |fs1.blocks|
    requires At(fs0, i, off / BSIZE) != 0 ==> fs1 == fs0
    requires var b := fs1.blocks[At(fs1, i, off / BSIZE)];
             fs2.blocks[At(fs1, i, off / BSIZE)] == b[..off % BSIZE] + d + b[off % BSIZE + |d|..]
    ensures Chunk(fs0, fs2, i, off, d)
  {
    hide Shape, Word, Content;
    var bn := off / BSIZE;
    forall j: nat, k: nat | j < |fs0.inodes| && k < MAXFILE && At(fs0, j, k) != 0 && !(j == i && k == bn)
      ensures At(fs2, j, k) == At(fs0, j, k) < |fs0.blocks|
      ensures fs2.blocks[At(fs0, j, k)] == fs0.blocks[At(fs0, j, k)]
    {
      assert At(fs1, j, k) == At(fs0, j, k);
    }
  }

  lemma LoggedMore(fs: Fs, fs': Fs, i: nat, was: set<nat>, now: set<nat>, lo: nat, hi: nat, o: nat)
    requires Shape(fs) && Shape(fs') && i < |fs.inodes| == |fs'.inodes| && fs'.sb == fs.sb
    requires forall m :: m in was ==> MayLog(fs, i, lo, hi, m)
    requires IndirectOf(fs, i) != 0 ==> IndirectOf(fs', i) == IndirectOf(fs, i)
    requires forall k: nat :: k < MAXFILE && At(fs, i, k) != 0 ==> At(fs', i, k) == At(fs, i, k)
    requires lo <= o < hi && o / BSIZE < MAXFILE
    requires forall m :: m in now - was ==>
               IsBitmap(fs.sb, m) || (m != 0 && (m == IndirectOf(fs', i) || m == At(fs', i, o / BSIZE)))
    ensures forall m :: m in now ==> MayLog(fs', i, lo, hi, m)
  {
    hide Shape, Word;
    forall m | m in now ensures MayLog(fs', i, lo, hi, m) {
      if m in was {
        assert MayLog(fs, i, lo, hi, m);
        if !IsBitmap(fs.sb, m) && m != IndirectOf(fs, i) {
          var bn: nat :| lo / BSIZE <= bn && bn * BSIZE < hi && bn < MAXFILE && At(fs, i, bn) == m;
          assert At(fs', i, bn) == m;
        }
      } else {
        BlockOfByte(lo, o);
        assert o / BSIZE * BSIZE < hi;
      }
    }
  }

  lemma MayLogSame(fs: Fs, fs': Fs, i: nat, lo: nat, hi: nat)
    requires Shape(fs) && Shape(fs') && i < |fs.inodes| == |fs'.inodes| && fs'.sb == fs.sb
    requires IndirectOf(fs', i) == IndirectOf(fs, i)
    requires forall bn: nat :: bn < MAXFILE ==> At(fs', i, bn) == At(fs, i, bn)
    ensures forall m :: MayLog(fs, i, lo, hi, m) ==> MayLog(fs', i, lo, hi, m)
  {
    hide Shape, Word;
    forall m: nat | IsData(fs, i, lo, hi, m) ensures IsData(fs', i, lo, hi, m) {
      var bn: nat :| lo / BSIZE <= bn && bn * BSIZE < hi && bn < MAXFILE && At(fs, i, bn) == m;
      assert At(fs', i, bn) == m;
    }
  }

  lemma BlockOfByte(lo: nat, o: nat)
    requires lo <= o
    ensures lo / BSIZE <= o / BSIZE && o / BSIZE * BSIZE <= o
  {
  }

  /** What has been written, seen as a whole file. */
  lemma PatchIs(fs0: Fs, fs: Fs, fs1: Fs, i: nat, off: nat, src: seq<byte>, tot: nat)
    requires Shape(fs0) && Shape(fs) && Shape(fs1) && i < |fs0.inodes| == |fs.inodes| == |fs1.inodes|
    requires Written(fs0, fs, i, off, src, tot) && off <= fs0.inodes[i].size
    requires fs1.inodes[i].size == if off + tot > fs0.inodes[i].size then off + tot else fs0.inodes[i].size
    requires forall k: nat :: ByteAt(fs1, i, k) == ByteAt(fs, i, k)
    ensures Content(fs1, i) == Patch(Content(fs0, i), off, src[..tot])
  {
    hide Shape, Word, ByteAt;
    var got, want := Content(fs1, i), Patch(Content(fs0, i), off, src[..tot]);
    assert |got| == |want|;
    forall k: nat | k < |got| ensures got[k] == want[k] {
      assert ByteIs(fs0, fs, i, off, src, tot, k);
    }
  }

  lemma AddressesKept(fs: Fs, fs': Fs, i: nat)
    requires Inv(fs) && Shape(fs') && i < |fs.inodes| == |fs'.inodes| && |fs'.blocks| == |fs.blocks|
    requires fs'.inodes[i].addrs == fs.inodes[i].addrs
    requires forall b: nat :: fs.sb.bmapstart <= b < |fs.blocks| ==> fs'.blocks[b] == fs.blocks[b]
    ensures forall bn: nat :: bn < MAXFILE ==> At(fs', i, bn) == At(fs, i, bn)
  {
    hide MapOk, Word;
    forall bn: nat | bn < MAXFILE ensures At(fs', i, bn) == At(fs, i, bn) {
      AtSame(fs, fs', i, bn) by {
        OwnedAboveMap(fs);
      }
    }
  }

  lemma OwnedAboveMap(fs: Fs)
    requires Inv(fs)
    ensures forall b :: b in fs.owner ==> fs.sb.bmapstart <= b < |fs.blocks|
  {
  }

  lemma OthersTwice(fs0: Fs, fs1: Fs, fs2: Fs, i: nat)
    requires Shape(fs0) && Shape(fs1) && Shape(fs2) && OthersSame(fs0, fs1, i) && OthersSame(fs1, fs2, i)
    ensures OthersSame(fs0, fs2, i)
  {
    hide Shape, Content;
  }

  lemma OthersSelf(fs: Fs, i: nat)
    requires Shape(fs)
    ensures OthersSame(fs, fs, i)
  {
  }

  lemma OthersMeans(fs: Fs, fs': Fs, i: nat)
    requires Shape(fs) && Shape(fs') && OthersSame(fs, fs', i)
    ensures |fs'.inodes| == |fs.inodes| && forall j :: 0 <= j < |fs.inodes| && j != i ==> fs'.inodes[j] == fs.inodes[j]
    ensures forall j: nat :: j < |fs.inodes| && j != i ==> Content(fs', j) == Content(fs, j)
  {
  }

  lemma SameMeans(fs: Fs, fs': Fs)
    requires Shape(fs) && Shape(fs') && SameContents(fs, fs')
    ensures |fs'.inodes| == |fs.inodes| && forall j: nat :: j < |fs.inodes| ==> Content(fs', j) == Content(fs, j)
  {
  }

  /** An empty file owns nothing. */
  lemma NothingOwned(fs: Fs, i: nat)
    requires Inv(fs) && i < |fs.inodes| && |fs.inodes[i].addrs| == NDIRECT + 1
    requires forall j :: 0 <= j <= NDIRECT ==> fs.inodes[i].addrs[j] == 0
    ensures forall b :: b in fs.owner ==> fs.owner[b].inum != i
  {
    hide Word;
    forall b | b in fs.owner ensures fs.owner[b].inum != i {
      assert OwnerOk(fs, b, 0, 0);
      OwnedInRange(fs, b);
      ShapeIs(fs);
    }
  }

  lemma PatchLength(bytes: seq<byte>, off: nat, src: seq<byte>)
    ensures |Patch(bytes, off, src)| == if off > |bytes| || off + |src| <= |bytes| then |bytes| else off + |src|
  {
  }

  /** Patch, byte by byte: src at off, and the old bytes elsewhere. */
  lemma PatchAt(bytes: seq<byte>, off: nat, src: seq<byte>, k: nat)
    requires off <= |bytes|
    ensures k < |src| ==> off + k < |Patch(bytes, off, src)| && Patch(bytes, off, src)[off + k] == src[k]
    ensures k < |bytes| && !(off <= k < off + |src|) ==> Patch(bytes, off, src)[k] == bytes[k]
  {
  }

  /** How far filewrite gets with total bytes from off in a file of this size. */
  ghost predicate Reaches(off: nat, size: nat, total: nat, moved: int, full: bool) {
    if off > size then moved == 0
    else if off + total <= MAXFILE * BSIZE then moved == total || full
    else
      var whole := (MAXFILE * BSIZE - off) / (3 * BSIZE) * (3 * BSIZE);
      size <= MAXFILE * BSIZE && moved < total && (moved == whole || (moved < whole && full))
  }

  /** The chunk of n1 bytes at i has failed, or has been cut short. */
  lemma StopsAt(off: nat, size: nat, total: nat, i: nat, n1: nat, r: int, full: bool)
    requires i < total && i % (3 * BSIZE) == 0 && -1 <= r < n1 && size <= MAXFILE * BSIZE
    requires n1 == if total - i > 3 * BSIZE then 3 * BSIZE else total - i
    requires i > 0 ==> off <= size && off + i <= MAXFILE * BSIZE
    requires r < 0 ==> (i == 0 && off > size) || off + i + n1 > MAXFILE * BSIZE
    requires r >= 0 ==> off + i + n1 <= MAXFILE * BSIZE && full && off <= size
    ensures Reaches(off, size, total, if r < 0 then i else i + r, full)
  {
    var left, c := MAXFILE * BSIZE - off, 3 * BSIZE;
    var q := i / c;
    assert i == q * c;
    if off <= size && off + total > MAXFILE * BSIZE {
      if r < 0 {
        assert q * c <= left < (q + 1) * c;
        assert left / c == q;
      } else {
        assert (q + 1) * c <= left;
        assert left / c >= q + 1;
      }
    }
  }

  lemma AllWritten(off: nat, size: nat, total: nat, full: bool)
    requires size <= MAXFILE * BSIZE
    ensures total == 0 || (off <= size && off + total <= MAXFILE * BSIZE) ==> Reaches(off, size, total, total, full)
  {
  }

  lemma NoPatch(bytes: seq<byte>, off: nat)
    ensures Patch(bytes, off, []) == bytes
  {
  }

  lemma PatchMore(bytes: seq<byte>, off: nat, src: seq<byte>, i: nat, n1: nat, r: nat)
    requires r <= n1 && i + n1 <= |src| && off <= |bytes|
    ensures off + i <= |Patch(bytes, off, src[..i])|
    ensures Patch(Patch(bytes, off, src[..i]), off + i, src[i..i + n1][..r]) == Patch(bytes, off, src[..i + r])
  {
    assert src[..i + r] == src[..i] + src[i..i + n1][..r];
  }

  /** A chunk of three blocks logs at most seven: four data blocks, the free
      map, the indirect block and the inode. */
  lemma WithinBudget(fs: Fs, i: nat, lo: nat, hi: nat, logged: set<nat>)
    requires Shape(fs) && i < |fs.inodes| && fs.sb.size <= BITS && hi <= lo + 3 * BSIZE
    requires forall m :: m in logged ==> m == fs.sb.InodeBlock(i) || MayLog(fs, i, lo, hi, m)
    ensures |logged| <= MAXOPBLOCKS - 3
  {
    hide Shape, Word;
    var b := lo / BSIZE;
    var all := [fs.sb.InodeBlock(i), fs.sb.bmapstart, IndirectOf(fs, i),
                AtOrZero(fs, i, b), AtOrZero(fs, i, b + 1), AtOrZero(fs, i, b + 2), AtOrZero(fs, i, b + 3)];
    forall m | m in logged ensures m in all {
      if IsBitmap(fs.sb, m) {
        assert m == all[1];
      } else if m == fs.sb.InodeBlock(i) {
        assert m == all[0];
      } else if m == IndirectOf(fs, i) {
        assert m == all[2];
      } else {
        assert MayLog(fs, i, lo, hi, m);
        var bn: nat :| b <= bn && bn * BSIZE < hi && bn < MAXFILE && At(fs, i, bn) == m;
        assert bn <= b + 3;
        assert m == all[3 + (bn - b)];
      }
    }
    SetFitsList(logged, all);
  }

  ghost function AtOrZero(fs: Fs, i: nat, bn: nat): nat
    requires Shape(fs) && i < |fs.inodes|
  {
    if bn < MAXFILE then At(fs, i, bn) else 0
  }
}
