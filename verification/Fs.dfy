/** kern/fs/block.c and kern/fs/inode.c inside one transaction of the log: bitmap allocator,
    block map, inode_read, inode_write and inode_trunc, each on the raw blocks the log shows. */
module Fs {
  import opened Bytes
  import opened LogMachine
  import opened FsLayout
  import opened FsSteps
  import L = Log

  function Min(a: int, b: int): int {
    if a < b then a else b
  }

  ghost function BitmapBlocks(sb: Super): (s: set<nat>) {
    set k: nat | k <= (sb.size - 1) / BPB :: sb.BBlock(k * BPB)
  }

  /** The inner loop of block_alloc: the first clear bit among the first `n`. */
  method ScanBlock(blk: Block, n: nat) returns (bi: nat)
    requires n <= BPB
    ensures bi <= n && (bi < n ==> !Bit(blk, bi))
    ensures forall j :: 0 <= j < bi ==> Bit(blk, j)
  {
    hide HasBit;
    bi := 0;
    while bi < n
      invariant 0 <= bi <= n
      invariant forall j :: 0 <= j < bi ==> Bit(blk, j)
    {
      if !Bit(blk, bi) {
        return;
      }
      bi := bi + 1;
    }
  }

  ghost predicate AllUsed(sb: Super, v: Image, n: nat) {
    forall c :: 0 <= c < n ==> Used(sb, v, c)
  }

  lemma AllUsedNone(sb: Super, v: Image)
    ensures AllUsed(sb, v, 0)
  {
  }

  lemma UsedInBlock(sb: Super, v: Image, base: nat, bi: nat, n: nat)
    requires base % BPB == 0 && bi <= n <= BPB && sb.BBlock(base) < |v|
    requires AllUsed(sb, v, base)
    requires bi < n ==> !Bit(v[sb.BBlock(base)], bi)
    requires forall j :: 0 <= j < bi ==> Bit(v[sb.BBlock(base)], j)
    ensures bi < n ==> !Used(sb, v, base + bi)
    ensures AllUsed(sb, v, base + bi)
  {
    hide Bit;
    forall c | base <= c <= base + bi && c < base + n
      ensures Used(sb, v, c) <==> Bit(v[sb.BBlock(base)], c - base)
    {
      assert c / BPB == base / BPB && c % BPB == c - base;
    }
  }

  class Fs {
    const sb: Super
    const log: L.Log
    /** The locked inode: its number and its in-memory copy. */
    var inum: nat
    var ip: Dinode

    ghost var g: Meta
    /** A bound on the sectors the transaction has logged. */
    ghost var touched: set<nat>

    /** log_write panics once this many sectors are logged. */
    function Capacity(): int {
      Min(LOGSIZE, sb.nlog - 1)
    }

    ghost predicate Mounted()
      reads this, log
    {
      && sb.Valid() && log.Valid() && log.layout == Layout(sb.LogStart(), sb.nlog)
      && |log.View()| == sb.LogStart()
      && (forall i :: 0 <= i < |log.lh| ==> log.lh[i] in touched)
    }

    ghost predicate Ok()
      reads this, log
    {
      Mounted() && FsInv(sb, log.View(), g) && inum < |g.table| && g.table[inum] == ip
    }

    /** A mounted file system at rest, with inode 0 (never used) standing in as locked. */
    constructor (sb: Super, log: L.Log, d0: Dinode, ghost g0: Meta)
      requires sb.Valid() && log.Valid() && log.lh == [] && log.layout == Layout(sb.LogStart(), sb.nlog)
      requires FsInv(sb, log.View(), g0) && 0 < sb.ninodes && g0.table[0] == d0
      ensures this.sb == sb && this.log == log && Ok() && g == g0 && inum == 0
    {
      this.sb := sb;
      this.log := log;
      this.inum := 0;
      this.ip := d0;
      this.g := g0;
      this.touched := {};
    }

    /** bufcache_read of a home sector, then release. */
    method Get(t: nat) returns (b: Block)
      requires Mounted() && t < sb.LogStart()
      modifies log`cache
      ensures Mounted() && log.View() == old(log.View()) && b == log.View()[t]
    {
      b := log.Read(t);
    }

    /** log_write of a home sector. */
    method Put(t: nat, b: Block)
      requires Mounted() && log.busy && t < sb.LogStart() && |touched| < Capacity()
      modifies log, `touched
      ensures Mounted() && log.busy && log.View() == old(log.View())[t := b]
      ensures log.spec.home == old(log.spec.home) && log.mark == old(log.mark) && touched == old(touched) + {t}
    {
      hide L.Log.Valid, L.Log.View;
      log.LogIsShort(touched);
      RecordDistinctElems(log.lh, t);
      log.LogWrite(t, b);
      touched := touched + {t};
    }

    // ---- block.c ----

    /** The scan of block_alloc: bitmap blocks in order, bits in order.  Finds the lowest clear
        bit, or `sb.size` when the C code panics. */
    method FindFree() returns (b: nat)
      requires Mounted()
      modifies log`cache
      ensures Mounted() && log.View() == old(log.View())
      ensures b <= sb.size && (b < sb.size ==> !Used(sb, log.View(), b))
      ensures AllUsed(sb, log.View(), b)
    {
      hide L.Log.Valid, L.Log.View, Bit, Used, AllUsed;
      assert AllUsed(sb, log.View(), 0) by {
        AllUsedNone(sb, log.View());
      }
      var base := 0;
      while base < sb.size
        invariant base % BPB == 0 && Mounted() && log.View() == old(log.View())
        invariant AllUsed(sb, log.View(), Min(base, sb.size))
        decreases sb.size - base
      {
        BBlockInBitmap(sb, base);
        var blk := Get(sb.BBlock(base));
        var n := Min(BPB, sb.size - base);
        var bi := ScanBlock(blk, n);
        UsedInBlock(sb, log.View(), base, bi, n);
        if bi < n {
          return base + bi;
        }
        base := base + BPB;
      }
      return sb.size;
    }

    /** block_zero. */
    method BlockZero(b: nat)
      requires Mounted() && log.busy && b < sb.LogStart() && |touched| < Capacity()
      modifies log, `touched
      ensures Mounted() && log.busy && log.View() == old(log.View())[b := Zeros(BSIZE)]
      ensures log.spec.home == old(log.spec.home) && log.mark == old(log.mark) && touched == old(touched) + {b}
    {
      hide L.Log.Valid, L.Log.View;
      var _ := Get(b);
      Put(b, Zeros(BSIZE));
    }

    /** block_alloc, while a block below the log is free: the lowest such block, marked and
        zeroed. */
    method BlockAlloc() returns (b: nat)
      requires Ok() && log.busy && BitmapBlocks(sb) <= touched && |touched| + 1 < Capacity()
      requires FreeBlocks(sb, log.View()) != {}
      modifies log, `g, `touched
      ensures Ok() && log.busy && log.spec.home == old(log.spec.home) && log.mark == old(log.mark)
      ensures b < sb.LogStart() && !Used(sb, old(log.View()), b) && AllUsed(sb, old(log.View()), b)
      ensures sb.BBlock(b) < |old(log.View())| && log.View() == AllocImage(sb, old(log.View()), b)
      ensures log.View()[b] == seq(BSIZE, _ => 0) && FreeBlocks(sb, log.View()) == FreeBlocks(sb, old(log.View())) - {b}
      ensures FilesKept(sb, old(log.View()), log.View(), old(g))
      ensures g == old(g).(loose := old(g).loose + {b}) && touched == old(touched) + {b}
    {
      hide L.Log.Valid, L.Log.View, Used, AllUsed, FreeBlocks, FsInv;
      ghost var v := log.View();
      b := FindFree();
      FreeIsFound(sb, v, b);
      FsSize(sb, v, g);
      AllocStep(sb, v, g, b);
      BBlockIsBitmap(sb, b);
      var blk := Get(sb.BBlock(b));
      assert !Bit(blk, b % BPB) by {
        UsedBit(sb, v, b);
      }
      Put(sb.BBlock(b), SetBit(blk, b % BPB));
      BlockZero(b);
      g := g.(loose := g.loose + {b});
    }

    /** What it takes to append a block: an open transaction, room in the log, and free
        blocks below it. */
    ghost predicate CanGrow()
      reads this, log
    {
      && log.busy && BitmapBlocks(sb) <= touched && |touched| + 1 < Capacity()
      && 1 <= |FreeBlocks(sb, log.View())|
    }

    /** `ip->addrs[k] = block_alloc()`. */
    method GrowDirect(k: nat) returns (a: word)
      requires Ok() && g.loose == {} && k <= NDIRECT && ip.addrs[k] == 0 && CanGrow()
      modifies this, log
      ensures Ok() && inum == old(inum) && log.busy && log.spec.home == old(log.spec.home) && log.mark == old(log.mark)
      ensures Added(sb, inum, old(log.View()), old(g), log.View(), g, k, a)
      ensures touched == old(touched) + {a}
    {
      hide L.Log.Valid, L.Log.View, FreeBlocks, FsInv, Used, AllUsed, AllocImage, Added;
      FsSize(sb, log.View(), g);
      ghost var v, g0 := log.View(), g;
      a := BlockAlloc();
      AddDirectStep(sb, inum, v, g0, k, a);
      ip := ip.(addrs := ip.addrs[k := a]);
      g := AddDirect(g0, inum, k, a);
      AddedInv(sb, inum, v, g0, log.View(), g, k, a);
    }

    /** `a[j] = block_alloc()` in the indirect block, then log_write of that block. */
    method GrowEntry(j: nat) returns (a: word)
      requires Ok() && g.loose == {} && j < NINDIRECT && ip.addrs[NDIRECT] != 0 && CanGrow()
      requires SlotAddr(log.View(), ip, NDIRECT + 1 + j) == 0 && ip.addrs[NDIRECT] in touched
      modifies this, log
      ensures Ok() && inum == old(inum) && log.busy && log.spec.home == old(log.spec.home) && log.mark == old(log.mark)
      ensures Added(sb, inum, old(log.View()), old(g), log.View(), g, NDIRECT + 1 + j, a)
      ensures touched == old(touched) + {a} && ip == old(ip)
    {
      hide L.Log.Valid, L.Log.View, FreeBlocks, FsInv, Used, AllUsed, AllocImage, Added, SlotAddr;
      FsSize(sb, log.View(), g);
      ghost var v, g0 := log.View(), g;
      IndirectOwned(sb, v, g, inum);
      var ind := ip.addrs[NDIRECT];
      var blk := Get(ind);
      a := BlockAlloc();
      AllocStep(sb, v, g0, a);
      AddEntryStep(sb, inum, v, g0, j, a);
      Put(ind, SetWord(blk, j, a));
      g := AddEntry(g0, inum, j, a);
      AddedInv(sb, inum, v, g0, log.View(), g, NDIRECT + 1 + j, a);
    }

    /** The second half of bmap, once the indirect block is there. */
    method BmapIndirect(bn: nat, ghost nb: nat) returns (a: word)
      requires Ok() && g.loose == {} && NDIRECT <= bn < MAXFILE && bn <= nb && Extent(log.View(), ip, nb)
      requires ip.addrs[NDIRECT] != 0
      requires bn == nb ==> ip.addrs[NDIRECT] in touched && CanGrow()
      modifies this, log
      ensures Ok() && inum == old(inum) && log.busy == old(log.busy) && log.spec.home == old(log.spec.home)
      ensures log.mark == old(log.mark)
      ensures g.loose == {} && TableOk(sb, old(g)) && TableOk(sb, g) && ip == old(ip)
      ensures Exact(log.View(), ip, if bn == nb then nb + 1 else nb)
      ensures a == Addr(log.View(), ip, bn) != 0
      ensures Grown(sb, inum, old(log.View()), old(g), log.View(), g)
      ensures bn < nb ==> log.View() == old(log.View()) && g == old(g)
                          && touched == old(touched) && log.lh == old(log.lh)
      ensures bn == nb ==> |FreeBlocks(sb, log.View())| == |FreeBlocks(sb, old(log.View()))| - 1
      ensures old(touched) <= touched <= old(touched) + {a}
    {
      hide L.Log.Valid, L.Log.View, FreeBlocks, FsInv, Used, AllUsed, Added, SlotAddr, Grown, Addr, Extent;
      ghost var v, g0 := log.View(), g;
      FsSize(sb, v, g);
      GrownRefl(sb, inum, v, g);
      IndirectOwned(sb, v, g, inum);
      ExtentEntry(v, ip, nb, bn);
      var blk := Get(ip.addrs[NDIRECT]);
      a := Word(blk, bn - NDIRECT);
      if a == 0 {
        a := GrowEntry(bn - NDIRECT);
        AddedExact(sb, inum, v, g0, log.View(), g, bn, a);
        AddedGrown(sb, inum, v, g0, log.View(), g, bn + 1, a);
        AddedInv(sb, inum, v, g0, log.View(), g, bn + 1, a);
      }
    }

    /** The direct branch of bmap. */
    method BmapDirect(bn: nat, ghost nb: nat) returns (a: word)
      requires Ok() && g.loose == {} && bn < NDIRECT && bn <= nb && Exact(log.View(), ip, nb)
      requires bn == nb ==> CanGrow()
      modifies this, log
      ensures Ok() && inum == old(inum) && log.busy == old(log.busy) && log.spec.home == old(log.spec.home)
      ensures log.mark == old(log.mark)
      ensures g.loose == {} && TableOk(sb, old(g)) && TableOk(sb, g)
      ensures Exact(log.View(), ip, if bn == nb then nb + 1 else nb)
      ensures a == Addr(log.View(), ip, bn) != 0
      ensures Grown(sb, inum, old(log.View()), old(g), log.View(), g)
      ensures bn < nb ==> log.View() == old(log.View()) && g == old(g) && ip == old(ip)
                          && touched == old(touched) && log.lh == old(log.lh)
      ensures bn == nb ==> |FreeBlocks(sb, log.View())| == |FreeBlocks(sb, old(log.View()))| - 1
      ensures old(touched) <= touched <= old(touched) + {a}
    {
      hide L.Log.Valid, L.Log.View, FreeBlocks, FsInv, Used, AllUsed, Added, SlotAddr, Grown, Addr, Exact, Extent;
      ghost var v, g0 := log.View(), g;
      FsSize(sb, v, g);
      GrownRefl(sb, inum, v, g);
      ExactAddr(v, ip, nb, bn);
      AddrIsSlot(v, ip, bn);
      ExactFacts(v, ip, nb);
      a := ip.addrs[bn];
      if a == 0 {
        a := GrowDirect(bn);
        AddedExact(sb, inum, v, g0, log.View(), g, bn, a);
        AddedGrown(sb, inum, v, g0, log.View(), g, bn, a);
        AddedInv(sb, inum, v, g0, log.View(), g, bn, a);
      }
    }

    /** bmap.  With `nb` the number of blocks the file has, it finds block `bn` among them and
        otherwise appends it, zeroed, with the indirect block if that is missing. */
    method Bmap(bn: nat, ghost nb: nat) returns (a: word)
      requires Ok() && g.loose == {} && bn < MAXFILE && bn <= nb && Exact(log.View(), ip, nb)
      requires bn == nb ==> log.busy && BitmapBlocks(sb) <= touched && NewBlocks(bn) <= |FreeBlocks(sb, log.View())|
      requires bn == nb ==> |touched - Indirect(ip)| + 2 < Capacity()
      modifies this, log
      ensures Ok() && inum == old(inum) && log.busy == old(log.busy) && log.spec.home == old(log.spec.home)
      ensures log.mark == old(log.mark)
      ensures g.loose == {} && TableOk(sb, old(g)) && TableOk(sb, g)
      ensures Exact(log.View(), ip, if bn == nb then nb + 1 else nb)
      ensures a == Addr(log.View(), ip, bn) != 0
      ensures Grown(sb, inum, old(log.View()), old(g), log.View(), g)
      ensures bn < nb ==> log.View() == old(log.View()) && g == old(g) && ip == old(ip)
                          && touched == old(touched) && log.lh == old(log.lh)
      ensures bn == nb ==> |FreeBlocks(sb, log.View())| == |FreeBlocks(sb, old(log.View()))| - NewBlocks(bn)
      ensures old(touched) <= touched <= old(touched) + {a} + Indirect(ip)
    {
      hide L.Log.Valid, L.Log.View, FreeBlocks, FsInv, Used, AllUsed, Added, SlotAddr, Grown, Addr, Exact, Extent;
      ghost var v, g0 := log.View(), g;
      FsSize(sb, v, g);
      GrownRefl(sb, inum, v, g);
      ExactAddr(v, ip, nb, bn);
      AddrIsSlot(v, ip, bn);
      ExactFacts(v, ip, nb);
      CardMinus(touched, Indirect(ip));
      if bn < NDIRECT {
        a := BmapDirect(bn, nb);
      } else {
        if ip.addrs[NDIRECT] == 0 {
          a := GrowDirect(NDIRECT);
          AddedIndirect(sb, inum, v, g0, log.View(), g, a);
          AddedGrown(sb, inum, v, g0, log.View(), g, NDIRECT, a);
          AddedInv(sb, inum, v, g0, log.View(), g, NDIRECT, a);
        }
        ghost var v1, g1 := log.View(), g;
        if bn == nb {
          touched := touched + {ip.addrs[NDIRECT]};
        }
        a := BmapIndirect(bn, nb);
        GrownTrans(sb, inum, v, g0, v1, g1, log.View(), g);
      }
    }

    /** One iteration of inode_read. */
    method ReadOne(at: nat, m: nat) returns (piece: seq<byte>)
      requires Ok() && g.loose == {} && Shaped(log.View(), ip, ip.size)
      requires 0 < m && at + m <= ip.size && at % BSIZE + m <= BSIZE
      modifies this, log
      ensures Ok() && log.View() == old(log.View()) && g == old(g) && ip == old(ip) && inum == old(inum)
      ensures touched == old(touched) && log.lh == old(log.lh) && log.busy == old(log.busy)
      ensures log.spec.home == old(log.spec.home) && log.mark == old(log.mark)
      ensures piece == FileBytes(log.View(), ip)[at..at + m]
    {
      hide L.Log.Valid, L.Log.View, FsInv, FreeBlocks, Addr, Extent, Exact, Grown, Blocks, FileBytes;
      FsSize(sb, log.View(), g);
      InsideBlocks(at, ip.size);
      var a := Bmap(at / BSIZE, Blocks(ip.size));
      AddrInside(sb, log.View(), g, inum, at / BSIZE);
      ReadSlice(log.View(), ip, at, m);
      var blk := Get(a);
      piece := blk[at % BSIZE..at % BSIZE + m];
    }

    /** inode_read.  -1 exactly when the offset lies beyond the file or `off + n` wraps;
        otherwise the bytes of the file from `off`, cut at its end.  Reading never allocates. */
    method InodeRead(off: word, n: word) returns (r: int, dst: seq<byte>)
      requires Ok() && g.loose == {} && Shaped(log.View(), ip, ip.size)
      modifies this, log
      ensures Ok() && log.View() == old(log.View()) && g == old(g) && ip == old(ip) && inum == old(inum)
      ensures touched == old(touched) && log.lh == old(log.lh) && log.busy == old(log.busy)
      ensures log.spec.home == old(log.spec.home) && log.mark == old(log.mark)
      ensures r == -1 <==> off > ip.size || off + n >= WORD_LIMIT
      ensures r != -1 ==> r == Min(n, ip.size - off) && dst == FileBytes(log.View(), ip)[off..off + r]
      ensures r == -1 ==> dst == []
    {
      hide L.Log.Valid, L.Log.View, FsInv, FreeBlocks, Addr, Exact, ByteAt, FileBytes;
      dst := [];
      if off > ip.size || (off + n) % WORD_LIMIT < off {
        return -1, [];
      }
      r := if off + n > ip.size then ip.size - off else n;
      ghost var v, g0, d := log.View(), g, ip;
      FsSize(sb, v, g);
      var tot := 0;
      while tot < r
        invariant 0 <= tot <= r && off + r <= ip.size
        invariant Ok() && log.View() == v && g == g0 && ip == d && inum == old(inum)
        invariant touched == old(touched) && log.lh == old(log.lh) && log.busy == old(log.busy)
        invariant log.spec.home == old(log.spec.home) && log.mark == old(log.mark)
        invariant dst == FileBytes(v, d)[off..off + tot]
        decreases r - tot
      {
        var at := off + tot;
        var m := Min(r - tot, BSIZE - at % BSIZE);
        var piece := ReadOne(at, m);
        assert FileBytes(v, d)[off..at] + FileBytes(v, d)[at..at + m] == FileBytes(v, d)[off..at + m];
        dst := dst + piece;
        tot := tot + m;
      }
    }

    /** One iteration of inode_write: map the block, copy into it, log it. */
    method WriteOne(data: seq<byte>, at: nat, ghost nb: nat) returns (ghost a: word)
      requires Ok() && g.loose == {} && log.busy && Exact(log.View(), ip, nb)
      requires at / BSIZE <= nb && at < MAX_BYTES && 0 < |data| && at % BSIZE + |data| <= BSIZE
      requires BitmapBlocks(sb) <= touched && |touched - Indirect(ip)| + 2 < Capacity()
      requires at / BSIZE == nb ==> NewBlocks(nb) <= |FreeBlocks(sb, log.View())|
      modifies this, log
      ensures Ok() && inum == old(inum) && log.busy && log.spec.home == old(log.spec.home) && log.mark == old(log.mark)
      ensures g.loose == {} && TableOk(sb, old(g)) && TableOk(sb, g)
      ensures Exact(log.View(), ip, if at / BSIZE == nb then nb + 1 else nb)
      ensures ip == old(ip).(addrs := ip.addrs)
      ensures GetDinode(sb, log.View(), inum) == GetDinode(sb, old(log.View()), inum)
      ensures OthersKept(sb, inum, old(log.View()), old(g), log.View(), g)
      ensures Patched(old(log.View()), old(ip), log.View(), ip, nb, at, data)
      ensures |FreeBlocks(sb, log.View())|
              == |FreeBlocks(sb, old(log.View()))| - (if at / BSIZE == nb then NewBlocks(nb) else 0)
      ensures old(touched) <= touched <= old(touched) + {a} + Indirect(ip)
      ensures Indirect(old(ip)) <= Indirect(ip) && (at / BSIZE < nb ==> ip == old(ip))
    {
      hide L.Log.Valid, L.Log.View, FsInv, FreeBlocks, Exact, Extent, Grown, Addr, OthersKept, Patched,
           ByteAt, GetDinode, Used, MapKept;
      ghost var v, g0 := log.View(), g;
      var bn, lo := at / BSIZE, at % BSIZE;
      FsSize(sb, v, g);
      ExactFacts(v, ip, nb);
      CardMinus(touched, Indirect(ip));
      var addr := Bmap(bn, nb);
      a := addr;
      ghost var v1, g1, nb1 := log.View(), g, if bn == nb then nb + 1 else nb;
      FsSize(sb, v1, g1);
      GrownFacts(sb, inum, v, g0, v1, g1);
      AddrInside(sb, v1, g1, inum, bn);
      CardGrow(old(touched), touched, addr, Indirect(old(ip)), Indirect(ip));
      var blk := Get(addr);
      PatchStep(sb, v1, g1, inum, bn, lo, data);
      PatchKeeps(sb, v1, g1, inum, bn, nb1, lo, data);
      PatchedBytes(sb, v, g0, v1, g1, inum, nb, nb1, at, data);
      Put(addr, Patch(blk, lo, data));
      OthersTrans(sb, inum, v, g0, v1, g1, log.View(), g);
    }

    /** inode_lock's load of a quiet file system: the copy read is the inode's present state. */
    method InodeLock(i: nat)
      requires Ok() && Quiet(sb, log.View(), g, sb.ninodes) && i < sb.ninodes
      modifies log`cache, `inum, `ip
      ensures Ok() && Quiet(sb, log.View(), g, sb.ninodes) && log.View() == old(log.View())
      ensures inum == i && ip == g.table[i]
    {
      hide L.Log.Valid, L.Log.View, FsInv, Quiet, GetDinode, DinodeIn;
      FsSize(sb, log.View(), g);
      QuietFacts(sb, log.View(), g, i);
      UpdateStep(sb, log.View(), g, i, g.table[i]);
      var b := Get(sb.IBlock(i));
      inum := i;
      ip := DinodeIn(b, i % IPB);
      LoadedDinode(sb, log.View(), i);
    }

    /** inode_update: the in-memory inode reaches its slot in the inode block. */
    method InodeUpdate()
      requires Ok() && log.busy && |touched| < Capacity()
      modifies log, `touched
      ensures Ok() && log.busy && log.spec.home == old(log.spec.home) && log.mark == old(log.mark)
      ensures sb.IBlock(inum) < |old(log.View())|
      ensures log.View() == UpdateImage(sb, old(log.View()), inum, ip)
      ensures touched == old(touched) + {sb.IBlock(inum)}
      ensures FreeBlocks(sb, log.View()) == FreeBlocks(sb, old(log.View()))
    {
      hide L.Log.Valid, L.Log.View, FsInv, FreeBlocks;
      FsSize(sb, log.View(), g);
      UpdateStep(sb, log.View(), g, inum, ip);
      var blk := Get(sb.IBlock(inum));
      Put(sb.IBlock(inum), PutDinode(blk, inum % IPB, ip, 0));
    }

    /** The copy loop of inode_write. */
    method WriteLoop(src: seq<byte>, off: nat) returns (ghost ds: set<nat>)
      requires Ok() && g.loose == {} && log.busy && Shaped(log.View(), ip, ip.size)
      requires off <= ip.size && off + |src| <= MAX_BYTES
      requires BitmapBlocks(sb) <= touched && |touched| + Span(off, off + |src|) + 1 < Capacity()
      requires Need(Blocks(ip.size), Blocks(off + |src|)) <= |FreeBlocks(sb, log.View())|
      modifies this, log
      ensures Ok() && inum == old(inum) && log.busy && log.spec.home == old(log.spec.home) && log.mark == old(log.mark)
      ensures g.loose == {} && ip == old(ip).(addrs := ip.addrs) && ip.Valid()
      ensures GetDinode(sb, log.View(), inum) == GetDinode(sb, old(log.View()), inum)
      ensures OthersKept(sb, inum, old(log.View()), old(g), log.View(), g)
      ensures Exact(log.View(), ip, Blocks(Max(ip.size, off + |src|)))
      ensures off + |src| <= ip.size ==> ip == old(ip)
      ensures Written(log.View(), ip, old(FileBytes(log.View(), ip)), off, src, |src|)
      ensures touched <= old(touched) + ds + Indirect(ip) && |ds| <= Span(off, off + |src|)
      ensures |FreeBlocks(sb, log.View())|
              == |FreeBlocks(sb, old(log.View()))| - Need(Blocks(ip.size), Blocks(Max(ip.size, off + |src|)))
    {
      hide L.Log.Valid, L.Log.View, FsInv, FreeBlocks, Exact, OthersKept, Patched, GetDinode, Blocks, Written,
           BitmapBlocks, NewBlocks, Indirect, Span, Need, FileBytes;
      var n, tot := |src|, 0;
      ghost var v0, g0, d0 := log.View(), g, ip;
      ds := {};
      FsSize(sb, v0, g0);
      ghost var was := FileBytes(v0, d0);
      NothingYet(ip.size, off);
      OthersRefl(sb, inum, v0, g0);
      WrittenNone(v0, d0, off, src);
      while tot < n
        invariant 0 <= tot <= n && (tot < n ==> tot == 0 || (off + tot) % BSIZE == 0)
        invariant Ok() && inum == old(inum) && log.busy && log.spec.home == old(log.spec.home)
        invariant log.mark == old(log.mark)
        invariant g.loose == {} && ip == d0.(addrs := ip.addrs) && ip.Valid()
        invariant GetDinode(sb, log.View(), inum) == GetDinode(sb, v0, inum)
        invariant OthersKept(sb, inum, v0, g0, log.View(), g)
        invariant Exact(log.View(), ip, Blocks(Max(d0.size, off + tot)))
        invariant Blocks(Max(d0.size, off + tot)) == Blocks(d0.size) ==> ip == d0
        invariant Written(log.View(), ip, was, off, src, tot)
        invariant |FreeBlocks(sb, log.View())|
                  == |FreeBlocks(sb, v0)| - Need(Blocks(d0.size), Blocks(Max(d0.size, off + tot)))
        invariant BitmapBlocks(sb) <= touched <= old(touched) + ds + Indirect(ip)
        invariant |ds| <= Span(off, off + tot)
      {
        ghost var v1, g1, d1, t1 := log.View(), g, ip, touched;
        var at := off + tot;
        var m := Min(n - tot, BSIZE - at % BSIZE);
        ghost var nb := Blocks(Max(d0.size, at));
        LoopArith(d0.size, off, tot, n, m);
        LoopRoom(touched, old(touched), ds, Indirect(ip));
        ghost var a := WriteOne(src[tot..tot + m], at, nb);
        WrittenStep(v1, d1, log.View(), ip, was, off, src, tot, m, nb);
        OthersTrans(sb, inum, v0, g0, v1, g1, log.View(), g);
        ds := ds + {a};
        tot := tot + m;
      }
    }

    /** inode_write.  -1 exactly when its arguments are refused, and then nothing changes;
        otherwise the file becomes `src` spliced into its old bytes at `off`, every other file
        is untouched, and the inode on disk is again the one in memory: a write that adds a
        block always grows the size, so the new address is always persisted. */
    method InodeWrite(src: seq<byte>, off: word) returns (r: int, ghost ds: set<nat>)
      requires Ok() && Quiet(sb, log.View(), g, sb.ninodes) && |src| < WORD_LIMIT
      requires Accepts(ip.size, off, |src|) ==>
                 && log.busy && BitmapBlocks(sb) <= touched
                 && |touched| + Span(off, off + |src|) + 1 < Capacity()
                 && Need(Blocks(ip.size), Blocks(off + |src|)) <= |FreeBlocks(sb, log.View())|
      modifies this, log
      ensures r == if off <= old(ip.size) && off + |src| <= MAX_BYTES then |src| else -1
      ensures Ok() && Quiet(sb, log.View(), g, sb.ninodes)
      ensures inum == old(inum) && log.busy == old(log.busy) && log.spec.home == old(log.spec.home)
      ensures log.mark == old(log.mark)
      ensures r == -1 ==> log.View() == old(log.View()) && g == old(g) && ip == old(ip) && touched == old(touched)
      ensures r != -1 ==>
                ip.size == Max(old(ip.size), off + |src|) && ip.kind == old(ip.kind) && ip.links == old(ip.links)
      ensures r != -1 ==> ip.Valid() && ip.size <= MAX_BYTES
                          && FileBytes(log.View(), ip) == Splice(old(FileBytes(log.View(), ip)), off, src)
      ensures OtherFilesSame(inum, old(log.View()), old(g), log.View(), g)
      ensures r != -1 ==>
                touched <= old(touched) + ds + Indirect(ip) + {sb.IBlock(inum)} && |ds| <= Span(off, off + |src|)
      ensures r != -1 ==> |FreeBlocks(sb, log.View())|
                          == |FreeBlocks(sb, old(log.View()))| - Need(Blocks(old(ip.size)), Blocks(ip.size))
    {
      hide L.Log.Valid, L.Log.View, FsInv, FreeBlocks, Exact, OthersKept, GetDinode, Blocks, Written,
           BitmapBlocks, Need, Span, Shaped, Quiet, FileBytes, OtherFilesSame, Splice, UpdateImage, Indirect;
      ghost var v0, g0, d0 := log.View(), g, ip;
      ds := {};
      QuietFacts(sb, v0, g0, inum);
      if off > ip.size || (off + |src|) % WORD_LIMIT < off || off + |src| > MAX_BYTES {
        OthersRefl(sb, inum, v0, g0);
        QuietAfter(sb, inum, v0, g0, v0, g0);
        return -1, {};
      }
      ds := WriteLoop(src, off);
      IndirectSmall(ip, off + |src|);
      LoopRoom(touched, old(touched), ds, Indirect(ip));
      CardMinus(touched, Indirect(ip));
      ghost var v1, g1 := log.View(), g;
      if |src| > 0 && off + |src| > ip.size {
        ip := ip.(size := off + |src|);
        g := g.(table := g.table[inum := ip]);
        SizeStep(sb, v1, g1, inum, ip);
        InodeUpdate();
        FinishGrown(sb, inum, v0, g0, v1, g1, g, FileBytes(v0, d0), off, src);
      } else {
        FinishSame(sb, inum, v0, g0, v1, g1, FileBytes(v0, d0), off, src);
      }
      r := |src|;
    }

    /** block_free.  Freeing a free block is the C code's panic. */
    method BlockFree(b: nat)
      requires Mounted() && log.busy && b < sb.LogStart() && Used(sb, log.View(), b)
      requires BitmapBlocks(sb) <= touched && |touched| < Capacity()
      modifies log, `touched
      ensures Mounted() && log.busy && log.spec.home == old(log.spec.home) && log.mark == old(log.mark)
      ensures touched == old(touched)
      ensures sb.BBlock(b) < |old(log.View())| && log.View() == MarkFree(sb, old(log.View()), b)
      ensures forall c: nat :: Used(sb, log.View(), c) <==> c != b && Used(sb, old(log.View()), c)
      ensures BitmapFrame(sb, old(log.View()), log.View())
    {
      hide L.Log.Valid, L.Log.View, Used;
      ghost var v := log.View();
      forall c: nat
        ensures Used(sb, MarkFree(sb, v, b), c) <==> c != b && Used(sb, v, c)
      {
        BBlockInBitmap(sb, b);
        UsedAfterFree(sb, v, b, c);
      }
      MarkFrames(sb, v, b);
      BBlockIsBitmap(sb, b);
      BBlockInBitmap(sb, b);
      UsedBit(sb, log.View(), b);
      var blk := Get(sb.BBlock(b));
      Put(sb.BBlock(b), ClearBit(blk, b % BPB));
    }

    /** The loop of inode_trunc over the direct blocks. */
    method TruncDirect()
      requires Ok() && g.loose == {} && log.busy && BitmapBlocks(sb) <= touched && |touched| < Capacity()
      modifies this, log
      ensures Ok() && g.loose == {} && log.busy && log.spec.home == old(log.spec.home)
      ensures log.mark == old(log.mark) && touched == old(touched)
      ensures inum == old(inum) && ip == old(ip).(addrs := ip.addrs) && ip.Valid()
      ensures forall k :: 0 <= k < NDIRECT ==> ip.addrs[k] == 0
      ensures OthersKept(sb, inum, old(log.View()), old(g), log.View(), g)
      ensures g.owner == Without(old(g.owner), inum, 0, NDIRECT)
    {
      hide L.Log.Valid, L.Log.View, FsInv, OthersKept, Used, MarkFree, BitmapBlocks;
      ghost var v0, g0 := log.View(), g;
      FsSize(sb, v0, g0);
      OthersRefl(sb, inum, v0, g0);
      var i := 0;
      while i < NDIRECT
        invariant 0 <= i <= NDIRECT && inum == old(inum) && touched == old(touched)
        invariant Ok() && g.loose == {} && log.busy && log.spec.home == old(log.spec.home) && log.mark == old(log.mark)
        invariant ip == old(ip).(addrs := ip.addrs) && ip.Valid()
        invariant forall k :: 0 <= k < i ==> ip.addrs[k] == 0
        invariant OthersKept(sb, inum, v0, g0, log.View(), g)
        invariant g.owner == Without(g0.owner, inum, 0, i)
      {
        ghost var v1, g1 := log.View(), g;
        var a := ip.addrs[i];
        if a != 0 {
          FreeDirectStep(sb, inum, v1, g1, i);
          BlockFree(a);
          ip := ip.(addrs := ip.addrs[i := 0]);
          g := FreeDirect(g1, inum, i);
          OthersTrans(sb, inum, v0, g0, v1, g1, log.View(), g);
        } else {
          NoSlot(sb, v1, g1, inum, i);
        }
        i := i + 1;
      }
    }

    /** The indirect part of inode_trunc: the entries' blocks, then the indirect block itself. */
    method TruncIndirect()
      requires Ok() && g.loose == {} && log.busy && BitmapBlocks(sb) <= touched && |touched| < Capacity()
      requires ip.addrs[NDIRECT] != 0
      modifies this, log
      ensures Ok() && g.loose == {} && log.busy && log.spec.home == old(log.spec.home)
      ensures log.mark == old(log.mark) && touched == old(touched)
      ensures inum == old(inum) && ip == old(ip).(addrs := old(ip).addrs[NDIRECT := 0])
      ensures OthersKept(sb, inum, old(log.View()), old(g), log.View(), g)
      ensures g.owner == Without(old(g.owner), inum, NDIRECT, NSLOTS)
    {
      hide L.Log.Valid, L.Log.View, FsInv, OthersKept, Used, MarkFree, BitmapBlocks, Rest, SlotAddr, UnlinkIndirect;
      ghost var v0, g0 := log.View(), g;
      FsSize(sb, v0, g0);
      IndirectOwned(sb, v0, g0, inum);
      RestAll(sb, inum, v0, g0);
      UnlinkIndirectStep(sb, v0, g0, inum);
      UnlinkIndirectFacts(sb, v0, g0, inum);
      var ind := ip.addrs[NDIRECT];
      var blk := Get(ind);
      ip := ip.(addrs := ip.addrs[NDIRECT := 0]);
      g := UnlinkIndirect(g0, inum);
      ghost var ip1 := ip;
      var j := 0;
      while j < NINDIRECT
        invariant 0 <= j <= NINDIRECT && inum == old(inum) && touched == old(touched) && ip == ip1
        invariant Ok() && log.busy && log.spec.home == old(log.spec.home) && log.mark == old(log.mark)
        invariant OthersKept(sb, inum, v0, g0, log.View(), g)
        invariant g == UnlinkIndirect(g0, inum).(loose := Rest(g0, inum, NDIRECT + 1 + j))
      {
        var a := Word(blk, j);
        EntrySlot(v0, g0.table[inum], j);
        FreeEntryStep(sb, inum, v0, g0, log.View(), g, j, a);
        if a != 0 {
          FreeLoose(a, v0, g0);
        }
        j := j + 1;
      }
      FreeLoose(ind, v0, g0);
    }

    /** block_free of an unlinked block. */
    method FreeLoose(a: nat, ghost v0: Image, ghost g0: Meta)
      requires Ok() && log.busy && BitmapBlocks(sb) <= touched && |touched| < Capacity() && a in g.loose
      requires FsInv(sb, v0, g0) && OthersKept(sb, inum, v0, g0, log.View(), g)
      modifies log, `touched, `g
      ensures Ok() && log.busy && log.spec.home == old(log.spec.home) && log.mark == old(log.mark)
      ensures touched == old(touched)
      ensures g == old(g).(loose := old(g).loose - {a})
      ensures OthersKept(sb, inum, v0, g0, log.View(), g)
    {
      hide L.Log.Valid, L.Log.View, OthersKept, Used, MarkFree, BitmapBlocks, Linked, Owned, BitsOk;
      ghost var v1, g1 := log.View(), g;
      FreeStep(sb, v1, g1, a);
      MarkFrames(sb, v1, a);
      BlockFree(a);
      g := g.(loose := g.loose - {a});
      OthersKeptFree(sb, inum, v1, g1, log.View(), g);
      OthersTrans(sb, inum, v0, g0, v1, g1, log.View(), g);
    }

    /** inode_trunc: exactly the blocks of this inode become free, and no other file changes. */
    method InodeTrunc()
      requires Ok() && Quiet(sb, log.View(), g, sb.ninodes)
      requires log.busy && BitmapBlocks(sb) <= touched && |touched| < Capacity()
      modifies this, log
      ensures Ok() && Quiet(sb, log.View(), g, sb.ninodes)
      ensures inum == old(inum) && log.busy && log.spec.home == old(log.spec.home) && log.mark == old(log.mark)
      ensures ip.Valid() && ip.size == 0 && FileBytes(log.View(), ip) == []
      ensures ip.kind == old(ip.kind) && ip.links == old(ip.links)
      ensures FreeBlocks(sb, log.View()) == FreeBlocks(sb, old(log.View())) + OwnBlocks(old(g), inum)
      ensures g.owner == Without(old(g.owner), inum, 0, NSLOTS)
      ensures OtherFilesSame(inum, old(log.View()), old(g), log.View(), g)
      ensures touched == old(touched) + {sb.IBlock(inum)}
    {
      hide L.Log.Valid, L.Log.View, FsInv, OthersKept, FreeBlocks, Quiet, GetDinode, Exact, BitmapBlocks, OwnBlocks,
           Shaped, FileBytes, OtherFilesSame, UpdateImage;
      ghost var v0, g0 := log.View(), g;
      QuietFacts(sb, v0, g0, inum);
      TruncDirect();
      ghost var v1, g1 := log.View(), g;
      if ip.addrs[NDIRECT] != 0 {
        TruncIndirect();
        OthersTrans(sb, inum, v0, g0, v1, g1, log.View(), g);
      } else {
        NoEntries(sb, v1, g1, inum);
      }
      ghost var v2, g2 := log.View(), g;
      ip := ip.(size := 0);
      g := g.(table := g.table[inum := ip]);
      SizeStep(sb, v2, g2, inum, ip);
      InodeUpdate();
      FinishTrunc(sb, inum, v0, g0, v2, g2, g);
    }
  }

  ghost function OwnBlocks(g: Meta, cur: nat): (s: set<nat>) {
    set a | a in g.owner && g.owner[a].inum == cur
  }

  lemma NoEntries(sb: Super, v: Image, g: Meta, cur: nat)
    requires FsInv(sb, v, g) && cur < |g.table| && g.table[cur].addrs[NDIRECT] == 0
    ensures Without(g.owner, cur, NDIRECT, NSLOTS) == g.owner
  {
    hide Linked, BitsOk;
  }

  lemma FinishTrunc(sb: Super, cur: nat, v0: Image, g0: Meta, v: Image, g: Meta, g': Meta)
    requires Quiet(sb, v0, g0, sb.ninodes) && FsInv(sb, v, g) && g.loose == {} && cur < |g0.table|
    requires OthersKept(sb, cur, v0, g0, v, g) && cur < |g.table| && g.table[cur].Valid()
    requires forall k :: 0 <= k <= NDIRECT ==> g.table[cur].addrs[k] == 0
    requires g' == g.(table := g.table[cur := g.table[cur].(size := 0)])
    requires g.owner == Without(Without(g0.owner, cur, 0, NDIRECT), cur, NDIRECT, NSLOTS)
    requires sb.IBlock(cur) < |v|
    ensures var v' := UpdateImage(sb, v, cur, g'.table[cur]);
            && FsInv(sb, v', g') && Quiet(sb, v', g', sb.ninodes) && OtherFilesSame(cur, v0, g0, v', g')
            && FreeBlocks(sb, v') == FreeBlocks(sb, v0) + OwnBlocks(g0, cur)
            && g'.owner == Without(g0.owner, cur, 0, NSLOTS)
            && FileBytes(v', g'.table[cur]) == []
  {
    hide FsInv, GetDinode, OthersKept, UpdateImage, MapKept, Quiet;
    var d := g'.table[cur];
    FsSize(sb, v, g);
    SizeStep(sb, v, g, cur, d);
    UpdateStep(sb, v, g', cur, d);
    ZeroExact(v, d);
    UpdateKeeps(sb, v, g', cur, d);
    var v' := UpdateImage(sb, v, cur, d);
    OthersTrans(sb, cur, v0, g0, v, g, v, g');
    OthersTrans(sb, cur, v0, g0, v, g', v', g');
    assert Exact(v', d, 0);
    hide Exact;
    assert Blocks(0) == 0;
    assert Shaped(v', d, d.size);
    QuietAfter(sb, cur, v0, g0, v', g');
    QuietFacts(sb, v0, g0, cur);
    TruncFree(sb, cur, v0, g0, v', g');
  }

  lemma ZeroExact(v: Image, d: Dinode)
    requires d.Valid() && forall k :: 0 <= k <= NDIRECT ==> d.addrs[k] == 0
    ensures Exact(v, d, 0)
  {
    forall i | 0 <= i < MAXFILE
      ensures Addr(v, d, i) == 0
    {
      assert SlotAddr(v, d, BlockSlot(i)) == 0;
    }
  }

  lemma TruncFree(sb: Super, cur: nat, v0: Image, g0: Meta, v: Image, g: Meta)
    requires FsInv(sb, v0, g0) && FsInv(sb, v, g) && g0.loose == {} && g.loose == {}
    requires g.owner == Without(Without(g0.owner, cur, 0, NDIRECT), cur, NDIRECT, NSLOTS)
    ensures g.owner == Without(g0.owner, cur, 0, NSLOTS)
    ensures FreeBlocks(sb, v) == FreeBlocks(sb, v0) + OwnBlocks(g0, cur)
  {
    hide Linked, BitsOk, FreeBlocks, SlotAddr;
    FreeFromOwner(sb, v0, g0);
    FreeFromOwner(sb, v, g);
    assert g.owner == Without(g0.owner, cur, 0, NSLOTS);
  }

  lemma NoSlot(sb: Super, v: Image, g: Meta, cur: nat, k: nat)
    requires FsInv(sb, v, g) && cur < |g.table| && k <= NDIRECT && g.table[cur].addrs[k] == 0
    ensures forall x :: x in g.owner ==> g.owner[x] != Slot(cur, k)
  {
    hide Linked, BitsOk;
    SlotValue(v, g.table[cur], k);
  }

  lemma EntrySlot(v: Image, d: Dinode, j: nat)
    requires d.Valid() && j < NINDIRECT && d.addrs[NDIRECT] != 0
    ensures SlotAddr(v, d, NDIRECT + 1 + j) == Word(BlockAt(v, d.addrs[NDIRECT]), j)
  {
  }

  lemma UnlinkIndirectFacts(sb: Super, v: Image, g: Meta, cur: nat)
    requires FsInv(sb, v, g) && cur < |g.table| && g.loose == {}
    ensures var g' := UnlinkIndirect(g, cur);
            && g'.table == g.table[cur := g.table[cur].(addrs := g.table[cur].addrs[NDIRECT := 0])]
            && g'.owner == Without(g.owner, cur, NDIRECT, NSLOTS)
            && g'.loose == IndirectBlocks(g, cur)
            && OthersKept(sb, cur, v, g, v, g')
  {
    hide Linked, BitsOk, SlotAddr, GetDinode;
  }

  predicate Accepts(size: nat, off: nat, n: nat) {
    off <= size && off + n < WORD_LIMIT && off + n <= MAX_BYTES
  }

  /** `s` written over `was` at `off`, extending it if it reaches beyond. */
  function Splice(was: seq<byte>, off: nat, s: seq<byte>): (r: seq<byte>)
    requires off <= |was|
    ensures |r| == Max(|was|, off + |s|)
  {
    was[..off] + s + if off + |s| < |was| then was[off + |s|..] else []
  }

  lemma QuietFacts(sb: Super, v: Image, g: Meta, cur: nat)
    requires Quiet(sb, v, g, sb.ninodes) && cur < |g.table|
    ensures FsInv(sb, v, g) && g.loose == {} && TableOk(sb, g)
    ensures Shaped(v, g.table[cur], g.table[cur].size) && g.table[cur].size <= MAX_BYTES
    ensures GetDinode(sb, v, cur) == g.table[cur]
  {
    hide Linked, Owned, BitsOk, GetDinode, Extent;
  }

  /** The size field is not part of the block map. */
  lemma SizeStep(sb: Super, v: Image, g: Meta, cur: nat, d: Dinode)
    requires FsInv(sb, v, g) && cur < |g.table| && d == g.table[cur].(size := d.size)
    ensures var g' := g.(table := g.table[cur := d]);
            FsInv(sb, v, g') && OthersKept(sb, cur, v, g, v, g')
            && forall nb :: Exact(v, g.table[cur], nb) ==> Exact(v, d, nb)
  {
    hide Used, Word, GetDinode;
    var g' := g.(table := g.table[cur := d]);
    assert forall k :: 0 <= k < NSLOTS ==> SlotAddr(v, d, k) == SlotAddr(v, g.table[cur], k);
    forall i | 0 <= i < MAXFILE
      ensures Addr(v, d, i) == Addr(v, g.table[cur], i)
    {
    }
    hide SlotAddr;
    assert Linked(sb, v, g') && Owned(sb, v, g');
  }

  lemma WrittenIsSplice(v: Image, d: Dinode, was: seq<byte>, off: nat, src: seq<byte>)
    requires d.Valid() && Written(v, d, was, off, src, |src|) && d.size == Max(|was|, off + |src|)
    ensures FileBytes(v, d) == Splice(was, off, src)
  {
    hide ByteAt;
  }

  lemma FinishSame(sb: Super, cur: nat, v0: Image, g0: Meta, v: Image, g: Meta, was: seq<byte>, off: nat,
                   src: seq<byte>)
    requires Quiet(sb, v0, g0, sb.ninodes) && FsInv(sb, v, g) && g.loose == {} && cur < |g0.table|
    requires OthersKept(sb, cur, v0, g0, v, g) && g.table[cur] == g0.table[cur]
    requires GetDinode(sb, v, cur) == GetDinode(sb, v0, cur)
    requires g.table[cur].Valid() && g.table[cur].size == |was| == Max(|was|, off + |src|)
    requires Exact(v, g.table[cur], Blocks(|was|)) && Written(v, g.table[cur], was, off, src, |src|)
    ensures Quiet(sb, v, g, sb.ninodes) && OtherFilesSame(cur, v0, g0, v, g)
    ensures FileBytes(v, g.table[cur]) == Splice(was, off, src)
  {
    hide FsInv, Exact, GetDinode, OthersKept, FileBytes, Splice;
    QuietFacts(sb, v0, g0, cur);
    QuietAfter(sb, cur, v0, g0, v, g);
    WrittenIsSplice(v, g.table[cur], was, off, src);
  }

  lemma FinishGrown(sb: Super, cur: nat, v0: Image, g0: Meta, v: Image, g: Meta, g': Meta,
                    was: seq<byte>, off: nat, src: seq<byte>)
    requires Quiet(sb, v0, g0, sb.ninodes) && FsInv(sb, v, g) && g.loose == {} && cur < |g0.table|
    requires OthersKept(sb, cur, v0, g0, v, g) && cur < |g.table|
    requires g.table[cur].Valid() && off + |src| == Max(|was|, off + |src|) < WORD_LIMIT
    requires g' == g.(table := g.table[cur := g.table[cur].(size := off + |src|)])
    requires Exact(v, g.table[cur], Blocks(off + |src|)) && Written(v, g.table[cur], was, off, src, |src|)
    requires sb.IBlock(cur) < |v|
    ensures var v' := UpdateImage(sb, v, cur, g'.table[cur]);
            && FsInv(sb, v', g') && Quiet(sb, v', g', sb.ninodes) && OtherFilesSame(cur, v0, g0, v', g')
            && FileBytes(v', g'.table[cur]) == Splice(was, off, src)
  {
    hide FsInv, Exact, GetDinode, OthersKept, Splice, Addr, UpdateImage, MapKept, Quiet;
    var d := g'.table[cur];
    FsSize(sb, v, g);
    SizeStep(sb, v, g, cur, d);
    UpdateStep(sb, v, g', cur, d);
    UpdateKeeps(sb, v, g', cur, d);
    var v' := UpdateImage(sb, v, cur, d);
    OthersTrans(sb, cur, v0, g0, v, g, v, g');
    OthersTrans(sb, cur, v0, g0, v, g', v', g');
    forall i | 0 <= i < off + |src|
      ensures ByteAt(v', d, i) == ByteAt(v, g.table[cur], i)
    {
      UpdateBytes(sb, v, g', cur, d, Blocks(off + |src|), i);
      SameAddrs(v, g.table[cur], d, i);
    }
    hide ByteAt;
    assert Shaped(v', d, d.size);
    QuietAfter(sb, cur, v0, g0, v', g');
    assert Written(v', d, was, off, src, |src|);
    WrittenIsSplice(v', d, was, off, src);
  }

  lemma SameAddrs(v: Image, d: Dinode, d': Dinode, i: nat)
    requires d.Valid() && d' == d.(size := d'.size) && i < MAX_BYTES
    ensures ByteAt(v, d', i) == ByteAt(v, d, i)
  {
    assert SlotAddr(v, d', BlockSlot(i / BSIZE)) == SlotAddr(v, d, BlockSlot(i / BSIZE));
  }

  function Max(a: int, b: int): int {
    if a < b then b else a
  }

  /** File blocks met while writing bytes [off, at). */
  function Span(off: nat, at: nat): (n: int) {
    if at <= off then 0 else Blocks(at) - off / BSIZE
  }

  /** Blocks block_alloc must supply to grow a file from `x` to `y` blocks. */
  function Need(x: nat, y: nat): (n: nat) {
    if y <= x then 0 else y - x + if x <= NDIRECT < y then 1 else 0
  }

  lemma IndirectSmall(d: Dinode, n: word)
    requires d.Valid()
    ensures |Indirect(d)| <= 1 && d.(size := n).Valid() && Indirect(d.(size := n)) == Indirect(d)
  {
  }

  lemma NothingYet(size: nat, off: nat)
    ensures Span(off, off) == 0 && Need(Blocks(size), Blocks(size)) == 0
  {
  }

  /** The first max(|was|, off + tot) bytes of the file are `was` with the first `tot` bytes of
      `src` written over it at `off`. */
  ghost predicate Written(v: Image, d: Dinode, was: seq<byte>, off: nat, src: seq<byte>, tot: nat)
    requires d.Valid()
  {
    && off <= |was| <= MAX_BYTES && tot <= |src| && off + tot <= MAX_BYTES
    && forall i :: 0 <= i < Max(|was|, off + tot) ==>
         ByteAt(v, d, i) == if off <= i < off + tot then src[i - off] else was[i]
  }

  lemma WrittenNone(v: Image, d: Dinode, off: nat, src: seq<byte>)
    requires d.Valid() && off <= d.size <= MAX_BYTES
    ensures Written(v, d, FileBytes(v, d), off, src, 0)
  {
    hide ByteAt;
  }

  lemma WrittenStep(v: Image, d: Dinode, v': Image, d': Dinode, was: seq<byte>, off: nat, src: seq<byte>,
                    tot: nat, m: nat, nb: nat)
    requires d.Valid() && d'.Valid() && tot + m <= |src| && off + tot + m <= MAX_BYTES
    requires Written(v, d, was, off, src, tot) && nb == Blocks(Max(|was|, off + tot))
    requires Patched(v, d, v', d', nb, off + tot, src[tot..tot + m])
    ensures Written(v', d', was, off, src, tot + m)
  {
    hide ByteAt;
    assert Max(|was|, off + tot) <= nb * BSIZE;
  }

  lemma OthersRefl(sb: Super, cur: nat, v: Image, g: Meta)
    ensures OthersKept(sb, cur, v, g, v, g)
  {
    hide GetDinode;
  }

  lemma LoopArith(size: nat, off: nat, tot: nat, n: nat, m: nat)
    requires off <= size <= MAX_BYTES && tot < n && off + n <= MAX_BYTES
    requires tot == 0 || (off + tot) % BSIZE == 0
    requires m == Min(n - tot, BSIZE - (off + tot) % BSIZE)
    ensures var at, nb, nb' := off + tot, Blocks(Max(size, off + tot)), Blocks(Max(size, off + tot + m));
            && 0 < m <= n - tot && at % BSIZE + m <= BSIZE && at / BSIZE <= nb <= MAXFILE
            && nb' == (if at / BSIZE == nb then nb + 1 else nb)
            && (at / BSIZE == nb ==> Need(Blocks(size), nb) + NewBlocks(nb) <= Need(Blocks(size), Blocks(off + n)))
            && Need(Blocks(size), nb') == Need(Blocks(size), nb) + (if at / BSIZE == nb then NewBlocks(nb) else 0)
            && Span(off, at) + 1 == Span(off, at + m) <= Span(off, off + n)
            && (tot + m < n ==> (off + tot + m) % BSIZE == 0)
            && Blocks(size) <= nb
  {
  }

  lemma LoopRoom(t: set<nat>, t0: set<nat>, ds: set<nat>, i: set<nat>)
    requires t <= t0 + ds + i
    ensures |t - i| <= |t0| + |ds|
  {
    CardSub(t - i, t0 + ds);
    assert t0 + ds == t0 + (ds - t0);
    CardSub(ds - t0, ds);
  }

  lemma LoadedDinode(sb: Super, v: Image, i: nat)
    requires sb.IBlock(i) < |v|
    ensures GetDinode(sb, v, i) == DinodeIn(v[sb.IBlock(i)], i % IPB)
  {
  }

  function UpdateImage(sb: Super, v: Image, inum: nat, d: Dinode): (v': Image)
    requires d.Valid() && sb.IBlock(inum) < |v|
  {
    v[sb.IBlock(inum) := PutDinode(v[sb.IBlock(inum)], inum % IPB, d, 0)]
  }

  lemma UpdateStep(sb: Super, v: Image, g: Meta, inum: nat, d: Dinode)
    requires FsInv(sb, v, g) && inum < sb.ninodes && d.Valid()
    ensures sb.IBlock(inum) < sb.BitmapStart() && sb.IBlock(inum) < |v|
    ensures FsInv(sb, UpdateImage(sb, v, inum, d), g) && MapKept(v, UpdateImage(sb, v, inum, d), g)
    ensures FreeBlocks(sb, UpdateImage(sb, v, inum, d)) == FreeBlocks(sb, v)
  {
    hide Linked, BitsOk, PutDinode, SlotAddr, Used;
    assert sb.IBlock(inum) < sb.BitmapStart() < sb.DataStart();
    WriteStep(sb, v, g, sb.IBlock(inum), PutDinode(v[sb.IBlock(inum)], inum % IPB, d, 0));
  }

  /** Updating one inode on disk leaves every file's bytes and every other inode alone. */
  lemma UpdateKeeps(sb: Super, v: Image, g: Meta, inum: nat, d: Dinode)
    requires FsInv(sb, v, g) && inum < sb.ninodes && d.Valid() && sb.IBlock(inum) < sb.BitmapStart()
    requires sb.IBlock(inum) < |v|
    requires MapKept(v, UpdateImage(sb, v, inum, d), g)
    ensures var v' := UpdateImage(sb, v, inum, d);
            && OthersKept(sb, inum, v, g, v', g)
            && GetDinode(sb, v', inum) == d
            && forall nb :: Exact(v, g.table[inum], nb) ==> Exact(v', g.table[inum], nb)
  {
    hide Linked, BitsOk, PutDinode, SlotAddr, Used, GetDinode;
    assert sb.IBlock(inum) < sb.DataStart();
    hide Super.DataStart, Super.IBlock, Super.BitmapStart, Super.LogStart, Super.Valid;
    var v' := UpdateImage(sb, v, inum, d);
    forall i | 0 <= i < |g.table|
      ensures GetDinode(sb, v', i) == if i == inum then d else GetDinode(sb, v, i)
    {
      DinodeRoundTrip(sb, v, inum, d, i);
    }
    forall i | 0 <= i < MAXFILE
      ensures Addr(v', g.table[inum], i) == Addr(v, g.table[inum], i)
    {
    }
  }

  lemma UpdateBytes(sb: Super, v: Image, g: Meta, inum: nat, d: Dinode, nb: nat, i: nat)
    requires FsInv(sb, v, g) && inum < sb.ninodes && d.Valid() && sb.IBlock(inum) < sb.BitmapStart()
    requires sb.IBlock(inum) < |v|
    requires MapKept(v, UpdateImage(sb, v, inum, d), g) && Exact(v, g.table[inum], nb) && i < nb * BSIZE
    ensures i < MAX_BYTES && ByteAt(UpdateImage(sb, v, inum, d), g.table[inum], i) == ByteAt(v, g.table[inum], i)
  {
    hide BitsOk, PutDinode, SlotAddr;
    assert i / BSIZE < nb && sb.BitmapStart() <= sb.DataStart();
    var a := Addr(v, g.table[inum], i / BSIZE);
    AddrInside(sb, v, g, inum, i / BSIZE);
    assert Addr(UpdateImage(sb, v, inum, d), g.table[inum], i / BSIZE) == a;
  }

  /** A set and its part outside a set of at most one element. */
  lemma CardMinus(s: set<nat>, i: set<nat>)
    requires |i| <= 1
    ensures |s - i| <= |s| <= |s - i| + 1
    ensures i <= s ==> |s| == |s - i| + |i|
  {
    assert s == (s - i) + (s * i);
    CardSub(s * i, i);
    if i <= s {
      assert s * i == i;
    }
  }

  /** Growth by one block and the indirect block, counting the latter separately. */
  lemma CardGrow(s: set<nat>, s': set<nat>, a: nat, i: set<nat>, i': set<nat>)
    requires s <= s' <= s + {a} + i' && i <= i' && |i'| <= 1
    ensures |s' - i'| <= |s - i| + 1 && |s'| <= |s - i| + 2
  {
    CardMinus(s', i');
    CardSub(s' - i', (s - i) + {a});
  }

  lemma {:induction false} CardSub(s: set<nat>, t: set<nat>)
    requires s <= t
    ensures |s| <= |t|
  {
    assert t == s + (t - s);
  }

  lemma GrownFacts(sb: Super, cur: nat, v: Image, g: Meta, v': Image, g': Meta)
    requires FsInv(sb, v, g) && TableOk(sb, g') && cur < |g.table| && Grown(sb, cur, v, g, v', g')
    ensures OthersKept(sb, cur, v, g, v', g') && |g'.table| == |g.table|
    ensures GetDinode(sb, v', cur) == GetDinode(sb, v, cur)
    ensures g'.table[cur] == g.table[cur].(addrs := g'.table[cur].addrs)
    ensures Indirect(g.table[cur]) <= Indirect(g'.table[cur])
  {
    hide Linked, Owned, BitsOk, GetDinode;
    assert SlotAddr(v, g.table[cur], NDIRECT) == g.table[cur].addrs[NDIRECT];
    assert SlotAddr(v', g'.table[cur], NDIRECT) == g'.table[cur].addrs[NDIRECT];
  }

  lemma PatchKeeps(sb: Super, v: Image, g: Meta, cur: nat, bn: nat, nb: nat, lo: nat, data: seq<byte>)
    requires FsInv(sb, v, g) && cur < |g.table| && bn < MAXFILE && lo + |data| <= BSIZE
    requires Addr(v, g.table[cur], bn) != 0 && sb.DataStart() <= Addr(v, g.table[cur], bn) < |v|
    requires Exact(v, g.table[cur], nb)
    requires var a := Addr(v, g.table[cur], bn);
             var v' := v[a := Patch(v[a], lo, data)];
             MapKept(v, v', g) && forall b :: 0 <= b < sb.LogStart() ==> (Used(sb, v', b) <==> Used(sb, v, b))
    ensures var a := Addr(v, g.table[cur], bn);
            var v' := v[a := Patch(v[a], lo, data)];
            && Exact(v', g.table[cur], nb) && FreeBlocks(sb, v') == FreeBlocks(sb, v)
            && GetDinode(sb, v', cur) == GetDinode(sb, v, cur)
  {
    hide Linked, Owned, BitsOk, SlotAddr, Used, GetDinode, Patch;
    var a := Addr(v, g.table[cur], bn);
    var v' := v[a := Patch(v[a], lo, data)];
    DinodeFrame(sb, v, v', cur);
    forall i | 0 <= i < MAXFILE
      ensures Addr(v', g.table[cur], i) == Addr(v, g.table[cur], i)
    {
    }
  }

  lemma PatchedBytes(sb: Super, v: Image, g: Meta, v1: Image, g1: Meta, cur: nat, nb: nat, nb1: nat, at: nat,
                     data: seq<byte>)
    requires FsInv(sb, v, g) && FsInv(sb, v1, g1) && cur < |g.table| == |g1.table| && Grown(sb, cur, v, g, v1, g1)
    requires Exact(v, g.table[cur], nb) && Exact(v1, g1.table[cur], nb1) && nb <= nb1 && at / BSIZE < nb1
    requires at % BSIZE + |data| <= BSIZE && Addr(v1, g1.table[cur], at / BSIZE) < |v1|
    requires var a := Addr(v1, g1.table[cur], at / BSIZE);
             MapKept(v1, v1[a := Patch(v1[a], at % BSIZE, data)], g1)
    ensures var a := Addr(v1, g1.table[cur], at / BSIZE);
            Patched(v, g.table[cur], v1[a := Patch(v1[a], at % BSIZE, data)], g1.table[cur], nb, at, data)
  {
    hide FsInv, Grown, MapKept, Patch, Addr, ByteAt;
    FsSize(sb, v, g);
    FsSize(sb, v1, g1);
    var bn, d1 := at / BSIZE, g1.table[cur];
    var a := Addr(v1, d1, bn);
    var v2 := v1[a := Patch(v1[a], at % BSIZE, data)];
    forall i | 0 <= i < nb1 * BSIZE
      ensures ByteAt(v2, d1, i) == if at <= i < at + |data| then data[i - at] else ByteAt(v1, d1, i)
    {
      assert i / BSIZE < nb1;
      PatchBytes(sb, v1, g1, cur, bn, at % BSIZE, data, i);
      InRange(at, |data|, i);
    }
    forall i | 0 <= i < nb * BSIZE
      ensures ByteAt(v1, d1, i) == ByteAt(v, g.table[cur], i)
    {
      GrownBytes(sb, cur, v, g, v1, g1, nb, i);
    }
  }

  lemma InRange(at: nat, m: nat, i: nat)
    requires at % BSIZE + m <= BSIZE
    ensures at <= i < at + m <==> i / BSIZE == at / BSIZE && at % BSIZE <= i % BSIZE < at % BSIZE + m
  {
  }

  /** `data` is at byte `at`; the other bytes of the first `nb` blocks are as before. */
  ghost predicate Patched(v: Image, d: Dinode, v': Image, d': Dinode, nb: nat, at: nat, data: seq<byte>)
    requires d.Valid() && d'.Valid()
  {
    && nb <= MAXFILE && at + |data| <= MAX_BYTES
    && (forall i :: at <= i < at + |data| ==> ByteAt(v', d', i) == data[i - at])
    && (forall i :: 0 <= i < nb * BSIZE && !(at <= i < at + |data|) ==> ByteAt(v', d', i) == ByteAt(v, d, i))
  }

  lemma InsideBlocks(at: nat, size: nat)
    requires at < size <= MAX_BYTES
    ensures at / BSIZE < Blocks(size) <= MAXFILE
  {
    assert at / BSIZE * BSIZE <= at;
  }

  lemma AddrInside(sb: Super, v: Image, g: Meta, cur: nat, bn: nat)
    requires FsInv(sb, v, g) && cur < |g.table| && bn < MAXFILE && Addr(v, g.table[cur], bn) != 0
    ensures sb.DataStart() <= Addr(v, g.table[cur], bn) < |v|
  {
    hide BitsOk, SlotAddr;
    assert SlotAddr(v, g.table[cur], BlockSlot(bn)) == Addr(v, g.table[cur], bn);
  }

  lemma ReadSlice(v: Image, d: Dinode, at: nat, m: nat)
    requires d.Valid() && d.size <= MAX_BYTES && at + m <= d.size && at % BSIZE + m <= BSIZE && at < d.size
    ensures BlockAt(v, Addr(v, d, at / BSIZE))[at % BSIZE..at % BSIZE + m] == FileBytes(v, d)[at..at + m]
  {
    hide Addr, BlockAt;
    var piece := BlockAt(v, Addr(v, d, at / BSIZE))[at % BSIZE..at % BSIZE + m];
    forall j | 0 <= j < |piece|
      ensures piece[j] == FileBytes(v, d)[at..at + m][j]
    {
      assert (at + j) / BSIZE == at / BSIZE && (at + j) % BSIZE == at % BSIZE + j;
    }
  }

  lemma AddedInv(sb: Super, cur: nat, v: Image, g: Meta, v': Image, g': Meta, k: nat, a: word)
    requires Added(sb, cur, v, g, v', g', k, a)
    ensures FsInv(sb, v', g') && |g'.table| == |g.table|
    ensures a in FreeBlocks(sb, v) && |FreeBlocks(sb, v')| == |FreeBlocks(sb, v)| - 1
  {
    hide FsInv, FreeBlocks, SlotAddr;
  }

  lemma AddrIsSlot(v: Image, d: Dinode, bn: nat)
    requires d.Valid() && bn < MAXFILE
    ensures Addr(v, d, bn) == SlotAddr(v, d, BlockSlot(bn))
    ensures bn < NDIRECT ==> Addr(v, d, bn) == d.addrs[bn]
    ensures SlotAddr(v, d, NDIRECT) == d.addrs[NDIRECT]
  {
  }

  /** The indirect block of `d`, if it has one. */
  ghost function Indirect(d: Dinode): (s: set<nat>)
    requires d.Valid()
  {
    if d.addrs[NDIRECT] == 0 then {} else {d.addrs[NDIRECT]}
  }

  /** Blocks block_alloc must supply to append file block `bn`. */
  function NewBlocks(bn: nat): (n: nat) {
    if bn == NDIRECT then 2 else 1
  }

  lemma AddedExact(sb: Super, cur: nat, v: Image, g: Meta, v': Image, g': Meta, bn: nat, a: word)
    requires Added(sb, cur, v, g, v', g', BlockSlot(bn), a) && bn < MAXFILE && Extent(v, g.table[cur], bn)
    requires g.table[cur].addrs[NDIRECT] != 0 <==> NDIRECT <= bn
    ensures |g'.table| == |g.table| && g'.table[cur].Valid()
    ensures Exact(v', g'.table[cur], bn + 1) && Addr(v', g'.table[cur], bn) == a != 0
    ensures g'.table[cur].addrs[NDIRECT] == g.table[cur].addrs[NDIRECT]
  {
    hide SlotAddr, Linked, Owned, BitsOk, FreeBlocks;
    ExtentGrow(v, g.table[cur], v', g'.table[cur], bn, a);
  }

  lemma AddedIndirect(sb: Super, cur: nat, v: Image, g: Meta, v': Image, g': Meta, a: word)
    requires Added(sb, cur, v, g, v', g', NDIRECT, a) && Extent(v, g.table[cur], NDIRECT)
    ensures |g'.table| == |g.table| && g'.table[cur].Valid()
    ensures Extent(v', g'.table[cur], NDIRECT) && g'.table[cur].addrs[NDIRECT] == a != 0
  {
    hide SlotAddr, Linked, Owned, BitsOk, FreeBlocks;
    ExtentIndirect(v, g.table[cur], v', g'.table[cur], NDIRECT, a);
  }

  lemma AddedGrown(sb: Super, cur: nat, v: Image, g: Meta, v': Image, g': Meta, k: nat, a: word)
    requires Added(sb, cur, v, g, v', g', k, a)
    ensures TableOk(sb, g) && TableOk(sb, g') && cur < |g.table| && g'.loose == {}
    ensures Grown(sb, cur, v, g, v', g')
  {
    hide Linked, Owned, BitsOk, FreeBlocks, SlotAddr, Grown;
  }

  lemma GrownRefl(sb: Super, cur: nat, v: Image, g: Meta)
    requires TableOk(sb, g) && cur < |g.table|
    ensures Grown(sb, cur, v, g, v, g)
  {
    hide SlotAddr, GetDinode, BlockAt;
  }

  lemma ExtentEntry(v: Image, d: Dinode, nb: nat, bn: nat)
    requires d.Valid() && Extent(v, d, nb) && NDIRECT <= bn < MAXFILE
    requires d.addrs[NDIRECT] != 0 && d.addrs[NDIRECT] < |v|
    ensures Addr(v, d, bn) == SlotAddr(v, d, bn + 1) == Word(v[d.addrs[NDIRECT]], bn - NDIRECT)
    ensures Addr(v, d, bn) != 0 <==> bn < nb
  {
    hide Word;
  }

  lemma ExactFacts(v: Image, d: Dinode, nb: nat)
    requires d.Valid() && Exact(v, d, nb)
    ensures Extent(v, d, nb) && (d.addrs[NDIRECT] != 0 <==> NDIRECT < nb)
  {
  }

  lemma ExactAddr(v: Image, d: Dinode, nb: nat, bn: nat)
    requires d.Valid() && Exact(v, d, nb) && bn < MAXFILE
    ensures Addr(v, d, bn) != 0 <==> bn < nb
    ensures Addr(v, d, bn) == SlotAddr(v, d, BlockSlot(bn))
  {
  }

  lemma UsedBit(sb: Super, v: Image, b: nat)
    requires sb.BBlock(b) < |v|
    ensures Used(sb, v, b) <==> Bit(v[sb.BBlock(b)], b % BPB)
  {
  }

  lemma FsSize(sb: Super, v: Image, g: Meta)
    requires FsInv(sb, v, g)
    ensures sb.Valid() && |v| == sb.LogStart() && TableOk(sb, g)
  {
  }

  lemma BBlockIsBitmap(sb: Super, b: nat)
    requires sb.Valid() && b < sb.size
    ensures sb.BBlock(b) in BitmapBlocks(sb)
  {
    assert sb.BBlock(b) == sb.BBlock(b / BPB * BPB);
  }

  /** The scan finds a block below the log exactly when one is free there. */
  lemma FreeIsFound(sb: Super, v: Image, b: nat)
    requires sb.Valid() && b <= sb.size && AllUsed(sb, v, b) && (b < sb.size ==> !Used(sb, v, b))
    ensures b < sb.LogStart() <==> FreeBlocks(sb, v) != {}
  {
    hide Used;
    if b < sb.LogStart() {
      assert b in FreeBlocks(sb, v);
    }
    if FreeBlocks(sb, v) != {} {
      var c :| c in FreeBlocks(sb, v);
      assert b <= c;
    }
  }

  lemma RecordDistinctElems(lh: seq<nat>, s: nat)
    ensures forall i :: 0 <= i < |Record(lh, s)| ==> Record(lh, s)[i] == s || Record(lh, s)[i] in lh
  {
  }
}
