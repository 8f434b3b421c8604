/** The elementary changes the block and inode code makes to the image and the block map, and
    the proof that each keeps block conservation. */
module FsSteps {
  import opened Bytes
  import opened LogMachine
  import opened FsLayout

  // ---- Frames ----

  ghost predicate IndirectsKept(v: Image, v': Image, g: Meta) {
    |v'| == |v| && forall a :: a in g.owner && g.owner[a].k == NDIRECT ==> BlockAt(v', a) == BlockAt(v, a)
  }

  ghost predicate BitmapKept(sb: Super, v: Image, v': Image) {
    |v'| == |v| && forall b :: sb.BitmapStart() <= b < sb.DataStart() ==> BlockAt(v', b) == BlockAt(v, b)
  }

  ghost predicate MapKept(v: Image, v': Image, g: Meta)
    requires forall i :: 0 <= i < |g.table| ==> g.table[i].Valid()
  {
    forall i, k :: 0 <= i < |g.table| && 0 <= k < NSLOTS ==>
      SlotAddr(v', g.table[i], k) == SlotAddr(v, g.table[i], k)
  }

  /** Only the indirect blocks matter to the block map. */
  lemma KeepMap(sb: Super, v: Image, v': Image, g: Meta)
    requires FsInv(sb, v, g) && IndirectsKept(v, v', g)
    ensures MapKept(v, v', g) && Linked(sb, v', g) && Owned(sb, v', g)
  {
    hide BitsOk, Word;
    forall i, k | 0 <= i < |g.table| && 0 <= k < NSLOTS
      ensures SlotAddr(v', g.table[i], k) == SlotAddr(v, g.table[i], k)
    {
      assert SlotAddr(v, g.table[i], NDIRECT) == g.table[i].addrs[NDIRECT];
    }
  }

  lemma BBlockInBitmap(sb: Super, b: nat)
    requires sb.Valid() && b < sb.size
    ensures sb.BitmapStart() <= sb.BBlock(b) < sb.DataStart()
  {
  }

  lemma KeepBits(sb: Super, v: Image, v': Image, g: Meta)
    requires FsInv(sb, v, g) && BitmapKept(sb, v, v')
    ensures BitsOk(sb, v', g)
    ensures forall b :: 0 <= b < sb.LogStart() ==> (Used(sb, v', b) <==> Used(sb, v, b))
  {
    hide Linked, Owned, Bit;
    forall b | 0 <= b < sb.LogStart()
      ensures Used(sb, v', b) <==> Used(sb, v, b)
    {
      BBlockInBitmap(sb, b);
    }
  }

  /** Writing a block that is neither bitmap nor indirect block. */
  lemma WriteStep(sb: Super, v: Image, g: Meta, a: nat, blk: Block)
    requires FsInv(sb, v, g) && a < |v|
    requires a in g.owner ==> g.owner[a].k != NDIRECT
    requires a < sb.BitmapStart() || sb.DataStart() <= a
    ensures FsInv(sb, v[a := blk], g) && MapKept(v, v[a := blk], g)
    ensures forall b :: 0 <= b < sb.LogStart() ==> (Used(sb, v[a := blk], b) <==> Used(sb, v, b))
  {
    var v' := v[a := blk];
    KeepMap(sb, v, v', g);
    KeepBits(sb, v, v', g);
  }

  // ---- Allocation and release of a bit ----

  ghost predicate BitmapFrame(sb: Super, v: Image, v': Image) {
    |v'| == |v| && forall b :: 0 <= b < |v| && !(sb.BitmapStart() <= b < sb.DataStart()) ==> v'[b] == v[b]
  }

  function MarkUsed(sb: Super, v: Image, b: nat): (v': Image)
    requires sb.BBlock(b) < |v| && !Used(sb, v, b)
  {
    v[sb.BBlock(b) := SetBit(v[sb.BBlock(b)], b % BPB)]
  }

  function MarkFree(sb: Super, v: Image, b: nat): (v': Image)
    requires sb.BBlock(b) < |v| && Used(sb, v, b)
  {
    v[sb.BBlock(b) := ClearBit(v[sb.BBlock(b)], b % BPB)]
  }

  lemma UsedAfterMark(sb: Super, v: Image, b: nat, c: nat)
    requires sb.BBlock(b) < |v| && !Used(sb, v, b)
    ensures Used(sb, MarkUsed(sb, v, b), c) <==> c == b || Used(sb, v, c)
  {
    BitOfSetBit(v[sb.BBlock(b)], b % BPB, c % BPB);
    assert c == b <==> c / BPB == b / BPB && c % BPB == b % BPB;
  }

  lemma UsedAfterFree(sb: Super, v: Image, b: nat, c: nat)
    requires sb.BBlock(b) < |v| && Used(sb, v, b)
    ensures Used(sb, MarkFree(sb, v, b), c) <==> c != b && Used(sb, v, c)
  {
    BitOfClearBit(v[sb.BBlock(b)], b % BPB, c % BPB);
    assert c == b <==> c / BPB == b / BPB && c % BPB == b % BPB;
  }

  lemma MarkStep(sb: Super, v: Image, g: Meta, b: nat)
    requires FsInv(sb, v, g) && b < sb.LogStart() && !Used(sb, v, b)
    ensures sb.DataStart() <= b && b !in g.owner && b !in g.loose && sb.BBlock(b) < |v|
    ensures FsInv(sb, MarkUsed(sb, v, b), g.(loose := g.loose + {b}))
    ensures MapKept(v, MarkUsed(sb, v, b), g)
  {
    hide Used, MarkUsed;
    BBlockInBitmap(sb, b);
    var v' := MarkUsed(sb, v, b);
    MarkFrames(sb, v, b);
    assert IndirectsKept(v, v', g) by {
      hide Linked, BitsOk;
    }
    KeepMap(sb, v, v', g);
    forall c | 0 <= c < sb.LogStart()
      ensures Used(sb, v', c) <==> c == b || Used(sb, v, c)
    {
      UsedAfterMark(sb, v, b, c);
    }
  }

  lemma MarkFrames(sb: Super, v: Image, b: nat)
    requires sb.Valid() && b < sb.size && |v| == sb.LogStart()
    ensures sb.BBlock(b) < |v|
    ensures !Used(sb, v, b) ==> BitmapFrame(sb, v, MarkUsed(sb, v, b))
    ensures Used(sb, v, b) ==> BitmapFrame(sb, v, MarkFree(sb, v, b))
  {
    BBlockInBitmap(sb, b);
  }

  lemma FreeStep(sb: Super, v: Image, g: Meta, b: nat)
    requires FsInv(sb, v, g) && b in g.loose
    ensures b < sb.LogStart() && Used(sb, v, b) && sb.BBlock(b) < |v|
    ensures FsInv(sb, MarkFree(sb, v, b), g.(loose := g.loose - {b}))
    ensures MapKept(v, MarkFree(sb, v, b), g)
  {
    hide Used, MarkFree;
    BBlockInBitmap(sb, b);
    var v' := MarkFree(sb, v, b);
    MarkFrames(sb, v, b);
    assert IndirectsKept(v, v', g) by {
      hide Linked, BitsOk;
    }
    KeepMap(sb, v, v', g);
    forall c | 0 <= c < sb.LogStart()
      ensures Used(sb, v', c) <==> c != b && Used(sb, v, c)
    {
      UsedAfterFree(sb, v, b, c);
    }
  }

  // ---- Linking and unlinking ----

  function SetAddr(g: Meta, cur: nat, k: nat, a: word): (t: Table)
    requires cur < |g.table| && k < |g.table[cur].addrs|
  {
    g.table[cur := g.table[cur].(addrs := g.table[cur].addrs[k := a])]
  }

  /** From (v, g) to (v', g') the block map changes in slot `k` of `cur` only, to `a`. */
  ghost predicate OneSlotSet(v: Image, g: Meta, v': Image, g': Meta, cur: nat, k: nat, a: word)
    requires forall i :: 0 <= i < |g.table| ==> g.table[i].Valid()
    requires forall i :: 0 <= i < |g'.table| ==> g'.table[i].Valid()
  {
    && |g'.table| == |g.table|
    && forall i, j :: 0 <= i < |g.table| && 0 <= j < NSLOTS ==>
         SlotAddr(v', g'.table[i], j) == if i == cur && j == k then a else SlotAddr(v, g.table[i], j)
  }

  lemma LinkMap(sb: Super, v: Image, g: Meta, v': Image, g': Meta, cur: nat, k: nat, a: word)
    requires FsInv(sb, v, g) && TableOk(sb, g') && OneSlotSet(v, g, v', g', cur, k, a)
    requires cur < |g.table| && k < NSLOTS && a in g.loose && SlotAddr(v, g.table[cur], k) == 0
    requires g'.owner == g.owner[a := Slot(cur, k)]
    ensures Linked(sb, v', g')
  {
    hide SlotAddr, Used, Owned;
    forall i, j | 0 <= i < |g'.table| && 0 <= j < NSLOTS && SlotAddr(v', g'.table[i], j) != 0
      ensures SlotAddr(v', g'.table[i], j) in g'.owner && g'.owner[SlotAddr(v', g'.table[i], j)] == Slot(i, j)
    {
      assert (i == cur && j == k) || SlotAddr(v', g'.table[i], j) == SlotAddr(v, g.table[i], j);
    }
  }

  lemma LinkOwned(sb: Super, v: Image, g: Meta, v': Image, g': Meta, cur: nat, k: nat, a: word)
    requires FsInv(sb, v, g) && TableOk(sb, g') && OneSlotSet(v, g, v', g', cur, k, a)
    requires cur < |g.table| && k < NSLOTS && a in g.loose && SlotAddr(v, g.table[cur], k) == 0
    requires g'.owner == g.owner[a := Slot(cur, k)]
    ensures Owned(sb, v', g')
  {
    hide SlotAddr, Used, Linked, Super.DataStart, Super.LogStart, Super.Valid;
    forall x | x in g'.owner
      ensures sb.DataStart() <= x < sb.LogStart()
      ensures g'.owner[x].inum < |g'.table| && g'.owner[x].k < NSLOTS
      ensures SlotAddr(v', g'.table[g'.owner[x].inum], g'.owner[x].k) == x
    {
      if x != a {
        var s := g.owner[x];
        assert SlotAddr(v, g.table[s.inum], s.k) == x && x > 0;
        assert s != Slot(cur, k);
        assert SlotAddr(v', g'.table[s.inum], s.k) == x;
      }
    }
  }

  ghost function LinkDirect(g: Meta, cur: nat, k: nat, a: word): (g': Meta)
    requires cur < |g.table| && k < |g.table[cur].addrs|
  {
    Meta(SetAddr(g, cur, k, a), g.owner[a := Slot(cur, k)], g.loose - {a})
  }

  /** A loose block becomes direct block `k`, or (zeroed) the indirect block. */
  lemma LinkDirectStep(sb: Super, v: Image, g: Meta, cur: nat, k: nat, a: word)
    requires FsInv(sb, v, g) && cur < |g.table| && k <= NDIRECT && a in g.loose
    requires g.table[cur].addrs[k] == 0
    requires k == NDIRECT ==> BlockAt(v, a) == Zeros(BSIZE)
    ensures FsInv(sb, v, LinkDirect(g, cur, k, a))
    ensures OneSlotSet(v, g, v, LinkDirect(g, cur, k, a), cur, k, a)
  {
    hide Used, Linked, Owned, Word;
    var g' := LinkDirect(g, cur, k, a);
    forall j | 0 <= j < NSLOTS
      ensures SlotAddr(v, g'.table[cur], j) == if j == k then a else SlotAddr(v, g.table[cur], j)
    {
      if k == NDIRECT && j > NDIRECT {
        WordOfZeros(BSIZE, j - NDIRECT - 1);
      }
    }
    LinkMap(sb, v, g, v, g', cur, k, a);
    LinkOwned(sb, v, g, v, g', cur, k, a);
  }

  ghost function LinkEntry(g: Meta, cur: nat, j: nat, a: word): (g': Meta) {
    g.(owner := g.owner[a := Slot(cur, NDIRECT + 1 + j)], loose := g.loose - {a})
  }

  function PutEntry(v: Image, d: Dinode, j: nat, a: word): (v': Image)
    requires d.Valid() && d.addrs[NDIRECT] < |v| && j < NINDIRECT
  {
    v[d.addrs[NDIRECT] := SetWord(v[d.addrs[NDIRECT]], j, a)]
  }

  lemma IndirectOwned(sb: Super, v: Image, g: Meta, i: nat)
    requires FsInv(sb, v, g) && i < |g.table| && g.table[i].addrs[NDIRECT] != 0
    ensures var ind := g.table[i].addrs[NDIRECT];
            ind in g.owner && g.owner[ind] == Slot(i, NDIRECT) && sb.DataStart() <= ind < |v|
  {
    assert SlotAddr(v, g.table[i], NDIRECT) == g.table[i].addrs[NDIRECT];
  }

  lemma PutEntrySlots(sb: Super, v: Image, g: Meta, cur: nat, j: nat, a: word)
    requires FsInv(sb, v, g) && cur < |g.table| && j < NINDIRECT
    requires g.table[cur].addrs[NDIRECT] != 0
    ensures g.table[cur].addrs[NDIRECT] < |v|
    ensures OneSlotSet(v, g, PutEntry(v, g.table[cur], j, a), g, cur, NDIRECT + 1 + j, a)
  {
    hide Used, Word, Linked, Owned, BitsOk;
    var ind := g.table[cur].addrs[NDIRECT];
    IndirectOwned(sb, v, g, cur);
    var v' := PutEntry(v, g.table[cur], j, a);
    forall i, k | 0 <= i < |g.table| && 0 <= k < NSLOTS
      ensures SlotAddr(v', g.table[i], k)
              == if i == cur && k == NDIRECT + 1 + j then a else SlotAddr(v, g.table[i], k)
    {
      if g.table[i].addrs[NDIRECT] != 0 {
        IndirectOwned(sb, v, g, i);
      }
      if i == cur && k > NDIRECT {
        WordOfSetWord(v[ind], j, a, k - NDIRECT - 1);
      }
    }
  }

  /** A loose block becomes entry `j` of the indirect block. */
  lemma LinkEntryStep(sb: Super, v: Image, g: Meta, cur: nat, j: nat, a: word)
    requires FsInv(sb, v, g) && cur < |g.table| && j < NINDIRECT && a in g.loose
    requires g.table[cur].addrs[NDIRECT] != 0 && SlotAddr(v, g.table[cur], NDIRECT + 1 + j) == 0
    ensures g.table[cur].addrs[NDIRECT] < |v|
    ensures FsInv(sb, PutEntry(v, g.table[cur], j, a), LinkEntry(g, cur, j, a))
    ensures OneSlotSet(v, g, PutEntry(v, g.table[cur], j, a), LinkEntry(g, cur, j, a), cur, NDIRECT + 1 + j, a)
  {
    hide Used, Word, SlotAddr, Linked, Owned;
    IndirectOwned(sb, v, g, cur);
    PutEntrySlots(sb, v, g, cur, j, a);
    var v', g' := PutEntry(v, g.table[cur], j, a), LinkEntry(g, cur, j, a);
    LinkMap(sb, v, g, v', g', cur, NDIRECT + 1 + j, a);
    LinkOwned(sb, v, g, v', g', cur, NDIRECT + 1 + j, a);
    KeepBits(sb, v, v', g);
    assert BitsOk(sb, v', g');
  }

  ghost function UnlinkDirect(g: Meta, cur: nat, k: nat): (g': Meta)
    requires cur < |g.table| && k < |g.table[cur].addrs|
  {
    var a := g.table[cur].addrs[k];
    Meta(SetAddr(g, cur, k, 0), g.owner - {a}, g.loose + {a})
  }

  lemma UnlinkDirectStep(sb: Super, v: Image, g: Meta, cur: nat, k: nat)
    requires FsInv(sb, v, g) && cur < |g.table| && k < NDIRECT && g.table[cur].addrs[k] != 0
    ensures FsInv(sb, v, UnlinkDirect(g, cur, k))
  {
    hide Used;
    var a, g' := g.table[cur].addrs[k], UnlinkDirect(g, cur, k);
    assert SlotAddr(v, g.table[cur], k) == a;
    assert forall j :: 0 <= j < NSLOTS ==>
      SlotAddr(v, g'.table[cur], j) == if j == k then 0 else SlotAddr(v, g.table[cur], j);
    hide SlotAddr;
    assert Linked(sb, v, g');
    assert Owned(sb, v, g');
  }

  /** The indirect block of `cur` and the blocks its entries name. */
  ghost function IndirectBlocks(g: Meta, cur: nat): (s: set<nat>) {
    set a | a in g.owner && g.owner[a].inum == cur && g.owner[a].k >= NDIRECT
  }

  ghost function UnlinkIndirect(g: Meta, cur: nat): (g': Meta)
    requires cur < |g.table| && NDIRECT < |g.table[cur].addrs|
  {
    Meta(SetAddr(g, cur, NDIRECT, 0), g.owner - IndirectBlocks(g, cur), g.loose + IndirectBlocks(g, cur))
  }

  lemma UnlinkIndirectStep(sb: Super, v: Image, g: Meta, cur: nat)
    requires FsInv(sb, v, g) && cur < |g.table|
    ensures FsInv(sb, v, UnlinkIndirect(g, cur))
  {
    hide Used;
    var g' := UnlinkIndirect(g, cur);
    assert forall j :: 0 <= j < NSLOTS ==>
      SlotAddr(v, g'.table[cur], j) == if j >= NDIRECT then 0 else SlotAddr(v, g.table[cur], j);
    hide SlotAddr;
    assert Linked(sb, v, g');
    assert Owned(sb, v, g');
  }

  // ---- Other inodes ----

  /** Nothing of any inode but `cur` has changed: its table entry, its bytes on disk, the
      blocks it owns and their contents. */
  ghost predicate OthersKept(sb: Super, cur: nat, v: Image, g: Meta, v': Image, g': Meta) {
    && |v'| == |v| && |g'.table| == |g.table|
    && (forall i :: 0 <= i < |g.table| && i != cur ==>
          g'.table[i] == g.table[i] && GetDinode(sb, v', i) == GetDinode(sb, v, i))
    && (forall a :: a in g.owner && g.owner[a].inum != cur ==>
          a in g'.owner && g'.owner[a] == g.owner[a] && BlockAt(v', a) == BlockAt(v, a))
    && (forall a :: a in g'.owner && g'.owner[a].inum != cur ==> a in g.owner && g.owner[a] == g'.owner[a])
  }

  lemma OthersTrans(sb: Super, cur: nat, v: Image, g: Meta, v1: Image, g1: Meta, v2: Image, g2: Meta)
    requires OthersKept(sb, cur, v, g, v1, g1) && OthersKept(sb, cur, v1, g1, v2, g2)
    ensures OthersKept(sb, cur, v, g, v2, g2)
  {
    hide GetDinode, BlockAt;
  }

  /** Writing one block that no other inode owns, outside the inode blocks. */
  lemma OthersKeptWrite(sb: Super, cur: nat, v: Image, g: Meta, t: nat, blk: Block)
    requires FsInv(sb, v, g) && t < |v| && sb.BitmapStart() <= t
    requires t in g.owner ==> g.owner[t].inum == cur
    ensures OthersKept(sb, cur, v, g, v[t := blk], g)
  {
    hide Linked, BitsOk, Word;
    forall i | 0 <= i < |g.table|
      ensures GetDinode(sb, v[t := blk], i) == GetDinode(sb, v, i)
    {
      assert sb.IBlock(i) < sb.BitmapStart();
    }
  }

  /** An unchanged inode reads the same bytes. */
  lemma OthersFiles(sb: Super, cur: nat, v: Image, g: Meta, v': Image, g': Meta, i: nat)
    requires FsInv(sb, v, g) && FsInv(sb, v', g') && OthersKept(sb, cur, v, g, v', g')
    requires i < |g.table| && i != cur && Shaped(v, g.table[i], g.table[i].size)
    ensures forall k :: 0 <= k < NSLOTS ==> SlotAddr(v', g.table[i], k) == SlotAddr(v, g.table[i], k)
    ensures Shaped(v', g.table[i], g.table[i].size)
    ensures FileBytes(v', g.table[i]) == FileBytes(v, g.table[i])
  {
    hide BitsOk, Word, GetDinode, Super.DataStart, Super.Valid, Super.LogStart, BlockAt;
    var d := g.table[i];
    assert SlotAddr(v, d, NDIRECT) == d.addrs[NDIRECT];
    assert d.addrs[NDIRECT] != 0 ==> BlockAt(v', d.addrs[NDIRECT]) == BlockAt(v, d.addrs[NDIRECT]);
    forall k | 0 <= k < NSLOTS
      ensures SlotAddr(v', d, k) == SlotAddr(v, d, k)
    {
    }
    forall bn | 0 <= bn < MAXFILE
      ensures Addr(v', d, bn) == Addr(v, d, bn)
    {
    }
    hide SlotAddr;
    forall j | 0 <= j < d.size
      ensures ByteAt(v', d, j) == ByteAt(v, d, j)
    {
      var a := SlotAddr(v, d, BlockSlot(j / BSIZE));
      assert Addr(v, d, j / BSIZE) == a && j / BSIZE * BSIZE < d.size;
      assert a in g.owner && g.owner[a] == Slot(i, BlockSlot(j / BSIZE));
    }
  }

  /** Every other file reads the same bytes. */
  ghost predicate OtherFilesSame(cur: nat, v: Image, g: Meta, v': Image, g': Meta) {
    && |g'.table| == |g.table|
    && forall i :: 0 <= i < |g.table| && i != cur ==>
         && g'.table[i] == g.table[i] && g.table[i].Valid() && g.table[i].size <= MAX_BYTES
         && FileBytes(v', g.table[i]) == FileBytes(v, g.table[i])
  }

  lemma QuietAfter(sb: Super, cur: nat, v: Image, g: Meta, v': Image, g': Meta)
    requires Quiet(sb, v, g, sb.ninodes) && FsInv(sb, v', g') && g'.loose == {} && cur < |g.table|
    requires OthersKept(sb, cur, v, g, v', g')
    requires Shaped(v', g'.table[cur], g'.table[cur].size) && GetDinode(sb, v', cur) == g'.table[cur]
    ensures Quiet(sb, v', g', sb.ninodes) && OtherFilesSame(cur, v, g, v', g')
  {
    hide Linked, Owned, BitsOk, Shaped, GetDinode, FileBytes;
    forall i | 0 <= i < |g.table| && i != cur
      ensures Shaped(v', g.table[i], g.table[i].size) && g.table[i].size <= MAX_BYTES
      ensures FileBytes(v', g.table[i]) == FileBytes(v, g.table[i])
    {
      ShapedSize(v, g.table[i], g.table[i].size);
      OthersFiles(sb, cur, v, g, v', g', i);
    }
  }

  lemma ShapedSize(v: Image, d: Dinode, size: nat)
    requires d.Valid() && Shaped(v, d, size)
    ensures size <= MAX_BYTES
  {
  }

  // ---- Allocation as one step ----

  ghost function FreeBlocks(sb: Super, v: Image): (s: set<nat>) {
    set b: nat | b < sb.LogStart() && !Used(sb, v, b)
  }

  /** block_alloc: mark the bit, zero the block. */
  ghost function AllocImage(sb: Super, v: Image, b: nat): (v': Image)
    requires sb.BBlock(b) < |v| && b < |v| && !Used(sb, v, b)
  {
    MarkUsed(sb, v, b)[b := Zeros(BSIZE)]
  }

  /** Every linked block and every inode on disk is as it was. */
  ghost predicate FilesKept(sb: Super, v: Image, v': Image, g: Meta) {
    && |v'| == |v|
    && (forall a :: a in g.owner ==> BlockAt(v', a) == BlockAt(v, a))
    && (forall i :: 0 <= i < sb.ninodes ==> GetDinode(sb, v', i) == GetDinode(sb, v, i))
  }

  lemma FilesKeptFrame(sb: Super, v: Image, v': Image, g: Meta, b: nat)
    requires FsInv(sb, v, g) && |v'| == |v| && b !in g.owner && sb.DataStart() <= b
    requires forall t :: 0 <= t < |v| && !(sb.BitmapStart() <= t < sb.DataStart()) && t != b ==> v'[t] == v[t]
    ensures FilesKept(sb, v, v', g)
  {
    hide Linked, BitsOk, Word;
    forall i | 0 <= i < sb.ninodes
      ensures GetDinode(sb, v', i) == GetDinode(sb, v, i)
    {
      assert sb.IBlock(i) < sb.BitmapStart();
    }
  }

  lemma AllocStep(sb: Super, v: Image, g: Meta, b: nat)
    requires FsInv(sb, v, g) && b < sb.LogStart() && !Used(sb, v, b)
    ensures sb.DataStart() <= b && b !in g.owner && b !in g.loose && sb.BBlock(b) < |v|
    ensures FsInv(sb, AllocImage(sb, v, b), g.(loose := g.loose + {b}))
    ensures FilesKept(sb, v, AllocImage(sb, v, b), g)
    ensures FreeBlocks(sb, AllocImage(sb, v, b)) == FreeBlocks(sb, v) - {b}
  {
    hide Used, MarkUsed, Linked, Owned, BitsOk;
    MarkStep(sb, v, g, b);
    MarkFrames(sb, v, b);
    var v1, g1 := MarkUsed(sb, v, b), g.(loose := g.loose + {b});
    WriteStep(sb, v1, g1, b, Zeros(BSIZE));
    FilesKeptFrame(sb, v, AllocImage(sb, v, b), g, b);
    forall c: nat | c < sb.LogStart()
      ensures Used(sb, AllocImage(sb, v, b), c) <==> c == b || Used(sb, v, c)
    {
      UsedAfterMark(sb, v, b, c);
    }
  }

  lemma FilesKeptFacts(sb: Super, cur: nat, v: Image, v': Image, g: Meta)
    requires FsInv(sb, v, g) && FilesKept(sb, v, v', g)
    ensures MapKept(v, v', g) && OthersKept(sb, cur, v, g, v', g)
    ensures forall l :: OthersKept(sb, cur, v, g, v', g.(loose := l))
  {
    hide Used, Linked, Owned, BitsOk, GetDinode, BlockAt;
    KeepMap(sb, v, v', g);
  }

  // ---- Contents of the locked inode ----

  function Patch(b: Block, lo: nat, data: seq<byte>): (r: Block)
    requires lo + |data| <= BSIZE
  {
    b[..lo] + data + b[lo + |data|..]
  }

  /** The memmove into a data block and the log_write that follows it. */
  lemma PatchStep(sb: Super, v: Image, g: Meta, cur: nat, bn: nat, lo: nat, data: seq<byte>)
    requires FsInv(sb, v, g) && cur < |g.table| && bn < MAXFILE && lo + |data| <= BSIZE
    requires Addr(v, g.table[cur], bn) != 0
    ensures Addr(v, g.table[cur], bn) < |v|
    ensures var a := Addr(v, g.table[cur], bn);
            var v' := v[a := Patch(v[a], lo, data)];
            && FsInv(sb, v', g) && MapKept(v, v', g) && OthersKept(sb, cur, v, g, v', g)
            && sb.DataStart() <= a && (forall b :: 0 <= b < sb.LogStart() ==> (Used(sb, v', b) <==> Used(sb, v, b)))
  {
    hide BitsOk, Used, SlotAddr, MapKept, Patch;
    var a := Addr(v, g.table[cur], bn);
    assert a == SlotAddr(v, g.table[cur], BlockSlot(bn));
    assert a in g.owner && g.owner[a] == Slot(cur, BlockSlot(bn));
    WriteStep(sb, v, g, a, Patch(v[a], lo, data));
    OthersKeptWrite(sb, cur, v, g, a, Patch(v[a], lo, data));
  }

  lemma PatchBytes(sb: Super, v: Image, g: Meta, cur: nat, bn: nat, lo: nat, data: seq<byte>, i: nat)
    requires FsInv(sb, v, g) && cur < |g.table| && bn < MAXFILE && lo + |data| <= BSIZE
    requires Addr(v, g.table[cur], bn) != 0 && Addr(v, g.table[cur], bn) < |v|
    requires i < MAX_BYTES && Addr(v, g.table[cur], i / BSIZE) != 0
    requires var a := Addr(v, g.table[cur], bn); MapKept(v, v[a := Patch(v[a], lo, data)], g)
    ensures var a := Addr(v, g.table[cur], bn);
            ByteAt(v[a := Patch(v[a], lo, data)], g.table[cur], i)
            == if i / BSIZE == bn && lo <= i % BSIZE < lo + |data| then data[i % BSIZE - lo]
               else ByteAt(v, g.table[cur], i)
  {
    hide BitsOk, Owned, SlotAddr;
    var d := g.table[cur];
    var a := Addr(v, d, bn);
    var v' := v[a := Patch(v[a], lo, data)];
    var c := SlotAddr(v, d, BlockSlot(i / BSIZE));
    assert c in g.owner && g.owner[c] == Slot(cur, BlockSlot(i / BSIZE));
    assert SlotAddr(v, d, BlockSlot(bn)) in g.owner && g.owner[a] == Slot(cur, BlockSlot(bn));
    assert Addr(v', d, i / BSIZE) == SlotAddr(v', d, BlockSlot(i / BSIZE)) == c;
  }

  // ---- Growing the locked inode ----

  /** Blocks may have been added to `cur`; nothing it had, and nothing of any other inode,
      has moved or changed. */
  ghost predicate Grown(sb: Super, cur: nat, v: Image, g: Meta, v': Image, g': Meta)
    requires TableOk(sb, g) && TableOk(sb, g') && cur < |g.table|
  {
    && OthersKept(sb, cur, v, g, v', g')
    && GetDinode(sb, v', cur) == GetDinode(sb, v, cur)
    && g'.table[cur] == g.table[cur].(addrs := g'.table[cur].addrs)
    && (forall k :: 0 <= k < NSLOTS && SlotAddr(v, g.table[cur], k) != 0 ==>
          SlotAddr(v', g'.table[cur], k) == SlotAddr(v, g.table[cur], k))
    && (forall a :: a in g.owner && g.owner[a].inum == cur ==>
          a in g'.owner && g'.owner[a] == g.owner[a] && (g.owner[a].k != NDIRECT ==> BlockAt(v', a) == BlockAt(v, a)))
  }

  lemma GrownTrans(sb: Super, cur: nat, v: Image, g: Meta, v1: Image, g1: Meta, v2: Image, g2: Meta)
    requires TableOk(sb, g) && TableOk(sb, g1) && TableOk(sb, g2) && cur < |g.table|
    requires Grown(sb, cur, v, g, v1, g1) && Grown(sb, cur, v1, g1, v2, g2)
    ensures Grown(sb, cur, v, g, v2, g2)
  {
    hide OthersKept, SlotAddr, GetDinode, BlockAt;
    OthersTrans(sb, cur, v, g, v1, g1, v2, g2);
  }

  lemma GrownAlloc(sb: Super, cur: nat, v: Image, g: Meta, b: nat)
    requires FsInv(sb, v, g) && b < sb.LogStart() && !Used(sb, v, b) && cur < |g.table|
    ensures sb.BBlock(b) < |v|
    ensures Grown(sb, cur, v, g, AllocImage(sb, v, b), g.(loose := g.loose + {b}))
  {
    hide Linked, Owned, BitsOk, GetDinode, BlockAt, Used, AllocImage, SlotAddr;
    AllocStep(sb, v, g, b);
    FilesKeptFacts(sb, cur, v, AllocImage(sb, v, b), g);
  }

  lemma GrownLink(sb: Super, cur: nat, v: Image, g: Meta, k: nat, a: word)
    requires FsInv(sb, v, g) && cur < |g.table| && k <= NDIRECT && a in g.loose
    requires g.table[cur].addrs[k] == 0
    requires OneSlotSet(v, g, v, LinkDirect(g, cur, k, a), cur, k, a)
    ensures TableOk(sb, LinkDirect(g, cur, k, a))
    ensures Grown(sb, cur, v, g, v, LinkDirect(g, cur, k, a))
  {
    hide Linked, Owned, GetDinode, BlockAt, Used;
    assert SlotAddr(v, g.table[cur], k) == 0;
    hide SlotAddr;
  }

  lemma GrownEntry(sb: Super, cur: nat, v: Image, g: Meta, j: nat, a: word)
    requires FsInv(sb, v, g) && cur < |g.table| && j < NINDIRECT && a in g.loose
    requires g.table[cur].addrs[NDIRECT] != 0 && g.table[cur].addrs[NDIRECT] < |v|
    requires SlotAddr(v, g.table[cur], NDIRECT + 1 + j) == 0
    requires OneSlotSet(v, g, PutEntry(v, g.table[cur], j, a), LinkEntry(g, cur, j, a), cur, NDIRECT + 1 + j, a)
    ensures Grown(sb, cur, v, g, PutEntry(v, g.table[cur], j, a), LinkEntry(g, cur, j, a))
  {
    hide Linked, Owned, BitsOk, Used, SlotAddr, GetDinode, Super.BitmapStart, Super.DataStart, Super.IBlock,
         Super.LogStart;
    var ind, v' := g.table[cur].addrs[NDIRECT], PutEntry(v, g.table[cur], j, a);
    IndirectOwned(sb, v, g, cur);
    EntryFacts(sb, v, g, cur, a);
    OthersKeptWrite(sb, cur, v, g, ind, SetWord(v[ind], j, a));
    OthersKeptLink(sb, cur, v, g, v', LinkEntry(g, cur, j, a), Slot(cur, NDIRECT + 1 + j), a);
    DinodeFrame(sb, v, v', cur);
  }

  lemma EntryFacts(sb: Super, v: Image, g: Meta, cur: nat, a: nat)
    requires FsInv(sb, v, g) && cur < |g.table| && a in g.loose && sb.DataStart() <= g.table[cur].addrs[NDIRECT]
    ensures sb.IBlock(cur) < sb.BitmapStart() <= g.table[cur].addrs[NDIRECT] && a !in g.owner
  {
    hide Linked, Owned, Used;
  }

  lemma OthersKeptLink(sb: Super, cur: nat, v: Image, g: Meta, v': Image, g': Meta, s: Slot, a: nat)
    requires OthersKept(sb, cur, v, g, v', g) && s.inum == cur && a !in g.owner
    requires g'.table == g.table && g'.owner == g.owner[a := s]
    ensures OthersKept(sb, cur, v, g, v', g')
  {
    hide GetDinode, BlockAt;
  }

  lemma DinodeFrame(sb: Super, v: Image, v': Image, i: nat)
    requires |v'| == |v| && BlockAt(v', sb.IBlock(i)) == BlockAt(v, sb.IBlock(i))
    ensures GetDinode(sb, v', i) == GetDinode(sb, v, i)
  {
    hide Word;
  }

  /** The bytes of the blocks the file had survive growth. */
  lemma GrownBytes(sb: Super, cur: nat, v: Image, g: Meta, v': Image, g': Meta, nb: nat, i: nat)
    requires FsInv(sb, v, g) && TableOk(sb, g') && cur < |g.table| && Grown(sb, cur, v, g, v', g')
    requires Extent(v, g.table[cur], nb) && i < nb * BSIZE
    ensures i < MAX_BYTES && ByteAt(v', g'.table[cur], i) == ByteAt(v, g.table[cur], i)
  {
    hide BitsOk, Owned, OthersKept, SlotAddr, GetDinode, BlockAt;
    var k := BlockSlot(i / BSIZE);
    assert i / BSIZE < nb;
    assert Addr(v, g.table[cur], i / BSIZE) == SlotAddr(v, g.table[cur], k);
  }

  ghost predicate SameSlotsBut(v: Image, d: Dinode, v': Image, d': Dinode, k: nat, a: word)
    requires d.Valid() && d'.Valid()
  {
    forall j :: 0 <= j < NSLOTS ==> SlotAddr(v', d', j) == if j == k then a else SlotAddr(v, d, j)
  }

  lemma ExtentGrow(v: Image, d: Dinode, v': Image, d': Dinode, bn: nat, a: word)
    requires d.Valid() && d'.Valid() && bn < MAXFILE && Extent(v, d, bn) && a != 0
    requires SameSlotsBut(v, d, v', d', BlockSlot(bn), a)
    ensures Extent(v', d', bn + 1) && Addr(v', d', bn) == a && d'.addrs[NDIRECT] == d.addrs[NDIRECT]
  {
    assert SlotAddr(v', d', NDIRECT) == d'.addrs[NDIRECT] && SlotAddr(v, d, NDIRECT) == d.addrs[NDIRECT];
    hide SlotAddr;
    forall i | 0 <= i < MAXFILE
      ensures Addr(v', d', i) == if i == bn then a else Addr(v, d, i)
    {
    }
  }

  lemma ExtentIndirect(v: Image, d: Dinode, v': Image, d': Dinode, bn: nat, a: word)
    requires d.Valid() && d'.Valid() && Extent(v, d, bn)
    requires SameSlotsBut(v, d, v', d', NDIRECT, a)
    ensures Extent(v', d', bn) && d'.addrs[NDIRECT] == a
  {
    assert SlotAddr(v', d', NDIRECT) == d'.addrs[NDIRECT];
    hide SlotAddr;
    forall i | 0 <= i < MAXFILE
      ensures Addr(v', d', i) == Addr(v, d, i)
    {
    }
  }

  /** A fresh block has been added in slot `k` of `cur`. */
  ghost predicate Added(sb: Super, cur: nat, v: Image, g: Meta, v': Image, g': Meta, k: nat, a: word) {
    && FsInv(sb, v, g) && FsInv(sb, v', g') && g'.loose == {} && cur < |g.table|
    && Grown(sb, cur, v, g, v', g')
    && 0 < a && a in FreeBlocks(sb, v) && FreeBlocks(sb, v') == FreeBlocks(sb, v) - {a}
    && SameSlotsBut(v, g.table[cur], v', g'.table[cur], k, a)
  }

  ghost function AddDirect(g: Meta, cur: nat, k: nat, a: word): (g': Meta)
    requires cur < |g.table| && k < |g.table[cur].addrs|
  {
    LinkDirect(g.(loose := g.loose + {a}), cur, k, a)
  }

  lemma AddDirectStep(sb: Super, cur: nat, v: Image, g: Meta, k: nat, a: word)
    requires FsInv(sb, v, g) && g.loose == {} && cur < |g.table| && k <= NDIRECT
    requires g.table[cur].addrs[k] == 0 && a < sb.LogStart() && !Used(sb, v, a)
    ensures sb.BBlock(a) < |v| && Added(sb, cur, v, g, AllocImage(sb, v, a), AddDirect(g, cur, k, a), k, a)
  {
    hide Linked, Owned, BitsOk, Used, GetDinode, SlotAddr, Grown, OthersKept, FilesKept;
    AllocStep(sb, v, g, a);
    GrownAlloc(sb, cur, v, g, a);
    var v1, g1 := AllocImage(sb, v, a), g.(loose := g.loose + {a});
    LinkDirectStep(sb, v1, g1, cur, k, a);
    GrownLink(sb, cur, v1, g1, k, a);
    GrownTrans(sb, cur, v, g, v1, g1, v1, AddDirect(g, cur, k, a));
    FilesKeptFacts(sb, cur, v, v1, g);
  }

  ghost function AddEntry(g: Meta, cur: nat, j: nat, a: word): (g': Meta) {
    LinkEntry(g.(loose := g.loose + {a}), cur, j, a)
  }

  lemma AddEntryStep(sb: Super, cur: nat, v: Image, g: Meta, j: nat, a: word)
    requires FsInv(sb, v, g) && g.loose == {} && cur < |g.table| && j < NINDIRECT
    requires g.table[cur].addrs[NDIRECT] != 0 && SlotAddr(v, g.table[cur], NDIRECT + 1 + j) == 0
    requires a < sb.LogStart() && !Used(sb, v, a)
    ensures sb.BBlock(a) < |v| && g.table[cur].addrs[NDIRECT] < |v|
    ensures Added(sb, cur, v, g, PutEntry(AllocImage(sb, v, a), g.table[cur], j, a),
                  AddEntry(g, cur, j, a), NDIRECT + 1 + j, a)
  {
    hide Linked, Owned, BitsOk, Used, GetDinode, SlotAddr, Grown, OthersKept, FilesKept, PutEntry;
    IndirectOwned(sb, v, g, cur);
    AllocStep(sb, v, g, a);
    GrownAlloc(sb, cur, v, g, a);
    FilesKeptFacts(sb, cur, v, AllocImage(sb, v, a), g);
    var v1, g1 := AllocImage(sb, v, a), g.(loose := g.loose + {a});
    LinkEntryStep(sb, v1, g1, cur, j, a);
    GrownEntry(sb, cur, v1, g1, j, a);
    var v2 := PutEntry(v1, g.table[cur], j, a);
    GrownTrans(sb, cur, v, g, v1, g1, v2, AddEntry(g, cur, j, a));
    PutEntryBits(sb, v1, g1, cur, j, a);
  }

  lemma PutEntryBits(sb: Super, v: Image, g: Meta, cur: nat, j: nat, a: word)
    requires FsInv(sb, v, g) && cur < |g.table| && j < NINDIRECT && g.table[cur].addrs[NDIRECT] != 0
    ensures g.table[cur].addrs[NDIRECT] < |v|
    ensures FreeBlocks(sb, PutEntry(v, g.table[cur], j, a)) == FreeBlocks(sb, v)
  {
    hide Linked, Owned, BitsOk, Used;
    IndirectOwned(sb, v, g, cur);
    KeepBits(sb, v, PutEntry(v, g.table[cur], j, a), g);
  }

  // ---- Truncation ----

  /** The owner map without the slots of `cur` that satisfy lo <= k < hi. */
  ghost function Without(owner: map<nat, Slot>, cur: nat, lo: nat, hi: nat): (o: map<nat, Slot>) {
    map a | a in owner && !(owner[a].inum == cur && lo <= owner[a].k < hi) :: owner[a]
  }

  ghost function FreeDirect(g: Meta, cur: nat, k: nat): (g': Meta)
    requires cur < |g.table| && k < |g.table[cur].addrs|
  {
    UnlinkDirect(g, cur, k).(loose := g.loose)
  }

  /** block_free of direct block `k` and the zeroing of its address. */
  lemma FreeDirectStep(sb: Super, cur: nat, v: Image, g: Meta, k: nat)
    requires FsInv(sb, v, g) && g.loose == {} && cur < |g.table| && k < NDIRECT && g.table[cur].addrs[k] != 0
    ensures var a := g.table[cur].addrs[k];
            && a < sb.LogStart() && Used(sb, v, a) && sb.BBlock(a) < |v|
            && FsInv(sb, MarkFree(sb, v, a), FreeDirect(g, cur, k))
            && OthersKept(sb, cur, v, g, MarkFree(sb, v, a), FreeDirect(g, cur, k))
            && FreeDirect(g, cur, k).owner == Without(g.owner, cur, k, k + 1)
  {
    hide BitsOk, Used, MarkFree, SlotAddr;
    var a := g.table[cur].addrs[k];
    DirectOwned(sb, v, g, cur, k);
    UnlinkDirectStep(sb, v, g, cur, k);
    var g1 := UnlinkDirect(g, cur, k);
    FreeStep(sb, v, g1, a);
    assert g1.loose - {a} == g.loose;
    assert g1.(loose := g1.loose - {a}) == FreeDirect(g, cur, k);
    MarkFrames(sb, v, a);
    OthersKeptFree(sb, cur, v, g, MarkFree(sb, v, a), FreeDirect(g, cur, k));
    FreeDirectOwner(sb, cur, v, g, k);
  }

  lemma FreeDirectOwner(sb: Super, cur: nat, v: Image, g: Meta, k: nat)
    requires FsInv(sb, v, g) && cur < |g.table| && k < NDIRECT && g.table[cur].addrs[k] != 0
    ensures FreeDirect(g, cur, k).owner == Without(g.owner, cur, k, k + 1)
  {
    hide BitsOk, Used, SlotAddr, Linked;
    var a := g.table[cur].addrs[k];
    DirectOwned(sb, v, g, cur, k);
    forall x | x in g.owner && g.owner[x].inum == cur && g.owner[x].k == k
      ensures x == a
    {
      SlotValue(v, g.table[cur], k);
    }
  }

  lemma SlotValue(v: Image, d: Dinode, k: nat)
    requires d.Valid() && k <= NDIRECT
    ensures SlotAddr(v, d, k) == d.addrs[k]
  {
  }

  lemma DirectOwned(sb: Super, v: Image, g: Meta, cur: nat, k: nat)
    requires FsInv(sb, v, g) && cur < |g.table| && k <= NDIRECT && g.table[cur].addrs[k] != 0
    ensures var a := g.table[cur].addrs[k]; a in g.owner && g.owner[a] == Slot(cur, k)
  {
    assert SlotAddr(v, g.table[cur], k) == g.table[cur].addrs[k];
  }

  /** Only bitmap blocks differ, and only blocks of `cur` left the owner map. */
  lemma OthersKeptFree(sb: Super, cur: nat, v: Image, g: Meta, v': Image, g': Meta)
    requires FsInv(sb, v, g) && BitmapFrame(sb, v, v') && |g'.table| == |g.table|
    requires forall i :: 0 <= i < |g.table| && i != cur ==> g'.table[i] == g.table[i]
    requires forall a :: a in g'.owner ==> a in g.owner && g'.owner[a] == g.owner[a]
    requires forall a :: a in g.owner && g.owner[a].inum != cur ==> a in g'.owner
    ensures OthersKept(sb, cur, v, g, v', g')
  {
    hide Linked, BitsOk, SlotAddr, GetDinode;
    forall i | 0 <= i < |g.table|
      ensures GetDinode(sb, v', i) == GetDinode(sb, v, i)
    {
      assert sb.IBlock(i) < sb.BitmapStart();
      DinodeFrame(sb, v, v', i);
    }
  }

  /** Which bits are clear follows from the owner map. */
  lemma FreeFromOwner(sb: Super, v: Image, g: Meta)
    requires FsInv(sb, v, g) && g.loose == {}
    ensures FreeBlocks(sb, v) == set b: nat | sb.DataStart() <= b < sb.LogStart() && b !in g.owner
  {
    hide Linked, Owned, Used;
  }

  /** `lo` and later slots of `cur`, and its indirect block: what truncation still has to free. */
  ghost function Rest(g: Meta, cur: nat, lo: nat): (s: set<nat>) {
    set a | a in g.owner && g.owner[a].inum == cur && (g.owner[a].k == NDIRECT || lo <= g.owner[a].k)
  }

  /** Freeing the block of indirect entry `j`, after the indirect block has been unlinked. */
  lemma FreeEntryStep(sb: Super, cur: nat, v0: Image, g0: Meta, v: Image, g: Meta, j: nat, a: nat)
    requires FsInv(sb, v0, g0) && cur < |g0.table| && j < NINDIRECT
    requires g0.table[cur].addrs[NDIRECT] != 0 && a == SlotAddr(v0, g0.table[cur], NDIRECT + 1 + j)
    requires FsInv(sb, v, g) && g.loose == Rest(g0, cur, NDIRECT + 1 + j)
    ensures a == 0 ==> g.loose == Rest(g0, cur, NDIRECT + 2 + j)
    ensures a != 0 ==> a in g.loose && g.loose - {a} == Rest(g0, cur, NDIRECT + 2 + j)
  {
    hide BitsOk, SlotAddr;
    assert forall x :: x in g0.owner && g0.owner[x] == Slot(cur, NDIRECT + 1 + j) ==> x == a && a != 0;
  }

  lemma RestAll(sb: Super, cur: nat, v: Image, g: Meta)
    requires FsInv(sb, v, g) && cur < |g.table| && g.table[cur].addrs[NDIRECT] != 0
    ensures IndirectBlocks(g, cur) == Rest(g, cur, NDIRECT + 1)
    ensures Rest(g, cur, NSLOTS) == {g.table[cur].addrs[NDIRECT]}
  {
    hide BitsOk;
    IndirectOwned(sb, v, g, cur);
    forall x | x in Rest(g, cur, NSLOTS)
      ensures x == g.table[cur].addrs[NDIRECT]
    {
      assert SlotAddr(v, g.table[cur], NDIRECT) == g.table[cur].addrs[NDIRECT];
    }
  }
}
