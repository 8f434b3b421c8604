/** The on-disk layout of kern/fs: superblock numbers, the free bitmap, the inode blocks and
    the direct/indirect block map, all read out of raw 512-byte blocks, together with the
    invariant that ties the bitmap to the blocks the inodes reach. */
module FsLayout {
  import opened Bytes
  import opened LogMachine

  const NDIRECT := 12
  const NINDIRECT := 128
  /** NDIRECT + NINDIRECT blocks. */
  const MAXFILE := 140
  /** MAXFILE * BSIZE. */
  const MAX_BYTES := 71680
  const IPB := 8
  /** BSIZE * 8 bits. */
  const BPB := 4096
  /** Slots of one inode: NDIRECT + 1 addresses, then the entries of its indirect block. */
  const NSLOTS := 141

  datatype Super = Super(size: nat, ninodes: nat, nlog: nat) {
    function LogStart(): int {
      size - nlog
    }

    function BitmapStart(): nat {
      ninodes / IPB + 3
    }

    /** The blocks mkfs marks before any file is written. */
    function DataStart(): (n: nat)
      ensures n > 0
    {
      BitmapStart() + size / BPB + 1
    }

    function BBlock(b: nat): nat {
      b / BPB + BitmapStart()
    }

    function IBlock(inum: nat): nat {
      inum / IPB + 2
    }

    predicate Valid() {
      1 <= nlog && DataStart() <= LogStart() && size <= WORD_LIMIT
    }
  }

  /** Home sectors: everything below the log. */
  type Image = seq<Block>

  function BlockAt(v: Image, a: nat): (b: Block) {
    if a < |v| then v[a] else Zeros(BSIZE)
  }

  // ---- Bitmap ----

  predicate Used(sb: Super, v: Image, b: nat) {
    Bit(BlockAt(v, sb.BBlock(b)), b % BPB)
  }

  // ---- Inodes ----

  /** struct dinode; type and major share `kind`, minor and nlink share `links`. */
  datatype Dinode = Dinode(kind: word, links: word, size: word, addrs: seq<word>) {
    predicate Valid() {
      |addrs| == NDIRECT + 1
    }

    function ToWord(j: nat): (w: word)
      requires Valid() && j < 16
    {
      if j == 0 then kind else if j == 1 then links else if j == 2 then size else addrs[j - 3]
    }
  }

  function DinodeWord(b: Block, at: nat, j: nat): (w: word)
    requires at < IPB && j < 16
  {
    Word(b, 16 * at + j)
  }

  /** The dinode in slot `at` of an inode block. */
  function DinodeIn(b: Block, at: nat): (d: Dinode)
    requires at < IPB
    ensures d.Valid()
  {
    Dinode(DinodeWord(b, at, 0), DinodeWord(b, at, 1), DinodeWord(b, at, 2),
           seq(NDIRECT + 1, k requires 0 <= k <= NDIRECT => DinodeWord(b, at, 3 + k)))
  }

  function GetDinode(sb: Super, v: Image, inum: nat): (d: Dinode)
    ensures d.Valid()
  {
    DinodeIn(BlockAt(v, sb.IBlock(inum)), inum % IPB)
  }

  /** The structure copy of inode_update, word by word from word `j` on. */
  function PutDinode(b: Block, at: nat, d: Dinode, j: nat): (r: Block)
    requires d.Valid() && at < IPB && j <= 16
    decreases 16 - j
  {
    if j == 16 then b else PutDinode(SetWord(b, 16 * at + j, d.ToWord(j)), at, d, j + 1)
  }

  lemma {:induction false} PutDinodeWords(b: Block, at: nat, d: Dinode, j: nat, i: nat)
    requires d.Valid() && at < IPB && j <= 16 && i < BSIZE / 4
    ensures Word(PutDinode(b, at, d, j), i)
            == if 16 * at + j <= i < 16 * at + 16 then d.ToWord(i - 16 * at) else Word(b, i)
    decreases 16 - j
  {
    if j < 16 {
      WordOfSetWord(b, 16 * at + j, d.ToWord(j), i);
      PutDinodeWords(SetWord(b, 16 * at + j, d.ToWord(j)), at, d, j + 1, i);
    }
  }

  lemma DinodeInOfPut(b: Block, at: nat, d: Dinode, at': nat)
    requires d.Valid() && at < IPB && at' < IPB
    ensures DinodeIn(PutDinode(b, at, d, 0), at') == if at' == at then d else DinodeIn(b, at')
  {
    hide Word, PutDinode;
    var r := PutDinode(b, at, d, 0);
    forall j | 0 <= j < 16
      ensures DinodeWord(r, at', j) == if at' == at then d.ToWord(j) else DinodeWord(b, at', j)
    {
      PutDinodeWords(b, at, d, 0, 16 * at' + j);
    }
    hide DinodeWord;
    if at' == at {
      assert DinodeIn(r, at').addrs == d.addrs;
    } else {
      assert DinodeIn(r, at').addrs == DinodeIn(b, at').addrs;
    }
  }

  /** inode_update then inode_lock's load: the inode comes back, its neighbours in the same
      block and everywhere else are untouched. */
  lemma DinodeRoundTrip(sb: Super, v: Image, inum: nat, d: Dinode, i: nat)
    requires d.Valid() && sb.IBlock(inum) < |v|
    ensures var b := sb.IBlock(inum);
            GetDinode(sb, v[b := PutDinode(v[b], inum % IPB, d, 0)], i)
            == if i == inum then d else GetDinode(sb, v, i)
  {
    hide PutDinode, DinodeIn;
    DinodeInOfPut(v[sb.IBlock(inum)], inum % IPB, d, i % IPB);
    assert i == inum <==> i / IPB == inum / IPB && i % IPB == inum % IPB;
  }

  // ---- Block map ----

  function SlotAddr(v: Image, d: Dinode, k: nat): (a: word)
    requires d.Valid() && k < NSLOTS
  {
    if k <= NDIRECT then d.addrs[k]
    else if d.addrs[NDIRECT] == 0 then 0
    else Word(BlockAt(v, d.addrs[NDIRECT]), k - NDIRECT - 1)
  }

  /** The slot that holds the address of file block `bn`. */
  function BlockSlot(bn: nat): (k: nat)
    ensures k != NDIRECT && (bn < MAXFILE ==> k < NSLOTS)
  {
    if bn < NDIRECT then bn else bn + 1
  }

  function Addr(v: Image, d: Dinode, bn: nat): (a: word)
    requires d.Valid() && bn < MAXFILE
  {
    SlotAddr(v, d, BlockSlot(bn))
  }

  function ByteAt(v: Image, d: Dinode, i: nat): (c: byte)
    requires d.Valid() && i < MAX_BYTES
  {
    BlockAt(v, Addr(v, d, i / BSIZE))[i % BSIZE]
  }

  function FileBytes(v: Image, d: Dinode): (s: seq<byte>)
    requires d.Valid() && d.size <= MAX_BYTES
    ensures |s| == d.size
  {
    seq(d.size, i requires 0 <= i < d.size => ByteAt(v, d, i))
  }

  // ---- The invariant ----

  type Table = seq<Dinode>
  datatype Slot = Slot(inum: nat, k: nat)

  /** What the file system knows beside the image: the inode table with the locked inode's
      in-memory copy in place, the owner of each linked block, and the blocks that are
      allocated but not (or no longer) linked. */
  datatype Meta = Meta(table: Table, owner: map<nat, Slot>, loose: set<nat>)

  ghost predicate TableOk(sb: Super, g: Meta) {
    |g.table| == sb.ninodes && forall i :: 0 <= i < |g.table| ==> g.table[i].Valid()
  }

  /** Every address an inode holds is a block owned by exactly that slot. */
  ghost predicate Linked(sb: Super, v: Image, g: Meta)
    requires TableOk(sb, g)
  {
    forall i, k :: 0 <= i < |g.table| && 0 <= k < NSLOTS && SlotAddr(v, g.table[i], k) != 0 ==>
      SlotAddr(v, g.table[i], k) in g.owner && g.owner[SlotAddr(v, g.table[i], k)] == Slot(i, k)
  }

  /** Every owned block is a data block that its owner's slot points to. */
  ghost predicate Owned(sb: Super, v: Image, g: Meta)
    requires TableOk(sb, g)
  {
    forall a :: a in g.owner ==>
      && sb.DataStart() <= a < sb.LogStart()
      && g.owner[a].inum < |g.table| && g.owner[a].k < NSLOTS
      && SlotAddr(v, g.table[g.owner[a].inum], g.owner[a].k) == a
  }

  /** Conservation: the set bits are the metadata, the owned blocks and the loose blocks. */
  ghost predicate BitsOk(sb: Super, v: Image, g: Meta) {
    && (forall b :: 0 <= b < sb.LogStart() ==>
          (Used(sb, v, b) <==> b < sb.DataStart() || b in g.owner || b in g.loose))
    && (forall b :: b in g.loose ==> sb.DataStart() <= b < sb.LogStart() && b !in g.owner)
  }

  ghost predicate FsInv(sb: Super, v: Image, g: Meta) {
    && sb.Valid() && |v| == sb.LogStart()
    && TableOk(sb, g) && Linked(sb, v, g) && Owned(sb, v, g) && BitsOk(sb, v, g)
  }

  /** Blocks needed to hold `n` bytes. */
  function Blocks(n: nat): (bn: nat) {
    (n + BSIZE - 1) / BSIZE
  }

  /** Exactly the first `bn` file blocks have addresses. */
  ghost predicate Extent(v: Image, d: Dinode, bn: nat)
    requires d.Valid()
  {
    bn <= MAXFILE && forall i :: 0 <= i < MAXFILE ==> (Addr(v, d, i) != 0 <==> i < bn)
  }

  /** ... and the indirect block is there exactly when they need it. */
  ghost predicate Exact(v: Image, d: Dinode, bn: nat)
    requires d.Valid()
  {
    Extent(v, d, bn) && (d.addrs[NDIRECT] != 0 <==> NDIRECT < bn)
  }

  /** The addresses present are exactly those a file of `size` bytes needs. */
  ghost predicate Shaped(v: Image, d: Dinode, size: nat)
    requires d.Valid()
  {
    size <= MAX_BYTES && Exact(v, d, Blocks(size))
  }

  /** A consistent file system at rest; `cur` is the locked inode, whose copy may be newer. */
  ghost predicate Quiet(sb: Super, v: Image, g: Meta, cur: nat) {
    && FsInv(sb, v, g) && g.loose == {}
    && (forall i :: 0 <= i < |g.table| ==> Shaped(v, g.table[i], g.table[i].size))
    && (forall i :: 0 <= i < |g.table| && i != cur ==> GetDinode(sb, v, i) == g.table[i])
  }
}
