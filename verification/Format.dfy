/** An image with no files, as kern/fs/mkfs.c lays it out before it adds any, and mounting it. */
module Format {
  import opened Bytes
  import opened LogMachine
  import opened FsLayout
  import opened FsSteps
  import opened Fs
  import L = Log

  function NoInode(): Dinode {
    Dinode(0, 0, 0, seq(NDIRECT + 1, _ => 0))
  }

  ghost function NoFiles(sb: Super): Meta {
    Meta(seq(sb.ninodes, _ => NoInode()), map[], {})
  }

  lemma {:induction false} NoBits(k: nat)
    ensures !HasBit(0, k)
  {
    if k > 0 {
      NoBits(k - 1);
    }
  }

  /** The loop of balloc: the first `used` bits are set and no others. */
  method BitmapBlock(used: nat) returns (buf: Block)
    requires used < BPB
    ensures forall j :: 0 <= j < BPB ==> (Bit(buf, j) <==> j < used)
  {
    hide Bit;
    buf := Zeros(BSIZE);
    forall j | 0 <= j < BPB
      ensures !Bit(buf, j)
    {
      ClearByte(buf, j);
    }
    var i := 0;
    while i < used
      invariant 0 <= i <= used
      invariant forall j :: 0 <= j < BPB ==> (Bit(buf, j) <==> j < i)
    {
      forall j | 0 <= j < BPB
        ensures Bit(SetBit(buf, i), j) <==> j == i || Bit(buf, j)
      {
        BitOfSetBit(buf, i, j);
      }
      buf := SetBit(buf, i);
      i := i + 1;
    }
  }

  lemma ClearByte(b: Block, j: nat)
    requires j < BPB && b[j / 8] == 0
    ensures !Bit(b, j)
  {
    NoBits(j % 8);
  }

  /** Such an image satisfies the file system invariant: the set bits are exactly the metadata. */
  lemma BlankIsQuiet(sb: Super, v: Image)
    requires sb.Valid() && |v| == sb.LogStart() && sb.DataStart() < BPB
    requires forall j :: 0 <= j < BPB ==> (Bit(v[sb.BitmapStart()], j) <==> j < sb.DataStart())
    requires forall b :: 0 <= b < |v| && b != sb.BitmapStart() && b != 1 ==> v[b] == Zeros(BSIZE)
    ensures Quiet(sb, v, NoFiles(sb), sb.ninodes)
  {
    hide Bit, Word, Zeros;
    var g := NoFiles(sb);
    forall i, k | 0 <= i < |g.table| && 0 <= k < NSLOTS
      ensures SlotAddr(v, g.table[i], k) == 0
    {
    }
    forall i | 0 <= i < |g.table|
      ensures GetDinode(sb, v, i) == g.table[i] && Shaped(v, g.table[i], g.table[i].size)
    {
      BlankInode(sb, v, i);
    }
    forall b | 0 <= b < sb.LogStart()
      ensures Used(sb, v, b) <==> b < sb.DataStart()
    {
      BlankBit(sb, v, b);
    }
  }

  lemma BlankInode(sb: Super, v: Image, i: nat)
    requires sb.Valid() && |v| == sb.LogStart() && i < sb.ninodes
    requires forall b :: 0 <= b < |v| && b != sb.BitmapStart() && b != 1 ==> v[b] == Zeros(BSIZE)
    ensures GetDinode(sb, v, i) == NoInode()
  {
    assert 1 < sb.IBlock(i) < sb.BitmapStart();
    var b := BlockAt(v, sb.IBlock(i));
    forall j | 0 <= j < 16
      ensures DinodeWord(b, i % IPB, j) == 0
    {
      WordOfZeros(BSIZE, 16 * (i % IPB) + j);
    }
    hide DinodeWord;
    assert DinodeIn(b, i % IPB).addrs == NoInode().addrs;
  }

  lemma BlankBit(sb: Super, v: Image, b: nat)
    requires sb.Valid() && |v| == sb.LogStart() && sb.DataStart() < BPB && b < sb.LogStart()
    requires forall j :: 0 <= j < BPB ==> (Bit(v[sb.BitmapStart()], j) <==> j < sb.DataStart())
    requires forall b :: 0 <= b < |v| && b != sb.BitmapStart() && b != 1 ==> v[b] == Zeros(BSIZE)
    ensures Used(sb, v, b) <==> b < sb.DataStart()
  {
    hide Bit;
    if b < BPB {
      assert sb.BBlock(b) == sb.BitmapStart() && b % BPB == b;
    } else {
      ClearByte(Zeros(BSIZE), b % BPB);
    }
  }

  /** The sectors below the log, with superblock sector `s1`. */
  method Mkfs(sb: Super, s1: Block) returns (v: Image)
    requires sb.Valid() && sb.DataStart() < BPB
    ensures |v| == sb.LogStart() && v[1] == s1 && Quiet(sb, v, NoFiles(sb), sb.ninodes)
  {
    hide Quiet, Bit;
    var buf := BitmapBlock(sb.BitmapStart() + sb.size / BPB + 1);
    v := seq(sb.LogStart(), _ => Zeros(BSIZE));
    v := v[1 := s1];
    v := v[sb.BitmapStart() := buf];
    BlankIsQuiet(sb, v);
  }

  /** Mounting the empty file system: every operation of Fs and FileLayer may be called on it. */
  method Mount(sb: Super, s1: Block) returns (fs: Fs)
    requires sb.Valid() && sb.DataStart() < BPB && 0 < sb.ninodes && 2 <= sb.nlog
    ensures fs.Ok() && Quiet(sb, fs.log.View(), fs.g, sb.ninodes) && fs.sb == sb && !fs.log.busy && fs.inum == 0
    ensures fs.g == NoFiles(sb) && fresh(fs) && fresh(fs.log)
  {
    hide Quiet;
    var v := Mkfs(sb, s1);
    var image: seq<Block> := v + seq(sb.nlog, _ => Zeros(BSIZE));
    assert image[..sb.LogStart()] == v;
    WordOfZeros(BSIZE, 0);
    var log := new L.Log.Init(Layout(sb.LogStart(), sb.nlog), image);
    QuietFacts(sb, v, NoFiles(sb), 0);
    fs := new Fs(sb, log, NoInode(), NoFiles(sb));
  }
}
