/** file_write of kern/fs/file.c: a write cut into chunks, each chunk one transaction. */
module FileLayer {
  import opened Bytes
  import opened LogMachine
  import opened FsLayout
  import opened FsSteps
  import opened Fs
  import L = Log

  /** ((LOGSIZE - 1 - 1 - 2) / 2) * 512. */
  const CHUNK := 1536

  /** A file about to be written, and the file system around it before. */
  datatype Target = Target(sb: Super, inum: nat, v: Image, g: Meta)

  /** The committed image `h` is a consistent file system in which the target reads `bytes` and every
      other file reads as before. */
  ghost predicate Shows(w: Target, h: Image, bytes: seq<byte>) {
    exists g :: ShowsWith(w, h, g, bytes)
  }

  ghost predicate ShowsWith(w: Target, h: Image, g: Meta, bytes: seq<byte>) {
    && Quiet(w.sb, h, g, w.sb.ninodes) && w.inum < |g.table|
    && g.table[w.inum].size <= MAX_BYTES && FileBytes(h, g.table[w.inum]) == bytes
    && OtherFilesSame(w.inum, w.v, w.g, h, g)
  }

  /** A single bitmap block is one block. */
  lemma OneBitmapBlock(sb: Super)
    requires sb.Valid() && sb.size <= BPB
    ensures |BitmapBlocks(sb)| == 1
  {
    assert (sb.size - 1) / BPB == 0;
    assert BitmapBlocks(sb) == {sb.BBlock(0 * BPB)};
  }

  /** One chunk spans at most four blocks, wherever it starts. */
  lemma ChunkSpan(off: nat, n: nat)
    requires n <= CHUNK
    ensures Span(off, off + n) <= 4
  {
  }

  /** One iteration of file_write: a transaction around inode_write.  It logs at most the bitmap
      blocks, four data blocks, the indirect block and the inode block, so log_write's size
      panic cannot happen; and at each of its disk writes the committed file system is either
      the one before the chunk or the one after it. */
  method WriteChunk(fs: Fs, src: seq<byte>, off: word) returns (r: int, ghost logged: nat)
    requires fs.Ok() && Quiet(fs.sb, fs.log.View(), fs.g, fs.sb.ninodes)
    requires !fs.log.busy && |src| <= CHUNK
    requires |BitmapBlocks(fs.sb)| + 5 < fs.Capacity()
    requires Accepts(fs.ip.size, off, |src|) ==>
               Need(Blocks(fs.ip.size), Blocks(off + |src|)) <= |FreeBlocks(fs.sb, fs.log.View())|
    modifies fs, fs.log
    ensures fs.Ok() && Quiet(fs.sb, fs.log.View(), fs.g, fs.sb.ninodes) && !fs.log.busy && fs.inum == old(fs.inum)
    ensures r == if off <= old(fs.ip.size) && off + |src| <= MAX_BYTES then |src| else -1
    ensures r == -1 ==> fs.log.View() == old(fs.log.View()) && fs.g == old(fs.g) && fs.ip == old(fs.ip)
    ensures r != -1 ==> fs.ip.size == Max(old(fs.ip.size), off + |src|) && fs.ip.Valid() && fs.ip.size <= MAX_BYTES
                        && FileBytes(fs.log.View(), fs.ip) == Splice(old(FileBytes(fs.log.View(), fs.ip)), off, src)
    ensures OtherFilesSame(fs.inum, old(fs.log.View()), old(fs.g), fs.log.View(), fs.g)
    ensures r != -1 ==> |FreeBlocks(fs.sb, fs.log.View())|
                        == |FreeBlocks(fs.sb, old(fs.log.View()))| - Need(Blocks(old(fs.ip.size)), Blocks(fs.ip.size))
    ensures logged <= |BitmapBlocks(fs.sb)| + 6
    ensures L.TwoHomes(fs.log.sp0, old(fs.log.events), fs.log.events, old(fs.log.View()), fs.log.View())
  {
    hide L.Log.Valid, L.Log.View, FsInv, FreeBlocks, Blocks, BitmapBlocks, Need, Span, Quiet, OtherFilesSame,
         Splice, L.TwoHomes, FileBytes;
    IdleLog(fs.log);
    ChunkSpan(off, |src|);
    fs.log.IdleHome();
    fs.log.BeginTrans();
    fs.touched := BitmapBlocks(fs.sb);
    ghost var ds;
    r, ds := fs.InodeWrite(src, off);
    FsSize(fs.sb, fs.log.View(), fs.g);
    fs.log.LogIsShort(fs.touched);
    ChunkCount(fs.touched, BitmapBlocks(fs.sb), ds, Indirect(fs.ip), fs.sb.IBlock(fs.inum));
    logged := |fs.log.lh|;
    fs.log.CommitTrans();
  }

  lemma IdleLog(log: L.Log)
    requires log.Valid() && !log.busy
    ensures log.lh == []
  {
  }

  lemma ChunkCount(t: set<nat>, b: set<nat>, ds: set<nat>, i: set<nat>, x: nat)
    requires (t <= b + ds + i + {x} && |ds| <= 4) || t == b
    requires |i| <= 1
    ensures |t| <= |b| + 6
  {
    if t <= b + ds + i + {x} && |ds| <= 4 {
      CardSub(t, b + ds + i + {x});
    }
  }

  /** struct file, as far as file_write uses it. */
  class File {
    var off: word
    const writable: bool

    constructor (writable: bool)
      ensures off == 0 && this.writable == writable
    {
      off := 0;
      this.writable := writable;
    }
  }

  /** The file's bytes once the first `j` bytes of `src` are written at `off`. */
  function After(was: seq<byte>, off: nat, src: seq<byte>, j: nat): (s: seq<byte>)
    requires j <= |src| && (j > 0 ==> off <= |was|)
  {
    if j == 0 then was else Splice(was, off, src[..j])
  }

  lemma AfterNone(was: seq<byte>, off: nat, src: seq<byte>)
    ensures After(was, off, src, 0) == was
  {
  }

  /** Two splices end to end are one. */
  lemma SpliceSplice(was: seq<byte>, off: nat, src: seq<byte>, i: nat, m: nat)
    requires off <= |was| && i + m <= |src| && 0 < m
    ensures off + i <= |After(was, off, src, i)|
    ensures Splice(After(was, off, src, i), off + i, src[i..i + m]) == After(was, off, src, i + m)
  {
    var a := After(was, off, src, i);
    var x, y := Splice(a, off + i, src[i..i + m]), After(was, off, src, i + m);
    hide Splice;
    assert |x| == |y|;
    forall k | 0 <= k < |x|
      ensures x[k] == y[k]
    {
      SpliceAt(a, off + i, src[i..i + m], k);
      SpliceAt(was, off, src[..i + m], k);
      if i > 0 && k < |a| {
        SpliceAt(was, off, src[..i], k);
      }
    }
  }

  lemma SpliceAt(was: seq<byte>, off: nat, s: seq<byte>, k: nat)
    requires off <= |was| && k < |Splice(was, off, s)|
    ensures Splice(was, off, s)[k] == if off <= k < off + |s| then s[k - off] else if k < |was| then was[k] else 0
  {
  }

  lemma SpliceReadBack(was: seq<byte>, off: nat, s: seq<byte>)
    requires off <= |was|
    ensures Splice(was, off, s)[off..off + |s|] == s
  {
  }

  /** inode_read after inode_write returns exactly the bytes written. */
  method WriteThenRead(fs: Fs, src: seq<byte>, off: word) returns (r: int, dst: seq<byte>)
    requires fs.Ok() && Quiet(fs.sb, fs.log.View(), fs.g, fs.sb.ninodes)
    requires |src| < WORD_LIMIT && Accepts(fs.ip.size, off, |src|) && fs.log.busy && BitmapBlocks(fs.sb) <= fs.touched
    requires |fs.touched| + Span(off, off + |src|) + 1 < fs.Capacity()
    requires Need(Blocks(fs.ip.size), Blocks(off + |src|)) <= |FreeBlocks(fs.sb, fs.log.View())|
    modifies fs, fs.log
    ensures r == |src| && dst == src
  {
    hide L.Log.Valid, L.Log.View, FsInv, FreeBlocks, Blocks, BitmapBlocks, Need, Quiet, OtherFilesSame,
         Splice, FileBytes, Shaped;
    QuietFacts(fs.sb, fs.log.View(), fs.g, fs.inum);
    ghost var was := FileBytes(fs.log.View(), fs.ip);
    ghost var ds;
    r, ds := fs.InodeWrite(src, off);
    QuietFacts(fs.sb, fs.log.View(), fs.g, fs.inum);
    r, dst := fs.InodeRead(off, |src|);
    SpliceReadBack(was, off, src);
  }

  /** The image is consistent and shows the file with some whole number of chunks written. */
  ghost predicate ShowsPrefix(w: Target, h: Image, was: seq<byte>, off: nat, src: seq<byte>, done: nat) {
    exists j :: PrefixPoint(was, off, src, j, done) && Shows(w, h, After(was, off, src, j))
  }

  ghost predicate PrefixPoint(was: seq<byte>, off: nat, src: seq<byte>, j: nat, done: nat) {
    j <= done <= |src| && (j > 0 ==> off <= |was|) && (j % CHUNK == 0 || j == done)
  }

  ghost predicate PrefixesShown(sp0: Spec, es0: seq<Event>, es: seq<Event>,
                                w: Target, was: seq<byte>, off: nat, src: seq<byte>, done: nat) {
    && es0 <= es
    && forall k :: |es0| <= k <= |es| ==> ShowsPrefix(w, SpecExec(sp0, es[..k]).home, was, off, src, done)
  }

  lemma ShowsNow(w: Target, h: Image, g: Meta, was: seq<byte>, off: nat, src: seq<byte>, j: nat, done: nat)
    requires Quiet(w.sb, h, g, w.sb.ninodes) && OtherFilesSame(w.inum, w.v, w.g, h, g)
    requires w.inum < |g.table| && g.table[w.inum].Valid() && g.table[w.inum].size <= MAX_BYTES
    requires PrefixPoint(was, off, src, j, done) && FileBytes(h, g.table[w.inum]) == After(was, off, src, j)
    ensures ShowsPrefix(w, h, was, off, src, done)
  {
    hide Quiet, FileBytes, After, OtherFilesSame;
    assert ShowsWith(w, h, g, After(was, off, src, j));
  }

  lemma ShowsMore(w: Target, h: Image, was: seq<byte>, off: nat, src: seq<byte>, done: nat, done': nat)
    requires ShowsPrefix(w, h, was, off, src, done) && done % CHUNK == 0 && done <= done' <= |src|
    ensures ShowsPrefix(w, h, was, off, src, done')
  {
    hide Shows, After;
    var j :| PrefixPoint(was, off, src, j, done) && Shows(w, h, After(was, off, src, j));
    assert PrefixPoint(was, off, src, j, done');
  }

  /** A further transaction whose two homes both show a prefix extends the guarantee. */
  lemma PrefixesExtend(sp0: Spec, es0: seq<Event>, es1: seq<Event>, es: seq<Event>, h0: Image, h1: Image,
                       w: Target, was: seq<byte>, off: nat, src: seq<byte>, done: nat, done': nat)
    requires PrefixesShown(sp0, es0, es1, w, was, off, src, done) && done % CHUNK == 0 && done <= done' <= |src|
    requires L.TwoHomes(sp0, es1, es, h0, h1)
    requires ShowsPrefix(w, h0, was, off, src, done') && ShowsPrefix(w, h1, was, off, src, done')
    ensures PrefixesShown(sp0, es0, es, w, was, off, src, done')
  {
    hide ShowsPrefix, SpecExec;
    forall k | |es0| <= k <= |es|
      ensures ShowsPrefix(w, SpecExec(sp0, es[..k]).home, was, off, src, done')
    {
      if k <= |es1| {
        assert es[..k] == es1[..k];
        ShowsMore(w, SpecExec(sp0, es[..k]).home, was, off, src, done, done');
      }
    }
  }

  /** Bytes file_write will have written when it returns. */
  function Achieved(size: nat, off: nat, n: int): (d: nat)
    ensures d <= Max(n, 0) && (d > 0 ==> off <= size)
  {
    if n <= 0 || off > size then 0
    else if off + n <= MAX_BYTES then n
    else if off > MAX_BYTES then 0
    else (MAX_BYTES - off) / CHUNK * CHUNK
  }

  /** All of it if the file may grow that far, and otherwise as many whole chunks as it can take. */
  lemma AchievedExact(size: nat, off: nat, n: int)
    requires size <= MAX_BYTES && n > 0
    ensures var d := Achieved(size, off, n);
            && (d == n <==> off <= size && off + n <= MAX_BYTES)
            && (off > size ==> d == 0)
            && (off <= size && d != n ==> d % CHUNK == 0 && off + d <= MAX_BYTES < off + d + CHUNK)
  {
    if off <= size && off + n > MAX_BYTES {
      WholeChunks(MAX_BYTES - off);
    }
  }

  lemma WholeChunks(m: nat)
    ensures m / CHUNK * CHUNK <= m < m / CHUNK * CHUNK + CHUNK && m / CHUNK * CHUNK % CHUNK == 0
  {
  }

  /** Byte by byte: what was written where it was written, and the old bytes everywhere else. */
  lemma SpliceBytes(was: seq<byte>, off: nat, s: seq<byte>)
    requires off <= |was|
    ensures |Splice(was, off, s)| == Max(|was|, off + |s|)
    ensures forall i :: 0 <= i < |Splice(was, off, s)| ==>
              Splice(was, off, s)[i] == if off <= i < off + |s| then s[i - off] else was[i]
  {
  }

  lemma ChunkArith(size: nat, off: nat, n: int, i: nat, n1: nat)
    requires size <= MAX_BYTES && i < n && i % CHUNK == 0 && i <= Achieved(size, off, n) && n1 == Min(n - i, CHUNK)
    ensures var goal, sz := Achieved(size, off, n), if i == 0 then size else Max(size, off + i);
            && 0 < n1 && (Accepts(sz, off + i, n1) <==> i < goal)
            && (off + i <= sz && off + i + n1 <= MAX_BYTES <==> i < goal)
            && (i < goal ==> i + n1 <= goal && off <= size && ((i + n1) % CHUNK == 0 || i + n1 == n))
            && (i < goal ==> Need(Blocks(size), Blocks(sz)) + Need(Blocks(sz), Blocks(off + i + n1))
                             <= Need(Blocks(size), Blocks(off + goal)))
            && (i < goal ==> var sz' := Max(sz, off + i + n1);
                             && sz' == Max(size, off + i + n1)
                             && Need(Blocks(size), Blocks(sz'))
                                == Need(Blocks(size), Blocks(sz)) + Need(Blocks(sz), Blocks(sz')))
  {
    var goal, sz := Achieved(size, off, n), if i == 0 then size else Max(size, off + i);
    AchievedStep(size, off, n, i, n1);
    if i < goal {
      BlocksMono(size, sz);
      BlocksMono(sz, Max(sz, off + i + n1));
      BlocksMono(off + i + n1, off + goal);
      hide Blocks, Achieved;
    }
  }

  lemma BlocksMono(x: nat, y: nat)
    requires x <= y
    ensures Blocks(x) <= Blocks(y)
  {
  }

  lemma AchievedStep(size: nat, off: nat, n: int, i: nat, n1: nat)
    requires size <= MAX_BYTES && i < n && i % CHUNK == 0 && i <= Achieved(size, off, n) && n1 == Min(n - i, CHUNK)
    ensures var goal := Achieved(size, off, n);
            && (i < goal ==> i + n1 <= goal && off <= size && off + goal <= MAX_BYTES)
            && (i == goal ==> off > size || off + i + n1 > MAX_BYTES)
            && ((i + n1) % CHUNK == 0 || i + n1 == n)
  {
    var c := i / CHUNK;
    assert i == c * CHUNK;
    if n1 == CHUNK {
      assert i + n1 == (c + 1) * CHUNK;
    }
    if off <= size && off + n > MAX_BYTES {
      var m := MAX_BYTES - off;
      var q := m / CHUNK;
      assert q * CHUNK <= m < (q + 1) * CHUNK && Achieved(size, off, n) == q * CHUNK;
      assert c <= q;
      if c < q {
        assert i + CHUNK <= q * CHUNK;
      }
    }
  }

  lemma StartShown(log: L.Log, w: Target, was: seq<byte>, off: nat, src: seq<byte>)
    requires log.Valid() && !log.busy && Quiet(w.sb, log.View(), w.g, w.sb.ninodes) && w.inum < |w.g.table|
    requires w.g.table[w.inum].Valid() && w.g.table[w.inum].size <= MAX_BYTES && w.v == log.View()
    requires FileBytes(log.View(), w.g.table[w.inum]) == was
    ensures PrefixesShown(log.sp0, log.events, log.events, w, was, off, src, 0)
  {
    hide L.Log.Valid, L.Log.View, Quiet, FileBytes, SpecExec, ShowsPrefix;
    IdleLog(log);
    log.IdleHome();
    OtherFilesRefl(w.sb, w.inum, w.v, w.g);
    ShowsNow(w, log.View(), w.g, was, off, src, 0, 0);
    assert log.events[..|log.events|] == log.events;
  }

  lemma ChunkShown(sp0: Spec, es0: seq<Event>, es1: seq<Event>, es: seq<Event>, v: Image, v': Image, w: Target,
                   g: Meta, g': Meta, was: seq<byte>, off: nat, src: seq<byte>, i: nat, i': nat)
    requires PrefixesShown(sp0, es0, es1, w, was, off, src, i) && L.TwoHomes(sp0, es1, es, v, v')
    requires i % CHUNK == 0 && i <= i' <= |src| && (i' > 0 ==> off <= |was|)
    requires Quiet(w.sb, v, g, w.sb.ninodes) && Quiet(w.sb, v', g', w.sb.ninodes)
    requires OtherFilesSame(w.inum, w.v, w.g, v, g) && OtherFilesSame(w.inum, w.v, w.g, v', g')
    requires w.inum < |g.table| && g.table[w.inum].Valid() && g.table[w.inum].size <= MAX_BYTES
    requires w.inum < |g'.table| && g'.table[w.inum].Valid() && g'.table[w.inum].size <= MAX_BYTES
    requires FileBytes(v, g.table[w.inum]) == After(was, off, src, i)
    requires FileBytes(v', g'.table[w.inum]) == After(was, off, src, i')
    ensures PrefixesShown(sp0, es0, es, w, was, off, src, i')
  {
    hide Quiet, FileBytes, After, ShowsPrefix, PrefixesShown, L.TwoHomes, OtherFilesSame;
    ShowsNow(w, v, g, was, off, src, i, i');
    ShowsNow(w, v', g', was, off, src, i', i');
    PrefixesExtend(sp0, es0, es1, es, v, v', w, was, off, src, i, i');
  }

  lemma OtherFilesRefl(sb: Super, cur: nat, v: Image, g: Meta)
    requires Quiet(sb, v, g, sb.ninodes)
    ensures OtherFilesSame(cur, v, g, v, g)
  {
    hide FileBytes, Quiet;
    forall i | 0 <= i < |g.table|
      ensures g.table[i].Valid() && g.table[i].size <= MAX_BYTES
    {
      QuietFacts(sb, v, g, i);
    }
  }

  lemma OtherFilesTrans(cur: nat, v: Image, g: Meta, v': Image, g': Meta, v'': Image, g'': Meta)
    requires OtherFilesSame(cur, v, g, v', g') && OtherFilesSame(cur, v', g', v'', g'')
    ensures OtherFilesSame(cur, v, g, v'', g'')
  {
    hide FileBytes;
  }

  /** file_write.  It writes all `n` bytes, or the whole chunks that fit in the largest file, as
      one splice; it reports `n` exactly when it wrote them all; and a crash at any of its
      disk writes, recovered, leaves a consistent file system in which the file holds a whole
      number of its chunks. */
  method FileWrite(fs: Fs, f: File, src: seq<byte>, n: int) returns (r: int, ghost done: nat)
    requires fs.Ok() && Quiet(fs.sb, fs.log.View(), fs.g, fs.sb.ninodes) && !fs.log.busy
    requires n <= |src|
    requires |BitmapBlocks(fs.sb)| + 5 < fs.Capacity()
    requires var d := Achieved(fs.ip.size, f.off, n);
             d > 0 ==> Need(Blocks(fs.ip.size), Blocks(f.off + d)) <= |FreeBlocks(fs.sb, fs.log.View())|
    modifies fs, fs.log, f
    ensures fs.Ok() && Quiet(fs.sb, fs.log.View(), fs.g, fs.sb.ninodes) && !fs.log.busy && fs.inum == old(fs.inum)
    ensures done == (if f.writable then Achieved(old(fs.ip.size), old(f.off), n) else 0)
    ensures r == if f.writable && done == n then n else -1
    ensures 0 <= n ==>
              (r == n <==> f.writable && (n == 0 || (old(f.off) <= old(fs.ip.size) && old(f.off) + n <= MAX_BYTES)))
    ensures f.off == old(f.off) + done
    ensures fs.ip.Valid() && fs.ip.size <= MAX_BYTES
    ensures done <= |src| && (done > 0 ==> old(f.off) <= old(fs.ip.size))
    ensures FileBytes(fs.log.View(), fs.ip) == After(old(FileBytes(fs.log.View(), fs.ip)), old(f.off), src, done)
    ensures PrefixesShown(fs.log.sp0, old(fs.log.events), fs.log.events,
                          old(Target(fs.sb, fs.inum, fs.log.View(), fs.g)), old(FileBytes(fs.log.View(), fs.ip)),
                          old(f.off), src, done)
    ensures OtherFilesSame(fs.inum, old(fs.log.View()), old(fs.g), fs.log.View(), fs.g)
  {
    hide L.Log.Valid, L.Log.View, FsInv, FreeBlocks, Blocks, BitmapBlocks, Need, Quiet, OtherFilesSame, Splice,
         L.TwoHomes, FileBytes, PrefixesShown, ShowsPrefix, Achieved, Accepts, After, Shaped;
    ghost var v0, g0, d0, off0, inum := fs.log.View(), fs.g, fs.ip, f.off, fs.inum;
    OtherFilesRefl(fs.sb, inum, v0, g0);
    ghost var es0, sp0 := fs.log.events, fs.log.sp0;
    QuietFacts(fs.sb, v0, fs.g, fs.inum);
    ghost var was := FileBytes(v0, d0);
    ghost var goal := Achieved(d0.size, off0, n);
    AfterNone(was, off0, src);
    done := 0;
    ghost var w := Target(fs.sb, inum, v0, g0);
    StartShown(fs.log, w, was, off0, src);
    if !f.writable {
      return -1, 0;
    }
    var i := 0;
    NothingYet(d0.size, off0);
    while i < n
      invariant 0 <= i <= goal && (n < 0 ==> i == 0) && (i % CHUNK == 0 || i == n) && f.off == off0 + i
      invariant fs.Ok() && Quiet(fs.sb, fs.log.View(), fs.g, fs.sb.ninodes) && !fs.log.busy && fs.inum == inum
      invariant fs.ip.Valid() && fs.ip.size == (if i == 0 then d0.size else Max(d0.size, off0 + i)) <= MAX_BYTES
      invariant FileBytes(fs.log.View(), fs.ip) == After(was, off0, src, i)
      invariant |FreeBlocks(fs.sb, fs.log.View())|
                == |FreeBlocks(fs.sb, v0)| - Need(Blocks(d0.size), Blocks(fs.ip.size))
      invariant PrefixesShown(sp0, es0, fs.log.events, w, was, off0, src, i)
      invariant OtherFilesSame(inum, v0, g0, fs.log.View(), fs.g)
      decreases n - i
    {
      ghost var v1, g1, es1 := fs.log.View(), fs.g, fs.log.events;
      var n1 := Min(n - i, CHUNK);
      ChunkArith(d0.size, off0, n, i, n1);
      ghost var logged;
      r, logged := WriteChunk(fs, src[i..i + n1], f.off);
      OtherFilesTrans(inum, v0, g0, v1, g1, fs.log.View(), fs.g);
      if r < 0 {
        ChunkShown(sp0, es0, es1, fs.log.events, v1, v1, w, g1, g1, was, off0, src, i, i);
        break;
      }
      f.off := f.off + r;
      SpliceSplice(was, off0, src, i, n1);
      ChunkShown(sp0, es0, es1, fs.log.events, v1, fs.log.View(), w, g1, fs.g, was, off0, src, i, i + n1);
      i := i + r;
    }
    if n > 0 {
      AchievedExact(d0.size, off0, n);
    }
    done := i;
    r := if i == n then n else -1;
  }

  /** What a crash during file_write means on disk: stop after any of its disk writes, run
      recovery on the image, and the file system is consistent and shows whole chunks only. */
  lemma CrashDuringWrite(l: Layout, m0: Machine, sp0: Spec, es0: seq<Event>, es: seq<Event>, k: nat,
                         w: Target, was: seq<byte>, off: nat, src: seq<byte>, done: nat)
    requires Fresh(l, m0, sp0) && Runs(l, m0, es) && |es0| <= k <= |es|
    requires PrefixesShown(sp0, es0, es, w, was, off, src, done)
    ensures Runs(l, m0, es[..k]) && HeaderOk(l, Exec(l, m0, es[..k]).disk)
    ensures ShowsPrefix(w, Recovered(l, Exec(l, m0, es[..k]).disk), was, off, src, done)
  {
    hide ShowsPrefix, Inv, SpecExec, Exec;
    RunsPrefix(l, m0, es, k);
    CrashAtomicity(l, m0, sp0, es[..k]);
  }
}
