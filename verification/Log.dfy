/** kern/fs/log.c over the buffer cache, as the kernel runs it: an in-memory header, cached
    sectors of which the logged ones are pinned by B_DIRTY, and a disk that changes one
    sector at a time.  Each disk write is recorded as an event of `LogMachine`. */
module Log {
  import opened Sequences
  import opened Bytes
  import opened LogMachine

  /** A cached sector that is not busy; `dirty` is B_DIRTY. */
  datatype Buf = Buf(data: Block, dirty: bool)

  /** The events so far form a run of the machine that ends in the present state. */
  ghost predicate Traced(l: Layout, m0: Machine, sp0: Spec, es: seq<Event>, m: Machine, sp: Spec) {
    && Fresh(l, m0, sp0)
    && Runs(l, m0, es)
    && Exec(l, m0, es) == m
    && SpecExec(sp0, es) == sp
  }

  lemma TracedExtend(l: Layout, m0: Machine, sp0: Spec, es: seq<Event>, m: Machine, sp: Spec, e: Event)
    requires Traced(l, m0, sp0, es, m, sp) && Enabled(l, m, e)
    ensures Traced(l, m0, sp0, es + [e], Next(l, m, e), SpecNext(sp, e))
  {
    RunsExtend(l, m0, es, e);
    SpecExtend(sp0, es, e);
  }

  function Cached(disk: seq<Block>, cache: map<nat, Buf>, s: nat): (b: Block)
    requires s < |disk|
  {
    if s in cache then cache[s].data else disk[s]
  }

  /** `s` is listed by `lh` at slot `k` or later. */
  ghost predicate ListedFrom(lh: seq<nat>, s: nat, k: nat) {
    exists i :: k <= i < |lh| && lh[i] == s
  }

  ghost predicate HomeSectors(l: Layout, lh: seq<nat>) {
    Distinct(lh) && forall i :: 0 <= i < |lh| ==> lh[i] < l.start
  }

  /** Clean buffers mirror the disk; exactly the logged sectors from slot `k` on are pinned,
      and they hold what their log slots hold. */
  ghost predicate Coherent(l: Layout, disk: seq<Block>, cache: map<nat, Buf>, lh: seq<nat>, k: nat) {
    && |lh| < l.size && |disk| == l.start + l.size
    && (forall s :: s in cache ==> s < |disk|)
    && (forall s :: s in cache && !cache[s].dirty ==> cache[s].data == disk[s])
    && (forall s :: s in cache && cache[s].dirty ==> ListedFrom(lh, s, k))
    && (forall i :: k <= i < |lh| ==> lh[i] in cache && cache[lh[i]] == Buf(disk[l.start + 1 + i], true))
  }

  /** Read-your-writes: a cached read of a home sector sees the committed home under the
      transaction's own writes. */
  lemma CachedIsOverlay(l: Layout, m: Machine, sp: Spec, cache: map<nat, Buf>, s: nat)
    requires Inv(l, m, sp) && m.phase.Running? && Coherent(l, m.disk, cache, m.lh, 0) && s < l.start
    ensures Cached(m.disk, cache, s) == Overlay(sp.home, sp.pending)[s]
  {
    if s in m.lh {
      var i :| 0 <= i < |m.lh| && m.lh[i] == s;
      assert cache[m.lh[i]] == Buf(m.disk[l.start + 1 + i], true);
      assert m.disk[l.start + 1 + i] == sp.pending[m.lh[i]];
    } else {
      assert s in cache ==> !cache[s].dirty;
    }
  }

  /** Making room in the cache: clean buffers may go, pinned ones may not. */
  ghost predicate Recycles(cache: map<nat, Buf>, cache': map<nat, Buf>) {
    && (forall t :: t in cache' ==> t in cache && cache'[t] == cache[t])
    && (forall t :: t in cache && cache[t].dirty ==> t in cache')
  }

  lemma RecycleCoherent(l: Layout, disk: seq<Block>, cache: map<nat, Buf>, cache': map<nat, Buf>, lh: seq<nat>, k: nat)
    requires Coherent(l, disk, cache, lh, k) && Recycles(cache, cache')
    ensures Coherent(l, disk, cache', lh, k)
    ensures forall t: nat :: t < |disk| ==> Cached(disk, cache', t) == Cached(disk, cache, t)
  {
  }

  lemma RecordPlaces(lh: seq<nat>, s: nat)
    requires Distinct(lh)
    ensures var i := IndexOf(lh, s);
            && i < |Record(lh, s)| && Record(lh, s)[i] == s
            && forall j :: 0 <= j < |Record(lh, s)| && j != i ==> j < |lh| && Record(lh, s)[j] == lh[j] && lh[j] != s
  {
  }

  /** log_write's slot write and the pin it leaves on the caller's buffer. */
  lemma SlotWriteCoherent(l: Layout, disk: seq<Block>, cache: map<nat, Buf>, lh: seq<nat>, lh': seq<nat>,
                          s: nat, i: nat, b: Block)
    requires Coherent(l, disk, cache, lh, 0) && HomeSectors(l, lh) && l.Valid()
    requires s < l.start && |lh| <= |lh'| < l.size
    requires i < |lh'| && lh'[i] == s && (i < |lh| ==> lh[i] == s)
    requires forall j :: 0 <= j < |lh'| && j != i ==> j < |lh| && lh'[j] == lh[j] && lh[j] != s
    ensures var slot := l.start + 1 + i;
            Coherent(l, disk[slot := b], cache[slot := Buf(b, false)][s := Buf(b, true)], lh', 0)
  {
    var slot := l.start + 1 + i;
    var cache' := cache[slot := Buf(b, false)][s := Buf(b, true)];
    forall t | t in cache' && cache'[t].dirty
      ensures ListedFrom(lh', t, 0)
    {
      if t != s {
        var j :| 0 <= j < |lh| && lh[j] == t;
        assert j < |lh'| && lh'[j] == lh[j];
      }
    }
  }

  /** One iteration of install_trans: the block goes home and its buffer becomes clean. */
  lemma InstallCoherent(l: Layout, disk: seq<Block>, cache: map<nat, Buf>, lh: seq<nat>, k: nat)
    requires Coherent(l, disk, cache, lh, k) && k < |lh| && HomeSectors(l, lh)
    ensures var d := disk[l.start + 1 + k];
            Coherent(l, disk[lh[k] := d], cache[lh[k] := Buf(d, false)], lh, k + 1)
  {
    var d := disk[l.start + 1 + k];
    var cache' := cache[lh[k] := Buf(d, false)];
    forall t | t in cache' && cache'[t].dirty
      ensures ListedFrom(lh, t, k + 1)
    {
      var j :| k <= j < |lh| && lh[j] == t;
      assert j != k;
    }
  }

  /** The same iteration at recovery, when nothing is pinned. */
  lemma CleanInstallCoherent(l: Layout, disk: seq<Block>, cache: map<nat, Buf>, lh: seq<nat>, k: nat)
    requires Coherent(l, disk, cache, lh, |lh|) && k < |lh| && HomeSectors(l, lh)
    ensures var d := disk[l.start + 1 + k];
            Coherent(l, disk[lh[k] := d], cache[lh[k] := Buf(d, false)], lh, |lh|)
  {
  }

  lemma TracedFacts(l: Layout, m0: Machine, sp0: Spec, es: seq<Event>, m: Machine, sp: Spec)
    requires Traced(l, m0, sp0, es, m, sp)
    ensures HomeSectors(l, m.lh) && |m.lh| < l.size && |m.lh| <= LOGSIZE
    ensures |m.disk| == l.start + l.size && l.Valid() && |sp.home| == l.start
  {
    RunKeepsInv(l, m0, sp0, es);
    forall i | 0 <= i < |m.lh|
      ensures m.lh[i] < l.start
    {
      assert m.lh[i] in m.lh;
    }
  }

  lemma OverlayUpdate(home: seq<Block>, pending: map<nat, Block>, s: nat, b: Block)
    requires s < |home|
    ensures Overlay(home, pending[s := b]) == Overlay(home, pending)[s := b]
  {
  }

  lemma HeaderIsClean(l: Layout, disk: seq<Block>, cache: map<nat, Buf>, lh: seq<nat>, k: nat)
    requires Coherent(l, disk, cache, lh, k) && HomeSectors(l, lh)
    ensures forall s :: l.start <= s < |disk| ==> Cached(disk, cache, s) == disk[s]
  {
  }

  lemma HeaderWriteCoherent(l: Layout, disk: seq<Block>, cache: map<nat, Buf>, lh: seq<nat>, k: nat, h: Block)
    requires Coherent(l, disk, cache, lh, k) && HomeSectors(l, lh)
    ensures Coherent(l, disk[l.start := h], cache[l.start := Buf(h, false)], lh, k)
    ensures k == |lh| ==> Coherent(l, disk[l.start := h], cache[l.start := Buf(h, false)], [], 0)
  {
  }

  /** The loop of write_head that fills in the sectors. */
  method FillHeader(b: Block, hd: seq<nat>) returns (h: Block)
    requires |hd| <= LOGSIZE && Words(hd)
    ensures h == PutHeader(b, hd)
  {
    h := SetWord(b, 0, |hd|);
    var i := 0;
    while i < |hd|
      invariant 0 <= i <= |hd|
      invariant PutSectors(h, hd, i) == PutHeader(b, hd)
    {
      h := SetWord(h, 1 + i, hd[i]);
      i := i + 1;
    }
  }

  function Repeat(e: Event, n: nat): (es: seq<Event>) {
    if n == 0 then [] else Repeat(e, n - 1) + [e]
  }

  function CommitEvents(n: nat): (es: seq<Event>) {
    if n == 0 then [] else [Commit] + Repeat(Install, n) + [Clear]
  }

  lemma CommitEventsParts(es: seq<Event>, n: nat)
    ensures es + CommitEvents(n) == if n == 0 then es else es + [Commit] + Repeat(Install, n) + [Clear]
  {
  }

  lemma TracedPending(l: Layout, m0: Machine, sp0: Spec, es: seq<Event>, m: Machine, sp: Spec)
    requires Traced(l, m0, sp0, es, m, sp) && m.phase.Running?
    ensures |m.disk| == l.start + l.size && |sp.home| == l.start
    ensures m.disk[..l.start] == sp.home
    ensures m.lh == [] ==> sp.pending == map[] && Overlay(sp.home, sp.pending) == sp.home
    ensures |m.lh| > 0 ==> Enabled(l, m, Commit)
  {
    RunKeepsInv(l, m0, sp0, es);
    TracedFacts(l, m0, sp0, es, m, sp);
    RecoveryNeverStuck(l, m0, sp0, es);
  }

  /** All or nothing: cut commit_trans off after any number of its disk writes.  Recovery gives
      the old home if the header write is missing, and every logged block otherwise. */
  lemma CommitAllOrNothing(l: Layout, m0: Machine, sp0: Spec, es: seq<Event>, n: nat, i: nat)
    requires Fresh(l, m0, sp0) && i <= |CommitEvents(n)|
    requires Runs(l, m0, es + CommitEvents(n)[..i])
    ensures HeaderOk(l, Exec(l, m0, es + CommitEvents(n)[..i]).disk)
    ensures var sp := SpecExec(sp0, es);
            Recovered(l, Exec(l, m0, es + CommitEvents(n)[..i]).disk)
            == if i == 0 then sp.home else Overlay(sp.home, sp.pending)
  {
    CrashAtomicity(l, m0, sp0, es + CommitEvents(n)[..i]);
    SpecOfCommit(sp0, es, n, i);
  }

  lemma {:induction false} SpecOfCommit(sp0: Spec, es: seq<Event>, n: nat, i: nat)
    requires i <= |CommitEvents(n)|
    ensures var sp := SpecExec(sp0, es);
            SpecExec(sp0, es + CommitEvents(n)[..i])
            == if i == 0 then sp else Spec(Overlay(sp.home, sp.pending), map[])
    decreases i
  {
    hide CommitEvents, Overlay;
    var c := CommitEvents(n);
    if i == 0 {
      assert es + c[..0] == es;
    } else {
      SpecOfCommit(sp0, es, n, i - 1);
      assert es + c[..i] == (es + c[..i - 1]) + [c[i - 1]];
      SpecExtend(sp0, es + c[..i - 1], c[i - 1]);
      CommitEventAt(n, i - 1);
    }
  }

  lemma CommitEventAt(n: nat, i: nat)
    requires i < |CommitEvents(n)|
    ensures CommitEvents(n)[i].Commit? <==> i == 0
    ensures i > 0 ==> CommitEvents(n)[i].Install? || CommitEvents(n)[i].Clear?
  {
    RepeatAll(Install, n);
  }

  lemma {:induction false} RepeatAll(e: Event, n: nat)
    ensures |Repeat(e, n)| == n && forall i :: 0 <= i < n ==> Repeat(e, n)[i] == e
  {
    if n > 0 {
      RepeatAll(e, n - 1);
    }
  }

  lemma {:induction false} DistinctWithin(lh: seq<nat>, s: set<nat>)
    requires Distinct(lh) && forall i :: 0 <= i < |lh| ==> lh[i] in s
    ensures |lh| <= |s|
  {
    if lh != [] {
      var n := |lh| - 1;
      DistinctWithin(lh[..n], s - {lh[n]});
    }
  }

  /** From `es0` to `es` the committed home has not moved. */
  ghost predicate Held(sp0: Spec, es0: seq<Event>, es: seq<Event>) {
    && es0 <= es
    && forall k :: |es0| <= k <= |es| ==> SpecExec(sp0, es[..k]).home == SpecExec(sp0, es0).home
  }

  /** At every point from `es0` to `es` the committed home is one of two. */
  ghost predicate TwoHomes(sp0: Spec, es0: seq<Event>, es: seq<Event>, h0: seq<Block>, h1: seq<Block>) {
    && es0 <= es
    && forall k :: |es0| <= k <= |es| ==>
         SpecExec(sp0, es[..k]).home == h0 || SpecExec(sp0, es[..k]).home == h1
  }

  lemma HeldRefl(sp0: Spec, es: seq<Event>)
    ensures Held(sp0, es, es)
  {
    assert es[..|es|] == es;
  }

  lemma HeldAppend(sp0: Spec, es0: seq<Event>, es: seq<Event>, e: Event)
    requires Held(sp0, es0, es) && e.Append?
    ensures Held(sp0, es0, es + [e])
  {
    hide SpecExec;
    SpecExtend(sp0, es, e);
    assert es[..|es|] == es;
    forall k | |es0| <= k <= |es + [e]|
      ensures SpecExec(sp0, (es + [e])[..k]).home == SpecExec(sp0, es0).home
    {
      if k <= |es| {
        assert (es + [e])[..k] == es[..k];
      } else {
        assert (es + [e])[..k] == es + [e];
      }
    }
  }

  lemma HeldCommit(sp0: Spec, es0: seq<Event>, es: seq<Event>, n: nat)
    requires Held(sp0, es0, es)
    ensures var sp := SpecExec(sp0, es);
            TwoHomes(sp0, es0, es + CommitEvents(n), sp.home, Overlay(sp.home, sp.pending))
  {
    hide SpecExec, CommitEvents;
    var full := es + CommitEvents(n);
    assert es[..|es|] == es;
    forall k | |es0| <= k <= |full|
      ensures var sp := SpecExec(sp0, es);
              SpecExec(sp0, full[..k]).home == sp.home
              || SpecExec(sp0, full[..k]).home == Overlay(sp.home, sp.pending)
    {
      if k <= |es| {
        assert full[..k] == es[..k];
      } else {
        assert full[..k] == es + CommitEvents(n)[..k - |es|];
        SpecOfCommit(sp0, es, n, k - |es|);
      }
    }
  }

  lemma TracedSpec(l: Layout, m0: Machine, sp0: Spec, es: seq<Event>, m: Machine, sp: Spec)
    requires Traced(l, m0, sp0, es, m, sp)
    ensures SpecExec(sp0, es) == sp
  {
  }

  // ---- An image with a committed transaction on it ----

  /** A header with its count erased is restored by writing the list it had. */
  lemma HeaderRestored(b: Block)
    requires HeaderCount(b) <= LOGSIZE
    ensures PutHeader(SetWord(b, 0, 0), Header(b)) == b
  {
    SetWordBack(b, 0, 0);
    SectorsThere(b, Header(b), 0);
  }

  lemma {:induction false} SectorsThere(b: Block, lh: seq<nat>, k: nat)
    requires k <= |lh| <= LOGSIZE && Words(lh) && forall i :: 0 <= i < |lh| ==> Word(b, 1 + i) == lh[i]
    ensures PutSectors(b, lh, k) == b
    decreases |lh| - k
  {
    hide Word, SetWord;
    if k < |lh| {
      SetWordBack(b, 1 + k, 0);
      assert Word(b, 1 + k) == lh[k];
      SectorsThere(b, lh, k + 1);
    }
  }

  /** The disk as it was before the header was written. */
  function Unmarked(l: Layout, image: seq<Block>): (m: Machine)
    requires 1 <= l.size && |image| == l.start + l.size
  {
    Machine(image[l.start := SetWord(image[l.start], 0, 0)], Running, [])
  }

  /** Logging the blocks that are in the slots already. */
  lemma {:induction false} AppendTrace(l: Layout, image: seq<Block>, k: nat) returns (es: seq<Event>, sp: Spec)
    requires l.Valid() && HeaderOk(l, image) && Distinct(Header(image[l.start])) && k <= |Header(image[l.start])|
    ensures var m0 := Unmarked(l, image);
            Traced(l, m0, Spec(m0.disk[..l.start], map[]), es, m0.(lh := Header(image[l.start])[..k]), sp)
  {
    var lh, m0 := Header(image[l.start]), Unmarked(l, image);
    var sp0 := Spec(m0.disk[..l.start], map[]);
    if k == 0 {
      es, sp := [], sp0;
      WordOfSetWord(image[l.start], 0, 0, 0);
      assert Fresh(l, m0, sp0);
      assert lh[..0] == [];
    } else {
      es, sp := AppendTrace(l, image, k - 1);
      var m, e := m0.(lh := lh[..k - 1]), Append(lh[k - 1], image[l.start + k]);
      assert IndexOf(m.lh, lh[k - 1]) == k - 1;
      hide Traced, Header;
      assert Next(l, m, e) == m0.(lh := lh[..k]) by {
        assert lh[..k - 1] + [lh[k - 1]] == lh[..k];
        assert m0.disk[l.start + k := image[l.start + k]] == m0.disk;
      }
      TracedExtend(l, m0, sp0, es, m, sp, e);
      es, sp := es + [e], SpecNext(sp, e);
    }
  }

  /** An image whose header lists distinct home sectors is what a run leaves that was cut off right
      after its header write. */
  lemma DownTrace(l: Layout, image: seq<Block>) returns (m0: Machine, sp0: Spec, es: seq<Event>, sp: Spec)
    requires l.Valid() && HeaderOk(l, image) && Distinct(Header(image[l.start]))
    ensures Traced(l, m0, sp0, es, Machine(image, Down, []), sp) && sp.home == Recovered(l, image)
  {
    var lh := Header(image[l.start]);
    m0 := Unmarked(l, image);
    sp0 := Spec(m0.disk[..l.start], map[]);
    if lh == [] {
      m0 := Machine(image, Running, []);
      sp0 := Spec(image[..l.start], map[]);
      es, sp := [], sp0;
      assert Traced(l, m0, sp0, es, m0, sp);
      TracedExtend(l, m0, sp0, es, m0, sp, Crash);
    } else {
      es, sp := AppendTrace(l, image, |lh|);
      var m := m0.(lh := lh);
      assert lh[..|lh|] == lh;
      HeaderRestored(image[l.start]);
      hide Traced;
      assert Next(l, m, Commit).disk == image by { Restored(image, l.start, SetWord(image[l.start], 0, 0)); }
      TracedExtend(l, m0, sp0, es, m, sp, Commit);
      es, sp, m := es + [Commit], SpecNext(sp, Commit), Next(l, m, Commit);
      TracedExtend(l, m0, sp0, es, m, sp, Crash);
    }
    es, sp := es + [Crash], SpecNext(sp, Crash);
    CrashAtomicity(l, m0, sp0, es);
  }

  lemma Restored<T>(s: seq<T>, i: nat, x: T)
    requires i < |s|
    ensures s[i := x][i := s[i]] == s
  {
  }

  class Log {
    const layout: Layout
    var disk: seq<Block>
    var cache: map<nat, Buf>
    var busy: bool
    var lh: seq<nat>

    ghost const m0: Machine
    ghost const sp0: Spec
    ghost var phase: Phase
    ghost var events: seq<Event>
    ghost var spec: Spec
    /** The events up to the start of the present transaction. */
    ghost var mark: seq<Event>

    ghost predicate Tracing()
      reads this
    {
      Traced(layout, m0, sp0, events, Machine(disk, phase, lh), spec)
    }

    /** What the file system reads: the committed home with the transaction's writes on top. */
    ghost function View(): (v: seq<Block>)
      reads this
    {
      Overlay(spec.home, spec.pending)
    }

    ghost predicate Valid()
      reads this
    {
      && Tracing() && phase.Running?
      && Coherent(layout, disk, cache, lh, 0)
      && (!busy ==> lh == [])
      && |spec.home| == layout.start
      && Held(sp0, mark, events)
    }

    /** A log all of whose sectors lie in `s` is no longer than `s` is large. */
    lemma LogIsShort(s: set<nat>)
      requires Valid() && forall i :: 0 <= i < |lh| ==> lh[i] in s
      ensures |lh| <= |s|
    {
      TracedFacts(layout, m0, sp0, events, Machine(disk, phase, lh), spec);
      DistinctWithin(lh, s);
    }

    /** Outside a transaction the file system reads the committed home. */
    lemma IdleHome()
      requires Valid() && lh == []
      ensures View() == spec.home && SpecExec(sp0, events) == spec
    {
      TracedPending(layout, m0, sp0, events, Machine(disk, phase, lh), spec);
    }

    /** log_init: whatever was cut off when the machine went down, recovery finishes or drops it. */
    constructor Init(l: Layout, image: seq<Block>)
      requires l.Valid() && HeaderOk(l, image) && Distinct(Header(image[l.start]))
      ensures Valid() && !busy && layout == l
      ensures View() == Recovered(l, image) && disk[..l.start] == Recovered(l, image)
    {
      hide Traced, Held;
      ghost var m, s, es, sp := DownTrace(l, image);
      layout := l;
      disk := image;
      cache := map[];
      busy := false;
      lh := [];
      phase := Down;
      m0 := m;
      sp0 := s;
      events := es;
      mark := es;
      spec := sp;
      new;
      RecoverFromLog();
    }

    /** Record one step of the machine. */
    ghost method Emit(e: Event, before: Machine)
      requires Traced(layout, m0, sp0, events, before, spec) && Enabled(layout, before, e)
      requires Next(layout, before, e).disk == disk && Next(layout, before, e).lh == lh
      modifies `events, `spec, `phase
      ensures events == old(events) + [e] && spec == SpecNext(old(spec), e)
      ensures phase == Next(layout, before, e).phase
      ensures Tracing()
    {
      TracedExtend(layout, m0, sp0, events, before, spec, e);
      phase := Next(layout, before, e).phase;
      events := events + [e];
      spec := SpecNext(spec, e);
    }

    /** bufcache_read followed by a release.  Making room may recycle clean buffers: which
        ones is left open, but a dirty buffer is never among them. */
    method BufRead(s: nat, ghost k: nat) returns (b: Block)
      requires Coherent(layout, disk, cache, lh, k) && s < |disk|
      modifies `cache
      ensures Coherent(layout, disk, cache, lh, k)
      ensures b == Cached(disk, old(cache), s)
    {
      if s in cache {
        b := cache[s].data;
      } else {
        ghost var before := cache;
        var victims: set<nat> := *;
        cache := map t | t in cache && (cache[t].dirty || t !in victims) :: cache[t];
        RecycleCoherent(layout, disk, before, cache, lh, k);
        b := disk[s];
        cache := cache[s := Buf(b, false)];
      }
    }

    method Read(s: nat) returns (b: Block)
      requires Valid() && s < layout.start
      modifies `cache
      ensures Valid()
      ensures b == View()[s]
    {
      RunKeepsInv(layout, m0, sp0, events);
      CachedIsOverlay(layout, Machine(disk, phase, lh), spec, cache, s);
      b := BufRead(s, 0);
    }

    /** begin_trans once its waiting loop has ended: no transaction is active. */
    method BeginTrans()
      requires Valid() && !busy
      modifies `busy, `mark
      ensures Valid() && busy && mark == events && View() == old(View())
    {
      busy := true;
      mark := events;
      HeldRefl(sp0, events);
    }

    /** The absorption loop of log_write. */
    method FindSlot(s: nat) returns (i: nat)
      ensures i == IndexOf(lh, s)
    {
      i := 0;
      while i < |lh| && lh[i] != s
        invariant 0 <= i <= |lh|
        invariant forall j :: 0 <= j < i ==> lh[j] != s
      {
        i := i + 1;
      }
    }

    /** log_write.  The preconditions are its two panics and the hypothesis that only home
        sectors below the log are logged. */
    method LogWrite(s: nat, b: Block)
      requires Valid() && s < layout.start
      requires |lh| < LOGSIZE && |lh| < layout.size - 1
      requires busy
      modifies this
      ensures Valid() && busy
      ensures View() == old(View())[s := b]
      ensures spec.home == old(spec.home) && mark == old(mark) && lh == Record(old(lh), s)
      ensures events == old(events) + [Append(s, b)]
    {
      hide Traced, Coherent, Held;
      ghost var before := Machine(disk, phase, lh);
      TracedFacts(layout, m0, sp0, events, before, spec);
      HeldAppend(sp0, mark, events, Append(s, b));
      var i := FindSlot(s);
      var slot := layout.start + 1 + i;
      var _ := BufRead(slot, 0);
      RecordPlaces(lh, s);
      SlotWriteCoherent(layout, disk, cache, lh, Record(lh, s), s, i, b);
      OverlayUpdate(spec.home, spec.pending, s, b);
      disk := disk[slot := b];
      cache := cache[slot := Buf(b, false)][s := Buf(b, true)];
      if i == |lh| {
        lh := lh + [s];
      }
      Emit(Append(s, b), before);
    }

    /** write_head: read the header block, fill in the count and the sectors, write it.
        With `hd == lh` this is the commit; with `hd == []` it erases the transaction. */
    method WriteHead(hd: seq<nat>, ghost e: Event, ghost k: nat)
      requires Tracing() && Coherent(layout, disk, cache, lh, k)
      requires (e == Commit && hd == lh) || (e == Clear && hd == [] && k == |lh|)
      requires Enabled(layout, Machine(disk, phase, lh), e)
      modifies this
      ensures busy == old(busy) && lh == hd && Tracing()
      ensures Coherent(layout, disk, cache, lh, if e == Commit then k else 0)
      ensures phase == (if e == Commit then Installing(0) else Running)
      ensures events == old(events) + [e] && spec == SpecNext(old(spec), e)
    {
      hide Traced, Coherent;
      ghost var before := Machine(disk, phase, lh);
      TracedFacts(layout, m0, sp0, events, before, spec);
      HeaderIsClean(layout, disk, cache, lh, k);
      var h := BufRead(layout.start, k);
      h := FillHeader(h, hd);
      HeaderWriteCoherent(layout, disk, cache, lh, k, h);
      disk := disk[layout.start := h];
      cache := cache[layout.start := Buf(h, false)];
      lh := hd;
      Emit(e, before);
    }

    method InstallOne(tail: nat, ghost k: nat)
      requires Tracing() && phase == Installing(tail) && tail < |lh|
      requires Coherent(layout, disk, cache, lh, k) && (k == tail || k == |lh|)
      modifies this
      ensures busy == old(busy) && lh == old(lh) && Tracing()
      ensures Coherent(layout, disk, cache, lh, if k == tail then tail + 1 else k)
      ensures phase == Installing(tail + 1) && spec == old(spec)
      ensures events == old(events) + [Install]
    {
      hide Traced, Coherent;
      ghost var before := Machine(disk, phase, lh);
      TracedFacts(layout, m0, sp0, events, before, spec);
      HeaderIsClean(layout, disk, cache, lh, k);
      var lbuf := BufRead(layout.start + 1 + tail, k);
      var dbuf := BufRead(lh[tail], k);
      if k == tail {
        InstallCoherent(layout, disk, cache, lh, k);
      } else {
        CleanInstallCoherent(layout, disk, cache, lh, tail);
      }
      dbuf := lbuf;
      disk := disk[lh[tail] := dbuf];
      cache := cache[lh[tail] := Buf(dbuf, false)];
      Emit(Install, before);
    }

    /** install_trans: copy each logged block home, in slot order. */
    method InstallTrans(ghost n: nat)
      requires Tracing() && phase == Installing(0) && n <= |lh|
      requires Coherent(layout, disk, cache, lh, n) && (n == 0 || n == |lh|)
      modifies this
      ensures busy == old(busy) && lh == old(lh) && Tracing()
      ensures Coherent(layout, disk, cache, lh, |lh|)
      ensures phase == Installing(|lh|) && spec == old(spec)
      ensures events == old(events) + Repeat(Install, |lh|)
    {
      hide Traced, Coherent;
      var tail := 0;
      while tail < |lh|
        invariant 0 <= tail <= |lh| && lh == old(lh) && busy == old(busy) && spec == old(spec)
        invariant Tracing() && phase == Installing(tail)
        invariant Coherent(layout, disk, cache, lh, if n == 0 then tail else n)
        invariant events == old(events) + Repeat(Install, tail)
      {
        InstallOne(tail, if n == 0 then tail else n);
        tail := tail + 1;
      }
    }

    /** commit_trans: header, installs, erase; nothing at all for an empty transaction. */
    method CommitTrans()
      requires Valid() && busy
      modifies this
      ensures Valid() && !busy && lh == []
      ensures View() == old(View()) && spec.home == old(View())
      ensures events == old(events) + CommitEvents(|old(lh)|)
      ensures TwoHomes(sp0, old(mark), events, old(spec.home), old(View()))
    {
      hide Traced, Coherent, Held, TwoHomes, SpecExec, CommitEvents;
      TracedSpec(layout, m0, sp0, events, Machine(disk, phase, lh), spec);
      HeldCommit(sp0, mark, events, |lh|);
      TracedPending(layout, m0, sp0, events, Machine(disk, phase, lh), spec);
      if |lh| > 0 {
        WriteHead(lh, Commit, 0);
        InstallTrans(0);
        TracedFacts(layout, m0, sp0, events, Machine(disk, phase, lh), spec);
        WriteHead([], Clear, |lh|);
      }
      busy := false;
      mark := events;
      HeldRefl(sp0, events);
      CommitEventsParts(old(events), |old(lh)|);
    }

    /** The machine stops between two disk writes: only the disk survives. */
    method PowerLoss()
      requires Tracing()
      modifies this
      ensures Tracing() && phase.Down? && Coherent(layout, disk, cache, lh, 0)
      ensures disk == old(disk) && spec.home == old(spec.home) && events == old(events) + [Crash]
    {
      ghost var before := Machine(disk, phase, lh);
      TracedFacts(layout, m0, sp0, events, before, spec);
      cache := map[];
      lh := [];
      busy := false;
      Emit(Crash, before);
    }

    /** read_head. */
    method ReadHead()
      requires Tracing() && phase.Down? && Coherent(layout, disk, cache, lh, 0)
      modifies this
      ensures Tracing() && phase == Installing(0) && Coherent(layout, disk, cache, lh, |lh|)
      ensures disk == old(disk) && spec == old(spec) && events == old(events) + [Boot]
    {
      ghost var before := Machine(disk, phase, lh);
      RecoveryNeverStuck(layout, m0, sp0, events);
      TracedFacts(layout, m0, sp0, events, before, spec);
      HeaderIsClean(layout, disk, cache, lh, 0);
      var h := BufRead(layout.start, 0);
      var n := Word(h, 0);
      lh := [];
      while |lh| < n
        invariant |lh| <= n
        invariant disk == old(disk) && events == old(events) && spec == old(spec) && phase.Down?
        invariant forall i :: 0 <= i < |lh| ==> lh[i] == Word(h, 1 + i)
        invariant Coherent(layout, disk, cache, [], 0)
      {
        lh := lh + [Word(h, 1 + |lh|)];
      }
      assert lh == Header(h);
      Emit(Boot, before);
      TracedFacts(layout, m0, sp0, events, Machine(disk, phase, lh), spec);
    }

    /** recover_from_log.  Whatever was cut off, and however often, a recovery that completes
        leaves the home sectors of the last committed transaction and an empty log. */
    method RecoverFromLog()
      requires Tracing() && phase.Down? && Coherent(layout, disk, cache, lh, 0)
      modifies this
      ensures Valid() && !busy
      ensures View() == old(spec.home) && disk[..layout.start] == old(spec.home)
    {
      hide Traced, Coherent, Held;
      ReadHead();
      InstallTrans(|lh|);
      TracedFacts(layout, m0, sp0, events, Machine(disk, phase, lh), spec);
      WriteHead([], Clear, |lh|);
      busy := false;
      mark := events;
      HeldRefl(sp0, events);
      TracedPending(layout, m0, sp0, events, Machine(disk, phase, lh), spec);
    }
  }
}
