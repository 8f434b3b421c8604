/** The redo log of kern/fs/log.c seen from the disk: one event per sector write, plus
    `Crash` (memory is lost) and `Boot` (the header is read back).  A separate two-field
    specification says what the home sectors should hold after a recovery, and the
    theorems below relate the two for every sequence of events. */
module LogMachine {
  import opened Sequences
  import opened Bytes

  const BSIZE := 512
  const LOGSIZE := 10

  type Block = b: seq<byte> | |b| == BSIZE witness Zeros(BSIZE)

  /** Home sectors are [0, start); the header is sector `start`; slots follow it. */
  datatype Layout = Layout(start: nat, size: nat) {
    ghost predicate Valid() {
      1 <= size && start + size <= WORD_LIMIT
    }
  }

  // ---- The header block ----

  function HeaderCount(b: Block): (n: word) {
    Word(b, 0)
  }

  function Header(b: Block): (lh: seq<nat>)
    requires HeaderCount(b) <= LOGSIZE
  {
    seq(HeaderCount(b), i requires 0 <= i < HeaderCount(b) => Word(b, 1 + i))
  }

  predicate Words(lh: seq<nat>) { forall i :: 0 <= i < |lh| ==> lh[i] < WORD_LIMIT }

  /** write_head: store the count, then the sectors; later words keep their old contents. */
  function PutSectors(b: Block, lh: seq<nat>, k: nat): (r: Block)
    requires k <= |lh| <= LOGSIZE && Words(lh)
    decreases |lh| - k
  {
    if k == |lh| then b else PutSectors(SetWord(b, 1 + k, lh[k]), lh, k + 1)
  }

  function PutHeader(b: Block, lh: seq<nat>): (r: Block)
    requires |lh| <= LOGSIZE && Words(lh)
  {
    PutSectors(SetWord(b, 0, |lh|), lh, 0)
  }

  lemma {:induction false} PutSectorsWords(b: Block, lh: seq<nat>, k: nat, i: nat)
    requires k <= |lh| <= LOGSIZE && Words(lh) && i < BSIZE / 4
    ensures Word(PutSectors(b, lh, k), i) == if k <= i - 1 < |lh| then lh[i - 1] else Word(b, i)
    decreases |lh| - k
  {
    if k < |lh| {
      WordOfSetWord(b, 1 + k, lh[k], i);
      PutSectorsWords(SetWord(b, 1 + k, lh[k]), lh, k + 1, i);
    }
  }

  /** What write_head stores, read_head reads back. */
  lemma HeaderRoundTrip(b: Block, lh: seq<nat>)
    requires |lh| <= LOGSIZE && Words(lh)
    ensures HeaderCount(PutHeader(b, lh)) == |lh|
    ensures Header(PutHeader(b, lh)) == lh
    ensures forall i :: 0 <= i < BSIZE / 4 ==>
              Word(PutHeader(b, lh), i) == if i == 0 then |lh| else if i <= |lh| then lh[i - 1] else Word(b, i)
  {
    var r := PutHeader(b, lh);
    forall i | 0 <= i < BSIZE / 4
      ensures Word(r, i) == if i == 0 then |lh| else if i <= |lh| then lh[i - 1] else Word(b, i)
    {
      WordOfSetWord(b, 0, |lh|, i);
      PutSectorsWords(SetWord(b, 0, |lh|), lh, 0, i);
    }
  }

  // ---- The machine ----

  datatype Phase = Down | Running | Installing(next: nat)

  datatype Machine = Machine(disk: seq<Block>, phase: Phase, lh: seq<nat>)

  datatype Event =
    | Append(sector: nat, data: Block)  // log_write's slot write
    | Commit                             // commit_trans's header write
    | Install                            // one iteration of install_trans
    | Clear                              // the header write with n == 0
    | Crash
    | Boot                               // read_head

  /** log_write: an already logged sector keeps its slot, a new one takes the next. */
  function Record(lh: seq<nat>, s: nat): (r: seq<nat>) {
    if IndexOf(lh, s) == |lh| then lh + [s] else lh
  }

  predicate Sized(l: Layout, m: Machine) {
    1 <= l.size && |m.disk| == l.start + l.size
  }

  predicate Enabled(l: Layout, m: Machine, e: Event) {
    Sized(l, m) &&
    match e
    case Append(s, _) => m.phase.Running? && s < l.start && |m.lh| < LOGSIZE && |m.lh| < l.size - 1
    case Commit => m.phase.Running? && 0 < |m.lh| <= LOGSIZE && Words(m.lh)
    case Install => m.phase.Installing? && m.phase.next < |m.lh| < l.size && m.lh[m.phase.next] < |m.disk|
    case Clear => m.phase.Installing? && m.phase.next == |m.lh|
    case Crash => true
    case Boot => m.phase.Down? && HeaderCount(m.disk[l.start]) <= LOGSIZE
  }

  function Next(l: Layout, m: Machine, e: Event): (m': Machine)
    requires Enabled(l, m, e)
  {
    match e
    case Append(s, d) =>
      Machine(m.disk[l.start + 1 + IndexOf(m.lh, s) := d], Running, Record(m.lh, s))
    case Commit =>
      Machine(m.disk[l.start := PutHeader(m.disk[l.start], m.lh)], Installing(0), m.lh)
    case Install =>
      var k := m.phase.next;
      Machine(m.disk[m.lh[k] := m.disk[l.start + 1 + k]], Installing(k + 1), m.lh)
    case Clear =>
      Machine(m.disk[l.start := PutHeader(m.disk[l.start], [])], Running, [])
    case Crash =>
      Machine(m.disk, Down, [])
    case Boot =>
      Machine(m.disk, Installing(0), Header(m.disk[l.start]))
  }

  // ---- What recovery makes of a disk image ----

  function Replay(l: Layout, disk: seq<Block>, lh: seq<nat>, k: nat): (r: seq<Block>)
    requires k <= |lh| < l.size && |disk| == l.start + l.size
    requires forall i :: 0 <= i < |lh| ==> lh[i] < l.start
    ensures |r| == |disk|
    decreases |lh| - k
  {
    if k == |lh| then disk else Replay(l, disk[lh[k] := disk[l.start + 1 + k]], lh, k + 1)
  }

  predicate HeaderOk(l: Layout, disk: seq<Block>) {
    && 1 <= l.size && |disk| == l.start + l.size
    && HeaderCount(disk[l.start]) <= LOGSIZE
    && HeaderCount(disk[l.start]) < l.size
    && forall i :: 0 <= i < |Header(disk[l.start])| ==> Header(disk[l.start])[i] < l.start
  }

  /** The home sectors after reading the header back and installing all it lists. */
  function Recovered(l: Layout, disk: seq<Block>): (home: seq<Block>)
    requires HeaderOk(l, disk)
    ensures |home| == l.start
  {
    Replay(l, disk, Header(disk[l.start]), 0)[..l.start]
  }

  // ---- The specification ----

  /** `home`: the home sectors after the last committed transaction;
      `pending`: the writes of the transaction in progress. */
  datatype Spec = Spec(home: seq<Block>, pending: map<nat, Block>)

  function Overlay(home: seq<Block>, pending: map<nat, Block>): (r: seq<Block>)
    ensures |r| == |home|
    ensures forall s :: 0 <= s < |home| ==> r[s] == if s in pending then pending[s] else home[s]
  {
    seq(|home|, s requires 0 <= s < |home| => if s in pending then pending[s] else home[s])
  }

  function SpecNext(sp: Spec, e: Event): (sp': Spec) {
    match e
    case Append(s, d) => sp.(pending := sp.pending[s := d])
    case Commit => Spec(Overlay(sp.home, sp.pending), map[])
    case Crash => sp.(pending := map[])
    case _ => sp
  }

  // ---- Runs ----

  ghost predicate Runs(l: Layout, m0: Machine, es: seq<Event>)
    decreases |es|, 0
  {
    es == [] ||
    (var n := |es| - 1; Runs(l, m0, es[..n]) && Enabled(l, Exec(l, m0, es[..n]), es[n]))
  }

  ghost function Exec(l: Layout, m0: Machine, es: seq<Event>): (m: Machine)
    requires Runs(l, m0, es)
    decreases |es|, 1
  {
    if es == [] then m0 else var n := |es| - 1; Next(l, Exec(l, m0, es[..n]), es[n])
  }

  ghost function SpecExec(sp0: Spec, es: seq<Event>): (sp: Spec)
    decreases |es|
  {
    if es == [] then sp0 else var n := |es| - 1; SpecNext(SpecExec(sp0, es[..n]), es[n])
  }

  lemma RunsExtend(l: Layout, m0: Machine, es: seq<Event>, e: Event)
    requires Runs(l, m0, es) && Enabled(l, Exec(l, m0, es), e)
    ensures Runs(l, m0, es + [e])
    ensures Exec(l, m0, es + [e]) == Next(l, Exec(l, m0, es), e)
  {
    assert (es + [e])[..|es|] == es;
  }

  lemma {:induction false} RunsPrefix(l: Layout, m0: Machine, es: seq<Event>, k: nat)
    requires Runs(l, m0, es) && k <= |es|
    ensures Runs(l, m0, es[..k])
    decreases |es|
  {
    if k == |es| {
      assert es[..k] == es;
    } else {
      RunsPrefix(l, m0, es[..|es| - 1], k);
      assert es[..|es| - 1][..k] == es[..k];
    }
  }

  lemma SpecExtend(sp0: Spec, es: seq<Event>, e: Event)
    ensures SpecExec(sp0, es + [e]) == SpecNext(SpecExec(sp0, es), e)
  {
    assert (es + [e])[..|es|] == es;
  }

  /** A disk as mkfs leaves it: an empty log. */
  ghost predicate Fresh(l: Layout, m: Machine, sp: Spec) {
    && l.Valid() && Sized(l, m)
    && m.phase.Running? && m.lh == [] && HeaderCount(m.disk[l.start]) == 0
    && sp == Spec(m.disk[..l.start], map[])
  }

  // ---- The invariant ----

  /** `home` is `disk` with the slots listed by `lh` laid over it. */
  ghost predicate Agrees(l: Layout, disk: seq<Block>, lh: seq<nat>, home: seq<Block>) {
    && |lh| < l.size && |disk| == l.start + l.size && |home| == l.start
    && (forall i :: 0 <= i < |lh| ==> lh[i] < l.start && home[lh[i]] == disk[l.start + 1 + i])
    && (forall s :: 0 <= s < l.start && s !in lh ==> home[s] == disk[s])
  }

  ghost predicate Inv(l: Layout, m: Machine, sp: Spec) {
    && l.Valid() && HeaderOk(l, m.disk)
    && |sp.home| == l.start
    && Distinct(m.lh) && |m.lh| <= LOGSIZE
    && Agrees(l, m.disk, Header(m.disk[l.start]), sp.home)
    && (forall s :: s in sp.pending ==> s < l.start)
    && Distinct(Header(m.disk[l.start]))
    && match m.phase
       case Down => m.lh == [] && sp.pending == map[]
       case Running =>
         && Header(m.disk[l.start]) == []
         && |m.lh| < l.size
         && (forall s :: s in m.lh <==> s in sp.pending)
         && (forall i :: 0 <= i < |m.lh| ==> m.disk[l.start + 1 + i] == sp.pending[m.lh[i]])
       case Installing(k) =>
         && sp.pending == map[]
         && Header(m.disk[l.start]) == m.lh && k <= |m.lh|
         && (forall i :: 0 <= i < k ==> m.disk[m.lh[i]] == m.disk[l.start + 1 + i])
  }

  /** Installing from any point leaves the home the header describes. */
  lemma {:induction false} ReplayAgrees(l: Layout, disk: seq<Block>, lh: seq<nat>, k: nat, home: seq<Block>)
    requires k <= |lh| && Agrees(l, disk, lh, home)
    requires forall i :: 0 <= i < k ==> disk[lh[i]] == home[lh[i]]
    ensures Replay(l, disk, lh, k)[..l.start] == home
    decreases |lh| - k
  {
    if k == |lh| {
      assert forall s :: 0 <= s < l.start && s in lh ==> exists i :: 0 <= i < |lh| && lh[i] == s;
      assert disk[..l.start] == home;
    } else {
      ReplayAgrees(l, disk[lh[k] := disk[l.start + 1 + k]], lh, k + 1, home);
    }
  }

  lemma RecordDistinct(lh: seq<nat>, s: nat)
    requires Distinct(lh)
    ensures Distinct(Record(lh, s))
    ensures forall t :: t in Record(lh, s) <==> t in lh || t == s
    ensures |Record(lh, s)| <= |lh| + 1
  {
  }

  lemma AppendKeepsInv(l: Layout, m: Machine, sp: Spec, s: nat, d: Block)
    requires Inv(l, m, sp) && Enabled(l, m, Append(s, d))
    ensures Inv(l, Next(l, m, Append(s, d)), SpecNext(sp, Append(s, d)))
  {
    var m', sp' := Next(l, m, Append(s, d)), SpecNext(sp, Append(s, d));
    var i := IndexOf(m.lh, s);
    RecordDistinct(m.lh, s);
    assert m'.disk[l.start] == m.disk[l.start];
    forall j | 0 <= j < |m'.lh|
      ensures m'.disk[l.start + 1 + j] == sp'.pending[m'.lh[j]]
    {
      if j != i {
        assert m'.lh[j] == m.lh[j] && m.lh[j] != s;
        assert m.disk[l.start + 1 + j] == sp.pending[m.lh[j]];
      }
    }
  }

  /** The header write is the commit point: the new home is the overlay of every slot. */
  lemma CommitKeepsInv(l: Layout, m: Machine, sp: Spec)
    requires Inv(l, m, sp) && Enabled(l, m, Commit)
    ensures Inv(l, Next(l, m, Commit), SpecNext(sp, Commit))
  {
    var m', sp' := Next(l, m, Commit), SpecNext(sp, Commit);
    HeaderRoundTrip(m.disk[l.start], m.lh);
    assert Header(m'.disk[l.start]) == m.lh;
    forall i | 0 <= i < |m.lh|
      ensures m.lh[i] < l.start && sp'.home[m.lh[i]] == m'.disk[l.start + 1 + i]
    {
      assert m.lh[i] in m.lh;
      assert m.disk[l.start + 1 + i] == sp.pending[m.lh[i]];
    }
  }

  lemma AgreesInstall(l: Layout, disk: seq<Block>, lh: seq<nat>, home: seq<Block>, k: nat)
    requires Agrees(l, disk, lh, home) && k < |lh|
    ensures Agrees(l, disk[lh[k] := disk[l.start + 1 + k]], lh, home)
  {
  }

  /** Re-installing a block that is already home changes nothing a recovery would see. */
  lemma InstallKeepsInv(l: Layout, m: Machine, sp: Spec)
    requires Inv(l, m, sp) && Enabled(l, m, Install)
    ensures Inv(l, Next(l, m, Install), SpecNext(sp, Install))
  {
    hide Agrees;
    var m', k := Next(l, m, Install), m.phase.next;
    assert m.lh[k] < l.start && m'.disk[l.start] == m.disk[l.start];
    AgreesInstall(l, m.disk, m.lh, sp.home, k);
    forall i | 0 <= i < k + 1
      ensures m'.disk[m.lh[i]] == m'.disk[l.start + 1 + i]
    {
      if i != k {
        assert m.lh[i] != m.lh[k];
        assert m.disk[m.lh[i]] == m.disk[l.start + 1 + i];
      }
    }
  }

  lemma ClearKeepsInv(l: Layout, m: Machine, sp: Spec)
    requires Inv(l, m, sp) && Enabled(l, m, Clear)
    ensures Inv(l, Next(l, m, Clear), SpecNext(sp, Clear))
  {
    var m' := Next(l, m, Clear);
    HeaderRoundTrip(m.disk[l.start], []);
    forall s | 0 <= s < l.start
      ensures sp.home[s] == m'.disk[s]
    {
      if s in m.lh {
        var i :| 0 <= i < |m.lh| && m.lh[i] == s;
        assert m.disk[m.lh[i]] == m.disk[l.start + 1 + i];
      }
    }
  }

  lemma StepKeepsInv(l: Layout, m: Machine, sp: Spec, e: Event)
    requires Inv(l, m, sp) && Enabled(l, m, e)
    ensures Inv(l, Next(l, m, e), SpecNext(sp, e))
  {
    match e
    case Append(s, d) => AppendKeepsInv(l, m, sp, s, d);
    case Commit => CommitKeepsInv(l, m, sp);
    case Install => InstallKeepsInv(l, m, sp);
    case Clear => ClearKeepsInv(l, m, sp);
    case Crash =>
    case Boot =>
  }

  lemma {:induction false} RunKeepsInv(l: Layout, m0: Machine, sp0: Spec, es: seq<Event>)
    requires Fresh(l, m0, sp0) && Runs(l, m0, es)
    ensures Inv(l, Exec(l, m0, es), SpecExec(sp0, es))
    decreases |es|
  {
    if es != [] {
      var n := |es| - 1;
      RunKeepsInv(l, m0, sp0, es[..n]);
      StepKeepsInv(l, Exec(l, m0, es[..n]), SpecExec(sp0, es[..n]), es[n]);
    }
  }

  // ---- Main results ----

  /** Crash atomicity.  Stop any run after any disk write; recovery from that image gives
      exactly the home sectors of the last transaction whose header write reached disk. */
  lemma CrashAtomicity(l: Layout, m0: Machine, sp0: Spec, es: seq<Event>)
    requires Fresh(l, m0, sp0) && Runs(l, m0, es)
    ensures HeaderOk(l, Exec(l, m0, es).disk)
    ensures Recovered(l, Exec(l, m0, es).disk) == SpecExec(sp0, es).home
  {
    RunKeepsInv(l, m0, sp0, es);
    var m := Exec(l, m0, es);
    ReplayAgrees(l, m.disk, Header(m.disk[l.start]), 0, SpecExec(sp0, es).home);
  }

  /** Recovery is never stuck, wherever earlier recoveries were cut off: a machine that is
      down can boot, and a machine installing can take its next step. */
  lemma RecoveryNeverStuck(l: Layout, m0: Machine, sp0: Spec, es: seq<Event>)
    requires Fresh(l, m0, sp0) && Runs(l, m0, es)
    ensures var m := Exec(l, m0, es);
            match m.phase
            case Down => Enabled(l, m, Boot)
            case Installing(k) => Enabled(l, m, if k < |m.lh| then Install else Clear)
            case Running => m.disk[..l.start] == SpecExec(sp0, es).home
  {
    RunKeepsInv(l, m0, sp0, es);
  }

  /** Write-ahead: a step changes a home sector only when the header already on disk lists it,
      and then to its committed contents. */
  lemma WriteAhead(l: Layout, m0: Machine, sp0: Spec, es: seq<Event>, e: Event, s: nat)
    requires Fresh(l, m0, sp0) && Runs(l, m0, es) && Enabled(l, Exec(l, m0, es), e)
    requires s < l.start
    requires Next(l, Exec(l, m0, es), e).disk[s] != Exec(l, m0, es).disk[s]
    ensures HeaderOk(l, Exec(l, m0, es).disk) && s in Header(Exec(l, m0, es).disk[l.start])
    ensures s < |SpecExec(sp0, es).home|
    ensures Next(l, Exec(l, m0, es), e).disk[s] == SpecExec(sp0, es).home[s]
  {
    RunKeepsInv(l, m0, sp0, es);
  }

  /** Absorption: while a transaction runs, each logged sector has one slot, and that slot
      holds the latest data logged for it. */
  lemma LogHoldsLatest(l: Layout, m0: Machine, sp0: Spec, es: seq<Event>, s: nat)
    requires Fresh(l, m0, sp0) && Runs(l, m0, es) && Exec(l, m0, es).phase.Running?
    ensures Distinct(Exec(l, m0, es).lh)
    ensures s in SpecExec(sp0, es).pending <==> s in Exec(l, m0, es).lh
    ensures s in SpecExec(sp0, es).pending ==> SlotHolds(l, Exec(l, m0, es), s, SpecExec(sp0, es).pending[s])
  {
    RunKeepsInv(l, m0, sp0, es);
    SlotHoldsPending(l, Exec(l, m0, es), SpecExec(sp0, es), s);
  }

  // ---- Why logged sectors must lie below the log ----

  /** The disk after the first `k` installs of `lh`, one of which may hit the header sector. */
  function Installed(l: Layout, disk: seq<Block>, lh: seq<nat>, k: nat): (r: seq<Block>)
    requires k <= |lh| < l.size && |disk| == l.start + l.size && forall i :: 0 <= i < |lh| ==> lh[i] <= l.start
    ensures |r| == |disk|
  {
    if k == 0 then disk else Installed(l, disk, lh, k - 1)[lh[k - 1] := Installed(l, disk, lh, k - 1)[l.start + k]]
  }

  lemma {:induction false} InstalledAt(l: Layout, disk: seq<Block>, lh: seq<nat>, k: nat, s: nat)
    requires k <= |lh| < l.size && |disk| == l.start + l.size && forall i :: 0 <= i < |lh| ==> lh[i] <= l.start
    requires Distinct(lh) && s < |disk|
    ensures s > l.start ==> Installed(l, disk, lh, k)[s] == disk[s]
    ensures s <= l.start ==>
              Installed(l, disk, lh, k)[s]
              == if IndexOf(lh, s) < k then disk[l.start + 1 + IndexOf(lh, s)] else disk[s]
  {
    if k > 0 {
      InstalledAt(l, disk, lh, k - 1, s);
      InstalledAt(l, disk, lh, k - 1, l.start + k);
      if IndexOf(lh, s) < |lh| && s != lh[k - 1] {
        assert IndexOf(lh, s) != k - 1;
      }
      if s == lh[k - 1] {
        assert IndexOf(lh, s) == k - 1;
      }
    }
  }

  /** The home sectors with the first `k` slots of `lh` laid over them. */
  function LaidOver(l: Layout, disk: seq<Block>, lh: seq<nat>, k: nat): (home: seq<Block>)
    requires k <= |lh| < l.size && |disk| == l.start + l.size
  {
    seq(l.start, s requires 0 <= s < l.start =>
      if IndexOf(lh, s) < k then disk[l.start + 1 + IndexOf(lh, s)] else disk[s])
  }

  /** Slot `i` of `lh` changes the sector it is for. */
  predicate Changes(l: Layout, disk: seq<Block>, lh: seq<nat>, i: nat)
    requires i < |lh| < l.size && |disk| == l.start + l.size && lh[i] <= l.start
  {
    disk[l.start + 1 + i] != disk[lh[i]]
  }

  /** Had block_alloc handed out the header sector as a data block, its zeroed copy would sit in
      some slot `k`, after the bitmap block.  Installing that slot wipes the header.  A crash right
      then leaves slots 0..k-1 home and the others forgotten: a mixture. */
  lemma LoggedHeaderMixes(l: Layout, disk: seq<Block>, lh: seq<nat>, k: nat)
    requires k < |lh| < l.size && |disk| == l.start + l.size && Distinct(lh)
    requires (forall i :: 0 <= i < |lh| ==> lh[i] <= l.start) && lh[k] == l.start
    requires HeaderCount(disk[l.start + 1 + k]) == 0
    ensures var d := Installed(l, disk, lh, k + 1);
            HeaderOk(l, d) && Recovered(l, d) == LaidOver(l, disk, lh, k)
  {
    var d := Installed(l, disk, lh, k + 1);
    assert IndexOf(lh, l.start) == k;
    InstalledAt(l, disk, lh, k + 1, l.start);
    assert Header(d[l.start]) == [];
    forall s | 0 <= s < l.start
      ensures d[s] == LaidOver(l, disk, lh, k)[s]
    {
      InstalledAt(l, disk, lh, k + 1, s);
      assert IndexOf(lh, s) != k;
    }
    hide Installed, LaidOver;
    assert Recovered(l, d) == d[..l.start];
  }

  /** That is the old home if and only if no slot below `k` changes anything, and the new one if
      and only if no slot above `k` does. */
  lemma MixtureExact(l: Layout, disk: seq<Block>, lh: seq<nat>, k: nat)
    requires k < |lh| < l.size && |disk| == l.start + l.size && Distinct(lh)
    requires (forall i :: 0 <= i < |lh| ==> lh[i] <= l.start) && lh[k] == l.start
    ensures LaidOver(l, disk, lh, k) == disk[..l.start] <==> forall i :: 0 <= i < k ==> !Changes(l, disk, lh, i)
    ensures LaidOver(l, disk, lh, k) == LaidOver(l, disk, lh, |lh|)
            <==> forall i :: k < i < |lh| ==> !Changes(l, disk, lh, i)
  {
    var mix, new' := LaidOver(l, disk, lh, k), LaidOver(l, disk, lh, |lh|);
    forall i | 0 <= i < |lh| && i != k
      ensures lh[i] < l.start && IndexOf(lh, lh[i]) == i
    {
    }
    forall i | 0 <= i < k
      ensures Changes(l, disk, lh, i) <==> mix[lh[i]] != disk[..l.start][lh[i]]
    {
    }
    forall i | k < i < |lh|
      ensures Changes(l, disk, lh, i) <==> mix[lh[i]] != new'[lh[i]]
    {
    }
    forall s | 0 <= s < l.start
      ensures mix[s] != disk[..l.start][s] ==> IndexOf(lh, s) < k && Changes(l, disk, lh, IndexOf(lh, s))
      ensures mix[s] != new'[s] ==> k < IndexOf(lh, s) < |lh| && Changes(l, disk, lh, IndexOf(lh, s))
    {
    }
  }

  /** The log slot of sector `s` is in use and holds `d`. */
  ghost predicate SlotHolds(l: Layout, m: Machine, s: nat, d: Block) {
    var i := IndexOf(m.lh, s);
    i < |m.lh| && l.start + 1 + i < |m.disk| && m.disk[l.start + 1 + i] == d
  }

  lemma SlotHoldsPending(l: Layout, m: Machine, sp: Spec, s: nat)
    requires Inv(l, m, sp) && m.phase.Running?
    ensures s in sp.pending ==> SlotHolds(l, m, s, sp.pending[s])
  {
    if s in m.lh {
      var i :| 0 <= i < |m.lh| && m.lh[i] == s;
      assert IndexOf(m.lh, s) <= i;
    }
  }
}
