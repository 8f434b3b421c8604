/** kern/vmm: two-level page tables as values.  Physical memory is a sequence of 4096-byte pages;
    page directories and page tables hold 32-bit entries (page << 12 | permissions). */
module PageTable {
  import opened Bytes
  import opened PageAlloc

  const ENTRIES := 1024
  const USERLO_PDE := 256
  const USERHI_PDE := 960
  /** PTE_P | PTE_W | PTE_U */
  const PTU := 7

  /** What a user page is used for: the page table of directory entry `d` of process `p`, or the
      data page behind entry `t` of that table. */
  datatype Slot = Tbl(p: nat, d: nat) | Dat(p: nat, d: nat, t: nat)

  /** PDirPool, physical memory, the first page of IDPTbl, and who holds each user page. */
  datatype Space = Space(pd: seq<seq<word>>, mem: seq<seq<byte>>, idBase: nat, owner: map<nat, Slot>)

  /** (page << 12) | perm */
  function Word32(page: nat, perm: nat): (w: word)
    requires page < 0x10_0000 && perm < PAGESIZE
    ensures w / PAGESIZE == page && w % PAGESIZE == perm
  {
    page * PAGESIZE + perm
  }

  function Pde(s: Space, p: nat, d: nat): word {
    if p < |s.pd| && d < |s.pd[p]| then s.pd[p][d] else 0
  }

  function TableAt(s: Space, g: nat, t: nat): word {
    if g < |s.mem| && 4 * t + 4 <= |s.mem[g]| then Word(s.mem[g], t) else 0
  }

  /** get_ptbl_entry_by_va */
  function Entry(s: Space, p: nat, d: nat, t: nat): word {
    if Pde(s, p, d) == 0 then 0 else TableAt(s, Pde(s, p, d) / PAGESIZE, t)
  }

  /** A directory entry of the user range of a process other than the kernel's own. */
  predicate Private(s: Space, p: nat, d: nat) {
    0 < p < |s.pd| && USERLO_PDE <= d < USERHI_PDE
  }

  predicate Owns(s: Space, g: nat, w: Slot) {
    g in s.owner && s.owner[g] == w
  }

  ghost predicate Shape(s: Space) {
    && |s.mem| <= 0x10_0000
    && (forall p :: 0 <= p < |s.pd| ==> |s.pd[p]| == ENTRIES)
    && (forall g :: 0 <= g < |s.mem| ==> |s.mem[g]| == PAGESIZE)
  }

  // ---- the isolation invariant ----

  predicate TableOwned(s: Space, p: nat, d: nat) {
    Pde(s, p, d) != 0 ==> Pde(s, p, d) % PAGESIZE == PTU && Owns(s, Pde(s, p, d) / PAGESIZE, Tbl(p, d))
  }

  predicate PageOwned(s: Space, p: nat, d: nat, t: nat) {
    Entry(s, p, d, t) != 0 ==> Entry(s, p, d, t) % 2 == 1 && Owns(s, Entry(s, p, d, t) / PAGESIZE, Dat(p, d, t))
  }

  ghost predicate OwnersAllocated(s: Space, at: Table) {
    forall g :: g in s.owner ==> g < |at| && at[g].alloc
  }

  /** Everywhere else the directory points at the identity tables. */
  predicate Fixed(s: Space, p: nat, d: nat) {
    Pde(s, p, d) == (s.idBase + d) * PAGESIZE + PTU
  }

  function IdPerm(d: nat): word {
    if d < USERLO_PDE || USERHI_PDE <= d then 0x103 else 3
  }

  predicate Identity(s: Space, d: nat, t: nat) {
    TableAt(s, s.idBase + d, t) == (d * ENTRIES + t) * PAGESIZE + IdPerm(d)
  }

  ghost predicate Isolated(s: Space) {
    && (forall p, d :: Private(s, p, d) ==> TableOwned(s, p, d))
    && (forall p, d, t :: Private(s, p, d) && 0 <= t < ENTRIES ==> PageOwned(s, p, d, t))
  }

  ghost predicate KernelMapped(s: Space) {
    && (forall p, d :: 0 <= p < |s.pd| && 0 <= d < ENTRIES && !Private(s, p, d) ==> Fixed(s, p, d))
    && (forall d, t :: 0 <= d < ENTRIES && 0 <= t < ENTRIES ==> Identity(s, d, t))
  }

  ghost predicate SpaceInv(s: Space, at: Table, lo: nat, hi: nat, nps: nat) {
    && TableOk(at, lo, hi, nps) && |at| == |s.mem| && 0 < s.idBase && s.idBase + ENTRIES <= lo
    && Shape(s) && OwnersAllocated(s, at) && Isolated(s) && KernelMapped(s)
  }

  // ---- what the invariant means ----

  /** A user page of a process, or one of its page tables, is an allocated page. */
  predicate UserPage(at: Table, lo: nat, hi: nat, g: nat) {
    lo <= g < hi && g < |at| && at[g].alloc
  }

  /** No physical page is mapped twice in user space, no two page tables share a page, and none
      that is mapped holds a page table. */
  lemma NoSharing(s: Space, at: Table, lo: nat, hi: nat, nps: nat,
                  p: nat, d: nat, t: nat, p': nat, d': nat, t': nat)
    requires SpaceInv(s, at, lo, hi, nps)
    requires Private(s, p, d) && t < ENTRIES && Private(s, p', d') && t' < ENTRIES
    ensures var e, e', w, w' := Entry(s, p, d, t), Entry(s, p', d', t'), Pde(s, p, d), Pde(s, p', d');
            && (e != 0 && e' != 0 ==> (e / PAGESIZE == e' / PAGESIZE <==> (p, d, t) == (p', d', t')))
            && (w != 0 && w' != 0 ==> (w / PAGESIZE == w' / PAGESIZE <==> (p, d) == (p', d')))
            && (e != 0 && w' != 0 ==> e / PAGESIZE != w' / PAGESIZE)
            && (e != 0 ==> UserPage(at, lo, hi, e / PAGESIZE)) && (w != 0 ==> UserPage(at, lo, hi, w / PAGESIZE))
  {
    assert PageOwned(s, p, d, t) && PageOwned(s, p', d', t') && TableOwned(s, p, d) && TableOwned(s, p', d');
    hide Entry, Pde, Word;
  }

  lemma EntryParts(page: nat, perm: nat)
    requires perm < PAGESIZE
    ensures (page * PAGESIZE + perm) / PAGESIZE == page && (page * PAGESIZE + perm) % PAGESIZE == perm
  {
  }

  /** Kernel addresses of every process, and all addresses of process 0, map to themselves. */
  lemma KernelIdentity(s: Space, at: Table, lo: nat, hi: nat, nps: nat, p: nat, d: nat, t: nat)
    requires SpaceInv(s, at, lo, hi, nps) && p < |s.pd| && d < ENTRIES && t < ENTRIES && !Private(s, p, d)
    ensures Entry(s, p, d, t) / PAGESIZE == d * ENTRIES + t
    ensures Entry(s, p, d, t) % PAGESIZE == if 256 <= d < 960 then 3 else 0x103
    ensures Pde(s, p, d) % PAGESIZE == 7
  {
    hide Word;
    assert Fixed(s, p, d) && Identity(s, d, t);
    EntryParts(s.idBase + d, PTU);
    EntryParts(d * ENTRIES + t, IdPerm(d));
  }

  /** PTE_P and PTE_U */
  predicate UserBits(e: word) {
    e % 2 == 1 && e / 4 % 2 == 1
  }

  /** User code running as process `p` may touch the page: both levels are present and open to user mode. */
  predicate UserReaches(s: Space, p: nat, d: nat, t: nat) {
    UserBits(Pde(s, p, d)) && UserBits(Entry(s, p, d, t))
  }

  /** Whatever user code can touch lies in the user range, and in a page that belongs to that process alone:
      neither kernel memory nor a page table nor a page of anybody else.  Process 0 reaches nothing. */
  lemma UserConfined(s: Space, at: Table, lo: nat, hi: nat, nps: nat, p: nat, d: nat, t: nat)
    requires SpaceInv(s, at, lo, hi, nps) && p < |s.pd| && d < ENTRIES && t < ENTRIES && UserReaches(s, p, d, t)
    ensures 0 < p && 256 <= d < 960
    ensures var g := Entry(s, p, d, t) / PAGESIZE;
            && UserPage(at, lo, hi, g) && Owns(s, g, Dat(p, d, t))
            && (forall p', d', t' :: 0 <= p' < |s.pd| && 0 <= d' < ENTRIES && 0 <= t' < ENTRIES ==>
                  UserReaches(s, p', d', t') && Entry(s, p', d', t') / PAGESIZE == g ==> (p', d', t') == (p, d, t))
            && (forall p', d' :: 0 <= p' < |s.pd| && 0 <= d' < ENTRIES && Pde(s, p', d') != 0 ==>
                  Pde(s, p', d') / PAGESIZE != g)
  {
    hide Word, TableOk, UserReaches, Entry, Pde;
    ReachOwned(s, at, lo, hi, nps, p, d, t);
    var g := Entry(s, p, d, t) / PAGESIZE;
    forall p', d', t' | 0 <= p' < |s.pd| && 0 <= d' < ENTRIES && 0 <= t' < ENTRIES
                        && UserReaches(s, p', d', t') && Entry(s, p', d', t') / PAGESIZE == g
      ensures (p', d', t') == (p, d, t)
    {
      ReachOwned(s, at, lo, hi, nps, p', d', t');
    }
    forall p', d' | 0 <= p' < |s.pd| && 0 <= d' < ENTRIES && Pde(s, p', d') != 0
      ensures Pde(s, p', d') / PAGESIZE != g
    {
      if Private(s, p', d') {
        assert TableOwned(s, p', d');
      } else {
        assert Fixed(s, p', d');
        EntryParts(s.idBase + d', PTU);
      }
    }
  }

  lemma ReachOwned(s: Space, at: Table, lo: nat, hi: nat, nps: nat, p: nat, d: nat, t: nat)
    requires SpaceInv(s, at, lo, hi, nps) && p < |s.pd| && d < ENTRIES && t < ENTRIES && UserReaches(s, p, d, t)
    ensures Private(s, p, d) && Owns(s, Entry(s, p, d, t) / PAGESIZE, Dat(p, d, t))
    ensures UserPage(at, lo, hi, Entry(s, p, d, t) / PAGESIZE)
  {
    if Private(s, p, d) {
      assert PageOwned(s, p, d, t);
      hide Entry, Pde;
      AllocatedHigh(at, lo, hi, nps, Entry(s, p, d, t) / PAGESIZE);
    } else {
      KernelIdentity(s, at, lo, hi, nps, p, d, t);
      KernelBits(Entry(s, p, d, t));
      assert false;
    }
  }

  /** Neither set of kernel permissions has PTE_U. */
  lemma KernelBits(e: word)
    requires e % PAGESIZE in {3, 0x103}
    ensures !UserBits(e)
  {
  }

  // ---- steps ----

  /** set_ptbl_entry / rmv_ptbl_entry */
  function WriteEntry(s: Space, g: nat, t: nat, w: word): (r: Space)
    requires g < |s.mem| && 4 * t + 4 <= |s.mem[g]|
    ensures |r.mem| == |s.mem| && forall g' :: 0 <= g' < |s.mem| && g' != g ==> r.mem[g'] == s.mem[g']
  {
    s.(mem := s.mem[g := SetWord(s.mem[g], t, w)])
  }

  lemma TableAtWrite(s: Space, g: nat, t: nat, w: word, g': nat, t': nat)
    requires g < |s.mem| && |s.mem[g]| == PAGESIZE && t < ENTRIES
    ensures TableAt(WriteEntry(s, g, t, w), g', t')
            == if g == g' && t == t' then w else TableAt(s, g', t')
  {
    if g == g' && 4 * t' + 4 <= PAGESIZE {
      WordOfSetWord(s.mem[g], t, w, t');
    }
  }

  /** A page owned as the table of (p, d) is the table of no other directory entry. */
  lemma TablesDistinct(s: Space, at: Table, lo: nat, hi: nat, nps: nat, g: nat, p: nat, d: nat, p': nat, d': nat)
    requires SpaceInv(s, at, lo, hi, nps) && Owns(s, g, Tbl(p, d))
    requires p' < |s.pd| && d' < ENTRIES && Pde(s, p', d') != 0
    ensures Pde(s, p', d') / PAGESIZE == g ==> (p, d) == (p', d')
  {
    assert at[g].alloc && lo <= g;
    if Private(s, p', d') {
      assert TableOwned(s, p', d');
    } else {
      assert Fixed(s, p', d');
      assert Pde(s, p', d') / PAGESIZE == s.idBase + d' < lo;
    }
  }

  /** Writing entry `t` of the table of (p, d) changes the translation of that one page, in all
      of the system. */
  lemma WriteChangesOne(s: Space, at: Table, lo: nat, hi: nat, nps: nat, p: nat, d: nat, t: nat, w: word,
                        p': nat, d': nat, t': nat)
    requires SpaceInv(s, at, lo, hi, nps) && Private(s, p, d) && t < ENTRIES && Pde(s, p, d) != 0
    requires Pde(s, p, d) / PAGESIZE < |s.mem|
    requires p' < |s.pd| && d' < ENTRIES && t' < ENTRIES
    ensures Entry(WriteEntry(s, Pde(s, p, d) / PAGESIZE, t, w), p', d', t')
            == if (p, d, t) == (p', d', t') then w else Entry(s, p', d', t')
  {
    var g := Pde(s, p, d) / PAGESIZE;
    assert TableOwned(s, p, d);
    if Pde(s, p', d') != 0 {
      TablesDistinct(s, at, lo, hi, nps, g, p, d, p', d');
      TableAtWrite(s, g, t, w, Pde(s, p', d') / PAGESIZE, t');
    }
  }

  /** The invariant after such a write, with page ownership extended to the new page. */
  lemma WriteKeepsInv(s: Space, at: Table, lo: nat, hi: nat, nps: nat, p: nat, d: nat, t: nat, w: word,
                      owner: map<nat, Slot>)
    requires SpaceInv(s, at, lo, hi, nps) && Private(s, p, d) && t < ENTRIES && Pde(s, p, d) != 0
    requires Pde(s, p, d) / PAGESIZE < |s.mem|
    requires forall g :: g in s.owner ==> g in owner && owner[g] == s.owner[g]
    requires forall g :: g in owner ==> g < |at| && at[g].alloc
    requires w != 0 ==> w % 2 == 1 && w / PAGESIZE in owner && owner[w / PAGESIZE] == Dat(p, d, t)
    ensures SpaceInv(WriteEntry(s, Pde(s, p, d) / PAGESIZE, t, w).(owner := owner), at, lo, hi, nps)
  {
    hide Word, SetWord, TableOk;
    var g := Pde(s, p, d) / PAGESIZE;
    var s1 := WriteEntry(s, g, t, w);
    var s2 := s1.(owner := owner);
    assert TableOwned(s, p, d);
    assert lo <= g by { AllocatedHigh(at, lo, hi, nps, g); }
    assert OwnersAllocated(s2, at);
    forall p', d' | Private(s2, p', d')
      ensures TableOwned(s2, p', d')
    {
      assert TableOwned(s, p', d') && Pde(s2, p', d') == Pde(s, p', d');
    }
    forall p', d', t' | Private(s2, p', d') && 0 <= t' < ENTRIES
      ensures PageOwned(s2, p', d', t')
    {
      assert PageOwned(s, p', d', t');
      WriteChangesOne(s, at, lo, hi, nps, p, d, t, w, p', d', t');
      assert Entry(s2, p', d', t') == Entry(s1, p', d', t');
    }
    SameKernel(s, s2, lo);
  }

  lemma AllocatedHigh(at: Table, lo: nat, hi: nat, nps: nat, g: nat)
    requires TableOk(at, lo, hi, nps) && g < |at| && at[g].alloc
    ensures lo <= g < hi
  {
  }

  /** Changes above the kernel's pages leave the kernel's maps alone. */
  lemma SameKernel(s: Space, s': Space, lo: nat)
    requires KernelMapped(s) && s.idBase + ENTRIES <= lo && s'.idBase == s.idBase
    requires |s'.pd| == |s.pd| && |s'.mem| == |s.mem|
    requires forall p, d :: 0 <= p < |s.pd| && 0 <= d < ENTRIES && !Private(s, p, d) ==> Pde(s', p, d) == Pde(s, p, d)
    requires forall g :: 0 <= g < |s.mem| && g < lo ==> s'.mem[g] == s.mem[g]
    ensures KernelMapped(s')
  {
    hide Word;
    forall p, d | 0 <= p < |s'.pd| && 0 <= d < ENTRIES && !Private(s', p, d)
      ensures Fixed(s', p, d)
    {
      assert Fixed(s, p, d);
    }
    forall d, t | 0 <= d < ENTRIES && 0 <= t < ENTRIES
      ensures Identity(s', d, t)
    {
      assert Identity(s, d, t);
      if s.idBase + d < |s.mem| {
        assert s'.mem[s.idBase + d] == s.mem[s.idBase + d];
      }
    }
  }

  /** Outside the user range, or for process 0, such a write is seen by every process: the
      identity tables are shared. */
  lemma KernelWriteIsShared(s: Space, at: Table, lo: nat, hi: nat, nps: nat, p: nat, d: nat, t: nat, w: word, p': nat)
    requires SpaceInv(s, at, lo, hi, nps) && p < |s.pd| && p' < |s.pd| && d < ENTRIES && t < ENTRIES
    requires !Private(s, p, d) && !Private(s, p', d)
    ensures Pde(s, p, d) / PAGESIZE < |s.mem|
    ensures Entry(WriteEntry(s, Pde(s, p, d) / PAGESIZE, t, w), p', d, t) == w
  {
    hide Word;
    assert Fixed(s, p, d) && Fixed(s, p', d);
    EntryParts(s.idBase + d, PTU);
    TableAtWrite(s, s.idBase + d, t, w, s.idBase + d, t);
  }

  lemma TableInRange(s: Space, at: Table, lo: nat, hi: nat, nps: nat, p: nat, d: nat)
    requires SpaceInv(s, at, lo, hi, nps) && p < |s.pd| && d < ENTRIES && Pde(s, p, d) != 0
    ensures Pde(s, p, d) / PAGESIZE < |s.mem|
  {
    if Private(s, p, d) {
      assert TableOwned(s, p, d);
    } else {
      assert Fixed(s, p, d);
      EntryParts(s.idBase + d, PTU);
    }
  }

  /** The allocator hands out a page that nobody holds. */
  lemma TakenKeepsInv(s: Space, at: Table, lo: nat, hi: nat, nps: nat, g: nat)
    requires SpaceInv(s, at, lo, hi, nps) && g < |at| && IsFree(at[g])
    ensures SpaceInv(s, Taken(at, g), lo, hi, nps) && g !in s.owner && lo <= g < hi
  {
    hide Isolated, KernelMapped, Shape;
  }

  // ---- adding and removing a table ----

  predicate Blank(page: seq<byte>) {
    |page| == PAGESIZE && forall t :: 0 <= t < ENTRIES ==> Word(page, t) == 0
  }

  /** alloc_ptbl: page `g`, cleared, becomes the table of (p, d). */
  function AddTable(s: Space, p: nat, d: nat, g: nat, page: seq<byte>): Space
    requires p < |s.pd| && d < |s.pd[p]| && g < |s.mem| <= 0x10_0000
  {
    var row: seq<word> := s.pd[p][d := Word32(g, PTU)];
    s.(pd := s.pd[p := row], mem := s.mem[g := page], owner := s.owner[g := Tbl(p, d)])
  }

  /** No address anywhere changes its translation when an empty table is added. */
  lemma AddTableSilent(s: Space, at: Table, lo: nat, hi: nat, nps: nat, p: nat, d: nat, g: nat, page: seq<byte>,
                       p': nat, d': nat, t': nat)
    requires SpaceInv(s, at, lo, hi, nps) && Private(s, p, d) && Pde(s, p, d) == 0
    requires lo <= g < |s.mem| && g !in s.owner && Blank(page)
    requires p' < |s.pd| && d' < ENTRIES && t' < ENTRIES
    ensures Entry(AddTable(s, p, d, g, page), p', d', t') == Entry(s, p', d', t')
  {
    hide Word, TableOk;
    var s1 := AddTable(s, p, d, g, page);
    if (p', d') == (p, d) {
      assert Pde(s1, p, d) / PAGESIZE == g;
      assert TableAt(s1, g, t') == 0;
    } else {
      assert Pde(s1, p', d') == Pde(s, p', d');
      if Pde(s, p', d') != 0 {
        if Private(s, p', d') {
          assert TableOwned(s, p', d');
        } else {
          assert Fixed(s, p', d');
          assert Pde(s, p', d') / PAGESIZE == s.idBase + d' < lo;
        }
      }
    }
  }

  lemma AddTableKeepsInv(s: Space, at: Table, lo: nat, hi: nat, nps: nat, p: nat, d: nat, g: nat, page: seq<byte>)
    requires SpaceInv(s, at, lo, hi, nps) && Private(s, p, d) && Pde(s, p, d) == 0
    requires g < |at| && at[g].alloc && g !in s.owner && Blank(page)
    ensures SpaceInv(AddTable(s, p, d, g, page), at, lo, hi, nps)
  {
    hide Word, TableOk;
    var s1 := AddTable(s, p, d, g, page);
    assert lo <= g by { AllocatedHigh(at, lo, hi, nps, g); }
    forall p': nat, d': nat | Private(s1, p', d')
      ensures TableOwned(s1, p', d')
    {
      assert TableOwned(s, p', d');
      assert (p', d') != (p, d) ==> Pde(s1, p', d') == Pde(s, p', d');
    }
    forall p', d', t' | Private(s1, p', d') && 0 <= t' < ENTRIES
      ensures PageOwned(s1, p', d', t')
    {
      assert PageOwned(s, p', d', t');
      AddTableSilent(s, at, lo, hi, nps, p, d, g, page, p', d', t');
    }
    SameKernel(s, s1, lo);
  }

  /** free_ptbl: the directory entry is cleared and the page given up. */
  function DropTable(s: Space, p: nat, d: nat): Space
    requires p < |s.pd| && d < |s.pd[p]|
  {
    var row: seq<word> := s.pd[p][d := 0];
    s.(pd := s.pd[p := row], owner := s.owner - {s.pd[p][d] / PAGESIZE})
  }

  lemma DropTableKeepsInv(s: Space, at: Table, lo: nat, hi: nat, nps: nat, p: nat, d: nat)
    requires SpaceInv(s, at, lo, hi, nps) && Private(s, p, d) && Pde(s, p, d) != 0
    ensures var g := Pde(s, p, d) / PAGESIZE;
            g < |at| && at[g].alloc && SpaceInv(DropTable(s, p, d), Freed(at, g), lo, hi, nps)
    ensures forall p', d', t' :: 0 <= p' < |s.pd| && 0 <= d' < ENTRIES && 0 <= t' < ENTRIES ==>
              Entry(DropTable(s, p, d), p', d', t') == if (p', d') == (p, d) then 0 else Entry(s, p', d', t')
  {
    hide Word;
    var g := Pde(s, p, d) / PAGESIZE;
    var s1 := DropTable(s, p, d);
    assert TableOwned(s, p, d);
    assert forall p', d' {:trigger Pde(s1, p', d')} :: 0 <= p' < |s.pd| && 0 <= d' < ENTRIES ==>
      Pde(s1, p', d') == if (p', d') == (p, d) then 0 else Pde(s, p', d');
    forall p', d' | Private(s1, p', d')
      ensures TableOwned(s1, p', d')
    {
      assert TableOwned(s, p', d');
    }
    forall p', d', t' | Private(s1, p', d') && 0 <= t' < ENTRIES
      ensures PageOwned(s1, p', d', t')
    {
      assert PageOwned(s, p', d', t');
    }
    SameKernel(s, s1, lo);
  }
}
