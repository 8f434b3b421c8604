/** kern/lib/pmap.c: copying between the kernel and a process's address space, page by page,
    mapping pages on demand. */
module UserCopy {
  import opened Bytes
  import opened PageAlloc
  import opened Container
  import opened PageTable
  import opened AddressSpace

  const USERLO := 0x4000_0000
  const USERHI := 0xF000_0000

  // ---- memory as a process sees it ----

  function Ent(s: Space, p: nat, va: nat): word {
    Entry(s, p, D(va), T(va))
  }

  predicate UserVa(s: Space, p: nat, va: nat) {
    0 < p < |s.pd| && USERLO <= va < USERHI
  }

  predicate Mapped(s: Space, p: nat, va: nat) {
    Ent(s, p, va) != 0
  }

  /** The byte a process reads at a user address. */
  function UByte(s: Space, p: nat, va: nat): byte {
    var g := Ent(s, p, va) / PAGESIZE;
    if g < |s.mem| && va % PAGESIZE < |s.mem[g]| then s.mem[g][va % PAGESIZE] else 0
  }

  lemma UserIndices(s: Space, p: nat, va: nat)
    requires UserVa(s, p, va)
    ensures Private(s, p, D(va)) && D(va) < ENTRIES && T(va) < ENTRIES
  {
  }

  lemma SamePage(va: nat, va': nat)
    ensures (D(va) == D(va') && T(va) == T(va')) <==> va / PAGESIZE == va' / PAGESIZE
  {
    assert D(va) == va / PAGESIZE / ENTRIES && D(va') == va' / PAGESIZE / ENTRIES;
  }

  /** Every mapped user byte outside [a, b) of process `p` stays mapped and keeps its value. */
  ghost predicate Kept(s: Space, s': Space, p: nat, a: nat, b: nat) {
    && |s'.pd| == |s.pd|
    && (forall p': nat, va: nat :: UserVa(s, p', va) && Mapped(s, p', va) && !(p' == p && a <= va < b) ==>
          Mapped(s', p', va) && UByte(s', p', va) == UByte(s, p', va))
  }

  /** Process `p` reads `buf` from `uva` on. */
  ghost predicate Shows(s: Space, p: nat, uva: nat, buf: seq<byte>) {
    forall va :: uva <= va < uva + |buf| ==> Mapped(s, p, va) && UByte(s, p, va) == buf[va - uva]
  }

  /** Every user page of every process is mapped as before, except that pages of `p` that [a, b) touches
      and that were absent may have come in, present, writable and open to user mode. */
  ghost predicate MapsOnly(s: Space, s': Space, p: nat, a: nat, b: nat) {
    forall p': nat, va: nat :: UserVa(s, p', va) ==>
      || Ent(s', p', va) == Ent(s, p', va)
      || (p' == p && a - a % PAGESIZE <= va < b + PAGESIZE - 1 - (b - 1) % PAGESIZE
          && Ent(s, p, va) == 0 && Ent(s', p, va) % PAGESIZE == 7)
  }

  ghost predicate LowKept(s: Space, s': Space, lo: nat) {
    |s'.mem| == |s.mem| && forall g :: 0 <= g < |s.mem| && g < lo ==> s'.mem[g] == s.mem[g]
  }

  // ---- writing into a page ----

  function Overwrite(page: seq<byte>, off: nat, chunk: seq<byte>): (r: seq<byte>)
    requires off + |chunk| <= |page|
    ensures |r| == |page|
    ensures forall i :: 0 <= i < |page| ==> r[i] == if off <= i < off + |chunk| then chunk[i - off] else page[i]
  {
    page[..off] + chunk + page[off + |chunk|..]
  }

  lemma OverwriteSlice(page: seq<byte>, off: nat, chunk: seq<byte>)
    requires off + |chunk| <= |page|
    ensures Overwrite(page, off, chunk)[off..off + |chunk|] == chunk
  {
  }

  function Poke(s: Space, g: nat, off: nat, chunk: seq<byte>): Space
    requires g < |s.mem| && off + |chunk| <= |s.mem[g]|
  {
    s.(mem := s.mem[g := Overwrite(s.mem[g], off, chunk)])
  }

  /** Page 0 and the data pages: what the copy loops may write. */
  predicate Writable(s: Space, g: nat) {
    g == 0 || (g in s.owner && s.owner[g].Dat?)
  }

  /** Data is never a page table: such a write changes no translation. */
  lemma PokeSilent(s: Space, at: Table, lo: nat, hi: nat, nps: nat, g: nat, off: nat, chunk: seq<byte>,
                   p: nat, d: nat, t: nat)
    requires SpaceInv(s, at, lo, hi, nps) && Writable(s, g) && g < |s.mem| && off + |chunk| <= PAGESIZE
    requires p < |s.pd| && d < ENTRIES
    ensures Entry(Poke(s, g, off, chunk), p, d, t) == Entry(s, p, d, t)
  {
    hide Word, Overwrite;
    if Pde(s, p, d) != 0 {
      if Private(s, p, d) {
        assert TableOwned(s, p, d);
        AllocatedHigh(at, lo, hi, nps, Pde(s, p, d) / PAGESIZE);
      } else {
        assert Fixed(s, p, d);
        EntryParts(s.idBase + d, PTU);
        if g != 0 {
          AllocatedHigh(at, lo, hi, nps, g);
        }
      }
      assert Pde(s, p, d) / PAGESIZE != g;
    }
  }

  lemma PokeKeepsInv(s: Space, at: Table, lo: nat, hi: nat, nps: nat, g: nat, off: nat, chunk: seq<byte>)
    requires SpaceInv(s, at, lo, hi, nps) && Writable(s, g) && g < |s.mem| && off + |chunk| <= PAGESIZE
    ensures SpaceInv(Poke(s, g, off, chunk), at, lo, hi, nps)
  {
    hide Word, TableOk;
    var s1 := Poke(s, g, off, chunk);
    forall p, d | Private(s1, p, d)
      ensures TableOwned(s1, p, d)
    {
      assert TableOwned(s, p, d);
    }
    forall p, d, t | Private(s1, p, d) && 0 <= t < ENTRIES
      ensures PageOwned(s1, p, d, t)
    {
      assert PageOwned(s, p, d, t);
      PokeSilent(s, at, lo, hi, nps, g, off, chunk, p, d, t);
    }
    PokeKernel(s, at, lo, hi, nps, g, off, chunk);
  }

  lemma PokeKernel(s: Space, at: Table, lo: nat, hi: nat, nps: nat, g: nat, off: nat, chunk: seq<byte>)
    requires SpaceInv(s, at, lo, hi, nps) && Writable(s, g) && g < |s.mem| && off + |chunk| <= PAGESIZE
    ensures KernelMapped(Poke(s, g, off, chunk))
  {
    hide Word, Overwrite;
    var s1 := Poke(s, g, off, chunk);
    if g != 0 {
      AllocatedHigh(at, lo, hi, nps, g);
    }
    forall p, d | 0 <= p < |s1.pd| && 0 <= d < ENTRIES && !Private(s1, p, d)
      ensures Fixed(s1, p, d)
    {
      assert Fixed(s, p, d);
    }
    forall d, t | 0 <= d < ENTRIES && 0 <= t < ENTRIES
      ensures Identity(s1, d, t)
    {
      assert Identity(s, d, t);
      assert s.idBase + d != g;
    }
  }

  /** What user bytes become under a write to the page behind `va0`, or to page 0 when `va0` has
      no page. */
  lemma PokeByte(s: Space, at: Table, lo: nat, hi: nat, nps: nat, p: nat, va0: nat, off: nat, chunk: seq<byte>,
                 p': nat, va: nat)
    requires SpaceInv(s, at, lo, hi, nps) && UserVa(s, p, va0) && UserVa(s, p', va) && Mapped(s, p', va)
    requires off + |chunk| <= PAGESIZE && Ent(s, p, va0) / PAGESIZE < |s.mem|
    ensures var s1 := Poke(s, Ent(s, p, va0) / PAGESIZE, off, chunk);
            Ent(s1, p', va) == Ent(s, p', va)
            && UByte(s1, p', va)
               == if Mapped(s, p, va0) && p' == p && va / PAGESIZE == va0 / PAGESIZE
                     && off <= va % PAGESIZE < off + |chunk|
                  then chunk[va % PAGESIZE - off] else UByte(s, p', va)
  {
    hide Word, KernelMapped;
    var g := Ent(s, p, va0) / PAGESIZE;
    UserIndices(s, p, va0);
    UserIndices(s, p', va);
    SamePage(va0, va);
    assert PageOwned(s, p', D(va), T(va)) && PageOwned(s, p, D(va0), T(va0));
    AllocatedHigh(at, lo, hi, nps, Ent(s, p', va) / PAGESIZE);
    PokeSilent(s, at, lo, hi, nps, g, off, chunk, p', D(va), T(va));
  }

  // ---- one page ----

  /** Pages taken to make `va` accessible. */
  function CostAt(s: Space, p: nat, va: nat): nat {
    if Mapped(s, p, va) then 0 else Cost(s, p, D(va))
  }

  /** Mapping one page on demand leaves every mapped user byte alone. */
  lemma AccessKeeps(s: Space, s': Space, at: Table, lo: nat, hi: nat, nps: nat, p: nat, va0: nat)
    requires SpaceInv(s, at, lo, hi, nps) && UserVa(s, p, va0)
    requires OthersSame(s, s', p, D(va0), T(va0)) && DataKept(s, s', lo, hi)
    requires Mapped(s, p, va0) ==> s' == s
    ensures Kept(s, s', p, 0, 0)
  {
    hide Word, KernelMapped;
    forall p': nat, va: nat | UserVa(s, p', va) && Mapped(s, p', va)
      ensures Mapped(s', p', va) && UByte(s', p', va) == UByte(s, p', va)
    {
      UserIndices(s, p', va);
      assert PageOwned(s, p', D(va), T(va));
    }
  }

  lemma PokeKeeps(s: Space, at: Table, lo: nat, hi: nat, nps: nat, p: nat, va0: nat, chunk: seq<byte>)
    requires SpaceInv(s, at, lo, hi, nps) && UserVa(s, p, va0)
    requires va0 % PAGESIZE + |chunk| <= PAGESIZE && va0 + |chunk| <= USERHI && Ent(s, p, va0) / PAGESIZE < |s.mem|
    ensures var s' := Poke(s, Ent(s, p, va0) / PAGESIZE, va0 % PAGESIZE, chunk);
            Kept(s, s', p, va0, va0 + |chunk|) && (Mapped(s, p, va0) ==> Shows(s', p, va0, chunk))
  {
    hide Word, KernelMapped, Isolated, TableOk, Ent, UByte;
    var s' := Poke(s, Ent(s, p, va0) / PAGESIZE, va0 % PAGESIZE, chunk);
    forall p': nat, va: nat | UserVa(s, p', va) && Mapped(s, p', va) && !(p' == p && va0 <= va < va0 + |chunk|)
      ensures Mapped(s', p', va) && UByte(s', p', va) == UByte(s, p', va)
    {
      PokeByte(s, at, lo, hi, nps, p, va0, va0 % PAGESIZE, chunk, p', va);
    }
    if Mapped(s, p, va0) {
      forall va | va0 <= va < va0 + |chunk|
        ensures Mapped(s', p, va) && UByte(s', p, va) == chunk[va - va0]
      {
        WithinPage(va0, |chunk|, va);
        SamePage(va0, va);
        assert Ent(s, p, va) == Ent(s, p, va0) by { SameEnt(s, p, va0, va); }
        PokeByte(s, at, lo, hi, nps, p, va0, va0 % PAGESIZE, chunk, p, va);
      }
    }
  }

  lemma WithinPage(va0: nat, n: nat, va: nat)
    requires va0 % PAGESIZE + n <= PAGESIZE && va0 <= va < va0 + n
    ensures va / PAGESIZE == va0 / PAGESIZE && va % PAGESIZE == va0 % PAGESIZE + (va - va0)
  {
  }

  lemma SameEnt(s: Space, p: nat, va: nat, va': nat)
    requires va / PAGESIZE == va' / PAGESIZE
    ensures Ent(s, p, va) == Ent(s, p, va')
  {
    SamePage(va, va');
  }

  lemma KeptTrans(s: Space, s': Space, s'': Space, p: nat, a: nat, b: nat)
    requires Kept(s, s', p, a, b) && Kept(s', s'', p, a, b)
    ensures Kept(s, s'', p, a, b)
  {
    hide Mapped, UByte;
    forall p': nat, va: nat | UserVa(s, p', va) && Mapped(s, p', va) && !(p' == p && a <= va < b)
      ensures Mapped(s'', p', va) && UByte(s'', p', va) == UByte(s, p', va)
    {
      assert Mapped(s', p', va);
    }
  }

  /** The top of both copy loops: look the page up, map it if it is absent, look again.  The page
      is 0 when the quota does not suffice. */
  method Access(vm: Vmm, p: nat, va: nat) returns (g: nat)
    requires vm.Valid() && vm.May(p, va) && UserVa(vm.View(), p, va)
    modifies vm.pd, vm.mem, vm`owner, vm.conts.pages, vm.conts.pages.at, vm.conts.cs
    ensures vm.Valid() && vm.May(p, va) && g == Ent(vm.View(), p, va) / PAGESIZE
    ensures Mapped(vm.View(), p, va) <==> old(CostAt(vm.View(), p, va) <= Room(vm.conts.cs[p]))
    ensures Mapped(vm.View(), p, va) ==>
              Pde(vm.View(), p, D(va)) != 0
              && Room(vm.conts.cs[p]) == old(Room(vm.conts.cs[p]) - CostAt(vm.View(), p, va))
    ensures old(Mapped(vm.View(), p, va)) ==> vm.View() == old(vm.View())
    ensures Mapped(vm.View(), p, va) && !old(Mapped(vm.View(), p, va)) ==> Ent(vm.View(), p, va) % PAGESIZE == 7
    ensures OthersSame(old(vm.View()), vm.View(), p, D(va), T(va))
    ensures DataKept(old(vm.View()), vm.View(), vm.conts.pages.lo, vm.conts.pages.hi)
  {
    hide Word, KernelMapped, Shape, TableOk, Inv, OthersSame, DataKept;
    ghost var s := vm.View();
    UserIndices(s, p, va);
    OthersRefl(s, p, D(va), T(va), vm.conts.pages.lo, vm.conts.pages.hi);
    vm.RoomNotNegative(p);
    var e := vm.GetEntry(p, va);
    assert PageOwned(s, p, D(va), T(va));
    if e % 2 == 0 {
      var r := vm.AllocPage(p, va, PTU);
      e := vm.GetEntry(p, va);
    }
    g := e / PAGESIZE;
  }

  lemma PokeOthers(s: Space, at: Table, lo: nat, hi: nat, nps: nat, g: nat, off: nat, chunk: seq<byte>,
                   p: nat, d: nat, t: nat)
    requires SpaceInv(s, at, lo, hi, nps) && Writable(s, g) && g < |s.mem| && off + |chunk| <= PAGESIZE
    ensures OthersSame(s, Poke(s, g, off, chunk), p, d, t)
  {
    hide Word, Overwrite, Isolated, KernelMapped, TableOk;
    var s' := Poke(s, g, off, chunk);
    forall p', d', t' | 0 <= p' < |s.pd| && 0 <= d' < ENTRIES && 0 <= t' < ENTRIES
      ensures Entry(s', p', d', t') == Entry(s, p', d', t')
    {
      PokeSilent(s, at, lo, hi, nps, g, off, chunk, p', d', t');
    }
  }

  lemma OthersChain(s: Space, s': Space, s'': Space, p: nat, d: nat, t: nat)
    requires OthersSame(s, s', p, d, t) && OthersSame(s', s'', p, d, t)
    ensures OthersSame(s, s'', p, d, t)
  {
    hide Entry, Pde;
  }

  /** The page behind `va` may be written by the copy. */
  lemma TargetWritable(s: Space, at: Table, lo: nat, hi: nat, nps: nat, p: nat, va: nat)
    requires SpaceInv(s, at, lo, hi, nps) && UserVa(s, p, va)
    ensures var g := Ent(s, p, va) / PAGESIZE;
            Writable(s, g) && g < |s.mem| && |s.mem[g]| == PAGESIZE && (Mapped(s, p, va) ==> lo <= g)
  {
    hide Word, KernelMapped;
    UserIndices(s, p, va);
    assert PageOwned(s, p, D(va), T(va));
    if Mapped(s, p, va) {
      AllocatedHigh(at, lo, hi, nps, Ent(s, p, va) / PAGESIZE);
    }
  }

  /** One step of a copy loop, as the translations see it. */
  ghost predicate Step(s: Space, s': Space, room: int, room': int, p: nat, va: nat) {
    && OthersSame(s, s', p, D(va), T(va))
    && (Mapped(s', p, va) <==> CostAt(s, p, va) <= room)
    && (Mapped(s', p, va) ==> Pde(s', p, D(va)) != 0 && room' == room - CostAt(s, p, va))
    && (Ent(s', p, va) == Ent(s, p, va) || (!Mapped(s, p, va) && Ent(s', p, va) % PAGESIZE == 7))
  }

  /** One turn of the pt_copyout loop: `chunk` lands in the page of `va`, mapped on demand.  When the
      quota does not allow that, the failed allocation goes unnoticed and the bytes land in
      physical page 0. */
  method CopyOutPage(vm: Vmm, p: nat, va: nat, chunk: seq<byte>)
    requires vm.Valid() && vm.May(p, va) && UserVa(vm.View(), p, va)
    requires va % PAGESIZE + |chunk| <= PAGESIZE && va + |chunk| <= USERHI
    modifies vm.pd, vm.mem, vm`owner, vm.conts.pages, vm.conts.pages.at, vm.conts.cs
    ensures vm.Valid() && vm.May(p, va)
    ensures Step(old(vm.View()), vm.View(), old(Room(vm.conts.cs[p])), Room(vm.conts.cs[p]), p, va)
    ensures Kept(old(vm.View()), vm.View(), p, va, va + |chunk|)
    ensures Mapped(vm.View(), p, va) ==>
              Shows(vm.View(), p, va, chunk) && LowKept(old(vm.View()), vm.View(), vm.conts.pages.lo)
    ensures !Mapped(vm.View(), p, va) ==>
              0 < vm.mem.Length && |vm.mem[0]| == PAGESIZE
              && vm.mem[0][va % PAGESIZE..va % PAGESIZE + |chunk|] == chunk
  {
    hide Word, Isolated, KernelMapped, TableOk, Inv, UByte, OthersSame, Kept, Overwrite;
    ghost var s := vm.View();
    ghost var lo, hi, nps := vm.conts.pages.lo, vm.conts.pages.hi, vm.conts.pages.nps;
    ghost var at0 := vm.conts.pages.at[..];
    var g := Access(vm, p, va);
    ghost var s1, at := vm.View(), vm.conts.pages.at[..];
    assert UserVa(s1, p, va) by { assert |s1.pd| == |s.pd|; }
    AccessKeeps(s, s1, at0, lo, hi, nps, p, va);
    TargetWritable(s1, at, lo, hi, nps, p, va);
    PokeKeepsInv(s1, at, lo, hi, nps, g, va % PAGESIZE, chunk);
    PokeOthers(s1, at, lo, hi, nps, g, va % PAGESIZE, chunk, p, D(va), T(va));
    PokeSilent(s1, at, lo, hi, nps, g, va % PAGESIZE, chunk, p, D(va), T(va));
    PokeKeeps(s1, at, lo, hi, nps, p, va, chunk);
    ghost var page := vm.mem[g];
    vm.mem[g] := Overwrite(vm.mem[g], va % PAGESIZE, chunk);
    OverwriteSlice(page, va % PAGESIZE, chunk);
    ghost var s2 := vm.View();
    assert s2 == Poke(s1, g, va % PAGESIZE, chunk);
    OthersChain(s, s1, s2, p, D(va), T(va));
    KeptWiden(s, s1, p, 0, 0, va, va + |chunk|);
    KeptTrans(s, s1, s2, p, va, va + |chunk|);
  }

  lemma KeptWiden(s: Space, s': Space, p: nat, a: nat, b: nat, a': nat, b': nat)
    requires Kept(s, s', p, a, b) && (b <= a || (a' <= a && b <= b'))
    ensures Kept(s, s', p, a', b')
  {
    hide Mapped, UByte;
  }

  // ---- how many pages a range takes ----

  function EntV(s: Space, p: nat, v: nat): word {
    Entry(s, p, v / ENTRIES, v % ENTRIES)
  }

  /** Missing pages, and missing tables that begin, among virtual pages v..end. */
  ghost function Later(s: Space, p: nat, v: nat, end: nat): nat
    decreases end - v
  {
    if v >= end then 0
    else (if EntV(s, p, v) == 0 then 1 else 0)
         + (if Pde(s, p, v / ENTRIES) == 0 && v % ENTRIES == 0 then 1 else 0)
         + Later(s, p, v + 1, end)
  }

  /** The pages the range v..end still takes: one for each page that is not mapped and one for
      each page table that does not exist. */
  ghost function Need(s: Space, p: nat, v: nat, end: nat): nat {
    Later(s, p, v, end) + (if v < end && Pde(s, p, v / ENTRIES) == 0 && v % ENTRIES != 0 then 1 else 0)
  }

  lemma {:induction false} LaterSame(s: Space, s': Space, p: nat, v0: nat, v: nat, end: nat)
    requires OthersSame(s, s', p, v0 / ENTRIES, v0 % ENTRIES) && p < |s.pd| && v0 < v && end <= 0x10_0000
    ensures Later(s', p, v, end) == Later(s, p, v, end)
    decreases end - v
  {
    hide Entry, Pde;
    if v < end {
      assert (v / ENTRIES, v % ENTRIES) != (v0 / ENTRIES, v0 % ENTRIES);
      assert EntV(s', p, v) == EntV(s, p, v);
      LaterSame(s, s', p, v0, v + 1, end);
    }
  }

  lemma PageParts(va: nat)
    ensures D(va) == va / PAGESIZE / ENTRIES && T(va) == va / PAGESIZE % ENTRIES
  {
  }

  lemma NeedStep(s: Space, s': Space, room: int, room': int, p: nat, va: nat, end: nat)
    requires Step(s, s', room, room', p, va) && p < |s.pd| && va / PAGESIZE < end <= 0x10_0000
    ensures Need(s, p, va / PAGESIZE, end) >= CostAt(s, p, va)
    ensures Mapped(s', p, va) ==>
              Need(s, p, va / PAGESIZE, end) == CostAt(s, p, va) + Need(s', p, va / PAGESIZE + 1, end)
  {
    hide OthersSame;
    var v := va / PAGESIZE;
    PageParts(va);
    LaterSame(s, s', p, v, v + 1, end);
    assert EntV(s, p, v) == Ent(s, p, va);
    assert (v + 1) % ENTRIES != 0 ==> (v + 1) / ENTRIES == v / ENTRIES;
  }

  /** Addresses [va, end) measured in pages. */
  ghost function NeedVa(s: Space, p: nat, va: nat, end: nat): nat {
    if va < end then Need(s, p, va / PAGESIZE, (end + PAGESIZE - 1) / PAGESIZE) else 0
  }

  /** The size of one turn of the loop. */
  function Chunk(va: nat, len: nat): (n: nat)
    ensures len > 0 ==> n > 0
    ensures n <= len && va % PAGESIZE + n <= PAGESIZE
    ensures n < len ==> (va + n) % PAGESIZE == 0 && (va + n) / PAGESIZE == va / PAGESIZE + 1
  {
    if len < PAGESIZE - va % PAGESIZE then len else PAGESIZE - va % PAGESIZE
  }

  lemma NeedVaStep(s: Space, s': Space, room: int, room': int, p: nat, va: nat, end: nat)
    requires Step(s, s', room, room', p, va) && p < |s.pd| && va < end <= USERHI
    ensures NeedVa(s, p, va, end) >= CostAt(s, p, va)
    ensures Mapped(s', p, va) ==>
              NeedVa(s, p, va, end) == CostAt(s, p, va) + NeedVa(s', p, va + Chunk(va, end - va), end)
  {
    hide Step, Need;
    LastPage(va, end);
    NeedStep(s, s', room, room', p, va, (end + PAGESIZE - 1) / PAGESIZE);
    if va + Chunk(va, end - va) == end {
      LastTurn(va, end);
      assert Need(s', p, va / PAGESIZE + 1, (end + PAGESIZE - 1) / PAGESIZE) == 0 by {
        NeedNothing(s', p, va / PAGESIZE + 1, (end + PAGESIZE - 1) / PAGESIZE);
      }
    }
  }

  lemma NeedNothing(s: Space, p: nat, v: nat, end: nat)
    requires end <= v
    ensures Need(s, p, v, end) == 0
  {
  }

  lemma LastPage(va: nat, end: nat)
    requires va < end <= USERHI
    ensures va / PAGESIZE < (end + PAGESIZE - 1) / PAGESIZE <= 0x10_0000
  {
  }

  lemma LastTurn(va: nat, end: nat)
    requires va < end && va + Chunk(va, end - va) == end
    ensures (end + PAGESIZE - 1) / PAGESIZE == va / PAGESIZE + 1
  {
  }

  // ---- the loops ----

  /** The range test as written, in 32-bit arithmetic. */
  predicate RangeTest(uva: nat, len: nat) {
    USERLO <= uva && (uva + len) % LIMIT <= USERHI
  }

  /** It accepts exactly the user ranges, and the ranges that wrap past the top of the address
      space back to a user or low address. */
  lemma RangeTestExact(uva: nat, len: nat)
    requires uva < LIMIT && len < LIMIT
    ensures RangeTest(uva, len) <==>
            (USERLO <= uva && uva + len <= USERHI) || (USERLO <= uva && LIMIT <= uva + len <= LIMIT + USERHI)
    ensures uva + len < LIMIT ==> (RangeTest(uva, len) <==> USERLO <= uva && uva + len <= USERHI)
  {
    if uva + len < LIMIT {
      assert (uva + len) % LIMIT == uva + len;
    } else {
      assert (uva + len) % LIMIT == uva + len - LIMIT;
    }
  }

  lemma ShowsJoin(s: Space, s': Space, p: nat, uva: nat, va: nat, n: nat, buf: seq<byte>)
    requires 0 < p < |s.pd| && USERLO <= uva <= va && va + n == uva + |buf| <= USERHI
    requires Shows(s, p, uva, buf[..va - uva]) && Kept(s, s', p, va, va + n) && Shows(s', p, va, buf[va - uva..])
    ensures Shows(s', p, uva, buf)
  {
    hide Mapped, UByte;
    forall a | uva <= a < uva + |buf|
      ensures Mapped(s', p, a) && UByte(s', p, a) == buf[a - uva]
    {
      if a < va {
        assert UByte(s, p, a) == buf[..va - uva][a - uva];
      } else {
        assert UByte(s', p, a) == buf[va - uva..][a - va];
      }
    }
  }

  ghost predicate AllMapped(s: Space, p: nat, a: nat, b: nat) {
    forall va :: a <= va < b ==> Mapped(s, p, va)
  }

  /** Where a copy loop stands: either the rest of the range still fits the quota and all before
      is mapped, or it never did and the quota will fall short or has left a hole behind. */
  ghost predicate OnTrack(fits: bool, s: Space, room: int, p: nat, uva: nat, va: nat, end: nat, hole: nat) {
    && (fits ==> NeedVa(s, p, va, end) <= room && AllMapped(s, p, uva, va))
    && (!fits ==> NeedVa(s, p, va, end) > room || (uva <= hole < va && !Mapped(s, p, hole)))
  }

  /** A step leaves the pages before it as they are. */
  lemma EarlierSame(s: Space, s': Space, room: int, room': int, p: nat, va: nat, a: nat)
    requires Step(s, s', room, room', p, va) && 0 < p < |s.pd| && va < USERHI && a < va && va % PAGESIZE == 0
    ensures Mapped(s', p, a) <==> Mapped(s, p, a)
  {
    assert a / PAGESIZE < va / PAGESIZE;
    SamePage(a, va);
    Indices(a);
  }

  lemma StepOnTrack(fits: bool, s: Space, s': Space, room: int, room': int, p: nat, uva: nat, va: nat,
                    end: nat, hole: nat)
      returns (hole': nat)
    requires OnTrack(fits, s, room, p, uva, va, end, hole) && Step(s, s', room, room', p, va)
    requires 0 < p < |s.pd| && USERLO <= uva <= va < end <= USERHI && (va == uva || va % PAGESIZE == 0)
    ensures OnTrack(fits, s', room', p, uva, va + Chunk(va, end - va), end, hole')
    ensures fits ==> Mapped(s', p, va)
  {
    hide Mapped, NeedVa, CostAt, OthersSame;
    NeedVaStep(s, s', room, room', p, va, end);
    hole' := if Mapped(s', p, va) then hole else va;
    var n := Chunk(va, end - va);
    if fits {
      forall a | uva <= a < va + n
        ensures Mapped(s', p, a)
      {
        if a < va {
          EarlierSame(s, s', room, room', p, va, a);
        } else {
          WithinPage(va, n, a);
          MappedSame(s', p, va, a);
        }
      }
    } else if uva <= hole < va && !Mapped(s, p, hole) {
      EarlierSame(s, s', room, room', p, va, hole);
      hole' := hole;
    }
  }

  lemma MappedSame(s: Space, p: nat, va: nat, va': nat)
    requires va / PAGESIZE == va' / PAGESIZE
    ensures Mapped(s, p, va) == Mapped(s, p, va')
  {
    SameEnt(s, p, va, va');
  }

  lemma EndOfTrack(fits: bool, s: Space, room: int, p: nat, uva: nat, end: nat, hole: nat)
    requires OnTrack(fits, s, room, p, uva, end, end, hole) && room >= 0
    ensures fits <==> AllMapped(s, p, uva, end)
  {
  }

  /** One turn maps at most the page it works on. */
  lemma StepMaps(s0: Space, s: Space, s': Space, room: int, room': int, p: nat, uva: nat, va: nat, end: nat)
    requires MapsOnly(s0, s, p, uva, end) && Step(s, s', room, room', p, va)
    requires 0 < p < |s.pd| == |s0.pd| && uva <= va < end <= USERHI
    ensures MapsOnly(s0, s', p, uva, end) && |s'.pd| == |s0.pd|
  {
    hide Mapped, Ent;
    forall p': nat, a: nat | UserVa(s0, p', a)
      ensures Ent(s', p', a) == Ent(s, p', a)
              || (p' == p && a / PAGESIZE == va / PAGESIZE && Ent(s, p, a) == 0 && Ent(s', p, a) % PAGESIZE == 7)
    {
      TurnMaps(s, s', room, room', p, va, p', a);
    }
    forall a: nat | a / PAGESIZE == va / PAGESIZE
      ensures uva - uva % PAGESIZE <= a < end + PAGESIZE - 1 - (end - 1) % PAGESIZE
    {
      PageBounds(uva, va, end, a);
    }
  }

  lemma TurnMaps(s: Space, s': Space, room: int, room': int, p: nat, va: nat, p': nat, a: nat)
    requires Step(s, s', room, room', p, va) && 0 < p < |s.pd| && UserVa(s, p', a)
    ensures Ent(s', p', a) == Ent(s, p', a)
            || (p' == p && a / PAGESIZE == va / PAGESIZE && Ent(s, p, a) == 0 && Ent(s', p, a) % PAGESIZE == 7)
  {
    hide Entry, Pde;
    UserIndices(s, p', a);
    SamePage(va, a);
  }

  lemma PageBounds(uva: nat, va: nat, end: nat, a: nat)
    requires uva <= va < end && a / PAGESIZE == va / PAGESIZE
    ensures uva - uva % PAGESIZE <= a < end + PAGESIZE - 1 - (end - 1) % PAGESIZE
  {
  }

  /** pt_copyout.  With enough quota for the pages the range lacks, the process reads `buf` at
      `uva` afterwards; with less, part of the range has no page.  No other mapped byte of any process
      changes in either case. */
  method CopyOut(vm: Vmm, kva: nat, p: nat, uva: nat, buf: seq<byte>) returns (copied: nat)
    requires vm.Valid() && 0 < p < vm.pd.Length && vm.conts.cs[p].used
    requires uva < LIMIT && kva < LIMIT && uva + |buf| < LIMIT && kva + |buf| < LIMIT
    modifies vm.pd, vm.mem, vm`owner, vm.conts.pages, vm.conts.pages.at, vm.conts.cs
    ensures vm.Valid() && vm.conts.cs[p].used
    ensures copied == if USERLO <= uva && uva + |buf| <= USERHI && kva + |buf| <= USERHI then |buf| else 0
    ensures copied == 0 ==> vm.View() == old(vm.View())
    ensures Kept(old(vm.View()), vm.View(), p, uva, uva + |buf|)
    ensures MapsOnly(old(vm.View()), vm.View(), p, uva, uva + |buf|)
    ensures copied > 0 ==>
              (AllMapped(vm.View(), p, uva, uva + |buf|)
               <==> old(NeedVa(vm.View(), p, uva, uva + |buf|) <= Room(vm.conts.cs[p])))
    ensures copied > 0 && old(NeedVa(vm.View(), p, uva, uva + |buf|) <= Room(vm.conts.cs[p])) ==>
              Shows(vm.View(), p, uva, buf) && LowKept(old(vm.View()), vm.View(), vm.conts.pages.lo)
  {
    hide SpaceInv, Inv, UByte, Kept, Step, NeedVa, Mapped, Shows, LowKept, OnTrack, AllMapped, MapsOnly;
    ghost var s0 := vm.View();
    ghost var end := uva + |buf|;
    ghost var fits := NeedVa(s0, p, uva, end) <= Room(vm.conts.cs[p]);
    ghost var lo := vm.conts.pages.lo;
    StartOfTrack(fits, s0, Room(vm.conts.cs[p]), p, uva, end, lo);
    assert buf[..0] == [];
    RangeTestExact(uva, |buf|);
    copied := 0;
    if !(USERLO <= uva && (uva + |buf|) % LIMIT <= USERHI) {
      return;
    }
    if (kva + |buf|) % LIMIT > USERHI {
      return;
    }
    ghost var hole := uva;
    assert Copied(fits, s0, vm.View(), Room(vm.conts.cs[p]), p, uva, uva, buf, hole, lo);
    hide Copied;
    while copied < |buf|
      invariant 0 <= copied <= |buf|
      invariant copied == 0 || copied == |buf| || (uva + copied) % PAGESIZE == 0
      invariant vm.Valid() && vm.conts.cs[p].used
      invariant copied == 0 ==> vm.View() == s0
      invariant Copied(fits, s0, vm.View(), Room(vm.conts.cs[p]), p, uva, uva + copied, buf, hole, lo)
    {
      ghost var s, room := vm.View(), Room(vm.conts.cs[p]);
      var va := uva + copied;
      var size := Chunk(va, |buf| - copied);
      CopyOutPage(vm, p, va, buf[copied..copied + size]);
      ghost var s' := vm.View();
      hole := CopyTurn(fits, s0, s, s', room, Room(vm.conts.cs[p]), p, uva, va, buf, hole, lo);
      copied := copied + size;
    }
    vm.RoomNotNegative(p);
    CopyDone(fits, s0, vm.View(), Room(vm.conts.cs[p]), p, uva, buf, hole, lo);
  }

  /** Where pt_copyout stands at `va`. */
  ghost predicate Copied(fits: bool, s0: Space, s: Space, room: int, p: nat, uva: nat, va: nat, buf: seq<byte>,
                         hole: nat, lo: nat) {
    && |s.pd| == |s0.pd| && uva <= va <= uva + |buf|
    && Kept(s0, s, p, uva, uva + |buf|) && MapsOnly(s0, s, p, uva, uva + |buf|)
    && OnTrack(fits, s, room, p, uva, va, uva + |buf|, hole)
    && (fits ==> Shows(s, p, uva, buf[..va - uva]) && LowKept(s0, s, lo))
  }

  lemma CopyTurn(fits: bool, s0: Space, s: Space, s': Space, room: int, room': int, p: nat, uva: nat, va: nat,
                 buf: seq<byte>, hole: nat, lo: nat)
      returns (hole': nat)
    requires Copied(fits, s0, s, room, p, uva, va, buf, hole, lo) && Step(s, s', room, room', p, va)
    requires 0 < p < |s0.pd| && USERLO <= uva <= va < uva + |buf| <= USERHI && (va == uva || va % PAGESIZE == 0)
    requires var n := Chunk(va, uva + |buf| - va);
             && Kept(s, s', p, va, va + n)
             && (Mapped(s', p, va) ==> Shows(s', p, va, buf[va - uva..va - uva + n]) && LowKept(s, s', lo))
    ensures Copied(fits, s0, s', room', p, uva, va + Chunk(va, uva + |buf| - va), buf, hole', lo)
  {
    hide Kept, Step, NeedVa, Mapped, Shows, LowKept, OnTrack, MapsOnly;
    hole' := StepOnTrack(fits, s, s', room, room', p, uva, va, uva + |buf|, hole);
    StepMaps(s0, s, s', room, room', p, uva, va, uva + |buf|);
    Advance(fits, s0, s, s', p, uva, va, Chunk(va, uva + |buf| - va), buf, lo);
  }

  lemma CopyDone(fits: bool, s0: Space, s: Space, room: int, p: nat, uva: nat, buf: seq<byte>, hole: nat, lo: nat)
    requires Copied(fits, s0, s, room, p, uva, uva + |buf|, buf, hole, lo) && room >= 0
    ensures Kept(s0, s, p, uva, uva + |buf|) && MapsOnly(s0, s, p, uva, uva + |buf|)
    ensures fits <==> AllMapped(s, p, uva, uva + |buf|)
    ensures fits ==> Shows(s, p, uva, buf) && LowKept(s0, s, lo)
  {
    hide Kept, NeedVa, Mapped, Shows, LowKept, OnTrack, MapsOnly, AllMapped;
    EndOfTrack(fits, s, room, p, uva, uva + |buf|, hole);
    assert buf[..|buf|] == buf;
  }

  lemma StartOfTrack(fits: bool, s: Space, room: int, p: nat, uva: nat, end: nat, lo: nat)
    requires fits <==> NeedVa(s, p, uva, end) <= room
    ensures OnTrack(fits, s, room, p, uva, uva, end, uva) && Kept(s, s, p, uva, end)
    ensures Shows(s, p, uva, []) && LowKept(s, s, lo) && MapsOnly(s, s, p, uva, end)
  {
  }

  /** What one page adds to what the loop has done. */
  lemma Advance(fits: bool, s0: Space, s: Space, s': Space, p: nat, uva: nat, va: nat, n: nat, buf: seq<byte>, lo: nat)
    requires 0 < p < |s.pd| && USERLO <= uva <= va && va + n <= uva + |buf| <= USERHI
    requires Kept(s0, s, p, uva, uva + |buf|) && Kept(s, s', p, va, va + n)
    requires fits ==> Shows(s, p, uva, buf[..va - uva]) && Shows(s', p, va, buf[va - uva..va - uva + n])
    requires fits ==> LowKept(s0, s, lo) && LowKept(s, s', lo)
    ensures Kept(s0, s', p, uva, uva + |buf|)
    ensures fits ==> Shows(s', p, uva, buf[..va - uva + n]) && LowKept(s0, s', lo)
  {
    hide Kept, Shows, Mapped, UByte;
    KeptWiden(s, s', p, va, va + n, uva, uva + |buf|);
    KeptTrans(s0, s, s', p, uva, uva + |buf|);
    if fits {
      var part := buf[..va - uva + n];
      assert part[..va - uva] == buf[..va - uva] && part[va - uva..] == buf[va - uva..va - uva + n];
      ShowsJoin(s, s', p, uva, va, n, part);
    }
  }

  /** One turn of the pt_copyin loop. */
  method CopyInPage(vm: Vmm, p: nat, va: nat, n: nat) returns (chunk: seq<byte>)
    requires vm.Valid() && vm.May(p, va) && UserVa(vm.View(), p, va)
    requires va % PAGESIZE + n <= PAGESIZE && va + n <= USERHI
    modifies vm.pd, vm.mem, vm`owner, vm.conts.pages, vm.conts.pages.at, vm.conts.cs
    ensures vm.Valid() && vm.May(p, va) && |chunk| == n
    ensures Step(old(vm.View()), vm.View(), old(Room(vm.conts.cs[p])), Room(vm.conts.cs[p]), p, va)
    ensures Kept(old(vm.View()), vm.View(), p, va, va)
    ensures LowKept(old(vm.View()), vm.View(), vm.conts.pages.lo)
    ensures Mapped(vm.View(), p, va) ==> Shows(vm.View(), p, va, chunk)
  {
    hide Word, Isolated, KernelMapped, TableOk, Inv, OthersSame, Kept, UByte, Ent;
    ghost var s := vm.View();
    ghost var lo, hi, nps := vm.conts.pages.lo, vm.conts.pages.hi, vm.conts.pages.nps;
    ghost var at0 := vm.conts.pages.at[..];
    var g := Access(vm, p, va);
    ghost var s1 := vm.View();
    assert UserVa(s1, p, va) by { assert |s1.pd| == |s.pd|; }
    AccessKeeps(s, s1, at0, lo, hi, nps, p, va);
    KeptWiden(s, s1, p, 0, 0, va, va);
    TargetWritable(s1, vm.conts.pages.at[..], lo, hi, nps, p, va);
    chunk := vm.mem[g][va % PAGESIZE..va % PAGESIZE + n];
    if Mapped(s1, p, va) {
      ReadShows(s1, p, va, n);
    }
  }

  lemma ReadShows(s: Space, p: nat, va: nat, n: nat)
    requires Ent(s, p, va) / PAGESIZE < |s.mem| && |s.mem[Ent(s, p, va) / PAGESIZE]| == PAGESIZE
    requires va % PAGESIZE + n <= PAGESIZE && Mapped(s, p, va)
    ensures Shows(s, p, va, s.mem[Ent(s, p, va) / PAGESIZE][va % PAGESIZE..va % PAGESIZE + n])
  {
    hide Ent;
    forall a | va <= a < va + n
      ensures Ent(s, p, a) == Ent(s, p, va) && a % PAGESIZE == va % PAGESIZE + (a - va)
    {
      WithinPage(va, n, a);
      SameEnt(s, p, va, a);
    }
  }

  /** pt_copyin: the bytes the process reads, and no mapped byte of any process changes; pages
      of the range that were missing are mapped as far as the quota goes. */
  method CopyIn(vm: Vmm, p: nat, uva: nat, kva: nat, len: nat) returns (copied: nat, buf: seq<byte>)
    requires vm.Valid() && 0 < p < vm.pd.Length && vm.conts.cs[p].used
    requires uva < LIMIT && kva < LIMIT && uva + len < LIMIT && kva + len < LIMIT
    modifies vm.pd, vm.mem, vm`owner, vm.conts.pages, vm.conts.pages.at, vm.conts.cs
    ensures vm.Valid() && vm.conts.cs[p].used && |buf| == copied
    ensures copied == if USERLO <= uva && uva + len <= USERHI && kva + len <= USERHI then len else 0
    ensures copied == 0 ==> vm.View() == old(vm.View())
    ensures Kept(old(vm.View()), vm.View(), p, uva, uva) && LowKept(old(vm.View()), vm.View(), vm.conts.pages.lo)
    ensures MapsOnly(old(vm.View()), vm.View(), p, uva, uva + len)
    ensures copied > 0 ==>
              (AllMapped(vm.View(), p, uva, uva + len)
               <==> old(NeedVa(vm.View(), p, uva, uva + len) <= Room(vm.conts.cs[p])))
    ensures copied > 0 && old(NeedVa(vm.View(), p, uva, uva + len) <= Room(vm.conts.cs[p])) ==>
              Shows(vm.View(), p, uva, buf)
  {
    hide SpaceInv, Inv, UByte, Kept, Step, NeedVa, Mapped, Shows, LowKept, OnTrack, AllMapped, MapsOnly;
    ghost var s0 := vm.View();
    ghost var end := uva + len;
    ghost var fits := NeedVa(s0, p, uva, end) <= Room(vm.conts.cs[p]);
    StartOfTrack(fits, s0, Room(vm.conts.cs[p]), p, uva, end, vm.conts.pages.lo);
    KeptNone(s0, p, uva);
    RangeTestExact(uva, len);
    copied, buf := 0, [];
    if !(USERLO <= uva && (uva + len) % LIMIT <= USERHI) {
      return;
    }
    if (kva + len) % LIMIT > USERHI {
      return;
    }
    ghost var hole := uva;
    while copied < len
      invariant 0 <= copied <= len && |buf| == copied
      invariant copied == 0 || copied == len || (uva + copied) % PAGESIZE == 0
      invariant vm.Valid() && vm.conts.cs[p].used
      invariant copied == 0 ==> vm.View() == s0
      invariant Kept(s0, vm.View(), p, uva, uva) && LowKept(s0, vm.View(), vm.conts.pages.lo)
      invariant MapsOnly(s0, vm.View(), p, uva, end)
      invariant OnTrack(fits, vm.View(), Room(vm.conts.cs[p]), p, uva, uva + copied, end, hole)
      invariant fits ==> Shows(vm.View(), p, uva, buf)
    {
      ghost var s, room := vm.View(), Room(vm.conts.cs[p]);
      var va := uva + copied;
      var size := Chunk(va, len - copied);
      var chunk := CopyInPage(vm, p, va, size);
      ghost var s' := vm.View();
      hole := StepOnTrack(fits, s, s', room, Room(vm.conts.cs[p]), p, uva, va, end, hole);
      StepMaps(s0, s, s', room, Room(vm.conts.cs[p]), p, uva, va, end);
      AdvanceIn(fits, s0, s, s', p, uva, va, buf, chunk, vm.conts.pages.lo);
      buf := buf + chunk;
      copied := copied + size;
    }
    vm.RoomNotNegative(p);
    EndOfTrack(fits, vm.View(), Room(vm.conts.cs[p]), p, uva, end, hole);
  }

  lemma KeptNone(s: Space, p: nat, a: nat)
    ensures Kept(s, s, p, a, a)
  {
  }

  lemma AdvanceIn(fits: bool, s0: Space, s: Space, s': Space, p: nat, uva: nat, va: nat, buf: seq<byte>,
                  chunk: seq<byte>,
                  lo: nat)
    requires 0 < p < |s.pd| && USERLO <= uva <= va == uva + |buf| && va + |chunk| <= USERHI
    requires Kept(s0, s, p, uva, uva) && Kept(s, s', p, va, va)
    requires fits ==> Shows(s, p, uva, buf) && Shows(s', p, va, chunk)
    requires LowKept(s0, s, lo) && LowKept(s, s', lo)
    ensures Kept(s0, s', p, uva, uva) && LowKept(s0, s', lo)
    ensures fits ==> Shows(s', p, uva, buf + chunk)
  {
    hide Kept, Shows, Mapped, UByte;
    KeptWiden(s, s', p, va, va, uva, uva);
    KeptTrans(s0, s, s', p, uva, uva);
    if fits {
      var part := buf + chunk;
      assert part[..va - uva] == buf && part[va - uva..] == chunk;
      KeptWiden(s, s', p, va, va, va, va + |chunk|);
      ShowsJoin(s, s', p, uva, va, |chunk|, part);
    }
  }

  // ---- the round trip ----

  lemma {:induction false} NothingLater(s: Space, p: nat, v: nat, end: nat)
    requires forall i :: v <= i < end ==> EntV(s, p, i) != 0
    ensures Later(s, p, v, end) == 0
    decreases end - v
  {
    if v < end {
      assert EntV(s, p, v) != 0;
      NothingLater(s, p, v + 1, end);
    }
  }

  /** A range that is mapped takes no page. */
  lemma MappedNeedsNothing(s: Space, p: nat, uva: nat, end: nat)
    requires AllMapped(s, p, uva, end)
    ensures NeedVa(s, p, uva, end) == 0
  {
    if uva < end {
      var last := (end + PAGESIZE - 1) / PAGESIZE;
      forall i: nat | uva / PAGESIZE <= i < last
        ensures EntV(s, p, i) != 0
      {
        var va := if i == uva / PAGESIZE then uva else i * PAGESIZE;
        assert uva <= va < end && va / PAGESIZE == i;
        PageParts(va);
        assert Mapped(s, p, va);
      }
      NothingLater(s, p, uva / PAGESIZE, last);
      assert EntV(s, p, uva / PAGESIZE) != 0;
    }
  }

  lemma ShowsSame(s: Space, p: nat, uva: nat, a: seq<byte>, b: seq<byte>)
    requires Shows(s, p, uva, a) && Shows(s, p, uva, b) && |a| == |b|
    ensures a == b
  {
    hide UByte, Mapped;
    forall i | 0 <= i < |a|
      ensures a[i] == b[i]
    {
      assert UByte(s, p, uva + i) == a[uva + i - uva];
    }
  }

  lemma ShowsKept(s: Space, s': Space, p: nat, uva: nat, a: seq<byte>)
    requires Shows(s, p, uva, a) && Kept(s, s', p, uva, uva) && 0 < p < |s.pd| && USERLO <= uva && uva + |a| <= USERHI
    ensures Shows(s', p, uva, a)
  {
    hide UByte, Mapped;
    forall va | uva <= va < uva + |a|
      ensures Mapped(s', p, va) && UByte(s', p, va) == a[va - uva]
    {
      assert UByte(s, p, va) == a[va - uva];
    }
  }

  /** What pt_copyout stores, pt_copyin brings back. */
  method OutAndIn(vm: Vmm, kva: nat, p: nat, uva: nat, buf: seq<byte>) returns (back: seq<byte>)
    requires vm.Valid() && 0 < p < vm.pd.Length && vm.conts.cs[p].used
    requires USERLO <= uva && uva + |buf| <= USERHI && kva + |buf| <= USERHI
    requires NeedVa(vm.View(), p, uva, uva + |buf|) <= Room(vm.conts.cs[p])
    modifies vm.pd, vm.mem, vm`owner, vm.conts.pages, vm.conts.pages.at, vm.conts.cs
    ensures back == buf && vm.Valid()
    ensures Kept(old(vm.View()), vm.View(), p, uva, uva + |buf|)
  {
    hide SpaceInv, Inv, UByte, Kept, NeedVa, Mapped, Shows, AllMapped;
    ghost var s := vm.View();
    var n := CopyOut(vm, kva, p, uva, buf);
    ghost var s1 := vm.View();
    if |buf| > 0 {
      MappedNeedsNothing(s1, p, uva, uva + |buf|);
    }
    vm.RoomNotNegative(p);
    var m;
    m, back := CopyIn(vm, p, uva, kva, |buf|);
    KeptWiden(s1, vm.View(), p, uva, uva, uva, uva + |buf|);
    KeptTrans(s, s1, vm.View(), p, uva, uva + |buf|);
    if |buf| > 0 {
      ShowsKept(s1, vm.View(), p, uva, buf);
      ShowsSame(vm.View(), p, uva, back, buf);
    }
  }
}
