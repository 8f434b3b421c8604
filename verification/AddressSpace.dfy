/** kern/vmm/MPTOp, MPTComm, MPTKern and MPTNew: mapping and unmapping pages on demand. */
module AddressSpace {
  import opened Bytes
  import opened PageAlloc
  import opened Container
  import opened PageTable

  const MAGIC := 1048577

  /** PDE_ADDR and PTE_ADDR of a virtual address. */
  function D(va: nat): nat {
    va / 0x40_0000
  }

  function T(va: nat): nat {
    va / PAGESIZE % ENTRIES
  }

  lemma Indices(va: nat)
    requires va < LIMIT
    ensures D(va) < ENTRIES && T(va) < ENTRIES
  {
  }

  /** By address: the kernel's part of every process, and all of process 0, is mapped to itself; what user code
      can touch lies between VM_USERLO and VM_USERHI. */
  lemma Addresses(s: Space, at: Table, lo: nat, hi: nat, nps: nat, p: nat, va: nat)
    requires SpaceInv(s, at, lo, hi, nps) && p < |s.pd| && va < LIMIT
    ensures p == 0 || va < 0x4000_0000 || 0xF000_0000 <= va ==>
              Entry(s, p, D(va), T(va)) / PAGESIZE == va / PAGESIZE && !UserReaches(s, p, D(va), T(va))
    ensures UserReaches(s, p, D(va), T(va)) ==>
              && 0 < p && 0x4000_0000 <= va < 0xF000_0000
              && Owns(s, Entry(s, p, D(va), T(va)) / PAGESIZE, Dat(p, D(va), T(va)))
  {
    hide SpaceInv, Entry, Pde, UserReaches;
    Indices(va);
    assert D(va) * ENTRIES + T(va) == va / PAGESIZE;
    if UserReaches(s, p, D(va), T(va)) {
      UserConfined(s, at, lo, hi, nps, p, D(va), T(va));
    }
    if p == 0 || va < 0x4000_0000 || 0xF000_0000 <= va {
      KernelIdentity(s, at, lo, hi, nps, p, D(va), T(va));
    }
  }

  function Room(c: Node): int {
    c.quota - c.usage
  }

  /** Pages that a fresh mapping under directory entry (p, d) takes. */
  function Cost(s: Space, p: nat, d: nat): nat {
    if Pde(s, p, d) == 0 then 2 else 1
  }

  /** Every translation but that of (p, d, t) is as before, for all processes and all addresses. */
  ghost predicate OthersSame(s: Space, s': Space, p: nat, d: nat, t: nat) {
    && |s'.pd| == |s.pd|
    && (forall p', d' :: 0 <= p' < |s.pd| && 0 <= d' < ENTRIES && (p', d') != (p, d) ==>
          Pde(s', p', d') == Pde(s, p', d'))
    && (forall p', d', t' :: 0 <= p' < |s.pd| && 0 <= d' < ENTRIES && 0 <= t' < ENTRIES && (p', d', t') != (p, d, t) ==>
          Entry(s', p', d', t') == Entry(s, p', d', t'))
  }

  /** Data pages and everything outside the user range of memory keep their contents. */
  ghost predicate DataKept(s: Space, s': Space, lo: nat, hi: nat) {
    && |s'.mem| == |s.mem|
    && (forall g :: 0 <= g < |s.mem| && (g < lo || hi <= g) ==> s'.mem[g] == s.mem[g])
    && (forall g :: g in s.owner && s.owner[g].Dat? && g < |s.mem| ==>
          s'.mem[g] == s.mem[g] && Owns(s', g, s.owner[g]))
  }

  ghost predicate StillAllocated(at: Table, at': Table) {
    |at'| == |at| && forall g :: 0 <= g < |at| && at[g].alloc ==> at'[g].alloc
  }

  lemma AddTableOthers(s: Space, at: Table, lo: nat, hi: nat, nps: nat, p: nat, d: nat, g: nat, page: seq<byte>, t: nat)
    requires SpaceInv(s, at, lo, hi, nps) && Private(s, p, d) && Pde(s, p, d) == 0
    requires lo <= g < hi && g < |s.mem| && g !in s.owner && Blank(page)
    ensures OthersSame(s, AddTable(s, p, d, g, page), p, d, t)
    ensures DataKept(s, AddTable(s, p, d, g, page), lo, hi)
  {
    hide Word, Isolated, KernelMapped;
    var s1 := AddTable(s, p, d, g, page);
    forall p', d', t' | 0 <= p' < |s.pd| && 0 <= d' < ENTRIES && 0 <= t' < ENTRIES
      ensures Entry(s1, p', d', t') == Entry(s, p', d', t')
    {
      AddTableSilent(s, at, lo, hi, nps, p, d, g, page, p', d', t');
    }
  }

  lemma WriteOthers(s: Space, at: Table, lo: nat, hi: nat, nps: nat, p: nat, d: nat, t: nat, w: word,
                    owner: map<nat, Slot>)
    requires SpaceInv(s, at, lo, hi, nps) && Private(s, p, d) && t < ENTRIES && Pde(s, p, d) != 0
    requires Pde(s, p, d) / PAGESIZE < |s.mem|
    requires forall g :: g in s.owner ==> g in owner && owner[g] == s.owner[g]
    ensures var s1 := WriteEntry(s, Pde(s, p, d) / PAGESIZE, t, w).(owner := owner);
            OthersSame(s, s1, p, d, t) && DataKept(s, s1, lo, hi) && Entry(s1, p, d, t) == w
  {
    hide Word, SetWord;
    var g := Pde(s, p, d) / PAGESIZE;
    var s0 := WriteEntry(s, g, t, w);
    var s1 := s0.(owner := owner);
    assert TableOwned(s, p, d);
    AllocatedHigh(at, lo, hi, nps, g);
    forall p', d', t' | 0 <= p' < |s.pd| && 0 <= d' < ENTRIES && 0 <= t' < ENTRIES
      ensures Entry(s1, p', d', t') == if (p, d, t) == (p', d', t') then w else Entry(s, p', d', t')
    {
      WriteChangesOne(s, at, lo, hi, nps, p, d, t, w, p', d', t');
      assert Entry(s1, p', d', t') == Entry(s0, p', d', t');
    }
  }

  lemma OthersTrans(s: Space, s': Space, s'': Space, p: nat, d: nat, t: nat, lo: nat, hi: nat)
    requires OthersSame(s, s', p, d, t) && OthersSame(s', s'', p, d, t)
    requires DataKept(s, s', lo, hi) && DataKept(s', s'', lo, hi)
    requires forall g :: g in s.owner ==> g < |s.mem|
    ensures OthersSame(s, s'', p, d, t) && DataKept(s, s'', lo, hi)
  {
    hide Entry;
  }

  lemma OthersRefl(s: Space, p: nat, d: nat, t: nat, lo: nat, hi: nat)
    ensures OthersSame(s, s, p, d, t) && DataKept(s, s, lo, hi)
  {
  }

  // ---- boot ----

  lemma NonEmptyTree(conts: Containers)
    requires conts.Valid()
    ensures TreeOk(conts.cs[..])
  {
  }

  ghost predicate IdTable(page: seq<byte>, d: nat) {
    && |page| == PAGESIZE
    && forall t :: 0 <= t < ENTRIES ==>
         Word(page, t) == (d * ENTRIES + t) * PAGESIZE + if 256 <= d < 960 then 3 else 0x103
  }

  ghost predicate IdAt(m: seq<seq<byte>>, idBase: nat, d: nat) {
    idBase + d < |m| && IdTable(m[idBase + d], d)
  }

  /** One page of IDPTbl: the inner loop of idptbl_init. */
  method IdentityTable(d: nat, page: seq<byte>) returns (r: seq<byte>)
    requires d < ENTRIES && |page| == PAGESIZE
    ensures |r| == PAGESIZE && IdTable(r, d)
  {
    hide Word, SetWord;
    r := page;
    var t := 0;
    while t < ENTRIES
      invariant 0 <= t <= ENTRIES && |r| == PAGESIZE
      invariant forall t' :: 0 <= t' < t ==> Word(r, t') == (d * ENTRIES + t') * PAGESIZE + IdPerm(d)
    {
      var w := Word32(d * ENTRIES + t, IdPerm(d));
      forall t' | 0 <= t' < ENTRIES
        ensures Word(SetWord(r, t, w), t') == if t == t' then w else Word(r, t')
      {
        WordOfSetWord(r, t, w, t');
      }
      r := SetWord(r, t, w);
      t := t + 1;
    }
  }

  /** idptbl_init */
  method IdentityTables(idBase: nat, memory: seq<seq<byte>>) returns (m: seq<seq<byte>>)
    requires idBase + ENTRIES <= |memory| && forall g :: 0 <= g < |memory| ==> |memory[g]| == PAGESIZE
    ensures |m| == |memory| && forall g :: 0 <= g < |m| ==> |m[g]| == PAGESIZE
    ensures forall g :: 0 <= g < |m| && !(idBase <= g < idBase + ENTRIES) ==> m[g] == memory[g]
    ensures forall d :: 0 <= d < ENTRIES ==> IdAt(m, idBase, d)
  {
    hide IdTable;
    m := memory;
    var d := 0;
    while d < ENTRIES
      invariant 0 <= d <= ENTRIES && |m| == |memory|
      invariant forall g :: 0 <= g < |m| ==> |m[g]| == PAGESIZE
      invariant forall g :: 0 <= g < |m| && !(idBase <= g < idBase + ENTRIES) ==> m[g] == memory[g]
      invariant forall d' :: 0 <= d' < d ==> IdAt(m, idBase, d')
    {
      var page := IdentityTable(d, m[idBase + d]);
      ghost var before := m;
      m := m[idBase + d := page];
      assert forall d' :: 0 <= d' < d ==> IdAt(before, idBase, d') ==> IdAt(m, idBase, d');
      d := d + 1;
    }
  }

  /** One row of PDirPool: the inner loop of pdir_init. */
  method Directory(idBase: nat) returns (row: seq<word>)
    requires idBase + ENTRIES <= 0x10_0000
    ensures |row| == ENTRIES
    ensures forall d :: 0 <= d < ENTRIES ==>
              row[d] == if USERLO_PDE <= d < USERHI_PDE then 0 else (idBase + d) * PAGESIZE + PTU
  {
    row := seq(ENTRIES, _ => 0);
    var d := 0;
    while d < ENTRIES
      invariant 0 <= d <= ENTRIES && |row| == ENTRIES
      invariant forall d' :: 0 <= d' < d ==>
                  row[d'] == if USERLO_PDE <= d' < USERHI_PDE then 0 else (idBase + d') * PAGESIZE + PTU
    {
      var w: word := if d < USERLO_PDE || USERHI_PDE <= d then Word32(idBase + d, PTU) else 0;
      row := row[d := w];
      d := d + 1;
    }
  }

  /** pdir_init_kern on the row of process 0. */
  method KernelDirectory(idBase: nat, row0: seq<word>) returns (row: seq<word>)
    requires idBase + ENTRIES <= 0x10_0000 && |row0| == ENTRIES
    requires forall d :: 0 <= d < ENTRIES && !(USERLO_PDE <= d < USERHI_PDE) ==>
               row0[d] == (idBase + d) * PAGESIZE + PTU
    ensures |row| == ENTRIES && forall d :: 0 <= d < ENTRIES ==> row[d] == (idBase + d) * PAGESIZE + PTU
  {
    row := row0;
    var d := USERLO_PDE;
    while d < USERHI_PDE
      invariant USERLO_PDE <= d <= USERHI_PDE && |row| == ENTRIES
      invariant forall d' :: 0 <= d' < ENTRIES && !(d <= d' < USERHI_PDE) ==> row[d'] == (idBase + d') * PAGESIZE + PTU
    {
      var w := Word32(idBase + d, PTU);
      row := row[d := w];
      d := d + 1;
    }
  }

  /** The maps right after boot. */
  lemma BootInv(s: Space, at: Table, lo: nat, hi: nat, nps: nat)
    requires TableOk(at, lo, hi, nps) && |at| == |s.mem| && 0 < s.idBase && s.idBase + ENTRIES <= lo
    requires Shape(s) && s.owner == map[]
    requires forall p, d :: 0 < p < |s.pd| && 0 <= d < ENTRIES ==>
               s.pd[p][d] == if USERLO_PDE <= d < USERHI_PDE then 0 else (s.idBase + d) * PAGESIZE + PTU
    requires 0 < |s.pd| && forall d :: 0 <= d < ENTRIES ==> s.pd[0][d] == (s.idBase + d) * PAGESIZE + PTU
    requires forall d :: 0 <= d < ENTRIES ==> IdAt(s.mem, s.idBase, d)
    ensures SpaceInv(s, at, lo, hi, nps)
    ensures forall p, d :: Private(s, p, d) ==> Pde(s, p, d) == 0
  {
    hide Word;
    forall d, t | 0 <= d < ENTRIES && 0 <= t < ENTRIES
      ensures Identity(s, d, t)
    {
      assert IdAt(s.mem, s.idBase, d);
    }
  }

  class Vmm {
    const conts: Containers
    const pd: array<seq<word>>
    const mem: array<seq<byte>>
    const idBase: nat
    ghost var owner: map<nat, Slot>

    ghost function View(): Space
      reads this, pd, mem
    {
      Space(pd[..], mem[..], idBase, owner)
    }

    ghost predicate Good()
      reads this, pd, mem, conts, conts.pages, conts.pages.at
    {
      SpaceInv(View(), conts.pages.at[..], conts.pages.lo, conts.pages.hi, conts.pages.nps)
    }

    ghost predicate Valid()
      reads this, pd, mem, conts, conts.pages, conts.pages.at, conts.cs
    {
      conts.Valid() && pd.Length == conts.cs.Length && Good()
    }

    /** idptbl_init, pdir_init and pdir_init_kern, over memory of any contents. */
    constructor (conts: Containers, idBase: nat, memory: seq<seq<byte>>)
      requires conts.Valid() && 0 < idBase && idBase + ENTRIES <= conts.pages.lo
      requires |memory| == conts.pages.at.Length <= 0x10_0000
      requires forall g :: 0 <= g < |memory| ==> |memory[g]| == PAGESIZE
      ensures Valid() && this.conts == conts && this.idBase == idBase && owner == map[]
      ensures forall p, d :: Private(View(), p, d) ==> Pde(View(), p, d) == 0
      ensures forall g :: 0 <= g < |memory| && !(idBase <= g < idBase + ENTRIES) ==> mem[g] == memory[g]
      ensures fresh(pd) && fresh(mem)
    {
      hide Word, Inv, IdTable;
      var m := IdentityTables(idBase, memory);
      var rows: seq<seq<word>> := [];
      while |rows| < conts.cs.Length
        invariant |rows| <= conts.cs.Length
        invariant forall p :: 0 <= p < |rows| ==> |rows[p]| == ENTRIES
        invariant forall p, d :: 0 <= p < |rows| && 0 <= d < ENTRIES ==>
                    rows[p][d] == if USERLO_PDE <= d < USERHI_PDE then 0 else (idBase + d) * PAGESIZE + PTU
        decreases conts.cs.Length - |rows|
      {
        var row := Directory(idBase);
        rows := rows + [row];
      }
      assert 0 < conts.cs.Length by { assert TreeOk(conts.cs[..]) by { NonEmptyTree(conts); } }
      var first := KernelDirectory(idBase, rows[0]);
      rows := rows[0 := first];
      BootInv(Space(rows, m, idBase, map[]), conts.pages.at[..], conts.pages.lo, conts.pages.hi, conts.pages.nps);
      this.conts := conts;
      this.idBase := idBase;
      var a := new seq<word>[|rows|](i requires 0 <= i < |rows| => rows[i]);
      var b := new seq<byte>[|m|](i requires 0 <= i < |m| => m[i]);
      pd := a;
      mem := b;
      owner := map[];
      assert a[..] == rows && b[..] == m;
    }

    /** The process may map user address `va`. */
    ghost predicate May(p: nat, va: nat)
      reads this, pd, mem, conts, conts.cs
    {
      va < LIMIT && Private(View(), p, D(va)) && p < conts.cs.Length && conts.cs[p].used
    }

    /** get_ptbl_entry_by_va */
    method GetEntry(p: nat, va: nat) returns (e: word)
      requires Valid() && p < pd.Length && va < LIMIT
      ensures e == Entry(View(), p, D(va), T(va))
    {
      hide Word, Isolated, KernelMapped;
      Indices(va);
      assert |View().pd[p]| == ENTRIES;
      var w := pd[p][D(va)];
      if w == 0 {
        return 0;
      }
      TableInRange(View(), conts.pages.at[..], conts.pages.lo, conts.pages.hi, conts.pages.nps, p, D(va));
      assert |View().mem[w / PAGESIZE]| == PAGESIZE;
      e := Word(mem[w / PAGESIZE], T(va));
    }

    /** set_ptbl_entry_by_va for a table that exists. */
    method SetEntry(p: nat, va: nat, w: word, ghost newOwner: map<nat, Slot>)
      requires Valid() && May(p, va) && Pde(View(), p, D(va)) != 0
      requires forall g :: g in owner ==> g in newOwner && newOwner[g] == owner[g]
      requires forall g :: g in newOwner ==> g < conts.pages.at.Length && conts.pages.at[g].alloc
      requires w != 0 ==> w % 2 == 1 && w / PAGESIZE in newOwner && newOwner[w / PAGESIZE] == Dat(p, D(va), T(va))
      modifies mem, `owner
      ensures Valid() && owner == newOwner && Entry(View(), p, D(va), T(va)) == w
      ensures OthersSame(old(View()), View(), p, D(va), T(va))
      ensures DataKept(old(View()), View(), conts.pages.lo, conts.pages.hi)
    {
      hide Word, SetWord, Isolated, KernelMapped, Inv;
      ghost var s, at := View(), conts.pages.at[..];
      Indices(va);
      ghost var lo, hi, nps := conts.pages.lo, conts.pages.hi, conts.pages.nps;
      TableInRange(s, at, lo, hi, nps, p, D(va));
      assert |s.pd[p]| == ENTRIES;
      var g := pd[p][D(va)] / PAGESIZE;
      assert |s.mem[g]| == PAGESIZE;
      WriteKeepsInv(s, at, lo, hi, nps, p, D(va), T(va), w, newOwner);
      WriteOthers(s, at, lo, hi, nps, p, D(va), T(va), w, newOwner);
      mem[g] := SetWord(mem[g], T(va), w);
      owner := newOwner;
      assert View() == WriteEntry(s, g, T(va), w).(owner := newOwner);
    }
  
    /** container_alloc on behalf of the page tables: a page that nobody holds. */
    method Grab(p: nat) returns (g: nat)
      requires Valid() && p < conts.cs.Length && conts.cs[p].used
      modifies conts.pages, conts.pages.at, conts.cs
      ensures Valid() && (g == 0 <==> old(Room(conts.cs[p]) < 1))
      ensures g == 0 ==> conts.pages.at[..] == old(conts.pages.at[..]) && conts.cs[..] == old(conts.cs[..])
      ensures g != 0 ==> g < mem.Length && g !in owner && conts.pages.lo <= g < conts.pages.hi
                         && old(IsFree(conts.pages.at[g])) && conts.pages.at[..] == Taken(old(conts.pages.at[..]), g)
                         && conts.cs[..] == Charge(old(conts.cs[..]), p, 1)
    {
      hide Isolated, KernelMapped, Inv, Shape;
      ghost var at := conts.pages.at[..];
      ghost var before := conts.Abs();
      g := conts.AllocPage(p);
      GrabEffect(before, Alloc(p, g));
      if g != 0 {
        TakenKeepsInv(View(), at, conts.pages.lo, conts.pages.hi, conts.pages.nps, g);
      }
    }

    /** alloc_ptbl: an empty page table appears and no translation changes. */
    method AllocPtbl(p: nat, va: nat) returns (g: nat)
      requires Valid() && May(p, va) && Pde(View(), p, D(va)) == 0
      modifies pd, mem, `owner, conts.pages, conts.pages.at, conts.cs
      ensures Valid() && May(p, va) && (g == 0 <==> old(Room(conts.cs[p]) < 1))
      ensures g == 0 ==> View() == old(View())
                         && conts.pages.at[..] == old(conts.pages.at[..]) && conts.cs[..] == old(conts.cs[..])
      ensures g != 0 ==>
                g < 0x10_0000 && Pde(View(), p, D(va)) == Word32(g, PTU) && owner == old(owner)[g := Tbl(p, D(va))]
                         && old(g !in owner) && Entry(View(), p, D(va), T(va)) == 0
                         && conts.cs[..] == Charge(old(conts.cs[..]), p, 1)
      ensures OthersSame(old(View()), View(), p, D(va), T(va))
      ensures DataKept(old(View()), View(), conts.pages.lo, conts.pages.hi)
      ensures StillAllocated(old(conts.pages.at[..]), conts.pages.at[..])
      ensures g != 0 ==> old(IsFree(conts.pages.at[g]))
    {
      hide Word, SetWord, Isolated, KernelMapped, Inv;
      ghost var s := View();
      Indices(va);
      assert |s.pd[p]| == ENTRIES;
      g := Grab(p);
      if g != 0 {
        ghost var at := conts.pages.at[..];
        ghost var lo, hi, nps := conts.pages.lo, conts.pages.hi, conts.pages.nps;
        assert |s.mem[g]| == PAGESIZE;
        var row: seq<word> := pd[p][D(va) := Word32(g, PTU)];
        pd[p] := row;
        ClearTable(g);
        AddTableKeepsInv(s, at, lo, hi, nps, p, D(va), g, mem[g]);
        AddTableOthers(s, at, lo, hi, nps, p, D(va), g, mem[g], T(va));
        AddTableSilent(s, at, lo, hi, nps, p, D(va), g, mem[g], p, D(va), T(va));
        owner := owner[g := Tbl(p, D(va))];
        assert View() == AddTable(s, p, D(va), g, mem[g]);
      }
    }

    /** The loop of alloc_ptbl that clears all 1024 entries. */
    method ClearTable(g: nat)
      requires g < mem.Length && |mem[g]| == PAGESIZE
      modifies mem
      ensures Blank(mem[g]) && mem[..] == old(mem[..])[g := mem[g]]
    {
      hide Word, SetWord;
      var t := 0;
      ghost var before := mem[..];
      while t < ENTRIES
        invariant 0 <= t <= ENTRIES && |mem[g]| == PAGESIZE
        invariant mem[..] == before[g := mem[g]]
        invariant forall t' :: 0 <= t' < t ==> Word(mem[g], t') == 0
      {
        ghost var page := mem[g];
        forall t' | 0 <= t' < ENTRIES
          ensures Word(SetWord(page, t, 0), t') == if t == t' then 0 else Word(page, t')
        {
          WordOfSetWord(page, t, 0, t');
        }
        mem[g] := SetWord(mem[g], t, 0);
        t := t + 1;
      }
    }

    /** map_page: page `g`, in hand and not held elsewhere, becomes the page of `va`; nothing
        else in any address space moves. */
    method MapPage(p: nat, va: nat, g: nat, perm: nat) returns (r: nat)
      requires Valid() && May(p, va) && perm < PAGESIZE && perm % 2 == 1
      requires g < conts.pages.at.Length && conts.pages.at[g].alloc && g !in owner && mem.Length <= 0x10_0000
      modifies pd, mem, `owner, conts.pages, conts.pages.at, conts.cs
      ensures Valid() && May(p, va)
      ensures r == MAGIC <==> old(Pde(View(), p, D(va)) == 0 && Room(conts.cs[p]) < 1)
      ensures r == MAGIC ==> View() == old(View()) && conts.cs[..] == old(conts.cs[..])
      ensures r != MAGIC ==> Entry(View(), p, D(va), T(va)) == Word32(g, perm) && Owns(View(), g, Dat(p, D(va), T(va)))
                             && Pde(View(), p, D(va)) / PAGESIZE == r
                             && conts.cs[..] == Charge(old(conts.cs[..]), p, old(Cost(View(), p, D(va))) - 1)
      ensures OthersSame(old(View()), View(), p, D(va), T(va))
      ensures DataKept(old(View()), View(), conts.pages.lo, conts.pages.hi)
      ensures StillAllocated(old(conts.pages.at[..]), conts.pages.at[..])
    {
      hide Word, SetWord, Isolated, KernelMapped, Inv, Entry, OthersSame, DataKept;
      ghost var s := View();
      Indices(va);
      assert |s.pd[p]| == ENTRIES;
      r := pd[p][D(va)] / PAGESIZE;
      OthersRefl(s, p, D(va), T(va), conts.pages.lo, conts.pages.hi);
      if pd[p][D(va)] == 0 {
        r := AllocPtbl(p, va);
        if r == 0 {
          return MAGIC;
        }
      }
      ghost var s1 := View();
      SetEntry(p, va, Word32(g, perm), owner[g := Dat(p, D(va), T(va))]);
      OthersTrans(s, s1, View(), p, D(va), T(va), conts.pages.lo, conts.pages.hi);
    }

    /** alloc_page: with quota for the page, and for a page table if one is missing, exactly one
        virtual page of one process changes: it gets a page that was free. */
    method AllocPage(p: nat, va: nat, perm: nat) returns (r: nat)
      requires Valid() && May(p, va) && perm < PAGESIZE && perm % 2 == 1
      modifies pd, mem, `owner, conts.pages, conts.pages.at, conts.cs
      ensures Valid() && May(p, va)
      ensures r == MAGIC <==> old(Room(conts.cs[p]) < Cost(View(), p, D(va)))
      ensures r == MAGIC ==> View() == old(View()) && Room(conts.cs[p]) == 0
      ensures r != MAGIC ==> Newly(old(View()), old(conts.pages.at[..]), View(), p, D(va), T(va), perm)
                             && Room(conts.cs[p]) == old(Room(conts.cs[p]) - Cost(View(), p, D(va)))
                             && Pde(View(), p, D(va)) != 0
      ensures OthersSame(old(View()), View(), p, D(va), T(va))
      ensures DataKept(old(View()), View(), conts.pages.lo, conts.pages.hi)
    {
      hide Word, SetWord, Isolated, KernelMapped, Inv, Entry, OthersSame, DataKept;
      ghost var s := View();
      ghost var at := conts.pages.at[..];
      OthersRefl(s, p, D(va), T(va), conts.pages.lo, conts.pages.hi);
      RoomNotNegative(p);
      var g := Grab(p);
      if g == 0 {
        return MAGIC;
      }
      r := MapPage(p, va, g, perm);
      if r != MAGIC {
        assert Word32(g, perm) / PAGESIZE == g;
        PdeNotZero(View(), p, D(va), T(va));
      }
    }

    lemma RoomNotNegative(p: nat)
      requires Valid() && p < conts.cs.Length && conts.cs[p].used
      ensures Room(conts.cs[p]) >= 0
    {
      assert conts.cs[..][p].used;
    }

    /** unmap_page */
    method UnmapPage(p: nat, va: nat) returns (e: word)
      requires Valid() && May(p, va)
      modifies mem, `owner
      ensures Valid() && owner == old(owner)
      ensures e == old(Entry(View(), p, D(va), T(va))) && Entry(View(), p, D(va), T(va)) == 0
      ensures OthersSame(old(View()), View(), p, D(va), T(va))
      ensures DataKept(old(View()), View(), conts.pages.lo, conts.pages.hi)
    {
      hide Word, SetWord, Isolated, KernelMapped, Inv, OthersSame, DataKept;
      OthersRefl(View(), p, D(va), T(va), conts.pages.lo, conts.pages.hi);
      e := GetEntry(p, va);
      if e != 0 {
        SetEntry(p, va, 0, owner);
      }
    }

    /** free_ptbl: the translations through the table go, and only those.  Isolation is kept in any
        case, the page balance exactly when the container has usage to give back. */
    method FreePtbl(p: nat, va: nat)
      requires Valid() && May(p, va)
      modifies pd, `owner, conts.pages.at, conts.cs
      ensures Good() && conts.Sound()
      ensures Valid() <==> old(Pde(View(), p, D(va)) != 0 ==> conts.cs[p].usage > 0)
      ensures forall p', d', t' :: 0 <= p' < pd.Length && 0 <= d' < ENTRIES && 0 <= t' < ENTRIES ==>
                Entry(View(), p', d', t') == if (p', d') == (p, D(va)) then 0 else old(Entry(View(), p', d', t'))
      ensures old(Pde(View(), p, D(va))) != 0 ==>
                View() == DropTable(old(View()), p, D(va))
                && conts.pages.at[..] == Freed(old(conts.pages.at[..]), old(Pde(View(), p, D(va))) / PAGESIZE)
      ensures old(Pde(View(), p, D(va))) == 0 ==> View() == old(View()) && conts.pages.at[..] == old(conts.pages.at[..])
    {
      hide Word, SetWord, Isolated, KernelMapped, Inv;
      ghost var s, at := View(), conts.pages.at[..];
      Indices(va);
      assert |s.pd[p]| == ENTRIES;
      var w := pd[p][D(va)];
      var g := w / PAGESIZE;
      var row: seq<word> := pd[p][D(va) := 0];
      pd[p] := row;
      if w == 0 {
        assert row == s.pd[p];
        assert View() == s;
        assert !at[0].alloc;
      } else {
        DropTableKeepsInv(s, at, conts.pages.lo, conts.pages.hi, conts.pages.nps, p, D(va));
        owner := owner - {g};
        assert View() == DropTable(s, p, D(va));
      }
      conts.FreePage(p, g);
      assert conts.pages.at[..] == if at[g].alloc then Freed(at, g) else at;
    }
  }

  /** The entry is new: a page that was free, with the wanted permission. */
  ghost predicate Newly(s: Space, at: Table, s': Space, p: nat, d: nat, t: nat, perm: nat) {
    var e := Entry(s', p, d, t);
    var g := e / PAGESIZE;
    e % PAGESIZE == perm && g < |at| && IsFree(at[g]) && g !in s.owner && Owns(s', g, Dat(p, d, t))
  }

  lemma PdeNotZero(s: Space, p: nat, d: nat, t: nat)
    requires Entry(s, p, d, t) != 0
    ensures Pde(s, p, d) != 0
  {
  }

  /** free_ptbl undoes alloc_ptbl. */
  lemma DropUndoesAdd(s: Space, p: nat, d: nat, g: nat, page: seq<byte>)
    requires p < |s.pd| && d < |s.pd[p]| && g < |s.mem| <= 0x10_0000 && s.pd[p][d] == 0 && g !in s.owner
    ensures var s' := DropTable(AddTable(s, p, d, g, page), p, d); s'.pd == s.pd && s'.owner == s.owner
  {
    var s1 := AddTable(s, p, d, g, page);
    assert s1.pd[p][d := 0] == s.pd[p];
    assert s1.pd[p := s.pd[p]] == s.pd;
    assert s1.owner - {g} == s.owner;
  }

  lemma GrabEffect(s: State, e: Event)
    requires e.Alloc? && Enabled(s, e)
    requires e.page == 0 <==> s.cs[e.id].usage + 1 > s.cs[e.id].quota
    ensures e.page == 0 ==> Next(s, e) == s
    ensures e.page != 0 ==> e.page < |s.at| && IsFree(s.at[e.page])
                            && Next(s, e) == State(Taken(s.at, e.page), Charge(s.cs, e.id, 1))
  {
  }

  const USERLO_PI := 0x4_0000
  const USERHI_PI := 0xF_0000
  const MAX_PAGES := 0x10_0000

  /** pdir_init_kern with all it calls: from any memory map, to a state in which every invariant
      of this model holds, the root owns every usable page and no user page is mapped. */
  method Boot(rows: seq<Range>, memory: seq<seq<byte>>, ids: nat, idBase: nat) returns (vm: Vmm)
    requires 0 < ids < LIMIT && 0 < idBase && idBase + ENTRIES <= USERLO_PI
    requires |memory| == MAX_PAGES && forall g :: 0 <= g < |memory| ==> |memory[g]| == PAGESIZE
    ensures vm.Valid() && vm.pd.Length == ids && fresh(vm) && fresh(vm.pd) && fresh(vm.mem)
    ensures fresh(vm.conts) && fresh(vm.conts.cs) && fresh(vm.conts.pages) && fresh(vm.conts.pages.at)
    ensures forall p, d :: Private(vm.View(), p, d) ==> Pde(vm.View(), p, d) == 0
    ensures vm.conts.cs[0] == Node(Usable(vm.conts.pages.at[..]), 0, 0, 0, true)
    ensures forall c :: 0 < c < ids ==> !vm.conts.cs[c].used
    ensures vm.conts.pages.at.Length == MAX_PAGES
    ensures forall g :: 0 <= g < MAX_PAGES ==>
              (IsFree(vm.conts.pages.at[g])
               <==> g < vm.conts.pages.nps && USERLO_PI <= g < USERHI_PI && UsablePage(rows, g))
  {
    hide Inv, SpaceInv, TableOk;
    var table, nps := PmemInit(rows, MAX_PAGES, USERLO_PI, USERHI_PI);
    var pages := new Pages(USERLO_PI, USERHI_PI, nps, table);
    assert pages.at.Length == |pages.at[..]| == MAX_PAGES;
    assert forall i :: 0 <= i < MAX_PAGES ==> pages.at[i] == table[i];
    var conts := new Containers(pages, ids);
    vm := new Vmm(conts, idBase, memory);
  }
}
