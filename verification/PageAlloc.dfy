/** kern/pmm/MATInit and MATOp: the physical allocation table, its set-up from the memory map,
    and the cyclic page allocator.  `lo` and `hi` are VM_USERLO_PI and VM_USERHI_PI. */
module PageAlloc {

  const LIMIT := 0x1_0000_0000
  const PAGESIZE := 4096

  /** struct ATStruct: the permission and the allocation flag. */
  datatype Page = Page(perm: nat, alloc: bool) {
    /** at_is_norm */
    predicate Norm() {
      perm > 1
    }
  }

  type Table = seq<Page>

  predicate IsFree(p: Page) {
    p.Norm() && !p.alloc
  }

  ghost predicate NoneFree(at: Table) {
    forall i :: 0 <= i < |at| ==> !IsFree(at[i])
  }

  /** Usable pages lie in the user range and in memory; only usable pages are ever allocated. */
  ghost predicate TableOk(at: Table, lo: nat, hi: nat, nps: nat) {
    && 0 < lo < hi <= |at| && nps <= |at|
    && (forall i :: 0 <= i < |at| && at[i].Norm() ==> lo <= i < hi && i < nps)
    && (forall i :: 0 <= i < |at| && at[i].alloc ==> at[i].Norm())
  }

  function Taken(at: Table, i: nat): Table
    requires i < |at|
  {
    at[i := at[i].(alloc := true)]
  }

  function Freed(at: Table, i: nat): Table
    requires i < |at|
  {
    at[i := at[i].(alloc := false)]
  }

  // ---- pmem_init ----

  /** One row of the memory map, in 32-bit arithmetic. */
  datatype Range = Range(start: nat, len: nat, usable: bool) {
    function End(): (e: nat) {
      (start + len) % LIMIT
    }

    /** The row contains the whole page, as the C test computes it. */
    predicate Covers(page: nat) {
      start <= page * PAGESIZE && (page + 1) * PAGESIZE <= End()
    }

    predicate Holds(b: nat) {
      start <= b < start + len
    }
  }

  /** Every byte of the page lies in the row, which ends below the top of the address space. */
  ghost predicate Inside(r: Range, page: nat) {
    r.start + r.len < LIMIT && forall b :: page * PAGESIZE <= b < (page + 1) * PAGESIZE ==> r.Holds(b)
  }

  /** The C test means just that: a row whose end wraps passes it for no page. */
  lemma CoversBytes(r: Range, page: nat)
    requires r.start < LIMIT && r.len < LIMIT
    ensures r.Covers(page) <==> Inside(r, page)
  {
    var lo, hi := page * PAGESIZE, (page + 1) * PAGESIZE;
    if Inside(r, page) {
      assert r.Holds(lo) && r.Holds(hi - 1);
    }
  }

  /** The first row that covers the page decides. */
  predicate UsablePage(rows: seq<Range>, page: nat) {
    if rows == [] then false
    else if rows[0].Covers(page) then rows[0].usable
    else UsablePage(rows[1..], page)
  }

  ghost predicate FirstInside(rows: seq<Range>, page: nat, i: nat) {
    i < |rows| && Inside(rows[i], page) && forall j :: 0 <= j < i ==> !Inside(rows[j], page)
  }

  /** A page is usable if and only if the first row that holds all of it is. */
  lemma {:induction false} UsableExact(rows: seq<Range>, page: nat)
    requires forall i :: 0 <= i < |rows| ==> rows[i].start < LIMIT && rows[i].len < LIMIT
    ensures UsablePage(rows, page) <==> exists i: nat :: FirstInside(rows, page, i) && rows[i].usable
  {
    hide Inside;
    if rows != [] {
      var rest := rows[1..];
      CoversBytes(rows[0], page);
      UsableExact(rest, page);
      assert Inside(rows[0], page) ==> FirstInside(rows, page, 0);
      forall i: nat | FirstInside(rest, page, i) && !Inside(rows[0], page)
        ensures FirstInside(rows, page, i + 1) && rows[i + 1] == rest[i]
      {
        assert forall j :: 0 < j <= i ==> rows[j] == rest[j - 1];
      }
      forall i: nat | FirstInside(rows, page, i) && 0 < i
        ensures FirstInside(rest, page, i - 1) && rows[i] == rest[i - 1]
      {
        assert forall j :: 0 <= j < i ==> rest[j] == rows[j + 1];
      }
    }
  }

  method PageCount(rows: seq<Range>) returns (nps: nat)
    ensures forall i :: 0 <= i < |rows| ==> rows[i].End() / PAGESIZE <= nps
    ensures nps == 0 || exists i :: 0 <= i < |rows| && rows[i].End() / PAGESIZE == nps
  {
    var top, i := 0, 0;
    while i < |rows|
      invariant 0 <= i <= |rows|
      invariant forall j :: 0 <= j < i ==> rows[j].End() <= top
      invariant top == 0 || exists j :: 0 <= j < i && rows[j].End() == top
    {
      if top < rows[i].End() {
        top := rows[i].End();
      }
      i := i + 1;
    }
    nps := top / PAGESIZE;
  }

  /** The inner loop: flag and isnorm after the scan. */
  method Classify(rows: seq<Range>, page: nat) returns (norm: bool)
    ensures norm <==> UsablePage(rows, page)
  {
    var i, flag, usable := 0, false, false;
    while i < |rows| && !flag
      invariant 0 <= i <= |rows|
      invariant !flag ==> UsablePage(rows, page) == UsablePage(rows[i..], page)
      invariant flag ==> usable == UsablePage(rows, page)
    {
      usable := rows[i].usable;
      if rows[i].Covers(page) {
        flag := true;
      }
      i := i + 1;
    }
    norm := flag && usable;
  }

  /** pmem_init: exactly the pages of the user range that some usable row covers first. */
  method PmemInit(rows: seq<Range>, size: nat, lo: nat, hi: nat) returns (at: Table, nps: nat)
    requires 0 < lo < hi <= size && LIMIT / PAGESIZE <= size
    ensures |at| == size && nps <= size && TableOk(at, lo, hi, nps)
    ensures forall i :: 0 <= i < size ==> !at[i].alloc
    ensures forall i :: 0 <= i < nps && !(lo <= i < hi) ==> at[i].perm == 1
    ensures forall i :: lo <= i < hi && i < nps ==> at[i].perm == if UsablePage(rows, i) then 2 else 0
    ensures forall i :: 0 <= i < size ==> (at[i].Norm() <==> i < nps && lo <= i < hi && UsablePage(rows, i))
  {
    nps := PageCount(rows);
    assert nps <= size;
    at := seq(size, _ => Page(0, false));
    var pg := 0;
    while pg < nps
      invariant 0 <= pg <= nps && |at| == size
      invariant forall i :: 0 <= i < size ==> !at[i].alloc
      invariant forall i :: 0 <= i < pg ==> (at[i].Norm() <==> lo <= i < hi && UsablePage(rows, i))
      invariant forall i :: 0 <= i < pg && !(lo <= i < hi) ==> at[i].perm == 1
      invariant forall i :: lo <= i < hi && i < pg ==> at[i].perm == if UsablePage(rows, i) then 2 else 0
      invariant forall i :: pg <= i < size ==> !at[i].Norm()
    {
      if pg < lo || hi <= pg {
        at := at[pg := Page(1, false)];
      } else {
        var norm := Classify(rows, pg);
        at := at[pg := Page(if norm then 2 else 0, false)];
      }
      pg := pg + 1;
    }
  }

  // ---- palloc ----

  /** The page visited at step `k` of the scan that starts at `last`. */
  function Visit(last: nat, k: nat, lo: nat, hi: nat): (i: nat)
    requires lo <= last < hi && k <= hi - lo
    ensures k < hi - lo ==> lo <= i < hi
  {
    if last + k < hi then last + k else last + k - (hi - lo)
  }

  lemma VisitAll(last: nat, lo: nat, hi: nat, i: nat)
    requires lo <= last < hi && lo <= i < hi
    ensures exists k :: 0 <= k < hi - lo && Visit(last, k, lo, hi) == i
  {
    var k := if last <= i then i - last else i - last + (hi - lo);
    assert Visit(last, k, lo, hi) == i;
  }

  /** `r` is the first free page from `last` upwards, or else from `lo`. */
  ghost predicate FirstFree(at: Table, last: nat, lo: nat, hi: nat, r: nat)
    requires lo <= last < hi <= |at|
  {
    && lo <= r < hi && IsFree(at[r])
    && (last <= r ==> forall i :: last <= i < r ==> !IsFree(at[i]))
    && (r < last ==> forall i :: last <= i < hi || lo <= i < r ==> !IsFree(at[i]))
  }

  lemma ScanFindsFirst(at: Table, last: nat, lo: nat, hi: nat, k: nat)
    requires lo <= last < hi <= |at| && k < hi - lo && IsFree(at[Visit(last, k, lo, hi)])
    requires forall j :: 0 <= j < k ==> !IsFree(at[Visit(last, j, lo, hi)])
    ensures FirstFree(at, last, lo, hi, Visit(last, k, lo, hi))
  {
    forall i | lo <= i < hi
      ensures IsFree(at[i]) ==> k <= if last <= i then i - last else i - last + (hi - lo)
    {
      var j := if last <= i then i - last else i - last + (hi - lo);
      assert Visit(last, j, lo, hi) == i;
    }
  }

  class Pages {
    const lo: nat
    const hi: nat
    const nps: nat
    const at: array<Page>
    var last: nat

    ghost predicate Valid()
      reads this, at
    {
      TableOk(at[..], lo, hi, nps) && lo <= last < hi
    }

    constructor (lo: nat, hi: nat, nps: nat, table: Table)
      requires TableOk(table, lo, hi, nps)
      ensures Valid() && this.lo == lo && this.hi == hi && this.nps == nps && at[..] == table && fresh(at)
      ensures last == lo
    {
      this.lo := lo;
      this.hi := hi;
      this.nps := nps;
      at := new Page[|table|](i requires 0 <= i < |table| => table[i]);
      last := lo;
    }

    /** The scan of palloc: the first free page from `last` on, wrapping at the end of the user
        range, or `nps` when it has come full circle. */
    method Scan() returns (found: nat)
      requires Valid()
      ensures found == nps || (found < at.Length && FirstFree(at[..], last, lo, hi, found))
      ensures found == nps <==> forall i :: 0 <= i < at.Length ==> !IsFree(at[i])
    {
      var index, first := last, true;
      found := nps;
      ghost var k := 0;
      while (index != last || first) && found == nps
        invariant 0 <= k <= hi - lo && (first <==> k == 0)
        invariant k < hi - lo ==> index == Visit(last, k, lo, hi)
        invariant k == hi - lo ==> index == last
        invariant found == nps ==> forall j :: 0 <= j < k ==> !IsFree(at[Visit(last, j, lo, hi)])
        invariant found != nps ==> k > 0 && found == Visit(last, k - 1, lo, hi) && IsFree(at[found])
                                   && forall j :: 0 <= j < k - 1 ==> !IsFree(at[Visit(last, j, lo, hi)])
        decreases hi - lo - k
      {
        first := false;
        if at[index].Norm() && !at[index].alloc {
          found := index;
        }
        index := index + 1;
        if index >= hi {
          index := lo;
        }
        k := k + 1;
      }
      if found == nps {
        forall i | 0 <= i < at.Length
          ensures !IsFree(at[i])
        {
          if at[i].Norm() {
            VisitAll(last, lo, hi, i);
          }
        }
      } else {
        ScanFindsFirst(at[..], last, lo, hi, k - 1);
      }
    }

    /** palloc: 0 exactly when no page is free. */
    method Palloc() returns (r: nat)
      requires Valid()
      modifies this, at
      ensures Valid()
      ensures r == 0 <==> NoneFree(old(at[..]))
      ensures r == 0 ==> at[..] == old(at[..]) && last == lo
      ensures r != 0 ==> r < at.Length && FirstFree(old(at[..]), old(last), lo, hi, r) && last == r
                         && at[..] == old(at[..])[r := old(at[r]).(alloc := true)]
    {
      ghost var t0 := at[..];
      var found := Scan();
      if found == nps {
        r := 0;
        last := lo;
      } else {
        r := found;
        at[r] := at[r].(alloc := true);
        last := r;
        assert at[..] == Taken(t0, r);
      }
    }

    /** pfree. */
    method Pfree(i: nat)
      requires Valid() && i < at.Length
      modifies at
      ensures Valid() && at[..] == old(at[..])[i := old(at[i]).(alloc := false)]
    {
      ghost var t0 := at[..];
      at[i] := at[i].(alloc := false);
      assert at[..] == Freed(t0, i);
    }
  }
}
