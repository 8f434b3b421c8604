/** kern/pmm/MContainer: the quota tree over the page allocator. */
module Container {
  import opened PageAlloc

  const MAX_CHILDREN := 3
  const HALF := 0x8000_0000

  datatype Node = Node(quota: int, usage: int, parent: nat, nchildren: nat, used: bool)

  type Tree = seq<Node>

  // ---- sums and counts ----

  /** What is left of the quotas of the first `n` containers. */
  ghost function SlackTo(cs: Tree, n: nat): int
    requires n <= |cs|
  {
    if n == 0 then 0
    else SlackTo(cs, n - 1) + (if cs[n - 1].used then cs[n - 1].quota - cs[n - 1].usage else 0)
  }

  ghost function Slack(cs: Tree): int {
    SlackTo(cs, |cs|)
  }

  lemma {:induction false} SlackUpdate(cs: Tree, i: nat, c: Node, n: nat)
    requires i < |cs| && n <= |cs|
    ensures SlackTo(cs[i := c], n) == SlackTo(cs, n)
            + (if i < n then Share(c) - Share(cs[i]) else 0)
  {
    if n > 0 {
      SlackUpdate(cs, i, c, n - 1);
    }
  }

  ghost function Share(c: Node): int {
    if c.used then c.quota - c.usage else 0
  }

  lemma {:induction false} SlackAtLeast(cs: Tree, i: nat, n: nat)
    requires i < n <= |cs|
    requires forall j :: 0 <= j < |cs| ==> Share(cs[j]) >= 0
    ensures SlackTo(cs, n) >= Share(cs[i])
    decreases n
  {
    assert Share(cs[n - 1]) >= 0;
    if i < n - 1 {
      SlackAtLeast(cs, i, n - 1);
    } else {
      SlackNonNeg(cs, n - 1);
    }
  }

  lemma {:induction false} SlackNonNeg(cs: Tree, n: nat)
    requires n <= |cs|
    requires forall j :: 0 <= j < |cs| ==> Share(cs[j]) >= 0
    ensures SlackTo(cs, n) >= 0
  {
    if n > 0 {
      assert Share(cs[n - 1]) >= 0;
      SlackNonNeg(cs, n - 1);
    }
  }

  /** The free usable pages among the first `n`. */
  ghost function FreeTo(at: Table, n: nat): nat
    requires n <= |at|
  {
    if n == 0 then 0 else FreeTo(at, n - 1) + (if IsFree(at[n - 1]) then 1 else 0)
  }

  ghost function UsableTo(at: Table, n: nat): nat
    requires n <= |at|
  {
    if n == 0 then 0 else UsableTo(at, n - 1) + (if at[n - 1].Norm() then 1 else 0)
  }

  ghost function AllocatedTo(at: Table, n: nat): nat
    requires n <= |at|
  {
    if n == 0 then 0 else AllocatedTo(at, n - 1) + (if at[n - 1].alloc then 1 else 0)
  }

  ghost function Usable(at: Table): nat {
    UsableTo(at, |at|)
  }

  ghost function Allocated(at: Table): nat {
    AllocatedTo(at, |at|)
  }

  lemma {:induction false} CountUpdate(at: Table, i: nat, p: Page, n: nat)
    requires i < |at| && n <= |at| && p.perm == at[i].perm
    ensures UsableTo(at[i := p], n) == UsableTo(at, n)
    ensures AllocatedTo(at[i := p], n) as int == AllocatedTo(at, n)
            + (if i < n then (if p.alloc then 1 else 0) - (if at[i].alloc then 1 else 0) else 0)
  {
    if n > 0 {
      CountUpdate(at, i, p, n - 1);
    }
  }

  lemma {:induction false} FreeIsUsableNotAllocated(at: Table, n: nat)
    requires n <= |at| && forall i :: 0 <= i < |at| && at[i].alloc ==> at[i].Norm()
    ensures FreeTo(at, n) + AllocatedTo(at, n) == UsableTo(at, n)
  {
    if n > 0 {
      FreeIsUsableNotAllocated(at, n - 1);
    }
  }

  lemma {:induction false} SomeFree(at: Table, n: nat)
    requires n <= |at| && FreeTo(at, n) > 0
    ensures !NoneFree(at)
  {
    if IsFree(at[n - 1]) {
    } else {
      SomeFree(at, n - 1);
    }
  }

  // ---- the tree ----

  /** container_can_consume: `usage + n <= quota` in unsigned 32-bit arithmetic. */
  predicate CanConsume(c: Node, n: nat) {
    (c.usage + n) % LIMIT <= c.quota
  }

  /** The unsigned test answers the intended question exactly when the sum does not wrap; when it
      wraps the test always passes. */
  lemma CanConsumeExact(c: Node, n: nat)
    requires 0 <= c.usage <= c.quota < HALF && n < LIMIT
    ensures CanConsume(c, n) <==> c.usage + n <= c.quota || LIMIT <= c.usage + n
    ensures (CanConsume(c, n) <==> c.usage + n <= c.quota) <==> c.usage + n < LIMIT
  {
    if LIMIT <= c.usage + n {
      assert (c.usage + n) % LIMIT == c.usage + n - LIMIT;
    } else {
      assert (c.usage + n) % LIMIT == c.usage + n;
    }
  }

  /** An unsigned argument stored into an int field. */
  function Signed(n: nat): int {
    if n < HALF then n else n - LIMIT
  }

  function Child(id: nat, nc: nat): nat {
    id * MAX_CHILDREN + 1 + nc
  }

  /** The slot arithmetic recovers the parent: container `c` lies among the children that its
      parent has handed out. */
  predicate Expected(cs: Tree, c: nat)
    requires c < |cs|
  {
    var p := cs[c].parent;
    p < |cs| && cs[p].used && p * MAX_CHILDREN < c <= p * MAX_CHILDREN + cs[p].nchildren
  }

  predicate HasChild(cs: Tree, p: nat, k: nat) {
    Child(p, k) < |cs| && cs[Child(p, k)].used && cs[Child(p, k)].parent == p
  }

  /** The used containers are exactly the root and the children handed out. */
  ghost predicate TreeOk(cs: Tree) {
    && 0 < |cs| && cs[0].used
    && (forall c :: 0 < c < |cs| && cs[c].used ==> Expected(cs, c))
    && (forall c :: 0 <= c < |cs| && cs[c].used ==> cs[c].nchildren <= MAX_CHILDREN)
    && (forall p, k :: 0 <= p < |cs| && cs[p].used && 0 <= k < cs[p].nchildren ==> HasChild(cs, p, k))
  }

  ghost predicate QuotasOk(cs: Tree) {
    forall c :: 0 <= c < |cs| && cs[c].used ==> 0 <= cs[c].usage <= cs[c].quota
  }

  /** The allocator and the quota tree agree: the pages in use are the root's quota less what
      the containers may still claim. */
  ghost predicate Balanced(at: Table, cs: Tree) {
    Allocated(at) == Usable(at) - Slack(cs)
  }

  ghost predicate Inv(at: Table, cs: Tree, lo: nat, hi: nat, nps: nat) {
    TableOk(at, lo, hi, nps) && TreeOk(cs) && QuotasOk(cs) && Balanced(at, cs)
  }

  // ---- the operations as functions of the tree ----

  function Split(cs: Tree, id: nat, quota: nat, child: nat): Tree
    requires id < |cs| && child < |cs|
  {
    var cs1 := cs[child := Node(Signed(quota), 0, id, 0, true)];
    cs1[id := cs1[id].(usage := cs1[id].usage + Signed(quota), nchildren := cs1[id].nchildren + 1)]
  }

  function Charge(cs: Tree, id: nat, pages: int): Tree
    requires id < |cs|
  {
    cs[id := cs[id].(usage := cs[id].usage + pages)]
  }

  /** The slot of the next child is free: slots of different parents do not meet. */
  lemma ChildIsNew(cs: Tree, id: nat)
    requires TreeOk(cs) && id < |cs| && cs[id].used && cs[id].nchildren < MAX_CHILDREN
    ensures var child := Child(id, cs[id].nchildren);
            id < child && (child < |cs| ==> !cs[child].used)
  {
  }

  lemma SplitTree(cs: Tree, id: nat, quota: nat)
    requires TreeOk(cs) && id < |cs| && cs[id].used && cs[id].nchildren < MAX_CHILDREN
    requires Child(id, cs[id].nchildren) < |cs|
    ensures TreeOk(Split(cs, id, quota, Child(id, cs[id].nchildren)))
  {
    hide Child;
    var child := Child(id, cs[id].nchildren);
    ChildIsNew(cs, id);
    assert id * MAX_CHILDREN < child <= id * MAX_CHILDREN + cs[id].nchildren + 1 by { ChildSlot(id, cs[id].nchildren); }
    var after := Split(cs, id, quota, child);
    forall c | 0 < c < |after| && after[c].used
      ensures Expected(after, c)
    {
      if c != child {
        assert cs[c].used && Expected(cs, c);
      }
    }
    forall p, k | 0 <= p < |after| && after[p].used && 0 <= k < after[p].nchildren
      ensures HasChild(after, p, k)
    {
      if p == id && k == cs[id].nchildren {
      } else {
        assert HasChild(cs, p, k);
      }
    }
  }

  lemma ChildSlot(id: nat, nc: nat)
    ensures id * MAX_CHILDREN < Child(id, nc) <= id * MAX_CHILDREN + nc + 1
  {
  }

  lemma SplitSlack(cs: Tree, id: nat, quota: nat, child: nat)
    requires id < |cs| && child < |cs| && child != id && cs[id].used && !cs[child].used
    ensures Slack(Split(cs, id, quota, child)) == Slack(cs)
  {
    var c := Node(Signed(quota), 0, id, 0, true);
    var cs1 := cs[child := c];
    SlackUpdate(cs, child, c, |cs|);
    SlackUpdate(cs1, id, cs1[id].(usage := cs1[id].usage + Signed(quota), nchildren := cs1[id].nchildren + 1), |cs|);
  }

  /** container_split after the caller's quota test: the split keeps the invariant exactly when
      the test did not wrap. */
  lemma SplitExact(at: Table, cs: Tree, lo: nat, hi: nat, nps: nat, id: nat, quota: nat)
    requires Inv(at, cs, lo, hi, nps)
    requires id < |cs| && cs[id].used && cs[id].nchildren < MAX_CHILDREN && cs[id].quota < HALF && quota < LIMIT
    requires CanConsume(cs[id], quota)
    requires Child(id, cs[id].nchildren) < |cs|
    ensures Inv(at, Split(cs, id, quota, Child(id, cs[id].nchildren)), lo, hi, nps)
            <==> cs[id].usage + quota < LIMIT
  {
    hide Child, TreeOk;
    var child := Child(id, cs[id].nchildren);
    var after := Split(cs, id, quota, child);
    ChildIsNew(cs, id);
    SplitTree(cs, id, quota);
    SplitSlack(cs, id, quota, child);
    CanConsumeExact(cs[id], quota);
    if cs[id].usage + quota < LIMIT {
      assert QuotasOk(after);
    } else {
      assert after[child].used && after[child].quota < 0;
      assert !QuotasOk(after);
    }
  }

  /** Past MAX_CHILDREN the slot is the first child's slot of the next container: the split takes over
      a container in use if and only if that one has a child. */
  lemma SplitPastLimitCollides(cs: Tree, id: nat)
    requires TreeOk(cs) && id < |cs| && cs[id].used && cs[id].nchildren == MAX_CHILDREN
    ensures var child := Child(id, cs[id].nchildren);
            (child < |cs| && cs[child].used) <==> (id + 1 < |cs| && cs[id + 1].used && cs[id + 1].nchildren > 0)
  {
    var child := Child(id, cs[id].nchildren);
    if child < |cs| && cs[child].used {
      assert Expected(cs, child);
    }
    if id + 1 < |cs| && cs[id + 1].used && cs[id + 1].nchildren > 0 {
      assert HasChild(cs, id + 1, 0);
    }
  }

  // ---- allocation and release ----

  lemma ChargeSlack(cs: Tree, id: nat, pages: int)
    requires id < |cs| && cs[id].used
    ensures Slack(Charge(cs, id, pages)) == Slack(cs) - pages
  {
    SlackUpdate(cs, id, cs[id].(usage := cs[id].usage + pages), |cs|);
  }

  lemma ChargeTree(cs: Tree, id: nat, pages: int)
    requires TreeOk(cs) && id < |cs|
    ensures TreeOk(Charge(cs, id, pages))
  {
    var after := Charge(cs, id, pages);
    forall c | 0 < c < |after| && after[c].used
      ensures Expected(after, c)
    {
      assert Expected(cs, c);
    }
    forall p, k | 0 <= p < |after| && after[p].used && 0 <= k < after[p].nchildren
      ensures HasChild(after, p, k)
    {
      assert HasChild(cs, p, k);
    }
  }

  /** Whenever container_alloc passes its quota test a page is free, so palloc does not fail. */
  lemma QuotaTestSuffices(at: Table, cs: Tree, lo: nat, hi: nat, nps: nat, id: nat)
    requires Inv(at, cs, lo, hi, nps) && id < |cs| && cs[id].used
    requires cs[id].usage + 1 <= cs[id].quota
    ensures !NoneFree(at)
  {
    forall j | 0 <= j < |cs|
      ensures Share(cs[j]) >= 0
    {
    }
    SlackAtLeast(cs, id, |cs|);
    FreeIsUsableNotAllocated(at, |at|);
    SomeFree(at, |at|);
  }

  lemma AllocKeepsInv(at: Table, cs: Tree, lo: nat, hi: nat, nps: nat, id: nat, page: nat)
    requires Inv(at, cs, lo, hi, nps) && id < |cs| && cs[id].used
    requires cs[id].usage + 1 <= cs[id].quota
    requires page < |at| && IsFree(at[page])
    ensures Inv(Taken(at, page), Charge(cs, id, 1), lo, hi, nps)
  {
    hide TreeOk;
    ChargeSlack(cs, id, 1);
    ChargeTree(cs, id, 1);
    CountUpdate(at, page, at[page].(alloc := true), |at|);
  }

  /** container_free on values: the page goes back and the usage drops, unless it is already zero. */
  function Release(at: Table, cs: Tree, id: nat, page: nat): (r: (Table, Tree))
    requires id < |cs| && page < |at|
  {
    if !at[page].alloc then (at, cs)
    else (Freed(at, page), if cs[id].usage > 0 then Charge(cs, id, -1) else cs)
  }

  /** container_free keeps the balance exactly when it changes nothing or charges someone. */
  lemma FreeExact(at: Table, cs: Tree, lo: nat, hi: nat, nps: nat, id: nat, page: nat)
    requires Inv(at, cs, lo, hi, nps) && id < |cs| && cs[id].used && page < |at|
    ensures var (at', cs') := Release(at, cs, id, page);
            Inv(at', cs', lo, hi, nps) <==> (at[page].alloc ==> cs[id].usage > 0)
  {
    hide TreeOk;
    if at[page].alloc {
      CountUpdate(at, page, at[page].(alloc := false), |at|);
      if cs[id].usage > 0 {
        ChargeSlack(cs, id, -1);
        ChargeTree(cs, id, -1);
      }
    }
  }

  // ---- whole runs ----

  datatype Event =
    | SplitOff(id: nat, quota: nat)
    | Alloc(id: nat, page: nat)
    | Free(id: nat, page: nat)

  datatype State = State(at: Table, cs: Tree)

  /** What sys_spawn checks before it splits, what palloc may answer, and who may free. */
  ghost predicate Enabled(s: State, e: Event) {
    e.id < |s.cs| && s.cs[e.id].used &&
    match e
    case SplitOff(id, quota) =>
      quota < LIMIT && s.cs[id].quota < HALF && CanConsume(s.cs[id], quota) && s.cs[id].usage + quota < LIMIT
      && s.cs[id].nchildren < MAX_CHILDREN
    case Alloc(id, page) =>
      if s.cs[id].usage + 1 <= s.cs[id].quota then
        (if NoneFree(s.at) then page == 0 else page < |s.at| && IsFree(s.at[page]))
      else page == 0
    case Free(id, page) =>
      page < |s.at| && (s.at[page].alloc ==> s.cs[id].usage > 0)
  }

  ghost function Next(s: State, e: Event): State
    requires Enabled(s, e)
  {
    match e
    case SplitOff(id, quota) =>
      var child := Child(id, s.cs[id].nchildren);
      if child < |s.cs| then s.(cs := Split(s.cs, id, quota, child)) else s
    case Alloc(id, page) =>
      if s.cs[id].usage + 1 <= s.cs[id].quota then
        State(if page < |s.at| && IsFree(s.at[page]) then Taken(s.at, page) else s.at, Charge(s.cs, id, 1))
      else s
    case Free(id, page) =>
      var (at, cs) := Release(s.at, s.cs, id, page);
      State(at, cs)
  }

  ghost predicate Runs(s: State, es: seq<Event>)
    decreases |es|
  {
    if es == [] then true else Enabled(s, es[0]) && Runs(Next(s, es[0]), es[1..])
  }

  ghost function Exec(s: State, es: seq<Event>): State
    requires Runs(s, es)
    decreases |es|
  {
    if es == [] then s else Exec(Next(s, es[0]), es[1..])
  }

  lemma StepKeepsInv(s: State, lo: nat, hi: nat, nps: nat, e: Event)
    requires Inv(s.at, s.cs, lo, hi, nps) && Enabled(s, e)
    ensures Inv(Next(s, e).at, Next(s, e).cs, lo, hi, nps)
    ensures Usable(Next(s, e).at) == Usable(s.at)
    ensures e.Alloc? ==> (e.page != 0 <==> s.cs[e.id].usage + 1 <= s.cs[e.id].quota)
  {
    hide Inv, Child;
    match e
    case SplitOff(id, quota) =>
      if Child(id, s.cs[id].nchildren) < |s.cs| {
        SplitExact(s.at, s.cs, lo, hi, nps, id, quota);
      }
    case Alloc(id, page) =>
      if s.cs[id].usage + 1 <= s.cs[id].quota {
        QuotaTestSuffices(s.at, s.cs, lo, hi, nps, id);
        AllocKeepsInv(s.at, s.cs, lo, hi, nps, id, page);
        CountUpdate(s.at, page, s.at[page].(alloc := true), |s.at|);
        PageNotZero(s.at, s.cs, lo, hi, nps, page);
      }
    case Free(id, page) =>
      FreeExact(s.at, s.cs, lo, hi, nps, id, page);
      CountUpdate(s.at, page, s.at[page].(alloc := false), |s.at|);
  }

  lemma PageNotZero(at: Table, cs: Tree, lo: nat, hi: nat, nps: nat, page: nat)
    requires Inv(at, cs, lo, hi, nps) && page < |at| && IsFree(at[page])
    ensures page != 0
  {
    assert at[page].Norm();
  }

  /** Over every run of splits, allocations and releases, the pages in use are the usable pages
      less what the tree may still claim, and an allocation fails exactly when its own quota
      is used up: the allocator itself never runs out first. */
  lemma {:induction false} QuotaSoundness(s: State, lo: nat, hi: nat, nps: nat, es: seq<Event>, e: Event)
    requires Inv(s.at, s.cs, lo, hi, nps) && Runs(s, es)
    ensures var t := Exec(s, es);
            Inv(t.at, t.cs, lo, hi, nps) && Allocated(t.at) == Usable(s.at) - Slack(t.cs)
            && (e.Alloc? && Enabled(t, e) ==> (e.page == 0 <==> t.cs[e.id].quota <= t.cs[e.id].usage))
    decreases |es|
  {
    hide Enabled, Next;
    if es == [] {
      if e.Alloc? && Enabled(s, e) {
        StepKeepsInv(s, lo, hi, nps, e);
      }
    } else {
      StepKeepsInv(s, lo, hi, nps, es[0]);
      QuotaSoundness(Next(s, es[0]), lo, hi, nps, es[1..], e);
    }
  }

  // ---- the kernel object ----

  class Containers {
    const pages: Pages
    const cs: array<Node>

    /** The arrays are in order; nothing is said about quotas. */
    ghost predicate Sound()
      reads this, pages, pages.at
    {
      cs.Length < LIMIT && pages.Valid()
    }

    ghost predicate Valid()
      reads this, pages, pages.at, cs
    {
      Sound() && Inv(pages.at[..], cs[..], pages.lo, pages.hi, pages.nps)
    }

    ghost function Abs(): State
      reads this, pages, pages.at, cs
    {
      State(pages.at[..], cs[..])
    }

    /** container_init: the root owns every usable page. */
    constructor (pages: Pages, ids: nat)
      requires pages.Valid() && 0 < ids < LIMIT && pages.nps <= pages.at.Length
      requires forall i :: 0 <= i < pages.at.Length ==> !pages.at[i].alloc
      ensures Valid() && this.pages == pages && fresh(cs) && cs.Length == ids
      ensures cs[0] == Node(Usable(pages.at[..]), 0, 0, 0, true)
      ensures forall c :: 0 < c < ids ==> !cs[c].used
    {
      var quota, idx := 0, 1;
      ghost var at := pages.at[..];
      while idx < pages.nps
        invariant 1 <= idx && (idx <= pages.nps || idx == 1)
        invariant idx <= |at| ==> quota == UsableTo(at, idx)
      {
        if pages.at[idx].Norm() && !pages.at[idx].alloc {
          quota := quota + 1;
        }
        idx := idx + 1;
      }
      NoneBeyond(at, idx, |at|);
      NoneAllocated(at, |at|);
      this.pages := pages;
      var nodes := new Node[ids](_ => Node(0, 0, 0, 0, false));
      nodes[0] := Node(quota, 0, 0, 0, true);
      cs := nodes;
      OnlyRoot(nodes[..], |nodes[..]|);
    }

    /** container_can_consume */
    method CanConsumeNow(id: nat, n: nat) returns (ok: bool)
      requires Valid() && id < cs.Length && cs[id].used && cs[id].quota < HALF && n < LIMIT
      ensures ok <==> cs[id].usage + n <= cs[id].quota || LIMIT <= cs[id].usage + n
    {
      ok := (cs[id].usage + n) % LIMIT <= cs[id].quota;
      assert QuotasOk(cs[..]) && cs[..][id].used;
      CanConsumeExact(cs[id], n);
    }

    /** container_split, whatever it is asked for. */
    method SplitOffChild(id: nat, quota: nat) returns (child: nat)
      requires Sound() && id < cs.Length
      modifies cs
      ensures Sound()
      ensures var c := 3 * id + 1 + old(cs[id].nchildren); child == if c < cs.Length then c else cs.Length
      ensures child < cs.Length ==>
                && id != child && cs[child].used && cs[child].usage == 0 && cs[child].parent == id
                && cs[child].nchildren == 0 && cs[id].nchildren == old(cs[id].nchildren) + 1
                && cs[id].parent == old(cs[id].parent) && cs[id].used == old(cs[id].used)
                && cs[id].quota == old(cs[id].quota) && cs[id].usage == old(cs[id].usage) + cs[child].quota
      ensures child < cs.Length && quota < HALF ==> cs[child].quota == quota
      ensures child < cs.Length && HALF <= quota < LIMIT ==> cs[child].quota == quota - LIMIT
      ensures forall c :: 0 <= c < cs.Length && (child == cs.Length || (c != id && c != child)) ==> cs[c] == old(cs[c])
      ensures cs[..] == if child < cs.Length then Split(old(cs[..]), id, quota, child) else old(cs[..])
      ensures old(Valid()) && old(Enabled(Abs(), SplitOff(id, quota))) ==>
                Valid() && Abs() == Next(old(Abs()), SplitOff(id, quota))
                && (child < cs.Length ==> !old(cs[..])[child].used)
    {
      hide Inv;
      ghost var s0 := Abs();
      if Valid() && Enabled(s0, SplitOff(id, quota)) {
        StepKeepsInv(s0, pages.lo, pages.hi, pages.nps, SplitOff(id, quota));
        FreshChild(s0.at, s0.cs, pages.lo, pages.hi, pages.nps, id);
      }
      var nc := cs[id].nchildren;
      child := id * MAX_CHILDREN + 1 + nc;
      if cs.Length <= child {
        return cs.Length;
      }
      cs[child] := Node(Signed(quota), 0, id, 0, true);
      cs[id] := cs[id].(usage := cs[id].usage + Signed(quota), nchildren := cs[id].nchildren + 1);
      assert cs[..] == Split(s0.cs, id, quota, child);
    }

    /** container_alloc: 0 exactly when the container's quota is used up. */
    method AllocPage(id: nat) returns (page: nat)
      requires Valid() && id < cs.Length && cs[id].used
      modifies pages, pages.at, cs
      ensures Valid()
      ensures page == 0 <==> old(cs[id].usage + 1 > cs[id].quota)
      ensures cs[id] == old(cs[id]).(usage := old(cs[id].usage) + if page == 0 then 0 else 1)
      ensures forall c :: 0 <= c < cs.Length && c != id ==> cs[c] == old(cs[c])
      ensures page != 0 ==> page < pages.at.Length && old(IsFree(pages.at[page])) && pages.at[page].alloc
      ensures forall i :: 0 <= i < pages.at.Length && i != page ==> pages.at[i] == old(pages.at[i])
      ensures Enabled(old(Abs()), Alloc(id, page)) && Abs() == Next(old(Abs()), Alloc(id, page))
    {
      hide Inv;
      ghost var s0 := Abs();
      page := 0;
      if cs[id].usage + 1 <= cs[id].quota {
        QuotaTestSuffices(s0.at, s0.cs, pages.lo, pages.hi, pages.nps, id);
        cs[id] := cs[id].(usage := cs[id].usage + 1);
        assert cs[..] == Charge(s0.cs, id, 1);
        page := pages.Palloc();
        assert IsFree(s0.at[page]);
      }
      assert Enabled(s0, Alloc(id, page));
      StepKeepsInv(s0, pages.lo, pages.hi, pages.nps, Alloc(id, page));
    }

    /** container_free, of any page by anybody. */
    method FreePage(id: nat, page: nat)
      requires Sound() && id < cs.Length && page < pages.at.Length
      modifies pages.at, cs
      ensures Sound() && (pages.at[..], cs[..]) == Release(old(pages.at[..]), old(cs[..]), id, page)
      ensures pages.at[page] == old(pages.at[page]).(alloc := false)
      ensures var less := if old(pages.at[page].alloc && cs[id].usage > 0) then 1 else 0;
              cs[id] == old(cs[id]).(usage := old(cs[id].usage) - less)
      ensures forall i :: 0 <= i < pages.at.Length && i != page ==> pages.at[i] == old(pages.at[i])
      ensures forall c :: 0 <= c < cs.Length && c != id ==> cs[c] == old(cs[c])
      ensures old(Valid() && cs[id].used) ==> (Valid() <==> old(pages.at[page].alloc ==> cs[id].usage > 0))
    {
      hide Inv;
      ghost var s0 := Abs();
      if Valid() && cs[id].used {
        FreeExact(s0.at, s0.cs, pages.lo, pages.hi, pages.nps, id, page);
      }
      if pages.at[page].alloc {
        pages.Pfree(page);
        if cs[id].usage > 0 {
          cs[id] := cs[id].(usage := cs[id].usage - 1);
          assert cs[..] == Charge(s0.cs, id, -1);
        }
      }
    }
  }

  lemma FreshChild(at: Table, cs: Tree, lo: nat, hi: nat, nps: nat, id: nat)
    requires Inv(at, cs, lo, hi, nps) && id < |cs| && cs[id].used && cs[id].nchildren < MAX_CHILDREN
    ensures var child := Child(id, cs[id].nchildren); child < |cs| ==> child != id && !cs[child].used
  {
    ChildIsNew(cs, id);
  }

  lemma {:induction false} NoneBeyond(at: Table, idx: nat, n: nat)
    requires 0 < idx && n <= |at| && forall i :: idx <= i < |at| ==> !at[i].Norm()
    ensures idx <= n ==> UsableTo(at, n) == UsableTo(at, idx)
  {
    if idx < n {
      NoneBeyond(at, idx, n - 1);
    }
  }

  lemma {:induction false} NoneAllocated(at: Table, n: nat)
    requires n <= |at| && forall i :: 0 <= i < |at| ==> !at[i].alloc
    ensures AllocatedTo(at, n) == 0
  {
    if n > 0 {
      NoneAllocated(at, n - 1);
    }
  }

  lemma {:induction false} OnlyRoot(cs: Tree, n: nat)
    requires 0 < n <= |cs| && cs[0].used && forall c :: 0 < c < |cs| ==> !cs[c].used
    ensures SlackTo(cs, n) == cs[0].quota - cs[0].usage
  {
    if n == 1 {
      assert SlackTo(cs, 0) == 0;
    } else {
      OnlyRoot(cs, n - 1);
    }
  }
}
