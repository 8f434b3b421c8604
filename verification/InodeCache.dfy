/** The inode cache of kern/fs/inode.c: NINODE slots, found by (dev, inum), recycled when their
    reference count is zero. */
module InodeCache {
  import opened Flock

  datatype Slot = Slot(dev: nat, inum: nat, ref: nat, flags: nat, flock: Fl)

  predicate Live(x: Slot) {
    x.ref > 0
  }

  predicate Is(x: Slot, dev: nat, inum: nat) {
    Live(x) && x.dev == dev && x.inum == inum
  }

  /** No (dev, inum) occupies two live slots. */
  ghost predicate OneSlot(slots: seq<Slot>) {
    forall i, j :: 0 <= i < j < |slots| && Live(slots[i]) && Live(slots[j]) ==>
      slots[i].dev != slots[j].dev || slots[i].inum != slots[j].inum
  }

  /** What inode_get finds. */
  datatype Found = Hit(i: nat) | Recycled(i: nat) | NoInodes

  class Cache {
    const slots: array<Slot>

    ghost predicate Valid()
      reads slots
    {
      OneSlot(slots[..])
    }

    constructor (ninode: nat)
      ensures Valid() && fresh(slots) && slots.Length == ninode
      ensures forall i :: 0 <= i < ninode ==> !Live(slots[i])
    {
      slots := new Slot[ninode](_ => Slot(0, 0, 0, 0, FRESH));
    }

    /** inode_get.  A cached inode gains a reference and keeps its file lock; otherwise the first
        slot without references is taken over with a fresh lock; `NoInodes` is the panic. */
    method InodeGet(dev: nat, inum: nat) returns (r: Found)
      requires Valid()
      modifies slots
      ensures Valid()
      ensures r.Hit? ==> r.i < slots.Length && old(slots[r.i]).ref > 0
                         && old(slots[r.i]).dev == dev && old(slots[r.i]).inum == inum
                         && slots[..] == old(slots[..])[r.i := old(slots[r.i]).(ref := old(slots[r.i]).ref + 1)]
      ensures !r.Hit? ==> forall i :: 0 <= i < slots.Length ==>
                !(old(slots[i]).ref > 0 && old(slots[i]).dev == dev && old(slots[i]).inum == inum)
      ensures r.Recycled? ==> r.i < slots.Length && old(slots[r.i]).ref == 0
                              && slots[..] == old(slots[..])[r.i := Slot(dev, inum, 1, 0, FRESH)]
                              && forall i :: 0 <= i < r.i ==> old(slots[i]).ref > 0
      ensures r.NoInodes? ==> slots[..] == old(slots[..]) && forall i :: 0 <= i < slots.Length ==> slots[i].ref > 0
    {
      var empty, i := slots.Length, 0;
      while i < slots.Length
        invariant 0 <= i <= slots.Length
        invariant forall j :: 0 <= j < i ==> !Is(slots[j], dev, inum)
        invariant 0 <= empty <= slots.Length && (empty == slots.Length || empty < i)
        invariant empty < slots.Length ==> !Live(slots[empty])
        invariant forall j :: 0 <= j < i && j < empty ==> Live(slots[j])
        invariant slots[..] == old(slots[..])
      {
        if Is(slots[i], dev, inum) {
          slots[i] := slots[i].(ref := slots[i].ref + 1);
          return Hit(i);
        }
        if empty == slots.Length && slots[i].ref == 0 {
          empty := i;
        }
        i := i + 1;
      }
      if empty == slots.Length {
        return NoInodes;
      }
      slots[empty] := Slot(dev, inum, 1, 0, FRESH);
      return Recycled(empty);
    }

    /** inode_dup. */
    method InodeDup(i: nat)
      requires Valid() && i < slots.Length && Live(slots[i])
      modifies slots
      ensures Valid() && slots[..] == old(slots[..])[i := old(slots[i]).(ref := old(slots[i]).ref + 1)]
    {
      slots[i] := slots[i].(ref := slots[i].ref + 1);
    }

    /** The reference drop of inode_put. */
    method InodePut(i: nat)
      requires Valid() && i < slots.Length && Live(slots[i])
      modifies slots
      ensures Valid() && slots[..] == old(slots[..])[i := old(slots[i]).(ref := old(slots[i]).ref - 1)]
    {
      slots[i] := slots[i].(ref := slots[i].ref - 1);
    }
  }
}
