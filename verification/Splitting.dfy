/** Splitting one area in two (`__split_vma`, `split_vma`). */
module Splitting {
  import opened Pages
  import opened Vmas
  import opened Trees
  import opened AddressSpaces

  /** The part of `v` below (`below`) or from `addr` on. */
  function Part(v: Vma, addr: int, below: bool): Vma
    requires v.start < addr < v.end
  {
    if below then v.(end := addr)
    else v.(start := addr, pgoff := v.pgoff + (addr - v.start) / 4096)
  }

  /** `x` with the part of area `id` below (`below`) or from `addr` on in an area of its own. */
  ghost function SplitOff(x: Space, id: VmaId, addr: int, below: bool): Space
    requires id in x.slab && x.slab[id].start < addr < x.slab[id].end
  {
    var v := x.slab[id];
    var piece := Part(v, addr, below);
    Space(Store(x.tree, piece.start, piece.end, x.next), x.slab[id := Part(v, addr, !below)][x.next := piece],
          x.next + 1)
  }

  /** Both parts of a split give every address what the whole gave it. */
  lemma PartSameKind(v: Vma, addr: int, below: bool)
    requires v.start < addr < v.end && Aligned(v.start) && Aligned(addr)
    ensures SameKind(Part(v, addr, below), v)
  {
  }

  /** Handing one part of an area to a new area keeps tree and areas in agreement. */
  lemma SplitConsistent(t: Tree, s: Slab, id: VmaId, newId: VmaId, keep: Vma, piece: Vma)
    requires Consistent(t, s) && id in s && newId !in s
    requires WellFormed(keep) && WellFormed(piece)
    requires forall a: int :: Holds(s[id], a) <==> Holds(keep, a) || Holds(piece, a)
    requires forall a: int :: !(Holds(keep, a) && Holds(piece, a))
    ensures Consistent(Store(t, piece.start, piece.end, newId), s[id := keep][newId := piece])
  {
    var s' := s[id := keep][newId := piece];
    var t' := Store(t, piece.start, piece.end, newId);
    forall i, a: int | i in s' && Holds(s'[i], a)
      ensures a in t' && t'[a] == i
    {
      if i == newId {
        assert Holds(piece, a);
      } else if i == id {
        assert Holds(keep, a) && Holds(s[id], a);
      } else {
        assert Holds(s[i], a) && !Holds(s[id], a);
      }
    }
  }

  /** No address sees a difference. */
  lemma SplitSeen(t: Tree, s: Slab, id: VmaId, newId: VmaId, keep: Vma, piece: Vma)
    requires Consistent(t, s) && id in s && newId !in s
    requires SameKind(keep, s[id]) && SameKind(piece, s[id])
    requires forall a: int | Holds(piece, a) :: Holds(s[id], a)
    ensures Seen(Store(t, piece.start, piece.end, newId), s[id := keep][newId := piece]) == Seen(t, s)
  {
    var s' := s[id := keep][newId := piece];
    var t' := Store(t, piece.start, piece.end, newId);
    forall a: int
      ensures a in t' <==> a in t
      ensures a in t ==> t[a] in s && t'[a] in s' && AttrAt(s'[t'[a]], a) == AttrAt(s[t[a]], a)
    {
      if Holds(piece, a) {
        assert Holds(s[id], a);
      }
    }
  }

  /** Handing the part above or below `addr` to a new area keeps tree and areas in agreement
      and shows every address what it saw before. */
  lemma SplitKeeps(t: Tree, s: Slab, id: VmaId, newId: VmaId, addr: int, below: bool)
    requires Consistent(t, s) && id in s && newId !in s
    requires s[id].start < addr < s[id].end && Aligned(addr)
    ensures var piece := Part(s[id], addr, below);
            var s' := s[id := Part(s[id], addr, !below)][newId := piece];
            var t' := Store(t, piece.start, piece.end, newId);
            Consistent(t', s') && Seen(t', s') == Seen(t, s)
  {
    PartSameKind(s[id], addr, below);
    PartSameKind(s[id], addr, !below);
    SplitConsistent(t, s, id, newId, Part(s[id], addr, !below), Part(s[id], addr, below));
    SplitSeen(t, s, id, newId, Part(s[id], addr, !below), Part(s[id], addr, below));
  }

  /** `__split_vma`.  `granted` says that the driver allows the split and that the copy,
      the tree node, the policy and the anon_vma chain can be allocated. */
  method SplitUnchecked(mm: Mm, id: VmaId, addr: int, newBelow: bool, granted: bool) returns (r: Ref)
    requires mm.Shaped() && id in mm.slab
    requires mm.slab[id].start < addr < mm.slab[id].end && Aligned(addr)
    modifies mm`tree, mm`slab, mm`nextId, mm`mapCount
    ensures mm.Shaped()
    ensures mm.Sees() == old(mm.Sees())
    ensures old(mm.NoneDetached()) ==> mm.NoneDetached()
    ensures r.To? <==> granted
    ensures r.Null? ==> unchanged(mm)
    ensures r.To? ==>
              && r.id == old(mm.nextId) && mm.nextId == r.id + 1
              && mm.mapCount == old(mm.mapCount) + 1
              && mm.slab == old(mm.slab[id := Part(mm.slab[id], addr, !newBelow)])
                            [r.id := old(Part(mm.slab[id], addr, newBelow))]
              && mm.tree == Store(old(mm.tree), mm.slab[r.id].start, mm.slab[r.id].end, r.id)
    ensures r.To? ==> mm.Now() == old(SplitOff(mm.Now(), id, addr, newBelow))
  {
    hide Consistent, Seen, Store;
    var newId := mm.nextId;
    var piece := mm.slab[id];                       // vm_area_dup
    if newBelow {
      piece := piece.(end := addr);
    } else {
      piece := piece.(start := addr, pgoff := piece.pgoff + (addr - mm.slab[id].start) / 4096);
    }
    if !granted {                                 // may_split, vma_iter_prealloc, vma_dup_policy, anon_vma_clone
      return Null;
    }
    var v := mm.slab[id];
    if newBelow {
      v := v.(start := addr, pgoff := v.pgoff + (addr - piece.start) / 4096);
    } else {
      v := v.(end := addr);
    }
    SplitKeeps(mm.tree, mm.slab, id, newId, addr, newBelow);
    mm.slab := mm.slab[id := v];
    mm.slab := mm.slab[newId := piece];             // vma_complete stores the new area
    mm.nextId := newId + 1;
    mm.tree := Store(mm.tree, piece.start, piece.end, newId);
    mm.mapCount := mm.mapCount + 1;
    r := To(newId);
  }

  /** `split_vma`: the same behind the `sysctl_max_map_count` check. */
  method Split(mm: Mm, id: VmaId, addr: int, newBelow: bool, maxMapCount: int, granted: bool) returns (r: Ref)
    requires mm.Shaped() && id in mm.slab
    requires mm.slab[id].start < addr < mm.slab[id].end && Aligned(addr)
    modifies mm`tree, mm`slab, mm`nextId, mm`mapCount
    ensures mm.Shaped()
    ensures mm.Sees() == old(mm.Sees())
    ensures old(mm.NoneDetached()) ==> mm.NoneDetached()
    ensures r.Null? ==> unchanged(mm)
    ensures r.To? <==> granted && old(mm.mapCount) < maxMapCount
    ensures r.To? ==>
              && r.id == old(mm.nextId) && mm.nextId == r.id + 1
              && mm.mapCount == old(mm.mapCount) + 1 <= maxMapCount
              && mm.slab == old(mm.slab[id := Part(mm.slab[id], addr, !newBelow)])
                            [r.id := old(Part(mm.slab[id], addr, newBelow))]
              && mm.tree == Store(old(mm.tree), mm.slab[r.id].start, mm.slab[r.id].end, r.id)
    ensures r.To? ==> mm.Now() == old(SplitOff(mm.Now(), id, addr, newBelow))
  {
    if mm.mapCount >= maxMapCount {
      return Null;
    }
    r := SplitUnchecked(mm, id, addr, newBelow, granted);
  }
}
