/** Changing the attributes of part of an area (`vma_modify` and its callers' final step). */
module Modifying {
  import opened Pages
  import opened Vmas
  import opened Trees
  import opened AddressSpaces
  import opened Splitting
  import opened Reshaping
  import opened MergeCases
  import opened Merging

  /** The part [start, end) of `v` with the new attributes of `keys`. */
  function Request(v: Vma, start: int, end: int, keys: Vma): Vma {
    v.(start := start, end := end, pgoff := v.pgoff + (start - v.start) / 4096,
       flags := keys.flags, policy := keys.policy, uffd := keys.uffd, name := keys.name)
  }

  /** `v` with the attributes of `keys`, in place. */
  function Relabelled(v: Vma, keys: Vma): Vma {
    v.(flags := keys.flags, policy := keys.policy, uffd := keys.uffd, name := keys.name)
  }

  /** Who the callers pass as `prev`: the area itself when the change starts inside it, the area
      before it otherwise. */
  ghost predicate Precedes(t: Tree, s: Slab, prev: Ref, vma: VmaId, start: int) {
    && vma in s
    && (s[vma].start < start ==> prev == To(vma))
    && (s[vma].start == start ==>
          && (prev.To? ==> prev.id in s && s[prev.id].end <= start)
          && Free(t, Above(s, prev), start))
  }

  lemma ModifyCallable(t: Tree, s: Slab, prev: Ref, vma: VmaId, start: int, end: int, keys: Vma)
    requires Consistent(t, s) && Precedes(t, s, prev, vma, start)
    requires s[vma].start <= start < end <= s[vma].end && Aligned(start) && Aligned(end)
    ensures Callable(t, s, prev, Request(s[vma], start, end, keys))
  {
    assert WellFormed(s[vma]);
    if prev.To? && prev.id != vma {
      assert WellFormed(s[prev.id]);
    }
    assert Holds(s[vma], start);
  }

  /** Both splits that a change of [start, end) needs, if any, are possible one after the other. */
  predicate SplitsWork(v: Vma, start: int, end: int, mapCount: int, maxMapCount: int, lowOk: bool, highOk: bool) {
    && (v.start < start ==> lowOk && mapCount < maxMapCount)
    && (end < v.end ==> highOk && mapCount + (if v.start < start then 1 else 0) < maxMapCount)
  }

  /** The areas after those splits, or after the ones before the first that fails. */
  ghost function SplitsAfter(x: Space, id: VmaId, start: int, end: int, mapCount: int, maxMapCount: int, lowOk: bool,
                             highOk: bool): Space
    requires id in x.slab && x.slab[id].start <= start < end <= x.slab[id].end && x.next !in x.slab
  {
    var v := x.slab[id];
    if v.start < start && !(lowOk && mapCount < maxMapCount) then x
    else
      var y := if v.start < start then SplitOff(x, id, start, true) else x;
      if end < v.end && highOk && mapCount + (if v.start < start then 1 else 0) < maxMapCount
      then SplitOff(y, id, end, false) else y
  }

  /** The request merges, as far as areas and allocations go. */
  ghost predicate Merges(t: Tree, s: Slab, prev: Ref, want: Vma, cloneOk: bool, preallocOk: bool) {
    preallocOk && Mergeable(t, s, prev, want) && (cloneOk || !NeedsClone(t, s, prev, want))
  }

  /** `vma_modify`.  A null result is a failed split; either way no address sees a change except
      through a successful merge, which shows exactly the request. */
  method VmaModify(mm: Mm, prev: Ref, vma: VmaId, start: int, end: int, keys: Vma, maxMapCount: int,
                   cloneOk: bool, preallocOk: bool, lowOk: bool, highOk: bool) returns (res: Ref, ghost merged: bool)
    requires mm.Shaped() && Precedes(mm.tree, mm.slab, prev, vma, start)
    requires mm.slab[vma].start <= start < end <= mm.slab[vma].end && Aligned(start) && Aligned(end)
    modifies mm`tree, mm`slab, mm`nextId, mm`mapCount
    ensures mm.Shaped() && (old(mm.NoneDetached()) ==> mm.NoneDetached())
    ensures res.To? ==> res.id in mm.slab
    ensures merged ==> res.To? && mm.Sees() == Override(old(mm.Sees()), old(Request(mm.slab[vma], start, end, keys)))
    ensures merged ==> SameKind(mm.slab[res.id], old(Request(mm.slab[vma], start, end, keys)))
    ensures !merged ==> mm.Sees() == old(mm.Sees())
    ensures !merged && res.To? ==> mm.slab[res.id] == old(Request(mm.slab[vma], start, end, mm.slab[vma]))
    ensures merged ==> res == old(MergedInto(mm.Now(), prev, Request(mm.slab[vma], start, end, keys)))
    ensures !merged && res.To? ==> res.id == vma
    ensures mm.Now() == if merged then old(MergeAfter(mm.Now(), prev, Request(mm.slab[vma], start, end, keys)))
                        else old(SplitsAfter(mm.Now(), vma, start, end, mm.mapCount, maxMapCount, lowOk, highOk))
    ensures merged <==>
              old(Merges(mm.tree, mm.slab, prev, Request(mm.slab[vma], start, end, keys), cloneOk, preallocOk))
    ensures res.To? <==>
              merged || old(SplitsWork(mm.slab[vma], start, end, mm.mapCount, maxMapCount, lowOk, highOk))
  {
    hide Consistent, Seen, Override, SameKind, Callable, Mergeable, NeedsClone, Store;
    hide MergeAfter, MergedInto, SplitsAfter;
    ModifyCallable(mm.tree, mm.slab, prev, vma, start, end, keys);
    res := VmaMerge(mm, prev, Request(mm.slab[vma], start, end, keys), cloneOk, preallocOk);
    merged := res.To?;
    if res.To? {
      return;
    }
    var ok := SplitOut(mm, vma, start, end, maxMapCount, lowOk, highOk);
    res := if ok then To(vma) else Null;
  }

  /** The splits of `vma_modify`: below, then above. */
  method SplitOut(mm: Mm, vma: VmaId, start: int, end: int, maxMapCount: int, lowOk: bool, highOk: bool)
    returns (ok: bool)
    requires mm.Shaped() && vma in mm.slab && Aligned(start) && Aligned(end)
    requires mm.slab[vma].start <= start < end <= mm.slab[vma].end
    modifies mm`tree, mm`slab, mm`nextId, mm`mapCount
    ensures mm.Shaped() && mm.Sees() == old(mm.Sees()) && (old(mm.NoneDetached()) ==> mm.NoneDetached())
    ensures ok <==> old(SplitsWork(mm.slab[vma], start, end, mm.mapCount, maxMapCount, lowOk, highOk))
    ensures ok ==> vma in mm.slab && mm.slab[vma] == old(Request(mm.slab[vma], start, end, mm.slab[vma]))
    ensures mm.Now() == old(SplitsAfter(mm.Now(), vma, start, end, mm.mapCount, maxMapCount, lowOk, highOk))
  {
    hide Consistent, Seen, Store;
    ok := false;
    if mm.slab[vma].start < start {
      var r := Split(mm, vma, start, true, maxMapCount, lowOk);
      if r.Null? {
        return;
      }
    }
    if end < mm.slab[vma].end {
      var r := Split(mm, vma, end, false, maxMapCount, highOk);
      if r.Null? {
        return;
      }
    }
    ok := true;
  }

  /** The areas after a change of attributes: merged or split off, with the new attributes set, or split as far as
      that went. */
  ghost function ModifyAfter(x: Space, prev: Ref, vma: VmaId, start: int, end: int, keys: Vma, mapCount: int,
                             maxMapCount: int, cloneOk: bool, preallocOk: bool, lowOk: bool, highOk: bool): Space
    requires vma in x.slab && x.slab[vma].start <= start < end <= x.slab[vma].end && x.next !in x.slab
    requires prev.To? ==> prev.id in x.slab
  {
    var want := Request(x.slab[vma], start, end, keys);
    if Merges(x.tree, x.slab, prev, want, cloneOk, preallocOk) then
      Relabel(MergeAfter(x, prev, want), MergedInto(x, prev, want), keys)
    else
      var y := SplitsAfter(x, vma, start, end, mapCount, maxMapCount, lowOk, highOk);
      if SplitsWork(x.slab[vma], start, end, mapCount, maxMapCount, lowOk, highOk) then Relabel(y, To(vma), keys)
      else y
  }

  /** `x` with the new attributes in one area. */
  ghost function Relabel(x: Space, r: Ref, keys: Vma): Space {
    if r.To? && r.id in x.slab then x.(slab := x.slab[r.id := Relabelled(x.slab[r.id], keys)]) else x
  }

  /** The new attributes leave the accounting of an area alone: changes of VM_LOCKED and VM_ACCOUNT are
      accounted for by the callers. */
  predicate SameAccounts(v: Vma, keys: Vma) {
    && (Locked in keys.flags <==> Locked in v.flags)
    && (Account in keys.flags <==> Account in v.flags)
  }

  /** `vma_modify` followed by the assignment of the new attributes to the area it returns, as its
      callers do: the addresses of [start, end) see the new attributes and no others change.  What is
      mapped stays the same, so the address space stays valid. */
  method ModifyAndSet(mm: Mm, prev: Ref, vma: VmaId, start: int, end: int, keys: Vma, maxMapCount: int,
                      cloneOk: bool, preallocOk: bool, lowOk: bool, highOk: bool) returns (ok: bool)
    requires mm.Shaped() && Precedes(mm.tree, mm.slab, prev, vma, start)
    requires mm.slab[vma].start <= start < end <= mm.slab[vma].end && Aligned(start) && Aligned(end)
    modifies mm`tree, mm`slab, mm`nextId, mm`mapCount
    ensures mm.Shaped() && (old(mm.NoneDetached()) ==> mm.NoneDetached())
    ensures ok ==> mm.Sees() == Override(old(mm.Sees()), old(Request(mm.slab[vma], start, end, keys)))
    ensures !ok ==> mm.Sees() == old(mm.Sees())
    ensures Bytes(mm.Sees()) == old(Bytes(mm.Sees()))
    ensures old(SameAccounts(mm.slab[vma], keys)) ==>
              mm.Charge() == old(mm.Charge()) && (old(mm.Valid()) ==> mm.Valid())
    ensures mm.Now() == old(ModifyAfter(mm.Now(), prev, vma, start, end, keys, mm.mapCount, maxMapCount, cloneOk,
                                        preallocOk, lowOk, highOk))
    ensures ok <==>
              || old(Merges(mm.tree, mm.slab, prev, Request(mm.slab[vma], start, end, keys), cloneOk, preallocOk))
              || old(SplitsWork(mm.slab[vma], start, end, mm.mapCount, maxMapCount, lowOk, highOk))
  {
    hide Consistent, Seen, Override, Merges, SplitsWork, Bytes, BytesWith, MergeAfter, MergedInto, SplitsAfter;
    ghost var want := Request(mm.slab[vma], start, end, keys);
    ModifyTally(mm.tree, mm.slab, vma, start, end, keys);
    var res, merged := VmaModify(mm, prev, vma, start, end, keys, maxMapCount, cloneOk, preallocOk, lowOk, highOk);
    if res.Null? {
      return false;
    }
    KnownWellFormed(mm.tree, mm.slab, res.id);
    ghost var nv := Relabelled(mm.slab[res.id], keys);
    RelabelOwn(mm.tree, mm.slab, res.id, nv);
    if merged {
      RelabelKind(mm.slab[res.id], nv, keys, want);
      OverrideSame(mm.tree, mm.slab, res.id, nv);
    } else {
      assert nv == want;
    }
    mm.slab := mm.slab[res.id := Relabelled(mm.slab[res.id], keys)];
    ok := true;
  }

  /** What the request shows: the new flags, policy, userfaultfd context and name, and the file and offset that were
      there before. */
  lemma RequestShows(v: Vma, start: int, end: int, keys: Vma, x: int)
    requires Aligned(v.start) && Aligned(start)
    ensures var want := Request(v, start, end, keys);
            && (Holds(want, x) <==> start <= x < end)
            && AttrAt(want, x) == Attr(keys.flags - {SoftDirty}, AttrAt(v, x).file, AttrAt(v, x).offset, keys.policy,
                                       keys.uffd, keys.name)
  {
    assert ToBytes((start - v.start) / 4096) == start - v.start;
  }

  /** Relabelling part of an area changes neither what is mapped nor, with equal accounts, what is counted. */
  lemma ModifyTally(t: Tree, s: Slab, vma: VmaId, start: int, end: int, keys: Vma)
    requires Consistent(t, s) && vma in s && s[vma].start <= start < end <= s[vma].end
    ensures var v, want := Seen(t, s), Request(s[vma], start, end, keys);
            && Bytes(Override(v, want)) == Bytes(v)
            && (SameAccounts(s[vma], keys) ==>
                  && BytesWith(Override(v, want), Locked) == BytesWith(v, Locked)
                  && BytesWith(Override(v, want), Account) == BytesWith(v, Account))
  {
    hide Bytes, BytesWith, Override;
    var v, want := Seen(t, s), Request(s[vma], start, end, keys);
    forall a: int | Holds(want, a)
      ensures a in v && v[a] == AttrAt(s[vma], a)
    {
      assert Holds(s[vma], a);
    }
    MappedTally(v, want);
    if SameAccounts(s[vma], keys) {
      RelabelTally(v, want, Locked);
      RelabelTally(v, want, Account);
    }
  }

  lemma MappedTally(v: View, want: Vma)
    requires forall a: int | Holds(want, a) :: a in v
    ensures Bytes(Override(v, want)) == Bytes(v)
  {
    assert Override(v, want).Keys == v.Keys;
  }

  lemma RelabelKind(v: Vma, nv: Vma, keys: Vma, want: Vma)
    requires SameKind(v, want) && nv == Relabelled(v, keys)
    requires want.flags == keys.flags && want.policy == keys.policy && want.uffd == keys.uffd && want.name == keys.name
    ensures SameKind(nv, v)
  {
  }
}
