/** Joining a request with the areas around it (`vma_merge`). */
module Merging {
  import opened Pages
  import opened Vmas
  import opened Trees
  import opened AddressSpaces
  import opened Reshaping
  import opened MergeCases

  /** `dst` with the anon_vma and chain of `src`. */
  function Adopt(dst: Vma, src: Vma): Vma {
    if src.anonVma.Some? && dst.anonVma.None?
    then dst.(anonVma := src.anonVma, chain := src.chain)
    else dst
  }

  /** Must `dst` be given a copy of the anon_vma of `src`? */
  predicate NeedsDup(dst: Vma, src: Vma) {
    src.anonVma.Some? && dst.anonVma.None?
  }

  /** `dup_anon_vma`.  A failed clone leaves the destination without anon_vma, as before. */
  method DupAnonVma(mm: Mm, dst: VmaId, src: VmaId, cloneOk: bool) returns (ok: bool, dup: Ref)
    requires dst in mm.slab && src in mm.slab
    modifies mm`slab
    ensures !ok ==> mm.slab == old(mm.slab)
    ensures ok ==> mm.slab == old(mm.slab[dst := Adopt(mm.slab[dst], mm.slab[src])])
    ensures ok && old(mm.slab[src].anonVma.Some? && mm.slab[dst].anonVma.None?) ==>
              mm.slab[dst] == old(mm.slab[dst]).(anonVma := old(mm.slab[src]).anonVma, chain := old(mm.slab[src]).chain)
    ensures ok && old(mm.slab[dst].anonVma.None? ==> mm.slab[dst].chain == []) ==>
              Adopted(old(mm.slab[dst]), mm.slab[dst], dup.To?)
    ensures ok <==> cloneOk || !old(NeedsDup(mm.slab[dst], mm.slab[src]))
    ensures dup == if ok && old(mm.slab[src].anonVma.Some? && mm.slab[dst].anonVma.None?) then To(dst) else Null
  {
    ok, dup := true, Null;
    if mm.slab[src].anonVma.Some? && mm.slab[dst].anonVma.None? {
      if !cloneOk {
        return false, Null;
      }
      mm.slab := mm.slab[dst := mm.slab[dst].(anonVma := mm.slab[src].anonVma, chain := mm.slab[src].chain)];
      dup := To(dst);
    }
  }

  /** `unlink_anon_vmas`. */
  function Unlink(v: Vma): Vma {
    v.(anonVma := None, chain := [])
  }

  function Resize(v: Vma, start: int, end: int, pgoff: int): Vma {
    v.(start := start, end := end, pgoff := pgoff)
  }

  /** `v` with its start moved by `delta` bytes and its offset with it. */
  function Shift(v: Vma, delta: int): Vma {
    v.(start := v.start + delta, pgoff := v.pgoff + delta / 4096)
  }

  lemma RemoveSize(s: Slab, dead: set<VmaId>)
    requires dead <= s.Keys
    ensures |s - dead| == |s| - |dead|
  {
    assert (s - dead).Keys == s.Keys - dead;
    assert s.Keys == (s.Keys - dead) + dead;
  }

  /** The common tail of `vma_merge`: reserve tree nodes, move the boundaries, store, and drop the
      removed areas.  When the reservation fails the anon_vma adopted for the merge is unlinked. */
  method Finish(mm: Mm, vma: VmaId, start: int, end: int, pgoff: int,
                adjust: Ref, adjStart: int, remove: Ref, remove2: Ref, anonDup: Ref,
                preallocOk: bool) returns (ok: bool)
    requires vma in mm.slab
    requires adjust.To? ==> adjust.id in mm.slab && adjust.id != vma && remove.Null?
    requires adjust.To? <==> adjStart != 0
    requires remove.To? ==> remove.id in mm.slab && remove.id != vma
    requires remove2.To? ==> remove.To? && remove2.id in mm.slab && remove2.id != vma && remove2 != remove
    requires anonDup.To? ==> anonDup.id in mm.slab
    requires adjStart < 0 <==> !(start < mm.slab[vma].start || mm.slab[vma].end < end)
    modifies mm`tree, mm`slab, mm`mapCount
    ensures ok == preallocOk
    ensures !ok ==> mm.tree == old(mm.tree) && mm.mapCount == old(mm.mapCount)
    ensures !ok ==>
        mm.slab == if anonDup.To? then old(mm.slab[anonDup.id := Unlink(mm.slab[anonDup.id])]) else old(mm.slab)
    ensures ok ==> mm.mapCount == old(mm.mapCount) - |Ids(remove) + Ids(remove2)|
    ensures ok && adjust.Null? ==>
              mm.slab == old(mm.slab[vma := Resize(mm.slab[vma], start, end, pgoff)]) - (Ids(remove) + Ids(remove2))
    ensures ok && adjust.To? ==>
              mm.slab == old(mm.slab[vma := Resize(mm.slab[vma], start, end, pgoff)]
                             [adjust.id := Shift(mm.slab[adjust.id], adjStart)])
    ensures ok && adjStart >= 0 ==> mm.tree == Store(old(mm.tree), start, end, vma)
    ensures ok && adjStart < 0 ==>
              mm.tree == Store(old(mm.tree), mm.slab[adjust.id].start, mm.slab[adjust.id].end, adjust.id)
  {
    hide Store;
    var expanded := start < mm.slab[vma].start || mm.slab[vma].end < end;
    ok := preallocOk;                               // vma_iter_prealloc
    if !ok {
      if anonDup.To? {
        mm.slab := mm.slab[anonDup.id := Unlink(mm.slab[anonDup.id])];
      }
      return;
    }
    mm.slab := mm.slab[vma := Resize(mm.slab[vma], start, end, pgoff)];
    if expanded {
      mm.tree := Store(mm.tree, start, end, vma);
    }
    if adjStart != 0 {
      mm.slab := mm.slab[adjust.id := Shift(mm.slab[adjust.id], adjStart)];
      if adjStart < 0 {
        mm.tree := Store(mm.tree, mm.slab[adjust.id].start, mm.slab[adjust.id].end, adjust.id);
      }
    }
    if remove.To? {                                 // vma_complete
      mm.slab := mm.slab - {remove.id};
      mm.mapCount := mm.mapCount - 1;
      if remove2.To? {
        mm.slab := mm.slab - {remove2.id};
        mm.mapCount := mm.mapCount - 1;
      }
    }
  }

  /** The anon_vmas of two areas do not conflict. */
  predicate AnonAgree(a: Option<AnonId>, b: Option<AnonId>) {
    IsMergeableAnon(a, b, None)
  }

  /** A failed branch leaves no trace; a successful one is a merge that keeps or drops areas. */
  ghost predicate BranchDone(t: Tree, s: Slab, t': Tree, s': Slab, ok: bool, want: Vma) {
    && (!ok ==> t' == t && s' == s)
    && (ok ==> Merged(t, s, t', s', want) && SameMarks(s, s'))
  }

  /** The surviving areas keep their detached marks. */
  ghost predicate SameMarks(s: Slab, s': Slab) {
    && s'.Keys <= s.Keys
    && forall id | id in s' :: s'[id].detached == s[id].detached
  }

  // ---------------------------------------------------------------- the areas after a merge

  /** Area `p` has become `np` and the areas in `dead` are gone. */
  ghost function GrownOver(t: Tree, s: Slab, id: VmaId, p: VmaId, np: Vma, dead: set<VmaId>): Space {
    Space(Store(t, np.start, np.end, p), s[p := np] - dead, id)
  }

  /** Area `g` has become `ng` at the expense of `l`, which has become `nl`. */
  ghost function Shifted(t: Tree, s: Slab, id: VmaId, g: VmaId, ng: Vma, l: VmaId, nl: Vma): Space {
    Space(Store(t, ng.start, ng.end, g), s[g := ng][l := nl], id)
  }

  /** Whose anon_vma the area below takes over if it has none. */
  function Donor(s: Slab, curr: Ref, next: VmaId): Vma
    requires next in s && (curr.To? ==> curr.id in s)
  {
    if curr.To? && s[next].anonVma.None? then s[curr.id] else s[next]
  }

  /** `v`, with the anon_vma of `curr` if it has none. */
  function AdoptFrom(s: Slab, v: Vma, curr: Ref): Vma
    requires curr.To? ==> curr.id in s
  {
    if curr.To? then Adopt(v, s[curr.id]) else v
  }

  /** Cases 1 and 6. */
  ghost function BothAfter(x: Space, prev: VmaId, curr: Ref, next: VmaId): Space
    requires prev in x.slab && next in x.slab && (curr.To? ==> curr.id in x.slab)
  {
    var p := x.slab[prev];
    GrownOver(x.tree, x.slab, x.next, prev,
              Resize(Adopt(p, Donor(x.slab, curr, next)), p.start, x.slab[next].end, p.pgoff), Ids(curr) + {next})
  }

  /** Cases 2 and 7. */
  ghost function UpAfter(x: Space, prev: VmaId, curr: Ref, want: Vma): Space
    requires prev in x.slab && (curr.To? ==> curr.id in x.slab)
  {
    var p := x.slab[prev];
    GrownOver(x.tree, x.slab, x.next, prev, Resize(AdoptFrom(x.slab, p, curr), p.start, want.end, p.pgoff),
              Ids(curr))
  }

  /** Cases 3 and 8. */
  ghost function DownAfter(x: Space, curr: Ref, next: VmaId, want: Vma): Space
    requires next in x.slab && (curr.To? ==> curr.id in x.slab)
  {
    var n := x.slab[next];
    GrownOver(x.tree, x.slab, x.next, next, Resize(AdoptFrom(x.slab, n, curr), want.start, n.end, want.pgoff),
              Ids(curr))
  }

  /** Case 5. */
  ghost function ShiftUpAfter(x: Space, prev: VmaId, curr: VmaId, want: Vma): Space
    requires prev in x.slab && curr in x.slab
  {
    var p, c := x.slab[prev], x.slab[curr];
    Shifted(x.tree, x.slab, x.next, prev, Resize(Adopt(p, c), p.start, want.end, p.pgoff), curr,
            Shift(c, want.end - c.start))
  }

  /** Case 4. */
  ghost function ShiftDownAfter(x: Space, prev: VmaId, next: VmaId, want: Vma): Space
    requires prev in x.slab && next in x.slab
  {
    var p, n := x.slab[prev], x.slab[next];
    Shifted(x.tree, x.slab, x.next, next, Shift(Adopt(n, p), want.start - p.end), prev,
            Resize(p, p.start, want.start, p.pgoff))
  }

  // ---------------------------------------------------------------- the cases

  /** Cases 1 and 6: predecessor and successor both join. */
  method MergeBoth(mm: Mm, prev: VmaId, curr: Ref, next: VmaId, want: Vma, cloneOk: bool, preallocOk: bool)
    returns (ok: bool)
    requires Consistent(mm.tree, mm.slab) && mm.mapCount == |mm.slab| && ValidRequest(want)
    requires prev in mm.slab && next in mm.slab && prev != next
    requires mm.slab[prev].end == want.start && SameKind(mm.slab[prev], want)
    requires mm.slab[next].start == want.end && SameKind(mm.slab[next], want)
    requires curr.Null? ==> Free(mm.tree, want.start, want.end)
    requires curr.To? ==> curr.id in mm.slab && curr.id != prev && curr.id != next
    requires curr.To? ==> mm.slab[curr.id].start == want.start && mm.slab[curr.id].end == want.end
    requires curr.To? ==> mm.slab[curr.id].anonVma == want.anonVma
    requires AnonAgree(mm.slab[prev].anonVma, mm.slab[next].anonVma)
    requires AnonAgree(mm.slab[prev].anonVma, want.anonVma) && AnonAgree(mm.slab[next].anonVma, want.anonVma)
    modifies mm`tree, mm`slab, mm`mapCount
    ensures BranchDone(old(mm.tree), old(mm.slab), mm.tree, mm.slab, ok, want) && mm.mapCount == |mm.slab|
    ensures ok ==> prev in mm.slab && Covers(mm.slab[prev], want)
    ensures ok ==> mm.Now() == old(BothAfter(mm.Now(), prev, curr, next))
    ensures ok <==> preallocOk && (cloneOk || !old(NeedsDup(mm.slab[prev], mm.slab[next]) ||
                                                    (curr.To? && NeedsDup(mm.slab[prev], mm.slab[curr.id]))))
  {
    hide Consistent, Seen, Store, Override, Merged, SameKind, SameMarks, Free, GrownOver, Adopt, Donor;
    hide Covers, Resize, WellFormed;
    ghost var t, s := mm.tree, mm.slab;
    KnownWellFormed(t, s, prev);
    KnownWellFormed(t, s, next);
    var vmaEnd := mm.slab[next].end;
    var anonDup;
    ok, anonDup := AdoptFromBoth(mm, prev, curr, next, want, cloneOk);
    if !ok {
      return;
    }
    var remove, remove2 := To(next), Null;
    if curr.To? {
      remove, remove2 := curr, To(next);
    }
    assert Ids(remove) + Ids(remove2) == Ids(curr) + {next};
    BothCase(t, s, mm.slab[prev], anonDup.To?, prev, curr, next, want);
    ok := GrowTail(mm, s, prev, mm.slab[prev].start, vmaEnd, mm.slab[prev].pgoff, remove, remove2, anonDup, want,
                   preallocOk);
  }

  /** What cases 1 and 6 do once `adopted` has the anon_vma. */
  lemma BothCase(t: Tree, s: Slab, adopted: Vma, dup: bool, prev: VmaId, curr: Ref, next: VmaId, want: Vma)
    requires Consistent(t, s) && ValidRequest(want) && prev in s && next in s && prev != next
    requires s[prev].end == want.start && SameKind(s[prev], want)
    requires s[next].start == want.end && SameKind(s[next], want)
    requires curr.Null? ==> Free(t, want.start, want.end)
    requires curr.To? ==> curr.id in s && curr.id != prev && curr.id != next
    requires curr.To? ==> s[curr.id].start == want.start && s[curr.id].end == want.end
    requires Adopted(s[prev], adopted, dup) && AnonInto(s[prev], adopted) && AnonInto(s[next], adopted)
    requires curr.To? ==> AnonInto(s[curr.id], adopted)
    ensures var np := Resize(adopted, s[prev].start, s[next].end, s[prev].pgoff);
            && Merged(t, s, Store(t, np.start, np.end, prev), s[prev := np] - (Ids(curr) + {next}), want)
            && Covers(np, want) && np.start == s[prev].start && np.end == s[next].end
  {
    hide Consistent, Seen, Store, Merged, SameKind, Free;
    KnownWellFormed(t, s, prev);
    KnownWellFormed(t, s, next);
    var np := Resize(adopted, s[prev].start, s[next].end, s[prev].pgoff);
    ResizeKind(s[prev], adopted, np, want);
    GrowCase(t, s, To(prev), curr, To(next), prev, np, Ids(curr) + {next}, want);
  }

  /** The common tail for the cases without an adjusted neighbour; `s` is the pool before any
      anon_vma was adopted. */
  method GrowTail(mm: Mm, ghost s: Slab, p: VmaId, start: int, end: int, pgoff: int,
                  remove: Ref, remove2: Ref, anonDup: Ref, want: Vma, preallocOk: bool) returns (ok: bool)
    requires p in s && p in mm.slab && mm.slab == s[p := mm.slab[p]] && mm.mapCount == |s|
    requires Adopted(s[p], mm.slab[p], anonDup.To?) && (anonDup.To? ==> anonDup.id == p)
    requires remove.To? ==> remove.id in s && remove.id != p
    requires remove2.To? ==> remove.To? && remove2.id in s && remove2.id != p && remove2 != remove
    requires start < mm.slab[p].start || mm.slab[p].end < end
    requires Merged(mm.tree, s, Store(mm.tree, start, end, p),
                    s[p := Resize(mm.slab[p], start, end, pgoff)] - (Ids(remove) + Ids(remove2)), want)
    modifies mm`tree, mm`slab, mm`mapCount
    ensures ok == preallocOk
    ensures BranchDone(old(mm.tree), s, mm.tree, mm.slab, ok, want) && mm.mapCount == |mm.slab|
    ensures ok ==> p in mm.slab && mm.slab[p] == old(Resize(mm.slab[p], start, end, pgoff))
    ensures ok ==> mm.Now() == old(GrownOver(mm.tree, s, mm.nextId, p, Resize(mm.slab[p], start, end, pgoff),
                                             Ids(remove) + Ids(remove2)))
  {
    hide Merged, Store, Consistent, Seen, SameMarks, Ids, Resize, Adopted, Unlink, BranchDone, Override, WellFormed;
    ghost var t, s1, np := mm.tree, mm.slab, Resize(mm.slab[p], start, end, pgoff);
    ghost var dead := Ids(remove) + Ids(remove2);
    RemovedIds(s, p, remove, remove2);
    Resized(s[p], s1[p], start, end, pgoff, anonDup.To?);
    ok := Finish(mm, p, start, end, pgoff, Null, 0, remove, remove2, anonDup, preallocOk);
    GrowDone(t, s, s1, p, np, dead, mm.tree, mm.slab, ok, anonDup.To?, want);
  }

  lemma RemovedIds(s: Slab, p: VmaId, remove: Ref, remove2: Ref)
    requires remove.To? ==> remove.id in s && remove.id != p
    requires remove2.To? ==> remove2.id in s && remove2.id != p
    ensures p !in Ids(remove) + Ids(remove2) && Ids(remove) + Ids(remove2) <= s.Keys
  {
  }

  lemma Resized(v: Vma, w: Vma, start: int, end: int, pgoff: int, dup: bool)
    requires Adopted(v, w, dup)
    ensures var r := Resize(w, start, end, pgoff);
            r.start == start && r.end == end && r.pgoff == pgoff && r.detached == v.detached
  {
  }

  /** `v` has been given an anon_vma, or nothing has happened to it; `dup` says which. */
  predicate Adopted(v: Vma, w: Vma, dup: bool) {
    && w == v.(anonVma := w.anonVma, chain := w.chain)
    && (dup ==> w.anonVma.Some? && Unlink(w) == v)
    && (!dup ==> w == v)
  }

  /** The anon_vma part of cases 1 and 6. */
  method AdoptFromBoth(mm: Mm, prev: VmaId, curr: Ref, next: VmaId, want: Vma, cloneOk: bool)
    returns (ok: bool, anonDup: Ref)
    requires prev in mm.slab && next in mm.slab && prev != next
    requires curr.To? ==> curr.id in mm.slab && curr.id != prev && mm.slab[curr.id].anonVma == want.anonVma
    requires AnonAgree(mm.slab[prev].anonVma, mm.slab[next].anonVma)
    requires AnonAgree(mm.slab[prev].anonVma, want.anonVma) && AnonAgree(mm.slab[next].anonVma, want.anonVma)
    requires mm.slab[prev].anonVma.None? ==> mm.slab[prev].chain == []
    modifies mm`slab
    ensures ok <==> cloneOk || !old(NeedsDup(mm.slab[prev], mm.slab[next]) ||
                                      (curr.To? && NeedsDup(mm.slab[prev], mm.slab[curr.id])))
    ensures !ok ==> mm.slab == old(mm.slab)
    ensures ok ==> mm.slab.Keys == old(mm.slab).Keys && mm.slab == old(mm.slab)[prev := mm.slab[prev]]
    ensures ok ==> Adopted(old(mm.slab[prev]), mm.slab[prev], anonDup.To?) && (anonDup.To? ==> anonDup.id == prev)
    ensures ok ==> AnonInto(old(mm.slab[prev]), mm.slab[prev]) && AnonInto(mm.slab[next], mm.slab[prev])
    ensures ok && curr.To? ==> AnonInto(mm.slab[curr.id], mm.slab[prev])
    ensures ok ==> mm.slab[prev] == old(Adopt(mm.slab[prev], Donor(mm.slab, curr, next)))
  {
    ok, anonDup := DupAnonVma(mm, prev, next, cloneOk);
    if curr.To? && mm.slab[next].anonVma.None? {
      ok, anonDup := DupAnonVma(mm, prev, curr.id, cloneOk);
    }
  }

  /** The state after the common tail, for the cases where one area grows. */
  lemma GrowDone(t: Tree, s: Slab, s1: Slab, p: VmaId, np: Vma, dead: set<VmaId>,
                 t2: Tree, s2: Slab, ok: bool, dup: bool, want: Vma)
    requires p in s && p in s1 && s1 == s[p := s1[p]] && Adopted(s[p], s1[p], dup)
    requires p !in dead && dead <= s.Keys && np.detached == s[p].detached
    requires Merged(t, s, Store(t, np.start, np.end, p), s[p := np] - dead, want)
    requires ok ==> t2 == Store(t, np.start, np.end, p) && s2 == s1[p := np] - dead
    requires !ok ==> t2 == t && s2 == if dup then s1[p := Unlink(s1[p])] else s1
    ensures BranchDone(t, s, t2, s2, ok, want)
    ensures |s2| == |s| - if ok then |dead| else 0
    ensures ok ==> s2 == s[p := np] - dead && p in s2 && s2[p] == np
  {
    hide Merged, Store;
    assert s1[p := np] == s[p := np];
    GrowBookkeeping(s, p, np, dead);
    if !ok {
      assert s2 == s;
    }
  }

  lemma KnownWellFormed(t: Tree, s: Slab, id: VmaId)
    requires Consistent(t, s) && id in s
    ensures WellFormed(s[id])
  {
  }

  /** Resizing without moving the start, and adopting an anon_vma, keeps the kind. */
  lemma ResizeKind(v: Vma, adopted: Vma, np: Vma, want: Vma)
    requires SameKind(v, want)
    requires np == Resize(adopted, v.start, np.end, v.pgoff)
    requires adopted == v.(anonVma := adopted.anonVma, chain := adopted.chain)
    ensures SameKind(np, want)
  {
  }

  lemma GrowBookkeeping(s: Slab, p: VmaId, np: Vma, dead: set<VmaId>)
    requires p in s && p !in dead && dead <= s.Keys && np.detached == s[p].detached
    ensures SameMarks(s, s[p := np] - dead)
    ensures |s[p := np] - dead| == |s| - |dead|
    ensures (s[p := np] - dead).Keys == s.Keys - dead
  {
    assert s[p := np].Keys == s.Keys;
    RemoveSize(s[p := np], dead);
  }

  /** The state after the common tail, for the cases where a boundary shifts from `l` to `g`. */
  lemma ShiftDone(t: Tree, s: Slab, s1: Slab, g: VmaId, ng: Vma, l: VmaId, nl: Vma,
                  t2: Tree, s2: Slab, ok: bool, dup: bool, want: Vma)
    requires g in s && l in s && g != l && g in s1 && s1 == s[g := s1[g]] && Adopted(s[g], s1[g], dup)
    requires ng.detached == s[g].detached && nl.detached == s[l].detached
    requires Merged(t, s, Store(t, ng.start, ng.end, g), s[g := ng][l := nl], want)
    requires ok ==> t2 == Store(t, ng.start, ng.end, g)
    requires ok ==> s2 == s1[g := ng][l := nl] || s2 == s1[l := nl][g := ng]
    requires !ok ==> t2 == t && s2 == if dup then s1[g := Unlink(s1[g])] else s1
    ensures BranchDone(t, s, t2, s2, ok, want)
    ensures |s2| == |s|
    ensures ok ==> s2 == s[g := ng][l := nl]
  {
    hide Merged, Store;
    assert s1[g := ng][l := nl] == s[g := ng][l := nl];
    assert s1[l := nl][g := ng] == s[g := ng][l := nl];
    assert s[g := ng][l := nl].Keys == s.Keys;
    if !ok {
      assert s2 == s;
    }
  }

  /** The common tail for the cases where a boundary shifts: `vma` then ends at `end`, `adjust` starts `adjStart`
      further up, and `l` has lost to `g`. */
  method ShiftTail(mm: Mm, ghost s: Slab, vma: VmaId, end: int, adjust: VmaId, adjStart: int, anonDup: Ref, want: Vma,
                   preallocOk: bool, ghost g: VmaId, ghost ng: Vma, ghost l: VmaId, ghost nl: Vma)
    returns (ok: bool)
    requires vma in s && adjust in s && vma != adjust && mm.mapCount == |s|
    requires if 0 < adjStart then g == vma && l == adjust else adjStart < 0 && g == adjust && l == vma
    requires g in mm.slab && mm.slab == s[g := mm.slab[g]]
    requires Adopted(s[g], mm.slab[g], anonDup.To?) && (anonDup.To? ==> anonDup.id == g)
    requires 0 < adjStart <==> mm.slab[vma].end < end
    requires mm.slab[g := ng][l := nl][vma] == Resize(mm.slab[vma], mm.slab[vma].start, end, mm.slab[vma].pgoff)
    requires mm.slab[g := ng][l := nl][adjust] == Shift(mm.slab[adjust], adjStart)
    requires ng.detached == s[g].detached && nl.detached == s[l].detached
    requires 0 < adjStart ==> ng.start == mm.slab[vma].start && ng.end == end
    requires Merged(mm.tree, s, Store(mm.tree, ng.start, ng.end, g), s[g := ng][l := nl], want)
    modifies mm`tree, mm`slab, mm`mapCount
    ensures ok == preallocOk
    ensures BranchDone(old(mm.tree), s, mm.tree, mm.slab, ok, want) && mm.mapCount == |mm.slab|
    ensures ok ==> mm.Now() == old(Shifted(mm.tree, s, mm.nextId, g, ng, l, nl))
  {
    hide Merged, Store, Consistent, Seen, SameMarks, Resize, Shift, Adopted;
    ghost var t, s1 := mm.tree, mm.slab;
    ok := Finish(mm, vma, mm.slab[vma].start, end, mm.slab[vma].pgoff, To(adjust), adjStart, Null, Null, anonDup,
                 preallocOk);
    ShiftDone(t, s, s1, g, ng, l, nl, mm.tree, mm.slab, ok, anonDup.To?, want);
  }

  /** Case 5: the predecessor takes the lower part of the area that the request starts. */
  method MergeShiftUp(mm: Mm, prev: VmaId, curr: VmaId, want: Vma, cloneOk: bool, preallocOk: bool) returns (ok: bool)
    requires Consistent(mm.tree, mm.slab) && mm.mapCount == |mm.slab| && ValidRequest(want)
    requires prev in mm.slab && curr in mm.slab && prev != curr
    requires mm.slab[prev].end == want.start && SameKind(mm.slab[prev], want)
    requires mm.slab[curr].start == want.start && want.end < mm.slab[curr].end
    requires mm.slab[curr].anonVma == want.anonVma && AnonAgree(mm.slab[prev].anonVma, want.anonVma)
    modifies mm`tree, mm`slab, mm`mapCount
    ensures BranchDone(old(mm.tree), old(mm.slab), mm.tree, mm.slab, ok, want) && mm.mapCount == |mm.slab|
    ensures ok ==> prev in mm.slab && Covers(mm.slab[prev], want)
    ensures ok ==> mm.Now() == old(ShiftUpAfter(mm.Now(), prev, curr, want))
    ensures ok <==> preallocOk && (cloneOk || !old(NeedsDup(mm.slab[prev], mm.slab[curr])))
  {
    hide Consistent, Seen, Store, Override, Merged, SameKind, SameMarks, Resize, Shift, Covers, WellFormed;
    hide Adopt, Adopted, Unlink;
    ghost var t, s := mm.tree, mm.slab;
    KnownWellFormed(t, s, prev);
    KnownWellFormed(t, s, curr);
    var adjStart := want.end - mm.slab[curr].start;
    var anonDup;
    ok, anonDup := DupAnonVma(mm, prev, curr, cloneOk);
    if !ok {
      return;
    }
    ghost var s1 := mm.slab;
    ghost var ng, nl := Resize(s1[prev], s[prev].start, want.end, s[prev].pgoff), Shift(s[curr], adjStart);
    ShiftUpCase(t, s, s1, prev, curr, want);
    ok := ShiftTail(mm, s, prev, want.end, curr, adjStart, anonDup, want, preallocOk, prev, ng, curr, nl);
  }

  /** What case 5 does once the anon_vma has been adopted. */
  lemma ShiftUpCase(t: Tree, s: Slab, s1: Slab, prev: VmaId, curr: VmaId, want: Vma)
    requires Consistent(t, s) && ValidRequest(want) && prev in s && curr in s && prev != curr && prev in s1
    requires s[prev].end == want.start && SameKind(s[prev], want)
    requires s[curr].start == want.start && want.end < s[curr].end && s[curr].anonVma == want.anonVma
    requires AnonAgree(s[prev].anonVma, want.anonVma) && s1[prev] == Adopt(s[prev], s[curr])
    ensures var ng := Resize(s1[prev], s[prev].start, want.end, s[prev].pgoff);
            var nl := Shift(s[curr], want.end - s[curr].start);
            && Merged(t, s, Store(t, ng.start, ng.end, prev), s[prev := ng][curr := nl], want)
            && Covers(ng, want) && ng.start == s[prev].start && ng.end == want.end
            && ng.detached == s[prev].detached && nl.detached == s[curr].detached
  {
    hide Consistent, Store, Merged, SameKind;
    KnownWellFormed(t, s, prev);
    KnownWellFormed(t, s, curr);
    var ng := Resize(s1[prev], s[prev].start, want.end, s[prev].pgoff);
    var nl := Shift(s[curr], want.end - s[curr].start);
    ResizeKind(s[prev], s1[prev], ng, want);
    ShiftKind(s[curr], nl, want.end - s[curr].start);
    ShiftCase(t, s, prev, ng, curr, nl, want);
  }

  /** Cases 2 and 7: the predecessor grows over free space, or over the area that the request is. */
  method MergeUp(mm: Mm, prev: VmaId, curr: Ref, want: Vma, cloneOk: bool, preallocOk: bool) returns (ok: bool)
    requires Consistent(mm.tree, mm.slab) && mm.mapCount == |mm.slab| && ValidRequest(want)
    requires prev in mm.slab && mm.slab[prev].end == want.start && SameKind(mm.slab[prev], want)
    requires curr.Null? ==> Free(mm.tree, want.start, want.end)
    requires curr.To? ==> curr.id in mm.slab && curr.id != prev
    requires curr.To? ==> mm.slab[curr.id].start == want.start && mm.slab[curr.id].end == want.end
    requires curr.To? ==> mm.slab[curr.id].anonVma == want.anonVma
    requires AnonAgree(mm.slab[prev].anonVma, want.anonVma)
    modifies mm`tree, mm`slab, mm`mapCount
    ensures BranchDone(old(mm.tree), old(mm.slab), mm.tree, mm.slab, ok, want) && mm.mapCount == |mm.slab|
    ensures ok ==> prev in mm.slab && Covers(mm.slab[prev], want)
    ensures ok ==> mm.Now() == old(UpAfter(mm.Now(), prev, curr, want))
    ensures ok <==>
              && preallocOk && !old(curr.To? && mm.slab[curr.id].hasClose)
              && (cloneOk || !old(curr.To? && NeedsDup(mm.slab[prev], mm.slab[curr.id])))
  {
    hide Consistent, Seen, Store, Override, Merged, SameKind, SameMarks, GrownOver;
    ghost var t, s := mm.tree, mm.slab;
    KnownWellFormed(t, s, prev);
    var anonDup := Null;
    if curr.To? {
      if mm.slab[curr.id].hasClose {
        return false;
      }
      ok, anonDup := DupAnonVma(mm, prev, curr.id, cloneOk);
      if !ok {
        return;
      }
    }
    ghost var np := Resize(mm.slab[prev], s[prev].start, want.end, s[prev].pgoff);
    ResizeKind(s[prev], mm.slab[prev], np, want);
    assert Ids(curr) + Ids(Null) == Ids(curr);
    GrowCase(t, s, To(prev), curr, Null, prev, np, Ids(curr) + Ids(Null), want);
    ok := GrowTail(mm, s, prev, mm.slab[prev].start, want.end, mm.slab[prev].pgoff, curr, Null, anonDup, want,
                   preallocOk);
  }

  /** Cases 3 and 8: the successor grows down over free space, or over the area that the request is. */
  method MergeDown(mm: Mm, curr: Ref, next: VmaId, want: Vma, cloneOk: bool, preallocOk: bool) returns (ok: bool)
    requires Consistent(mm.tree, mm.slab) && mm.mapCount == |mm.slab| && ValidRequest(want)
    requires next in mm.slab && mm.slab[next].start == want.end && SameKind(mm.slab[next], want)
    requires curr.Null? ==> Free(mm.tree, want.start, want.end)
    requires curr.To? ==> curr.id in mm.slab && curr.id != next && Continues(mm.slab[curr.id], want)
    requires curr.To? ==> mm.slab[curr.id].start == want.start && mm.slab[curr.id].end == want.end
    requires AnonAgree(mm.slab[next].anonVma, want.anonVma)
    modifies mm`tree, mm`slab, mm`mapCount
    ensures BranchDone(old(mm.tree), old(mm.slab), mm.tree, mm.slab, ok, want) && mm.mapCount == |mm.slab|
    ensures ok ==> next in mm.slab && Covers(mm.slab[next], want)
    ensures ok ==> mm.Now() == old(DownAfter(mm.Now(), curr, next, want))
    ensures ok <==> preallocOk && (cloneOk || !old(curr.To? && NeedsDup(mm.slab[next], mm.slab[curr.id])))
  {
    hide Consistent, Seen, Store, Override, Merged, SameMarks, GrownOver;
    ghost var t, s := mm.tree, mm.slab;
    KnownWellFormed(t, s, next);
    var anonDup := Null;
    var vmaPgoff := mm.slab[next].pgoff - VmaPages(want);
    if curr.To? {
      vmaPgoff := mm.slab[curr.id].pgoff;
      ok, anonDup := DupAnonVma(mm, next, curr.id, cloneOk);
      if !ok {
        return;
      }
    }
    assert vmaPgoff == want.pgoff;
    ghost var np := Resize(mm.slab[next], want.start, s[next].end, vmaPgoff);
    assert Ids(curr) + Ids(Null) == Ids(curr);
    GrowCase(t, s, Null, curr, To(next), next, np, Ids(curr) + Ids(Null), want);
    ok := GrowTail(mm, s, next, want.start, mm.slab[next].end, vmaPgoff, curr, Null, anonDup, want, preallocOk);
  }

  /** Case 4: the successor takes the upper part of the predecessor. */
  method MergeShiftDown(mm: Mm, prev: VmaId, next: VmaId, want: Vma, cloneOk: bool, preallocOk: bool) returns (ok: bool)
    requires Consistent(mm.tree, mm.slab) && mm.mapCount == |mm.slab| && ValidRequest(want)
    requires prev in mm.slab && next in mm.slab && prev != next
    requires mm.slab[prev].start < want.start && mm.slab[prev].end == want.end
    requires mm.slab[next].start == want.end && SameKind(mm.slab[next], want)
    requires mm.slab[prev].anonVma == want.anonVma && AnonAgree(mm.slab[next].anonVma, want.anonVma)
    modifies mm`tree, mm`slab, mm`mapCount
    ensures BranchDone(old(mm.tree), old(mm.slab), mm.tree, mm.slab, ok, want) && mm.mapCount == |mm.slab|
    ensures ok ==> next in mm.slab && Covers(mm.slab[next], want)
    ensures ok ==> mm.Now() == old(ShiftDownAfter(mm.Now(), prev, next, want))
    ensures ok <==> preallocOk && (cloneOk || !old(NeedsDup(mm.slab[next], mm.slab[prev])))
  {
    hide Consistent, Seen, Store, Override, Merged, SameMarks, SameKind, Resize, Shift, Covers, WellFormed;
    hide Adopt, Adopted, Unlink;
    ghost var t, s := mm.tree, mm.slab;
    KnownWellFormed(t, s, prev);
    KnownWellFormed(t, s, next);
    var adjStart := -(mm.slab[prev].end - want.start);
    var anonDup;
    ok, anonDup := DupAnonVma(mm, next, prev, cloneOk);
    if !ok {
      return;
    }
    ghost var s1 := mm.slab;
    ghost var ng, nl := Shift(s1[next], adjStart), Resize(s[prev], s[prev].start, want.start, s[prev].pgoff);
    ShiftDownCase(t, s, s1, prev, next, want);
    ok := ShiftTail(mm, s, prev, want.start, next, adjStart, anonDup, want, preallocOk, next, ng, prev, nl);
  }

  /** What case 4 does once the anon_vma has been adopted. */
  lemma ShiftDownCase(t: Tree, s: Slab, s1: Slab, prev: VmaId, next: VmaId, want: Vma)
    requires Consistent(t, s) && ValidRequest(want) && prev in s && next in s && prev != next && next in s1
    requires s[prev].start < want.start && s[prev].end == want.end && s[prev].anonVma == want.anonVma
    requires s[next].start == want.end && SameKind(s[next], want)
    requires AnonAgree(s[next].anonVma, want.anonVma) && s1[next] == Adopt(s[next], s[prev])
    ensures var ng := Shift(s1[next], want.start - s[prev].end);
            var nl := Resize(s[prev], s[prev].start, want.start, s[prev].pgoff);
            && Merged(t, s, Store(t, ng.start, ng.end, next), s[next := ng][prev := nl], want)
            && Covers(ng, want) && ng.start == want.start && ng.end == s[next].end
            && ng.detached == s[next].detached && nl.detached == s[prev].detached
  {
    hide Consistent, Store, Merged, SameKind;
    KnownWellFormed(t, s, prev);
    KnownWellFormed(t, s, next);
    var ng := Shift(s1[next], want.start - s[prev].end);
    var nl := Resize(s[prev], s[prev].start, want.start, s[prev].pgoff);
    ShiftDownKinds(s[next], s1[next], ng, s[prev], nl, want.start - s[prev].end, want);
    ShiftCase(t, s, next, ng, prev, nl, want);
  }

  lemma ShiftDownKinds(next: Vma, adopted: Vma, ng: Vma, prev: Vma, nl: Vma, delta: int, want: Vma)
    requires SameKind(next, want) && ValidRequest(want) && next.start == want.end
    requires adopted == next.(anonVma := adopted.anonVma, chain := adopted.chain)
    requires ng == Shift(adopted, delta) && delta == want.start - want.end
    requires nl == Resize(prev, prev.start, nl.end, prev.pgoff)
    ensures SameKind(ng, want) && SameKind(nl, prev) && ng.pgoff == want.pgoff
  {
  }

  /** Moving the start by whole pages keeps the kind. */
  lemma ShiftKind(v: Vma, w: Vma, delta: int)
    requires w == Shift(v, delta) && Aligned(delta)
    ensures SameKind(w, v)
  {
  }

  /** The area covers the request and shows it to every address. */
  predicate Covers(v: Vma, want: Vma) {
    v.start <= want.start && want.end <= v.end && SameKind(v, want)
  }

  // ---------------------------------------------------------------- the whole operation

  ghost predicate JoinsPrev(s: Slab, prev: Ref, want: Vma) {
    && prev.To? && prev.id in s
    && s[prev.id].end == want.start && s[prev.id].policy == want.policy
    && CanMergeAfter(s[prev.id], want.flags, want.anonVma, want.file, want.pgoff, want.uffd, want.name)
  }

  ghost predicate JoinsNext(t: Tree, s: Slab, want: Vma) {
    && want.end in t && Owner(t, want.end) in s
    && var n := s[Owner(t, want.end)];
       && n.policy == want.policy
       && CanMergeBefore(n, want.flags, want.anonVma, want.file, want.pgoff + VmaPages(want), want.uffd, want.name)
  }

  /** An area that ends where the request starts and shows every address what the request shows; the anon_vmas are
      equal, or one is missing and the area was not cloned at a fork. */
  ghost predicate MeetsBelow(p: Vma, want: Vma) {
    && p.end == want.start && (forall a :: AttrAt(p, a) == AttrAt(want, a))
    && (p.anonVma == want.anonVma || ((p.anonVma.None? || want.anonVma.None?) && |p.chain| == 1))
  }

  /** The same on the other side, for an area that may go: it has no close operation. */
  ghost predicate MeetsAbove(n: Vma, want: Vma) {
    && n.start == want.end && !n.hasClose && (forall a :: AttrAt(n, a) == AttrAt(want, a))
    && (n.anonVma == want.anonVma || ((n.anonVma.None? || want.anonVma.None?) && |n.chain| == 1))
  }

  lemma AfterExact(p: Vma, want: Vma)
    requires WellFormed(p) && ValidRequest(want) && p.end == want.start
    ensures p.policy == want.policy
            && CanMergeAfter(p, want.flags, want.anonVma, want.file, want.pgoff, want.uffd, want.name)
            <==> MeetsBelow(p, want)
  {
    SameKindExact(p, want);
  }

  lemma BeforeExact(n: Vma, want: Vma)
    requires WellFormed(n) && ValidRequest(want) && n.start == want.end
    ensures n.policy == want.policy && CanMergeBefore(n, want.flags, want.anonVma, want.file,
                                                      want.pgoff + VmaPages(want), want.uffd, want.name)
            <==> MeetsAbove(n, want)
  {
    SameKindExact(n, want);
  }

  /** The one merge that is refused because the area it would remove has a close operation (case 7). */
  ghost predicate CloseRefused(t: Tree, s: Slab, prev: Ref, want: Vma) {
    && JoinsPrev(s, prev, want)
    && !(JoinsNext(t, s, want) && AnonAgree(s[prev.id].anonVma, s[Owner(t, want.end)].anonVma))
    && want.start in t && Owner(t, want.start) in s
    && s[Owner(t, want.start)].end == want.end && s[Owner(t, want.start)].hasClose
  }

  ghost predicate Mergeable(t: Tree, s: Slab, prev: Ref, want: Vma) {
    && !IsSpecial(want.flags)
    && (JoinsPrev(s, prev, want) || JoinsNext(t, s, want))
    && !CloseRefused(t, s, prev, want)
  }

  /** The area that takes the pages over has no anon_vma, and an area it takes pages from has one. */
  ghost predicate NeedsClone(t: Tree, s: Slab, prev: Ref, want: Vma) {
    if JoinsPrev(s, prev, want) then
      && s[prev.id].anonVma.None?
      && (|| (want.start in t && want.anonVma.Some?)
          || (JoinsNext(t, s, want) && s[Owner(t, want.end)].anonVma.Some?))
    else
      JoinsNext(t, s, want) && s[Owner(t, want.end)].anonVma.None? && want.start in t && want.anonVma.Some?
  }

  /** What the tests of `vma_merge` establish about the areas it found. */
  lemma MergeFacts(t: Tree, s: Slab, prev: Ref, curr: Ref, next: Ref, want: Vma)
    requires Consistent(t, s) && Callable(t, s, prev, want) && Around(t, s, prev, curr, next, want)
    requires curr.Null? || want.end == s[curr.id].end ==> next == if want.end in t then To(Owner(t, want.end)) else Null
    requires curr.To? && want.end != s[curr.id].end ==> next.Null?
    ensures JoinsPrev(s, prev, want) ==> SameKind(s[prev.id], want) && AnonAgree(s[prev.id].anonVma, want.anonVma)
    ensures JoinsNext(t, s, want) ==>
              && next == To(Owner(t, want.end)) && next != prev && s[next.id].start == want.end
              && SameKind(s[next.id], want) && AnonAgree(s[next.id].anonVma, want.anonVma)
    ensures curr.To? ==> want.start in t && Owner(t, want.start) == curr.id
    ensures curr.Null? && Above(s, prev) <= want.start ==> want.start !in t
    ensures prev.To? && want.start < s[prev.id].end ==> want.start in t
    ensures JoinsNext(t, s, want) && prev.To? && want.start < s[prev.id].end ==> s[prev.id].end == want.end
  {
    if JoinsPrev(s, prev, want) {
      MergeAfterIsLinear(s[prev.id], want);
    }
    assert curr.To? ==> Holds(s[curr.id], want.start);
    assert prev.To? && want.start < s[prev.id].end ==> Holds(s[prev.id], want.start);
    if JoinsNext(t, s, want) {
      var n := Owner(t, want.end);
      assert Holds(s[n], want.end);
      assert curr.To? && want.end < s[curr.id].end ==> Holds(s[curr.id], want.end);
      if prev.To? && want.start < Above(s, prev) {
        NotBelowItself(s, prev.id, want);
        assert want.end < s[prev.id].end ==> Holds(s[prev.id], want.end);
      }
      MergeBeforeIsLinear(s[n], want);
    }
  }

  /** Which areas the tests accept, of all there are: exactly those that meet the request. */
  lemma JoinsExact(t: Tree, s: Slab, prev: Ref, want: Vma)
    requires Consistent(t, s) && Callable(t, s, prev, want)
    ensures JoinsPrev(s, prev, want) <==> prev.To? && MeetsBelow(s[prev.id], want)
    ensures JoinsNext(t, s, want) <==> exists id | id in s :: MeetsAbove(s[id], want)
  {
    hide SameKind;
    var at := First(t, Above(s, prev), want.end);
    var curr := if at.Some? then To(Owner(t, at.value)) else Null;
    var next := if (curr.Null? || want.end == s[curr.id].end) && want.end in t then To(Owner(t, want.end)) else Null;
    FindAround(t, s, prev, curr, next, want);
    MergeFacts(t, s, prev, curr, next, want);
    if prev.To? && s[prev.id].end == want.start {
      KnownWellFormed(t, s, prev.id);
      AfterExact(s[prev.id], want);
    }
    forall id | id in s && s[id].start == want.end
      ensures want.end in t && Owner(t, want.end) == id && (JoinsNext(t, s, want) <==> MeetsAbove(s[id], want))
    {
      KnownWellFormed(t, s, id);
      assert Holds(s[id], want.end);
      BeforeExact(s[id], want);
    }
  }

  /** A request is mergeable if and only if it has none of the special flags, an area on one side meets it, and
      the merge would not remove an area with a close operation in the middle. */
  lemma MergeableExact(t: Tree, s: Slab, prev: Ref, want: Vma)
    requires Consistent(t, s) && Callable(t, s, prev, want)
    ensures Mergeable(t, s, prev, want) <==>
              && want.flags !! {Io, DontExpand, PfnMap, MixedMap}
              && ((prev.To? && MeetsBelow(s[prev.id], want)) || exists id | id in s :: MeetsAbove(s[id], want))
              && !(exists id | id in s :: BlocksMerge(s, prev, want, id))
  {
    hide Consistent, Callable, MeetsBelow, MeetsAbove, JoinsPrev, JoinsNext, IsSpecial;
    SpecialExact(want.flags);
    JoinsExact(t, s, prev, want);
    BlockExact(t, s, prev, want);
  }

  /** The request is the whole of area `id`, which has a close operation, the area below takes it over, and no area
      above joins in. */
  ghost predicate BlocksMerge(s: Slab, prev: Ref, want: Vma, id: VmaId)
    requires id in s && (prev.To? ==> prev.id in s)
  {
    && s[id].start == want.start && s[id].end == want.end && s[id].hasClose
    && prev.To? && MeetsBelow(s[prev.id], want)
    && forall n | n in s && MeetsAbove(s[n], want) ::
         s[n].anonVma.Some? && s[prev.id].anonVma.Some? && s[n].anonVma != s[prev.id].anonVma
  }

  lemma BlockExact(t: Tree, s: Slab, prev: Ref, want: Vma)
    requires Consistent(t, s) && Callable(t, s, prev, want)
    ensures CloseRefused(t, s, prev, want) <==> exists id | id in s :: BlocksMerge(s, prev, want, id)
  {
    hide JoinsPrev, JoinsNext;
    JoinsExact(t, s, prev, want);
    forall id | id in s && s[id].start == want.start
      ensures want.start in t && Owner(t, want.start) == id
    {
      KnownWellFormed(t, s, id);
      assert Holds(s[id], want.start);
    }
    forall id | id in s && s[id].start == want.end
      ensures want.end in t && Owner(t, want.end) == id
    {
      KnownWellFormed(t, s, id);
      assert Holds(s[id], want.end);
    }
    if CloseRefused(t, s, prev, want) {
      var id := Owner(t, want.start);
      assert CoversStart(s, id, want);
      assert BlocksMerge(s, prev, want, id);
    }
  }

  /** The facts the case distinction of `vma_merge` starts from. */
  ghost predicate Ready(t: Tree, s: Slab, prev: Ref, curr: Ref, next: Ref, want: Vma, mergePrev: bool,
                        mergeNext: bool) {
    && Consistent(t, s) && ValidRequest(want)
    && (prev.To? ==> prev.id in s && s[prev.id].start < want.start)
    && (prev.To? && want.start < s[prev.id].end ==> s[prev.id].anonVma == want.anonVma)
    && (curr.To? ==> CoversStart(s, curr.id, want) && curr != prev && curr != next && Above(s, prev) <= want.start)
    && (curr.Null? ==> Free(t, Above(s, prev), want.end))
    && (mergePrev ==> prev.To? && s[prev.id].end == want.start)
    && (mergePrev ==> SameKind(s[prev.id], want) && AnonAgree(s[prev.id].anonVma, want.anonVma))
    && (mergeNext ==> next.To? && next != prev && next.id in s && s[next.id].start == want.end)
    && (mergeNext ==> SameKind(s[next.id], want) && AnonAgree(s[next.id].anonVma, want.anonVma))
    && (mergeNext && curr.To? ==> s[curr.id].end == want.end)
    && (mergeNext && prev.To? && want.start < s[prev.id].end ==> s[prev.id].end == want.end)
  }

  /** Case 7 with a close operation, in the terms of the case distinction. */
  ghost predicate CloseCase(s: Slab, prev: Ref, curr: Ref, next: Ref, want: Vma, mergePrev: bool, mergeNext: bool) {
    && mergePrev && prev.To? && prev.id in s
    && !(mergeNext && next.To? && next.id in s && AnonAgree(s[prev.id].anonVma, s[next.id].anonVma))
    && curr.To? && curr.id in s && s[curr.id].end == want.end && s[curr.id].hasClose
  }

  /** The same for the need of a clone. */
  ghost predicate CloneCase(s: Slab, prev: Ref, curr: Ref, next: Ref, want: Vma, mergePrev: bool, mergeNext: bool) {
    if mergePrev then
      && prev.To? && prev.id in s && s[prev.id].anonVma.None?
      && (|| (curr.To? && want.anonVma.Some?)
          || (mergeNext && next.To? && next.id in s && s[next.id].anonVma.Some?))
    else
      && next.To? && next.id in s && s[next.id].anonVma.None? && want.anonVma.Some?
      && (curr.To? || (prev.To? && prev.id in s && want.start < s[prev.id].end))
  }

  /** The areas after the case that applies. */
  ghost function CaseAfter(x: Space, prev: Ref, curr: Ref, next: Ref, want: Vma, mergePrev: bool,
                           mergeNext: bool): Space
    requires prev.To? ==> prev.id in x.slab
    requires curr.To? ==> curr.id in x.slab
    requires (mergePrev ==> prev.To?) && (mergeNext ==> next.To? && next.id in x.slab)
  {
    if mergePrev && mergeNext && AnonAgree(x.slab[prev.id].anonVma, x.slab[next.id].anonVma) then
      BothAfter(x, prev.id, curr, next.id)
    else if mergePrev then
      if curr.To? && want.end < x.slab[curr.id].end then ShiftUpAfter(x, prev.id, curr.id, want)
      else UpAfter(x, prev.id, curr, want)
    else if mergeNext then
      if prev.To? && want.start < x.slab[prev.id].end then ShiftDownAfter(x, prev.id, next.id, want)
      else DownAfter(x, curr, next.id, want)
    else x
  }

  /** The areas after a successful merge: the area the request starts, if it is not the one before, and the area
      above take part. */
  ghost function MergeAfter(x: Space, prev: Ref, want: Vma): Space
    requires prev.To? ==> prev.id in x.slab
  {
    var inside := prev.To? && want.start < x.slab[prev.id].end;
    var curr := if !inside && want.start in x.tree && Owner(x.tree, want.start) in x.slab
                then To(Owner(x.tree, want.start)) else Null;
    var next := if want.end in x.tree && Owner(x.tree, want.end) in x.slab then To(Owner(x.tree, want.end)) else Null;
    CaseAfter(x, prev, curr, next, want, JoinsPrev(x.slab, prev, want), JoinsNext(x.tree, x.slab, want))
  }

  /** The area that covers the request afterwards. */
  ghost function MergedInto(x: Space, prev: Ref, want: Vma): Ref {
    if JoinsPrev(x.slab, prev, want) then prev
    else if want.end in x.tree then To(Owner(x.tree, want.end)) else Null
  }

  lemma SameCase(x: Space, prev: Ref, curr: Ref, next: Ref, want: Vma)
    requires Consistent(x.tree, x.slab) && Callable(x.tree, x.slab, prev, want)
    requires Around(x.tree, x.slab, prev, curr, next, want)
    requires curr.Null? || want.end == x.slab[curr.id].end ==>
        next == if want.end in x.tree then To(Owner(x.tree, want.end)) else Null
    requires curr.To? && want.end != x.slab[curr.id].end ==> next.Null?
    ensures var p, n := JoinsPrev(x.slab, prev, want), JoinsNext(x.tree, x.slab, want);
            && (n ==> next.To?)
            && CaseAfter(x, prev, curr, next, want, p, n) == MergeAfter(x, prev, want)
  {
    hide CanMergeAfter, CanMergeBefore, SameKind, AnonAgree;
    hide BothAfter, UpAfter, DownAfter, ShiftUpAfter, ShiftDownAfter;
    MergeFacts(x.tree, x.slab, prev, curr, next, want);
  }

  /** The case distinction of `vma_merge`. */
  method Dispatch(mm: Mm, prev: Ref, curr: Ref, next: Ref, want: Vma, mergePrev: bool, mergeNext: bool,
                  cloneOk: bool, preallocOk: bool) returns (ok: bool, res: Ref)
    requires Ready(mm.tree, mm.slab, prev, curr, next, want, mergePrev, mergeNext) && mm.mapCount == |mm.slab|
    requires mergePrev || mergeNext
    modifies mm`tree, mm`slab, mm`mapCount
    ensures BranchDone(old(mm.tree), old(mm.slab), mm.tree, mm.slab, ok, want) && mm.mapCount == |mm.slab|
    ensures ok ==> res.To? && res.id in mm.slab && Covers(mm.slab[res.id], want)
    ensures ok ==> res == if mergePrev then prev else next
    ensures ok ==> mm.Now() == old(CaseAfter(mm.Now(), prev, curr, next, want, mergePrev, mergeNext))
    ensures ok <==>
              && preallocOk && !CloseCase(old(mm.slab), prev, curr, next, want, mergePrev, mergeNext)
              && (cloneOk || !CloneCase(old(mm.slab), prev, curr, next, want, mergePrev, mergeNext))
  {
    hide Consistent, BranchDone, SameKind, WellFormed, Covers;
    hide BothAfter, UpAfter, DownAfter, ShiftUpAfter, ShiftDownAfter;
    if mergePrev && mergeNext && AnonAgree(mm.slab[prev.id].anonVma, mm.slab[next.id].anonVma) {
      ok := MergeBoth(mm, prev.id, curr, next.id, want, cloneOk, preallocOk);
      res := prev;
    } else if mergePrev {
      if curr.To? && want.end < mm.slab[curr.id].end {
        ok := MergeShiftUp(mm, prev.id, curr.id, want, cloneOk, preallocOk);
      } else {
        ok := MergeUp(mm, prev.id, curr, want, cloneOk, preallocOk);
      }
      res := prev;
    } else {
      if prev.To? && want.start < mm.slab[prev.id].end {
        ok := MergeShiftDown(mm, prev.id, next.id, want, cloneOk, preallocOk);
      } else {
        ok := MergeDown(mm, curr, next.id, want, cloneOk, preallocOk);
      }
      res := next;
    }
  }

  /** `vma_merge`.  `cloneOk` and `preallocOk` say whether the anon_vma clone and the tree
      reservation would succeed. */
  method VmaMerge(mm: Mm, prev: Ref, want: Vma, cloneOk: bool, preallocOk: bool) returns (res: Ref)
    requires mm.Shaped() && Callable(mm.tree, mm.slab, prev, want)
    modifies mm`tree, mm`slab, mm`mapCount
    ensures mm.Shaped()
    ensures res.Null? ==> unchanged(mm)
    ensures res.To? ==> Merged(old(mm.tree), old(mm.slab), mm.tree, mm.slab, want)
    ensures res.To? ==> res.id in mm.slab && Covers(mm.slab[res.id], want)
    ensures SameMarks(old(mm.slab), mm.slab) && mm.mapCount <= old(mm.mapCount)
    ensures res.To? ==> mm.Now() == old(MergeAfter(mm.Now(), prev, want))
    ensures res.To? ==> res == old(MergedInto(mm.Now(), prev, want))
    ensures res.To? <==>
              && preallocOk && old(Mergeable(mm.tree, mm.slab, prev, want))
              && (cloneOk || !old(NeedsClone(mm.tree, mm.slab, prev, want)))
  {
    hide Consistent, Merged, SameKind, Callable, CloseCase, CloseRefused, CloneCase, NeedsClone, Ready, Covers;
    hide CaseAfter, MergeAfter;
    ghost var t, s, x := mm.tree, mm.slab, mm.Now();
    res := Null;
    if IsSpecial(want.flags) {
      return;
    }
    CallableFacts(t, s, prev, want);
    var at := First(mm.tree, Above(mm.slab, prev), want.end);
    var curr, next := Null, Null;
    if at.Some? {
      curr := To(Owner(mm.tree, at.value));
      assert Owner(mm.tree, at.value) in mm.slab;
    }
    if curr.Null? || want.end == mm.slab[curr.id].end {
      if want.end in mm.tree {
        next := To(Owner(mm.tree, want.end));
      }
    }
    var mergePrev := prev.To? && want.start == mm.slab[prev.id].end && mm.slab[prev.id].policy == want.policy
      && CanMergeAfter(mm.slab[prev.id], want.flags, want.anonVma, want.file, want.pgoff, want.uffd, want.name);
    var mergeNext := next.To? && want.policy == mm.slab[next.id].policy
      && CanMergeBefore(mm.slab[next.id], want.flags, want.anonVma, want.file, want.pgoff + VmaPages(want), want.uffd,
                        want.name);
    GetReady(x, prev, curr, next, want, mergePrev, mergeNext);
    if !mergePrev && !mergeNext {
      return;
    }
    var ok;
    ok, res := Dispatch(mm, prev, curr, next, want, mergePrev, mergeNext, cloneOk, preallocOk);
    if ok {
      MergedShape(t, s, mm.tree, mm.slab, want);
    } else {
      res := Null;
    }
  }

  lemma CallableFacts(t: Tree, s: Slab, prev: Ref, want: Vma)
    requires Consistent(t, s) && Callable(t, s, prev, want)
    ensures prev.To? ==> prev.id in s
    ensures TreeSound(t, s)
  {
  }

  lemma GetReady(x: Space, prev: Ref, curr: Ref, next: Ref, want: Vma, mergePrev: bool, mergeNext: bool)
    requires Consistent(x.tree, x.slab) && Callable(x.tree, x.slab, prev, want)
    requires curr == var at := First(x.tree, Above(x.slab, prev), want.end);
                     if at.Some? then To(Owner(x.tree, at.value)) else Null
    requires curr.To? ==> curr.id in x.slab
    requires next == if (curr.Null? || want.end == x.slab[curr.id].end) && want.end in x.tree
                     then To(Owner(x.tree, want.end)) else Null
    requires next.To? ==> next.id in x.slab
    requires mergePrev == (prev.To? && want.start == x.slab[prev.id].end && x.slab[prev.id].policy == want.policy
      && CanMergeAfter(x.slab[prev.id], want.flags, want.anonVma, want.file, want.pgoff, want.uffd, want.name))
    requires mergeNext == (next.To? && want.policy == x.slab[next.id].policy
      && CanMergeBefore(x.slab[next.id], want.flags, want.anonVma, want.file, want.pgoff + VmaPages(want), want.uffd,
                        want.name))
    ensures Ready(x.tree, x.slab, prev, curr, next, want, mergePrev, mergeNext)
    ensures mergePrev == JoinsPrev(x.slab, prev, want) && mergeNext == JoinsNext(x.tree, x.slab, want)
    ensures CloseCase(x.slab, prev, curr, next, want, mergePrev, mergeNext) == CloseRefused(x.tree, x.slab, prev, want)
    ensures mergePrev || mergeNext ==>
              CloneCase(x.slab, prev, curr, next, want, mergePrev, mergeNext) == NeedsClone(x.tree, x.slab, prev, want)
    ensures CaseAfter(x, prev, curr, next, want, mergePrev, mergeNext) == MergeAfter(x, prev, want)
  {
    hide CanMergeAfter, CanMergeBefore, SameKind, Consistent, WellFormed, IsMergeableAnon, CaseAfter, MergeAfter;
    FindAround(x.tree, x.slab, prev, curr, next, want);
    MergeFacts(x.tree, x.slab, prev, curr, next, want);
    SameCase(x, prev, curr, next, want);
  }

  lemma MergedShape(t: Tree, s: Slab, t': Tree, s': Slab, want: Vma)
    requires Merged(t, s, t', s', want) && SameMarks(s, s')
    ensures Consistent(t', s') && |s'| <= |s|
  {
    SubsetSize(s'.Keys, s.Keys);
  }
}
