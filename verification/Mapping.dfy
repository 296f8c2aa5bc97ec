/** Laying a new mapping over a range (`vma_expand`, `mmap_region`). */
module Mapping {
  import opened Pages
  import opened Vmas
  import opened Trees
  import opened AddressSpaces
  import opened Reshaping
  import opened MergeCases
  import opened Merging
  import opened Unmapping
  import opened Counting

  /** Does `vma_expand` swallow `next`? */
  predicate Swallows(s: Slab, vma: VmaId, end: int, next: Ref)
    requires next.To? ==> next.id in s
  {
    next.To? && next.id != vma && s[next.id].end == end
  }

  function SwallowSet(s: Slab, vma: VmaId, end: int, next: Ref): set<VmaId>
    requires next.To? ==> next.id in s
  {
    if Swallows(s, vma, end, next) then {next.id} else {}
  }

  /** The expanded area, with the anon_vma of what it swallows. */
  function Joined(s: Slab, vma: VmaId, end: int, next: Ref): Vma
    requires vma in s && (next.To? ==> next.id in s)
  {
    if Swallows(s, vma, end, next) then Adopt(s[vma], s[next.id]) else s[vma]
  }

  /** `vma_expand`. */
  method VmaExpand(mm: Mm, vma: VmaId, start: int, end: int, pgoff: int, next: Ref, cloneOk: bool, preallocOk: bool)
    returns (ok: bool)
    requires vma in mm.slab && (next.To? ==> next.id in mm.slab)
    requires mm.slab[vma].anonVma.None? ==> mm.slab[vma].chain == []
    modifies mm`tree, mm`slab, mm`mapCount
    ensures !ok ==> mm.tree == old(mm.tree) && mm.slab == old(mm.slab) && mm.mapCount == old(mm.mapCount)
    ensures ok ==> mm.tree == Store(old(mm.tree), start, end, vma)
    ensures ok ==> mm.slab == old(mm.slab[vma := Resize(Joined(mm.slab, vma, end, next), start, end, pgoff)])
                              - old(SwallowSet(mm.slab, vma, end, next))
    ensures ok ==> mm.mapCount == old(mm.mapCount) - |old(SwallowSet(mm.slab, vma, end, next))|
    ensures ok <==> preallocOk && (cloneOk || !old(Swallows(mm.slab, vma, end, next)
                                                   && NeedsDup(mm.slab[vma], mm.slab[next.id])))
  {
    hide Store;
    var anonDup, removeNext := Null, false;
    if next.To? && next.id != vma && mm.slab[next.id].end == end {
      removeNext := true;
      ok, anonDup := DupAnonVma(mm, vma, next.id, cloneOk);
      if !ok {
        return;
      }
    }
    ok := preallocOk;                               // vma_iter_prealloc
    if !ok {
      if anonDup.To? {
        mm.slab := mm.slab[anonDup.id := Unlink(mm.slab[anonDup.id])];
      }
      return;
    }
    mm.slab := mm.slab[vma := Resize(mm.slab[vma], start, end, pgoff)];
    mm.tree := Store(mm.tree, start, end, vma);
    if removeNext {                                 // vma_complete
      mm.slab := mm.slab - {next.id};
      mm.mapCount := mm.mapCount - 1;
    }
  }

  // ---------------------------------------------------------------- expanding a neighbour

  predicate UpperJoins(n: Option<Vma>, want: Vma) {
    && n.Some? && n.value.start == want.end && n.value.policy.None?
    && CanMergeBefore(n.value, want.flags, None, want.file, want.pgoff + VmaPages(want), None, None)
  }

  predicate LowerJoins(p: Option<Vma>, n: Option<Vma>, want: Vma) {
    && p.Some? && p.value.end == want.start && p.value.policy.None?
    && (if UpperJoins(n, want)
        then CanMergeAfter(p.value, want.flags, n.value.anonVma, want.file, want.pgoff, n.value.uffd, None)
        else CanMergeAfter(p.value, want.flags, None, want.file, want.pgoff, None, None))
  }

  predicate NextJoins(s: Slab, next: Ref, want: Vma)
    requires next.To? ==> next.id in s
  {
    next.To? && UpperJoins(Some(s[next.id]), want)
  }

  predicate PrevJoins(s: Slab, prev: Ref, next: Ref, want: Vma)
    requires prev.To? ==> prev.id in s
    requires next.To? ==> next.id in s
  {
    prev.To? && LowerJoins(Some(s[prev.id]), if next.To? then Some(s[next.id]) else None, want)
  }

  /** A request as `mmap_region` makes it: no policy, no userfaultfd context, no name. */
  predicate PlainRequest(want: Vma) {
    && ValidRequest(want)
    && want.policy.None? && want.uffd.None? && want.name.None?
    && want.anonVma.None? && want.chain == [] && !want.detached
  }

  /** `prev` and `next` are areas below and above a free range. */
  ghost predicate Flanks(t: Tree, s: Slab, prev: Ref, next: Ref, want: Vma) {
    && Free(t, want.start, want.end)
    && (prev.To? ==> prev.id in s && s[prev.id].end <= want.start)
    && (next.To? ==> next.id in s && want.end <= s[next.id].start)
  }

  /** The neighbour that grows: the one below if both could. */
  function Grows(s: Slab, prev: Ref, next: Ref, want: Vma): Ref
    requires prev.To? ==> prev.id in s
    requires next.To? ==> next.id in s
  {
    if PrevJoins(s, prev, next, want) then prev else if NextJoins(s, next, want) then next else Null
  }

  /** The areas once a neighbour has grown over the request. */
  ghost function ExpandAfter(x: Space, prev: Ref, next: Ref, want: Vma): Space
    requires prev.To? ==> prev.id in x.slab
    requires next.To? ==> next.id in x.slab
  {
    var vma := Grows(x.slab, prev, next, want);
    if vma.Null? then x
    else
      var np := Grown(x.slab, prev, next, want, vma.id);
      Space(Store(x.tree, np.start, np.end, vma.id),
            x.slab[vma.id := np] - SwallowSet(x.slab, vma.id, np.end, next), x.next)
  }

  /** The attempt of `mmap_region` to grow a neighbour over the new range. */
  method TryExpand(mm: Mm, prev: Ref, next: Ref, want: Vma, cloneOk: bool, preallocOk: bool) returns (res: Ref)
    requires mm.Shaped() && PlainRequest(want) && Flanks(mm.tree, mm.slab, prev, next, want)
    modifies mm`tree, mm`slab, mm`mapCount
    ensures res.Null? ==> unchanged(mm)
    ensures res.To? ==> mm.Shaped() && res.id in mm.slab && Covers(mm.slab[res.id], want)
    ensures res.To? ==> Merged(old(mm.tree), old(mm.slab), mm.tree, mm.slab, want)
    ensures res.To? ==> SameMarks(old(mm.slab), mm.slab)
    ensures res.To? ==> res == old(Grows(mm.slab, prev, next, want))
    ensures res.To? ==> mm.Now() == old(ExpandAfter(mm.Now(), prev, next, want))
    ensures res.To? <==>
              && preallocOk && old(NextJoins(mm.slab, next, want) || PrevJoins(mm.slab, prev, next, want))
              && (cloneOk || !old(NextJoins(mm.slab, next, want) && PrevJoins(mm.slab, prev, next, want)
                                  && NeedsDup(mm.slab[prev.id], mm.slab[next.id])))
  {
    hide Consistent, Store, Merged, Flanks, SameMarks, WellFormed, Covers, NextJoins, PrevJoins, VmaPages;
    hide Resize, Joined, SwallowSet, Swallows, Grown;
    ghost var t, s := mm.tree, mm.slab;
    var mergeStart, mergeEnd, vmPgoff := want.start, want.end, 0;
    FlankIds(t, s, prev, next, want);
    JoinsWhom(s, prev, next, want);
    var vma := Null;
    if NextJoins(mm.slab, next, want) {
      mergeEnd := mm.slab[next.id].end;
      vma := next;
      vmPgoff := mm.slab[next.id].pgoff - VmaPages(want);
    }
    if PrevJoins(mm.slab, prev, next, want) {
      mergeStart := mm.slab[prev.id].start;
      vma := prev;
      vmPgoff := mm.slab[prev.id].pgoff;
    }
    res := Null;
    if vma.To? {
      ExpandDone(t, s, prev, next, want, vma.id, mergeStart, mergeEnd, vmPgoff);
      var ok := VmaExpand(mm, vma.id, mergeStart, mergeEnd, vmPgoff, next, cloneOk, preallocOk);
      if ok {
        res := vma;
      }
    }
  }

  lemma JoinsWhom(s: Slab, prev: Ref, next: Ref, want: Vma)
    requires prev.To? ==> prev.id in s
    requires next.To? ==> next.id in s
    ensures NextJoins(s, next, want) ==> next.To?
    ensures PrevJoins(s, prev, next, want) ==> prev.To?
  {
  }

  lemma FlankIds(t: Tree, s: Slab, prev: Ref, next: Ref, want: Vma)
    requires Consistent(t, s) && Flanks(t, s, prev, next, want) && want.start < want.end
    ensures prev.To? ==> prev.id in s && (s[prev.id].anonVma.None? ==> s[prev.id].chain == [])
    ensures next.To? ==> next.id in s && (s[next.id].anonVma.None? ==> s[next.id].chain == [])
    ensures prev.To? && next.To? ==> prev != next
    ensures next.To? ==> want.end < s[next.id].end
  {
    assert prev.To? ==> WellFormed(s[prev.id]);
    assert next.To? ==> WellFormed(s[next.id]);
  }

  /** The neighbour that is grown, as it will be. */
  function Grown(s: Slab, prev: Ref, next: Ref, want: Vma, vma: VmaId): Vma
    requires prev.To? ==> prev.id in s
    requires next.To? ==> next.id in s
    requires vma in s
  {
    var lower, upper := PrevJoins(s, prev, next, want), NextJoins(s, next, want);
    Resize(if lower && upper then Adopt(s[vma], s[next.id]) else s[vma],
           if lower then s[prev.id].start else want.start,
           if upper then s[next.id].end else want.end,
           if lower then s[prev.id].pgoff else want.pgoff)
  }

  /** Growing the chosen neighbour is a merge with the request. */
  lemma ExpandMerges(t: Tree, s: Slab, prev: Ref, next: Ref, want: Vma, vma: VmaId)
    requires Consistent(t, s) && PlainRequest(want) && Flanks(t, s, prev, next, want)
    requires NextJoins(s, next, want) || PrevJoins(s, prev, next, want)
    requires To(vma) == if PrevJoins(s, prev, next, want) then prev else next
    ensures var np := Grown(s, prev, next, want, vma);
            var dead := SwallowSet(s, vma, np.end, next);
            var t', s' := Store(t, np.start, np.end, vma), s[vma := np] - dead;
            && Merged(t, s, t', s', want) && SameMarks(s, s') && Consistent(t', s')
            && |s'| == |s| - |dead| && vma in s' && Covers(s'[vma], want)
  {
    hide Consistent, SameKind, WellFormed, Merged, Store, SameMarks, NextJoins, PrevJoins;
    FlankIds(t, s, prev, next, want);
    var lower, upper := PrevJoins(s, prev, next, want), NextJoins(s, next, want);
    var np := Grown(s, prev, next, want, vma);
    GrownFacts(t, s, prev, next, want, vma);
    var below, above := if lower then prev else Null, if upper then next else Null;
    var dead := SwallowSet(s, vma, np.end, next);
    assert dead == Ids(below) + Ids(Null) + Ids(above) - {vma};
    GrowCase(t, s, below, Null, above, vma, np, dead, want);
    MergedParts(t, s, Store(t, np.start, np.end, vma), s[vma := np] - dead, want);
    GrowBookkeeping(s, vma, np, dead);
  }

  /** The same for the bounds as `mmap_region` computes them. */
  lemma ExpandDone(t: Tree, s: Slab, prev: Ref, next: Ref, want: Vma, vma: VmaId, start: int, end: int, pgoff: int)
    requires Consistent(t, s) && PlainRequest(want) && Flanks(t, s, prev, next, want)
    requires NextJoins(s, next, want) || PrevJoins(s, prev, next, want)
    requires To(vma) == if PrevJoins(s, prev, next, want) then prev else next
    requires start == if PrevJoins(s, prev, next, want) then s[prev.id].start else want.start
    requires end == if NextJoins(s, next, want) then s[next.id].end else want.end
    requires pgoff == if PrevJoins(s, prev, next, want) then s[prev.id].pgoff else s[next.id].pgoff - VmaPages(want)
    ensures Swallows(s, vma, end, next) <==> PrevJoins(s, prev, next, want) && NextJoins(s, next, want)
    ensures vma in s && (s[vma].anonVma.None? ==> s[vma].chain == [])
    ensures var np := Grown(s, prev, next, want, vma);
            np == Resize(Joined(s, vma, end, next), start, end, pgoff) && np.start == start && np.end == end
    ensures var dead := SwallowSet(s, vma, end, next);
            var t', s' := Store(t, start, end, vma), s[vma := Resize(Joined(s, vma, end, next), start, end,
                                                                     pgoff)] - dead;
            && Merged(t, s, t', s', want) && SameMarks(s, s') && Consistent(t', s')
            && |s'| == |s| - |dead| && vma in s' && Covers(s'[vma], want)
  {
    hide Consistent, SameKind, WellFormed, Merged, Store, SameMarks, NextJoins, PrevJoins, Covers;
    FlankIds(t, s, prev, next, want);
    GrownFacts(t, s, prev, next, want, vma);
    ExpandMerges(t, s, prev, next, want, vma);
    assert Grown(s, prev, next, want, vma) == Resize(Joined(s, vma, end, next), start, end, pgoff);
  }

  lemma MergedParts(t: Tree, s: Slab, t': Tree, s': Slab, want: Vma)
    requires Merged(t, s, t', s', want)
    ensures Consistent(t', s') && Seen(t', s') == Override(Seen(t, s), want)
  {
  }

  /** The grown neighbour is well formed, shows the request, and has every anon_vma it takes over. */
  lemma GrownFacts(t: Tree, s: Slab, prev: Ref, next: Ref, want: Vma, vma: VmaId)
    requires Consistent(t, s) && PlainRequest(want) && Flanks(t, s, prev, next, want)
    requires NextJoins(s, next, want) || PrevJoins(s, prev, next, want)
    requires To(vma) == if PrevJoins(s, prev, next, want) then prev else next
    ensures var np := Grown(s, prev, next, want, vma);
            && WellFormed(np) && SameKind(np, want) && np.detached == s[vma].detached
            && np.start <= want.start && want.end <= np.end
            && (Swallows(s, vma, np.end, next) <==> PrevJoins(s, prev, next, want) && NextJoins(s, next, want))
            && np.pgoff == (if PrevJoins(s, prev, next, want) then s[prev.id].pgoff
                            else s[next.id].pgoff - VmaPages(want))
            && (PrevJoins(s, prev, next, want) ==>
                s[prev.id].end == want.start && SameKind(s[prev.id], want) && AnonInto(s[prev.id], np))
            && (NextJoins(s, next, want) ==>
                s[next.id].start == want.end && SameKind(s[next.id], want) && AnonInto(s[next.id], np))
  {
    hide Consistent, CanMergeAfter, CanMergeBefore;
    if prev.To? {
      KnownWellFormed(t, s, prev.id);
    }
    if next.To? {
      KnownWellFormed(t, s, next.id);
    }
    JoinKinds(s, prev, next, want);
  }

  /** The neighbours that pass the tests continue the request linearly. */
  lemma JoinKinds(s: Slab, prev: Ref, next: Ref, want: Vma)
    requires prev.To? ==> prev.id in s && WellFormed(s[prev.id])
    requires next.To? ==> next.id in s && WellFormed(s[next.id])
    requires PlainRequest(want)
    ensures NextJoins(s, next, want) ==> SameKind(s[next.id], want)
    ensures PrevJoins(s, prev, next, want) ==> SameKind(s[prev.id], want)
    ensures PrevJoins(s, prev, next, want) && NextJoins(s, next, want) ==>
        AnonAgree(s[prev.id].anonVma, s[next.id].anonVma)
  {
  }

  // ---------------------------------------------------------------- creating an area

  /** What the outside world decides during `mmap_region`: how the unmap goes, whether memory may be
      committed, whether a neighbour can be expanded, and how the creation of a new area goes. */
  datatype MapOutcomes = MapOutcomes(
    unmap: Outcomes,
    dataOk: bool,                 // RLIMIT_DATA part of may_expand_vm, for the whole length
    dataOkLess: bool,             // the same without the pages that will be unmapped
    memoryOk: bool,               // security_vm_enough_memory_mm
    cloneOk: bool,
    expandOk: bool,               // vma_iter_prealloc in vma_expand
    allocOk: bool,                // vm_area_alloc
    driver: Errno,                // call_mmap and mapping_map_writable
    driverClose: bool,            // the driver installed a close operation
    shmem: Errno,                 // shmem_zero_setup
    shmemFile: FileId,            // the file it creates
    flags: Errno,                 // map_deny_write_exec, arch_validate_flags
    storeOk: bool)                // vma_iter_prealloc
  {
    predicate AllWell() {
      && unmap.AllWell() && dataOk && memoryOk && cloneOk && expandOk
      && allocOk && driver.Success? && shmem.Success? && flags.Success? && storeOk
    }
  }

  /** The file behind a mapping: shared anonymous memory gets one from shmem. */
  predicate MapsFile(want: Vma, mapped: Option<FileId>) {
    mapped == want.file || (want.file.None? && Shared in want.flags && mapped.Some?)
  }

  /** The file a created area maps. */
  function CreatedFile(want: Vma, o: MapOutcomes): Option<FileId> {
    if want.file.None? && Shared in want.flags then Some(o.shmemFile) else want.file
  }

  /** How placing a mapping ends: with an error, or with the file behind the mapping. */
  datatype Ending = Fails(err: Errno) | Maps(file: Option<FileId>)

  /** The creation path: allocation, driver or shmem, flag checks, store, in this order. */
  function CreateEnds(want: Vma, o: MapOutcomes): Ending {
    if !o.allocOk then Fails(ENOMEM)
    else if want.file.Some? && !o.driver.Success? then Fails(o.driver)
    else if want.file.None? && Shared in want.flags && !o.shmem.Success? then Fails(o.shmem)
    else if !o.flags.Success? then Fails(o.flags)
    else if !o.storeOk then Fails(ENOMEM)
    else Maps(CreatedFile(want, o))
  }

  /** A neighbour grows over the request: `p` ends where it starts, `n` starts where it ends. */
  predicate Expands(p: Option<Vma>, n: Option<Vma>, want: Vma, o: MapOutcomes) {
    && !IsSpecial(want.flags) && o.expandOk
    && (UpperJoins(n, want) || LowerJoins(p, n, want))
    && (o.cloneOk || !(UpperJoins(n, want) && LowerJoins(p, n, want) && NeedsDup(p.value, n.value)))
  }

  function PlaceEnds(p: Option<Vma>, n: Option<Vma>, want: Vma, o: MapOutcomes): Ending {
    if Expands(p, n, want, o) then Maps(want.file) else CreateEnds(want, o)
  }

  /** On a free range with these neighbours: charge, then place. */
  function FreeEnds(p: Option<Vma>, n: Option<Vma>, want: Vma, o: MapOutcomes): Ending {
    if Accountable(want.flags) && !o.memoryOk then Fails(ENOMEM)
    else PlaceEnds(p, n, want.(flags := ChargedFlags(want.flags)), o)
  }

  ghost function EndsAround(t: Tree, s: Slab, want: Vma, o: MapOutcomes): (e: Ending)
    ensures e.Fails? ==> !e.err.Success?
  {
    FreeEnds(AreaAt(t, s, want.start - 1), AreaAt(t, s, want.end), want, o)
  }

  predicate EndsAs(e: Ending, err: Errno, mapped: Option<FileId>) {
    match e
    case Fails(code) => err == code
    case Maps(file) => err == Success && mapped == file
  }

  /** The creation path of `mmap_region`. */
  method CreateArea(mm: Mm, want: Vma, o: MapOutcomes) returns (err: Errno, id: VmaId, mapped: Option<FileId>)
    requires mm.Shaped() && PlainRequest(want) && Free(mm.tree, want.start, want.end)
    modifies mm`tree, mm`slab, mm`nextId, mm`mapCount
    ensures MapsFile(want, mapped)
    ensures !err.Success? ==> unchanged(mm)
    ensures err.Success? ==>
              && id == old(mm.nextId) && mm.nextId == id + 1
              && mm.mapCount == old(mm.mapCount) + 1
              && mm.slab == old(mm.slab)[id := want.(file := mapped, hasClose := want.file.Some? && o.driverClose)]
              && mm.tree == Store(old(mm.tree), want.start, want.end, id)
              && mm.Sees() == Override(old(mm.Sees()), want.(file := mapped))
    ensures err.Success? ==> mm.Shaped() && mapped == CreatedFile(want, o)
    ensures EndsAs(CreateEnds(want, o), err, mapped)
  {
    hide Consistent, Seen, Store, Override, Free;
    id, mapped := mm.nextId, want.file;
    if !o.allocOk {
      return ENOMEM, id, mapped;
    }
    var vma := want.(hasClose := false);
    if want.file.Some? {
      if !o.driver.Success? {
        return o.driver, id, mapped;
      }
      vma := vma.(hasClose := o.driverClose);
    } else if Shared in want.flags {
      if !o.shmem.Success? {
        return o.shmem, id, mapped;
      }
      vma := vma.(file := Some(o.shmemFile));
    }
    if !o.flags.Success? {
      return o.flags, id, want.file;
    }
    if !o.storeOk {
      return ENOMEM, id, want.file;
    }
    mapped := vma.file;
    assert vma == want.(file := mapped, hasClose := want.file.Some? && o.driverClose);
    InsertKeeps(mm.tree, mm.slab, id, vma);
    OverrideSameAttr(mm.Sees(), vma, want.(file := mapped));
    mm.nextId := mm.nextId + 1;
    mm.slab := mm.slab[id := vma];
    mm.tree := Store(mm.tree, vma.start, vma.end, id);
    mm.mapCount := mm.mapCount + 1;
    err := Success;
  }

  /** The view only depends on what a request shows. */
  lemma OverrideSameAttr(v: View, a: Vma, b: Vma)
    requires a.start == b.start && a.end == b.end && SameKind(a, b)
    ensures Override(v, a) == Override(v, b)
  {
    forall x
      ensures Look(Override(v, a), x) == Look(Override(v, b), x)
    {
      SameKindSameAttr(a, b, x);
    }
    SameLooks(Override(v, a), Override(v, b));
  }

  // ---------------------------------------------------------------- the whole operation

  /** The area at an address a search found. */
  function Found(t: Tree, s: Slab, at: Option<int>): (r: Ref)
    ensures r.To? ==> r.id in s
  {
    if at.Some? && at.value in t && Owner(t, at.value) in s then To(Owner(t, at.value)) else Null
  }

  function PrevOf(t: Tree, s: Slab, want: Vma): (r: Ref)
    ensures r.To? ==> r.id in s
  {
    Found(t, s, Last(t, 0, want.start))
  }

  function NextOf(t: Tree, s: Slab, want: Vma): (r: Ref)
    ensures r.To? ==> r.id in s
  {
    Found(t, s, First(t, want.end, TASK_SIZE))
  }

  /** A neighbour of the range grows over it. */
  ghost predicate ExpandsIn(x: Space, want: Vma, o: MapOutcomes) {
    Expands(AreaAt(x.tree, x.slab, want.start - 1), AreaAt(x.tree, x.slab, want.end), want, o)
  }

  /** Which area then covers the range ... */
  ghost function PlacedId(x: Space, want: Vma, o: MapOutcomes): VmaId {
    var grown := Grows(x.slab, PrevOf(x.tree, x.slab, want), NextOf(x.tree, x.slab, want), want);
    if ExpandsIn(x, want, o) && grown.To? then grown.id else x.next
  }

  /** ... and all the areas. */
  ghost function PlaceAfter(x: Space, want: Vma, o: MapOutcomes): Space {
    if ExpandsIn(x, want, o)
    then ExpandAfter(x, PrevOf(x.tree, x.slab, want), NextOf(x.tree, x.slab, want), want)
    else
      var made := want.(file := CreatedFile(want, o), hasClose := want.file.Some? && o.driverClose);
      Space(Store(x.tree, want.start, want.end, x.next), x.slab[x.next := made], x.next + 1)
  }

  /** From the search for neighbours to the stored area: lines up to the statistics of `mmap_region`. */
  method PlaceArea(mm: Mm, want: Vma, o: MapOutcomes) returns (err: Errno, id: VmaId, mapped: Option<FileId>)
    requires mm.Shaped() && mm.NoneDetached() && PlainRequest(want) && Free(mm.tree, want.start, want.end)
    modifies mm`tree, mm`slab, mm`nextId, mm`mapCount
    ensures mm.Shaped() && mm.NoneDetached() && MapsFile(want, mapped)
    ensures !err.Success? ==> unchanged(mm)
    ensures err.Success? ==> mm.Sees() == Override(old(mm.Sees()), want.(file := mapped))
    ensures err.Success? ==> id in mm.slab && Covers(mm.slab[id], want.(file := mapped))
    ensures err.Success? && IsSpecial(want.flags) ==>
              mm.slab[id] == want.(file := mapped, hasClose := want.file.Some? && o.driverClose)
    ensures EndsAs(old(PlaceEnds(AreaAt(mm.tree, mm.slab, want.start - 1), AreaAt(mm.tree, mm.slab, want.end), want,
                                 o)),
                   err, mapped)
    ensures err.Success? ==> id == old(PlacedId(mm.Now(), want, o)) && mm.Now() == old(PlaceAfter(mm.Now(), want, o))
  {
    hide Consistent, Seen, Store, Override, Free, WellFormed, CreateEnds, Expands, AreaAt, ExpandAfter, Grows;
    hide IsSpecial, CreatedFile, ValidRequest;
    var res := GrowNeighbour(mm, want, o);
    if res.To? {
      assert want.(file := want.file) == want;
      return Success, res.id, want.file;
    }
    err, id, mapped := CreateArea(mm, want, o);
  }

  /** The search for a neighbour that can grow over the range. */
  method GrowNeighbour(mm: Mm, want: Vma, o: MapOutcomes) returns (res: Ref)
    requires mm.Shaped() && mm.NoneDetached() && PlainRequest(want) && Free(mm.tree, want.start, want.end)
    modifies mm`tree, mm`slab, mm`mapCount
    ensures mm.Shaped() && mm.NoneDetached()
    ensures res.To? <==> old(ExpandsIn(mm.Now(), want, o))
    ensures res.Null? ==> unchanged(mm)
    ensures res.To? ==>
              && !IsSpecial(want.flags) && res.id in mm.slab && Covers(mm.slab[res.id], want)
              && mm.Sees() == Override(old(mm.Sees()), want)
              && res == To(old(PlacedId(mm.Now(), want, o))) && mm.Now() == old(PlaceAfter(mm.Now(), want, o))
  {
    hide Consistent, Seen, Store, Override, Merged, Free, Flanks, WellFormed, UpperJoins, LowerJoins, AreaAt;
    hide IsSpecial, ExpandAfter, PrevOf, NextOf, PrevJoins, NextJoins, NeedsDup, Covers;
    if IsSpecial(want.flags) {
      return Null;
    }
    var above, below := First(mm.tree, want.end, TASK_SIZE), Last(mm.tree, 0, want.start);
    FindFlanks(mm.tree, mm.slab, want);
    FlanksAt(mm.tree, mm.slab, want);
    var next := if above.Some? then To(Owner(mm.tree, above.value)) else Null;
    var prev := if below.Some? then To(Owner(mm.tree, below.value)) else Null;
    res := TryExpand(mm, prev, next, want, o.cloneOk, o.expandOk);
    if res.To? {
      MergedParts(old(mm.tree), old(mm.slab), mm.tree, mm.slab, want);
    }
  }

  /** The areas the search finds on either side of a free range. */
  lemma FindFlanks(t: Tree, s: Slab, want: Vma)
    requires Consistent(t, s) && PlainRequest(want) && Free(t, want.start, want.end)
    ensures var above, below := First(t, want.end, TASK_SIZE), Last(t, 0, want.start);
            Flanks(t, s, if below.Some? then To(Owner(t, below.value)) else Null,
                   if above.Some? then To(Owner(t, above.value)) else Null, want)
  {
    var above, below := First(t, want.end, TASK_SIZE), Last(t, 0, want.start);
    if above.Some? {
      var id := Owner(t, above.value);
      assert Holds(s[id], above.value) && !Holds(s[id], want.start);
      assert !Holds(s[id], want.end - 1);
    }
    if below.Some? {
      var id := Owner(t, below.value);
      assert Holds(s[id], below.value) && !Holds(s[id], want.start);
    }
  }

  /** Only the areas that touch the range can join it. */
  lemma FlanksAt(t: Tree, s: Slab, want: Vma)
    requires Consistent(t, s) && PlainRequest(want) && Free(t, want.start, want.end)
    ensures var above, below := First(t, want.end, TASK_SIZE), Last(t, 0, want.start);
            var prev := if below.Some? then To(Owner(t, below.value)) else Null;
            var next := if above.Some? then To(Owner(t, above.value)) else Null;
            var p, n := AreaAt(t, s, want.start - 1), AreaAt(t, s, want.end);
            && (prev.To? ==> prev.id in s) && (next.To? ==> next.id in s)
            && (NextJoins(s, next, want) <==> UpperJoins(n, want))
            && (PrevJoins(s, prev, next, want) <==> LowerJoins(p, n, want))
            && (UpperJoins(n, want) ==> next.To? && s[next.id] == n.value)
            && (LowerJoins(p, n, want) ==> prev.To? && s[prev.id] == p.value)
            && prev == PrevOf(t, s, want) && next == NextOf(t, s, want)
  {
    hide CanMergeAfter, CanMergeBefore;
    var above, below := First(t, want.end, TASK_SIZE), Last(t, 0, want.start);
    if above.Some? {
      var id := Owner(t, above.value);
      assert Holds(s[id], above.value) && WellFormed(s[id]);
      assert s[id].start == want.end ==> Holds(s[id], want.end);
    }
    if below.Some? {
      var id := Owner(t, below.value);
      assert Holds(s[id], below.value) && WellFormed(s[id]);
      assert s[id].end == want.start ==> Holds(s[id], want.start - 1);
    }
    if want.end in t {
      var id := Owner(t, want.end);
      assert Holds(s[id], want.end) && WellFormed(s[id]);
    }
    if want.start - 1 in t {
      var id := Owner(t, want.start - 1);
      assert Holds(s[id], want.start - 1) && WellFormed(s[id]);
    }
  }

  /** Whom the tests of `mmap_region` accept: the areas that meet the request, where the one below is asked for the
      anon_vma of the one above if that one joins too. */
  lemma TouchingExact(p: Option<Vma>, n: Option<Vma>, want: Vma)
    requires PlainRequest(want) && (p.Some? ==> WellFormed(p.value)) && (n.Some? ==> WellFormed(n.value))
    ensures UpperJoins(n, want) <==> n.Some? && MeetsAbove(n.value, want)
    ensures LowerJoins(p, n, want) <==> p.Some? && MeetsBelow(p.value, Carrying(n, want))
  {
    if n.Some? && n.value.start == want.end {
      BeforeExact(n.value, want);
    }
    if p.Some? && p.value.end == want.start {
      AfterExact(p.value, Carrying(n, want));
    }
  }

  /** The request with the anon_vma of the area above, if that one meets it. */
  ghost function Carrying(n: Option<Vma>, want: Vma): Vma {
    if n.Some? && MeetsAbove(n.value, want) then want.(anonVma := n.value.anonVma) else want
  }

  /** A neighbour grows over the request, so that no new area is made, if and only if the request is not special, an
      area on one side meets it, and the tree can be prepared for it.  A clone is never needed: an area without
      anon_vma is not joined to one above that has one. */
  lemma GrowsExact(x: Space, want: Vma, o: MapOutcomes)
    requires Consistent(x.tree, x.slab) && PlainRequest(want)
    ensures PlaceAfter(x, want, o).next == x.next <==>
              && want.flags !! {Io, DontExpand, PfnMap, MixedMap} && o.expandOk
              && ((exists id | id in x.slab :: MeetsAbove(x.slab[id], want)) ||
                  (exists id | id in x.slab :: MeetsBelow(x.slab[id], want)))
  {
    hide MeetsAbove, MeetsBelow, UpperJoins, LowerJoins, IsSpecial;
    var p, n := AreaAt(x.tree, x.slab, want.start - 1), AreaAt(x.tree, x.slab, want.end);
    SpecialExact(want.flags);
    Neighbours(x.tree, x.slab, want);
    TouchingExact(p, n, want);
    if UpperJoins(n, want) && LowerJoins(p, n, want) {
      NoClone(p, n, want);
    }
  }

  /** Whoever meets the request is one of the two areas beside it. */
  lemma Neighbours(t: Tree, s: Slab, want: Vma)
    requires Consistent(t, s) && ValidRequest(want)
    ensures var p, n := AreaAt(t, s, want.start - 1), AreaAt(t, s, want.end);
            && (p.Some? ==> WellFormed(p.value)) && (n.Some? ==> WellFormed(n.value))
            && ((exists id | id in s :: MeetsBelow(s[id], want)) <==> p.Some? && MeetsBelow(p.value, want))
            && ((exists id | id in s :: MeetsAbove(s[id], want)) <==> n.Some? && MeetsAbove(n.value, want))
  {
    forall id | id in s && s[id].end == want.start
      ensures AreaAt(t, s, want.start - 1) == Some(s[id])
    {
      KnownWellFormed(t, s, id);
      assert Holds(s[id], want.start - 1);
    }
    forall id | id in s && s[id].start == want.end
      ensures AreaAt(t, s, want.end) == Some(s[id])
    {
      KnownWellFormed(t, s, id);
      assert Holds(s[id], want.end);
    }
  }

  lemma NoClone(p: Option<Vma>, n: Option<Vma>, want: Vma)
    requires PlainRequest(want) && p.Some? && n.Some? && WellFormed(p.value) && MeetsAbove(n.value, want)
    requires MeetsBelow(p.value, Carrying(n, want))
    ensures !NeedsDup(p.value, n.value)
  {
  }

  /** The flags of the new mapping: VM_ACCOUNT for private writable memory, and no lock on special areas. */
  predicate Accountable(flags: set<Flag>) {
    Write in flags && Shared !in flags && NoReserve !in flags
  }

  function ChargedFlags(flags: set<Flag>): set<Flag> {
    if Accountable(flags) then flags + {Account} else flags
  }

  function FinalFlags(flags: set<Flag>): set<Flag> {
    if Locked in flags && IsSpecial(flags) then flags - LOCKED_MASK else flags
  }

  /** The new area at the end: no lock on special memory, and soft-dirty. */
  function Settled(v: Vma, flags: set<Flag>): Vma {
    v.(flags := (if Locked in flags && IsSpecial(flags) then v.flags - LOCKED_MASK else v.flags) + {SoftDirty})
  }

  /** The end of `mmap_region`: statistics, the locked counter, and the soft-dirty mark. */
  method Settle(mm: Mm, id: VmaId, want: Vma, ghost before: View)
    requires mm.Shaped() && mm.NoneDetached() && id in mm.slab && Covers(mm.slab[id], want) && ValidRequest(want)
    requires IsSpecial(want.flags) ==>
        mm.slab[id].start == want.start && mm.slab[id].end == want.end && mm.slab[id].flags == want.flags
    requires mm.Sees() == Override(before, want)
    modifies mm`slab, mm`totalVm, mm`lockedVm
    ensures mm.Shaped() && mm.NoneDetached()
    ensures mm.Sees() == Override(before, want.(flags := FinalFlags(want.flags)))
    ensures mm.totalVm == old(mm.totalVm) + VmaPages(want)
    ensures mm.lockedVm == old(mm.lockedVm) + if Locked in FinalFlags(want.flags) then VmaPages(want) else 0
    ensures mm.slab == old(mm.slab[id := Settled(mm.slab[id], want.flags)])
    ensures AllDirty(mm.tree, mm.slab, want.start, want.end)
  {
    hide Consistent, Seen, Override, IsSpecial, AllDirty, SameKind;
    mm.totalVm := mm.totalVm + VmaPages(want);
    if Locked in want.flags {
      if IsSpecial(want.flags) {
        ClearLocked(mm.tree, mm.slab, id, want, before);
        mm.slab := mm.slab[id := mm.slab[id].(flags := mm.slab[id].flags - LOCKED_MASK)];
      } else {
        mm.lockedVm := mm.lockedVm + VmaPages(want);
      }
    }
    SoftDirtyKeeps(mm.tree, mm.slab, id);
    mm.slab := mm.slab[id := mm.slab[id].(flags := mm.slab[id].flags + {SoftDirty})];
    DirtyArea(mm.tree, mm.slab, id, want.start, want.end);
  }

  lemma ClearLocked(t: Tree, s: Slab, id: VmaId, want: Vma, before: View)
    requires Consistent(t, s) && id in s && Covers(s[id], want)
    requires s[id].start == want.start && s[id].end == want.end && s[id].flags == want.flags
    requires Seen(t, s) == Override(before, want)
    ensures var nv := s[id].(flags := s[id].flags - LOCKED_MASK);
            && Consistent(t, s[id := nv]) && s[id := nv].Keys == s.Keys && |s[id := nv]| == |s|
            && Seen(t, s[id := nv]) == Override(before, want.(flags := want.flags - LOCKED_MASK))
  {
    hide Consistent, Seen;
    var nv := s[id].(flags := s[id].flags - LOCKED_MASK);
    KnownWellFormed(t, s, id);
    RelabelOwn(t, s, id, nv);
    OverrideSameAttr(Seen(t, s), nv, want.(flags := want.flags - LOCKED_MASK));
    OverrideTwice(before, want, want.(flags := want.flags - LOCKED_MASK));
    assert s[id := nv].Keys == s.Keys;
  }

  /** Of two requests over one range the later one is seen. */
  lemma OverrideTwice(v: View, a: Vma, b: Vma)
    requires a.start == b.start && a.end == b.end
    ensures Override(Override(v, a), b) == Override(v, b)
  {
    hide AttrAt;
    forall x
      ensures Look(Override(Override(v, a), b), x) == Look(Override(v, b), x)
    {
    }
    SameLooks(Override(Override(v, a), b), Override(v, b));
  }

  lemma SoftDirtyKeeps(t: Tree, s: Slab, id: VmaId)
    requires Consistent(t, s) && id in s
    ensures var s' := s[id := s[id].(flags := s[id].flags + {SoftDirty})];
            Consistent(t, s') && Seen(t, s') == Seen(t, s) && s'.Keys == s.Keys && |s'| == |s|
  {
    hide Consistent, Seen;
    KnownWellFormed(t, s, id);
    var nv := s[id].(flags := s[id].flags + {SoftDirty});
    assert nv.flags - {SoftDirty} == s[id].flags - {SoftDirty};
    MarkKeeps(t, s, id, nv);
    assert s[id := nv].Keys == s.Keys;
  }

  /** `may_expand_vm`, with the RLIMIT_DATA part as an input. */
  predicate MayExpand(totalVm: int, pages: int, rlimitAs: int, dataOk: bool) {
    totalVm + pages <= rlimitAs / 4096 && dataOk
  }

  /** The mapping a successful `mmap_region` shows. */
  function Placed(want: Vma, mapped: Option<FileId>): Vma {
    want.(file := mapped, flags := FinalFlags(ChargedFlags(want.flags)))
  }

  /** Within the limit, as it is or without the pages in the way. */
  ghost predicate LimitAllows(t: Tree, s: Slab, totalVm: int, want: Vma, rlimitAs: int, o: MapOutcomes) {
    var pages, mapped := VmaPages(want), |Within(Seen(t, s), want.start, want.end)| / 4096;
    MayExpand(totalVm, pages, rlimitAs, o.dataOk) || MayExpand(totalVm, pages - mapped, rlimitAs, o.dataOkLess)
  }

  /** The limit allows it, and what is in the way can be unmapped. */
  ghost predicate RoomIn(t: Tree, s: Slab, totalVm: int, mapCount: int, want: Vma, rlimitAs: int, maxMapCount: int,
                         o: MapOutcomes) {
    && LimitAllows(t, s, totalVm, want, rlimitAs, o)
    && Unmappable(t, mapCount, want.start, want.end, maxMapCount, o.unmap)
  }

  /** The areas after the first half of `mmap_region` ... */
  ghost function RoomAfter(x: Space, totalVm: int, mapCount: int, want: Vma, rlimitAs: int, maxMapCount: int,
                           o: MapOutcomes): Space
    requires want.start <= want.end
  {
    if !LimitAllows(x.tree, x.slab, totalVm, want, rlimitAs, o) then x
    else MunmapAfter(x, mapCount, want.start, want.end - want.start, maxMapCount, o.unmap)
  }

  /** ... after the second ... */
  ghost function MapAfter(x: Space, want: Vma, o: MapOutcomes): Space {
    if EndsAround(x.tree, x.slab, want, o).Fails? then x
    else SettleAfter(x, want.(flags := ChargedFlags(want.flags)), o)
  }

  ghost function SettleAfter(x: Space, want: Vma, o: MapOutcomes): Space {
    var y, id := PlaceAfter(x, want, o), PlacedId(x, want, o);
    if id in y.slab then y.(slab := y.slab[id := Settled(y.slab[id], want.flags)]) else y
  }

  /** ... and after both. */
  ghost function RegionAfter(x: Space, totalVm: int, mapCount: int, want: Vma, rlimitAs: int, maxMapCount: int,
                             o: MapOutcomes): Space
    requires want.start <= want.end
  {
    var y := RoomAfter(x, totalVm, mapCount, want, rlimitAs, maxMapCount, o);
    if RoomIn(x.tree, x.slab, totalVm, mapCount, want, rlimitAs, maxMapCount, o) then MapAfter(y, want, o) else y
  }

  lemma RangeFits(want: Vma)
    requires ValidRequest(want)
    ensures 0 < want.end - want.start && RoundUp(want.end - want.start) == want.end - want.start
    ensures !BadRange(want.start, want.end - want.start)
  {
  }

  /** The first half of `mmap_region`: check the limit and unmap what is in the way. */
  method MakeRoom(mm: Mm, commit: Commit, want: Vma, rlimitAs: int, maxMapCount: int, o: MapOutcomes)
    returns (err: Errno)
    requires mm.Valid() && PlainRequest(want)
    modifies mm`tree, mm`slab, mm`nextId, mm`mapCount, mm`totalVm, mm`lockedVm, commit
    ensures mm.Valid()
    ensures err.Success? ==> Free(mm.tree, want.start, want.end) && mm.totalVm + VmaPages(want) <= rlimitAs / 4096
    ensures err.Success? ==> mm.Sees() == Without(old(mm.Sees()), want.start, want.end)
    ensures !err.Success? ==> mm.Sees() == old(mm.Sees())
    ensures ToBytes(commit.pages) - mm.Charge() == old(ToBytes(commit.pages) - mm.Charge())
    ensures err == if old(RoomIn(mm.tree, mm.slab, mm.totalVm, mm.mapCount, want, rlimitAs, maxMapCount, o))
        then Success else ENOMEM
    ensures err.Success? ==> CutOut(old(mm.tree), old(mm.slab), mm.tree, mm.slab, want.start, want.end)
    ensures mm.Now() == old(RoomAfter(mm.Now(), mm.totalVm, mm.mapCount, want, rlimitAs, maxMapCount, o))
  {
    hide Consistent, Seen, Override, Without, Bytes, BytesWith, Free, Within, CutOut, Unmappable, MunmapAfter;
    var pages := VmaPages(want);
    WithoutBytes(mm.Sees(), want.start, want.end);
    if !MayExpand(mm.totalVm, pages, rlimitAs, o.dataOk) {
      var n := CountVmaPagesRange(mm, want.start, want.end);
      if !MayExpand(mm.totalVm, pages - n, rlimitAs, o.dataOkLess) {
        return ENOMEM;
      }
    }
    RangeFits(want);
    err := DoMunmap(mm, commit, want.start, want.end - want.start, maxMapCount, o.unmap);
    if !err.Success? {
      return ENOMEM;
    }
    NowFree(mm.tree, mm.slab, old(mm.Sees()), want.start, want.end);
  }

  /** The second half of `mmap_region`: charge, place the mapping, settle the statistics. */
  method MapFree(mm: Mm, commit: Commit, want: Vma, o: MapOutcomes) returns (err: Errno, mapped: Option<FileId>)
    requires mm.Valid() && PlainRequest(want) && Account !in want.flags && Free(mm.tree, want.start, want.end)
    modifies mm`tree, mm`slab, mm`nextId, mm`mapCount, mm`totalVm, mm`lockedVm, commit
    ensures mm.Valid() && MapsFile(want, mapped)
    ensures err.Success? ==> mm.Sees() == Override(old(mm.Sees()), Placed(want, mapped))
    ensures err.Success? ==> mm.totalVm == old(mm.totalVm) + VmaPages(want)
    ensures err.Success? ==> AllDirty(mm.tree, mm.slab, want.start, want.end)
    ensures !err.Success? ==> mm.Sees() == old(mm.Sees())
    ensures ToBytes(commit.pages) - mm.Charge() == old(ToBytes(commit.pages) - mm.Charge())
    ensures EndsAs(old(EndsAround(mm.tree, mm.slab, want, o)), err, mapped)
    ensures mm.Now() == old(MapAfter(mm.Now(), want, o))
  {
    hide Consistent, Seen, Override, Bytes, BytesWith, Free, Accountable, PlaceEnds, AreaAt, SettleAfter, FinalFlags,
         AllDirty;
    var pages := VmaPages(want);
    ghost var before := mm.Sees();
    FreeUnseen(mm.tree, mm.slab, want);
    var charged := 0;
    if Accountable(want.flags) {
      charged := pages;
      if !o.memoryOk {
        return ENOMEM, want.file;
      }
      commit.pages := commit.pages + charged;
    }
    err, mapped := PlaceAndSettle(mm, want.(flags := ChargedFlags(want.flags)), o);
    if !err.Success? {
      commit.pages := commit.pages - charged;
      return;
    }
    PlacedTally(before, want, mapped);
  }

  /** Placing the charged mapping and settling the statistics. */
  method PlaceAndSettle(mm: Mm, want: Vma, o: MapOutcomes) returns (err: Errno, mapped: Option<FileId>)
    requires mm.Shaped() && mm.NoneDetached() && PlainRequest(want) && Free(mm.tree, want.start, want.end)
    modifies mm`tree, mm`slab, mm`nextId, mm`mapCount, mm`totalVm, mm`lockedVm
    ensures mm.Shaped() && mm.NoneDetached() && MapsFile(want, mapped)
    ensures !err.Success? ==> unchanged(mm)
    ensures err.Success? ==>
              && mm.Sees() == Override(old(mm.Sees()), want.(file := mapped, flags := FinalFlags(want.flags)))
              && mm.totalVm == old(mm.totalVm) + VmaPages(want)
              && mm.lockedVm == old(mm.lockedVm) + (if Locked in FinalFlags(want.flags) then VmaPages(want) else 0)
              && mm.Now() == old(SettleAfter(mm.Now(), want, o))
              && AllDirty(mm.tree, mm.slab, want.start, want.end)
    ensures EndsAs(old(PlaceEnds(AreaAt(mm.tree, mm.slab, want.start - 1), AreaAt(mm.tree, mm.slab, want.end), want,
                                 o)),
                   err, mapped)
  {
    hide Consistent, Seen, Override, Free, Covers, IsSpecial, PlaceEnds, AreaAt, PlaceAfter, PlacedId, Settled,
         FinalFlags, AllDirty;
    ghost var before := mm.Sees();
    var id;
    err, id, mapped := PlaceArea(mm, want, o);
    if err.Success? {
      Settle(mm, id, want.(file := mapped), before);
    }
  }

  /** How `mmap_region` ends: refused before anything was unmapped, refused after the range was unmapped,
      or with the mapping in place. */
  datatype RegionEnd = Untouched(err: Errno) | Cleared(err: Errno) | InPlace(file: Option<FileId>)

  ghost function RegionEnds(t: Tree, s: Slab, totalVm: int, mapCount: int, want: Vma, rlimitAs: int, maxMapCount: int,
                            o: MapOutcomes): RegionEnd {
    if !RoomIn(t, s, totalVm, mapCount, want, rlimitAs, maxMapCount, o) then Untouched(ENOMEM)
    else
      var p := CutAt(t, s, want.start, want.end, want.start - 1);
      var n := CutAt(t, s, want.start, want.end, want.end);
      match FreeEnds(p, n, want, o)
      case Fails(err) => Cleared(err)
      case Maps(file) => InPlace(file)
  }

  /** The ending shows in the result and in the view. */
  ghost predicate RegionDone(e: RegionEnd, want: Vma, before: View, err: Errno, mapped: Option<FileId>, after: View) {
    match e
    case Untouched(code) => err == code && after == before
    case Cleared(code) => err == code && after == Without(before, want.start, want.end)
    case InPlace(file) => err == Success && mapped == file && after == Override(before, Placed(want, file))
  }

  /** `mmap_region`, for drivers that do not alter the flags. */
  method MmapRegion(mm: Mm, commit: Commit, want: Vma, rlimitAs: int, maxMapCount: int, o: MapOutcomes)
    returns (err: Errno, mapped: Option<FileId>)
    requires mm.Valid() && PlainRequest(want) && Account !in want.flags
    modifies mm`tree, mm`slab, mm`nextId, mm`mapCount, mm`totalVm, mm`lockedVm, commit
    ensures mm.Valid() && MapsFile(want, mapped)
    ensures RegionDone(old(RegionEnds(mm.tree, mm.slab, mm.totalVm, mm.mapCount, want, rlimitAs, maxMapCount, o)),
                       want, old(mm.Sees()), err, mapped, mm.Sees())
    ensures err.Success? ==> mm.totalVm <= rlimitAs / 4096
    ensures err.Success? ==> AllDirty(mm.tree, mm.slab, want.start, want.end)
    ensures ToBytes(commit.pages) - mm.Charge() == old(ToBytes(commit.pages) - mm.Charge())
    ensures mm.Now() == old(RegionAfter(mm.Now(), mm.totalVm, mm.mapCount, want, rlimitAs, maxMapCount, o))
  {
    hide Consistent, Seen, Override, Without, Bytes, BytesWith, Free, RoomIn, FreeEnds, CutAt, CutOut, EndsAround,
         Placed;
    hide RoomAfter, MapAfter, AllDirty;
    mapped := want.file;
    err := MakeRoom(mm, commit, want, rlimitAs, maxMapCount, o);
    if !err.Success? {
      return;
    }
    NowAround(old(mm.tree), old(mm.slab), mm.tree, mm.slab, want, o);
    err, mapped := MapFree(mm, commit, want, o);
    PlacedRange(want, mapped);
    OverrideWithout(old(mm.Sees()), want.start, want.end, Placed(want, mapped));
  }

  /** Once the range is unmapped, what is left of the areas around it decides. */
  lemma NowAround(t: Tree, s: Slab, t': Tree, s': Slab, want: Vma, o: MapOutcomes)
    requires CutOut(t, s, t', s', want.start, want.end) && want.start < want.end
    ensures EndsAround(t', s', want, o) ==
            FreeEnds(CutAt(t, s, want.start, want.end, want.start - 1), CutAt(t, s, want.start, want.end, want.end),
                     want, o)
  {
    hide CutAt, FreeEnds;
  }

  lemma PlacedRange(want: Vma, mapped: Option<FileId>)
    ensures Placed(want, mapped).start == want.start && Placed(want, mapped).end == want.end
  {
  }

  /** All shared memory has a file behind it. */
  ghost predicate Backed(v: View) {
    forall x | x in v :: Shared in v[x].flags ==> v[x].file.Some?
  }

  /** Then shared anonymous memory is not joined to an area beside it, and gets its file from shmem. */
  lemma SharedFile(t: Tree, s: Slab, totalVm: int, mapCount: int, want: Vma, rlimitAs: int, maxMapCount: int,
                   o: MapOutcomes)
    requires Consistent(t, s) && Backed(Seen(t, s)) && want.file.None? && Shared in want.flags
    ensures var e := RegionEnds(t, s, totalVm, mapCount, want, rlimitAs, maxMapCount, o);
            e.InPlace? ==> e.file == Some(o.shmemFile)
  {
    hide RoomIn, Consistent, Seen, CutAt;
    BackedBeside(t, s, want.start, want.end, want.start - 1);
    BackedBeside(t, s, want.start, want.end, want.end);
    var flags := ChargedFlags(want.flags);
    assert Shared in flags - {SoftDirty};
  }

  lemma BackedBeside(t: Tree, s: Slab, lo: int, hi: int, a: int)
    requires Consistent(t, s) && Backed(Seen(t, s))
    ensures var v := CutAt(t, s, lo, hi, a);
            v.Some? && Shared in v.value.flags - {SoftDirty} ==> v.value.file.Some?
  {
    var v := AreaAt(t, s, a);
    if v.Some? {
      assert Seen(t, s)[a] == AttrAt(v.value, a);
    }
  }

  /** With good outcomes and room in both limits the mapping is placed. */
  lemma RegionWorks(t: Tree, s: Slab, totalVm: int, mapCount: int, want: Vma, rlimitAs: int, maxMapCount: int,
                    o: MapOutcomes)
    requires o.AllWell() && mapCount < maxMapCount && totalVm + VmaPages(want) <= rlimitAs / 4096
    ensures RegionEnds(t, s, totalVm, mapCount, want, rlimitAs, maxMapCount, o).InPlace?
  {
    UnmapsWell(t, mapCount, want.start, want.end, maxMapCount, o.unmap);
  }

  lemma FreeUnseen(t: Tree, s: Slab, want: Vma)
    requires Free(t, want.start, want.end)
    ensures forall a | Holds(want, a) :: a !in Seen(t, s)
  {
  }

  /** After an unmap the range is free, and lengths round to themselves. */
  lemma NowFree(t: Tree, s: Slab, v: View, lo: int, hi: int)
    requires lo <= hi && Consistent(t, s) && Seen(t, s) == Without(v, lo, lo + RoundUp(hi - lo))
    requires Aligned(lo) && Aligned(hi)
    ensures Free(t, lo, hi) && RoundUp(hi - lo) == hi - lo
  {
    assert RoundUp(hi - lo) == hi - lo;
    forall a | lo <= a < hi
      ensures a !in t
    {
      assert a !in Seen(t, s);
    }
  }

  lemma OverrideWithout(v: View, lo: int, hi: int, want: Vma)
    requires want.start == lo && want.end == hi
    ensures Override(Without(v, lo, hi), want) == Override(v, want)
  {
    hide AttrAt;
    forall x
      ensures Look(Override(Without(v, lo, hi), want), x) == Look(Override(v, want), x)
    {
    }
    SameLooks(Override(Without(v, lo, hi), want), Override(v, want));
  }

  lemma PlacedTally(v: View, want: Vma, mapped: Option<FileId>)
    requires PlainRequest(want) && Account !in want.flags
    requires forall a | Holds(want, a) :: a !in v
    ensures var w := Override(v, Placed(want, mapped));
            && Bytes(w) == Bytes(v) + ToBytes(VmaPages(want))
            && BytesWith(w, Locked) == BytesWith(v, Locked) + (if Locked in FinalFlags(ChargedFlags(want.flags))
                                                               then ToBytes(VmaPages(want)) else 0)
            && BytesWith(w, Account) == BytesWith(v, Account) + (if Accountable(want.flags)
                                                                 then ToBytes(VmaPages(want)) else 0)
  {
    hide Override, Bytes, BytesWith;
    var placed := Placed(want, mapped);
    OverrideTally(v, placed, Locked);
    OverrideTally(v, placed, Account);
  }
}
