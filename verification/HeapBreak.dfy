/** Moving the program break (`do_brk_flags`, `brk`). */
module HeapBreak {
  import opened Pages
  import opened Vmas
  import opened Trees
  import opened AddressSpaces
  import opened Reshaping
  import opened MergeCases
  import opened Merging
  import opened Unmapping
  import opened GapSearch
  import opened Mapping
  import opened Placement

  /** What the outside world decides while the heap grows. */
  datatype GrowOutcomes = GrowOutcomes(dataOk: bool, memoryOk: bool, expandOk: bool, allocOk: bool, storeOk: bool)

  function HeapFlags(defFlags: set<Flag>): set<Flag> {
    DATA_DEFAULT + {Account} + defFlags
  }

  /** The anonymous area a growing heap shows on [addr, end). */
  function HeapArea(addr: int, end: int, defFlags: set<Flag>): Vma {
    Vma(addr, end, addr / 4096, HeapFlags(defFlags), None, None, None, None, false, None, [], false)
  }

  /** Can the area below be extended over the new heap? */
  predicate HeapJoins(s: Slab, vma: Ref, want: Vma)
    requires vma.To? ==> vma.id in s
  {
    && vma.To? && s[vma.id].end == want.start && s[vma.id].policy.None?
    && CanMergeAfter(s[vma.id], want.flags, None, None, want.pgoff, None, None)
  }

  /** The areas with the new heap: the area below extended, or a new one. */
  ghost function HeapAfter(x: Space, vma: Ref, want: Vma): Space
    requires vma.To? ==> vma.id in x.slab
  {
    if HeapJoins(x.slab, vma, want) then
      var v := x.slab[vma.id];
      Space(Store(x.tree, v.start, want.end, vma.id),
            x.slab[vma.id := v.(end := want.end, flags := v.flags + {SoftDirty})], x.next)
    else
      Space(Store(x.tree, want.start, want.end, x.next),
            x.slab[x.next := want.(flags := want.flags + {SoftDirty})], x.next + 1)
  }

  /** Storing the new heap: extend the area below or create one. */
  method StoreHeap(mm: Mm, vma: Ref, want: Vma, o: GrowOutcomes) returns (ok: bool)
    requires mm.Shaped() && mm.NoneDetached() && PlainRequest(want) && want.file.None?
    requires Free(mm.tree, want.start, want.end) && (vma.To? ==> vma.id in mm.slab)
    modifies mm`tree, mm`slab, mm`nextId, mm`mapCount
    ensures mm.Shaped() && mm.NoneDetached()
    ensures ok ==> mm.Sees() == Override(old(mm.Sees()), want)
    ensures !ok ==> unchanged(mm)
    ensures ok ==> mm.Now() == old(HeapAfter(mm.Now(), vma, want))
    ensures ok ==> AllDirty(mm.tree, mm.slab, want.start, want.end)
    ensures ok <==> if old(HeapJoins(mm.slab, vma, want)) then o.expandOk else o.allocOk && o.storeOk
  {
    hide Consistent, Seen, Store, Override, Merged, Free, SameMarks, CanMergeAfter, AllDirty;
    ghost var t, s := mm.tree, mm.slab;
    if HeapJoins(mm.slab, vma, want) {
      if !o.expandOk {
        return false;
      }
      HeapExtends(t, s, vma.id, want);
      mm.slab := mm.slab[vma.id := mm.slab[vma.id].(end := want.end)];
      mm.slab := mm.slab[vma.id := mm.slab[vma.id].(flags := mm.slab[vma.id].flags + {SoftDirty})];
      mm.tree := Store(mm.tree, mm.slab[vma.id].start, want.end, vma.id);
      KnownWellFormed(t, s, vma.id);
      DirtyArea(mm.tree, mm.slab, vma.id, want.start, want.end);
      return true;
    }
    if !o.allocOk || !o.storeOk {
      return false;
    }
    NewHeap(mm, want);
    ok := true;
  }

  /** A new area for the heap. */
  method NewHeap(mm: Mm, want: Vma)
    requires mm.Shaped() && mm.NoneDetached() && PlainRequest(want) && Free(mm.tree, want.start, want.end)
    modifies mm`tree, mm`slab, mm`nextId, mm`mapCount
    ensures mm.Shaped() && mm.NoneDetached() && mm.Sees() == Override(old(mm.Sees()), want)
    ensures mm.Now() == old(Space(Store(mm.tree, want.start, want.end, mm.nextId),
                                  mm.slab[mm.nextId := want.(flags := want.flags + {SoftDirty})], mm.nextId + 1))
    ensures AllDirty(mm.tree, mm.slab, want.start, want.end)
  {
    hide Consistent, Seen, Store, Override, Free, AllDirty;
    var id := mm.nextId;
    InsertKeeps(mm.tree, mm.slab, id, want.(flags := want.flags + {SoftDirty}));
    OverrideSameAttr(mm.Sees(), want.(flags := want.flags + {SoftDirty}), want);
    mm.nextId := mm.nextId + 1;
    mm.slab := mm.slab[id := want.(flags := want.flags + {SoftDirty})];
    mm.tree := Store(mm.tree, want.start, want.end, id);
    mm.mapCount := mm.mapCount + 1;
    DirtyArea(mm.tree, mm.slab, id, want.start, want.end);
  }

  lemma HeapExtends(t: Tree, s: Slab, p: VmaId, want: Vma)
    requires Consistent(t, s) && PlainRequest(want) && want.file.None? && Free(t, want.start, want.end)
    requires p in s && HeapJoins(s, To(p), want)
    ensures var s' := s[p := s[p].(end := want.end)][p := s[p].(end := want.end, flags := s[p].flags + {SoftDirty})];
            var t' := Store(t, s[p].start, want.end, p);
            Consistent(t', s') && Seen(t', s') == Override(Seen(t, s), want) && s'.Keys == s.Keys && |s'| == |s|
  {
    hide Consistent, Seen, Override, Store, Free;
    var np := s[p].(end := want.end, flags := s[p].flags + {SoftDirty});
    KnownWellFormed(t, s, p);
    assert np.flags - {SoftDirty} == s[p].flags - {SoftDirty};
    GrowCase(t, s, To(p), Null, Null, p, np, {}, want);
    MergedParts(t, s, Store(t, np.start, np.end, p), s[p := np] - {}, want);
    assert s[p := np] - {} == s[p := np];
    assert s[p := s[p].(end := want.end)][p := np] == s[p := np];
    assert s[p := np].Keys == s.Keys;
  }

  /** `do_brk_flags` over the free range [addr, addr + len). */
  method DoBrkFlags(mm: Mm, commit: Commit, vma: Ref, addr: int, len: int, rlimitAs: int, maxMapCount: int,
                    o: GrowOutcomes)
    returns (ok: bool)
    requires mm.Valid() && 0 <= addr && 0 < len && addr + len <= TASK_SIZE && Aligned(addr) && Aligned(len)
    requires Free(mm.tree, addr, addr + len) && (vma.To? ==> vma.id in mm.slab)
    modifies mm`tree, mm`slab, mm`nextId, mm`mapCount, mm`totalVm, mm`lockedVm, commit
    ensures mm.Valid()
    ensures ok ==> mm.Sees() == Override(old(mm.Sees()), HeapArea(addr, addr + len, mm.defFlags))
    ensures ok ==> mm.totalVm == old(mm.totalVm) + len / 4096 <= rlimitAs / 4096
    ensures ok ==> AllDirty(mm.tree, mm.slab, addr, addr + len)
    ensures !ok ==> mm.Sees() == old(mm.Sees()) && mm.totalVm == old(mm.totalVm)
    ensures ToBytes(commit.pages) - mm.Charge() == old(ToBytes(commit.pages) - mm.Charge())
    ensures mm.Now() == if ok then old(HeapAfter(mm.Now(), vma, HeapArea(addr, addr + len, mm.defFlags)))
        else old(mm.Now())
    ensures ok <==>
              && MayExpand(old(mm.totalVm), len / 4096, rlimitAs, o.dataOk)
              && old(mm.mapCount) <= maxMapCount && o.memoryOk
              && if old(HeapJoins(mm.slab, vma, HeapArea(addr, addr + len, mm.defFlags)))
                 then o.expandOk else o.allocOk && o.storeOk
  {
    hide Consistent, Seen, Override, Bytes, BytesWith, Free, HeapJoins, HeapFlags, HeapAfter, AllDirty;
    var want := HeapArea(addr, addr + len, mm.defFlags);
    if !MayExpand(mm.totalVm, len / 4096, rlimitAs, o.dataOk) {
      return false;
    }
    if mm.mapCount > maxMapCount {
      return false;
    }
    if !o.memoryOk {
      return false;
    }
    commit.pages := commit.pages + len / 4096;
    FreeUnseen(mm.tree, mm.slab, want);
    HeapTally(mm.Sees(), addr, len, mm.defFlags);
    ok := StoreHeap(mm, vma, want, o);
    if !ok {
      commit.pages := commit.pages - len / 4096;
      return;
    }
    mm.totalVm := mm.totalVm + len / 4096;
    if Locked in want.flags {
      mm.lockedVm := mm.lockedVm + len / 4096;
    }
  }

  lemma HeapTally(v: View, addr: int, len: int, defFlags: set<Flag>)
    requires 0 < len && Aligned(len)
    requires forall a | Holds(HeapArea(addr, addr + len, defFlags), a) :: a !in v
    ensures var area := HeapArea(addr, addr + len, defFlags);
            var w := Override(v, area);
            && Bytes(w) == Bytes(v) + ToBytes(len / 4096)
            && BytesWith(w, Account) == BytesWith(v, Account) + ToBytes(len / 4096)
            && BytesWith(w, Locked) == BytesWith(v, Locked) + if Locked in area.flags then ToBytes(len / 4096) else 0
  {
    hide Override, Bytes, BytesWith;
    var area := HeapArea(addr, addr + len, defFlags);
    OverrideTally(v, area, Account);
    OverrideTally(v, area, Locked);
  }

  // ---------------------------------------------------------------- the decision of brk

  /** What `brk` decides to do before it touches the address space. */
  datatype Plan = Out | SetOnly | Shrink(lo: int, hi: int) | Grow(lo: int, hi: int)

  /** Inputs of the decision: the break, its lower bound, and the outcomes of the checks that are not
      part of this file (data limit, security hook, mlock limit). */
  datatype Query = Query(startBrk: int, cur: int, brk: int, layout: Layout, dataLimitOk: bool, securityOk: bool,
                         mlockOk: bool)

  predicate GoodQuery(q: Query) {
    0 < q.startBrk <= q.cur <= TASK_SIZE && 0 <= q.brk < WORD && GoodLayout(q.layout)
  }

  /** `check_brk_limits`. */
  predicate WithinLimits(q: Query, addr: int, len: int) {
    && len <= TASK_SIZE && len <= TASK_SIZE - q.layout.minAddr
    && addr <= TASK_SIZE - len && Aligned(addr) && q.securityOk && q.mlockOk
  }

  /** Does the next area, or its guard gap, leave room for the new heap and one more page? */
  predicate RoomAbove(t: Tree, s: Slab, oldbrk: int, newbrk: int, guard: int) {
    var at := First(t, oldbrk, newbrk + 4096 + guard);
    at.Some? && Owner(t, at.value) in s ==> newbrk + 4096 <= StartGap(s[Owner(t, at.value)], guard)
  }

  /** The decision of `brk` after the rounding, common to both versions. */
  function PlanFrom(t: Tree, s: Slab, q: Query, newbrk: int, oldbrk: int): Plan {
    if oldbrk == newbrk then SetOnly
    else if q.brk <= q.cur then
      if First(t, newbrk, oldbrk).Some? then Shrink(newbrk, oldbrk) else Out
    else if !WithinLimits(q, oldbrk, Sub64(newbrk, oldbrk)) then Out
    else if !RoomAbove(t, s, oldbrk, newbrk, q.layout.guard) then Out
    else Grow(oldbrk, newbrk)
  }

  /** The unpatched decision. */
  function OriginalPlan(t: Tree, s: Slab, q: Query): Plan
    requires GoodQuery(q)
  {
    if q.brk < q.startBrk then Out
    else if !q.dataLimitOk then Out
    else PlanFrom(t, s, q, PageAlign(q.brk), PageAlign(q.cur))
  }

  /** The number the patched `brk` hands to the limiter: the change of the break, on 64 bits. */
  function Asked(q: Query): int
    requires GoodQuery(q)
  {
    Sub64(PageAlign(q.brk), PageAlign(q.cur))
  }

  /** A plan is only ever about the range between the rounded breaks, inside the user address space
      and in the right direction: a rounding that wraps leads to no change at all. */
  lemma PlanRanges(t: Tree, s: Slab, q: Query)
    requires GoodQuery(q) && Consistent(t, s)
    ensures var p := OriginalPlan(t, s, q);
            && (p.SetOnly? ==> q.startBrk <= q.brk <= TASK_SIZE)
            && (p.Shrink? ==>
                  && 0 <= p.lo < p.hi <= TASK_SIZE && Aligned(p.lo) && Aligned(p.hi)
                  && q.startBrk <= q.brk <= q.cur && Asked(q) == WORD - (p.hi - p.lo))
            && (p.Grow? ==>
                  && 0 <= p.lo < p.hi <= TASK_SIZE && Aligned(p.lo) && Aligned(p.hi) && q.cur < q.brk <= p.hi
                  && Asked(q) == p.hi - p.lo && Free(t, p.lo, p.hi))
  {
    hide PageAlign, Sub64, First, Consistent;
    var p := OriginalPlan(t, s, q);
    AlignFacts(q.brk);
    AlignFacts(q.cur);
    SubFacts(PageAlign(q.brk), PageAlign(q.cur));
    if p.Grow? {
      RoomIsFree(t, s, PageAlign(q.cur), PageAlign(q.brk), q.layout.guard);
    }
  }

  /** The checks in front of every move of the break. */
  predicate Admitted(q: Query) {
    q.startBrk <= q.brk && q.dataLimitOk
  }

  /** The area next above the old break leaves one page free above the new one, and a stack its guard gap too. */
  ghost predicate NextLeavesRoom(t: Tree, s: Slab, oldbrk: int, newbrk: int, guard: int) {
    forall id | id in s && oldbrk < s[id].end && Free(t, oldbrk, s[id].start) ::
      newbrk + 4096 + (if GrowsDown in s[id].flags then guard else 0) <= s[id].start
  }

  /** The growth stays in the user address space and the outside world agrees. */
  predicate GrowthAdmitted(q: Query)
    requires GoodQuery(q)
  {
    RoundUp(q.brk) <= TASK_SIZE && RoundUp(q.brk) - RoundUp(q.cur) <= TASK_SIZE - q.layout.minAddr
    && q.securityOk && q.mlockOk
  }

  /** What `brk` decides, for every break asked for and every layout: within the same page only the break moves;
      below it the heap shrinks if anything is mapped there; above it the heap grows if the limits and the next area
      leave room; and nothing else ever happens. */
  lemma PlanExact(t: Tree, s: Slab, q: Query)
    requires GoodQuery(q) && Consistent(t, s)
    ensures var p, lo, hi := OriginalPlan(t, s, q), RoundUp(q.cur), RoundUp(q.brk);
            && (p == SetOnly <==> Admitted(q) && hi == lo)
            && (p == Shrink(hi, lo) <==> Admitted(q) && hi < lo && exists a | hi <= a < lo :: a in t)
            && (p == Grow(lo, hi) <==>
                  Admitted(q) && lo < hi && GrowthAdmitted(q) && NextLeavesRoom(t, s, lo, hi, q.layout.guard))
            && (p == Out || p == SetOnly || p == Shrink(hi, lo) || p == Grow(lo, hi))
  {
    hide PageAlign, Sub64, Consistent, RoomAbove, NextLeavesRoom, RoundUp, First;
    AlignFacts(q.cur);
    AlignFacts(q.brk);
    RoundFacts(q.brk, q.cur);
    SubFacts(PageAlign(q.brk), PageAlign(q.cur));
    if PageAlign(q.cur) <= PageAlign(q.brk) {
      RoomExact(t, s, PageAlign(q.cur), PageAlign(q.brk), q.layout.guard);
    }
    if First(t, PageAlign(q.brk), PageAlign(q.cur)).Some? {
      var a := First(t, PageAlign(q.brk), PageAlign(q.cur)).value;
      assert a in t;
    }
  }

  lemma RoundFacts(x: int, y: int)
    requires 0 <= x < WORD && 0 < y <= TASK_SIZE
    ensures PageAlign(x) == if WORD - 4096 < x then 0 else RoundUp(x)
    ensures 0 < PageAlign(y) == RoundUp(y) <= TASK_SIZE && x <= RoundUp(x)
    ensures x <= y ==> RoundUp(x) <= RoundUp(y) && RoundUp(x) == PageAlign(x)
    ensures y < x ==> RoundUp(y) <= RoundUp(x)
  {
  }

  /** The test against the area found is the test against the area next above. */
  lemma RoomExact(t: Tree, s: Slab, oldbrk: int, newbrk: int, guard: int)
    requires Consistent(t, s) && 0 <= guard && 0 <= oldbrk <= newbrk
    ensures RoomAbove(t, s, oldbrk, newbrk, guard) <==> NextLeavesRoom(t, s, oldbrk, newbrk, guard)
  {
    var at := First(t, oldbrk, newbrk + 4096 + guard);
    if at.Some? {
      var id := Owner(t, at.value);
      assert Holds(s[id], at.value) && WellFormed(s[id]);
    }
    forall id | id in s && oldbrk < s[id].end && Free(t, oldbrk, s[id].start)
      ensures if at.Some? then Owner(t, at.value) == id else newbrk + 4096 + guard <= s[id].start
    {
      assert WellFormed(s[id]);
      assert Holds(s[id], if oldbrk < s[id].start then s[id].start else oldbrk);
    }
  }

  lemma AlignFacts(x: int)
    requires 0 <= x < WORD
    ensures Aligned(PageAlign(x)) && 0 <= PageAlign(x) < WORD
    ensures PageAlign(x) == 0 || x <= PageAlign(x)
    ensures x <= TASK_SIZE ==> x <= PageAlign(x) <= TASK_SIZE && PageAlign(x) == RoundUp(x)
    ensures forall y: nat | y <= x <= TASK_SIZE :: PageAlign(y) <= PageAlign(x)
  {
  }

  lemma SubFacts(x: int, y: int)
    requires 0 <= x < WORD && 0 <= y <= TASK_SIZE
    ensures Sub64(x, y) == if y <= x then x - y else x - y + WORD
  {
  }

  /** Room above the old break means free space up to the new one. */
  lemma RoomIsFree(t: Tree, s: Slab, oldbrk: int, newbrk: int, guard: int)
    requires Consistent(t, s) && RoomAbove(t, s, oldbrk, newbrk, guard) && 0 <= guard
    ensures Free(t, oldbrk, newbrk)
  {
    var at := First(t, oldbrk, newbrk + 4096 + guard);
    if at.Some? {
      var id := Owner(t, at.value);
      assert Holds(s[id], at.value) && WellFormed(s[id]);
    }
  }

  // ---------------------------------------------------------------- brk

  /** Outcomes of the two operations `brk` may start. */
  datatype BrkOutcomes = BrkOutcomes(unmap: Outcomes, grow: GrowOutcomes)

  /** The area `brk` tries to extend: the last one between the start of the heap and the old break. */
  function BelowHeap(t: Tree, startBrk: int, oldbrk: int): Ref {
    var below := Last(t, startBrk, oldbrk);
    if below.Some? then To(Owner(t, below.value)) else Null
  }

  /** Growing the heap over [lo, hi) is within the limits and can be stored. */
  ghost predicate GrowWorks(t: Tree, s: Slab, startBrk: int, defFlags: set<Flag>, totalVm: int, mapCount: int,
                            lo: int, hi: int, rlimitAs: int, maxMapCount: int, o: GrowOutcomes)
    requires Consistent(t, s)
  {
    LastKnown(t, s, startBrk, lo);
    && MayExpand(totalVm, (hi - lo) / 4096, rlimitAs, o.dataOk) && mapCount <= maxMapCount && o.memoryOk
    && if HeapJoins(s, BelowHeap(t, startBrk, lo), HeapArea(lo, hi, defFlags))
       then o.expandOk else o.allocOk && o.storeOk
  }

  /** The operation a plan starts, if any, works. */
  ghost predicate PlanWorks(p: Plan, t: Tree, s: Slab, startBrk: int, defFlags: set<Flag>, totalVm: int, mapCount: int,
                            rlimitAs: int, maxMapCount: int, o: BrkOutcomes)
    requires Consistent(t, s)
  {
    match p
    case Out => false
    case SetOnly => true
    case Shrink(lo, hi) => UnmapWorks(t, mapCount, lo, hi, maxMapCount, o.unmap)
    case Grow(lo, hi) => GrowWorks(t, s, startBrk, defFlags, totalVm, mapCount, lo, hi, rlimitAs, maxMapCount, o.grow)
  }

  /** A plan carried out: break and view both change, or neither does. */
  ghost predicate PlanDone(p: Plan, works: bool, brk: int, oldBrk: int, defFlags: set<Flag>, before: View, ret: int,
                           after: View) {
    if !works then ret == oldBrk && after == before
    else
      && ret == brk
      && after == match p
                  case Out => before
                  case SetOnly => before
                  case Shrink(lo, hi) => Without(before, lo, hi)
                  case Grow(lo, hi) => Override(before, HeapArea(lo, hi, defFlags))
  }

  /** The area below is extended over the new heap if and only if the heap has begun below it and an area there meets
      it: private anonymous memory with the heap's flags, no name and no policy, that was not cloned at a fork. */
  lemma HeapJoinsExact(t: Tree, s: Slab, startBrk: int, lo: int, hi: int, defFlags: set<Flag>)
    requires Consistent(t, s) && 0 < startBrk && 0 <= lo < hi <= TASK_SIZE && Aligned(lo) && Aligned(hi)
    ensures var below := BelowHeap(t, startBrk, lo);
            && (below.To? ==> below.id in s)
            && (HeapJoins(s, below, HeapArea(lo, hi, defFlags)) <==>
                  startBrk < lo && exists id | id in s :: MeetsBelow(s[id], HeapArea(lo, hi, defFlags)))
  {
    hide HeapFlags, MeetsBelow;
    var want, below := HeapArea(lo, hi, defFlags), BelowHeap(t, startBrk, lo);
    LastKnown(t, s, startBrk, lo);
    if below.To? && s[below.id].end == lo {
      KnownWellFormed(t, s, below.id);
      AfterExact(s[below.id], want);
    }
    forall id | id in s && startBrk < lo && s[id].end == lo
      ensures below == To(id)
    {
      KnownWellFormed(t, s, id);
      assert Holds(s[id], lo - 1);
    }
    MeetsEnds(s, want);
  }

  lemma MeetsEnds(s: Slab, want: Vma)
    ensures forall id | id in s && MeetsBelow(s[id], want) :: s[id].end == want.start
  {
  }

  /** Growing works if and only if the limits and the outside world agree, and the area below can be extended, or a
      new one be made. */
  lemma GrowWorksExact(t: Tree, s: Slab, startBrk: int, defFlags: set<Flag>, totalVm: int, mapCount: int, lo: int,
                       hi: int, rlimitAs: int, maxMapCount: int, o: GrowOutcomes)
    requires Consistent(t, s) && 0 < startBrk && 0 <= lo < hi <= TASK_SIZE && Aligned(lo) && Aligned(hi)
    ensures GrowWorks(t, s, startBrk, defFlags, totalVm, mapCount, lo, hi, rlimitAs, maxMapCount, o) <==>
              && totalVm + (hi - lo) / 4096 <= rlimitAs / 4096 && mapCount <= maxMapCount && o.dataOk && o.memoryOk
              && if startBrk < lo && exists id | id in s :: MeetsBelow(s[id], HeapArea(lo, hi, defFlags))
                 then o.expandOk else o.allocOk && o.storeOk
  {
    hide HeapJoins, MeetsBelow, HeapArea, BelowHeap;
    HeapJoinsExact(t, s, startBrk, lo, hi, defFlags);
  }

  /** Whatever is planned works if the limits leave room and nothing outside fails. */
  lemma BrkWorks(t: Tree, s: Slab, q: Query, defFlags: set<Flag>, totalVm: int, mapCount: int, rlimitAs: int,
                 maxMapCount: int, o: BrkOutcomes)
    requires Consistent(t, s) && GoodQuery(q) && OriginalPlan(t, s, q) != Out
    requires mapCount < maxMapCount && o.unmap.AllWell()
    requires totalVm + (RoundUp(q.brk) - RoundUp(q.cur)) / 4096 <= rlimitAs / 4096
    requires o.grow == GrowOutcomes(true, true, true, true, true)
    ensures PlanWorks(OriginalPlan(t, s, q), t, s, q.startBrk, defFlags, totalVm, mapCount, rlimitAs, maxMapCount, o)
  {
    hide OriginalPlan, UnmapWorks, GrowWorks, MeetsBelow, RoundUp;
    var p := OriginalPlan(t, s, q);
    PlanRanges(t, s, q);
    PlanExact(t, s, q);
    match p
    case Shrink(lo, hi) => UnmapsWell(t, mapCount, lo, hi, maxMapCount, o.unmap);
    case Grow(lo, hi) =>
      GrowWorksExact(t, s, q.startBrk, defFlags, totalVm, mapCount, lo, hi, rlimitAs, maxMapCount, o.grow);
    case _ =>
  }

  /** What a carried out plan shows, address by address: the break asked for; after a growth readable, writable,
      private, charged memory without file over exactly the new range; after a shrink nothing in the range. */
  lemma BrkShows(p: Plan, works: bool, brk: int, oldBrk: int, defFlags: set<Flag>, before: View, ret: int, after: View)
    requires PlanDone(p, works, brk, oldBrk, defFlags, before, ret, after) && (p.Grow? ==> Aligned(p.lo))
    ensures ret == if works then brk else oldBrk
    ensures !works || p.Out? || p.SetOnly? ==> after == before
    ensures works && p.Shrink? ==> forall x :: Look(after, x) == if p.lo <= x < p.hi then None else Look(before, x)
    ensures works && p.Grow? ==>
              forall x :: Look(after, x) == if p.lo <= x < p.hi then Some(HeapAttr(defFlags, x)) else Look(before, x)
  {
    hide Override, Without, HeapArea;
    if works && p.Grow? {
      forall x
        ensures Look(after, x) == if p.lo <= x < p.hi then Some(HeapAttr(defFlags, x)) else Look(before, x)
      {
        HeapAt(p.lo, p.hi, defFlags, x);
      }
    }
  }

  /** What an address of the heap sees. */
  function HeapAttr(defFlags: set<Flag>, x: int): Attr {
    Attr({Read, Write, MayRead, MayWrite, MayExec, Account} + defFlags - {SoftDirty}, None, x, None, None, None)
  }

  lemma HeapAt(lo: int, hi: int, defFlags: set<Flag>, x: int)
    requires Aligned(lo)
    ensures var want := HeapArea(lo, hi, defFlags);
            AttrAt(want, x) == HeapAttr(defFlags, x) && (Holds(want, x) <==> lo <= x < hi)
  {
    assert HeapFlags(defFlags) == {Read, Write, MayRead, MayWrite, MayExec, Account} + defFlags;
  }

  /** The areas after a plan is carried out; a failed unmap may leave its splits behind. */
  ghost function PlanAfter(p: Plan, works: bool, x: Space, mapCount: int, startBrk: int, defFlags: set<Flag>,
                           maxMapCount: int, o: BrkOutcomes): Space {
    match p
    case Out => x
    case SetOnly => x
    case Shrink(lo, hi) => UnmapAfter(x, mapCount, lo, hi, maxMapCount, o.unmap)
    case Grow(lo, hi) =>
      if works then HeapAfter(x, Found(x.tree, x.slab, Last(x.tree, startBrk, lo)), HeapArea(lo, hi, defFlags)) else x
  }

  ghost function AfterIn(mm: Mm, p: Plan, rlimitAs: int, maxMapCount: int, o: BrkOutcomes): Space
    reads mm
    requires Consistent(mm.tree, mm.slab)
  {
    PlanAfter(p, WorksIn(mm, p, rlimitAs, maxMapCount, o), mm.Now(), mm.mapCount, mm.startBrk, mm.defFlags, maxMapCount,
              o)
  }

  ghost function QueryOf(mm: Mm, brk: int, l: Layout, dataLimitOk: bool, securityOk: bool, mlockOk: bool): Query
    reads mm
  {
    Query(mm.startBrk, mm.brk, brk, l, dataLimitOk, securityOk, mlockOk)
  }

  /** Whether the operation of a plan works in an address space. */
  ghost predicate WorksIn(mm: Mm, p: Plan, rlimitAs: int, maxMapCount: int, o: BrkOutcomes)
    reads mm
    requires Consistent(mm.tree, mm.slab)
  {
    PlanWorks(p, mm.tree, mm.slab, mm.startBrk, mm.defFlags, mm.totalVm, mm.mapCount, rlimitAs, maxMapCount, o)
  }

  /** The original `brk`: it carries out the plan. */
  method OriginalBrk(mm: Mm, commit: Commit, brk: int, l: Layout, dataLimitOk: bool, securityOk: bool, mlockOk: bool,
                     rlimitAs: int, maxMapCount: int, o: BrkOutcomes) returns (ret: int)
    requires mm.Valid() && 0 <= brk < WORD && GoodLayout(l)
    modifies mm`tree, mm`slab, mm`nextId, mm`mapCount, mm`totalVm, mm`lockedVm, mm`brk, commit
    ensures mm.Valid() && ret == mm.brk
    ensures ToBytes(commit.pages) - mm.Charge() == old(ToBytes(commit.pages) - mm.Charge())
    ensures var p := old(OriginalPlan(mm.tree, mm.slab, QueryOf(mm, brk, l, dataLimitOk, securityOk, mlockOk)));
            && PlanDone(p, old(WorksIn(mm, p, rlimitAs, maxMapCount, o)), brk, old(mm.brk), mm.defFlags,
                        old(mm.Sees()), ret, mm.Sees())
            && mm.Now() == old(AfterIn(mm, p, rlimitAs, maxMapCount, o))
  {
    hide Consistent, Seen, Override, Without, Bytes, BytesWith, PageAlign, PlanFrom, UnmapWorks, GrowWorks, UnmapAfter;
    if brk < mm.startBrk {
      return mm.brk;
    }
    if !dataLimitOk {
      return mm.brk;
    }
    ret := MoveBreak(mm, commit, brk, l, dataLimitOk, securityOk, mlockOk, rlimitAs, maxMapCount, o);
  }

  /** The patched `brk`; `accepted` is the limiter's answer.  Accepted it carries out the original plan, and
      refused it does nothing. */
  method Brk(mm: Mm, commit: Commit, brk: int, l: Layout, dataLimitOk: bool, securityOk: bool, mlockOk: bool,
             accepted: bool, rlimitAs: int, maxMapCount: int, o: BrkOutcomes) returns (ret: int)
    requires mm.Valid() && 0 <= brk < WORD && GoodLayout(l)
    modifies mm`tree, mm`slab, mm`nextId, mm`mapCount, mm`totalVm, mm`lockedVm, mm`brk, commit
    ensures mm.Valid() && ret == mm.brk
    ensures ToBytes(commit.pages) - mm.Charge() == old(ToBytes(commit.pages) - mm.Charge())
    ensures old(mm.brk) < ret ==> AllDirty(mm.tree, mm.slab, PageAlign(old(mm.brk)), PageAlign(ret))
    ensures var q := old(QueryOf(mm, brk, l, dataLimitOk, securityOk, mlockOk));
            var p := if accepted then OriginalPlan(old(mm.tree), old(mm.slab), q) else Out;
            && PlanDone(p, old(WorksIn(mm, p, rlimitAs, maxMapCount, o)), brk, old(mm.brk), mm.defFlags,
                        old(mm.Sees()), ret, mm.Sees())
            && mm.Now() == old(AfterIn(mm, p, rlimitAs, maxMapCount, o))
  {
    hide Consistent, Seen, Override, Without, Bytes, BytesWith, PageAlign, PlanFrom, UnmapAfter, HeapAfter;
    if brk < mm.startBrk {
      return mm.brk;
    }
    if !dataLimitOk {
      return mm.brk;
    }
    if !accepted {
      return mm.brk;
    }
    ret := MoveBreak(mm, commit, brk, l, dataLimitOk, securityOk, mlockOk, rlimitAs, maxMapCount, o);
  }

  /** The part of `brk` that both versions share, after the first checks. */
  method MoveBreak(mm: Mm, commit: Commit, brk: int, l: Layout, dataLimitOk: bool, securityOk: bool, mlockOk: bool,
                   rlimitAs: int, maxMapCount: int, o: BrkOutcomes) returns (ret: int)
    requires mm.Valid() && mm.startBrk <= brk < WORD && GoodLayout(l) && dataLimitOk
    modifies mm`tree, mm`slab, mm`nextId, mm`mapCount, mm`totalVm, mm`lockedVm, mm`brk, commit
    ensures mm.Valid() && ret == mm.brk
    ensures ToBytes(commit.pages) - mm.Charge() == old(ToBytes(commit.pages) - mm.Charge())
    ensures old(mm.brk) < ret ==> AllDirty(mm.tree, mm.slab, PageAlign(old(mm.brk)), PageAlign(ret))
    ensures var p := old(PlanFrom(mm.tree, mm.slab, QueryOf(mm, brk, l, dataLimitOk, securityOk, mlockOk),
                                  PageAlign(brk), PageAlign(mm.brk)));
            && PlanDone(p, old(WorksIn(mm, p, rlimitAs, maxMapCount, o)), brk, old(mm.brk), mm.defFlags,
                        old(mm.Sees()), ret, mm.Sees())
            && mm.Now() == old(AfterIn(mm, p, rlimitAs, maxMapCount, o))
  {
    hide Consistent, Seen, Override, Without, Bytes, BytesWith, PageAlign, Sub64, Free, WithinLimits, RoomAbove,
         UnmapWorks;
    hide HeapJoins, HeapArea, UnmapAfter, HeapAfter;
    var origbrk := mm.brk;
    ghost var q := QueryOf(mm, brk, l, dataLimitOk, securityOk, mlockOk);
    PlanRanges(mm.tree, mm.slab, q);
    var newbrk, oldbrk := PageAlign(brk), PageAlign(mm.brk);
    if oldbrk == newbrk {
      mm.brk := brk;
      return brk;
    }
    if brk <= mm.brk {
      if First(mm.tree, newbrk, oldbrk).None? {
        return origbrk;
      }
      ret := ShrinkHeap(mm, commit, brk, newbrk, oldbrk, maxMapCount, o.unmap);
      return;
    }
    if !WithinLimits(Query(mm.startBrk, mm.brk, brk, l, dataLimitOk, securityOk, mlockOk), oldbrk,
                     Sub64(newbrk, oldbrk)) {
      return origbrk;
    }
    if !RoomAbove(mm.tree, mm.slab, oldbrk, newbrk, l.guard) {
      return origbrk;
    }
    LastKnown(mm.tree, mm.slab, mm.startBrk, oldbrk);
    var brkvma := BelowHeap(mm.tree, mm.startBrk, oldbrk);
    var ok := DoBrkFlags(mm, commit, brkvma, oldbrk, newbrk - oldbrk, rlimitAs, maxMapCount, o.grow);
    if !ok {
      return origbrk;
    }
    mm.brk := brk;
    ret := brk;
  }

  /** The shrinking half of `brk`. */
  method ShrinkHeap(mm: Mm, commit: Commit, brk: int, newbrk: int, oldbrk: int, maxMapCount: int, o: Outcomes)
    returns (ret: int)
    requires mm.Valid() && mm.startBrk <= brk <= mm.brk
    requires 0 <= newbrk < oldbrk <= TASK_SIZE && Aligned(newbrk) && Aligned(oldbrk)
    requires First(mm.tree, newbrk, oldbrk).Some?
    modifies mm`tree, mm`slab, mm`nextId, mm`mapCount, mm`totalVm, mm`lockedVm, mm`brk, commit
    ensures mm.Valid() && ret == mm.brk
    ensures ToBytes(commit.pages) - mm.Charge() == old(ToBytes(commit.pages) - mm.Charge())
    ensures mm.Now() == old(UnmapAfter(mm.Now(), mm.mapCount, newbrk, oldbrk, maxMapCount, o))
    ensures if old(UnmapWorks(mm.tree, mm.mapCount, newbrk, oldbrk, maxMapCount, o))
            then ret == brk && mm.Sees() == Without(old(mm.Sees()), newbrk, oldbrk)
            else ret == old(mm.brk) && mm.Sees() == old(mm.Sees())
  {
    hide Consistent, Seen, Override, Without, Bytes, BytesWith, Free, UnmapWorks, CutOut, UnmapAfter;
    var origbrk := mm.brk;
    var at := First(mm.tree, newbrk, oldbrk);
    FirstArea(mm.tree, mm.slab, newbrk, oldbrk);
    mm.brk := brk;
    var ok := AlignMunmap(mm, commit, Owner(mm.tree, at.value), newbrk, oldbrk, maxMapCount, o);
    if !ok {
      mm.brk := origbrk;
      return origbrk;
    }
    return brk;
  }
}
