/** The gated system calls of one task and what the limiter guarantees end to end. */
module GatedCalls {
  import opened Pages
  import opened Vmas
  import opened Trees
  import opened AddressSpaces
  import opened Unmapping
  import opened GapSearch
  import opened Mapping
  import opened Placement
  import opened HeapBreak
  import opened Limiter
  import opened Reshaping

  /** Memory a task uses, as the limiter measures it. */
  ghost function Usage(mm: Mm): int
    reads mm
  {
    ToBytes(mm.totalVm)
  }

  /** The most a task may use after a call: what it used before, or its limit in whole pages. */
  function Allowance(limits: map<int, nat>, pid: int, before: int): int
    requires pid in limits
  {
    Max(before, RoundUp(limits[pid]))
  }

  /** A mapped view grows by at most the length of a request, and shrinks when a range goes. */
  lemma OverrideBytesAtMost(v: View, want: Vma)
    requires want.start <= want.end
    ensures Bytes(Override(v, want)) <= Bytes(v) + (want.end - want.start)
  {
    RangeSize(want.start, want.end);
    var r := Range(want.start, want.end);
    assert Override(v, want).Keys == v.Keys + r;
    UnionAtMost(v.Keys, r);
  }

  lemma UnionAtMost(a: set<int>, b: set<int>)
    ensures |a + b| <= |a| + |b|
  {
    assert a + b == a + (b - a);
    SubsetSize(b - a, b);
  }

  lemma WithoutBytesAtMost(v: View, lo: int, hi: int)
    ensures Bytes(Without(v, lo, hi)) <= Bytes(v)
  {
    SubsetSize(Without(v, lo, hi).Keys, v.Keys);
  }

  /** A request the gate let through only because the sum wrapped is one the mapping code refuses:
      it rounds to zero or exceeds the address space.  Otherwise the rounded sum is within the
      rounded limit. */
  lemma GateOrRefusal(totalVm: int, len: int, limit: int)
    requires 0 <= ToBytes(totalVm) <= TASK_SIZE && 0 < len < WORD
    requires Add64(Add64(ToBytes(totalVm), 0), len) <= limit
    ensures || PageAlign(len) == 0
            || PageAlign(len) > TASK_SIZE
            || (PageAlign(len) == RoundUp(len) && ToBytes(totalVm) + RoundUp(len) <= RoundUp(limit))
  {
  }

  lemma UsageBounded(mm: Mm)
    requires mm.Valid()
    ensures 0 <= Usage(mm) <= TASK_SIZE
  {
    ViewBounded(mm);
  }

  /** A shrink by `d` bytes passes the gate: what remains is within the limit or, if the heap spans more than is
      mapped, so is the sum, which then does not wrap. */
  predicate ShrinkPasses(usage: int, d: int, limit: int) {
    || (d <= usage && usage - d <= limit)
    || (usage < d && WORD + usage - d <= limit)
  }

  /** The `brk` system call: what the original does, or nothing if the limiter refuses. */
  method SysBrk(mm: Mm, commit: Commit, lim: MemoryLimiter, pid: int, brk: int, l: Layout,
                dataLimitOk: bool, securityOk: bool, mlockOk: bool, rlimitAs: int, maxMapCount: int, o: BrkOutcomes)
    returns (ret: int, ghost accepted: bool)
    requires mm.Valid() && lim.Valid() && 0 <= brk < WORD && GoodLayout(l)
    modifies mm`tree, mm`slab, mm`nextId, mm`mapCount, mm`totalVm, mm`lockedVm, mm`brk, commit
    ensures mm.Valid() && ret == mm.brk
    ensures accepted == old(Accepts(lim.Limits(), pid, mm.totalVm,
                                    Asked(QueryOf(mm, brk, l, dataLimitOk, securityOk, mlockOk))))
    ensures pid !in lim.Limits() ==> accepted
    ensures var original := old(OriginalPlan(mm.tree, mm.slab, QueryOf(mm, brk, l, dataLimitOk, securityOk, mlockOk)));
            var p := if accepted then original else Out;
            && PlanDone(p, old(WorksIn(mm, p, rlimitAs, maxMapCount, o)), brk, old(mm.brk), mm.defFlags,
                        old(mm.Sees()), ret, mm.Sees())
            && (pid in lim.Limits() ==> GateExact(original, old(Usage(mm)), lim.Limits()[pid], accepted))
            && mm.Now() == old(AfterIn(mm, p, rlimitAs, maxMapCount, o))
    ensures pid in lim.Limits() ==> Usage(mm) <= old(Allowance(lim.Limits(), pid, Usage(mm)))
    ensures ToBytes(commit.pages) - mm.Charge() == old(ToBytes(commit.pages) - mm.Charge())
  {
    hide Consistent, Seen, Bytes, BytesWith, PageAlign, Sub64, Add64, RoundUp, OriginalPlan, PlanWorks, PlanDone,
         PlanAfter, GateExact, Accepts;
    ghost var q := QueryOf(mm, brk, l, dataLimitOk, securityOk, mlockOk);
    var asked := Sub64(PageAlign(brk), PageAlign(mm.brk));
    var answer := lim.IsRequestAccepted(pid, true, true, mm.totalVm, asked);
    accepted := answer;
    Unlisted(lim.Limits(), pid, mm.totalVm, asked);
    PlanRanges(mm.tree, mm.slab, q);
    UsageBounded(mm);
    ghost var original, v, oldBrk := OriginalPlan(mm.tree, mm.slab, q), mm.Sees(), mm.brk;
    ghost var p := if accepted then original else Out;
    ghost var works := WorksIn(mm, p, rlimitAs, maxMapCount, o);
    if pid in lim.Limits() {
      BrkGate(lim.Limits(), pid, mm.tree, mm.slab, q, mm.totalVm);
      if p.Grow? {
        GrowthFits(original, Usage(mm), lim.Limits()[pid]);
      }
    }
    ret := Brk(mm, commit, brk, l, dataLimitOk, securityOk, mlockOk, answer, rlimitAs, maxMapCount, o);
    BrkGrowth(p, works, brk, oldBrk, mm.defFlags, v, ret, mm.Sees());
  }

  lemma Unlisted(limits: map<int, nat>, pid: int, totalVm: int, requested: int)
    ensures pid !in limits ==> Accepts(limits, pid, totalVm, requested)
  {
  }

  /** A heap adds at most its length; everything else adds nothing. */
  lemma BrkGrowth(p: Plan, works: bool, brk: int, oldBrk: int, defFlags: set<Flag>, before: View, ret: int, after: View)
    requires PlanDone(p, works, brk, oldBrk, defFlags, before, ret, after) && (p.Grow? ==> p.lo <= p.hi)
    ensures Bytes(after) <= Bytes(before) + if p.Grow? then p.hi - p.lo else 0
  {
    hide Override, Without, Bytes;
    match p
    case Shrink(lo, hi) => WithoutBytesAtMost(before, lo, hi);
    case Grow(lo, hi) => OverrideBytesAtMost(before, HeapArea(lo, hi, defFlags));
    case _ =>
  }

  /** Accepted growth ends within the limit. */
  lemma GrowthFits(p: Plan, usage: int, limit: nat)
    requires p.Grow? && GateExact(p, usage, limit, true)
    ensures usage + (p.hi - p.lo) <= RoundUp(limit)
  {
  }

  /** What the gate says to a planned move of the break: a growth passes if usage after it is within the limit, a
      break that stays in its page if usage is, and a shrink as above. */
  ghost predicate GateExact(p: Plan, usage: int, limit: int, accepted: bool) {
    && (p.Grow? ==> (accepted <==> usage + (p.hi - p.lo) <= limit))
    && (p.SetOnly? ==> (accepted <==> usage <= limit))
    && (p.Shrink? ==> (accepted <==> ShrinkPasses(usage, p.hi - p.lo, limit)))
  }

  lemma BrkGate(limits: map<int, nat>, pid: int, t: Tree, s: Slab, q: Query, totalVm: int)
    requires pid in limits && Consistent(t, s) && GoodQuery(q) && 0 <= ToBytes(totalVm) <= TASK_SIZE
    ensures GateExact(OriginalPlan(t, s, q), ToBytes(totalVm), limits[pid], Accepts(limits, pid, totalVm, Asked(q)))
  {
    hide OriginalPlan, Consistent, Asked, Accepts;
    if OriginalPlan(t, s, q).Shrink? {
      ShrinkGate(limits, pid, t, s, q, totalVm);
    }
    GrowthGate(limits, pid, t, s, q, totalVm);
  }

  /** The gate also answers for shrinking, and can refuse it: exactly when a shrink passes, for every `brk` that
      the original would carry out as one. */
  lemma ShrinkGate(limits: map<int, nat>, pid: int, t: Tree, s: Slab, q: Query, totalVm: int)
    requires pid in limits && Consistent(t, s) && GoodQuery(q) && 0 <= ToBytes(totalVm) <= TASK_SIZE
    requires OriginalPlan(t, s, q).Shrink?
    ensures var p := OriginalPlan(t, s, q);
            Accepts(limits, pid, totalVm, Asked(q)) <==> ShrinkPasses(ToBytes(totalVm), p.hi - p.lo, limits[pid])
  {
    hide OriginalPlan, Consistent, Asked;
    var p := OriginalPlan(t, s, q);
    PlanRanges(t, s, q);
    var usage, d := ToBytes(totalVm), p.hi - p.lo;
    assert Add64(usage, 0) == usage;
    assert Add64(usage, WORD - d) == if d <= usage then usage - d else WORD + usage - d;
  }

  /** A growth passes if and only if usage after it is within the limit, and a break that stays in its page if and
      only if usage is. */
  lemma GrowthGate(limits: map<int, nat>, pid: int, t: Tree, s: Slab, q: Query, totalVm: int)
    requires pid in limits && Consistent(t, s) && GoodQuery(q) && 0 <= ToBytes(totalVm) <= TASK_SIZE
    ensures var p, usage := OriginalPlan(t, s, q), ToBytes(totalVm);
            && (p.Grow? ==> (Accepts(limits, pid, totalVm, Asked(q)) <==> usage + (p.hi - p.lo) <= limits[pid]))
            && (p.SetOnly? ==> (Accepts(limits, pid, totalVm, Asked(q)) <==> usage <= limits[pid]))
  {
    hide OriginalPlan, Consistent, Accepts, NextLeavesRoom, PageAlign;
    PlanRanges(t, s, q);
    PlanExact(t, s, q);
    if OriginalPlan(t, s, q).SetOnly? {
      AlignFacts(q.cur);
      AlignFacts(q.brk);
    }
    AcceptsExact(limits, pid, totalVm, Asked(q));
  }

  // ---------------------------------------------------------------- two shrinks that are refused

  /** A heap of which [start, 12288) is mapped. */
  function SomeHeap(start: int): Vma {
    HeapArea(start, 12288, {})
  }

  function SomeLayout(): Layout {
    Layout(false, 4096, 4096, 0, 0)
  }

  lemma SomeHeapFacts(start: int)
    requires start == 4096 || start == 8192
    ensures var t, s := Store(map[], start, 12288, 1), map[1 := SomeHeap(start)];
            && Consistent(t, s) && Bytes(Seen(t, s)) == 12288 - start
            && 8192 in t
  {
    var v := SomeHeap(start);
    assert Seen(map[], map[]) == map[];
    InsertKeeps(map[], map[], 1, v);
    OverrideTally(map[], v, Account);
    assert map[][1 := v] == map[1 := v];
  }

  /** A task above its limit may not give memory back unless what remains is within the limit. */
  lemma ShrinkRefusedAbove()
    ensures var t, s, q := Store(map[], 4096, 12288, 1), map[1 := SomeHeap(4096)],
                           Query(4096, 12288, 8192, SomeLayout(), true, true, true);
            && Consistent(t, s) && GoodQuery(q) && Bytes(Seen(t, s)) == ToBytes(2)
            && OriginalPlan(t, s, q) == Shrink(8192, 12288)
            && !Accepts(map[7 := 0], 7, 2, Asked(q))
  {
    SomeHeapFacts(4096);
    hide Consistent, Seen, Store;
    assert PageAlign(8192) == 8192 && PageAlign(12288) == 12288;
  }

  /** A task far below its limit may not move the break down over a heap it has mostly unmapped already. */
  lemma ShrinkRefusedBelow()
    ensures var t, s, q := Store(map[], 8192, 12288, 1), map[1 := SomeHeap(8192)],
                           Query(4096, 12288, 4096, SomeLayout(), true, true, true);
            && Consistent(t, s) && GoodQuery(q) && Bytes(Seen(t, s)) == ToBytes(1)
            && OriginalPlan(t, s, q) == Shrink(4096, 12288)
            && !Accepts(map[7 := 1000000000], 7, 1, Asked(q))
  {
    SomeHeapFacts(8192);
    hide Consistent, Seen, Store;
    assert PageAlign(4096) == 4096 && PageAlign(12288) == 12288;
  }

  // ---------------------------------------------------------------- mmap and munmap

  /** The `mmap` system call, gated on the length before rounding: what `do_mmap` does, or ENOMEM. */
  method SysMmap(mm: Mm, commit: Commit, lim: MemoryLimiter, pid: int, a: Args, l: Layout,
                 rlimitAs: int, maxMapCount: int, v: Verdicts)
    returns (r: Mapped, ghost accepted: bool, ghost mapped: Option<FileId>)
    requires mm.Valid() && lim.Valid() && GoodArgs(a) && GoodLayout(l)
    modifies mm`tree, mm`slab, mm`nextId, mm`mapCount, mm`totalVm, mm`lockedVm, commit
    ensures mm.Valid()
    ensures accepted == old(Accepts(lim.Limits(), pid, mm.totalVm, a.len))
    ensures pid !in lim.Limits() ==> accepted
    ensures pid in lim.Limits() && old(Usage(mm)) + a.len < WORD ==>
              (accepted <==> old(Usage(mm)) + a.len <= lim.Limits()[pid])
    ensures var original := old(MmapEnds(mm.tree, mm.slab, mm.totalVm, mm.mapCount, a, l, rlimitAs, maxMapCount, v));
            MmapDone(if accepted then original else Refuses(AddressSpaces.ENOMEM), a, old(mm.Sees()), r, mapped,
                     mm.Sees())
    ensures mm.Now() == if accepted
                        then old(MmapAfter(mm.Now(), mm.totalVm, mm.mapCount, a, l, rlimitAs, maxMapCount, v))
                        else old(mm.Now())
    ensures pid in lim.Limits() ==> Usage(mm) <= old(Allowance(lim.Limits(), pid, Usage(mm)))
    ensures ToBytes(commit.pages) - mm.Charge() == old(ToBytes(commit.pages) - mm.Charge())
  {
    hide Consistent, Seen, Override, Without, Bytes, BytesWith, PageAlign, Add64, RoundUp, Wanted, Placed, MmapEnds;
    hide MmapDone, AlignedLayout, ClearAbove, MmapAfter;
    mapped := None;
    var answer := lim.IsRequestAccepted(pid, true, true, mm.totalVm, a.len);
    accepted := answer;
    UsageBounded(mm);
    AcceptsExact(lim.Limits(), pid, mm.totalVm, a.len);
    if !answer {
      RefusalDone(a, mm.Sees());
      return Failed(AddressSpaces.ENOMEM), accepted, mapped;
    }
    ghost var before, used := mm.Sees(), mm.totalVm;
    ghost var e := MmapEnds(mm.tree, mm.slab, mm.totalVm, mm.mapCount, a, l, rlimitAs, maxMapCount, v);
    MmapEndsMean(mm.tree, mm.slab, mm.totalVm, mm.mapCount, a, l, rlimitAs, maxMapCount, v);
    r, mapped := DoMmap(mm, commit, a, l, rlimitAs, maxMapCount, v);
    MmapGrowth(e, a, before, r, mapped, mm.Sees());
    if pid in lim.Limits() && e.Reaches? {
      GateOrRefusal(used, a.len, lim.Limits()[pid]);
    }
  }

  lemma RefusalDone(a: Args, v: View)
    requires GoodArgs(a)
    ensures MmapDone(Refuses(AddressSpaces.ENOMEM), a, v, Failed(AddressSpaces.ENOMEM), None, v)
  {
  }

  /** A mapping adds at most its rounded length; everything else adds nothing. */
  lemma MmapGrowth(e: MmapEnd, a: Args, before: View, r: Mapped, mapped: Option<FileId>, after: View)
    requires GoodArgs(a) && MmapDone(e, a, before, r, mapped, after)
    ensures Bytes(after) <= Bytes(before) + if e.Reaches? then PageAlign(a.len) else 0
  {
    hide Override, Without, Bytes, PageAlign, Wanted, Placed;
    if e.Reaches? {
      var len := PageAlign(a.len);
      WantedRange(a, e.addr, len, mapped);
      WithoutBytesAtMost(before, e.addr, e.addr + len);
      OverrideBytesAtMost(before, Placed(Wanted(a, e.addr, len), mapped));
    }
  }

  lemma WantedRange(a: Args, addr: int, len: int, mapped: Option<FileId>)
    ensures var p := Placed(Wanted(a, addr, len), mapped);
            && p.start == addr && p.end == addr + len
            && Wanted(a, addr, len).start == addr && Wanted(a, addr, len).end == addr + len
  {
  }

  /** `munmap` is not gated. */
  method SysMunmap(mm: Mm, commit: Commit, start: int, len: int, maxMapCount: int, o: Outcomes) returns (err: Errno)
    requires mm.Valid() && 0 <= start < WORD && 0 <= len < WORD
    modifies mm`tree, mm`slab, mm`nextId, mm`mapCount, mm`totalVm, mm`lockedVm, commit
    ensures mm.Valid() && Usage(mm) <= old(Usage(mm))
    ensures err.Success? ==> mm.Sees() == Without(old(mm.Sees()), start, start + RoundUp(len))
    ensures !err.Success? ==> mm.Sees() == old(mm.Sees())
    ensures err == EINVAL <==> BadRange(start, len)
    ensures err.Success? <==>
              !BadRange(start, len) && old(Unmappable(mm.tree, mm.mapCount, start, start + RoundUp(len), maxMapCount,
                                                      o))
    ensures err in {Success, EINVAL, AddressSpaces.ENOMEM}
    ensures mm.Now() == old(MunmapAfter(mm.Now(), mm.mapCount, start, len, maxMapCount, o))
    ensures ToBytes(commit.pages) - mm.Charge() == old(ToBytes(commit.pages) - mm.Charge())
  {
    hide Consistent, Seen, Without, Bytes, BytesWith, RoundUp, Unmappable, CutOut, MunmapAfter;
    WithoutBytesAtMost(mm.Sees(), start, start + RoundUp(len));
    err := DoMunmap(mm, commit, start, len, maxMapCount, o);
  }

  // ---------------------------------------------------------------- refinement of the original calls

  /** Two address spaces in the same state. */
  ghost predicate Twins(mm: Mm, twin: Mm)
    reads mm, twin
  {
    && mm != twin && twin.Now() == mm.Now()
    && twin.mapCount == mm.mapCount && twin.totalVm == mm.totalVm && twin.lockedVm == mm.lockedVm
    && twin.startBrk == mm.startBrk && twin.brk == mm.brk && twin.defFlags == mm.defFlags
  }

  /** The counters follow from the areas. */
  lemma SameCounters(mm: Mm, twin: Mm)
    requires mm.Valid() && twin.Valid() && twin.Now() == mm.Now()
    ensures twin.mapCount == mm.mapCount && twin.totalVm == mm.totalVm && twin.lockedVm == mm.lockedVm
    ensures twin.Charge() == mm.Charge()
  {
    hide Consistent, Seen, Bytes, BytesWith;
  }

  // ---------------------------------------------------------------- whole runs of one task

  datatype Call =
    | CallBrk(brk: int, dataLimitOk: bool, securityOk: bool, mlockOk: bool, grow: BrkOutcomes)
    | CallMmap(args: Args, verdicts: Verdicts)
    | CallMunmap(start: int, len: int, unmap: Outcomes)

  predicate GoodCall(c: Call) {
    match c
    case CallBrk(brk, _, _, _, _) => 0 <= brk < WORD
    case CallMmap(args, _) => GoodArgs(args)
    case CallMunmap(start, len, _) => 0 <= start < WORD && 0 <= len < WORD
  }

  /** The call asks for no stack that would not be charged for. */
  predicate ChargesStacks(c: Call) {
    c.CallMmap? && GrowsDown in c.args.flags ==> Accountable(c.args.flags)
  }

  /** A finished `mmap` leaves charged stacks charged. */
  lemma MmapAccounted(e: MmapEnd, a: Args, before: View, r: Mapped, mapped: Option<FileId>, after: View)
    requires GoodArgs(a) && MmapDone(e, a, before, r, mapped, after)
    requires StacksAccounted(before) && (GrowsDown in a.flags ==> Accountable(a.flags))
    ensures StacksAccounted(after)
  {
    hide Override, Without, StacksAccounted, PageAlign;
    if e.Reaches? {
      var want := Wanted(a, e.addr, PageAlign(a.len));
      WithoutAccounted(before, want.start, want.end);
      OverrideAccounted(before, Placed(want, mapped));
    }
  }

  /** So does a finished `brk`: the heap is always charged for. */
  lemma BrkAccounted(p: Plan, works: bool, brk: int, oldBrk: int, defFlags: set<Flag>, before: View, ret: int,
                     after: View)
    requires PlanDone(p, works, brk, oldBrk, defFlags, before, ret, after) && StacksAccounted(before)
    ensures StacksAccounted(after)
  {
    hide Override, Without, StacksAccounted;
    match p
    case Shrink(lo, hi) => WithoutAccounted(before, lo, hi);
    case Grow(lo, hi) => OverrideAccounted(before, HeapArea(lo, hi, defFlags));
    case _ =>
  }

  /** What a call gives back. */
  datatype Answer = BrkAnswer(brk: int) | MapAnswer(result: Mapped) | UnmapAnswer(err: Errno)

  /** The answer of a refused call. */
  ghost predicate Denied(c: Call, brk: int, answer: Answer) {
    match c
    case CallBrk(_, _, _, _, _) => answer == BrkAnswer(brk)
    case CallMmap(_, _) => answer == MapAnswer(Failed(AddressSpaces.ENOMEM))
    case CallMunmap(_, _, _) => false
  }

  // ---------------------------------------------------------------- calls as functions of the address space

  ghost function QueryIn(i: Image, c: Call, l: Layout): Query
    requires c.CallBrk?
  {
    Query(i.startBrk, i.brk, c.brk, l, c.dataLimitOk, c.securityOk, c.mlockOk)
  }

  /** `brk` moves the break. */
  ghost predicate Moves(i: Image, l: Layout, rlimitAs: int, maxMapCount: int, c: Call)
    requires i.Good() && GoodLayout(l) && GoodCall(c) && c.CallBrk?
  {
    PlanWorks(OriginalPlan(i.now.tree, i.now.slab, QueryIn(i, c, l)), i.now.tree, i.now.slab, i.startBrk, i.defFlags,
              i.Pages(), i.Areas(), rlimitAs, maxMapCount, c.grow)
  }

  /** What the original kernel answers ... */
  ghost function OriginalAnswer(i: Image, l: Layout, rlimitAs: int, maxMapCount: int, c: Call): Answer
    requires i.Good() && GoodLayout(l) && GoodCall(c)
  {
    match c
    case CallBrk(brk, _, _, _, _) => BrkAnswer(if Moves(i, l, rlimitAs, maxMapCount, c) then brk else i.brk)
    case CallMmap(a, v) =>
      MapAnswer(ResultOf(MmapEnds(i.now.tree, i.now.slab, i.Pages(), i.Areas(), a, l, rlimitAs, maxMapCount, v)))
    case CallMunmap(start, len, o) =>
      UnmapAnswer(if BadRange(start, len) then EINVAL
                  else if Unmappable(i.now.tree, i.Areas(), start, start + RoundUp(len), maxMapCount, o) then Success
                  else AddressSpaces.ENOMEM)
  }

  ghost function ResultOf(e: MmapEnd): Mapped {
    match e
    case Refuses(err) => Failed(err)
    case Reaches(addr, region) => if region.InPlace? then Mapped(addr) else Failed(region.err)
  }

  /** ... and the address space it leaves. */
  ghost function OriginalAfter(i: Image, l: Layout, rlimitAs: int, maxMapCount: int, c: Call): Image
    requires i.Good() && GoodLayout(l) && GoodCall(c)
  {
    match c
    case CallBrk(brk, _, _, _, o) =>
      var works := Moves(i, l, rlimitAs, maxMapCount, c);
      i.(now := PlanAfter(OriginalPlan(i.now.tree, i.now.slab, QueryIn(i, c, l)), works, i.now, i.Areas(), i.startBrk,
                          i.defFlags, maxMapCount, o),
         brk := if works then brk else i.brk)
    case CallMmap(a, v) => i.(now := MmapAfter(i.now, i.Pages(), i.Areas(), a, l, rlimitAs, maxMapCount, v))
    case CallMunmap(start, len, o) => i.(now := MunmapAfter(i.now, i.Areas(), start, len, maxMapCount, o))
  }

  /** The limiter lets a call pass. */
  ghost predicate PassesIn(limits: map<int, nat>, pid: int, i: Image, l: Layout, c: Call)
    requires i.Good() && GoodLayout(l) && GoodCall(c)
  {
    match c
    case CallBrk(_, _, _, _, _) => Accepts(limits, pid, i.Pages(), Asked(QueryIn(i, c, l)))
    case CallMmap(a, _) => Accepts(limits, pid, i.Pages(), a.len)
    case CallMunmap(_, _, _) => true
  }

  /** One call of the patched kernel: the original's answer and address space, or a denial that changes nothing. */
  ghost predicate Does(limits: map<int, nat>, pid: int, l: Layout, rlimitAs: int, maxMapCount: int, c: Call, i: Image,
                       answer: Answer, i': Image)
    requires GoodLayout(l) && GoodCall(c)
  {
    && i.Good() && i'.Good()
    && if PassesIn(limits, pid, i, l, c)
       then
         && answer == OriginalAnswer(i, l, rlimitAs, maxMapCount, c)
         && i' == OriginalAfter(i, l, rlimitAs, maxMapCount, c)
       else Denied(c, i.brk, answer) && i' == i
  }

  /** A call of the patched kernel, whichever it is, does what is said above; a limited task ends at or below its
      allowance, and the commit charge follows. */
  method OneCall(mm: Mm, commit: Commit, lim: MemoryLimiter, pid: int, l: Layout, rlimitAs: int, maxMapCount: int,
                 c: Call)
    returns (answer: Answer)
    requires mm.Valid() && lim.Valid() && GoodLayout(l) && GoodCall(c)
    modifies mm`tree, mm`slab, mm`nextId, mm`mapCount, mm`totalVm, mm`lockedVm, mm`brk, commit
    ensures mm.Valid()
    ensures Does(lim.Limits(), pid, l, rlimitAs, maxMapCount, c, old(mm.Looks()), answer, mm.Looks())
    ensures pid in lim.Limits() ==> Usage(mm) <= old(Allowance(lim.Limits(), pid, Usage(mm)))
    ensures ToBytes(commit.pages) - mm.Charge() == old(ToBytes(commit.pages) - mm.Charge())
    ensures old(StacksAccounted(mm.Sees())) && ChargesStacks(c) ==> StacksAccounted(mm.Sees())
  {
    hide Consistent, Seen, Bytes, BytesWith, StacksAccounted, Accountable, Without, PlanDone, MmapDone, MmapEnds,
         OriginalPlan, Unmappable, PlanWorks, PlanAfter;
    hide MmapAfter, MunmapAfter, Accepts, Asked, Image.Pages, ShrinkPasses;
    ghost var before := mm.Sees();
    LooksGood(mm);
    match c
    case CallBrk(brk, dataLimitOk, securityOk, mlockOk, grow) =>
      ghost var q := QueryOf(mm, brk, l, dataLimitOk, securityOk, mlockOk);
      ghost var original, oldBrk := OriginalPlan(mm.tree, mm.slab, q), mm.brk;
      ghost var works := WorksIn(mm, original, rlimitAs, maxMapCount, grow);
      NoPlan(mm, rlimitAs, maxMapCount, grow);
      var ret, accepted := SysBrk(mm, commit, lim, pid, brk, l, dataLimitOk, securityOk, mlockOk, rlimitAs,
                                  maxMapCount, grow);
      ghost var p, done := if accepted then original else Out, accepted && works;
      BrkReturns(p, done, brk, oldBrk, mm.defFlags, before, ret, mm.Sees());
      if StacksAccounted(before) {
        BrkAccounted(p, done, brk, oldBrk, mm.defFlags, before, ret, mm.Sees());
      }
      answer := BrkAnswer(ret);
      LooksGood(mm);
    case CallMmap(args, verdicts) =>
      ghost var e := MmapEnds(mm.tree, mm.slab, mm.totalVm, mm.mapCount, args, l, rlimitAs, maxMapCount, verdicts);
      var r, accepted, mapped := SysMmap(mm, commit, lim, pid, args, l, rlimitAs, maxMapCount, verdicts);
      ghost var e' := if accepted then e else Refuses(AddressSpaces.ENOMEM);
      MmapReturns(e', args, before, r, mapped, mm.Sees());
      if StacksAccounted(before) && ChargesStacks(c) {
        MmapAccounted(e', args, before, r, mapped, mm.Sees());
      }
      answer := MapAnswer(r);
      LooksGood(mm);
    case CallMunmap(start, len, unmap) =>
      var err := SysMunmap(mm, commit, start, len, maxMapCount, unmap);
      if StacksAccounted(before) {
        WithoutAccounted(before, start, start + RoundUp(len));
      }
      answer := UnmapAnswer(err);
      LooksGood(mm);
  }

  lemma BrkReturns(p: Plan, works: bool, brk: int, oldBrk: int, defFlags: set<Flag>, before: View, ret: int,
                   after: View)
    requires PlanDone(p, works, brk, oldBrk, defFlags, before, ret, after)
    ensures ret == if works then brk else oldBrk
  {
  }

  /** Planning nothing does nothing. */
  lemma NoPlan(mm: Mm, rlimitAs: int, maxMapCount: int, o: BrkOutcomes)
    requires mm.Valid()
    ensures !WorksIn(mm, Out, rlimitAs, maxMapCount, o) && AfterIn(mm, Out, rlimitAs, maxMapCount, o) == mm.Now()
  {
  }

  lemma MmapReturns(e: MmapEnd, a: Args, before: View, r: Mapped, mapped: Option<FileId>, after: View)
    requires GoodArgs(a) && MmapDone(e, a, before, r, mapped, after)
    ensures r == ResultOf(e)
  {
  }

  /** The same calls of the original kernel. */
  method OriginalCall(mm: Mm, commit: Commit, l: Layout, rlimitAs: int, maxMapCount: int, c: Call)
    returns (answer: Answer)
    requires mm.Valid() && GoodLayout(l) && GoodCall(c)
    modifies mm`tree, mm`slab, mm`nextId, mm`mapCount, mm`totalVm, mm`lockedVm, mm`brk, commit
    ensures mm.Valid() && old(mm.Looks().Good())
    ensures answer == old(OriginalAnswer(mm.Looks(), l, rlimitAs, maxMapCount, c))
    ensures mm.Looks() == old(OriginalAfter(mm.Looks(), l, rlimitAs, maxMapCount, c))
    ensures ToBytes(commit.pages) - mm.Charge() == old(ToBytes(commit.pages) - mm.Charge())
  {
    hide Consistent, Seen, Bytes, BytesWith, Without, PlanDone, MmapDone, MmapEnds, OriginalPlan, Unmappable, PlanWorks,
         PlanAfter, MmapAfter, MunmapAfter, Image.Pages;
    ghost var before := mm.Sees();
    LooksGood(mm);
    match c
    case CallBrk(brk, dataLimitOk, securityOk, mlockOk, grow) =>
      ghost var p := OriginalPlan(mm.tree, mm.slab, QueryOf(mm, brk, l, dataLimitOk, securityOk, mlockOk));
      ghost var works, oldBrk := WorksIn(mm, p, rlimitAs, maxMapCount, grow), mm.brk;
      var ret := OriginalBrk(mm, commit, brk, l, dataLimitOk, securityOk, mlockOk, rlimitAs, maxMapCount, grow);
      BrkReturns(p, works, brk, oldBrk, mm.defFlags, before, ret, mm.Sees());
      answer := BrkAnswer(ret);
    case CallMmap(args, verdicts) =>
      ghost var e := MmapEnds(mm.tree, mm.slab, mm.totalVm, mm.mapCount, args, l, rlimitAs, maxMapCount, verdicts);
      var r, mapped := DoMmap(mm, commit, args, l, rlimitAs, maxMapCount, verdicts);
      MmapReturns(e, args, before, r, mapped, mm.Sees());
      answer := MapAnswer(r);
    case CallMunmap(start, len, unmap) =>
      var err := SysMunmap(mm, commit, start, len, maxMapCount, unmap);
      answer := UnmapAnswer(err);
  }

  /** One call of the patched kernel beside the original kernel on a twin, which sees it only if it is accepted. */
  method CallRefines(mm: Mm, twin: Mm, commit: Commit, commit2: Commit, lim: MemoryLimiter, pid: int, l: Layout,
                     rlimitAs: int, maxMapCount: int, c: Call)
    returns (answer: Answer, original: Answer, ghost accepted: bool)
    requires mm.Valid() && twin.Valid() && Twins(mm, twin) && commit != commit2
    requires lim.Valid() && GoodLayout(l) && GoodCall(c)
    modifies mm, twin, commit, commit2
    ensures mm.Valid() && twin.Valid() && Twins(mm, twin)
    ensures commit.pages - old(commit.pages) == commit2.pages - old(commit2.pages)
    ensures Does(lim.Limits(), pid, l, rlimitAs, maxMapCount, c, old(mm.Looks()), answer, mm.Looks())
    ensures accepted == old(PassesIn(lim.Limits(), pid, mm.Looks(), l, c))
    ensures accepted ==> answer == original
  {
    hide Consistent, Seen, Bytes, BytesWith, OriginalAnswer, OriginalAfter, PassesIn, Denied;
    LooksGood(mm);
    accepted := PassesIn(lim.Limits(), pid, mm.Looks(), l, c);
    var answered := Gate(mm, lim, pid, l, c);
    answer := OneCall(mm, commit, lim, pid, l, rlimitAs, maxMapCount, c);
    original := answer;
    if answered {
      original := OriginalCall(twin, commit2, l, rlimitAs, maxMapCount, c);
    }
    SameCounters(mm, twin);
  }

  /** The limiter's answer to a call. */
  method Gate(mm: Mm, lim: MemoryLimiter, pid: int, l: Layout, c: Call) returns (ok: bool)
    requires mm.Valid() && lim.Valid() && GoodLayout(l) && GoodCall(c)
    ensures mm.Looks().Good() && ok == PassesIn(lim.Limits(), pid, mm.Looks(), l, c)
  {
    hide Consistent, Seen, Bytes, BytesWith, Accepts, PageAlign, Sub64, Image.Pages;
    LooksGood(mm);
    match c
    case CallBrk(brk, _, _, _, _) =>
      ok := lim.IsRequestAccepted(pid, true, true, mm.totalVm, Sub64(PageAlign(brk), PageAlign(mm.brk)));
    case CallMmap(args, _) => ok := lim.IsRequestAccepted(pid, true, true, mm.totalVm, args.len);
    case CallMunmap(_, _, _) => ok := true;
  }

  // ---------------------------------------------------------------- runs

  /** A run of the patched kernel: the address space before each call and after the last, and the answers. */
  ghost predicate IsRun(limits: map<int, nat>, pid: int, l: Layout, rlimitAs: int, maxMapCount: int, calls: seq<Call>,
                        images: seq<Image>, answers: seq<Answer>)
    requires GoodLayout(l) && forall k | 0 <= k < |calls| :: GoodCall(calls[k])
  {
    && |answers| == |calls| && |images| == |calls| + 1
    && forall k | 0 <= k < |calls| ::
         Does(limits, pid, l, rlimitAs, maxMapCount, calls[k], images[k], answers[k], images[k + 1])
  }

  /** The original kernel gets from `i` to `i'` by these calls with these answers. */
  ghost predicate Leads(l: Layout, rlimitAs: int, maxMapCount: int, i: Image, calls: seq<Call>, answers: seq<Answer>,
                        i': Image)
    requires GoodLayout(l) && forall k | 0 <= k < |calls| :: GoodCall(calls[k])
    decreases |calls|
  {
    && |answers| == |calls|
    && if calls == [] then i' == i
       else
         && i.Good() && answers[0] == OriginalAnswer(i, l, rlimitAs, maxMapCount, calls[0])
         && Leads(l, rlimitAs, maxMapCount, OriginalAfter(i, l, rlimitAs, maxMapCount, calls[0]), calls[1..],
                  answers[1..], i')
  }

  /** The entries that are marked. */
  function Chosen<T>(xs: seq<T>, marks: seq<bool>): (r: seq<T>)
    requires |marks| == |xs|
    ensures forall x | x in r :: x in xs
  {
    if xs == [] then [] else (if marks[0] then [xs[0]] else []) + Chosen(xs[1..], marks[1..])
  }

  /** Every run of the patched kernel is a run of the original kernel on the calls that pass, with the same answers,
      from and to the same address space. */
  lemma {:induction false} RunIsOriginal(limits: map<int, nat>, pid: int, l: Layout, rlimitAs: int, maxMapCount: int,
                                         calls: seq<Call>, images: seq<Image>, answers: seq<Answer>, passed: seq<bool>)
    requires GoodLayout(l) && forall k | 0 <= k < |calls| :: GoodCall(calls[k])
    requires IsRun(limits, pid, l, rlimitAs, maxMapCount, calls, images, answers) && |passed| == |calls|
    requires forall k | 0 <= k < |calls| ::
               images[k].Good() && passed[k] == PassesIn(limits, pid, images[k], l, calls[k])
    ensures forall c | c in Chosen(calls, passed) :: GoodCall(c)
    ensures Leads(l, rlimitAs, maxMapCount, images[0], Chosen(calls, passed), Chosen(answers, passed), images[|calls|])
    decreases |calls|
  {
    hide PassesIn, OriginalAnswer, OriginalAfter, Denied;
    if calls != [] {
      var rest, later, said := calls[1..], images[1..], answers[1..];
      assert Does(limits, pid, l, rlimitAs, maxMapCount, calls[0], images[0], answers[0], images[0 + 1]);
      forall k | 0 <= k < |rest|
        ensures Does(limits, pid, l, rlimitAs, maxMapCount, rest[k], later[k], said[k], later[k + 1])
      {
        assert Does(limits, pid, l, rlimitAs, maxMapCount, calls[k + 1], images[k + 1], answers[k + 1],
                    images[k + 1 + 1]);
      }
      RunIsOriginal(limits, pid, l, rlimitAs, maxMapCount, rest, later, said, passed[1..]);
      var more, told := Chosen(rest, passed[1..]), Chosen(said, passed[1..]);
      if passed[0] {
        assert ([calls[0]] + more)[1..] == more && ([answers[0]] + told)[1..] == told;
      } else {
        assert [] + more == more && [] + told == told;
      }
    }
  }

  /** Every run of the patched kernel beside the original kernel on a twin: the patched kernel goes through the run
      described above, the original kernel gives the same answers to the calls that pass, and at the end the twins are
      equal, area by area and counter by counter, and so is the charge.  An unlisted task has no call denied. */
  method RunRefines(mm: Mm, twin: Mm, commit: Commit, commit2: Commit, lim: MemoryLimiter, pid: int, l: Layout,
                    rlimitAs: int, maxMapCount: int, calls: seq<Call>)
    returns (answers: seq<Answer>, originals: seq<Answer>, ghost passed: seq<bool>, ghost images: seq<Image>)
    requires mm.Valid() && twin.Valid() && Twins(mm, twin) && commit != commit2
    requires lim.Valid() && GoodLayout(l) && forall i | 0 <= i < |calls| :: GoodCall(calls[i])
    modifies mm, twin, commit, commit2
    ensures mm.Valid() && twin.Valid() && Twins(mm, twin)
    ensures commit.pages - old(commit.pages) == commit2.pages - old(commit2.pages)
    ensures IsRun(lim.Limits(), pid, l, rlimitAs, maxMapCount, calls, images, answers)
    ensures images[0] == old(mm.Looks()) && images[|calls|] == mm.Looks()
    ensures |originals| == |passed| == |calls|
    ensures forall k | 0 <= k < |calls| ::
              images[k].Good() && passed[k] == PassesIn(lim.Limits(), pid, images[k], l, calls[k])
    ensures forall k | 0 <= k < |calls| && passed[k] :: answers[k] == originals[k]
    ensures pid !in lim.Limits() ==> forall k | 0 <= k < |calls| :: passed[k]
  {
    hide Consistent, Seen, Bytes, BytesWith, Denied, Asked, Does, PassesIn;
    answers, originals, passed, images := [], [], [], [mm.Looks()];
    for n := 0 to |calls|
      invariant mm.Valid() && twin.Valid() && Twins(mm, twin) && lim.Valid()
      invariant commit.pages - old(commit.pages) == commit2.pages - old(commit2.pages)
      invariant |answers| == |originals| == |passed| == n && |images| == n + 1
      invariant images[0] == old(mm.Looks()) && images[n] == mm.Looks()
      invariant forall k | 0 <= k < n ::
                  Does(lim.Limits(), pid, l, rlimitAs, maxMapCount, calls[k], images[k], answers[k], images[k + 1])
      invariant forall k | 0 <= k < n ::
                  images[k].Good() && passed[k] == PassesIn(lim.Limits(), pid, images[k], l, calls[k])
      invariant forall k | 0 <= k < n && passed[k] :: answers[k] == originals[k]
      invariant pid !in lim.Limits() ==> forall k | 0 <= k < n :: passed[k]
    {
      LooksGood(mm);
      UnlistedPass(lim.Limits(), pid, mm.Looks(), l, calls[n]);
      var answer, original, ok := CallRefines(mm, twin, commit, commit2, lim, pid, l, rlimitAs, maxMapCount, calls[n]);
      answers, originals, passed := answers + [answer], originals + [original], passed + [ok];
      images := images + [mm.Looks()];
    }
  }

  lemma UnlistedPass(limits: map<int, nat>, pid: int, i: Image, l: Layout, c: Call)
    requires i.Good() && GoodLayout(l) && GoodCall(c)
    ensures pid !in limits ==> PassesIn(limits, pid, i, l, c)
  {
  }

  /** Every run of a listed task with a fixed limit: the address space stays valid, the commit charge
      stays matched, and after every call, whatever fails on the way and whatever wraps, its usage is
      at most what it was at the start or its limit in whole pages. */
  method RunLimited(mm: Mm, commit: Commit, lim: MemoryLimiter, pid: int, l: Layout, rlimitAs: int, maxMapCount: int,
                    calls: seq<Call>) returns (answers: seq<Answer>, ghost images: seq<Image>)
    requires mm.Valid() && lim.Valid() && GoodLayout(l) && pid in lim.Limits()
    requires forall i | 0 <= i < |calls| :: GoodCall(calls[i])
    modifies mm`tree, mm`slab, mm`nextId, mm`mapCount, mm`totalVm, mm`lockedVm, mm`brk, commit
    ensures mm.Valid()
    ensures IsRun(lim.Limits(), pid, l, rlimitAs, maxMapCount, calls, images, answers)
    ensures images[0] == old(mm.Looks()) && images[|calls|] == mm.Looks()
    ensures forall k | 0 <= k < |images| ::
              ToBytes(images[k].Pages()) <= old(Allowance(lim.Limits(), pid, Usage(mm)))
    ensures ToBytes(commit.pages) - mm.Charge() == old(ToBytes(commit.pages) - mm.Charge())
  {
    hide Consistent, Seen, Bytes, BytesWith, RoundUp, Does, Image.Pages;
    answers, images := [], [mm.Looks()];
    LooksGood(mm);
    for n := 0 to |calls|
      invariant mm.Valid() && lim.Valid()
      invariant |answers| == n && |images| == n + 1 && images[0] == old(mm.Looks()) && images[n] == mm.Looks()
      invariant forall k | 0 <= k < n ::
                  Does(lim.Limits(), pid, l, rlimitAs, maxMapCount, calls[k], images[k], answers[k], images[k + 1])
      invariant forall k | 0 <= k < |images| ::
                  ToBytes(images[k].Pages()) <= old(Allowance(lim.Limits(), pid, Usage(mm)))
      invariant Usage(mm) <= old(Allowance(lim.Limits(), pid, Usage(mm)))
      invariant ToBytes(commit.pages) - mm.Charge() == old(ToBytes(commit.pages) - mm.Charge())
    {
      var answer := OneCall(mm, commit, lim, pid, l, rlimitAs, maxMapCount, calls[n]);
      LooksGood(mm);
      answers, images := answers + [answer], images + [mm.Looks()];
    }
  }
}
