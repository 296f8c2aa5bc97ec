/** Whole runs of a system of address spaces that map, unmap, move the break, grow stacks, fork and exit. */
module SystemRuns {
  import opened Pages
  import opened Vmas
  import opened Trees
  import opened AddressSpaces
  import opened Unmapping
  import opened Placement
  import opened Limiter
  import opened GatedCalls
  import opened Modifying
  import opened Reshaping
  import opened StackGrowth
  import opened Teardown
  import opened Forking

  ghost predicate AllDistinct(mms: seq<Mm>) {
    forall i, j | 0 <= i < j < |mms| :: mms[i] != mms[j]
  }

  function Sum(xs: seq<int>): int {
    if xs == [] then 0 else xs[0] + Sum(xs[1..])
  }

  lemma {:induction false} SumUpdate(xs: seq<int>, i: int, x: int)
    requires 0 <= i < |xs|
    ensures Sum(xs[i := x]) == Sum(xs) - xs[i] + x
  {
    if i == 0 {
      assert xs[0 := x][1..] == xs[1..];
    } else {
      SumUpdate(xs[1..], i - 1, x);
      assert xs[i := x][1..] == xs[1..][i - 1 := x];
    }
  }

  lemma {:induction false} SumWithout(xs: seq<int>, i: int)
    requires 0 <= i < |xs|
    ensures Sum(xs[..i] + xs[i + 1..]) == Sum(xs) - xs[i]
  {
    if i == 0 {
      assert xs[..0] + xs[1..] == xs[1..];
    } else {
      SumWithout(xs[1..], i - 1);
      assert (xs[..i] + xs[i + 1..])[1..] == xs[1..][..i - 1] + xs[1..][i..];
    }
  }

  lemma {:induction false} SumMoreOne(xs: seq<int>, x: int)
    ensures Sum(xs + [x]) == Sum(xs) + x
  {
    if xs == [] {
      assert xs + [x] == [x];
    } else {
      SumMoreOne(xs[1..], x);
      assert (xs + [x])[1..] == xs[1..] + [x];
    }
  }

  /** One event in the life of the system. */
  datatype Event =
    | DoStart(startBrk: int, defFlags: set<Flag>)
    | DoCall(who: int, pid: int, call: Call)
    | DoModify(who: int, start: int, end: int, keys: Vma, ok: ModifyOutcomes)
    | DoStack(who: int, fault: int, stack: StackOutcomes)
    | DoFork(who: int, initFlags: set<Flag>, allocOk: bool, binfmtOk: bool, fork: Fault)
    | DoExit(who: int)

  /** What the outside world decides during a change of attributes. */
  datatype ModifyOutcomes = ModifyOutcomes(clone: bool, prealloc: bool, low: bool, high: bool)

  predicate GoodEvent(e: Event) {
    match e
    case DoStart(startBrk, _) => 0 < startBrk <= TASK_SIZE
    case DoCall(_, _, call) => GoodCall(call)
    case DoModify(_, start, end, _, _) => start < end && Aligned(start) && Aligned(end)
    case DoStack(_, fault, _) => 0 <= fault < TASK_SIZE
    case DoFork(_, _, _, _, _) => true
    case DoExit(_) => true
  }

  /** The event makes no stack that is not charged for. */
  predicate KeepsCharged(e: Event) {
    match e
    case DoCall(_, _, call) => ChargesStacks(call)
    case DoModify(_, _, _, keys, _) => GrowsDown in keys.flags ==> Account in keys.flags
    case _ => true
  }

  /** System-wide settings. */
  datatype Config = Config(layout: Layout, rlimitAs: int, maxMapCount: int)

  // ---------------------------------------------------------------- stack growth

  /** A fault at this address makes the area above it grow down to it. */
  ghost predicate StackGrows(t: Tree, s: Slab, totalVm: int, fault: int, c: Config, o: StackOutcomes) {
    var at := First(t, fault, TASK_SIZE);
    && at.Some? && Owner(t, at.value) in s
    && var id := Owner(t, at.value);
       fault < s[id].start && MayGrow(t, s, id, totalVm, fault, c.layout.minAddr, c.layout.guard, c.rlimitAs, o)
  }

  /** By how much it moves the commit counter away from the charged areas: the length of the growth, if the area
      above is not charged for. */
  ghost function DriftAt(t: Tree, s: Slab, totalVm: int, fault: int, c: Config, o: StackOutcomes): (d: int) {
    if !StackGrows(t, s, totalVm, fault, c, o) then 0
    else
      var v := s[Owner(t, First(t, fault, TASK_SIZE).value)];
      if Account !in v.flags then v.start - PageFloor(fault) else 0
  }

  /** What the fault leaves visible. */
  ghost function FaultView(t: Tree, s: Slab, totalVm: int, fault: int, c: Config, o: StackOutcomes): View {
    if !StackGrows(t, s, totalVm, fault, c, o) then Seen(t, s)
    else Override(Seen(t, s), Below(s[Owner(t, First(t, fault, TASK_SIZE).value)], PageFloor(fault)))
  }

  /** The areas after the fault. */
  ghost function FaultAfter(x: Space, totalVm: int, fault: int, c: Config, o: StackOutcomes): Space {
    var at := First(x.tree, fault, TASK_SIZE);
    if at.Some? && Owner(x.tree, at.value) in x.slab && fault < x.slab[Owner(x.tree, at.value)].start
    then StackAfter(x, Owner(x.tree, at.value), totalVm, fault, c.layout.minAddr, c.layout.guard, c.rlimitAs, o)
    else x
  }

  ghost function StackDrift(mm: Mm, fault: int, c: Config, o: StackOutcomes): int
    reads mm
  {
    DriftAt(mm.tree, mm.slab, mm.totalVm, fault, c, o)
  }

  /** A stack of one page that is not charged for. */
  function LoneStack(): Vma {
    Vma(1048576, 1052672, 256, {Read, Write, GrowsDown, NoReserve}, None, None, None, None, false, None, [], false)
  }

  /** A fault in the page below such a stack leaves the commit counter one page ahead of the charged areas. */
  lemma DriftHappens()
    ensures var t, s := Store(map[], 1048576, 1052672, 0), map[0 := LoneStack()];
            var c := Config(Layout(true, TASK_SIZE, 4096, 65536, 0), TASK_SIZE, 65530);
            && Consistent(t, s) && Bytes(Seen(t, s)) == ToBytes(1) && GoodLayout(c.layout)
            && DriftAt(t, s, 1, 1048000, c, StackOutcomes(true, Some(7), true, true, true, true)) == ToBytes(1)
  {
    hide Consistent, Seen, Bytes, Store, First, Free;
    LoneStackFacts();
    assert PageFloor(1048000) == 1044480;
  }

  lemma LoneStackFacts()
    ensures var t, s := Store(map[], 1048576, 1052672, 0), map[0 := LoneStack()];
            && Consistent(t, s) && Bytes(Seen(t, s)) == 4096
            && First(t, 1048000, TASK_SIZE) == Some(1048576) && t[1048576] == 0
  {
    hide First, AttrAt, Consistent, Bytes, BytesWith, Seen;
    var v := LoneStack();
    EmptyView();
    InsertKeeps(map[], map[], 0, v);
    OverrideTally(map[], v, Account);
    assert map[][0 := v] == map[0 := v];
    var t := Store(map[], 1048576, 1052672, 0);
    assert 1048576 in t;
  }

  /** The stack part of a page fault: look up the first area that ends above the address and extend it
      downwards if the address lies below it. */
  method GrowStack(mm: Mm, commit: Commit, fault: int, c: Config, o: StackOutcomes)
    requires mm.Valid() && 0 <= fault < TASK_SIZE
    modifies mm`tree, mm`slab, mm`totalVm, mm`lockedVm, commit
    ensures mm.Valid()
    ensures ToBytes(commit.pages) - mm.Charge() == old(ToBytes(commit.pages) - mm.Charge()) + old(StackDrift(mm,
                                                                      fault, c, o))
    ensures mm.Sees() == old(FaultView(mm.tree, mm.slab, mm.totalVm, fault, c, o))
    ensures mm.Now() == old(FaultAfter(mm.Now(), mm.totalVm, fault, c, o))
    ensures 0 <= old(StackDrift(mm, fault, c, o))
    ensures old(StacksAccounted(mm.Sees())) ==> StacksAccounted(mm.Sees()) && old(StackDrift(mm, fault, c, o)) == 0
  {
    hide Consistent, Seen, Bytes, BytesWith, Free, StacksAccounted, GuardKept, GrowthAllowed, Override, StackAfter;
    ghost var before := mm.Sees();
    var at := First(mm.tree, fault, TASK_SIZE);
    if at.None? {
      return;
    }
    FirstArea(mm.tree, mm.slab, fault, TASK_SIZE);
    var id := Owner(mm.tree, at.value);
    if mm.slab[id].start <= fault {
      return;
    }
    ghost var v := mm.slab[id];
    if StacksAccounted(before) {
      StackCharged(mm.tree, mm.slab, id, PageFloor(fault));
    }
    var err := ExpandDownwards(mm, commit, id, fault, c.layout.minAddr, c.layout.guard, c.rlimitAs, o);
  }

  lemma StackCharged(t: Tree, s: Slab, id: VmaId, address: int)
    requires Consistent(t, s) && id in s && StacksAccounted(Seen(t, s))
    ensures GrowsDown in s[id].flags ==> Account in s[id].flags
    ensures StacksAccounted(Override(Seen(t, s), Below(s[id], address)))
  {
    var a := s[id].start;
    assert WellFormed(s[id]) && Holds(s[id], a);
    assert Seen(t, s)[a] == AttrAt(s[id], a);
    OverrideAccounted(Seen(t, s), Below(s[id], address));
  }

  // ---------------------------------------------------------------- attribute changes

  /** A caller of `vma_modify`: find the area, and the one before it, and change the part [start, end) of it.
      Changes of VM_LOCKED and VM_ACCOUNT, which such callers account for themselves, are not made here. */
  method Modify(mm: Mm, start: int, end: int, keys: Vma, c: Config, o: ModifyOutcomes)
    requires mm.Valid() && start < end && Aligned(start) && Aligned(end)
    modifies mm`tree, mm`slab, mm`nextId, mm`mapCount
    ensures mm.Valid() && mm.Charge() == old(mm.Charge())
    ensures old(StacksAccounted(mm.Sees())) && (GrowsDown in keys.flags ==> Account in keys.flags) ==>
              StacksAccounted(mm.Sees())
    ensures mm.Sees() == if old(ChangeWorks(mm.tree, mm.slab, mm.mapCount, start, end, keys, c.maxMapCount, o))
                         then Override(old(mm.Sees()), Request(old(mm.slab[Owner(mm.tree, start)]), start, end, keys))
                         else old(mm.Sees())
    ensures mm.Now() == old(ChangeAfter(mm.Now(), mm.mapCount, start, end, keys, c.maxMapCount, o))
  {
    hide Consistent, Seen, Bytes, BytesWith, Override, StacksAccounted, Merges, SplitsWork, ModifyAfter;
    if start !in mm.tree {
      return;
    }
    var vma := Owner(mm.tree, start);
    FoundArea(mm.tree, mm.slab, start);
    if mm.slab[vma].end < end || !SameAccounts(mm.slab[vma], keys) {
      return;
    }
    var prev := AreaBefore(mm.tree, mm.slab, start);
    ghost var before, v := mm.Sees(), mm.slab[vma];
    if StacksAccounted(before) && (GrowsDown in keys.flags ==> Account in keys.flags) {
      OverrideAccounted(before, Request(v, start, end, keys));
    }
    var _ := ModifyAndSet(mm, prev, vma, start, end, keys, c.maxMapCount, o.clone, o.prealloc, o.low, o.high);
  }

  /** Whom the callers of `vma_modify` pass as predecessor. */
  function AreaBefore(t: Tree, s: Slab, start: int): Ref
    requires start in t && Owner(t, start) in s
  {
    var vma, below := Owner(t, start), Last(t, 0, start);
    if s[vma].start < start then To(vma)
    else if below.Some? then To(Owner(t, below.value)) else Null
  }

  /** [start, end) lies in one area whose accounting the new attributes leave alone, and the change can be made by
      a merge or by splits. */
  ghost predicate ChangeWorks(t: Tree, s: Slab, mapCount: int, start: int, end: int, keys: Vma, maxMapCount: int,
                              o: ModifyOutcomes) {
    && start in t && Owner(t, start) in s
    && var v := s[Owner(t, start)];
       && end <= v.end && SameAccounts(v, keys)
       && (|| Merges(t, s, AreaBefore(t, s, start), Request(v, start, end, keys), o.clone, o.prealloc)
           || SplitsWork(v, start, end, mapCount, maxMapCount, o.low, o.high))
  }

  /** The areas afterwards. */
  ghost function ChangeAfter(x: Space, mapCount: int, start: int, end: int, keys: Vma, maxMapCount: int,
                             o: ModifyOutcomes): Space {
    if start !in x.tree || Owner(x.tree, start) !in x.slab then x
    else
      var vma := Owner(x.tree, start);
      var v, prev := x.slab[vma], AreaBefore(x.tree, x.slab, start);
      if v.start <= start < end <= v.end && SameAccounts(v, keys) && x.next !in x.slab
         && (prev.To? ==> prev.id in x.slab)
      then ModifyAfter(x, prev, vma, start, end, keys, mapCount, maxMapCount, o.clone, o.prealloc, o.low, o.high)
      else x
  }

  /** The area at an address, and the area before it. */
  lemma FoundArea(t: Tree, s: Slab, start: int)
    requires Consistent(t, s) && start in t
    ensures var vma := Owner(t, start);
            vma in s && s[vma].start <= start && Precedes(t, s, AreaBefore(t, s, start), vma, start)
  {
    var vma := Owner(t, start);
    assert Holds(s[vma], start);
    var below := Last(t, 0, start);
    if below.Some? {
      var p := Owner(t, below.value);
      assert Holds(s[p], below.value) && WellFormed(s[p]);
      assert p != vma ==> !Holds(s[p], start);
    }
  }

  // ---------------------------------------------------------------- what an event does

  /** An address space in which nothing is mapped yet. */
  function EmptyImage(startBrk: int, defFlags: set<Flag>): Image {
    Image(Space(map[], map[], 0), startBrk, startBrk, defFlags)
  }

  /** The address space of a forked child. */
  ghost predicate ChildOf(i: Image, child: Image, initFlags: set<Flag>, ctx: map<int, int>) {
    && child.Sees() == ForkView(i.Sees(), ctx)
    && AllCopied(i.now.tree, i.now.slab, child.now.tree, child.now.slab, ctx)
    && child.startBrk == i.startBrk && child.brk == i.brk && child.defFlags == i.defFlags * initFlags
  }

  /** What a change of attributes does. */
  ghost predicate Relabels(c: Config, start: int, end: int, keys: Vma, o: ModifyOutcomes, i: Image, i': Image) {
    && i' == i.(now := ChangeAfter(i.now, i.Areas(), start, end, keys, c.maxMapCount, o))
    && i'.Sees() == if ChangeWorks(i.now.tree, i.now.slab, i.Areas(), start, end, keys, c.maxMapCount, o)
                    then Override(i.Sees(), Request(i.now.slab[Owner(i.now.tree, start)], start, end, keys))
                    else i.Sees()
  }

  /** What a fault below a stack does. */
  ghost predicate Faults(c: Config, fault: int, stack: StackOutcomes, i: Image, i': Image) {
    && i' == i.(now := FaultAfter(i.now, i.Pages(), fault, c, stack))
    && i'.Sees() == FaultView(i.now.tree, i.now.slab, i.Pages(), fault, c, stack)
  }

  /** What an event does to the one address space it is about. */
  ghost predicate Changed(limits: map<int, nat>, c: Config, e: Event, i: Image, i': Image)
    requires GoodEvent(e) && GoodLayout(c.layout) && (e.DoCall? || e.DoModify? || e.DoStack?)
  {
    match e
    case DoCall(_, pid, call) =>
      exists answer :: Does(limits, pid, c.layout, c.rlimitAs, c.maxMapCount, call, i, answer, i')
    case DoModify(_, start, end, keys, ok) => Relabels(c, start, end, keys, ok, i, i')
    case DoStack(_, fault, stack) => Faults(c, fault, stack, i, i')
  }

  /** What an event does to the system; an event of an address space that is not there does nothing, and no event
      touches any other address space. */
  ghost predicate Happened(limits: map<int, nat>, c: Config, e: Event, before: seq<Image>, after: seq<Image>)
    requires GoodEvent(e) && GoodLayout(c.layout)
  {
    if e.DoStart? then after == before + [EmptyImage(e.startBrk, e.defFlags)]
    else if e.who < 0 || |before| <= e.who then after == before
    else if e.DoFork? then
      if e.allocOk && e.binfmtOk && Survives(before[e.who].now.tree, before[e.who].now.slab, e.fork) then
        && |after| == |before| + 1 && after[..|before|] == before
        && ChildOf(before[e.who], after[|before|], e.initFlags, e.fork.ctx)
      else after == before
    else if e.DoExit? then after == before[..e.who] + before[e.who + 1..]
    else
      && |after| == |before| && after == before[e.who := after[e.who]]
      && Changed(limits, c, e, before[e.who], after[e.who])
  }

  // ---------------------------------------------------------------- the system

  class System {
    var mms: seq<Mm>
    const commit: Commit
    const limiter: MemoryLimiter
    ghost var charges: seq<int>
    ghost var drift: int

    constructor (limiter: MemoryLimiter)
      requires limiter.Valid()
      ensures Sound() && mms == [] && drift == 0 && Surplus() == 0 && this.limiter == limiter && fresh(commit)
    {
      mms, charges, drift := [], [], 0;
      this.limiter := limiter;
      commit := new Commit();
    }

    /** Every address space is valid and the snapshot holds its charge. */
    ghost predicate Sound()
      reads this, mms, limiter
    {
      && AllDistinct(mms) && limiter.Valid()
      && |charges| == |mms|
      && forall i | 0 <= i < |mms| :: mms[i].Valid() && charges[i] == mms[i].Charge()
    }

    /** The address spaces as values. */
    ghost function Images(): seq<Image>
      reads this, mms
    {
      seq(|mms|, i requires 0 <= i < |mms| reads this, mms => mms[i].Looks())
    }

    /** Every stack of every address space is charged for. */
    ghost predicate AllCharged()
      reads this, mms
    {
      forall i | 0 <= i < |mms| :: StacksAccounted(mms[i].Sees())
    }

    /** What the commit counter holds beyond the pages of live VM_ACCOUNT areas and the recorded drift. */
    ghost function Surplus(): int
      reads this, commit
    {
      ToBytes(commit.pages) - Sum(charges) - drift
    }

    /** By how much an event will move the drift. */
    ghost function EventDrift(e: Event, c: Config): int
      reads this, mms
    {
      if e.DoStack? && 0 <= e.who < |mms| then StackDrift(mms[e.who], e.fault, c, e.stack) else 0
    }

    /** Any event keeps every address space valid, the surplus unchanged, and the drift exact; the drift never
        falls, and if every stack is charged for it does not move. */
    method Step(e: Event, c: Config)
      requires Sound() && GoodEvent(e) && GoodLayout(c.layout)
      modifies this, mms, commit
      ensures Sound() && Surplus() == old(Surplus())
      ensures drift == old(drift) + old(EventDrift(e, c)) && old(drift) <= drift
      ensures old(AllCharged()) ==> drift == old(drift) && (KeepsCharged(e) ==> AllCharged())
      ensures Happened(limiter.Limits(), c, e, old(Images()), Images())
      ensures forall k | 0 <= k < |mms| :: mms[k] in old(mms) || fresh(mms[k])
    {
      hide Relabels, Faults, Does, ChildOf, Survives;
      hide Mm.Valid, Mm.Charge, MemoryLimiter.Valid, Sum, StackDrift, StacksAccounted, ChargesStacks;
      if e.DoStart? {
        Start(e.startBrk, e.defFlags);
        return;
      }
      if e.who < 0 || |mms| <= e.who {
        return;
      }
      match e
      case DoCall(who, pid, call) => DoOneCall(who, pid, call, c);
      case DoModify(who, start, end, keys, ok) => DoOneModify(who, start, end, keys, c, ok);
      case DoStack(who, fault, stack) => DoOneStack(who, fault, c, stack);
      case DoFork(who, initFlags, allocOk, binfmtOk, fork) => Fork(mms[who], initFlags, allocOk, binfmtOk, fork);
      case DoExit(who) => Exit(who);
    }

    /** A program starts in an empty address space. */
    method Start(startBrk: int, defFlags: set<Flag>)
      requires Sound() && 0 < startBrk <= TASK_SIZE
      modifies this
      ensures Sound() && Surplus() == old(Surplus()) && drift == old(drift)
      ensures |mms| == |old(mms)| + 1 && mms[..|old(mms)|] == old(mms) && fresh(mms[|old(mms)|])
      ensures Images() == old(Images()) + [EmptyImage(startBrk, defFlags)]
      ensures old(AllCharged()) ==> AllCharged()
    {
      hide Mm.Valid, Mm.Charge, MemoryLimiter.Valid, Sum;
      var mm := new Mm.Fresh(startBrk, defFlags);
      SumMoreOne(charges, 0);
      mms, charges := mms + [mm], charges + [0];
    }

    method DoOneCall(who: int, pid: int, call: Call, c: Config)
      requires Sound() && GoodCall(call) && GoodLayout(c.layout) && 0 <= who < |mms|
      modifies this`charges, mms[who], commit
      ensures Sound() && Surplus() == old(Surplus())
      ensures mms == old(mms) && Images() == old(Images())[who := mms[who].Looks()]
      ensures Changed(limiter.Limits(), c, DoCall(who, pid, call), old(mms[who].Looks()), mms[who].Looks())
      ensures old(AllCharged()) && ChargesStacks(call) ==> AllCharged()
    {
      hide Mm.Valid, Mm.Charge, MemoryLimiter.Valid, Sum, StacksAccounted, ChargesStacks, Does;
      var mm := mms[who];
      var answer := OneCall(mm, commit, limiter, pid, c.layout, c.rlimitAs, c.maxMapCount, call);
      SumUpdate(charges, who, mm.Charge());
      charges := charges[who := mm.Charge()];
    }

    method DoOneModify(who: int, start: int, end: int, keys: Vma, c: Config, o: ModifyOutcomes)
      requires Sound() && start < end && Aligned(start) && Aligned(end) && GoodLayout(c.layout) && 0 <= who < |mms|
      modifies mms[who]
      ensures Sound() && Surplus() == old(Surplus())
      ensures mms == old(mms) && Images() == old(Images())[who := mms[who].Looks()]
      ensures Relabels(c, start, end, keys, o, old(mms[who].Looks()), mms[who].Looks())
      ensures old(AllCharged()) && (GrowsDown in keys.flags ==> Account in keys.flags) ==> AllCharged()
    {
      hide Mm.Valid, Mm.Charge, MemoryLimiter.Valid, Sum, StacksAccounted, ChangeWorks, ChangeAfter;
      LooksGood(mms[who]);
      Modify(mms[who], start, end, keys, c, o);
    }

    method DoOneStack(who: int, fault: int, c: Config, stack: StackOutcomes)
      requires Sound() && 0 <= fault < TASK_SIZE && GoodLayout(c.layout) && 0 <= who < |mms|
      modifies this`charges, this`drift, mms[who], commit
      ensures Sound() && Surplus() == old(Surplus())
      ensures drift == old(drift) + old(StackDrift(mms[who], fault, c, stack)) && old(drift) <= drift
      ensures mms == old(mms) && Images() == old(Images())[who := mms[who].Looks()]
      ensures Faults(c, fault, stack, old(mms[who].Looks()), mms[who].Looks())
      ensures old(AllCharged()) ==> AllCharged() && drift == old(drift)
    {
      hide Mm.Valid, Mm.Charge, MemoryLimiter.Valid, Sum, StackDrift, StacksAccounted, FaultView, FaultAfter;
      var mm := mms[who];
      LooksGood(mm);
      ghost var extra := StackDrift(mm, fault, c, stack);
      GrowStack(mm, commit, fault, c, stack);
      SumUpdate(charges, who, mm.Charge());
      charges, drift := charges[who := mm.Charge()], drift + extra;
    }

    /** A fork adds the child's address space, or leaves everything as it was. */
    method Fork(mm: Mm, initFlags: set<Flag>, allocOk: bool, binfmtOk: bool, fork: Fault)
      requires Sound() && mm in mms
      modifies this, commit
      ensures Sound() && Surplus() == old(Surplus()) && drift == old(drift)
      ensures mms == old(mms) || (|mms| == |old(mms)| + 1 && mms[..|old(mms)|] == old(mms) && fresh(mms[|old(mms)|]))
      ensures |old(mms)| < |mms| <==> allocOk && binfmtOk && Survives(mm.tree, mm.slab, fork)
      ensures Images()[..|old(mms)|] == old(Images())
      ensures |old(mms)| < |mms| ==> ChildOf(mm.Looks(), mms[|old(mms)|].Looks(), initFlags, fork.ctx)
      ensures old(AllCharged()) ==> AllCharged()
    {
      hide Mm.Valid, Mm.Charge, MemoryLimiter.Valid, Sum, StacksAccounted, ForkView, Survives, AllCopied;
      var ok, child, bug, freed := DupMm(mm, commit, initFlags, allocOk, binfmtOk, fork);
      if ok {
        ForkCharged(mm.Sees(), fork.ctx);
        SumMoreOne(charges, child.Charge());
        mms, charges := mms + [child], charges + [child.Charge()];
      }
    }

    /** An exit takes the address space away, and its charge with it. */
    method Exit(who: int)
      requires Sound() && 0 <= who < |mms|
      modifies this, mms[who], commit
      ensures Sound() && Surplus() == old(Surplus()) && drift == old(drift)
      ensures mms == old(mms[..who] + mms[who + 1..])
      ensures Images() == old(Images())[..who] + old(Images())[who + 1..]
      ensures old(AllCharged()) ==> AllCharged()
    {
      hide Mm.Valid, Mm.Charge, MemoryLimiter.Valid, Sum, StacksAccounted;
      var mm := mms[who];
      ReadyToExit(mm);
      var bug, freed := ExitMmap(mm, commit, TASK_SIZE);
      SumWithout(charges, who);
      mms, charges := mms[..who] + mms[who + 1..], charges[..who] + charges[who + 1..];
    }

    /** Every run: all address spaces are valid at the end, and the commit counter has changed by exactly the
        pages of live VM_ACCOUNT areas and the drift, to which only faults below uncharged stacks add.  From a
        state in which all stacks are charged for, events that keep them so leave no drift at all. */
    method Run(events: seq<Event>, c: Config) returns (ghost added: seq<int>, ghost history: seq<seq<Image>>)
      requires Sound() && GoodLayout(c.layout)
      requires forall i | 0 <= i < |events| :: GoodEvent(events[i])
      modifies this, mms, commit
      ensures Sound() && Surplus() == old(Surplus())
      ensures |history| == |events| + 1 && history[0] == old(Images()) && history[|events|] == Images()
      ensures forall i | 0 <= i < |events| ::
                Happened(limiter.Limits(), c, events[i], history[i], history[i + 1])
      ensures |added| == |events| && drift == old(drift) + Sum(added)
      ensures forall i | 0 <= i < |events| :: 0 <= added[i] && (!events[i].DoStack? ==> added[i] == 0)
      ensures old(AllCharged()) && (forall i | 0 <= i < |events| :: KeepsCharged(events[i])) ==>
                AllCharged() && drift == old(drift)
    {
      hide Sound, AllCharged, Sum, KeepsCharged, StackDrift, Happened;
      added, history := [], [Images()];
      NoSum();
      for i := 0 to |events|
        invariant Sound() && Surplus() == old(Surplus())
        invariant forall k | 0 <= k < |mms| :: mms[k] in old(mms) || fresh(mms[k])
        invariant |history| == i + 1 && history[0] == old(Images()) && history[i] == Images()
        invariant forall k | 0 <= k < i ::
                    Happened(limiter.Limits(), c, events[k], history[k], history[k + 1])
        invariant |added| == i && drift == old(drift) + Sum(added)
        invariant forall k | 0 <= k < i :: 0 <= added[k] && (!events[k].DoStack? ==> added[k] == 0)
        invariant old(AllCharged()) && (forall k | 0 <= k < i :: KeepsCharged(events[k])) ==>
                    AllCharged() && drift == old(drift)
      {
        ghost var extra := EventDrift(events[i], c);
        SumMoreOne(added, extra);
        Step(events[i], c);
        added, history := added + [extra], history + [Images()];
      }
    }
  }

  lemma NoSum()
    ensures Sum([]) == 0
  {
  }

  /** The child's stacks are charged for if the parent's are. */
  lemma ForkCharged(v: View, ctx: map<int, int>)
    ensures StacksAccounted(v) ==> StacksAccounted(ForkView(v, ctx))
  {
  }

  lemma ReadyToExit(mm: Mm)
    requires mm.Valid()
    ensures Partial(mm.tree, mm.slab, TASK_SIZE) && mm.mapCount == |mm.slab|
  {
    WholeIsPartial(mm.tree, mm.slab);
  }
}
