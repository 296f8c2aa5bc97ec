/** Duplicating an address space at fork (`dup_mmap`, `dup_mm`). */
module Forking {
  import opened Pages
  import opened Vmas
  import opened Trees
  import opened AddressSpaces
  import opened Reshaping
  import opened Unmapping
  import opened Teardown

  /** The userfaultfd context of a copy: `dup_userfaultfd` carries it over into a new one, or drops it. */
  function ForkedContext(uffd: Option<int>, ctx: map<int, int>): Option<int> {
    if uffd.Some? && uffd.value in ctx then Some(ctx[uffd.value]) else None
  }

  /** The copy of an area in the child. */
  function Forked(v: Vma, ctx: map<int, int>): Vma {
    v.(flags := v.flags - LOCKED_MASK,
       uffd := ForkedContext(v.uffd, ctx),
       anonVma := if WipeOnFork in v.flags then None else v.anonVma,
       chain := if WipeOnFork in v.flags then [] else v.chain,
       detached := false)
  }

  /** What the child sees of a view: everything except VM_DONTCOPY ranges, and nothing locked. */
  ghost function ForkView(v: View, ctx: map<int, int>): (r: View)
    ensures forall a :: a in r <==> a in v && DontCopy !in v[a].flags
    ensures forall a | a in r :: r[a] == v[a].(flags := v[a].flags - LOCKED_MASK, uffd := ForkedContext(v[a].uffd, ctx))
  {
    map a | a in v && DontCopy !in v[a].flags ::
      v[a].(flags := v[a].flags - LOCKED_MASK, uffd := ForkedContext(v[a].uffd, ctx))
  }

  ghost function Upto(v: View, cursor: int): View {
    Without(v, cursor, TASK_SIZE)
  }

  /** The child's tree from the cursor on is still the parent's; below it everything is the child's own
      and shows what the child should see. */
  ghost predicate ForkedUpTo(pt: Tree, ps: Slab, ct: Tree, cs: Slab, firstOwn: VmaId, cursor: int, ctx: map<int, int>) {
    && Consistent(LowPart(ct, cursor), cs)
    && TailShared(pt, ct, cursor)
    && OwnIds(cs, firstOwn)
    && NoSpan(ps, cursor)
    && Seen(LowPart(ct, cursor), cs) == ForkView(Upto(Seen(pt, ps), cursor), ctx)
    && CopiedBelow(pt, ps, ct, cs, cursor, ctx)
  }

  /** `w` is the child's copy of `v`: the same range of the same file, not locked, with the context that is carried
      over, and with the parent's anon_vmas unless it is to be wiped. */
  ghost predicate IsCopy(v: Vma, w: Vma, ctx: map<int, int>) {
    && w.start == v.start && w.end == v.end && w.pgoff == v.pgoff && w.file == v.file
    && w.flags == v.flags - {Locked, LockOnFault} && w.policy == v.policy && w.name == v.name
    && w.hasClose == v.hasClose && !w.detached
    && w.uffd == (if v.uffd.Some? && v.uffd.value in ctx then Some(ctx[v.uffd.value]) else None)
    && (WipeOnFork in v.flags ==> w.anonVma.None? && w.chain == [])
    && (WipeOnFork !in v.flags ==> w.anonVma == v.anonVma && w.chain == v.chain)
  }

  /** Below the cursor every area of the parent, VM_DONTCOPY ones apart, has its copy at the same addresses. */
  ghost predicate CopiedBelow(pt: Tree, ps: Slab, ct: Tree, cs: Slab, cursor: int, ctx: map<int, int>) {
    forall a | a in pt && a < cursor :: CopiedAt(pt, ps, ct, cs, a, ctx)
  }

  ghost predicate AllCopied(pt: Tree, ps: Slab, ct: Tree, cs: Slab, ctx: map<int, int>) {
    forall a | a in pt :: CopiedAt(pt, ps, ct, cs, a, ctx)
  }

  ghost predicate CopiedAt(pt: Tree, ps: Slab, ct: Tree, cs: Slab, a: int, ctx: map<int, int>)
    requires a in pt
  {
    Owner(pt, a) in ps && DontCopy !in ps[Owner(pt, a)].flags ==>
      a in ct && Owner(ct, a) in cs && IsCopy(ps[Owner(pt, a)], cs[Owner(ct, a)], ctx)
  }

  /** The next area leaves the copies below the cursor alone, and is copied itself unless it is VM_DONTCOPY. */
  lemma CopiedNext(pt: Tree, ps: Slab, ct: Tree, cs: Slab, ct': Tree, cs': Slab, cursor: int, id: VmaId,
                   ctx: map<int, int>)
    requires Consistent(pt, ps) && CopiedBelow(pt, ps, ct, cs, cursor, ctx) && id in ps
    requires cursor <= ps[id].start && Free(pt, cursor, ps[id].start)
    requires forall a | a < cursor :: a in ct ==> a in ct' && ct'[a] == ct[a]
    requires forall i | i in cs :: i in cs' && cs'[i] == cs[i]
    requires DontCopy !in ps[id].flags ==>
        forall a | Holds(ps[id], a) :: a in ct' && Owner(ct', a) in cs' && cs'[Owner(ct', a)] == Forked(ps[id], ctx)
    ensures CopiedBelow(pt, ps, ct', cs', ps[id].end, ctx)
  {
    forall a | a in pt && a < ps[id].end
      ensures CopiedAt(pt, ps, ct', cs', a, ctx)
    {
      if a < cursor {
        assert CopiedAt(pt, ps, ct, cs, a, ctx);
      } else {
        assert Holds(ps[id], a);
      }
    }
  }

  ghost predicate TailShared(pt: Tree, ct: Tree, cursor: int) {
    && (forall a | a in ct :: 0 <= a < TASK_SIZE)
    && (forall a | cursor <= a :: a in ct <==> a in pt)
    && (forall a | a in ct && cursor <= a :: ct[a] == pt[a])
  }

  ghost predicate OwnIds(cs: Slab, firstOwn: VmaId) {
    forall id | id in cs :: firstOwn <= id && !cs[id].detached
  }

  ghost predicate NoSpan(ps: Slab, cursor: int) {
    forall id | id in ps :: ps[id].end <= cursor || cursor <= ps[id].start
  }

  lemma ForkStart(pt: Tree, ps: Slab, firstOwn: VmaId, ctx: map<int, int>)
    requires Consistent(pt, ps)
    ensures ForkedUpTo(pt, ps, pt, map[], firstOwn, 0, ctx)
  {
    forall a | a in pt
      ensures 0 <= a < TASK_SIZE
    {
      var id := Owner(pt, a);
      assert Holds(ps[id], a) && WellFormed(ps[id]);
    }
    assert LowPart(pt, 0) == map[];
    assert forall id | id in ps :: WellFormed(ps[id]);
    assert ForkView(Upto(Seen(pt, ps), 0), ctx) == map[];
  }

  /** The area the loop visits next, as the parent knows it. */
  lemma NextToFork(pt: Tree, ps: Slab, ct: Tree, cs: Slab, firstOwn: VmaId, cursor: int, ctx: map<int, int>)
    requires Consistent(pt, ps) && ForkedUpTo(pt, ps, ct, cs, firstOwn, cursor, ctx)
    ensures var f := First(ct, cursor, TASK_SIZE);
            && (f.None? ==> forall a | a in ct :: a < cursor)
            && (f.Some? ==>
                  var id := Owner(ct, f.value);
                  && id in ps && WellFormed(ps[id]) && ps[id].start == f.value && cursor <= ps[id].start
                  && Free(ct, cursor, ps[id].start)
                  && (forall a | Holds(ps[id], a) :: a in ct && ct[a] == id))
  {
    hide Seen, ForkView;
    var f := First(ct, cursor, TASK_SIZE);
    if f.Some? {
      var id := Owner(pt, f.value);
      assert Holds(ps[id], f.value) && WellFormed(ps[id]);
      assert Holds(ps[id], ps[id].start);
    }
  }

  /** The parent's view up to the end of the next area is the view up to the cursor with that area. */
  lemma UptoNext(pt: Tree, ps: Slab, cursor: int, id: VmaId)
    requires Consistent(pt, ps) && id in ps && cursor <= ps[id].start && Free(pt, cursor, ps[id].start)
    ensures Upto(Seen(pt, ps), ps[id].end) == Override(Upto(Seen(pt, ps), cursor), ps[id])
    ensures forall a | Holds(ps[id], a) :: a !in Upto(Seen(pt, ps), cursor)
  {
    hide AttrAt;
    assert WellFormed(ps[id]);
    var v := Seen(pt, ps);
    forall a
      ensures Look(Upto(v, ps[id].end), a) == Look(Override(Upto(v, cursor), ps[id]), a)
    {
      if Holds(ps[id], a) {
        assert a in pt && Owner(pt, a) == id;
      }
    }
    SameLooks(Upto(v, ps[id].end), Override(Upto(v, cursor), ps[id]));
  }

  /** Copying an area extends the child's view as the parent's view extends; leaving it out does not. */
  lemma ForkViewNext(v: View, area: Vma, ctx: map<int, int>)
    requires forall a | Holds(area, a) :: a !in v
    ensures DontCopy !in area.flags ==>
        ForkView(Override(v, area), ctx) == Override(ForkView(v, ctx), Forked(area, ctx))
    ensures DontCopy in area.flags ==> ForkView(Override(v, area), ctx) == ForkView(v, ctx)
  {
    forall a
      ensures DontCopy !in area.flags ==>
          Look(ForkView(Override(v, area), ctx), a) == Look(Override(ForkView(v, ctx), Forked(area, ctx)), a)
      ensures DontCopy in area.flags ==> Look(ForkView(Override(v, area), ctx), a) == Look(ForkView(v, ctx), a)
    {
      if Holds(area, a) {
        ForkedAttr(area, a, ctx);
      }
    }
    if DontCopy !in area.flags {
      SameLooks(ForkView(Override(v, area), ctx), Override(ForkView(v, ctx), Forked(area, ctx)));
    } else {
      SameLooks(ForkView(Override(v, area), ctx), ForkView(v, ctx));
    }
  }

  lemma ForkedAttr(v: Vma, a: int, ctx: map<int, int>)
    ensures AttrAt(Forked(v, ctx), a) == 
            AttrAt(v, a).(flags := AttrAt(v, a).flags - LOCKED_MASK, uffd := ForkedContext(AttrAt(v, a).uffd, ctx))
    ensures DontCopy in AttrAt(v, a).flags <==> DontCopy in v.flags
  {
    assert (v.flags - LOCKED_MASK) - {SoftDirty} == (v.flags - {SoftDirty}) - LOCKED_MASK;
  }

  lemma ForkedWellFormed(v: Vma, ctx: map<int, int>)
    requires WellFormed(v)
    ensures WellFormed(Forked(v, ctx))
  {
  }

  /** One duplicated area. */
  lemma ForkCopy(pt: Tree, ps: Slab, ct: Tree, cs: Slab, firstOwn: VmaId, cursor: int, id: VmaId, newId: VmaId,
                 ctx: map<int, int>)
    requires Consistent(pt, ps) && ForkedUpTo(pt, ps, ct, cs, firstOwn, cursor, ctx)
    requires First(ct, cursor, TASK_SIZE).Some? && id == Owner(ct, First(ct, cursor, TASK_SIZE).value)
    requires id in ps && DontCopy !in ps[id].flags && newId !in cs && firstOwn <= newId
    ensures ForkedUpTo(pt, ps, Store(ct, ps[id].start, ps[id].end, newId), cs[newId := Forked(ps[id], ctx)], firstOwn,
                       ps[id].end, ctx)
    ensures Seen(LowPart(Store(ct, ps[id].start, ps[id].end, newId), ps[id].end), cs[newId := Forked(ps[id], ctx)]) ==
            Override(Seen(LowPart(ct, cursor), cs), Forked(ps[id], ctx))
  {
    hide Consistent, Seen, ForkView, Override, Upto;
    NextToFork(pt, ps, ct, cs, firstOwn, cursor, ctx);
    var area := ps[id];
    var ct', cs' := Store(ct, area.start, area.end, newId), cs[newId := Forked(area, ctx)];
    TailAfter(pt, ps, ct, ct', cursor, id);
    LowStore(ct, cursor, area.start, area.end, newId);
    ForkedWellFormed(area, ctx);
    InsertKeeps(LowPart(ct, cursor), cs, newId, Forked(area, ctx));
    CopiedNext(pt, ps, ct, cs, ct', cs', cursor, id, ctx);
    UptoNext(pt, ps, cursor, id);
    ForkViewNext(Upto(Seen(pt, ps), cursor), area, ctx);
  }

  /** One area left out because of VM_DONTCOPY. */
  lemma ForkSkip(pt: Tree, ps: Slab, ct: Tree, cs: Slab, firstOwn: VmaId, cursor: int, id: VmaId, ctx: map<int, int>)
    requires Consistent(pt, ps) && ForkedUpTo(pt, ps, ct, cs, firstOwn, cursor, ctx)
    requires First(ct, cursor, TASK_SIZE).Some? && id == Owner(ct, First(ct, cursor, TASK_SIZE).value)
    requires id in ps && DontCopy in ps[id].flags
    ensures ForkedUpTo(pt, ps, Clear(ct, ps[id].start, ps[id].end), cs, firstOwn, ps[id].end, ctx)
    ensures Seen(LowPart(Clear(ct, ps[id].start, ps[id].end), ps[id].end), cs) == Seen(LowPart(ct, cursor), cs)
  {
    hide Consistent, Seen, ForkView, Override, Upto;
    NextToFork(pt, ps, ct, cs, firstOwn, cursor, ctx);
    TailAfter(pt, ps, ct, Clear(ct, ps[id].start, ps[id].end), cursor, id);
    LowClear(ct, cursor, ps[id].start, ps[id].end);
    CopiedNext(pt, ps, ct, cs, Clear(ct, ps[id].start, ps[id].end), cs, cursor, id, ctx);
    UptoNext(pt, ps, cursor, id);
    ForkViewNext(Upto(Seen(pt, ps), cursor), ps[id], ctx);
  }

  /** Changes inside one area leave the shared tail above it, and no area of the parent spans its end. */
  lemma TailAfter(pt: Tree, ps: Slab, ct: Tree, ct': Tree, cursor: int, id: VmaId)
    requires Consistent(pt, ps) && TailShared(pt, ct, cursor) && NoSpan(ps, cursor)
    requires id in ps && cursor <= ps[id].start && Free(ct, cursor, ps[id].start)
    requires forall a | !Holds(ps[id], a) :: a in ct' <==> a in ct
    requires forall a | a in ct' && !Holds(ps[id], a) :: ct'[a] == ct[a]
    ensures TailShared(pt, ct', ps[id].end) && NoSpan(ps, ps[id].end) && Free(pt, cursor, ps[id].start)
  {
    assert WellFormed(ps[id]);
    forall o | o in ps
      ensures ps[o].end <= ps[id].end || ps[id].end <= ps[o].start
    {
      if o != id {
        Disjoint(pt, ps, o, id);
        assert WellFormed(ps[o]);
      }
    }
  }

  lemma LowStore(ct: Tree, cursor: int, start: int, end: int, newId: VmaId)
    requires cursor <= start < end <= TASK_SIZE && Free(ct, cursor, start)
    ensures LowPart(Store(ct, start, end, newId), end) == Store(LowPart(ct, cursor), start, end, newId)
    ensures Free(LowPart(ct, cursor), start, end)
  {
  }

  lemma LowClear(ct: Tree, cursor: int, start: int, end: int)
    requires cursor <= start < end <= TASK_SIZE && Free(ct, cursor, start)
    ensures LowPart(Clear(ct, start, end), end) == LowPart(ct, cursor)
  {
  }

  // ---------------------------------------------------------------- dup_mmap

  /** The places where the duplication of one area can fail. */
  datatype ForkStep = AtClear | AtSignal | AtMemory | AtDup | AtPolicy | AtUffd | AtAnonFork | AtCopy

  /** Duplication fails at the step of the area with this index, if that step is reached; a negative
      index never comes up. */
  datatype Fault = Fault(lockOk: bool, treeOk: bool, index: int, step: ForkStep, archOk: bool, ctx: map<int, int>) {
    predicate Hits(i: int, s: ForkStep) {
      i == index && s == step
    }

  }

  /** Is the step taken at all for such an area? */
  predicate Applies(v: Vma, step: ForkStep) {
    if DontCopy in v.flags then step == AtClear
    else
      match step
      case AtClear => false
      case AtMemory => Account in v.flags
      case AtAnonFork => WipeOnFork !in v.flags
      case AtCopy => WipeOnFork !in v.flags
      case _ => true
  }

  /** The fault strikes the area that begins at `h`. */
  ghost predicate StrikesAt(t: Tree, s: Slab, fault: Fault, h: int) {
    && h in Heads(t, 0, TASK_SIZE) && |Heads(t, 0, h)| == fault.index
    && Owner(t, h) in s && Applies(s[Owner(t, h)], fault.step)
  }

  /** The fault strikes: there is an area with its index that takes its step. */
  ghost predicate Strikes(t: Tree, s: Slab, fault: Fault) {
    exists h :: StrikesAt(t, s, fault, h)
  }

  /** Nothing makes the duplication fail. */
  ghost predicate Survives(t: Tree, s: Slab, fault: Fault) {
    fault.lockOk && fault.treeOk && !Strikes(t, s, fault) && fault.archOk
  }

  /** It has not struck below the cursor. */
  ghost predicate Spared(t: Tree, s: Slab, fault: Fault, cursor: int) {
    forall h | StrikesAt(t, s, fault, h) :: cursor <= h
  }

  /** The next area to fork begins one head further, and is where the fault strikes if it has this index. */
  lemma NextHead(pt: Tree, ps: Slab, ct: Tree, cs: Slab, firstOwn: VmaId, cursor: int, fault: Fault, ctx: map<int, int>)
    requires Consistent(pt, ps) && ForkedUpTo(pt, ps, ct, cs, firstOwn, cursor, ctx) && 0 <= cursor <= TASK_SIZE
    requires Spared(pt, ps, fault, cursor)
    ensures var f := First(ct, cursor, TASK_SIZE);
            && (f.None? ==> !Strikes(pt, ps, fault))
            && (f.Some? ==>
                  var id := Owner(ct, f.value);
                  && id in ps
                  && |Heads(pt, 0, ps[id].end)| == |Heads(pt, 0, cursor)| + 1
                  && (|Heads(pt, 0, cursor)| == fault.index && Applies(ps[id], fault.step) ==> Strikes(pt, ps, fault))
                  && (!(|Heads(pt, 0, cursor)| == fault.index && Applies(ps[id], fault.step)) ==>
                        Spared(pt, ps, fault, ps[id].end)))
  {
    hide Applies, Heads;
    NextToFork(pt, ps, ct, cs, firstOwn, cursor, ctx);
    var f := First(ct, cursor, TASK_SIZE);
    if f.Some? {
      var id := Owner(ct, f.value);
      HeadOf(pt, ps, ct, cursor, id);
      var h := ps[id].start;
      if |Heads(pt, 0, cursor)| == fault.index && Applies(ps[id], fault.step) {
        assert StrikesAt(pt, ps, fault, h);
      } else {
        forall k | StrikesAt(pt, ps, fault, k)
          ensures ps[id].end <= k
        {
          assert k in Heads(pt, 0, TASK_SIZE);
        }
      }
    } else {
      forall k
        ensures !StrikesAt(pt, ps, fault, k)
      {
        NoHeadBeyond(pt, ct, cursor, k);
      }
    }
  }

  lemma NoHeadBeyond(pt: Tree, ct: Tree, cursor: int, k: int)
    requires TailShared(pt, ct, cursor) && forall a | a in ct :: a < cursor
    ensures cursor <= k ==> k !in Heads(pt, 0, TASK_SIZE)
  {
  }

  /** Between the cursor and the end of the next area there is one head, its start. */
  lemma HeadOf(pt: Tree, ps: Slab, ct: Tree, cursor: int, id: VmaId)
    requires Consistent(pt, ps) && TailShared(pt, ct, cursor) && NoSpan(ps, cursor) && 0 <= cursor
    requires id in ps && cursor <= ps[id].start && Free(ct, cursor, ps[id].start)
    ensures var h := ps[id].start;
            && h in Heads(pt, 0, TASK_SIZE) && Owner(pt, h) == id
            && Heads(pt, 0, h) == Heads(pt, 0, cursor)
            && |Heads(pt, 0, ps[id].end)| == |Heads(pt, 0, cursor)| + 1
            && forall k | k in Heads(pt, 0, TASK_SIZE) && cursor <= k < ps[id].end :: k == h
  {
    var h := ps[id].start;
    assert WellFormed(ps[id]) && Holds(ps[id], h) && !Holds(ps[id], h - 1);
    forall a | h < a < ps[id].end
      ensures Crosses(pt, a)
    {
      assert Holds(ps[id], a - 1) && Holds(ps[id], a);
    }
    assert forall a | cursor <= a < h :: a !in pt;
    assert Heads(pt, 0, ps[id].end) == Heads(pt, 0, cursor) + {h};
  }

  /** Where `dup_mmap` stands: the child is built up to the cursor, its statistics count what it owns
      plus what is still to come, and the commit counter has been charged for what it owns. */
  ghost predicate Building(mm: Mm, oldmm: Mm, commit: Commit, base: int, cursor: int, ctx: map<int, int>)
    reads mm, oldmm, commit
  {
    && ForkedUpTo(oldmm.tree, oldmm.slab, mm.tree, mm.slab, oldmm.nextId, cursor, ctx)
    && 0 <= cursor <= TASK_SIZE
    && mm.mapCount == |mm.slab| && oldmm.nextId <= mm.nextId && (forall id | id in mm.slab :: id < mm.nextId)
    && var own := Seen(LowPart(mm.tree, cursor), mm.slab);
       && ToBytes(mm.totalVm) == Bytes(own) + Bytes(oldmm.Sees()) - Bytes(Upto(oldmm.Sees(), cursor))
       && ToBytes(commit.pages) == base + BytesWith(own, Account)
  }

  /** The pages `dup_mmap` charges for an area. */
  function ForkCharge(v: Vma): int {
    if Account in v.flags then VmaPages(v) else 0
  }

  /** Leaving an area out. */
  method SkipArea(mm: Mm, oldmm: Mm, commit: Commit, id: VmaId, ghost base: int, ghost cursor: int, ctx: map<int, int>)
    requires mm != oldmm && Consistent(oldmm.tree, oldmm.slab) && Building(mm, oldmm, commit, base, cursor, ctx)
    requires First(mm.tree, cursor, TASK_SIZE).Some? && id == Owner(mm.tree, First(mm.tree, cursor, TASK_SIZE).value)
    requires id in oldmm.slab && DontCopy in oldmm.slab[id].flags
    modifies mm`tree, mm`totalVm
    ensures Building(mm, oldmm, commit, base, oldmm.slab[id].end, ctx)
  {
    hide Consistent, Seen, ForkedUpTo, Bytes, BytesWith, Clear, LowPart, Upto;
    ghost var pt, ps, ct, cs := oldmm.tree, oldmm.slab, mm.tree, mm.slab;
    NextToFork(pt, ps, ct, cs, oldmm.nextId, cursor, ctx);
    ForkTally(pt, ps, ct, cs, oldmm.nextId, cursor, id, ctx);
    ForkSkip(pt, ps, ct, cs, oldmm.nextId, cursor, id, ctx);
    mm.tree := Clear(mm.tree, oldmm.slab[id].start, oldmm.slab[id].end);
    mm.totalVm := mm.totalVm - VmaPages(oldmm.slab[id]);
  }

  /** Storing the copy of an area whose pages have been charged. */
  method StoreCopy(mm: Mm, oldmm: Mm, commit: Commit, id: VmaId, ghost base: int, ghost cursor: int, ctx: map<int, int>)
    requires mm != oldmm && Consistent(oldmm.tree, oldmm.slab) && id in oldmm.slab && DontCopy !in oldmm.slab[id].flags
    requires Building(mm, oldmm, commit, base + ToBytes(ForkCharge(oldmm.slab[id])), cursor, ctx)
    requires First(mm.tree, cursor, TASK_SIZE).Some? && id == Owner(mm.tree, First(mm.tree, cursor, TASK_SIZE).value)
    modifies mm`tree, mm`slab, mm`nextId, mm`mapCount
    ensures Building(mm, oldmm, commit, base, oldmm.slab[id].end, ctx)
  {
    hide Consistent, Seen, ForkedUpTo, Bytes, BytesWith, Store, LowPart, Upto, VmaPages;
    ghost var pt, ps, ct, cs := oldmm.tree, oldmm.slab, mm.tree, mm.slab;
    NextToFork(pt, ps, ct, cs, oldmm.nextId, cursor, ctx);
    ForkTally(pt, ps, ct, cs, oldmm.nextId, cursor, id, ctx);
    var newId := mm.nextId;
    ForkCopy(pt, ps, ct, cs, oldmm.nextId, cursor, id, newId, ctx);
    mm.nextId := mm.nextId + 1;
    mm.slab := mm.slab[newId := Forked(oldmm.slab[id], ctx)];
    mm.tree := Store(mm.tree, oldmm.slab[id].start, oldmm.slab[id].end, newId);
    mm.mapCount := mm.mapCount + 1;
  }

  /** One round of the loop.  On failure the child is as before, unless the area was already stored
      when its pages could not be copied. */
  method ForkArea(mm: Mm, oldmm: Mm, commit: Commit, id: VmaId, ghost base: int, ghost cursor: int, fault: Fault,
                  i: int)
    returns (err: Errno, stored: bool)
    requires mm != oldmm && Consistent(oldmm.tree, oldmm.slab) && Building(mm, oldmm, commit, base, cursor, fault.ctx)
    requires First(mm.tree, cursor, TASK_SIZE).Some? && id == Owner(mm.tree, First(mm.tree, cursor, TASK_SIZE).value)
    modifies mm`tree, mm`slab, mm`nextId, mm`mapCount, mm`totalVm, commit
    ensures id in oldmm.slab && cursor < oldmm.slab[id].end
    ensures err.Success? ==> stored
    ensures Building(mm, oldmm, commit, base, if stored then oldmm.slab[id].end else cursor, fault.ctx)
    ensures !stored ==> unchanged(mm) && commit.pages == old(commit.pages)
    ensures err.Success? <==> !(i == fault.index && Applies(oldmm.slab[id], fault.step))
  {
    hide Consistent, Seen, ForkedUpTo, Bytes, BytesWith, LowPart, Upto, VmaPages;
    NextToFork(oldmm.tree, oldmm.slab, mm.tree, mm.slab, oldmm.nextId, cursor, fault.ctx);
    var mpnt := oldmm.slab[id];
    if DontCopy in mpnt.flags {
      if fault.Hits(i, AtClear) {
        return ENOMEM, false;
      }
      SkipArea(mm, oldmm, commit, id, base, cursor, fault.ctx);
      return Success, true;
    }
    if fault.Hits(i, AtSignal) {
      return EINTR, false;
    }
    var charge := 0;
    if Account in mpnt.flags {
      if fault.Hits(i, AtMemory) {
        return ENOMEM, false;
      }
      charge := VmaPages(mpnt);
      commit.pages := commit.pages + charge;
    }
    if fault.Hits(i, AtDup) || fault.Hits(i, AtPolicy) || fault.Hits(i, AtUffd)
       || (WipeOnFork !in mpnt.flags && fault.Hits(i, AtAnonFork)) {
      commit.pages := commit.pages - charge;
      return ENOMEM, false;
    }
    StoreCopy(mm, oldmm, commit, id, base, cursor, fault.ctx);
    stored := true;
    err := if WipeOnFork !in mpnt.flags && fault.Hits(i, AtCopy) then ENOMEM else Success;
  }

  /** How the tallies move when an area is copied or left out. */
  lemma ForkTally(pt: Tree, ps: Slab, ct: Tree, cs: Slab, firstOwn: VmaId, cursor: int, id: VmaId, ctx: map<int, int>)
    requires Consistent(pt, ps) && ForkedUpTo(pt, ps, ct, cs, firstOwn, cursor, ctx)
    requires id in ps && cursor <= ps[id].start && Free(ct, cursor, ps[id].start)
    ensures var own, area := Seen(LowPart(ct, cursor), cs), ps[id];
            && Bytes(Upto(Seen(pt, ps), area.end)) == Bytes(Upto(Seen(pt, ps), cursor)) + ToBytes(VmaPages(area))
            && Bytes(Override(own, Forked(area, ctx))) == Bytes(own) + ToBytes(VmaPages(area))
            && BytesWith(Override(own, Forked(area, ctx)), Account) ==
                BytesWith(own, Account) + (if Account in area.flags then ToBytes(VmaPages(area)) else 0)
  {
    hide Seen, Bytes, BytesWith, Override, ForkView, Upto;
    assert WellFormed(ps[id]);
    assert Free(pt, cursor, ps[id].start);
    UptoNext(pt, ps, cursor, id);
    OverrideTally(Upto(Seen(pt, ps), cursor), ps[id], Account);
    OverrideTally(Seen(LowPart(ct, cursor), cs), Forked(ps[id], ctx), Account);
  }

  /** From the cursor on the child's tree leads only to areas of the parent. */
  lemma TailForeign(pt: Tree, ps: Slab, ct: Tree, cs: Slab, firstOwn: VmaId, cursor: int)
    requires TreeSound(pt, ps) && TailShared(pt, ct, cursor) && OwnIds(cs, firstOwn) && 0 <= firstOwn
        && forall id | id in ps :: id < firstOwn
    ensures forall a | a in ct && cursor <= a :: Owner(ct, a) !in cs
    ensures forall id | id in cs :: id !in ps && 0 <= id
    ensures XA_ZERO !in cs
  {
    forall a | a in ct && cursor <= a
      ensures Owner(ct, a) !in cs
    {
      var id := Owner(pt, a);
      assert id in ps;
    }
  }

  /** Storing the marker over the next area of the parent leaves something `exit_mmap` can take down. */
  lemma MarkPartial(ct: Tree, cs: Slab, cursor: int, start: int, end: int)
    requires Consistent(LowPart(ct, cursor), cs) && XA_ZERO !in cs
    requires forall a | a in ct :: 0 <= a < TASK_SIZE
    requires forall a | a in ct && cursor <= a :: Owner(ct, a) !in cs
    requires 0 <= cursor <= start < end <= TASK_SIZE && Free(ct, cursor, start)
    ensures Partial(Store(ct, start, end, XA_ZERO), cs, cursor)
    ensures Seen(Store(ct, start, end, XA_ZERO), cs) == Seen(LowPart(ct, cursor), cs)
  {
    hide Seen, Consistent;
    var ct' := Store(ct, start, end, XA_ZERO);
    assert LowPart(ct', cursor) == LowPart(ct, cursor);
    assert start in ct' && Owner(ct', start) == XA_ZERO;
    var f := First(ct', cursor, TASK_SIZE);
    assert f.Some? && f.value == start;
    LowSeen(ct', cs, cursor);
  }

  /** Nothing is left above the cursor: what is built is all there is. */
  lemma ForkComplete(pt: Tree, ps: Slab, ct: Tree, cursor: int)
    requires TailShared(pt, ct, cursor) && First(ct, cursor, TASK_SIZE).None?
    ensures LowPart(ct, cursor) == ct
    ensures Upto(Seen(pt, ps), cursor) == Seen(pt, ps)
    ensures forall a | a in pt :: a < cursor
  {
    forall a | a in ct
      ensures a < cursor
    {
    }
    forall a | a in pt
      ensures a < cursor
    {
      assert cursor <= a ==> a in ct;
    }
    assert LowPart(ct, cursor) == ct;
    SameUpto(pt, ps, cursor);
  }

  lemma SameUpto(pt: Tree, ps: Slab, cursor: int)
    requires forall a | a in pt :: a < cursor
    ensures Upto(Seen(pt, ps), cursor) == Seen(pt, ps)
  {
    hide AttrAt;
    forall a
      ensures Look(Upto(Seen(pt, ps), cursor), a) == Look(Seen(pt, ps), a)
    {
    }
    SameLooks(Upto(Seen(pt, ps), cursor), Seen(pt, ps));
  }

  lemma NothingLocked(v: View, ctx: map<int, int>)
    ensures BytesWith(ForkView(v, ctx), Locked) == 0
  {
    assert With(ForkView(v, ctx), Locked) == {};
  }

  /** The loop of `dup_mmap`. */
  method ForkAreas(mm: Mm, oldmm: Mm, commit: Commit, ghost base: int, fault: Fault) returns (err: Errno, cursor: int)
    requires mm != oldmm && Consistent(oldmm.tree, oldmm.slab) && Building(mm, oldmm, commit, base, 0, fault.ctx)
    modifies mm`tree, mm`slab, mm`nextId, mm`mapCount, mm`totalVm, commit
    ensures Building(mm, oldmm, commit, base, cursor, fault.ctx)
    ensures err.Success? ==> First(mm.tree, cursor, TASK_SIZE).None?
    ensures err.Success? <==> !Strikes(oldmm.tree, oldmm.slab, fault)
  {
    hide Building, Consistent, Strikes, Spared, Applies, Heads;
    var i := 0;
    cursor := 0;
    err := Success;
    var at := First(mm.tree, cursor, TASK_SIZE);
    CursorInside(mm, oldmm, commit, base, cursor, fault.ctx);
    NothingStruck(oldmm.tree, oldmm.slab, fault);
    while at.Some?
      invariant at == First(mm.tree, cursor, TASK_SIZE) && 0 <= i && err.Success?
      invariant Building(mm, oldmm, commit, base, cursor, fault.ctx) && 0 <= cursor <= TASK_SIZE
      invariant i == |Heads(oldmm.tree, 0, cursor)| && Spared(oldmm.tree, oldmm.slab, fault, cursor)
      decreases TASK_SIZE - cursor
    {
      var id := Owner(mm.tree, at.value);
      StandsAt(mm, oldmm, commit, base, cursor, fault.ctx);
      NextHead(oldmm.tree, oldmm.slab, mm.tree, mm.slab, oldmm.nextId, cursor, fault, fault.ctx);
      var stored;
      err, stored := ForkArea(mm, oldmm, commit, id, base, cursor, fault, i);
      if stored {
        cursor := oldmm.slab[id].end;
        CursorInside(mm, oldmm, commit, base, cursor, fault.ctx);
      }
      if !err.Success? {
        return;
      }
      at := First(mm.tree, cursor, TASK_SIZE);
      i := i + 1;
    }
    StandsAt(mm, oldmm, commit, base, cursor, fault.ctx);
    NextHead(oldmm.tree, oldmm.slab, mm.tree, mm.slab, oldmm.nextId, cursor, fault, fault.ctx);
  }

  lemma NothingStruck(t: Tree, s: Slab, fault: Fault)
    ensures Spared(t, s, fault, 0) && |Heads(t, 0, 0)| == 0
  {
    assert Heads(t, 0, 0) == {};
  }

  lemma StandsAt(mm: Mm, oldmm: Mm, commit: Commit, base: int, cursor: int, ctx: map<int, int>)
    requires Building(mm, oldmm, commit, base, cursor, ctx)
    ensures ForkedUpTo(oldmm.tree, oldmm.slab, mm.tree, mm.slab, oldmm.nextId, cursor, ctx)
  {
  }

  lemma CursorInside(mm: Mm, oldmm: Mm, commit: Commit, base: int, cursor: int, ctx: map<int, int>)
    requires Building(mm, oldmm, commit, base, cursor, ctx)
    ensures 0 <= cursor <= TASK_SIZE
  {
  }

  /** What a finished or interrupted loop leaves, taken apart. */
  lemma BuildingParts(mm: Mm, oldmm: Mm, commit: Commit, base: int, cursor: int, ctx: map<int, int>)
    requires oldmm.Valid() && Building(mm, oldmm, commit, base, cursor, ctx)
    ensures var own := Seen(LowPart(mm.tree, cursor), mm.slab);
            && Consistent(LowPart(mm.tree, cursor), mm.slab)
            && own == ForkView(Upto(oldmm.Sees(), cursor), ctx)
            && ToBytes(mm.totalVm) == Bytes(own) + Bytes(oldmm.Sees()) - Bytes(Upto(oldmm.Sees(), cursor))
            && ToBytes(commit.pages) == base + BytesWith(own, Account)
    ensures TailShared(oldmm.tree, mm.tree, cursor)
    ensures CopiedBelow(oldmm.tree, oldmm.slab, mm.tree, mm.slab, cursor, ctx)
    ensures forall a | a in mm.tree && cursor <= a :: Owner(mm.tree, a) !in mm.slab
    ensures XA_ZERO !in mm.slab && mm.mapCount == |mm.slab| && 0 <= cursor <= TASK_SIZE && 0 <= mm.nextId
    ensures forall id | id in mm.slab :: id !in oldmm.slab && 0 <= id < mm.nextId && !mm.slab[id].detached
    ensures var f := First(mm.tree, cursor, TASK_SIZE);
            f.Some? ==>
              var id := Owner(mm.tree, f.value);
              && id in oldmm.slab && cursor <= oldmm.slab[id].start < oldmm.slab[id].end <= TASK_SIZE
              && Free(mm.tree, cursor, oldmm.slab[id].start)
  {
    hide Seen, ForkView, Bytes, BytesWith, Upto, LowPart;
    TailForeign(oldmm.tree, oldmm.slab, mm.tree, mm.slab, oldmm.nextId, cursor);
    NextToFork(oldmm.tree, oldmm.slab, mm.tree, mm.slab, oldmm.nextId, cursor, ctx);
  }

  /** `dup_mmap` into a freshly initialised child.  Success gives a valid child that sees what it should;
      any failure leaves something `exit_mmap` can take down; the commit counter is charged for exactly
      what the child owns. */
  method DupMmap(mm: Mm, oldmm: Mm, commit: Commit, fault: Fault) returns (err: Errno, ghost cut: int)
    requires mm != oldmm && oldmm.Valid()
    requires mm.tree == map[] && mm.slab == map[] && mm.mapCount == 0 && mm.lockedVm == 0 && mm.nextId == oldmm.nextId
    requires mm.startBrk == oldmm.startBrk && mm.brk == oldmm.brk
    modifies mm`tree, mm`slab, mm`nextId, mm`mapCount, mm`totalVm, commit
    ensures err.Success? ==> mm.Valid() && mm.Sees() == ForkView(oldmm.Sees(), fault.ctx)
    ensures err.Success? ==> AllCopied(oldmm.tree, oldmm.slab, mm.tree, mm.slab, fault.ctx)
    ensures !err.Success? ==> Partial(mm.tree, mm.slab, cut) && 0 <= cut && mm.mapCount == |mm.slab|
    ensures forall id | id in mm.slab :: id !in oldmm.slab
    ensures ToBytes(commit.pages) == old(ToBytes(commit.pages)) + mm.Charge()
    ensures err.Success? <==> Survives(oldmm.tree, oldmm.slab, fault)
  {
    hide Strikes;
    hide Consistent, Seen, ForkedUpTo, Bytes, BytesWith, Store, LowPart, Upto, Partial, TailShared, ForkView, CopiedAt;
    cut := 0;
    EmptyState();
    if !fault.lockOk {
      return EINTR, cut;
    }
    mm.totalVm := oldmm.totalVm;
    if !fault.treeOk {                              // ksm_fork, __mt_dup
      return ENOMEM, cut;
    }
    mm.tree := oldmm.tree;                          // __mt_dup
    ghost var base := ToBytes(commit.pages);
    ForkStart(oldmm.tree, oldmm.slab, oldmm.nextId, fault.ctx);
    StartTally(oldmm.tree, oldmm.slab);
    var cursor;
    err, cursor := ForkAreas(mm, oldmm, commit, base, fault);
    BuildingParts(mm, oldmm, commit, base, cursor, fault.ctx);
    cut := cursor;
    var mpnt := First(mm.tree, cursor, TASK_SIZE);
    if mpnt.None? {
      ForkComplete(oldmm.tree, oldmm.slab, mm.tree, cursor);
      NothingLocked(oldmm.Sees(), fault.ctx);
      WholePartial(mm.tree, mm.slab, cursor);
      if err.Success? && !fault.archOk {
        err := ENOMEM;
      }
    } else {
      var area := oldmm.slab[Owner(mm.tree, mpnt.value)];
      TailInside(oldmm.tree, mm.tree, cursor);
      MarkPartial(mm.tree, mm.slab, cursor, area.start, area.end);
      mm.tree := Store(mm.tree, area.start, area.end, XA_ZERO);
    }
  }

  lemma TailInside(pt: Tree, ct: Tree, cursor: int)
    requires TailShared(pt, ct, cursor)
    ensures forall a | a in ct :: 0 <= a < TASK_SIZE
  {
  }

  /** Without anything above the cursor no marker is needed. */
  lemma WholePartial(ct: Tree, cs: Slab, cursor: int)
    requires Consistent(LowPart(ct, cursor), cs) && LowPart(ct, cursor) == ct
    requires XA_ZERO !in cs && First(ct, cursor, TASK_SIZE).None?
    ensures Partial(ct, cs, cursor) && Consistent(ct, cs)
  {
    forall a | a in ct
      ensures 0 <= a < TASK_SIZE
    {
      var id := Owner(ct, a);
      assert Holds(cs[id], a) && WellFormed(cs[id]);
    }
  }

  lemma EmptyState()
    ensures Partial(map[], map[], 0) && Seen(map[], map[]) == map[] && BytesWith(map[], Account) == 0
  {
    assert LowPart(map[], 0) == map[];
    assert With(map[], Account) == {};
  }

  lemma StartTally(pt: Tree, ps: Slab)
    requires Consistent(pt, ps)
    ensures Seen(LowPart(pt, 0), map[]) == map[] && Upto(Seen(pt, ps), 0) == map[]
    ensures Bytes(map[]) == 0 && BytesWith(map[], Account) == 0
  {
    forall a | a in pt
      ensures 0 <= a < TASK_SIZE
    {
      var id := Owner(pt, a);
      assert Holds(ps[id], a) && WellFormed(ps[id]);
    }
    assert With(map[], Account) == {};
  }

  /** `dup_mm`.  A failed duplication is taken down again through `mmput`: `freed` lists what
      `exit_mmap` released and `bug` is its BUG_ON. */
  method DupMm(oldmm: Mm, commit: Commit, initFlags: set<Flag>, allocOk: bool, binfmtOk: bool, fault: Fault)
    returns (ok: bool, child: Mm?, bug: bool, freed: seq<VmaId>)
    requires oldmm.Valid()
    modifies commit
    ensures oldmm.Valid() && !bug
    ensures ok ==> child != null && fresh(child) && child.Valid() && child.Sees() == ForkView(oldmm.Sees(), fault.ctx)
    ensures ok ==> AllCopied(oldmm.tree, oldmm.slab, child.tree, child.slab, fault.ctx)
    ensures ok ==>
              && child.startBrk == oldmm.startBrk && child.brk == oldmm.brk
              && child.defFlags == oldmm.defFlags * initFlags
    ensures ok ==> ToBytes(commit.pages) == old(ToBytes(commit.pages)) + child.Charge()
    ensures !ok ==> commit.pages == old(commit.pages)
    ensures forall id | id in freed :: id !in oldmm.slab
    ensures ok <==> allocOk && binfmtOk && Survives(oldmm.tree, oldmm.slab, fault)
  {
    hide Survives;
    hide Consistent, Seen, ForkView, Bytes, BytesWith, Partial, Distinct, AllCopied;
    ok, child, bug, freed := false, null, false, [];
    if !allocOk {
      return;
    }
    var mm := new Mm.CopyOf(oldmm, initFlags);
    var err, cut := DupMmap(mm, oldmm, commit, fault);
    if err.Success? && binfmtOk {
      return true, mm, false, [];
    }
    if err.Success? {
      WholeIsPartial(mm.tree, mm.slab);
      cut := TASK_SIZE;
    }
    ghost var owned := mm.slab.Keys;
    bug, freed := ExitMmap(mm, commit, cut);
    assert forall id | id in freed :: id in IdSet(freed);
  }
}
