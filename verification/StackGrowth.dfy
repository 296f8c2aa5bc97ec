/** Growing a stack downwards on a fault (`expand_downwards`, `acct_stack_growth`). */
module StackGrowth {
  import opened Pages
  import opened Vmas
  import opened Trees
  import opened AddressSpaces
  import opened Reshaping
  import opened MergeCases
  import opened Merging
  import opened Mapping

  /** What the outside world decides during the growth; `anon` is the anon_vma that
      `anon_vma_prepare` can supply. */
  datatype StackOutcomes = StackOutcomes(preallocOk: bool, anon: Option<AnonId>, dataOk: bool, stackOk: bool,
                                         mlockOk: bool, memoryOk: bool)

  predicate Accessible(v: Vma) {
    Read in v.flags || Write in v.flags || Exec in v.flags
  }

  function PageFloor(a: int): int {
    a - a % 4096
  }

  /** The new part of the stack. */
  function Below(v: Vma, address: int): Vma {
    v.(start := address, end := v.start, pgoff := v.pgoff - (v.start - address) / 4096)
  }

  /** `anon_vma_prepare`: the area with an anon_vma, if one can be had. */
  function Prepared(v: Vma, anon: Option<AnonId>): Vma {
    if v.anonVma.None? && anon.Some? then v.(anonVma := anon, chain := [anon.value]) else v
  }

  /** The stack grown down to `address`. */
  function GrownDown(v: Vma, address: int): Vma {
    v.(start := address, pgoff := v.pgoff - (v.start - address) / 4096)
  }

  /** The guard check against the area below: a stack or an inaccessible area may be approached. */
  predicate GuardOk(s: Slab, prev: Ref, address: int, guard: int)
    requires prev.To? ==> prev.id in s
  {
    prev.To? && GrowsDown !in s[prev.id].flags && Accessible(s[prev.id]) ==> guard <= address - s[prev.id].end
  }

  /** The area next below keeps the guard gap to `address`, or needs none. */
  ghost predicate GuardKept(t: Tree, s: Slab, id: VmaId, address: int, guard: int)
    requires id in s
  {
    forall p | p in s && s[p].end <= s[id].start && Free(t, s[p].end, s[id].start) ::
      GrowsDown in s[p].flags || s[p].flags !! {Read, Write, Exec} || guard <= address - s[p].end
  }

  /** There is room for the growth, and what it needs can be had. */
  ghost predicate MayTry(t: Tree, s: Slab, id: VmaId, fault: int, minAddr: int, guard: int, o: StackOutcomes)
    requires id in s
  {
    && GrowsDown in s[id].flags && minAddr <= PageFloor(fault)
    && GuardKept(t, s, id, PageFloor(fault), guard)
    && o.preallocOk && (s[id].anonVma.Some? || o.anon.Some?)
  }

  /** The growth is allowed and accounted for. */
  ghost predicate MayGrow(t: Tree, s: Slab, id: VmaId, totalVm: int, fault: int, minAddr: int, guard: int,
                          rlimitAs: int, o: StackOutcomes)
    requires id in s
  {
    && MayTry(t, s, id, fault, minAddr, guard, o)
    && GrowthAllowed(s[id], totalVm, PageFloor(fault), rlimitAs, o)
  }

  /** The areas once the anon_vma is there: the stack reaches down to `address`, or only has the anon_vma. */
  ghost function PreparedAfter(x: Space, id: VmaId, totalVm: int, address: int, rlimitAs: int, o: StackOutcomes): Space
    requires id in x.slab
  {
    var v := Prepared(x.slab[id], o.anon);
    if GrowthAllowed(x.slab[id], totalVm, address, rlimitAs, o)
    then Space(Store(x.tree, address, v.end, id), x.slab[id := GrownDown(v, address)], x.next)
    else x.(slab := x.slab[id := v])
  }

  /** The areas after a fault below the stack. */
  ghost function StackAfter(x: Space, id: VmaId, totalVm: int, fault: int, minAddr: int, guard: int, rlimitAs: int,
                            o: StackOutcomes): Space
    requires id in x.slab
  {
    if MayTry(x.tree, x.slab, id, fault, minAddr, guard, o)
    then PreparedAfter(x, id, totalVm, PageFloor(fault), rlimitAs, o) else x
  }

  /** `expand_downwards`, called with the first area above the faulting address.  It succeeds exactly when
      the growth is allowed, and then adds exactly the pages from the fault to the stack. */
  method ExpandDownwards(mm: Mm, commit: Commit, id: VmaId, fault: int, minAddr: int, guard: int, rlimitAs: int,
                         o: StackOutcomes)
    returns (err: Errno)
    requires mm.Valid() && id in mm.slab && 0 <= fault < mm.slab[id].start && Free(mm.tree, fault, mm.slab[id].start)
    modifies mm`tree, mm`slab, mm`totalVm, mm`lockedVm, commit
    ensures mm.Valid()
    ensures err == if GrowsDown !in old(mm.slab[id]).flags then EFAULT
                   else if PageFloor(fault) < minAddr then EPERM
                   else if old(MayGrow(mm.tree, mm.slab, id, mm.totalVm, fault, minAddr, guard, rlimitAs, o))
                   then Success else ENOMEM
    ensures old(MayTry(mm.tree, mm.slab, id, fault, minAddr, guard, o) && mm.slab[id].anonVma.None?) ==>
              id in mm.slab && mm.slab[id].anonVma == o.anon && mm.slab[id].chain == [o.anon.value]
    ensures mm.Now() == old(StackAfter(mm.Now(), id, mm.totalVm, fault, minAddr, guard, rlimitAs, o))
    ensures err.Success? ==>
              && mm.Sees() == Override(old(mm.Sees()), Below(old(mm.slab[id]), PageFloor(fault)))
              && mm.slab == old(mm.slab)[id := GrownDown(Prepared(old(mm.slab[id]), o.anon), PageFloor(fault))]
              && mm.totalVm <= rlimitAs / 4096
    ensures !err.Success? ==> mm.Sees() == old(mm.Sees()) && mm.totalVm == old(mm.totalVm)
    ensures ToBytes(commit.pages) - mm.Charge() == old(ToBytes(commit.pages) - mm.Charge()) +
              (if err.Success? && Account !in old(mm.slab[id]).flags then old(mm.slab[id]).start - PageFloor(fault)
               else 0)
  {
    hide Consistent, Seen, Store, Override, Bytes, BytesWith, Below, GrownDown, GuardOk, GuardKept, PageFloor, Free;
    hide Prepared, GrowthAllowed, PreparedAfter;
    var address := PageFloor(fault);
    ghost var t, s := mm.tree, mm.slab;
    FloorFree(t, s, id, fault);
    if GrowsDown !in mm.slab[id].flags {
      return EFAULT;
    }
    if address < minAddr {
      return EPERM;
    }
    var below := Last(mm.tree, 0, mm.slab[id].start);
    GuardExact(t, s, id, address, guard);
    var prev := if below.Some? then To(Owner(mm.tree, below.value)) else Null;
    if !GuardOk(mm.slab, prev, address, guard) {
      return ENOMEM;
    }
    if !o.preallocOk {
      return ENOMEM;
    }
    err := PrepareAndGrow(mm, commit, id, address, rlimitAs, o);
  }

  /** The part of `expand_downwards` from `anon_vma_prepare` on. */
  method PrepareAndGrow(mm: Mm, commit: Commit, id: VmaId, address: int, rlimitAs: int, o: StackOutcomes)
    returns (err: Errno)
    requires mm.Valid() && id in mm.slab && 0 <= address < mm.slab[id].start && Aligned(address)
    requires Free(mm.tree, address, mm.slab[id].start)
    modifies mm`tree, mm`slab, mm`totalVm, mm`lockedVm, commit
    ensures mm.Valid()
    ensures err == if old(&& (mm.slab[id].anonVma.Some? || o.anon.Some?)
                          && GrowthAllowed(mm.slab[id], mm.totalVm, address, rlimitAs, o))
                   then Success else ENOMEM
    ensures old(mm.slab[id].anonVma.None?) && o.anon.Some? ==>
              id in mm.slab && mm.slab[id].anonVma == o.anon && mm.slab[id].chain == [o.anon.value]
    ensures mm.Now() == if old(mm.slab[id].anonVma.Some?) || o.anon.Some?
                        then old(PreparedAfter(mm.Now(), id, mm.totalVm, address, rlimitAs, o)) else old(mm.Now())
    ensures err.Success? ==>
              && mm.Sees() == Override(old(mm.Sees()), Below(old(mm.slab[id]), address))
              && mm.slab == old(mm.slab)[id := GrownDown(Prepared(old(mm.slab[id]), o.anon), address)]
              && mm.totalVm <= rlimitAs / 4096
    ensures !err.Success? ==> mm.Sees() == old(mm.Sees()) && mm.totalVm == old(mm.totalVm)
    ensures ToBytes(commit.pages) - mm.Charge() == old(ToBytes(commit.pages) - mm.Charge()) +
              (if err.Success? && Account !in old(mm.slab[id]).flags then old(mm.slab[id]).start - address else 0)
  {
    hide Consistent, Seen, Store, Override, Bytes, BytesWith, Below, GrownDown, Free;
    ghost var s := mm.slab;
    PreparedKeeps(mm.tree, s, id, o.anon);
    BelowSame(mm.Sees(), s[id], o.anon, address);
    if mm.slab[id].anonVma.None? {
      if o.anon.None? {
        return ENOMEM;
      }
      mm.slab := mm.slab[id := mm.slab[id].(anonVma := o.anon, chain := [o.anon.value])];
    }
    assert mm.slab == s[id := Prepared(s[id], o.anon)];
    hide Prepared;
    assert mm.slab[id := GrownDown(mm.slab[id], address)] == s[id := GrownDown(Prepared(s[id], o.anon), address)];
    err := GrowPrepared(mm, commit, id, address, rlimitAs, o);
  }

  /** The limits on a growth down to `address`. */
  predicate GrowthAllowed(v: Vma, totalVm: int, address: int, rlimitAs: int, o: StackOutcomes) {
    var grow := (v.start - address) / 4096;
    && grow <= v.pgoff && totalVm + grow <= rlimitAs / 4096
    && o.dataOk && o.stackOk && o.mlockOk && o.memoryOk
  }

  /** The part of `expand_downwards` under the anon_vma lock: check the limits and grow. */
  method GrowPrepared(mm: Mm, commit: Commit, id: VmaId, address: int, rlimitAs: int, o: StackOutcomes)
    returns (err: Errno)
    requires mm.Valid() && id in mm.slab && 0 <= address < mm.slab[id].start && Aligned(address)
    requires Free(mm.tree, address, mm.slab[id].start)
    modifies mm`tree, mm`slab, mm`totalVm, mm`lockedVm, commit
    ensures mm.Valid()
    ensures err == if old(GrowthAllowed(mm.slab[id], mm.totalVm, address, rlimitAs, o)) then Success else ENOMEM
    ensures err.Success? ==>
              && mm.Sees() == Override(old(mm.Sees()), Below(old(mm.slab[id]), address))
              && mm.slab == old(mm.slab)[id := GrownDown(old(mm.slab[id]), address)]
              && mm.tree == Store(old(mm.tree), address, old(mm.slab[id]).end, id)
              && mm.totalVm <= rlimitAs / 4096
    ensures !err.Success? ==> unchanged(mm) && commit.pages == old(commit.pages)
    ensures id in mm.slab
    ensures mm.slab[id].anonVma == old(mm.slab[id].anonVma) && mm.slab[id].chain == old(mm.slab[id].chain)
    ensures ToBytes(commit.pages) - mm.Charge() == old(ToBytes(commit.pages) - mm.Charge()) +
              (if err.Success? && Account !in old(mm.slab[id]).flags then old(mm.slab[id]).start - address else 0)
  {
    hide Consistent, Seen, Store, Override, Bytes, BytesWith, Below, Free;
    var grow := (mm.slab[id].start - address) / 4096;
    if grow > mm.slab[id].pgoff {
      return ENOMEM;
    }
    if !MayExpand(mm.totalVm, grow, rlimitAs, o.dataOk) || !o.stackOk || !o.mlockOk || !o.memoryOk {
      return ENOMEM;
    }
    Extend(mm, commit, id, address, grow);
    err := Success;
  }

  /** The growth itself, once everything is allowed. */
  method Extend(mm: Mm, commit: Commit, id: VmaId, address: int, grow: int)
    requires mm.Valid() && id in mm.slab && 0 <= address < mm.slab[id].start && Aligned(address)
    requires Free(mm.tree, address, mm.slab[id].start)
    requires grow == (mm.slab[id].start - address) / 4096 && grow <= mm.slab[id].pgoff
    modifies mm`tree, mm`slab, mm`totalVm, mm`lockedVm, commit
    ensures mm.Valid()
    ensures mm.Sees() == Override(old(mm.Sees()), Below(old(mm.slab[id]), address))
    ensures mm.slab == old(mm.slab)[id := GrownDown(old(mm.slab[id]), address)]
    ensures mm.tree == Store(old(mm.tree), address, old(mm.slab[id]).end, id) && mm.totalVm == old(mm.totalVm) + grow
    ensures ToBytes(commit.pages) - mm.Charge() == old(ToBytes(commit.pages) - mm.Charge()) +
              (if Account !in old(mm.slab[id]).flags then old(mm.slab[id]).start - address else 0)
  {
    hide Consistent, Seen, Store, Override, Bytes, BytesWith, Below, GrownDown, Free;
    GrowDownCase(mm.tree, mm.slab, id, address);
    commit.pages := commit.pages + grow;
    if Locked in mm.slab[id].flags {
      mm.lockedVm := mm.lockedVm + grow;
    }
    mm.totalVm := mm.totalVm + grow;
    mm.slab := mm.slab[id := GrownDown(mm.slab[id], address)];
    mm.tree := Store(mm.tree, address, mm.slab[id].end, id);
  }

  /** No address sees the anon_vma. */
  lemma BelowSame(view: View, v: Vma, anon: Option<AnonId>, address: int)
    ensures Override(view, Below(Prepared(v, anon), address)) == Override(view, Below(v, address))
  {
    var p, q := Below(Prepared(v, anon), address), Below(v, address);
    forall a
      ensures Look(Override(view, p), a) == Look(Override(view, q), a)
    {
      assert Holds(p, a) == Holds(q, a) && AttrAt(p, a) == AttrAt(q, a);
    }
    SameLooks(Override(view, p), Override(view, q));
  }

  /** The area the iterator steps back to is the one next below. */
  lemma GuardExact(t: Tree, s: Slab, id: VmaId, address: int, guard: int)
    requires Consistent(t, s) && id in s
    ensures var below := Last(t, 0, s[id].start);
            && (below.Some? ==> Owner(t, below.value) in s)
            && (GuardOk(s, if below.Some? then To(Owner(t, below.value)) else Null, address, guard)
                <==> GuardKept(t, s, id, address, guard))
  {
    var below := Last(t, 0, s[id].start);
    LastKnown(t, s, 0, s[id].start);
    if below.Some? {
      NextBelow(t, s, id, below.value);
    }
    forall p | p in s && s[p].end <= s[id].start && Free(t, s[p].end, s[id].start)
      ensures below == Some(s[p].end - 1) && Owner(t, s[p].end - 1) == p
    {
      assert WellFormed(s[p]) && Holds(s[p], s[p].end - 1);
    }
  }

  lemma NextBelow(t: Tree, s: Slab, id: VmaId, at: int)
    requires Consistent(t, s) && id in s && Last(t, 0, s[id].start) == Some(at)
    ensures var p := Owner(t, at); p in s && s[p].end == at + 1 && Free(t, at + 1, s[id].start)
  {
    assert WellFormed(s[id]) && Holds(s[id], s[id].start);
    if at + 1 < s[id].start {
      assert at + 1 !in t;
    }
    NeighbourEnds(t, s, at);
  }

  lemma PreparedKeeps(t: Tree, s: Slab, id: VmaId, anon: Option<AnonId>)
    requires Consistent(t, s) && id in s
    ensures var nv := Prepared(s[id], anon);
            && Consistent(t, s[id := nv]) && Seen(t, s[id := nv]) == Seen(t, s) && s[id := nv].Keys == s.Keys
            && nv.start == s[id].start && nv.end == s[id].end && nv.pgoff == s[id].pgoff && nv.flags == s[id].flags
            && nv.detached == s[id].detached
  {
    hide Consistent, Seen;
    KnownWellFormed(t, s, id);
    MarkKeeps(t, s, id, Prepared(s[id], anon));
  }

  /** Areas end on page boundaries, so rounding the address down stays in free space. */
  lemma FloorFree(t: Tree, s: Slab, id: VmaId, fault: int)
    requires Consistent(t, s) && id in s && 0 <= fault < s[id].start && Free(t, fault, s[id].start)
    ensures 0 <= PageFloor(fault) <= fault && Aligned(PageFloor(fault)) && Free(t, PageFloor(fault), s[id].start)
    ensures Aligned(s[id].start - PageFloor(fault)) && WellFormed(s[id])
  {
    assert WellFormed(s[id]);
    forall a | PageFloor(fault) <= a < fault
      ensures a !in t
    {
      if a in t {
        var o := Owner(t, a);
        assert Holds(s[o], a) && WellFormed(s[o]);
        PageEnds(fault, a, s[o].end);
        assert Holds(s[o], fault);
      }
    }
  }

  /** A page boundary above an address of the page of `fault` lies above `fault`. */
  lemma PageEnds(fault: int, a: int, end: int)
    requires PageFloor(fault) <= a < end && Aligned(end)
    ensures fault < end
  {
  }

  lemma GrowDownCase(t: Tree, s: Slab, id: VmaId, address: int)
    requires Consistent(t, s) && id in s && 0 <= address < s[id].start && Aligned(address)
    requires Free(t, address, s[id].start) && (s[id].start - address) / 4096 <= s[id].pgoff
    ensures var np, part := GrownDown(s[id], address), Below(s[id], address);
            var t', s' := Store(t, address, np.end, id), s[id := np];
            var v := Seen(t, s);
            var bytes := ToBytes((s[id].start - address) / 4096);
            && Consistent(t', s') && Seen(t', s') == Override(v, part)
            && s'.Keys == s.Keys && |s'| == |s| && np.detached == s[id].detached
            && np.start == address && np.end == s[id].end && bytes == s[id].start - address
            && Bytes(Override(v, part)) == Bytes(v) + bytes
            && BytesWith(Override(v, part), Locked) == BytesWith(v, Locked) + (if Locked in s[id].flags then bytes
                                                                      else 0)
            && BytesWith(Override(v, part), Account) == BytesWith(v, Account) + (if Account in s[id].flags then bytes
                                                                      else 0)
  {
    hide Consistent, Seen, Store, Override, Bytes, BytesWith, Merged, Free;
    KnownWellFormed(t, s, id);
    var np, part := GrownDown(s[id], address), Below(s[id], address);
    GrowCase(t, s, Null, Null, To(id), id, np, {}, part);
    MergedParts(t, s, Store(t, np.start, np.end, id), s[id := np] - {}, part);
    assert s[id := np] - {} == s[id := np];
    assert s[id := np].Keys == s.Keys;
    FreeUnseen(t, s, part);
    OverrideTally(Seen(t, s), part, Locked);
    OverrideTally(Seen(t, s), part, Account);
  }
}
