/** Choosing the address of a mapping and carrying it out (`generic_get_unmapped_area` and its top-down
    form, `get_unmapped_area`, `do_mmap`). */
module Placement {
  import opened Pages
  import opened Vmas
  import opened Trees
  import opened AddressSpaces
  import opened GapSearch
  import opened Mapping

  /** The layout parameters of an address space and the system-wide minimum address. */
  datatype Layout = Layout(topDown: bool, mmapBase: int, unmappedBase: int, minAddr: int, guard: int)

  predicate GoodLayout(l: Layout) {
    && 0 < l.mmapBase <= TASK_SIZE && 0 <= l.unmappedBase <= TASK_SIZE
    && 0 <= l.minAddr <= TASK_SIZE && 0 <= l.guard && Aligned(l.guard)
  }

  /** The bases are page-aligned, as the setup of a layout leaves them. */
  predicate AlignedLayout(l: Layout) {
    Aligned(l.mmapBase) && Aligned(l.unmappedBase) && Aligned(l.minAddr)
  }

  /** Where the bottom-up search starts, which is the last resort in both directions. */
  function LastResort(l: Layout): int {
    Max(if l.topDown then l.unmappedBase else l.mmapBase, l.minAddr)
  }

  /** Where the top-down search starts from below. */
  function Bottom(l: Layout): int {
    Max(4096, l.minAddr)
  }

  /** The top-down search runs into a guard gap that reaches address zero. */
  ghost predicate Underflows(t: Tree, s: Slab, len: int, l: Layout)
    requires Consistent(t, s)
  {
    l.topDown && HitsZero(t, s, len, Bottom(l), l.mmapBase, l.guard)
  }

  /** May the hint be used as it is? */
  predicate HintFits(t: Tree, s: Slab, addr: int, len: int, l: Layout)
    requires Consistent(t, s)
  {
    var below := Last(t, 0, addr);
    && addr <= TASK_SIZE - len && l.minAddr <= addr
    && (var vma := AreaAbove(t, s, addr);
        vma.To? ==> addr + len <= StartGap(s[vma.id], l.guard))
    && (below.Some? ==> Owner(t, below.value) in s && s[Owner(t, below.value)].end <= addr)
  }

  /** A hint is used as it is if and only if the range there is one the search could return. */
  lemma HintExact(t: Tree, s: Slab, addr: int, len: int, l: Layout)
    requires Consistent(t, s) && 0 <= addr && 0 < len && 0 <= l.guard
    ensures HintFits(t, s, addr, len, l) <==> Suitable(t, s, addr, len, l.minAddr, TASK_SIZE, l.guard)
  {
    hide Consistent, First, Last, StartGap;
    if HintFits(t, s, addr, len, l) {
      HintWindow(t, s, addr, len, l);
    }
    if Window(t, addr, len) && addr + len <= TASK_SIZE {
      EndsBelow(t, s, addr);
      FirstFromLater(t, addr, addr + len);
    }
  }

  lemma HintWindow(t: Tree, s: Slab, addr: int, len: int, l: Layout)
    requires Consistent(t, s) && 0 <= addr && 0 < len && 0 <= l.guard && HintFits(t, s, addr, len, l)
    ensures Window(t, addr, len)
  {
    var at := First(t, addr, TASK_SIZE);
    if at.Some? {
      var id := Owner(t, at.value);
      assert Holds(s[id], at.value) && WellFormed(s[id]);
    }
  }

  /** The area before a free address ends at or below it. */
  lemma EndsBelow(t: Tree, s: Slab, addr: int)
    requires Consistent(t, s) && 0 <= addr && addr !in t
    ensures var below := Last(t, 0, addr);
            below.Some? ==> Owner(t, below.value) in s && s[Owner(t, below.value)].end <= addr
  {
    var below := Last(t, 0, addr);
    if below.Some? {
      var id := Owner(t, below.value);
      assert Holds(s[id], below.value) && WellFormed(s[id]);
      assert !Holds(s[id], addr);
    }
  }

  /** The result of the search after a useless hint. */
  function GapFor(t: Tree, s: Slab, len: int, l: Layout): Option<int>
    requires Consistent(t, s) && GoodLayout(l) && 0 < len < WORD
  {
    var down := if l.topDown then SearchDown(t, s, Info(len, 4096, l.mmapBase, 1, 0), Bottom(l), l.mmapBase, l.guard)
        else None;
    if down.Some? then down
    else
      var base := if l.topDown then l.unmappedBase else l.mmapBase;
      SearchUp(t, s, Info(len, base, TASK_SIZE, 1, 0), LastResort(l), l.guard)
  }

  /** What the search finds is free, clear of guard gaps and, unless the top-down search underflows, inside the
      user address space; it finds nothing only if the last resort holds nothing suitable. */
  lemma GapForMeans(t: Tree, s: Slab, len: int, l: Layout)
    requires Consistent(t, s) && GoodLayout(l) && 0 < len <= TASK_SIZE
    ensures var r := GapFor(t, s, len, l);
            && (r.Some? ==> 0 <= r.value && Window(t, r.value, len) && l.minAddr <= r.value)
            && (r.Some? && AlignedLayout(l) && Aligned(len) ==>
                  Aligned(r.value) && ClearAbove(t, s, r.value + len, l.guard))
            && (r.Some? ==> (r.value + len <= TASK_SIZE <==> !Underflows(t, s, len, l)))
            && (Underflows(t, s, len, l) ==> r.Some?)
            && (r.None? ==> forall h :: !Suitable(t, s, h, len, LastResort(l), TASK_SIZE, l.guard))
  {
    hide Consistent, Window, SearchDown, SearchUp, ClearAbove, Suitable, HitsZero;
    assert Ceiling(TASK_SIZE) == TASK_SIZE;
    var r := GapFor(t, s, len, l);
    if l.topDown {
      var down := Info(len, 4096, l.mmapBase, 1, 0);
      SearchDownSound(t, s, down, Bottom(l), l.mmapBase, l.guard);
      if AlignedLayout(l) && Aligned(len) {
        SearchDownAligned(t, s, down, Bottom(l), l.mmapBase, l.guard);
      }
      SearchDownInside(t, s, down, Bottom(l), l.mmapBase, l.guard);
    }
    var up := Info(len, if l.topDown then l.unmappedBase else l.mmapBase, TASK_SIZE, 1, 0);
    SearchUpSound(t, s, up, LastResort(l), l.guard);
    forall h | Suitable(t, s, h, len, LastResort(l), TASK_SIZE, l.guard)
      ensures SearchUp(t, s, up, LastResort(l), l.guard).Some?
    {
      SearchUpLowest(t, s, up, LastResort(l), l.guard, h);
    }
  }

  /** A range below the base that no retry of the top-down search cuts off. */
  ghost predicate Uncut(t: Tree, s: Slab, h: int, len: int, l: Layout)
    requires Consistent(t, s)
  {
    && Suitable(t, s, h, len, Bottom(l), l.mmapBase, l.guard)
    && !CutOff(t, s, h, len, Bottom(l), l.mmapBase, l.guard)
  }

  /** Which range the search prefers: top-down the highest below the base, and bottom-up, or if there is none, the
      lowest above the last resort. */
  lemma GapForPrefers(t: Tree, s: Slab, len: int, l: Layout)
    requires Consistent(t, s) && GoodLayout(l) && 0 < len <= TASK_SIZE
    ensures var r := GapFor(t, s, len, l);
            && (l.topDown ==>
                  forall h | Uncut(t, s, h, len, l) :: r.Some? && h <= r.value && r.value + len <= l.mmapBase)
            && (!l.topDown || (!Underflows(t, s, len, l) && forall h :: !Uncut(t, s, h, len, l)) ==>
                  forall h | Suitable(t, s, h, len, LastResort(l), TASK_SIZE, l.guard) :: r.Some? && r.value <= h)
  {
    hide Consistent, Window, SearchDown, SearchUp, Suitable, HitsZero, CutOff;
    assert Ceiling(TASK_SIZE) == TASK_SIZE;
    if l.topDown {
      var down := Info(len, 4096, l.mmapBase, 1, 0);
      SearchDownFails(t, s, down, Bottom(l), l.mmapBase, l.guard);
      forall h | Uncut(t, s, h, len, l)
        ensures var r := SearchDown(t, s, down, Bottom(l), l.mmapBase, l.guard);
                r.Some? && h <= r.value && r.value + len <= l.mmapBase
      {
        UncutFound(t, s, down, Bottom(l), l.mmapBase, l.guard, h);
      }
      assert forall h | Suitable(t, s, h, len, Bottom(l), l.mmapBase, l.guard) && !Uncut(t, s, h, len, l) ::
          CutOff(t, s, h, len, Bottom(l), l.mmapBase, l.guard);
    }
    var up := Info(len, if l.topDown then l.unmappedBase else l.mmapBase, TASK_SIZE, 1, 0);
    forall h | Suitable(t, s, h, len, LastResort(l), TASK_SIZE, l.guard)
      ensures var r := SearchUp(t, s, up, LastResort(l), l.guard); r.Some? && r.value <= h
    {
      SearchUpLowest(t, s, up, LastResort(l), l.guard, h);
    }
  }

  /** The search after a useless hint, in the direction of the layout: `generic_get_unmapped_area` and its
      top-down form with the bottom-up fallback. */
  method SearchGap(t: Tree, s: Slab, len: int, l: Layout) returns (r: Option<int>)
    requires Consistent(t, s) && GoodLayout(l) && 0 < len <= TASK_SIZE
    ensures r == GapFor(t, s, len, l)
  {
    hide Consistent, Window, SearchDown, SearchUp;
    if l.topDown {
      r := UnmappedAreaTopdown(t, s, Info(len, 4096, l.mmapBase, 1, 0), l.minAddr, l.guard);
      if r.Some? {
        return;
      }
      r := UnmappedArea(t, s, Info(len, l.unmappedBase, TASK_SIZE, 1, 0), l.minAddr, l.guard);
    } else {
      r := UnmappedArea(t, s, Info(len, l.mmapBase, TASK_SIZE, 1, 0), l.minAddr, l.guard);
    }
  }

  datatype Placed64 = At(addr: int) | Refused(err: Errno)

  /** The address a request gets, or why it gets none. */
  function PlaceFor(t: Tree, s: Slab, addr: int, len: int, fixed: bool, l: Layout, security: Errno): Placed64
    requires Consistent(t, s) && GoodLayout(l) && 0 <= addr < WORD && 0 < len < WORD
  {
    if len > TASK_SIZE || len > TASK_SIZE - l.minAddr then Refused(ENOMEM)
    else
      var hint := PageAlign(addr);
      var area := if fixed then Some(addr)
                  else if addr != 0 && HintFits(t, s, hint, len, l) then Some(hint)
                  else GapFor(t, s, len, l);
      if area.None? || area.value > TASK_SIZE - len then Refused(ENOMEM)
      else if !Aligned(area.value) then Refused(EINVAL)
      else if security.Success? then At(area.value) else Refused(security)
  }

  /** Any 64-bit address and length give an aligned range inside the user address space, free and clear of
      guard gaps unless the address was fixed, or an error; an error that nothing outside explains means an
      underflow or that nothing is suitable. */
  lemma PlaceForMeans(t: Tree, s: Slab, addr: int, len: int, fixed: bool, l: Layout, security: Errno)
    requires Consistent(t, s) && GoodLayout(l) && 0 <= addr < WORD && 0 < len < WORD
    ensures var r := PlaceFor(t, s, addr, len, fixed, l, security);
            && (r.At? ==> 0 <= r.addr && Aligned(r.addr) && r.addr + len <= TASK_SIZE)
            && (r.At? && fixed ==> r.addr == addr)
            && (r.At? && !fixed ==> Window(t, r.addr, len))
            && (r.At? && !fixed && AlignedLayout(l) && Aligned(len) ==> ClearAbove(t, s, r.addr + len, l.guard))
            && (len > TASK_SIZE ==> r == Refused(ENOMEM))
            && (r.Refused? ==> !r.err.Success?)
            && (fixed && security.Success? && Aligned(addr) && addr + len <= TASK_SIZE
                && l.minAddr + len <= TASK_SIZE ==>
                r.At?)
            && (r.Refused? && !fixed && security.Success? && AlignedLayout(l) && Aligned(len)
                && l.minAddr + len <= TASK_SIZE ==>
                  || Underflows(t, s, len, l)
                  || forall h :: !Suitable(t, s, h, len, LastResort(l), TASK_SIZE, l.guard))
            && (!fixed && addr == 0 && len <= TASK_SIZE && Underflows(t, s, len, l) ==> r == Refused(ENOMEM))
  {
    hide Consistent, Window, HintFits, ClearAbove, Suitable, Underflows, LastResort, GapFor;
    if len <= TASK_SIZE {
      GapForMeans(t, s, len, l);
    }
    var hint := PageAlign(addr);
    HintExact(t, s, hint, len, l);
    SuitableMeans(t, s, hint, len, l);
  }

  lemma SuitableMeans(t: Tree, s: Slab, addr: int, len: int, l: Layout)
    requires Consistent(t, s)
    ensures Suitable(t, s, addr, len, l.minAddr, TASK_SIZE, l.guard) ==>
              addr + len <= TASK_SIZE && Window(t, addr, len) && ClearAbove(t, s, addr + len, l.guard)
  {
  }

  /** `get_unmapped_area`. */
  method GetUnmappedArea(t: Tree, s: Slab, addr: int, len: int, fixed: bool, l: Layout, security: Errno)
    returns (r: Placed64)
    requires Consistent(t, s) && GoodLayout(l) && 0 <= addr < WORD && 0 < len < WORD
    ensures r == PlaceFor(t, s, addr, len, fixed, l, security)
  {
    hide Consistent, HintFits, GapFor;
    if len > TASK_SIZE {
      return Refused(ENOMEM);
    }
    if len > TASK_SIZE - l.minAddr {
      return Refused(ENOMEM);
    }
    var area := Some(addr);
    if !fixed {
      var hint := PageAlign(addr);
      if addr != 0 && HintFits(t, s, hint, len, l) {
        area := Some(hint);
      } else {
        area := SearchGap(t, s, len, l);
      }
    }
    if area.None? || area.value > TASK_SIZE - len {
      return Refused(ENOMEM);
    }
    if !Aligned(area.value) {
      return Refused(EINVAL);
    }
    r := if security.Success? then At(area.value) else Refused(security);
  }

  // ---------------------------------------------------------------- do_mmap

  /** The arguments of `do_mmap`, with the protection and mapping bits already turned into area flags. */
  datatype Args = Args(addr: int, len: int, pgoff: int, fixed: bool, noReplace: bool, flags: set<Flag>,
                       file: Option<FileId>)

  predicate GoodArgs(a: Args) {
    0 <= a.addr < WORD && 0 <= a.len < WORD && 0 <= a.pgoff < WORD && Account !in a.flags
  }

  /** `round_hint_to_min`. */
  function RoundHint(hint: int, minAddr: int): int
    requires 0 <= hint && 0 <= minAddr
  {
    var h := hint - hint % 4096;
    if h != 0 && h < minAddr then PageAlign(minAddr) else h
  }

  /** The request `do_mmap` passes down for the chosen address. */
  function Wanted(a: Args, addr: int, len: int): Vma {
    var pgoff := if a.file.Some? then a.pgoff else if Shared in a.flags then 0 else addr / 4096;
    Vma(addr, addr + len, pgoff, a.flags, a.file, None, None, None, false, None, [], false)
  }

  datatype Mapped = Mapped(addr: int) | Failed(err: Errno)

  /** What the outside world decides during `do_mmap`: the security hook, the permission checks and
      everything `mmap_region` depends on. */
  datatype Verdicts = Verdicts(security: Errno, permission: Errno, region: MapOutcomes)

  /** There is a place for the request: the fixed address is usable, or the search cannot miss. */
  ghost predicate Placeable(t: Tree, s: Slab, a: Args, l: Layout)
    requires Consistent(t, s) && 0 <= a.len
  {
    var len := RoundUp(a.len);
    && l.minAddr + len <= TASK_SIZE
    && if a.fixed || a.noReplace then
         && Aligned(a.addr) && a.addr + len <= TASK_SIZE
         && (a.noReplace ==> Window(t, a.addr, len))
       else
         && AlignedLayout(l) && !Underflows(t, s, len, l)
         && exists h :: Suitable(t, s, h, len, LastResort(l), TASK_SIZE, l.guard)
  }

  function ChosenFor(t: Tree, s: Slab, a: Args, len: int, l: Layout, security: Errno): Placed64
    requires Consistent(t, s) && GoodArgs(a) && GoodLayout(l) && 0 < len < WORD
  {
    var fixed := a.fixed || a.noReplace;
    var r := PlaceFor(t, s, if fixed then a.addr else RoundHint(a.addr, l.minAddr), len, fixed, l, security);
    if r.At? && a.noReplace && First(t, r.addr, r.addr + len).Some? then Refused(EEXIST) else r
  }

  /** MAP_FIXED keeps the address, MAP_FIXED_NOREPLACE refuses a range in use, everything else gets free space;
      a place that exists is found. */
  lemma ChosenMeans(t: Tree, s: Slab, a: Args, len: int, l: Layout, security: Errno)
    requires Consistent(t, s) && GoodArgs(a) && GoodLayout(l) && 0 < len < WORD && len == RoundUp(a.len)
    ensures var r := ChosenFor(t, s, a, len, l, security);
            && (r.At? ==> 0 <= r.addr && Aligned(r.addr) && r.addr + len <= TASK_SIZE)
            && (r.At? && (a.fixed || a.noReplace) ==> r.addr == a.addr)
            && (r.At? && (!a.fixed || a.noReplace) ==>
                  && (forall x | r.addr <= x < r.addr + len :: x !in Seen(t, s))
                  && Without(Seen(t, s), r.addr, r.addr + len) == Seen(t, s))
            && (r.At? && !a.fixed && !a.noReplace && AlignedLayout(l) ==> ClearAbove(t, s, r.addr + len, l.guard))
            && (len > TASK_SIZE ==> r.Refused?)
            && (r.Refused? ==> !r.err.Success?)
            && (Placeable(t, s, a, l) && security.Success? ==> r.At?)
  {
    hide Consistent, Seen, Without, Window, ClearAbove, Suitable, Underflows, LastResort, RoundUp, PlaceFor;
    AlignedLength(a.len);
    var fixed := a.fixed || a.noReplace;
    var addr := if fixed then a.addr else RoundHint(a.addr, l.minAddr);
    PlaceForMeans(t, s, addr, len, fixed, l, security);
    var r := PlaceFor(t, s, addr, len, fixed, l, security);
    if r.At? {
      WindowUnseen(t, s, r.addr, len);
      WindowFirst(t, r.addr, len);
    }
  }

  /** Without MAP_FIXED a hint whose range is suitable is kept, rounded down to a page or up to the lowest address
      allowed; otherwise the search decides. */
  lemma HintKept(t: Tree, s: Slab, a: Args, len: int, l: Layout, security: Errno)
    requires Consistent(t, s) && GoodArgs(a) && GoodLayout(l) && 0 < len && l.minAddr + len <= TASK_SIZE
    requires !a.fixed && !a.noReplace && security.Success?
    ensures var down := a.addr - a.addr % 4096;
            var hint := if 0 < down < l.minAddr then RoundUp(l.minAddr) else down;
            var r, gap := ChosenFor(t, s, a, len, l, security), GapFor(t, s, len, l);
            if hint != 0 && Suitable(t, s, hint, len, l.minAddr, TASK_SIZE, l.guard) then r == At(hint)
            else
              && (r.At? ==> gap == Some(r.addr))
              && (gap.Some? && gap.value + len <= TASK_SIZE && Aligned(gap.value) ==> r == At(gap.value))
  {
    hide Consistent, HintFits, GapFor, Suitable;
    RoundedHint(a.addr, l.minAddr);
    HintExact(t, s, RoundHint(a.addr, l.minAddr), len, l);
    SuitableMeans(t, s, RoundHint(a.addr, l.minAddr), len, l);
  }

  lemma RoundedHint(addr: int, minAddr: int)
    requires 0 <= addr < WORD && 0 <= minAddr <= TASK_SIZE
    ensures var down := addr - addr % 4096;
            var hint := RoundHint(addr, minAddr);
            && hint == (if 0 < down < minAddr then RoundUp(minAddr) else down)
            && 0 <= hint < WORD && Aligned(hint) && PageAlign(hint) == hint
  {
  }

  /** A fixed address that may not be replaced is refused with EEXIST if and only if it could be used but for
      something mapped there. */
  lemma NoReplaceExact(t: Tree, s: Slab, a: Args, len: int, l: Layout, security: Errno)
    requires Consistent(t, s) && GoodArgs(a) && GoodLayout(l) && 0 < len < WORD && a.noReplace && security != EEXIST
    ensures ChosenFor(t, s, a, len, l, security) == Refused(EEXIST) <==>
              && security.Success? && Aligned(a.addr) && a.addr + len <= TASK_SIZE && l.minAddr + len <= TASK_SIZE
              && exists x | a.addr <= x < a.addr + len :: x in Seen(t, s)
  {
    hide GapFor, HintFits;
    WindowFirst(t, a.addr, len);
    if First(t, a.addr, a.addr + len).Some? {
      var x := First(t, a.addr, a.addr + len).value;
      assert x in Seen(t, s);
    }
  }

  /** The part of `do_mmap` that settles the address. */
  method ChoosePlace(t: Tree, s: Slab, a: Args, len: int, l: Layout, security: Errno) returns (r: Placed64)
    requires Consistent(t, s) && GoodArgs(a) && GoodLayout(l) && 0 < len < WORD
    ensures r == ChosenFor(t, s, a, len, l, security)
  {
    hide Consistent, PlaceFor;
    var fixed := a.fixed || a.noReplace;
    var addr := if fixed then a.addr else RoundHint(a.addr, l.minAddr);
    r := GetUnmappedArea(t, s, addr, len, fixed, l, security);
    if r.Refused? {
      return;
    }
    if a.noReplace && First(t, r.addr, r.addr + len).Some? {
      return Refused(EEXIST);
    }
  }

  lemma WindowFirst(t: Tree, addr: int, len: int)
    ensures Window(t, addr, len) ==> First(t, addr, addr + len).None?
  {
  }

  lemma AlignedLength(len: nat)
    ensures Aligned(RoundUp(len))
  {
  }

  lemma LengthFacts(len: int)
    requires 0 < len < WORD && PageAlign(len) != 0
    ensures PageAlign(len) == RoundUp(len) && 0 < RoundUp(len) < WORD
  {
  }

  /** How `do_mmap` ends: refused before it reaches `mmap_region`, or at an address as `mmap_region` ends. */
  datatype MmapEnd = Refuses(err: Errno) | Reaches(addr: int, region: RegionEnd)

  ghost function MmapEnds(t: Tree, s: Slab, totalVm: int, mapCount: int, a: Args, l: Layout, rlimitAs: int,
                          maxMapCount: int, v: Verdicts): MmapEnd
    requires Consistent(t, s) && GoodArgs(a) && GoodLayout(l)
  {
    var len := PageAlign(a.len);
    if a.len == 0 then Refuses(EINVAL)
    else if len == 0 then Refuses(ENOMEM)
    else if WORD <= a.pgoff + len / 4096 then Refuses(EOVERFLOW)
    else if maxMapCount < mapCount then Refuses(ENOMEM)
    else
      var area := ChosenFor(t, s, a, len, l, v.security);
      if area.Refused? then Refuses(area.err)
      else if !v.permission.Success? then Refuses(v.permission)
      else Reaches(area.addr, RegionEnds(t, s, totalVm, mapCount, Wanted(a, area.addr, len), rlimitAs, maxMapCount,
                                         v.region))
  }

  /** The ending shows in the result and in the view. */
  ghost predicate MmapDone(e: MmapEnd, a: Args, before: View, r: Mapped, mapped: Option<FileId>, after: View)
    requires GoodArgs(a)
  {
    match e
    case Refuses(err) => r == Failed(err) && after == before
    case Reaches(addr, region) =>
      && r == (match region
               case Untouched(err) => Failed(err)
               case Cleared(err) => Failed(err)
               case InPlace(_) => Mapped(addr))
      && RegionDone(region, Wanted(a, addr, PageAlign(a.len)), before, if r.Mapped? then Success
                    else r.err, mapped, after)
  }

  /** One ending leaves one result and one view. */
  lemma MmapDoneUnique(e: MmapEnd, a: Args, before: View, r: Mapped, mapped: Option<FileId>, after: View,
                       r': Mapped, mapped': Option<FileId>, after': View)
    requires GoodArgs(a) && MmapDone(e, a, before, r, mapped, after) && MmapDone(e, a, before, r', mapped', after')
    ensures r' == r && after' == after
  {
    hide Override, Without, Wanted, Placed;
  }

  /** The areas after `do_mmap`. */
  ghost function MmapAfter(x: Space, totalVm: int, mapCount: int, a: Args, l: Layout, rlimitAs: int, maxMapCount: int,
                           v: Verdicts): Space
    requires Consistent(x.tree, x.slab) && GoodArgs(a) && GoodLayout(l)
  {
    var e := MmapEnds(x.tree, x.slab, totalVm, mapCount, a, l, rlimitAs, maxMapCount, v);
    if e.Refuses? then x
    else RegionAfter(x, totalVm, mapCount, Wanted(a, e.addr, PageAlign(a.len)), rlimitAs, maxMapCount, v.region)
  }

  /** `do_mmap`. */
  method DoMmap(mm: Mm, commit: Commit, a: Args, l: Layout, rlimitAs: int, maxMapCount: int, v: Verdicts)
    returns (r: Mapped, ghost mapped: Option<FileId>)
    requires mm.Valid() && GoodArgs(a) && GoodLayout(l)
    modifies mm`tree, mm`slab, mm`nextId, mm`mapCount, mm`totalVm, mm`lockedVm, commit
    ensures mm.Valid()
    ensures MmapDone(old(MmapEnds(mm.tree, mm.slab, mm.totalVm, mm.mapCount, a, l, rlimitAs, maxMapCount, v)),
                     a, old(mm.Sees()), r, mapped, mm.Sees())
    ensures r.Mapped? ==> mm.totalVm <= rlimitAs / 4096
    ensures r.Mapped? ==> AllDirty(mm.tree, mm.slab, r.addr, r.addr + RoundUp(a.len))
    ensures ToBytes(commit.pages) - mm.Charge() == old(ToBytes(commit.pages) - mm.Charge())
    ensures mm.Now() == old(MmapAfter(mm.Now(), mm.totalVm, mm.mapCount, a, l, rlimitAs, maxMapCount, v))
  {
    hide Consistent, Seen, Override, Without, Bytes, BytesWith, Window, Free, ClearAbove, AlignedLayout;
    hide ChosenFor, RegionEnds, Placeable, PageAlign, RoundUp, RegionAfter, AllDirty;
    mapped := None;
    if a.len == 0 {
      return Failed(EINVAL), mapped;
    }
    var len := PageAlign(a.len);
    if len == 0 {
      return Failed(ENOMEM), mapped;
    }
    LengthFacts(a.len);
    NoWrap(a.pgoff, len / 4096);
    if Add64(a.pgoff, len / 4096) < a.pgoff {
      return Failed(EOVERFLOW), mapped;
    }
    if mm.mapCount > maxMapCount {
      return Failed(ENOMEM), mapped;
    }
    ChosenMeans(mm.tree, mm.slab, a, len, l, v.security);
    var area := ChoosePlace(mm.tree, mm.slab, a, len, l, v.security);
    if area.Refused? {
      return Failed(area.err), mapped;
    }
    var addr := area.addr;
    if !v.permission.Success? {
      return Failed(v.permission), mapped;
    }
    var want := Wanted(a, addr, len);
    AlignedLength(a.len);
    PlainWanted(a, addr, len);
    var err;
    err, mapped := MmapRegion(mm, commit, want, rlimitAs, maxMapCount, v.region);
    r := if err.Success? then Mapped(addr) else Failed(err);
    EndsInError(old(mm.tree), old(mm.slab), old(mm.totalVm), old(mm.mapCount), want, rlimitAs, maxMapCount, v.region);
  }

  lemma PlainWanted(a: Args, addr: int, len: int)
    requires GoodArgs(a) && 0 <= addr && 0 < len && addr + len <= TASK_SIZE && Aligned(addr) && Aligned(len)
    ensures PlainRequest(Wanted(a, addr, len)) && Account !in Wanted(a, addr, len).flags
  {
  }

  /** The errors of `mmap_region` are errors. */
  lemma EndsInError(t: Tree, s: Slab, totalVm: int, mapCount: int, want: Vma, rlimitAs: int, maxMapCount: int,
                    o: MapOutcomes)
    ensures var e := RegionEnds(t, s, totalVm, mapCount, want, rlimitAs, maxMapCount, o);
            (e.Untouched? || e.Cleared?) ==> !e.err.Success?
  {
    hide RoomIn, Expands;
  }

  /** What an ending says: a mapping lies page-aligned inside the user address space, at the fixed address if
      there is one, over nothing else unless MAP_FIXED asked for that, and clear of guard gaps if the
      search chose; without MAP_FIXED a failure changes nothing. */
  lemma MmapEndsMean(t: Tree, s: Slab, totalVm: int, mapCount: int, a: Args, l: Layout, rlimitAs: int, maxMapCount: int,
                     v: Verdicts)
    requires Consistent(t, s) && GoodArgs(a) && GoodLayout(l)
    ensures var e := MmapEnds(t, s, totalVm, mapCount, a, l, rlimitAs, maxMapCount, v);
            e.Reaches? ==>
              var len := RoundUp(a.len);
              && 0 < a.len && PageAlign(a.len) == len <= TASK_SIZE
              && 0 <= e.addr && Aligned(e.addr) && e.addr + len <= TASK_SIZE
              && (a.fixed || a.noReplace ==> e.addr == a.addr)
              && (!a.fixed || a.noReplace ==> Without(Seen(t, s), e.addr, e.addr + len) == Seen(t, s))
              && (!a.fixed && !a.noReplace && AlignedLayout(l) ==> ClearAbove(t, s, e.addr + len, l.guard))
  {
    hide Consistent, Seen, Without, Window, ClearAbove, AlignedLayout, ChosenFor, RegionEnds, PageAlign, RoundUp;
    if 0 < a.len && PageAlign(a.len) != 0 {
      LengthFacts(a.len);
      ChosenMeans(t, s, a, PageAlign(a.len), l, v.security);
    }
  }

  /** What a mapping shows, address by address: the file and the offset the caller asked for, in shared anonymous
      memory the offset from its start, in private anonymous memory the address; the flags asked for, charged if
      the memory is private, writable and reserved, and without locks if it is special.  Nothing else changes. */
  lemma MmapShows(t: Tree, s: Slab, totalVm: int, mapCount: int, a: Args, l: Layout, rlimitAs: int, maxMapCount: int,
                  v: Verdicts, r: Mapped, mapped: Option<FileId>, after: View)
    requires Consistent(t, s) && GoodArgs(a) && GoodLayout(l) && r.Mapped?
    requires MmapDone(MmapEnds(t, s, totalVm, mapCount, a, l, rlimitAs, maxMapCount, v), a, Seen(t, s), r, mapped,
                      after)
    ensures var len, anonymous, shared := RoundUp(a.len), a.file.None?, Shared in a.flags;
            && (forall x | r.addr <= x < r.addr + len :: x in after)
            && (forall x | r.addr <= x < r.addr + len ::
                  after[x].offset == if !anonymous then a.pgoff * 4096 + (x - r.addr)
                                     else if shared then x - r.addr else x)
            && (forall x | r.addr <= x < r.addr + len ::
                  after[x].file == a.file || (anonymous && shared && after[x].file == Some(v.region.shmemFile)))
            && (forall x | r.addr <= x < r.addr + len :: after[x].flags == ShownFlags(a.flags))
            && (forall x | r.addr <= x < r.addr + len ::
                  after[x].policy.None? && after[x].uffd.None? && after[x].name.None?)
            && (forall x | x < r.addr || r.addr + len <= x :: Look(after, x) == Look(Seen(t, s), x))
  {
    hide Consistent, ChosenFor, RegionEnds, AlignedLayout, ClearAbove, PageAlign, RoundUp, FinalFlags, ChargedFlags;
    var e := MmapEnds(t, s, totalVm, mapCount, a, l, rlimitAs, maxMapCount, v);
    MmapEndsMean(t, s, totalVm, mapCount, a, l, rlimitAs, maxMapCount, v);
    var want := Wanted(a, r.addr, PageAlign(a.len));
    RegionFile(t, s, totalVm, mapCount, want, rlimitAs, maxMapCount, v.region);
    FlagsShown(a.flags);
    assert after == Override(Seen(t, s), Placed(want, e.region.file));
  }

  /** The flags a mapping shows for the flags asked for. */
  function ShownFlags(flags: set<Flag>): set<Flag> {
    var special := Io in flags || DontExpand in flags || PfnMap in flags || MixedMap in flags;
    (if Locked in flags && special then flags - {Locked, LockOnFault, SoftDirty} else flags - {SoftDirty})
    + if Write in flags && Shared !in flags && NoReserve !in flags then {Account} else {}
  }

  lemma FlagsShown(flags: set<Flag>)
    ensures FinalFlags(ChargedFlags(flags)) - {SoftDirty} == ShownFlags(flags)
  {
    var charged := ChargedFlags(flags);
    assert IsSpecial(charged) <==> Io in flags || DontExpand in flags || PfnMap in flags || MixedMap in flags by {
      assert forall f | f in charged * SPECIAL :: f in flags && f in {Io, DontExpand, PfnMap, MixedMap};
      assert forall f | f in flags && f in {Io, DontExpand, PfnMap, MixedMap} :: f in charged * SPECIAL;
    }
  }

  /** The file behind a mapping is the one asked for, or the one shmem makes for shared anonymous memory. */
  lemma RegionFile(t: Tree, s: Slab, totalVm: int, mapCount: int, want: Vma, rlimitAs: int, maxMapCount: int,
                   o: MapOutcomes)
    ensures var e := RegionEnds(t, s, totalVm, mapCount, want, rlimitAs, maxMapCount, o);
            e.InPlace? ==>
              e.file == want.file || (want.file.None? && Shared in want.flags && e.file == Some(o.shmemFile))
  {
    hide RoomIn, Expands;
  }

  /** Shared anonymous memory is never joined to an area beside it, so it gets its file from shmem; and whatever is
      mapped, all shared memory keeps having a file. */
  lemma SharedBacked(t: Tree, s: Slab, totalVm: int, mapCount: int, a: Args, l: Layout, rlimitAs: int, maxMapCount: int,
                     v: Verdicts, r: Mapped, mapped: Option<FileId>, after: View)
    requires Consistent(t, s) && GoodArgs(a) && GoodLayout(l) && r.Mapped? && Backed(Seen(t, s))
    requires MmapDone(MmapEnds(t, s, totalVm, mapCount, a, l, rlimitAs, maxMapCount, v), a, Seen(t, s), r, mapped,
                      after)
    ensures a.file.None? && Shared in a.flags ==>
              forall x | r.addr <= x < r.addr + RoundUp(a.len) ::
                x in after && after[x].file == Some(v.region.shmemFile)
    ensures Backed(after)
  {
    hide Consistent, Seen, Override, RegionEnds, RoundUp;
    MmapShows(t, s, totalVm, mapCount, a, l, rlimitAs, maxMapCount, v, r, mapped, after);
    var want := Wanted(a, r.addr, PageAlign(a.len));
    if a.file.None? && Shared in a.flags {
      SharedFile(t, s, totalVm, mapCount, want, rlimitAs, maxMapCount, v.region);
    }
    forall x | x in after && !(r.addr <= x < r.addr + RoundUp(a.len))
      ensures x in Seen(t, s) && after[x] == Seen(t, s)[x]
    {
      assert Look(after, x) == Look(Seen(t, s), x);
    }
  }

  /** The errors that come before a place is looked for, in the order of the source: an empty request, a length that
      rounds to zero, a file offset that wraps, too many areas.  After them only the place and the permissions can
      refuse. */
  lemma MmapRefusals(t: Tree, s: Slab, totalVm: int, mapCount: int, a: Args, l: Layout, rlimitAs: int, maxMapCount: int,
                     v: Verdicts)
    requires Consistent(t, s) && GoodArgs(a) && GoodLayout(l)
    ensures var e, len := MmapEnds(t, s, totalVm, mapCount, a, l, rlimitAs, maxMapCount, v), RoundUp(a.len);
            && (a.len == 0 ==> e == Refuses(EINVAL))
            && (WORD - 4096 < a.len ==> e == Refuses(ENOMEM))
            && (0 < a.len <= WORD - 4096 ==>
                  && (WORD <= a.pgoff + len / 4096 ==> e == Refuses(EOVERFLOW))
                  && (a.pgoff + len / 4096 < WORD && maxMapCount < mapCount ==> e == Refuses(ENOMEM))
                  && (a.pgoff + len / 4096 < WORD && mapCount <= maxMapCount ==>
                        var place := ChosenFor(t, s, a, len, l, v.security);
                        && (place.Refused? ==> e == Refuses(place.err))
                        && (place.At? && !v.permission.Success? ==> e == Refuses(v.permission))
                        && (place.At? && v.permission.Success? ==> e.Reaches? && e.addr == place.addr)))
  {
    hide Consistent, ChosenFor, RegionEnds;
    LengthRounds(a.len);
  }

  lemma LengthRounds(len: int)
    requires 0 <= len < WORD
    ensures PageAlign(len) == if WORD - 4096 < len then 0 else RoundUp(len)
    ensures 0 < len <= WORD - 4096 ==> 0 < RoundUp(len) < WORD
  {
  }

  /** The request is mapped whenever there is a place for it and nothing outside refuses. */
  lemma MmapWorks(t: Tree, s: Slab, totalVm: int, mapCount: int, a: Args, l: Layout, rlimitAs: int, maxMapCount: int,
                  v: Verdicts)
    requires Consistent(t, s) && GoodArgs(a) && GoodLayout(l)
    requires 0 < a.len <= TASK_SIZE && a.pgoff + RoundUp(a.len) / 4096 < WORD && Placeable(t, s, a, l)
    requires v.security.Success? && v.permission.Success? && v.region.AllWell() && mapCount < maxMapCount
    requires totalVm + RoundUp(a.len) / 4096 <= rlimitAs / 4096
    ensures var e := MmapEnds(t, s, totalVm, mapCount, a, l, rlimitAs, maxMapCount, v);
            e.Reaches? && e.region.InPlace?
  {
    hide Consistent, ChosenFor, RegionEnds, Placeable, AlignedLayout;
    var len := PageAlign(a.len);
    assert len == RoundUp(a.len);
    ChosenMeans(t, s, a, len, l, v.security);
    var want := Wanted(a, ChosenFor(t, s, a, len, l, v.security).addr, len);
    RegionWorks(t, s, totalVm, mapCount, want, rlimitAs, maxMapCount, v.region);
  }

  /** A free window is invisible, and unmapping it changes nothing. */
  lemma WindowUnseen(t: Tree, s: Slab, addr: int, len: int)
    ensures Window(t, addr, len) || First(t, addr, addr + len).None? ==>
              && (forall x | addr <= x < addr + len :: x !in Seen(t, s))
              && Without(Seen(t, s), addr, addr + len) == Seen(t, s)
  {
  }
}
