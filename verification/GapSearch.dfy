/** The searches for a free range (`unmapped_area`, `unmapped_area_topdown`), on machines where no
    area grows upwards. */
module GapSearch {
  import opened Pages
  import opened Vmas
  import opened Trees
  import opened Reshaping

  /** `struct vm_unmapped_area_info`; `align` is `align_mask + 1`, a power of two, so that masking
      with `align_mask` is the remainder modulo `align`. */
  datatype Info = Info(len: int, low: int, high: int, align: int, offset: int)

  predicate WellPosed(i: Info) {
    0 < i.len < WORD && 0 <= i.low && 0 <= i.high <= WORD && 0 < i.align <= WORD
  }

  // ---------------------------------------------------------------- the tree's gap searches

  ghost predicate Window(t: Tree, h: int, len: int) {
    Free(t, h, h + len)
  }

  /** `mas_empty_area`: the lowest free window of the given length inside [lo, hi). */
  function LowestGap(t: Tree, lo: int, hi: int, len: int): (r: Option<int>)
    ensures r.Some? ==> lo <= r.value && r.value + len <= hi && Window(t, r.value, len)
    ensures forall h | lo <= h && h + len <= hi && Window(t, h, len) :: r.Some? && r.value <= h
    decreases hi - lo - len
  {
    if hi < lo + len then None
    else if First(t, lo, lo + len).None? then Some(lo)
    else LowestGap(t, lo + 1, hi, len)
  }

  /** `mas_empty_area_rev`: the highest free window of the given length inside [lo, hi). */
  function HighestGap(t: Tree, lo: int, hi: int, len: int): (r: Option<int>)
    ensures r.Some? ==> lo <= r.value && r.value + len <= hi && Window(t, r.value, len)
    ensures forall h | lo <= h && h + len <= hi && Window(t, h, len) :: r.Some? && h <= r.value
    decreases hi - lo - len
  {
    if hi < lo + len then None
    else if First(t, hi - len, hi).None? then Some(hi - len)
    else HighestGap(t, lo, hi - 1, len)
  }

  // ---------------------------------------------------------------- guard gaps

  /** Areas that keep a guard gap below them (VM_STARTGAP_FLAGS). */
  predicate IsStack(v: Vma) {
    GrowsDown in v.flags
  }

  /** `vm_start_gap`: the start of an area with its guard gap, clamped at address zero. */
  function StartGap(v: Vma, guard: int): int {
    if !IsStack(v) then v.start else if v.start < guard then 0 else v.start - guard
  }

  /** The first area at or above `a`. */
  function AreaAbove(t: Tree, s: Slab, a: int): (r: Ref)
    requires Consistent(t, s)
    ensures r.To? ==> r.id in s
  {
    var at := First(t, a, TASK_SIZE);
    if at.Some? then
      assert Owner(t, at.value) in s;
      To(Owner(t, at.value))
    else Null
  }

  /** The range ending at `end` keeps clear of the guard gap of the next area. */
  ghost predicate ClearAbove(t: Tree, s: Slab, end: int, guard: int)
    requires Consistent(t, s)
  {
    var n := AreaAbove(t, s, end);
    n.To? ==> end <= StartGap(s[n.id], guard)
  }

  /** A range the search may return, alignment aside. */
  ghost predicate Suitable(t: Tree, s: Slab, h: int, len: int, low: int, high: int, guard: int)
    requires Consistent(t, s)
  {
    low <= h && h + len <= high && Window(t, h, len) && ClearAbove(t, s, h + len, guard)
  }

  /** Keeping clear is keeping the distance to the area next above: none to an ordinary area, the guard gap to a
      stack. */
  lemma ClearAboveExact(t: Tree, s: Slab, end: int, guard: int)
    requires Consistent(t, s) && 0 <= guard && 0 < end
    ensures ClearAbove(t, s, end, guard) <==>
              forall id | id in s && end < s[id].end && Free(t, end, s[id].start) ::
                end + (if GrowsDown in s[id].flags then guard else 0) <= s[id].start
  {
    var at := First(t, end, TASK_SIZE);
    if at.Some? {
      var id := Owner(t, at.value);
      assert Holds(s[id], at.value) && WellFormed(s[id]);
    }
    forall id | id in s && end < s[id].end && Free(t, end, s[id].start)
      ensures at.Some? && Owner(t, at.value) == id
    {
      assert WellFormed(s[id]);
      assert Holds(s[id], Max(end, s[id].start));
    }
  }

  lemma AboveFacts(t: Tree, s: Slab, a: int)
    requires Consistent(t, s) && a - 1 !in t && 0 <= a
    ensures var n := AreaAbove(t, s, a);
            && (n.To? ==>
                WellFormed(s[n.id]) && a <= s[n.id].start && Free(t, a, s[n.id].start) && s[n.id].end <= TASK_SIZE)
            && (n.Null? ==> Free(t, a, TASK_SIZE))
  {
    var at := First(t, a, TASK_SIZE);
    if at.Some? {
      var id := Owner(t, at.value);
      assert Holds(s[id], at.value) && WellFormed(s[id]);
      assert !Holds(s[id], a - 1);
    }
  }

  // ---------------------------------------------------------------- bottom-up

  /** Any suitable range above a rejected one lies beyond the area that rejected it. */
  lemma SkipUp(t: Tree, s: Slab, g: int, len: int, h: int, low: int, high: int, guard: int)
    requires Consistent(t, s) && 0 <= low <= g && 0 < len
    requires Window(t, g, len) && g <= h && Suitable(t, s, h, len, low, high, guard)
    requires var n := AreaAbove(t, s, g + len);
             n.To? && StartGap(s[n.id], guard) < g + len
    ensures s[AreaAbove(t, s, g + len).id].end <= h
  {
    var n := AreaAbove(t, s, g + len).id;
    AboveFacts(t, s, g + len);
    assert h + len - 1 !in t;
    AboveFacts(t, s, h + len);
    assert Holds(s[n], s[n].start);
    var a := Max(h, s[n].start);
    assert Holds(s[n], a) ==> a in t;
  }

  /** A sum that does not come out smaller has not wrapped. */
  lemma NoWrap(x: int, y: int)
    requires 0 <= x < WORD && 0 <= y < WORD
    ensures Add64(x, y) < x <==> WORD <= x + y
    ensures x + y < WORD ==> Add64(x, y) == x + y
  {
  }

  /** `a` and `b` leave the same remainder modulo `m`. */
  ghost predicate SameResidue(a: int, b: int, m: int) {
    exists k :: Apart(a, b, m, k)
  }

  predicate Apart(a: int, b: int, m: int, k: int) {
    a == b + k * m
  }

  /** The upper end of the search after `high_limit - 1` has been computed on 64 bits. */
  function Ceiling(high: int): int {
    if high == 0 then WORD else high
  }

  /** The address settled on inside the window at `g`, going up. */
  function RoundUpTo(g: int, info: Info): int
    requires 0 < info.align
  {
    g + (info.offset - g) % info.align
  }

  /** Must the search go on above the area above the window at `g`? */
  predicate BlockedUp(t: Tree, s: Slab, g: int, info: Info, guard: int)
    requires Consistent(t, s) && 0 < info.align
  {
    var length := info.len + info.align - 1;
    var tmp := AreaAbove(t, s, g + length);
    tmp.To? && IsStack(s[tmp.id]) && StartGap(s[tmp.id], guard) < RoundUpTo(g, info) + length - 1
  }

  /** The search of `unmapped_area` from the lower limit `low` on. */
  function SearchUp(t: Tree, s: Slab, info: Info, low: int, guard: int): (r: Option<int>)
    requires Consistent(t, s) && WellPosed(info) && 0 <= low
    decreases Ceiling(info.high) - low
  {
    var length := info.len + info.align - 1;
    var g := LowestGap(t, low, Ceiling(info.high), length);
    if g.None? then None
    else if BlockedUp(t, s, g.value, info, guard) then
      SameAbove(t, s, g.value, length, g.value + length);
      SearchUp(t, s, info, s[AreaAbove(t, s, g.value + length).id].end, guard)
    else Some(RoundUpTo(g.value, info))
  }

  /** One step of the search. */
  lemma UnfoldUp(t: Tree, s: Slab, info: Info, low: int, guard: int)
    requires Consistent(t, s) && WellPosed(info) && 0 <= low
    ensures var length := info.len + info.align - 1;
            var g := LowestGap(t, low, Ceiling(info.high), length);
            var r := SearchUp(t, s, info, low, guard);
            && (g.None? ==> r.None?)
            && (g.Some? && !BlockedUp(t, s, g.value, info, guard) ==> r == Some(RoundUpTo(g.value, info)))
            && (g.Some? && BlockedUp(t, s, g.value, info, guard) ==>
                  && AreaAbove(t, s, g.value + length).To?
                  && 0 <= s[AreaAbove(t, s, g.value + length).id].end
                  && r == SearchUp(t, s, info, s[AreaAbove(t, s, g.value + length).id].end, guard))
  {
    hide Consistent, Window, LowestGap, AreaAbove, StartGap, IsStack, RoundUpTo;
    var length := info.len + info.align - 1;
    var g := LowestGap(t, low, Ceiling(info.high), length);
    if g.Some? && BlockedUp(t, s, g.value, info, guard) {
      SameAbove(t, s, g.value, length, g.value + length);
    }
  }

  /** One pass of the search from a window at `g`: where it settles is free, aligned as asked and, if the
      search does not go on, clear of the next guard gap; if it does, no suitable range is skipped. */
  lemma StepUp(t: Tree, s: Slab, info: Info, low: int, g: int, guard: int)
    requires Consistent(t, s) && WellPosed(info) && 0 <= low <= g && Aligned(guard)
    requires Window(t, g, info.len + info.align - 1)
    ensures var length, gap := info.len + info.align - 1, RoundUpTo(g, info);
            && g <= gap && gap + info.len <= g + length && Window(t, gap, info.len)
            && SameResidue(gap, info.offset, info.align) && (info.align == 1 ==> gap == g)
            && (!BlockedUp(t, s, g, info, guard) && (info.align > 1 || Aligned(gap + info.len)) ==>
                  ClearAbove(t, s, gap + info.len, guard))
            && (BlockedUp(t, s, g, info, guard) ==>
                  var tmp := AreaAbove(t, s, g + length);
                  && g < s[tmp.id].end && Aligned(s[tmp.id].end)
                  && (info.align == 1 ==>
                        forall h | g <= h && Suitable(t, s, h, info.len, low, Ceiling(info.high), guard) ::
                            s[tmp.id].end <= h))
  {
    hide Consistent, Window, Suitable, ClearAbove, StartGap, AreaAbove, IsStack;
    var length, gap := info.len + info.align - 1, RoundUpTo(g, info);
    Residue(g, info.offset, info.align);
    Inside(t, g, length, gap, info.len);
    AboveWindow(t, s, g, length, gap, info.len, guard);
    var tmp := AreaAbove(t, s, g + length);
    if BlockedUp(t, s, g, info, guard) && info.align == 1 {
      forall h | g <= h && Suitable(t, s, h, info.len, low, Ceiling(info.high), guard)
        ensures s[tmp.id].end <= h
      {
        SkipUp(t, s, g, length, h, low, Ceiling(info.high), guard);
      }
    }
  }

  /** What the search returns is free, inside the limits, aligned as asked and clear of the next guard gap. */
  lemma {:induction false} SearchUpSound(t: Tree, s: Slab, info: Info, low: int, guard: int)
    requires Consistent(t, s) && WellPosed(info) && 0 <= low && Aligned(guard)
    ensures var r := SearchUp(t, s, info, low, guard);
            r.Some? ==>
              && low <= r.value && r.value + info.len <= Ceiling(info.high) && Window(t, r.value, info.len)
              && SameResidue(r.value, info.offset, info.align)
              && (Aligned(info.len) && Aligned(low) ==> ClearAbove(t, s, r.value + info.len, guard))
              && (info.align == 1 && Aligned(low) ==> Aligned(r.value))
    decreases Ceiling(info.high) - low
  {
    hide Consistent, Window, Suitable, ClearAbove, SameResidue, LowestGap, SearchUp, BlockedUp, RoundUpTo, AreaAbove;
    UnfoldUp(t, s, info, low, guard);
    var length := info.len + info.align - 1;
    var g := LowestGap(t, low, Ceiling(info.high), length);
    if g.Some? {
      StepUp(t, s, info, low, g.value, guard);
      if BlockedUp(t, s, g.value, info, guard) {
        SearchUpSound(t, s, info, s[AreaAbove(t, s, g.value + length).id].end, guard);
      } else if Aligned(low) {
        GapAligned(t, s, low, Ceiling(info.high), length);
      }
    }
  }

  /** Without alignment it is the lowest suitable range, and there is none only if none is suitable. */
  lemma {:induction false} SearchUpLowest(t: Tree, s: Slab, info: Info, low: int, guard: int, h: int)
    requires Consistent(t, s) && WellPosed(info) && 0 <= low && Aligned(guard) && info.align == 1
    requires Suitable(t, s, h, info.len, low, Ceiling(info.high), guard)
    ensures var r := SearchUp(t, s, info, low, guard);
            r.Some? && r.value <= h
    decreases Ceiling(info.high) - low
  {
    hide Consistent, Window, ClearAbove, LowestGap, SearchUp, BlockedUp, RoundUpTo, AreaAbove;
    UnfoldUp(t, s, info, low, guard);
    var g := LowestGap(t, low, Ceiling(info.high), info.len);
    StepUp(t, s, info, low, g.value, guard);
    if BlockedUp(t, s, g.value, info, guard) {
      SearchUpLowest(t, s, info, s[AreaAbove(t, s, g.value + info.len).id].end, guard, h);
    }
  }

  /** `unmapped_area`: the loop computes the search.  An upper limit of zero wraps and stands for no limit. */
  method UnmappedArea(t: Tree, s: Slab, info: Info, minAddr: int, guard: int) returns (r: Option<int>)
    requires Consistent(t, s) && WellPosed(info) && 0 <= minAddr && 0 <= guard && Aligned(guard)
    ensures r == if info.len + info.align - 1 < WORD
                 then SearchUp(t, s, info, Max(info.low, minAddr), guard) else None
    ensures r.Some? ==>
              && Max(info.low, minAddr) <= r.value && r.value + info.len <= Ceiling(info.high)
              && Window(t, r.value, info.len)
              && SameResidue(r.value, info.offset, info.align)
    ensures info.align == 1 ==>
              forall h | Suitable(t, s, h, info.len, Max(info.low, minAddr), Ceiling(info.high), guard) ::
                r.Some? && r.value <= h
  {
    hide Consistent, Window, Suitable, SameResidue, LowestGap, Add64, SearchUp, StartGap, IsStack, AreaAbove,
         ClearAbove;
    var length := Add64(info.len, info.align - 1);
    NoWrap(info.len, info.align - 1);
    if length < info.len {
      return None;
    }
    var low := Max(info.low, minAddr);
    ghost var all := low;
    SearchUpSound(t, s, info, all, guard);
    forall h | info.align == 1 && Suitable(t, s, h, info.len, all, Ceiling(info.high), guard)
      ensures SearchUp(t, s, info, all, guard).Some? && SearchUp(t, s, info, all, guard).value <= h
    {
      SearchUpLowest(t, s, info, all, guard, h);
    }
    while true
      invariant 0 <= low
      invariant SearchUp(t, s, info, low, guard) == SearchUp(t, s, info, all, guard)
      decreases Ceiling(info.high) - low
    {
      UnfoldUp(t, s, info, low, guard);
      var g := LowestGap(t, low, Ceiling(info.high), length);
      if g.None? {
        return None;
      }
      SameAbove(t, s, g.value, length, g.value + length);
      var gap := RoundUpTo(g.value, info);
      var tmp := AreaAbove(t, s, g.value + length);
      if tmp.To? && IsStack(s[tmp.id]) {
        if StartGap(s[tmp.id], guard) < gap + length - 1 {
          low := s[tmp.id].end;
          continue;
        }
      }
      // Without upward growth the area below the window ends at or below the window's start.
      return Some(gap);
    }
  }

  /** The area above a window is the area above every range inside it. */
  lemma SameAbove(t: Tree, s: Slab, g: int, length: int, end: int)
    requires Consistent(t, s) && Window(t, g, length) && 0 <= g < end <= g + length
    ensures var tmp := AreaAbove(t, s, g + length);
            && AreaAbove(t, s, end) == tmp
            && (tmp.To? ==>
                Aligned(s[tmp.id].start) && Aligned(s[tmp.id].end) && g + length <= s[tmp.id].start < s[tmp.id].end)
  {
    hide Consistent;
    AboveFacts(t, s, g + length);
    assert forall a | end <= a < g + length :: a !in t;
    FirstFromLater(t, end, g + length);
  }

  lemma FirstFromLater(t: Tree, a: int, b: int)
    requires a <= b && Free(t, a, b)
    ensures First(t, a, TASK_SIZE) == First(t, b, TASK_SIZE)
  {
  }

  /** What the guard gap of the area above allows for the window it allows for every range inside it. */
  lemma AboveWindow(t: Tree, s: Slab, g: int, length: int, gap: int, len: int, guard: int)
    requires Consistent(t, s) && Window(t, g, length) && 0 <= g <= gap && 0 < len && gap + len <= g + length
    ensures var tmp := AreaAbove(t, s, g + length);
            && AreaAbove(t, s, gap + len) == tmp
            && (tmp.To? ==> Aligned(s[tmp.id].end) && g + length <= s[tmp.id].start < s[tmp.id].end)
            && (tmp.To? && IsStack(s[tmp.id]) && StartGap(s[tmp.id], guard) < gap + len ==>
                !ClearAbove(t, s, gap + len, guard))
            && (tmp.To? && IsStack(s[tmp.id]) && gap + len <= StartGap(s[tmp.id], guard) ==>
                ClearAbove(t, s, gap + len, guard))
            && (tmp.To? && IsStack(s[tmp.id]) && Aligned(guard) ==> Aligned(StartGap(s[tmp.id], guard)))
            && (!(tmp.To? && IsStack(s[tmp.id])) ==> ClearAbove(t, s, gap + len, guard))
  {
    hide Consistent, Window, AreaAbove;
    SameAbove(t, s, g, length, gap + len);
  }

  /** The lowest window starts at the limit or at the end of an area. */
  lemma GapAligned(t: Tree, s: Slab, lo: int, hi: int, len: int)
    requires Consistent(t, s) && Aligned(lo) && 0 < len
    ensures var g := LowestGap(t, lo, hi, len);
            g.Some? ==> Aligned(g.value)
  {
    var g := LowestGap(t, lo, hi, len);
    if g.Some? && lo < g.value {
      assert !Window(t, g.value - 1, len);
      assert Window(t, g.value, len);
      var id := Owner(t, g.value - 1);
      assert WellFormed(s[id]);
      NeighbourEnds(t, s, g.value - 1);
    }
  }

  /** A range inside a free window is free. */
  lemma Inside(t: Tree, g: int, length: int, gap: int, len: int)
    requires Window(t, g, length)
    ensures g <= gap && gap + len <= g + length ==> Window(t, gap, len)
  {
  }

  /** Adding the remainder of the distance reaches the wanted residue. */
  lemma Residue(g: int, offset: int, m: int)
    requires 0 < m
    ensures 0 <= (offset - g) % m < m
    ensures SameResidue(g + (offset - g) % m, offset, m)
    ensures m == 1 ==> (offset - g) % m == 0
  {
    assert Apart(g + (offset - g) % m, offset, m, -((offset - g) / m));
  }

  // ---------------------------------------------------------------- top-down

  /** The nearest address at or below `gap` with the wanted residue. */
  function RoundDown(gap: int, info: Info): int
    requires 0 < info.align
  {
    gap - (gap - info.offset) % info.align
  }

  /** The address settled on inside the window at `g`. */
  function Settled(g: int, info: Info): int
    requires 0 < info.align
  {
    RoundDown(g + info.align - 1, info)
  }

  /** Must the search go on below the area above the window at `g`? */
  predicate Blocked(t: Tree, s: Slab, g: int, length: int, guard: int)
    requires Consistent(t, s)
  {
    var tmp := AreaAbove(t, s, g + length);
    tmp.To? && IsStack(s[tmp.id]) && StartGap(s[tmp.id], guard) <= g + length - 1
  }

  /** The search of `unmapped_area_topdown` from the upper limit `high` on. */
  function SearchDown(t: Tree, s: Slab, info: Info, low: int, high: int, guard: int): (r: Option<int>)
    requires Consistent(t, s) && WellPosed(info) && 0 <= low && 0 <= high <= WORD && 0 <= guard
    decreases high
  {
    var length := info.len + info.align - 1;
    var g := HighestGap(t, low, Ceiling(high), length);
    if g.None? then None
    else if Blocked(t, s, g.value, length, guard) then
      BlockedBelow(t, s, low, high, length, guard);
      SearchDown(t, s, info, low, StartGap(s[AreaAbove(t, s, g.value + length).id], guard), guard)
    else Some(Settled(g.value, info))
  }

  /** One step of the search. */
  lemma Unfold(t: Tree, s: Slab, info: Info, low: int, high: int, guard: int) returns (g: Option<int>, next: int)
    requires Consistent(t, s) && WellPosed(info) && 0 <= low && 0 <= high <= WORD && 0 <= guard
    ensures g == HighestGap(t, low, Ceiling(high), info.len + info.align - 1)
    ensures var r := SearchDown(t, s, info, low, high, guard);
            var length := info.len + info.align - 1;
            && (g.None? ==> r.None?)
            && (g.Some? && !Blocked(t, s, g.value, length, guard) ==> r == Some(Settled(g.value, info)))
            && (g.Some? && Blocked(t, s, g.value, length, guard) ==>
                  && AreaAbove(t, s, g.value + length).To? && IsStack(s[AreaAbove(t, s, g.value + length).id])
                  && 0 <= next < high && next == StartGap(s[AreaAbove(t, s, g.value + length).id], guard)
                  && r == SearchDown(t, s, info, low, next, guard))
  {
    hide Consistent, Window, HighestGap, AreaAbove, StartGap, IsStack, Settled;
    var length := info.len + info.align - 1;
    g, next := HighestGap(t, low, Ceiling(high), length), 0;
    if g.Some? && Blocked(t, s, g.value, length, guard) {
      BlockedBelow(t, s, low, high, length, guard);
      next := StartGap(s[AreaAbove(t, s, g.value + length).id], guard);
    }
  }

  /** A blocked window has its blocker below the current limit; a wrapped search is never blocked. */
  lemma BlockedBelow(t: Tree, s: Slab, low: int, high: int, length: int, guard: int)
    requires Consistent(t, s) && 0 <= low && 0 <= high <= WORD && 0 < length && 0 <= guard
    requires HighestGap(t, low, Ceiling(high), length).Some?
    requires Blocked(t, s, HighestGap(t, low, Ceiling(high), length).value, length, guard)
    ensures 0 <= StartGap(s[AreaAbove(t, s, HighestGap(t, low, Ceiling(high), length).value + length).id], guard) < high
  {
    var g := HighestGap(t, low, Ceiling(high), length).value;
    assert g + length - 1 !in t;
    AboveFacts(t, s, g + length);
    if high == 0 {
      TopFree(t, s, WORD - length, length);
    }
  }

  /** Nothing is mapped above TASK_SIZE. */
  lemma TopFree(t: Tree, s: Slab, h: int, len: int)
    requires Consistent(t, s)
    ensures TASK_SIZE <= h ==> Window(t, h, len)
  {
    forall a | a in t
      ensures a < TASK_SIZE
    {
      var id := Owner(t, a);
      assert Holds(s[id], a) && WellFormed(s[id]);
    }
  }

  /** Whatever the layout, the result is free, at or above the lower limit, aligned as asked and
      clear of the next guard gap. */
  lemma {:induction false} SearchDownSound(t: Tree, s: Slab, info: Info, low: int, high: int, guard: int)
    requires Consistent(t, s) && WellPosed(info) && 0 <= low && 0 <= high <= WORD && 0 <= guard
    ensures var r := SearchDown(t, s, info, low, high, guard);
            r.Some? ==>
              && low <= r.value && Window(t, r.value, info.len)
              && SameResidue(r.value, info.offset, info.align)
              && ClearAbove(t, s, r.value + info.len, guard)
    decreases high
  {
    hide Consistent, Window, ClearAbove, SameResidue, AreaAbove, StartGap, IsStack, SearchDown, Settled;
    var length := info.len + info.align - 1;
    var g, next := Unfold(t, s, info, low, high, guard);
    if g.Some? {
      if Blocked(t, s, g.value, length, guard) {
        SearchDownSound(t, s, info, low, next, guard);
      } else {
        SettledResidue(g.value, info);
        Inside(t, g.value, length, Settled(g.value, info), info.len);
        AboveWindow(t, s, g.value, length, Settled(g.value, info), info.len, guard);
      }
    }
  }

  lemma SettledResidue(g: int, info: Info)
    requires 0 < info.align
    ensures g <= Settled(g, info) <= g + info.align - 1
    ensures SameResidue(Settled(g, info), info.offset, info.align)
  {
    var gap := g + info.align - 1;
    assert Apart(Settled(g, info), info.offset, info.align, (gap - info.offset) / info.align);
  }

  /** No guard gap reaches down to address zero. */
  ghost predicate NoUnderflow(s: Slab, guard: int) {
    forall id | id in s && IsStack(s[id]) :: guard < s[id].start
  }

  /** No area lies in the guard gap of a stack. */
  ghost predicate Uncrowded(s: Slab, guard: int) {
    forall v, n | v in s && n in s && v != n && IsStack(s[v]) ::
      s[n].end <= StartGap(s[v], guard) || s[v].end <= s[n].start
  }

  /** With page-aligned limits and length and no further alignment, the result is page-aligned. */
  lemma {:induction false} SearchDownAligned(t: Tree, s: Slab, info: Info, low: int, high: int, guard: int)
    requires Consistent(t, s) && WellPosed(info) && 0 <= low && 0 <= high <= WORD && 0 <= guard
    requires info.align == 1 && Aligned(info.len) && Aligned(high) && Aligned(guard)
    ensures var r := SearchDown(t, s, info, low, high, guard);
            r.Some? ==> Aligned(r.value)
    decreases high
  {
    hide Consistent, Window, AreaAbove, SearchDown, Settled, StartGap, Blocked, HighestGap;
    var g, next := Unfold(t, s, info, low, high, guard);
    if g.Some? {
      assert Aligned(Ceiling(high));
      HighestAligned(t, s, low, Ceiling(high), info.len);
      SettledAlone(g.value, info);
      if Blocked(t, s, g.value, info.len, guard) {
        SameAbove(t, s, g.value, info.len, g.value + info.len);
        GapStartAligned(s[AreaAbove(t, s, g.value + info.len).id], guard);
        SearchDownAligned(t, s, info, low, next, guard);
      }
    }
  }

  lemma SettledAlone(g: int, info: Info)
    requires info.align == 1
    ensures Settled(g, info) == g
  {
  }

  lemma GapStartAligned(v: Vma, guard: int)
    requires Aligned(v.start) && Aligned(guard)
    ensures Aligned(StartGap(v, guard))
  {
  }

  /** The highest window ends at the limit or at the start of an area. */
  lemma HighestAligned(t: Tree, s: Slab, lo: int, hi: int, len: int)
    requires Consistent(t, s) && Aligned(hi) && Aligned(len) && 0 < len
    ensures var g := HighestGap(t, lo, hi, len);
            g.Some? ==> Aligned(g.value)
  {
    hide Consistent, HighestGap, Aligned;
    var g := HighestGap(t, lo, hi, len);
    if g.Some? {
      if g.value + len < hi {
        assert !Window(t, g.value + 1, len);
        assert Window(t, g.value, len);
        StartAligned(t, s, g.value + len);
      }
      AlignedMinus(g.value + len, len);
    }
  }

  lemma AlignedMinus(x: int, y: int)
    requires Aligned(x) && Aligned(y)
    ensures Aligned(x - y)
  {
  }

  lemma StartAligned(t: Tree, s: Slab, a: int)
    requires Consistent(t, s) && a in t && a - 1 !in t
    ensures Aligned(a)
  {
    NeighbourStarts(t, s, a);
    var id := Owner(t, a);
    assert WellFormed(s[id]);
  }

  // ---------------------------------------------------------------- when the highest range is found

  /** A free window inside the limits that the guard gap of the area above it rules out. */
  ghost predicate RuledOut(t: Tree, s: Slab, g: int, len: int, low: int, high: int, guard: int)
    requires Consistent(t, s)
  {
    low <= g && g + len <= high && Window(t, g, len) && Blocked(t, s, g, len, guard)
  }

  /** Where the search goes on after such a window. */
  ghost function Restart(t: Tree, s: Slab, g: int, len: int, guard: int): int
    requires Consistent(t, s)
  {
    var n := AreaAbove(t, s, g + len);
    if n.To? then StartGap(s[n.id], guard) else 0
  }

  /** A window above `h` is ruled out by a guard gap that reaches down into the range at `h`. */
  ghost predicate Trapped(t: Tree, s: Slab, h: int, len: int, low: int, high: int, guard: int)
    requires Consistent(t, s)
  {
    exists g :: h <= g && RuledOut(t, s, g, len, low, high, guard) && Restart(t, s, g, len, guard) < h + len
  }

  /** No stack lies in the guard gap of another. */
  ghost predicate StacksApart(s: Slab, guard: int) {
    forall v, n | v in s && n in s && v != n && IsStack(s[v]) && IsStack(s[n]) ::
      s[n].end <= StartGap(s[v], guard) || s[v].end <= s[n].start
  }

  /** With no alignment to honour, the search returns nothing lower than any suitable range that is
      not trapped. */
  lemma {:induction false} SearchDownFinds(t: Tree, s: Slab, info: Info, low: int, high: int, guard: int, h: int)
    requires Consistent(t, s) && WellPosed(info) && 0 <= low && 0 < high <= WORD && 0 <= guard
    requires info.align == 1
    requires Suitable(t, s, h, info.len, low, high, guard) && !Trapped(t, s, h, info.len, low, high, guard)
    ensures var r := SearchDown(t, s, info, low, high, guard);
            r.Some? && h <= r.value && r.value + info.len <= high
    decreases high
  {
    hide Consistent, Window, AreaAbove, SearchDown, ClearAbove, Blocked;
    var g, next := Unfold(t, s, info, low, high, guard);
    if Blocked(t, s, g.value, info.len, guard) {
      assert RuledOut(t, s, g.value, info.len, low, high, guard);
      MoreTraps(t, s, h, info.len, low, high, next, guard);
      SearchDownFinds(t, s, info, low, next, guard, h);
    }
  }

  /** A higher limit only adds traps. */
  lemma MoreTraps(t: Tree, s: Slab, h: int, len: int, low: int, high: int, next: int, guard: int)
    requires Consistent(t, s) && next <= high
    ensures Trapped(t, s, h, len, low, next, guard) ==> Trapped(t, s, h, len, low, high, guard)
  {
    if Trapped(t, s, h, len, low, next, guard) {
      var g :| h <= g && RuledOut(t, s, g, len, low, next, guard) && Restart(t, s, g, len, guard) < h + len;
      assert RuledOut(t, s, g, len, low, high, guard);
    }
  }

  /** Once the limit is below its end, a range is never returned; not even after the limit has wrapped. */
  lemma {:induction false} NeverAbove(t: Tree, s: Slab, info: Info, low: int, high: int, guard: int, h: int)
    requires Consistent(t, s) && WellPosed(info) && 0 <= low && 0 <= high <= WORD && 0 <= guard
    requires info.align == 1 && info.len <= TASK_SIZE && high < h + info.len && h < TASK_SIZE
    ensures SearchDown(t, s, info, low, high, guard) != Some(h)
    decreases high
  {
    hide Consistent, Window, AreaAbove, SearchDown, Blocked;
    var g, next := Unfold(t, s, info, low, high, guard);
    TopFree(t, s, WORD - info.len, info.len);
    if g.Some? && Blocked(t, s, g.value, info.len, guard) {
      NeverAbove(t, s, info, low, next, guard, h);
    }
  }

  /** A trapped range is not returned. */
  lemma {:induction false} TrappedMissed(t: Tree, s: Slab, info: Info, low: int, high: int, guard: int, h: int, g: int)
    requires Consistent(t, s) && WellPosed(info) && 0 <= low && 0 < high <= WORD && 0 <= guard
    requires info.align == 1 && info.len <= TASK_SIZE && StacksApart(s, guard)
    requires h <= g && RuledOut(t, s, g, info.len, low, high, guard) && Restart(t, s, g, info.len, guard) < h + info.len
    ensures SearchDown(t, s, info, low, high, guard) != Some(h)
    decreases high
  {
    hide Consistent, Window, AreaAbove, SearchDown, StacksApart, StartGap, IsStack;
    var len := info.len;
    var g', next := Unfold(t, s, info, low, high, guard);
    BlockersOrder(t, s, g, g'.value, len, low, high, guard);
    if Blocked(t, s, g'.value, len, guard) {
      if g + len <= next {
        TrappedMissed(t, s, info, low, next, guard, h, g);
      } else {
        NeverAbove(t, s, info, low, next, guard, h);
      }
    }
  }

  /** A higher window is ruled out by the same stack, or by one whose guard gap stays above the lower. */
  lemma BlockersOrder(t: Tree, s: Slab, g: int, g': int, len: int, low: int, high: int, guard: int)
    requires Consistent(t, s) && StacksApart(s, guard) && 0 <= low && 0 < len && g <= g'
    requires RuledOut(t, s, g, len, low, high, guard) && Window(t, g', len)
    ensures g < TASK_SIZE
    ensures Blocked(t, s, g', len, guard) ==>
              || Restart(t, s, g', len, guard) == Restart(t, s, g, len, guard)
              || g + len <= Restart(t, s, g', len, guard)
  {
    assert g + len - 1 !in t && g' + len - 1 !in t;
    AboveFacts(t, s, g + len);
    AboveFacts(t, s, g' + len);
    var v, v' := AreaAbove(t, s, g + len), AreaAbove(t, s, g' + len);
    if Blocked(t, s, g', len, guard) && v != v' {
      Disjoint(t, s, v.id, v'.id);
      assert Holds(s[v'.id], s[v'.id].start);
    }
  }

  /** Where no area lies in a guard gap, no suitable range is trapped. */
  lemma UncrowdedUntrapped(t: Tree, s: Slab, h: int, len: int, low: int, high: int, guard: int)
    requires Consistent(t, s) && Uncrowded(s, guard) && 0 <= low && 0 < len
    requires Suitable(t, s, h, len, low, high, guard)
    ensures !Trapped(t, s, h, len, low, high, guard)
  {
    hide Consistent, Uncrowded, Suitable, Window, AreaAbove, Blocked;
    if Trapped(t, s, h, len, low, high, guard) {
      var g :| h <= g && RuledOut(t, s, g, len, low, high, guard) && Restart(t, s, g, len, guard) < h + len;
      SkipDown(t, s, g, len, h, low, high, guard);
    }
  }

  lemma SkipDown(t: Tree, s: Slab, g: int, len: int, h: int, low: int, high: int, guard: int)
    requires Consistent(t, s) && Uncrowded(s, guard) && 0 <= low && 0 < len
    requires Window(t, g, len) && h <= g && Suitable(t, s, h, len, low, high, guard) && Blocked(t, s, g, len, guard)
    ensures AreaAbove(t, s, g + len).To? && h + len <= StartGap(s[AreaAbove(t, s, g + len).id], guard)
  {
    hide StartGap, IsStack;
    var v := AreaAbove(t, s, g + len).id;
    assert g + len - 1 !in t && h + len - 1 !in t;
    AboveFacts(t, s, g + len);
    AboveFacts(t, s, h + len);
    assert Holds(s[v], s[v].start);
    var n := AreaAbove(t, s, h + len);
    assert n.To?;
    if n.id != v {
      Disjoint(t, s, n.id, v);
    }
  }

  // ---------------------------------------------------------------- the limits the search goes through

  /** The upper limit after `k` retries from `high` on; it stays where there is nothing to retry. */
  ghost function LimitAfter(t: Tree, s: Slab, length: int, low: int, high: int, guard: int, k: nat): int
    requires Consistent(t, s)
    decreases k
  {
    if k == 0 || high <= 0 then high
    else
      var g := HighestGap(t, low, high, length);
      if g.Some? && Blocked(t, s, g.value, length, guard)
      then LimitAfter(t, s, length, low, Restart(t, s, g.value, length, guard), guard, k - 1)
      else high
  }

  /** Some retry lowers the limit below the end of the range at `h`. */
  ghost predicate CutOff(t: Tree, s: Slab, h: int, length: int, low: int, high: int, guard: int)
    requires Consistent(t, s)
  {
    exists k: nat :: LimitAfter(t, s, length, low, high, guard, k) < h + length
  }

  /** Some retry lowers the limit to zero. */
  ghost predicate HitsZero(t: Tree, s: Slab, length: int, low: int, high: int, guard: int)
    requires Consistent(t, s)
  {
    exists k: nat :: LimitAfter(t, s, length, low, high, guard, k) == 0
  }

  /** The search goes through these limits. */
  lemma {:induction false} LimitFollows(t: Tree, s: Slab, info: Info, low: int, high: int, guard: int, k: nat)
    requires Consistent(t, s) && WellPosed(info) && 0 <= low && 0 <= high <= WORD && 0 <= guard
    ensures var limit := LimitAfter(t, s, info.len + info.align - 1, low, high, guard, k);
            && 0 <= limit <= high
            && SearchDown(t, s, info, low, limit, guard) == SearchDown(t, s, info, low, high, guard)
    decreases k
  {
    hide Consistent, Window, AreaAbove, SearchDown, HighestGap;
    if 0 < k && 0 < high {
      var g, next := Unfold(t, s, info, low, high, guard);
      if g.Some? && Blocked(t, s, g.value, info.len + info.align - 1, guard) {
        LimitFollows(t, s, info, low, next, guard, k - 1);
      }
    }
  }

  /** The limits from the first retry on are the limits from the start on, one later. */
  lemma LimitShift(t: Tree, s: Slab, length: int, low: int, high: int, guard: int, h: int)
    requires Consistent(t, s) && 0 < high
    ensures var g := HighestGap(t, low, high, length);
            g.Some? && Blocked(t, s, g.value, length, guard) ==>
              var next := Restart(t, s, g.value, length, guard);
              && (CutOff(t, s, h, length, low, next, guard) ==> CutOff(t, s, h, length, low, high, guard))
              && (HitsZero(t, s, length, low, next, guard) ==> HitsZero(t, s, length, low, high, guard))
              && (next < h + length ==> CutOff(t, s, h, length, low, high, guard))
              && (next == 0 ==> HitsZero(t, s, length, low, high, guard))
  {
    hide Blocked, HighestGap, Restart, Consistent;
    var g := HighestGap(t, low, high, length);
    if g.Some? && Blocked(t, s, g.value, length, guard) {
      var next := Restart(t, s, g.value, length, guard);
      assert LimitAfter(t, s, length, low, next, guard, 0) == next;
      assert forall k: nat ::
          LimitAfter(t, s, length, low, high, guard, k + 1) == LimitAfter(t, s, length, low, next, guard, k);
      if CutOff(t, s, h, length, low, next, guard) {
        var k: nat :| LimitAfter(t, s, length, low, next, guard, k) < h + length;
        assert LimitAfter(t, s, length, low, high, guard, k + 1) < h + length;
      }
      if HitsZero(t, s, length, low, next, guard) {
        var k: nat :| LimitAfter(t, s, length, low, next, guard, k) == 0;
        assert LimitAfter(t, s, length, low, high, guard, k + 1) == 0;
      }
      assert LimitAfter(t, s, length, low, high, guard, 0 + 1) == next;
    }
  }

  /** A suitable range that is not cut off is found, or a higher one is. */
  lemma {:induction false} UncutFound(t: Tree, s: Slab, info: Info, low: int, high: int, guard: int, h: int)
    requires Consistent(t, s) && WellPosed(info) && 0 <= low && 0 < high <= WORD && 0 <= guard && info.align == 1
    requires Suitable(t, s, h, info.len, low, high, guard) && !CutOff(t, s, h, info.len, low, high, guard)
    ensures var r := SearchDown(t, s, info, low, high, guard);
            r.Some? && h <= r.value && r.value + info.len <= high
    decreases high
  {
    hide Consistent, Window, AreaAbove, SearchDown, ClearAbove, CutOff, HitsZero, HighestGap;
    var g, next := Unfold(t, s, info, low, high, guard);
    LimitShift(t, s, info.len, low, high, guard, h);
    if Blocked(t, s, g.value, info.len, guard) {
      UncutFound(t, s, info, low, next, guard, h);
    }
  }

  /** Above the user address space nothing is ever ruled out. */
  lemma TopStays(t: Tree, s: Slab, length: int, low: int, high: int, guard: int, h: int, k: nat)
    requires Consistent(t, s) && TASK_SIZE <= h && low <= h && h + length <= high && 0 < length && 0 <= low
    ensures LimitAfter(t, s, length, low, high, guard, k) == high
  {
    TopFree(t, s, h, length);
    var g := HighestGap(t, low, high, length);
    assert g.Some? && h <= g.value;
    assert g.value + length - 1 !in t;
    AboveFacts(t, s, g.value + length);
  }

  /** The search returns the highest suitable range if and only if no retry cuts it off. */
  lemma SearchDownExact(t: Tree, s: Slab, info: Info, low: int, high: int, guard: int, h: int)
    requires Consistent(t, s) && WellPosed(info) && 0 <= low && 0 < high <= WORD && 0 <= guard
    requires info.align == 1 && info.len <= TASK_SIZE
    requires Suitable(t, s, h, info.len, low, high, guard)
    requires forall k | Suitable(t, s, k, info.len, low, high, guard) :: k <= h
    ensures SearchDown(t, s, info, low, high, guard) == Some(h) <==> !CutOff(t, s, h, info.len, low, high, guard)
  {
    hide Consistent, Window, AreaAbove, SearchDown, ClearAbove, LimitAfter;
    if CutOff(t, s, h, info.len, low, high, guard) {
      var k: nat :| LimitAfter(t, s, info.len, low, high, guard, k) < h + info.len;
      if TASK_SIZE <= h {
        TopStays(t, s, info.len, low, high, guard, h, k);
      } else {
        CutOffMissed(t, s, info, low, high, guard, h);
      }
    } else {
      UncutFound(t, s, info, low, high, guard, h);
      SearchDownSound(t, s, info, low, high, guard);
      var r := SearchDown(t, s, info, low, high, guard).value;
      assert Suitable(t, s, r, info.len, low, high, guard);
    }
  }

  /** Where no stack lies in the guard gap of another, being cut off is being trapped. */
  lemma CutOffIsTrapped(t: Tree, s: Slab, info: Info, low: int, high: int, guard: int, h: int)
    requires Consistent(t, s) && WellPosed(info) && 0 <= low && 0 < high <= WORD && 0 <= guard
    requires info.align == 1 && info.len <= TASK_SIZE && StacksApart(s, guard)
    requires Suitable(t, s, h, info.len, low, high, guard)
    requires forall k | Suitable(t, s, k, info.len, low, high, guard) :: k <= h
    ensures CutOff(t, s, h, info.len, low, high, guard) <==> Trapped(t, s, h, info.len, low, high, guard)
  {
    hide Consistent, Window, AreaAbove, SearchDown, ClearAbove, RuledOut, Restart, StacksApart, CutOff;
    SearchDownExact(t, s, info, low, high, guard, h);
    if Trapped(t, s, h, info.len, low, high, guard) {
      var g :| h <= g && RuledOut(t, s, g, info.len, low, high, guard)
          && Restart(t, s, g, info.len, guard) < h + info.len;
      TrappedMissed(t, s, info, low, high, guard, h, g);
    } else {
      SearchDownFinds(t, s, info, low, high, guard, h);
      SearchDownSound(t, s, info, low, high, guard);
      var r := SearchDown(t, s, info, low, high, guard).value;
      assert Suitable(t, s, r, info.len, low, high, guard);
    }
  }

  // ---------------------------------------------------------------- when the limit wraps

  /** A limit of zero wraps, and the search ends at the top of the 64-bit space. */
  lemma WrappedSearch(t: Tree, s: Slab, info: Info, low: int, guard: int)
    requires Consistent(t, s) && WellPosed(info) && 0 <= low <= TASK_SIZE && 0 <= guard
    requires info.len + info.align - 1 <= TASK_SIZE
    ensures var r := SearchDown(t, s, info, low, 0, guard);
            r == Some(Settled(WORD - (info.len + info.align - 1), info)) && TASK_SIZE < r.value
  {
    hide Consistent, Window, AreaAbove, SearchDown, Settled;
    var length := info.len + info.align - 1;
    var g, next := Unfold(t, s, info, low, 0, guard);
    TopFree(t, s, WORD - length, length);
    SettledResidue(WORD - length, info);
  }

  /** If the limit never reaches zero the result is inside the limits. */
  lemma {:induction false} InsideUnlessZero(t: Tree, s: Slab, info: Info, low: int, high: int, guard: int)
    requires Consistent(t, s) && WellPosed(info) && 0 <= low && 0 < high <= WORD && 0 <= guard
    requires !HitsZero(t, s, info.len + info.align - 1, low, high, guard)
    ensures var r := SearchDown(t, s, info, low, high, guard);
            r.Some? ==> r.value + info.len <= high
    decreases high
  {
    hide Consistent, Window, AreaAbove, SearchDown, Settled, SameResidue, CutOff, HitsZero, HighestGap;
    var length := info.len + info.align - 1;
    var g, next := Unfold(t, s, info, low, high, guard);
    LimitShift(t, s, length, low, high, guard, 0);
    if g.Some? {
      if Blocked(t, s, g.value, length, guard) {
        InsideUnlessZero(t, s, info, low, next, guard);
      } else {
        SettledResidue(g.value, info);
      }
    }
  }

  /** The result lies outside the limits if and only if some retry lowers the limit to zero; the search
      then does not fail, whatever there is. */
  lemma SearchDownInside(t: Tree, s: Slab, info: Info, low: int, high: int, guard: int)
    requires Consistent(t, s) && WellPosed(info) && 0 <= low <= TASK_SIZE && 0 < high <= TASK_SIZE && 0 <= guard
    requires info.len + info.align - 1 <= TASK_SIZE
    ensures var r := SearchDown(t, s, info, low, high, guard);
            r.Some? && high < r.value + info.len <==> HitsZero(t, s, info.len + info.align - 1, low, high, guard)
    ensures HitsZero(t, s, info.len + info.align - 1, low, high, guard) ==>
              var r := SearchDown(t, s, info, low, high, guard);
              r.Some? && TASK_SIZE < r.value
  {
    hide Consistent, Window, AreaAbove, SearchDown, LimitAfter, Settled;
    var length := info.len + info.align - 1;
    if HitsZero(t, s, length, low, high, guard) {
      var k: nat :| LimitAfter(t, s, length, low, high, guard, k) == 0;
      LimitFollows(t, s, info, low, high, guard, k);
      WrappedSearch(t, s, info, low, guard);
    } else {
      InsideUnlessZero(t, s, info, low, high, guard);
    }
  }

  /** If no guard gap reaches address zero, no retry lowers the limit to zero. */
  lemma {:induction false} NoUnderflowNoZero(t: Tree, s: Slab, length: int, low: int, high: int, guard: int, k: nat)
    requires Consistent(t, s) && 0 < high && 0 <= guard && 0 <= low && 0 < length && NoUnderflow(s, guard)
    ensures 0 < LimitAfter(t, s, length, low, high, guard, k)
    decreases k
  {
    hide Consistent, HighestGap, Window, AreaAbove;
    if 0 < k {
      var g := HighestGap(t, low, high, length);
      if g.Some? && Blocked(t, s, g.value, length, guard) {
        assert guard < s[AreaAbove(t, s, g.value + length).id].start;
        NoUnderflowNoZero(t, s, length, low, Restart(t, s, g.value, length, guard), guard, k - 1);
      }
    }
  }

  /** A range that some retry cuts off is not returned. */
  lemma CutOffMissed(t: Tree, s: Slab, info: Info, low: int, high: int, guard: int, h: int)
    requires Consistent(t, s) && WellPosed(info) && 0 <= low && 0 < high <= WORD && 0 <= guard
    requires info.align == 1 && info.len <= TASK_SIZE && h < TASK_SIZE && CutOff(t, s, h, info.len, low, high, guard)
    ensures SearchDown(t, s, info, low, high, guard) != Some(h)
  {
    hide Consistent, SearchDown, LimitAfter;
    var k: nat :| LimitAfter(t, s, info.len, low, high, guard, k) < h + info.len;
    LimitFollows(t, s, info, low, high, guard, k);
    NeverAbove(t, s, info, low, LimitAfter(t, s, info.len, low, high, guard, k), guard, h);
  }

  /** The search fails if and only if no retry lowers the limit to zero and every suitable range, if there is
      any, is cut off by some retry. */
  lemma SearchDownFails(t: Tree, s: Slab, info: Info, low: int, high: int, guard: int)
    requires Consistent(t, s) && WellPosed(info) && 0 <= low <= TASK_SIZE && 0 < high <= TASK_SIZE && 0 <= guard
    requires info.align == 1 && info.len <= TASK_SIZE
    ensures SearchDown(t, s, info, low, high, guard).None? <==>
              && !HitsZero(t, s, info.len, low, high, guard)
              && forall h | Suitable(t, s, h, info.len, low, high, guard) :: CutOff(t, s, h, info.len, low, high, guard)
  {
    hide Consistent, Window, AreaAbove, SearchDown, ClearAbove, HitsZero, CutOff;
    SearchDownInside(t, s, info, low, high, guard);
    SearchDownSound(t, s, info, low, high, guard);
    var r := SearchDown(t, s, info, low, high, guard);
    if r.None? {
      forall h | Suitable(t, s, h, info.len, low, high, guard)
        ensures CutOff(t, s, h, info.len, low, high, guard)
      {
        if !CutOff(t, s, h, info.len, low, high, guard) {
          UncutFound(t, s, info, low, high, guard, h);
        }
      }
    } else if !HitsZero(t, s, info.len, low, high, guard) {
      assert Suitable(t, s, r.value, info.len, low, high, guard);
      if CutOff(t, s, r.value, info.len, low, high, guard) {
        CutOffMissed(t, s, info, low, high, guard, r.value);
      }
    }
  }

  /** Where no stack lies in the guard gap of another, the layout decides: the search fails if and only if no
      retry lowers the limit to zero and every suitable range is trapped. */
  lemma TrappedFails(t: Tree, s: Slab, info: Info, low: int, high: int, guard: int)
    requires Consistent(t, s) && WellPosed(info) && 0 <= low <= TASK_SIZE && 0 < high <= TASK_SIZE && 0 <= guard
    requires info.align == 1 && info.len <= TASK_SIZE && StacksApart(s, guard)
    ensures SearchDown(t, s, info, low, high, guard).None? <==>
              && !HitsZero(t, s, info.len, low, high, guard)
              && forall h | Suitable(t, s, h, info.len, low, high, guard) ::
                   Trapped(t, s, h, info.len, low, high, guard)
  {
    hide Consistent, Window, AreaAbove, SearchDown, ClearAbove, HitsZero, RuledOut, Restart, StacksApart;
    SearchDownInside(t, s, info, low, high, guard);
    SearchDownSound(t, s, info, low, high, guard);
    var r := SearchDown(t, s, info, low, high, guard);
    if r.None? {
      forall h | Suitable(t, s, h, info.len, low, high, guard)
        ensures Trapped(t, s, h, info.len, low, high, guard)
      {
        if !Trapped(t, s, h, info.len, low, high, guard) {
          SearchDownFinds(t, s, info, low, high, guard, h);
        }
      }
    } else if !HitsZero(t, s, info.len, low, high, guard) {
      var h := r.value;
      assert Suitable(t, s, h, info.len, low, high, guard);
      if Trapped(t, s, h, info.len, low, high, guard) {
        var g :| h <= g && RuledOut(t, s, g, info.len, low, high, guard)
            && Restart(t, s, g, info.len, guard) < h + info.len;
        TrappedMissed(t, s, info, low, high, guard, h, g);
      }
    }
  }

  /** `unmapped_area_topdown`. */
  method UnmappedAreaTopdown(t: Tree, s: Slab, info: Info, minAddr: int, guard: int) returns (r: Option<int>)
    requires Consistent(t, s) && WellPosed(info) && 0 <= minAddr && 0 <= guard && Aligned(guard)
    ensures r == if info.len + info.align - 1 < WORD
                 then SearchDown(t, s, info, Max(info.low, minAddr), info.high, guard) else None
  {
    hide Consistent, Window, HighestGap, AreaAbove, StartGap, IsStack, SearchDown, RoundDown, Add64;
    var length := Add64(info.len, info.align - 1);
    NoWrap(info.len, info.align - 1);
    if length < info.len {
      return None;
    }
    var low, high := Max(info.low, minAddr), info.high;
    while true
      invariant 0 <= high <= WORD
      invariant SearchDown(t, s, info, low, high, guard) == SearchDown(t, s, info, low, info.high, guard)
      decreases high
    {
      ghost var g', next := Unfold(t, s, info, low, high, guard);
      var g := HighestGap(t, low, Ceiling(high), length);
      if g.None? {
        return None;
      }
      var last := g.value + length - 1;
      var gap := RoundDown(last + 1 - info.len, info);
      var tmp := AreaAbove(t, s, last + 1);
      if tmp.To? && IsStack(s[tmp.id]) {
        if StartGap(s[tmp.id], guard) <= last {
          high := StartGap(s[tmp.id], guard);
          continue;
        }
      }
      // Without upward growth the area below the window never reaches past the window's start.
      return Some(gap);
    }
  }

  // ---------------------------------------------------------------- layouts that defeat the search

  function Plain(start: int, end: int, flags: set<Flag>): Vma {
    Vma(start, end, 0, flags, None, None, None, None, false, None, [], false)
  }

  function CrowdedSlab(): Slab {
    map[1 := Plain(32768, 36864, {Read}), 2 := Plain(40960, 45056, {Read, GrowsDown})]
  }

  function CrowdedTree(): Tree {
    Store(Store(map[], 32768, 36864, 1), 40960, 45056, 2)
  }

  lemma CrowdedConsistent()
    ensures Consistent(CrowdedTree(), CrowdedSlab())
  {
    var low, stack := Plain(32768, 36864, {Read}), Plain(40960, 45056, {Read, GrowsDown});
    InsertConsistent(map[], map[], 1, low);
    InsertConsistent(Store(map[], 32768, 36864, 1), map[1 := low], 2, stack);
    assert map[1 := low][2 := stack] == CrowdedSlab();
  }

  lemma CrowdedLayout()
    ensures Consistent(CrowdedTree(), CrowdedSlab())
    ensures NoUnderflow(CrowdedSlab(), 16384) && !Uncrowded(CrowdedSlab(), 16384)
    ensures AreaAbove(CrowdedTree(), CrowdedSlab(), 32768) == To(1)
    ensures AreaAbove(CrowdedTree(), CrowdedSlab(), 40960) == To(2)
    ensures Window(CrowdedTree(), 36864, 4096) && Window(CrowdedTree(), 28672, 4096)
  {
    CrowdedConsistent();
    hide Consistent;
    var t, s := CrowdedTree(), CrowdedSlab();
    assert !(s[1].end <= StartGap(s[2], 16384)) && !(s[2].end <= s[1].start);
    assert First(t, 32768, TASK_SIZE) == Some(32768);
    assert First(t, 40960, TASK_SIZE) == Some(40960);
  }

  /** An area in the guard gap of a stack: the search jumps below the whole guard gap and reports
      failure, although the range just below that area is suitable. */
  lemma CrowdedFails()
    ensures Consistent(CrowdedTree(), CrowdedSlab()) && NoUnderflow(CrowdedSlab(), 16384)
    ensures Suitable(CrowdedTree(), CrowdedSlab(), 28672, 4096, 28672, 40960, 16384)
    ensures SearchDown(CrowdedTree(), CrowdedSlab(), Info(4096, 28672, 40960, 1, 0), 28672, 40960, 16384).None?
  {
    hide Consistent, Window, AreaAbove, SearchDown, CrowdedTree, NoUnderflow;
    CrowdedLayout();
    var t, s, info := CrowdedTree(), CrowdedSlab(), Info(4096, 28672, 40960, 1, 0);
    var g, next := Unfold(t, s, info, 28672, 40960, 16384);
    assert g == Some(36864);
    var g2, next2 := Unfold(t, s, info, 28672, next, 16384);
  }

  function LowStackSlab(): Slab {
    map[1 := Plain(8192, 12288, {Read, GrowsDown})]
  }

  function LowStackTree(): Tree {
    Store(map[], 8192, 12288, 1)
  }

  lemma LowStackLayout()
    ensures Consistent(LowStackTree(), LowStackSlab())
    ensures Uncrowded(LowStackSlab(), 16384) && !NoUnderflow(LowStackSlab(), 16384)
    ensures AreaAbove(LowStackTree(), LowStackSlab(), 8192) == To(1)
        && AreaAbove(LowStackTree(), LowStackSlab(), WORD).Null?
    ensures Window(LowStackTree(), 4096, 4096) && Window(LowStackTree(), WORD - 4096, 4096)
  {
    var t, s := LowStackTree(), LowStackSlab();
    assert Consistent(t, s);
    assert IsStack(s[1]);
    assert First(t, 8192, TASK_SIZE) == Some(8192);
  }

  /** A stack whose guard gap reaches address zero: the upper limit wraps and the result lies
      outside the limits. */
  lemma UnderflowEscapes()
    ensures Consistent(LowStackTree(), LowStackSlab()) && Uncrowded(LowStackSlab(), 16384)
    ensures SearchDown(LowStackTree(), LowStackSlab(), Info(4096, 4096, 8192, 1, 0), 4096, 8192, 16384) ==
        Some(WORD - 4096)
  {
    hide Consistent, Window, AreaAbove, SearchDown, LowStackTree, Uncrowded;
    LowStackLayout();
    var t, s, info := LowStackTree(), LowStackSlab(), Info(4096, 4096, 8192, 1, 0);
    var g, next := Unfold(t, s, info, 4096, 8192, 16384);
    assert g == Some(4096);
    var g2, next2 := Unfold(t, s, info, 4096, next, 16384);
    assert g2 == Some(WORD - 4096);
  }
}
