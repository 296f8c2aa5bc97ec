/** Address-space limits: `count_vma_pages_range` and `may_expand_vm`. */
module Counting {
  import opened Pages
  import opened Vmas
  import opened Trees
  import opened AddressSpaces

  /** Mapped addresses of [lo, hi). */
  ghost function Within(v: View, lo: int, hi: int): set<int> {
    set a | a in v && lo <= a < hi
  }

  /** What unmapping a range takes away is what was mapped in it. */
  lemma WithoutBytes(v: View, lo: int, hi: int)
    ensures Bytes(Without(v, lo, hi)) == Bytes(v) - |Within(v, lo, hi)|
  {
    var w := Without(v, lo, hi);
    assert w.Keys !! Within(v, lo, hi);
    assert v.Keys == w.Keys + Within(v, lo, hi);
  }

  /** A range holds at most its length of mapped addresses. */
  lemma WithinBounded(v: View, lo: int, hi: int)
    requires lo <= hi
    ensures |Within(v, lo, hi)| <= hi - lo
  {
    RangeSize(lo, hi);
    SubsetSize(Within(v, lo, hi), Range(lo, hi));
  }

  /** Extending a range over free space and then over one area adds the covered part of the area. */
  lemma WithinArea(t: Tree, s: Slab, id: VmaId, lo: int, cursor: int, hi: int)
    requires Consistent(t, s) && id in s
    requires lo <= cursor <= Max(cursor, s[id].start) <= hi <= s[id].end
    requires Free(t, cursor, s[id].start)
    ensures |Within(Seen(t, s), lo, hi)| == |Within(Seen(t, s), lo, cursor)| + (hi - Max(cursor, s[id].start))
  {
    hide AttrAt, WellFormed;
    var v := Seen(t, s);
    var from := Max(cursor, s[id].start);
    forall a | from <= a < hi
      ensures a in v
    {
      assert Holds(s[id], a);
    }
    RangeSize(from, hi);
    assert Within(v, lo, hi) == Within(v, lo, cursor) + Range(from, hi);
  }

  /** Extending a range over free space adds nothing. */
  lemma WithinFree(t: Tree, s: Slab, lo: int, cursor: int, hi: int)
    requires Free(t, cursor, hi) && cursor <= hi
    ensures Within(Seen(t, s), lo, hi) == Within(Seen(t, s), lo, cursor)
  {
  }

  /** `count_vma_pages_range`: exactly the pages of [addr, end) that are mapped. */
  method CountVmaPagesRange(mm: Mm, addr: int, end: int) returns (n: int)
    requires mm.Shaped() && Aligned(addr) && Aligned(end) && addr <= end
    ensures ToBytes(n) == |Within(mm.Sees(), addr, end)|
    ensures 0 <= n <= (end - addr) / 4096
  {
    hide Consistent, Seen, Within, WellFormed, Free, StartsFrom;
    n := 0;
    var cursor := addr;
    WithinBounded(mm.Sees(), addr, addr);
    var at := First(mm.tree, addr, end);
    while at.Some?
      invariant addr <= cursor <= end && Aligned(cursor)
      invariant at == First(mm.tree, cursor, end)
      invariant cursor == addr || at.None? || StartsFrom(mm.tree, mm.slab, at.value, cursor)
      invariant ToBytes(n) == |Within(mm.Sees(), addr, cursor)|
      decreases end - cursor
    {
      CountStep(mm.tree, mm.slab, addr, cursor, end);
      var vma := Owner(mm.tree, at.value);
      var vmStart := Max(addr, mm.slab[vma].start);
      var vmEnd := Min(end, mm.slab[vma].end);
      n := n + (vmEnd - vmStart) / 4096;
      cursor := vmEnd;
      at := First(mm.tree, cursor, end);
    }
    FreeUntilFirst(mm.tree, mm.slab, cursor, end);
    WithinFree(mm.tree, mm.slab, addr, cursor, end);
    WithinBounded(mm.Sees(), addr, end);
  }

  /** One round of the counting loop. */
  lemma CountStep(t: Tree, s: Slab, addr: int, cursor: int, end: int)
    requires Consistent(t, s) && addr <= cursor <= end && Aligned(addr) && Aligned(end)
    requires First(t, cursor, end).Some?
    requires cursor == addr || StartsFrom(t, s, First(t, cursor, end).value, cursor)
    ensures var id := Owner(t, First(t, cursor, end).value);
            && id in s
            && var vmStart, vmEnd := Max(addr, s[id].start), Min(end, s[id].end);
               && cursor < vmEnd <= end && Aligned(vmEnd)
               && |Within(Seen(t, s), addr, vmEnd)| ==
                  |Within(Seen(t, s), addr, cursor)| + ToBytes((vmEnd - vmStart) / 4096)
               && var at := First(t, vmEnd, end);
                  at.Some? ==> StartsFrom(t, s, at.value, vmEnd)
  {
    hide Seen, Within, Consistent, First, Free;
    FreeUntilFirst(t, s, cursor, end);
    var id := Owner(t, First(t, cursor, end).value);
    var vmStart, vmEnd := Max(addr, s[id].start), Min(end, s[id].end);
    assert vmStart == Max(cursor, s[id].start);
    WithinArea(t, s, id, addr, cursor, vmEnd);
    WholePages(vmStart, vmEnd);
    NextStarts(t, s, id, end);
  }

  lemma WholePages(lo: int, hi: int)
    requires Aligned(lo) && Aligned(hi)
    ensures ToBytes((hi - lo) / 4096) == hi - lo
  {
  }

  /** The area at address `a` starts at or above `lo`. */
  ghost predicate StartsFrom(t: Tree, s: Slab, a: int, lo: int) {
    a in t && Owner(t, a) in s && lo <= s[Owner(t, a)].start
  }

  /** The first area above the end of an area starts above that end. */
  lemma NextStarts(t: Tree, s: Slab, id: VmaId, hi: int)
    requires Consistent(t, s) && id in s
    ensures var at := First(t, s[id].end, hi);
            at.Some? ==> StartsFrom(t, s, at.value, s[id].end)
  {
    var at := First(t, s[id].end, hi);
    if at.Some? {
      var o := Owner(t, at.value);
      assert Holds(s[o], at.value) && !Holds(s[id], at.value);
      assert WellFormed(s[id]) && WellFormed(s[o]);
      Disjoint(t, s, id, o);
    }
  }

  lemma FreeUntilFirst(t: Tree, s: Slab, lo: int, hi: int)
    requires Consistent(t, s)
    ensures var at := First(t, lo, hi);
            && (at.None? ==> Free(t, lo, hi))
            && (at.Some? ==>
                  var id := Owner(t, at.value);
                  && id in s && WellFormed(s[id]) && s[id].start <= at.value < s[id].end
                  && lo < s[id].end && s[id].start < hi && Free(t, lo, s[id].start))
  {
    var at := First(t, lo, hi);
    if at.Some? {
      var id := Owner(t, at.value);
      assert Holds(s[id], at.value);
    }
  }
}
