/** Removing a range from an address space (`do_vmi_align_munmap`, `do_vmi_munmap`, `remove_mt`). */
module Unmapping {
  import opened Pages
  import opened Vmas
  import opened Trees
  import opened AddressSpaces
  import opened Splitting
  import opened Reshaping

  // ---------------------------------------------------------------- boundaries

  /** An area lies across `x`. */
  predicate Crosses(t: Tree, x: int) {
    x - 1 in t && x in t && Owner(t, x - 1) == Owner(t, x)
  }

  /** One area lies across all of [lo, hi]. */
  predicate Hole(t: Tree, lo: int, hi: int) {
    lo - 1 in t && hi in t && Owner(t, lo - 1) == Owner(t, hi)
  }

  /** The addresses of [lo, hi) at which an area begins, or is entered: one for each area of the range. */
  ghost function Heads(t: Tree, lo: int, hi: int): set<int> {
    set a | a in t && Between(a, lo, hi) && (a == lo || !Crosses(t, a))
  }

  /** The area at an address. */
  ghost function AreaAt(t: Tree, s: Slab, a: int): Option<Vma> {
    if a in t && Owner(t, a) in s then Some(s[Owner(t, a)]) else None
  }

  /** What is left of `v` on the side of `a` once [lo, hi) is cut out. */
  function Outside(v: Vma, lo: int, hi: int, a: int): Vma {
    if a < lo then
      if v.start < lo < v.end then Part(v, lo, true) else v
    else
      if v.start < hi < v.end then Part(v, hi, false) else v
  }

  ghost function CutAt(t: Tree, s: Slab, lo: int, hi: int, a: int): Option<Vma> {
    var v := AreaAt(t, s, a);
    if v.Some? then Some(Outside(v.value, lo, hi, a)) else None
  }

  /** The areas outside [lo, hi) are as before ... */
  ghost predicate SameOutside(t: Tree, s: Slab, t': Tree, s': Slab, lo: int, hi: int) {
    forall a | a < lo || hi <= a :: AreaAt(t', s', a) == AreaAt(t, s, a)
  }

  /** ... or exactly the parts that reached into [lo, hi) are cut off. */
  ghost predicate CutOut(t: Tree, s: Slab, t': Tree, s': Slab, lo: int, hi: int) {
    forall a | a < lo || hi <= a :: AreaAt(t', s', a) == CutAt(t, s, lo, hi, a)
  }

  // ---------------------------------------------------------------- the areas afterwards

  /** The same for the area across `addr`, if there is one. */
  ghost function SplitAt(x: Space, addr: int, below: bool): Space {
    if !Crosses(x.tree, addr) then x
    else
      var id := Owner(x.tree, addr);
      if id in x.slab && x.slab[id].start < addr < x.slab[id].end then SplitOff(x, id, addr, below) else x
  }

  ghost function Owners(t: Tree, lo: int, hi: int): set<VmaId> {
    set a | a in t && Between(a, lo, hi) :: Owner(t, a)
  }

  /** The gathering gets as far as the last area of the range and can split it. */
  ghost predicate SplitsEnd(t: Tree, start: int, end: int, o: Outcomes) {
    var n := |Heads(t, start, end)|;
    o.endSplit && !(0 <= o.storeStop < n - 1) && !(0 <= o.uffdStop < n - 1)
  }

  /** After the gathering, apart from the marks. */
  ghost function GatherAfter(x: Space, start: int, end: int, o: Outcomes): Space {
    if SplitsEnd(x.tree, start, end, o) then SplitAt(x, end, false) else x
  }

  ghost function DetachAfter(x: Space, start: int, end: int, o: Outcomes): Space {
    var y := GatherAfter(x, start, end, o);
    if GatherWorks(x.tree, start, end, o) && o.clear
    then Space(Clear(y.tree, start, end), y.slab - Owners(y.tree, start, end), y.next)
    else y
  }

  /** After `do_vmi_align_munmap`, whichever way it ends: the splits it made stay. */
  ghost function UnmapAfter(x: Space, mapCount: int, start: int, end: int, maxMapCount: int, o: Outcomes): Space {
    if Hole(x.tree, start, end) && maxMapCount <= mapCount then x
    else if Crosses(x.tree, start) && !o.startSplit then x
    else DetachAfter(SplitAt(x, start, true), start, end, o)
  }

  /** After `do_vmi_munmap`. */
  ghost function MunmapAfter(x: Space, mapCount: int, start: int, len: int, maxMapCount: int, o: Outcomes): Space
    requires 0 <= len
  {
    var end := start + RoundUp(len);
    if BadRange(start, len) || Free(x.tree, start, end) then x
    else UnmapAfter(x, mapCount, start, end, maxMapCount, o)
  }

  /** The areas in the list marked, and no others. */
  ghost function Marked(s: Slab, ids: seq<VmaId>): (r: Slab)
    ensures r.Keys == s.Keys
  {
    map id | id in s :: s[id].(detached := id in ids)
  }

  lemma NoMarks(s: Slab)
    requires forall id | id in s :: !s[id].detached
    ensures Marked(s, []) == s
  {
    forall id | id in s
      ensures Marked(s, [])[id] == s[id]
    {
      assert s[id].(detached := s[id].detached) == s[id];
    }
  }

  lemma MarkedMore(s: Slab, ids: seq<VmaId>, id: VmaId)
    requires id in s
    ensures Marked(s, ids)[id := Marked(s, ids)[id].(detached := true)] == Marked(s, ids + [id])
  {
  }

  // ---------------------------------------------------------------- gathering

  ghost predicate Distinct(ids: seq<VmaId>) {
    forall i, j | 0 <= i < j < |ids| :: ids[i] != ids[j]
  }

  /** `ids` are the areas of [start, cursor), each wholly inside it, and exactly they are marked. */
  ghost predicate Gathering(t: Tree, s: Slab, ids: seq<VmaId>, start: int, cursor: int) {
    && Distinct(ids)
    && (forall d | d in ids :: d in s && start <= s[d].start && s[d].end <= cursor)
    && (forall id | id in s :: s[id].detached <==> id in ids)
    && (forall a | a in t && start <= a < cursor :: Owner(t, a) in ids)
  }

  /** Splitting an area above the cursor does not disturb what has been gathered. */
  lemma GatheringSplit(t: Tree, s: Slab, ids: seq<VmaId>, start: int, cursor: int, id: VmaId, newId: VmaId, addr: int)
    requires Consistent(t, s) && Gathering(t, s, ids, start, cursor)
    requires id in s && id !in ids && newId !in s && cursor <= s[id].start < addr < s[id].end
    ensures var piece := Part(s[id], addr, false);
            Gathering(Store(t, piece.start, piece.end, newId), s[id := Part(s[id], addr, true)][newId := piece], ids,
                      start, cursor)
  {
    hide WellFormed;
  }

  /** Marking the first area above the cursor moves the cursor to its end. */
  lemma GatheringMark(t: Tree, s: Slab, ids: seq<VmaId>, start: int, cursor: int, id: VmaId)
    requires Consistent(t, s) && Gathering(t, s, ids, start, cursor)
    requires id in s && start <= cursor <= s[id].start && Free(t, cursor, s[id].start)
    ensures id !in ids
    ensures Gathering(t, s[id := s[id].(detached := true)], ids + [id], start, s[id].end)
  {
    assert WellFormed(s[id]);
    assert id !in ids;
    forall a | a in t && start <= a < s[id].end
      ensures Owner(t, a) in ids + [id]
    {
      if cursor <= a {
        assert Holds(s[id], a);
      }
    }
  }

  // ---------------------------------------------------------------- sums over gathered areas

  function SumPages(s: Slab, ids: seq<VmaId>): int
    requires forall d | d in ids :: d in s
  {
    if ids == [] then 0
    else
      var last := ids[|ids| - 1];
      SumPages(s, ids[..|ids| - 1]) + VmaPages(s[last])
  }

  function SumPagesWith(s: Slab, ids: seq<VmaId>, f: Flag): int
    requires forall d | d in ids :: d in s
  {
    if ids == [] then 0
    else
      var last := ids[|ids| - 1];
      SumPagesWith(s, ids[..|ids| - 1], f) + if f in s[last].flags then VmaPages(s[last]) else 0
  }

  /** The view once the listed areas are gone, one after the other. */
  ghost function Minus(v: View, s: Slab, ids: seq<VmaId>): View
    requires forall d | d in ids :: d in s
  {
    if ids == [] then v
    else
      var last := ids[|ids| - 1];
      Without(Minus(v, s, ids[..|ids| - 1]), s[last].start, s[last].end)
  }

  lemma {:induction false} MinusAt(v: View, s: Slab, ids: seq<VmaId>, a: int)
    requires forall d | d in ids :: d in s
    ensures Look(Minus(v, s, ids), a) ==
            if exists d | d in ids :: Holds(s[d], a) then None else Look(v, a)
  {
    if ids != [] {
      var init, last := ids[..|ids| - 1], ids[|ids| - 1];
      MinusAt(v, s, init, a);
      assert forall d :: d in ids <==> d in init || d == last;
    }
  }

  /** Removing gathered areas takes the sum of their pages off every tally. */
  lemma {:induction false} MinusTally(t: Tree, s: Slab, ids: seq<VmaId>, f: Flag)
    requires Consistent(t, s) && Distinct(ids) && f != SoftDirty
    requires forall d | d in ids :: d in s
    ensures Bytes(Seen(t, s)) == Bytes(Minus(Seen(t, s), s, ids)) + ToBytes(SumPages(s, ids))
    ensures BytesWith(Seen(t, s), f) ==
            BytesWith(Minus(Seen(t, s), s, ids), f) + ToBytes(SumPagesWith(s, ids, f))
  {
    hide Bytes, BytesWith, AttrAt, Seen, Consistent;
    if ids != [] {
      var init, last := ids[..|ids| - 1], ids[|ids| - 1];
      MinusTally(t, s, init, f);
      MinusLast(t, s, init, last);
      WithoutTally(Minus(Seen(t, s), s, init), s[last], f);
    }
  }

  /** An area not listed is still seen in full. */
  lemma MinusLast(t: Tree, s: Slab, ids: seq<VmaId>, last: VmaId)
    requires Consistent(t, s) && last in s && last !in ids
    requires forall d | d in ids :: d in s
    ensures WellFormed(s[last])
    ensures var v := Minus(Seen(t, s), s, ids);
            forall a | Holds(s[last], a) :: a in v && v[a] == AttrAt(s[last], a)
  {
    hide AttrAt;
    var v := Minus(Seen(t, s), s, ids);
    forall a | Holds(s[last], a)
      ensures a in v && v[a] == AttrAt(s[last], a)
    {
      MinusAt(Seen(t, s), s, ids, a);
      assert Look(Seen(t, s), a) == Some(AttrAt(s[last], a));
    }
  }

  lemma {:induction false} SumSame(s: Slab, s': Slab, ids: seq<VmaId>, f: Flag)
    requires forall d | d in ids :: d in s && d in s' && s'[d] == s[d]
    ensures SumPagesWith(s', ids, f) == SumPagesWith(s, ids, f) && SumPages(s', ids) == SumPages(s, ids)
  {
    if ids != [] {
      SumSame(s, s', ids[..|ids| - 1], f);
      var last := ids[|ids| - 1];
      assert last in ids;
    }
  }

  // ---------------------------------------------------------------- clearing

  function IdSet(ids: seq<VmaId>): set<VmaId> {
    set d | d in ids
  }

  lemma {:induction false} IdSetSize(ids: seq<VmaId>)
    requires Distinct(ids)
    ensures |IdSet(ids)| == |ids|
  {
    if ids == [] {
      assert IdSet(ids) == {};
    } else {
      var init, last := ids[..|ids| - 1], ids[|ids| - 1];
      IdSetSize(init);
      assert IdSet(ids) == IdSet(init) + {last};
    }
  }

  /** Clearing a fully gathered range and dropping the gathered areas leaves a consistent pair ... */
  lemma ClearConsistent(t: Tree, s: Slab, ids: seq<VmaId>, start: int, end: int)
    requires Consistent(t, s) && Gathering(t, s, ids, start, end)
    ensures Consistent(Clear(t, start, end), s - IdSet(ids))
  {
    hide WellFormed;
    var t', s' := Clear(t, start, end), s - IdSet(ids);
    forall a | a in t'
      ensures Owner(t', a) in s' && Holds(s'[Owner(t', a)], a)
    {
      var id := Owner(t, a);
      assert Holds(s[id], a);
      assert id in ids ==> start <= s[id].start && s[id].end <= end;
    }
    forall id, a | id in s' && Holds(s'[id], a)
      ensures a in t' && t'[a] == id
    {
      assert Holds(s[id], a) && Owner(t, a) == id;
    }
  }

  /** ... in which exactly the range has disappeared from the view. */
  lemma ClearSeen(t: Tree, s: Slab, ids: seq<VmaId>, start: int, end: int)
    requires Consistent(t, s) && Gathering(t, s, ids, start, end)
    ensures Seen(Clear(t, start, end), s - IdSet(ids)) == Without(Seen(t, s), start, end)
    ensures Minus(Seen(t, s), s, ids) == Without(Seen(t, s), start, end)
  {
    var v := Without(Seen(t, s), start, end);
    forall a
      ensures Look(Seen(Clear(t, start, end), s - IdSet(ids)), a) == Look(v, a)
      ensures Look(Minus(Seen(t, s), s, ids), a) == Look(v, a)
    {
      ClearSeenAt(t, s, ids, start, end, a);
    }
    SameLooks(Seen(Clear(t, start, end), s - IdSet(ids)), v);
    SameLooks(Minus(Seen(t, s), s, ids), v);
  }

  lemma ClearSeenAt(t: Tree, s: Slab, ids: seq<VmaId>, start: int, end: int, a: int)
    requires Consistent(t, s) && Gathering(t, s, ids, start, end)
    ensures Look(Seen(Clear(t, start, end), s - IdSet(ids)), a) == Look(Without(Seen(t, s), start, end), a)
    ensures Look(Minus(Seen(t, s), s, ids), a) == Look(Without(Seen(t, s), start, end), a)
  {
    hide WellFormed, AttrAt, Minus;
    MinusAt(Seen(t, s), s, ids, a);
    if a in t {
      var id := Owner(t, a);
      assert Holds(s[id], a);
      if start <= a < end {
        assert id in ids;
      } else {
        assert id !in ids;
      }
    }
  }

  // ---------------------------------------------------------------- the operation

  /** The outcomes of everything `do_vmi_align_munmap` can fail on: the two splits, the store of the
      n-th area in the detach list, the userfaultfd hook of the n-th area, and the final clear.
      A negative index never fails. */
  datatype Outcomes = Outcomes(startSplit: bool, endSplit: bool, storeStop: int, uffdStop: int, clear: bool) {
    predicate AllWell() {
      startSplit && endSplit && storeStop < 0 && uffdStop < 0 && clear
    }
  }

  /** Unmapping [start, end) works: it punches no hole at the limit, both splits it needs are possible, and
      no area of the range fails to be recorded. */
  ghost predicate UnmapWorks(t: Tree, mapCount: int, start: int, end: int, maxMapCount: int, o: Outcomes) {
    && !(Hole(t, start, end) && maxMapCount <= mapCount)
    && (Crosses(t, start) ==> o.startSplit)
    && GatherWorks(t, start, end, o) && o.clear
  }

  ghost predicate GatherWorks(t: Tree, start: int, end: int, o: Outcomes) {
    var n := |Heads(t, start, end)|;
    && (Crosses(t, end) ==> o.endSplit)
    && !(0 <= o.storeStop < n) && !(0 <= o.uffdStop < n)
  }

  /** One round of the gathering loop: split off what lies beyond `end`, record the area, mark it. */
  method GatherStep(mm: Mm, id: VmaId, ghost ids: seq<VmaId>, start: int, ghost cursor: int, end: int,
                    splitOk: bool, storeOk: bool, uffdOk: bool) returns (ok: bool, marked: bool)
    requires mm.Shaped() && Gathering(mm.tree, mm.slab, ids, start, cursor)
    requires id in mm.slab && start <= cursor <= mm.slab[id].start < end && Aligned(end)
    requires Free(mm.tree, cursor, mm.slab[id].start)
    modifies mm`tree, mm`slab, mm`nextId, mm`mapCount
    ensures mm.Shaped() && mm.Sees() == old(mm.Sees()) && id in mm.slab
    ensures Gathering(mm.tree, mm.slab, if marked then ids + [id] else ids, start,
                      if marked then mm.slab[id].end else cursor)
    ensures marked ==> cursor + 4096 <= mm.slab[id].end <= end
    ensures forall d | d in ids :: d in mm.slab && mm.slab[d] == old(mm.slab)[d]
    ensures marked ==> mm.slab[id].flags == old(mm.slab[id]).flags
    ensures marked ==> mm.slab[id].end == Min(end, old(mm.slab[id]).end)
    ensures mm.mapCount == old(mm.mapCount) + (if old(mm.slab[id]).end > end && splitOk then 1 else 0)
    ensures marked <==> (old(mm.slab[id]).end <= end || splitOk) && storeOk
    ensures ok <==> marked && uffdOk
    ensures mm.Now() == StepAfter(old(mm.Now()), id, end, splitOk, marked)
  {
    hide Consistent, Seen, Store, Free, Gathering, Part, SplitOff;
    ok, marked := false, false;
    var split := SplitBeyond(mm, id, ids, start, cursor, end, splitOk);
    if !split || !storeOk {
      return;
    }
    KnownArea(mm.tree, mm.slab, id);
    GatheringMark(mm.tree, mm.slab, ids, start, cursor, id);
    MarkKeeps(mm.tree, mm.slab, id, mm.slab[id].(detached := true));
    mm.slab := mm.slab[id := mm.slab[id].(detached := true)];
    marked := true;
    ok := uffdOk;
  }

  /** The split at the end of the range, if the area reaches beyond it. */
  method SplitBeyond(mm: Mm, id: VmaId, ghost ids: seq<VmaId>, ghost start: int, ghost cursor: int, end: int,
                     splitOk: bool) returns (ok: bool)
    requires mm.Shaped() && Gathering(mm.tree, mm.slab, ids, start, cursor)
    requires id in mm.slab && start <= cursor <= mm.slab[id].start < end && Aligned(end)
    requires Free(mm.tree, cursor, mm.slab[id].start)
    modifies mm`tree, mm`slab, mm`nextId, mm`mapCount
    ensures mm.Shaped() && mm.Sees() == old(mm.Sees())
    ensures Gathering(mm.tree, mm.slab, ids, start, cursor)
    ensures ok <==> old(mm.slab[id]).end <= end || splitOk
    ensures mm.Now() == StepAfter(old(mm.Now()), id, end, splitOk, false)
    ensures mm.mapCount == old(mm.mapCount) + (if old(mm.slab[id]).end > end && splitOk then 1 else 0)
    ensures id in mm.slab && mm.slab[id].start == old(mm.slab[id]).start && mm.slab[id].flags == old(mm.slab[id]).flags
    ensures mm.slab[id].start + 4096 <= mm.slab[id].end && Free(mm.tree, cursor, mm.slab[id].start) && id !in ids
    ensures ok ==> mm.slab[id].end == Min(end, old(mm.slab[id]).end)
    ensures forall d | d in ids :: d in mm.slab && mm.slab[d] == old(mm.slab)[d]
  {
    hide Consistent, Seen, Store, Free, Gathering;
    ghost var t, s := mm.tree, mm.slab;
    KnownArea(t, s, id);
    FirstAboveIsNew(t, s, ids, start, cursor, id);
    ok := true;
    if mm.slab[id].end > end {
      GatheringSplit(t, s, ids, start, cursor, id, mm.nextId, end);
      SplitFree(t, s, id, mm.nextId, end, cursor);
      var r := SplitUnchecked(mm, id, end, false, splitOk);
      ok := r.To?;
    }
  }

  /** After one round: the area is split if it has to be, and marked if that worked. */
  ghost function StepAfter(x: Space, id: VmaId, end: int, splitOk: bool, marked: bool): Space
    requires id in x.slab && x.slab[id].start < end
  {
    var y := if end < x.slab[id].end && splitOk then SplitOff(x, id, end, false) else x;
    if marked then y.(slab := y.slab[id := y.slab[id].(detached := true)]) else y
  }

  /** The area is marked, and what it had beyond `end` is an area of its own. */
  ghost predicate Detached(t: Tree, s: Slab, id: VmaId, newId: VmaId, end: int, t': Tree, s': Slab) {
    && id in s
    && var v := s[id];
       if v.start < end < v.end then
         && t' == Store(t, end, v.end, newId)
         && s' == s[id := Part(v, end, true).(detached := true)][newId := Part(v, end, false)]
       else
         && t' == t
         && s' == s[id := v.(detached := true)]
  }

  lemma StepDetaches(x: Space, id: VmaId, end: int, splitOk: bool)
    requires id in x.slab && x.slab[id].start < end && x.next !in x.slab && (x.slab[id].end <= end || splitOk)
    ensures var y := StepAfter(x, id, end, splitOk, true);
            Detached(x.tree, x.slab, id, x.next, end, y.tree, y.slab)
  {
  }

  /** The first area above the cursor contributes one head. */
  lemma HeadsStep(t: Tree, s: Slab, ids: seq<VmaId>, start: int, cursor: int, id: VmaId, e: int)
    requires Consistent(t, s) && Gathering(t, s, ids, start, cursor)
    requires id in s && start <= cursor <= s[id].start < e <= s[id].end && Free(t, cursor, s[id].start)
    ensures |Heads(t, start, e)| == |Heads(t, start, cursor)| + 1
  {
    assert WellFormed(s[id]);
    var h := s[id].start;
    assert Holds(s[id], h);
    assert !Holds(s[id], h - 1);
    forall a | h < a < e
      ensures Crosses(t, a)
    {
      assert Holds(s[id], a - 1) && Holds(s[id], a);
    }
    assert Heads(t, start, e) == Heads(t, start, cursor) + {h};
  }

  lemma HeadsGrow(t: Tree, start: int, cursor: int, end: int)
    requires start <= cursor <= end
    ensures |Heads(t, start, cursor)| <= |Heads(t, start, end)|
    ensures Free(t, cursor, end) ==> Heads(t, start, cursor) == Heads(t, start, end)
  {
    SubsetSize(Heads(t, start, cursor), Heads(t, start, end));
  }

  lemma KnownArea(t: Tree, s: Slab, id: VmaId)
    requires Consistent(t, s) && id in s
    ensures Aligned(s[id].start) && s[id].start + 4096 <= s[id].end
    ensures WellFormed(s[id]) && WellFormed(s[id].(detached := true)) && SameKind(s[id].(detached := true), s[id])
  {
  }

  lemma FirstAboveIsNew(t: Tree, s: Slab, ids: seq<VmaId>, start: int, cursor: int, id: VmaId)
    requires Consistent(t, s) && Gathering(t, s, ids, start, cursor)
    requires id in s && start <= cursor <= s[id].start
    ensures id !in ids && (forall d | d in ids :: d in s)
  {
    assert WellFormed(s[id]);
  }

  /** Splitting an area high up leaves the space below it free. */
  lemma SplitFree(t: Tree, s: Slab, id: VmaId, newId: VmaId, addr: int, cursor: int)
    requires id in s && s[id].start < addr < s[id].end && Free(t, cursor, s[id].start)
    ensures var piece := Part(s[id], addr, false);
            Free(Store(t, piece.start, piece.end, newId), cursor, s[id].start)
  {
  }

  /** How far the gathering has come: one area recorded for each head so far, the areas outside the range
      as they were until the end is split off, and none of the recorded areas refused. */
  ghost predicate Progress(t0: Tree, s0: Slab, t: Tree, s: Slab, n: int, start: int, cursor: int, end: int,
                           cut: bool, o: Outcomes) {
    && start <= cursor <= end
    && n == |Heads(t0, start, cursor)|
    && !(0 <= o.storeStop < n) && !(0 <= o.uffdStop < n)
    && (!cut ==> t == t0 && SameOutside(t0, s0, t, s, start, end))
    && (cut ==> cursor == end && o.endSplit && CutOut(t0, s0, t, s, start, end))
  }

  lemma ProgressStart(t: Tree, s: Slab, start: int, end: int, o: Outcomes)
    requires start <= end
    ensures Progress(t, s, t, s, 0, start, start, end, false, o)
  {
    assert Heads(t, start, start) == {};
  }

  /** One more area: the round works out, or the outcomes explain why it does not. */
  lemma ProgressStep(t0: Tree, s0: Slab, s: Slab, ids: seq<VmaId>, id: VmaId, newId: VmaId, start: int, cursor: int,
                     end: int, o: Outcomes, t': Tree, s': Slab)
    requires Consistent(t0, s) && !Crosses(t0, start) && newId !in s
    requires Gathering(t0, s, ids, start, cursor) && Progress(t0, s0, t0, s, |ids|, start, cursor, end, false, o)
    requires id in s && cursor <= s[id].start < end && Free(t0, cursor, s[id].start)
    ensures end < s[id].end ==> Crosses(t0, end)
    ensures |ids| < |Heads(t0, start, end)|
    ensures |ids| != o.storeStop && |ids| != o.uffdStop && (end < s[id].end ==> o.endSplit) ==>
              Detached(t0, s, id, newId, end, t', s') ==>
              Progress(t0, s0, t', s', |ids| + 1, start, Min(end, s[id].end), end, end < s[id].end, o)
  {
    hide Heads, CutOut, SameOutside;
    KnownArea(t0, s, id);
    var e := Min(end, s[id].end);
    HeadsStep(t0, s, ids, start, cursor, id, e);
    HeadsGrow(t0, start, e, end);
    if end < s[id].end {
      assert Holds(s[id], end - 1) && Holds(s[id], end);
    }
    if Detached(t0, s, id, newId, end, t', s') {
      OutsideStep(t0, s0, s, id, newId, start, end, t', s');
    }
  }

  lemma OutsideStep(t0: Tree, s0: Slab, s: Slab, id: VmaId, newId: VmaId, start: int, end: int, t': Tree, s': Slab)
    requires Consistent(t0, s) && !Crosses(t0, start) && newId !in s && SameOutside(t0, s0, t0, s, start, end)
    requires id in s && start <= s[id].start < end && Detached(t0, s, id, newId, end, t', s')
    ensures end < s[id].end ==> CutOut(t0, s0, t', s', start, end)
    ensures s[id].end <= end ==> t' == t0 && SameOutside(t0, s0, t', s', start, end)
  {
    hide WellFormed;
    forall a | a < start || end <= a
      ensures AreaAt(t', s', a) == if end < s[id].end then CutAt(t0, s0, start, end, a) else AreaAt(t0, s0, a)
    {
      assert AreaAt(t0, s, a) == AreaAt(t0, s0, a);
      assert end <= a < s[id].end ==> Holds(s[id], a);
      assert end < s[id].end ==> Holds(s[id], end);
      if a in t0 {
        var v := Owner(t0, a);
        assert Holds(s[v], a);
        NoArea(t0, s, v, a, start);
        assert v != id && end < s[id].end ==> !Holds(s[v], end);
      }
    }
  }

  /** An area with an address on either side of an uncrossed boundary would cross it. */
  lemma NoArea(t: Tree, s: Slab, v: VmaId, a: int, x: int)
    requires Consistent(t, s) && v in s && Holds(s[v], a) && !Crosses(t, x)
    ensures a < x ==> s[v].end <= x
    ensures x <= a ==> x <= s[v].start
  {
    if a < x < s[v].end || s[v].start < x <= a {
      assert Holds(s[v], x - 1) && Holds(s[v], x);
    }
  }

  /** At the end every outcome that matters has been asked. */
  lemma ProgressEnd(t0: Tree, s0: Slab, t: Tree, s: Slab, ids: seq<VmaId>, start: int, cursor: int, end: int,
                    cut: bool, o: Outcomes)
    requires Consistent(t, s) && !Crosses(t0, start) && start < end
    requires Gathering(t, s, ids, start, cursor) && Progress(t0, s0, t, s, |ids|, start, cursor, end, cut, o)
    requires Free(t, cursor, end)
    ensures GatherWorks(t0, start, end, o) && |ids| == |Heads(t0, start, end)|
    ensures CutOut(t0, s0, t, s, start, end)
    ensures !cut ==> !Crosses(t0, end)
  {
    hide Heads;
    HeadsGrow(t0, start, cursor, end);
    if !cut {
      assert !Crosses(t, end) by {
        if end - 1 in t && end in t {
          var v := Owner(t, end - 1);
          assert v in ids;
          assert !Holds(s[v], end);
        }
      }
      forall a | a < start || end <= a
        ensures AreaAt(t, s, a) == CutAt(t0, s0, start, end, a)
      {
        if a in t {
          NoArea(t, s, Owner(t, a), a, start);
          NoArea(t, s, Owner(t, a), a, end);
        }
      }
    }
  }

  /** The gathering loop.  It works if and only if the outcomes it asks for are good; whatever stops it,
      exactly the areas in the list are marked. */
  method Gather(mm: Mm, vma: VmaId, start: int, end: int, o: Outcomes)
    returns (ok: bool, detach: seq<VmaId>, locked: int, ghost cursor: int)
    requires mm.Shaped() && mm.NoneDetached() && vma in mm.slab && Aligned(end)
    requires start <= mm.slab[vma].start < end && Free(mm.tree, start, mm.slab[vma].start)
    modifies mm`tree, mm`slab, mm`nextId, mm`mapCount
    ensures mm.Shaped() && mm.Sees() == old(mm.Sees())
    ensures Gathering(mm.tree, mm.slab, detach, start, cursor) && start + 4096 * |detach| <= cursor <= end
    ensures ok <==> old(GatherWorks(mm.tree, start, end, o))
    ensures ok ==> cursor == end && 1 <= |detach| == |Heads(old(mm.tree), start, end)|
    ensures ok ==> CutOut(old(mm.tree), old(mm.slab), mm.tree, mm.slab, start, end)
    ensures ok ==> locked == SumPagesWith(mm.slab, detach, Locked)
    ensures old(mm.mapCount) <= mm.mapCount <= old(mm.mapCount) + 1
    ensures ok && |detach| <= 1 && mm.mapCount == old(mm.mapCount) + 1 ==> end < old(mm.slab[vma]).end
    ensures mm.Now() == WithMarks(GatherAfter(old(mm.Now()), start, end, o), detach)
  {
    hide Consistent, Seen, Gathering, SumPagesWith, Free, Underway, CutOut, Heads, Crosses, GatherAfter, StepAfter;
    hide WithMarks, GatherWorks, VmaPages;
    ghost var x0 := mm.Now();
    UncrossedStart(mm.tree, mm.slab, vma, start);
    GatheringStart(mm.tree, mm.slab, start);
    UnderwayStart(x0, start, end, o);
    ok, detach, locked, cursor := true, [], 0, start;
    ghost var cut := false;
    SumNone(mm.slab, Locked);
    var next := To(vma);
    while next.To?
      invariant mm.Shaped() && mm.Sees() == old(mm.Sees()) && ok
      invariant Gathering(mm.tree, mm.slab, detach, start, cursor) && start + 4096 * |detach| <= cursor <= end
      invariant Underway(x0, mm.Now(), detach, start, cursor, end, cut, o)
      invariant next.To? ==> !cut
      invariant forall d | d in detach :: d in mm.slab
      invariant next.To? ==> next.id in mm.slab && cursor <= mm.slab[next.id].start < end
      invariant next.To? ==> Free(mm.tree, cursor, mm.slab[next.id].start)
      invariant next.Null? ==> Free(mm.tree, cursor, end)
      invariant detach == [] ==> next == To(vma) && mm.slab[vma].end == old(mm.slab[vma]).end
      invariant next.To? ==> mm.mapCount == old(mm.mapCount)
      invariant old(mm.mapCount) <= mm.mapCount <= old(mm.mapCount) + 1
      invariant |detach| <= 1 && mm.mapCount == old(mm.mapCount) + 1 ==> end < old(mm.slab[vma]).end
      invariant locked == SumPagesWith(mm.slab, detach, Locked)
      decreases end - cursor, if next.To? then 1 else 0
    {
      ghost var x := mm.Now();
      var id := next.id;
      var marked;
      ok, marked := GatherStep(mm, id, detach, start, cursor, end, o.endSplit, |detach| != o.storeStop,
                               |detach| != o.uffdStop);
      RoundDone(x0, x, mm.Now(), detach, id, start, cursor, end, o, marked);
      if marked {
        SumMore(x.slab, mm.slab, detach, id, Locked);
        if Locked in mm.slab[id].flags {
          locked := locked + VmaPages(mm.slab[id]);
        }
        detach := detach + [id];
        cursor := mm.slab[id].end;
      }
      if !ok {
        return;
      }
      cut := end < x.slab[id].end;
      var at := First(mm.tree, mm.slab[id].end, end);
      NextArea(mm.tree, mm.slab, detach, start, cursor, end);
      next := if at.Some? then To(Owner(mm.tree, at.value)) else Null;
    }
    UnderwayEnd(x0, mm.Now(), detach, start, cursor, end, cut, o);
    GatheringExtend(mm.tree, mm.slab, detach, start, cursor, end);
    cursor := end;
  }

  /** The gathering in the middle: how far it has come, and that it has marked what is in the list. */
  ghost predicate Underway(x0: Space, x: Space, ids: seq<VmaId>, start: int, cursor: int, end: int, cut: bool,
                           o: Outcomes) {
    && (forall d | d in x0.slab :: !x0.slab[d].detached)
    && !Crosses(x0.tree, start)
    && Progress(x0.tree, x0.slab, x.tree, x.slab, |ids|, start, cursor, end, cut, o)
    && x == WithMarks(if cut then SplitAt(x0, end, false) else x0, ids)
  }

  lemma UnderwayStart(x: Space, start: int, end: int, o: Outcomes)
    requires (forall d | d in x.slab :: !x.slab[d].detached) && !Crosses(x.tree, start) && start <= end
    ensures Underway(x, x, [], start, start, end, false, o)
  {
    NoMarks(x.slab);
    ProgressStart(x.tree, x.slab, start, end, o);
  }

  /** One round later: further on, or stopped where it was bound to stop. */
  lemma RoundDone(x0: Space, x: Space, x': Space, ids: seq<VmaId>, id: VmaId, start: int, cursor: int, end: int,
                  o: Outcomes, marked: bool)
    requires Underway(x0, x, ids, start, cursor, end, false, o) && Gathering(x.tree, x.slab, ids, start, cursor)
    requires Consistent(x.tree, x.slab) && x.next !in x.slab
    requires id in x.slab && start <= cursor <= x.slab[id].start < end && Free(x.tree, cursor, x.slab[id].start)
    requires marked <==> (x.slab[id].end <= end || o.endSplit) && |ids| != o.storeStop
    requires x' == StepAfter(x, id, end, o.endSplit, marked) && id in x'.slab
    requires marked ==> x'.slab[id].end == Min(end, x.slab[id].end)
    ensures marked && |ids| != o.uffdStop ==>
              Underway(x0, x', ids + [id], start, x'.slab[id].end, end, end < x.slab[id].end, o)
              && (end < x.slab[id].end ==> x'.slab[id].end == end)
    ensures !(marked && |ids| != o.uffdStop) ==>
              && !GatherWorks(x0.tree, start, end, o)
              && x' == WithMarks(GatherAfter(x0, start, end, o), if marked then ids + [id] else ids)
  {
    hide Consistent, Gathering, Free, Progress, Heads, Crosses, GatherAfter, StepAfter, Marked, SplitAt, Detached;
    ProgressStep(x0.tree, x0.slab, x.slab, ids, id, x.next, start, cursor, end, o, x'.tree, x'.slab);
    StepMarks(x0, x.slab, ids, id, start, cursor, end, o, marked);
    if marked {
      StepDetaches(x, id, end, o.endSplit);
    }
  }

  lemma UnderwayEnd(x0: Space, x: Space, ids: seq<VmaId>, start: int, cursor: int, end: int, cut: bool, o: Outcomes)
    requires Consistent(x.tree, x.slab) && start < end && Free(x.tree, cursor, end)
    requires Gathering(x.tree, x.slab, ids, start, cursor) && Underway(x0, x, ids, start, cursor, end, cut, o)
    ensures GatherWorks(x0.tree, start, end, o) && |ids| == |Heads(x0.tree, start, end)|
    ensures CutOut(x0.tree, x0.slab, x.tree, x.slab, start, end)
    ensures x == WithMarks(GatherAfter(x0, start, end, o), ids)
  {
    hide Consistent, Gathering, Free, Heads, Crosses, GatherAfter, WithMarks, CutOut, SplitAt;
    ProgressEnd(x0.tree, x0.slab, x.tree, x.slab, ids, start, cursor, end, cut, o);
    GatheredAll(x0, start, end, cut, o);
  }

  lemma GatheredAll(x: Space, start: int, end: int, cut: bool, o: Outcomes)
    requires GatherWorks(x.tree, start, end, o) && (cut ==> o.endSplit) && (!cut ==> !Crosses(x.tree, end))
    ensures GatherAfter(x, start, end, o) == if cut then SplitAt(x, end, false) else x
  {
    hide Heads;
  }

  /** `x` with the listed areas marked. */
  ghost function WithMarks(x: Space, ids: seq<VmaId>): Space {
    x.(slab := Marked(x.slab, ids))
  }

  /** One round in terms of the unmarked areas; where it stops, it has come as far as foreseen. */
  lemma StepMarks(x: Space, s: Slab, ids: seq<VmaId>, id: VmaId, start: int, cursor: int, end: int, o: Outcomes,
                  marked: bool)
    requires s == Marked(x.slab, ids) && Consistent(x.tree, s) && x.next !in x.slab
    requires (forall d | d in x.slab :: !x.slab[d].detached)
    requires Gathering(x.tree, s, ids, start, cursor)
    requires Progress(x.tree, x.slab, x.tree, s, |ids|, start, cursor, end, false, o)
    requires id in s && start <= cursor <= s[id].start < end && Free(x.tree, cursor, s[id].start)
    requires marked <==> (s[id].end <= end || o.endSplit) && |ids| != o.storeStop
    ensures StepAfter(WithMarks(x, ids), id, end, o.endSplit, marked) ==
            WithMarks(if end < s[id].end && o.endSplit then SplitAt(x, end, false) else x,
                      if marked then ids + [id] else ids)
    ensures !marked || |ids| == o.uffdStop ==>
              GatherAfter(x, start, end, o) == if end < s[id].end && o.endSplit then SplitAt(x, end, false) else x
  {
    hide Consistent, Gathering, Progress, Marked, SplitOff, SplitAt, GatherAfter;
    FirstAboveIsNew(x.tree, s, ids, start, cursor, id);
    KnownArea(x.tree, s, id);
    MarkedArea(x.slab, ids, id);
    var y := x;
    if end < s[id].end {
      AcrossEnd(x, s, id, end);
      if o.endSplit {
        y := SplitAt(x, end, false);
        SplitMarks(x, ids, id, end);
      }
    }
    MarkedMore(y.slab, ids, id);
    if !marked || |ids| == o.uffdStop {
      StopsHere(x, s, ids, id, start, cursor, end, o);
    }
  }

  lemma MarkedArea(s: Slab, ids: seq<VmaId>, id: VmaId)
    requires id in s && !s[id].detached && id !in ids
    ensures id in Marked(s, ids) && Marked(s, ids)[id] == s[id]
  {
    assert s[id].(detached := s[id].detached) == s[id];
  }

  /** The area that reaches beyond `end` is the one across it. */
  lemma AcrossEnd(x: Space, s: Slab, id: VmaId, end: int)
    requires Consistent(x.tree, s) && id in s && id in x.slab && x.slab[id] == s[id] && s[id].start < end < s[id].end
    ensures Crosses(x.tree, end) && SplitAt(x, end, false) == SplitOff(x, id, end, false)
  {
    assert Holds(s[id], end - 1) && Holds(s[id], end);
  }

  /** Splitting an unmarked area and marking others commute. */
  lemma SplitMarks(x: Space, ids: seq<VmaId>, id: VmaId, end: int)
    requires id in x.slab && x.slab[id].start < end < x.slab[id].end && !x.slab[id].detached && id !in ids
    requires x.next !in ids && id in Marked(x.slab, ids) && Marked(x.slab, ids)[id] == x.slab[id]
    ensures SplitOff(WithMarks(x, ids), id, end, false) == WithMarks(SplitOff(x, id, end, false), ids)
    ensures id in SplitOff(x, id, end, false).slab
  {
    hide Store;
    var y, z := SplitOff(WithMarks(x, ids), id, end, false).slab, Marked(SplitOff(x, id, end, false).slab, ids);
    assert y.Keys == z.Keys;
    forall d | d in y
      ensures y[d] == z[d]
    {
    }
  }

  /** A round that fails is the last one, or comes before the area across the end. */
  lemma StopsHere(x: Space, s: Slab, ids: seq<VmaId>, id: VmaId, start: int, cursor: int, end: int, o: Outcomes)
    requires Consistent(x.tree, s) && Gathering(x.tree, s, ids, start, cursor)
    requires Progress(x.tree, x.slab, x.tree, s, |ids|, start, cursor, end, false, o)
    requires id in s && start <= cursor <= s[id].start < end && Free(x.tree, cursor, s[id].start)
    requires (end < s[id].end && !o.endSplit) || |ids| == o.storeStop || |ids| == o.uffdStop
    ensures GatherAfter(x, start, end, o) == if end < s[id].end && o.endSplit then SplitAt(x, end, false) else x
  {
    hide SplitAt, Heads, Gathering, SplitOff;
    KnownArea(x.tree, s, id);
    var e := Min(end, s[id].end);
    HeadsStep(x.tree, s, ids, start, cursor, id, e);
    HeadsGrow(x.tree, start, e, end);
    if s[id].end <= end {
      if Crosses(x.tree, end) {
        MoreHeads(x.tree, s, id, start, end);
      } else {
        assert SplitAt(x, end, false) == x by {
          NoSplit(x, end);
        }
      }
    }
  }

  lemma NoSplit(x: Space, addr: int)
    requires !Crosses(x.tree, addr)
    ensures SplitAt(x, addr, false) == x
  {
  }

  /** Below an area across the end there is one head more. */
  lemma MoreHeads(t: Tree, s: Slab, id: VmaId, start: int, end: int)
    requires Consistent(t, s) && id in s && start <= s[id].start < s[id].end <= end && Crosses(t, end)
    ensures |Heads(t, start, s[id].end)| < |Heads(t, start, end)|
  {
    var o := Owner(t, end);
    assert Holds(s[o], end) && Holds(s[o], end - 1) && WellFormed(s[o]) && WellFormed(s[id]);
    assert Holds(s[id], s[id].end - 1) && !Holds(s[id], s[id].end);
    Disjoint(t, s, id, o);
    var h := s[o].start;
    assert Holds(s[o], h) && !Holds(s[o], h - 1);
    assert h in Heads(t, start, end) && h !in Heads(t, start, s[id].end);
    SubsetSize(Heads(t, start, s[id].end) + {h}, Heads(t, start, end));
  }

  lemma UncrossedStart(t: Tree, s: Slab, vma: VmaId, start: int)
    requires Consistent(t, s) && vma in s && start <= s[vma].start && Free(t, start, s[vma].start)
    ensures !Crosses(t, start)
  {
    assert WellFormed(s[vma]) && Holds(s[vma], s[vma].start);
    assert !Holds(s[vma], s[vma].start - 1);
  }

  lemma GatheringStart(t: Tree, s: Slab, start: int)
    requires forall id | id in s :: !s[id].detached
    ensures Gathering(t, s, [], start, start)
  {
  }

  lemma GatheringExtend(t: Tree, s: Slab, ids: seq<VmaId>, start: int, cursor: int, end: int)
    requires Gathering(t, s, ids, start, cursor) && Free(t, cursor, end) && cursor <= end
    ensures Gathering(t, s, ids, start, end)
  {
  }

  lemma SumNone(s: Slab, f: Flag)
    ensures SumPagesWith(s, [], f) == 0
  {
  }

  lemma SumMore(s: Slab, s': Slab, ids: seq<VmaId>, id: VmaId, f: Flag)
    requires forall d | d in ids :: d in s && d in s' && s'[d] == s[d]
    requires id in s'
    ensures SumPagesWith(s', ids + [id], f) ==
            SumPagesWith(s, ids, f) + if f in s'[id].flags then VmaPages(s'[id]) else 0
  {
    SumSame(s, s', ids, f);
    assert (ids + [id])[..|ids|] == ids;
  }

  /** The first area above the cursor starts there: everything gathered so far ends at or below it. */
  lemma NextArea(t: Tree, s: Slab, ids: seq<VmaId>, start: int, cursor: int, end: int)
    requires Consistent(t, s) && Gathering(t, s, ids, start, cursor) && start < cursor
    ensures forall d | d in ids :: d in s
    ensures var at := First(t, cursor, end);
            && (at.None? ==> Free(t, cursor, end))
            && (at.Some? ==>
                Owner(t, at.value) in s && s[Owner(t, at.value)].start == at.value && Free(t, cursor, at.value))
  {
    var at := First(t, cursor, end);
    if at.Some? {
      var id := Owner(t, at.value);
      assert Holds(s[id], at.value);
      assert at.value == cursor && cursor - 1 in t ==> Owner(t, cursor - 1) in ids;
      NeighbourStarts(t, s, at.value);
    }
  }

  /** The unwinding at the end of a failed unmap: `mas_for_each` visits the list up to index `end`. */
  method Unwind(mm: Mm, detach: seq<VmaId>, end: int, ghost start: int, ghost cursor: int)
    requires mm.Shaped() && Gathering(mm.tree, mm.slab, detach, start, cursor)
    requires 0 <= start && start + 4096 * |detach| <= cursor <= end
    modifies mm`slab
    ensures mm.Shaped() && mm.NoneDetached() && mm.Sees() == old(mm.Sees())
    ensures mm.slab == Marked(old(mm.slab), [])
  {
    hide Consistent, Seen, Marked, Gathering, Distinct;
    ghost var s := mm.slab;
    GatheredMarks(mm.tree, s, detach, start, cursor);
    var i := 0;
    while i < |detach| && i <= end
      invariant 0 <= i <= |detach| <= end
      invariant mm.Shaped() && mm.Sees() == old(mm.Sees())
      invariant mm.slab == Marked(s, detach[i..])
    {
      var id := detach[i];
      assert id in detach;
      UnmarkKeeps(mm.tree, mm.slab, id);
      MarkedLess(s, detach, i);
      mm.slab := mm.slab[id := mm.slab[id].(detached := false)];
      i := i + 1;
    }
    assert detach[i..] == [];
    UnmarkedAll(s);
  }

  lemma UnmarkedAll(s: Slab)
    ensures forall id | id in Marked(s, []) :: !Marked(s, [])[id].detached
  {
  }

  /** Exactly the gathered areas are marked. */
  lemma GatheredMarks(t: Tree, s: Slab, ids: seq<VmaId>, start: int, cursor: int)
    requires Gathering(t, s, ids, start, cursor)
    ensures Marked(s, ids[0..]) == s && Distinct(ids) && forall d | d in ids :: d in s
  {
    forall id | id in s
      ensures Marked(s, ids[0..])[id] == s[id]
    {
      assert s[id].(detached := s[id].detached) == s[id];
    }
  }

  lemma MarkedLess(s: Slab, ids: seq<VmaId>, i: int)
    requires 0 <= i < |ids| && ids[i] in s && Distinct(ids)
    ensures var m := Marked(s, ids[i..]);
            m[ids[i] := m[ids[i]].(detached := false)] == Marked(s, ids[i + 1..])
  {
    assert ids[i..] == [ids[i]] + ids[i + 1..];
  }

  /** Taking the marks off again, or dropping what is marked. */
  lemma MarksOff(s: Slab, ids: seq<VmaId>)
    requires forall id | id in s :: !s[id].detached
    ensures Marked(Marked(s, ids), []) == s && Marked(s, ids) - IdSet(ids) == s - IdSet(ids)
  {
    forall id | id in s
      ensures Marked(Marked(s, ids), [])[id] == s[id] && (id !in ids ==> Marked(s, ids)[id] == s[id])
    {
      assert s[id].(detached := s[id].detached) == s[id];
    }
  }

  lemma UnmarkKeeps(t: Tree, s: Slab, id: VmaId)
    requires Consistent(t, s) && id in s
    ensures var s' := s[id := s[id].(detached := false)];
            Consistent(t, s') && Seen(t, s') == Seen(t, s) && s'.Keys == s.Keys && |s'| == |s|
  {
    assert WellFormed(s[id]);
    MarkKeeps(t, s, id, s[id].(detached := false));
    assert s[id := s[id].(detached := false)].Keys == s.Keys;
  }

  lemma RemoveNone(s: Slab, ids: seq<VmaId>, f: Flag)
    ensures SumPages(s, ids[..0]) == 0 && SumPagesWith(s, ids[..0], f) == 0 && s - IdSet(ids[..0]) == s
  {
  }

  lemma RemoveStep(s: Slab, ids: seq<VmaId>, i: int, f: Flag)
    requires Distinct(ids) && 0 <= i < |ids| && forall d | d in ids :: d in s
    ensures var id := ids[i];
            && id in s - IdSet(ids[..i])
            && s - IdSet(ids[..i + 1]) == s - IdSet(ids[..i]) - {id}
            && SumPages(s, ids[..i + 1]) == SumPages(s, ids[..i]) + VmaPages(s[id])
            && SumPagesWith(s, ids[..i + 1], f) ==
               SumPagesWith(s, ids[..i], f) + if f in s[id].flags then VmaPages(s[id]) else 0
  {
    var id := ids[i];
    assert id in ids && id !in ids[..i];
    assert ids[..i + 1][..i] == ids[..i];
    assert IdSet(ids[..i + 1]) == IdSet(ids[..i]) + {id};
  }

  /** `remove_mt`: take every gathered area off the statistics and free it. */
  method RemoveMt(mm: Mm, commit: Commit, detach: seq<VmaId>)
    requires Distinct(detach) && forall d | d in detach :: d in mm.slab
    modifies mm`totalVm, mm`slab, commit
    ensures mm.slab == old(mm.slab) - IdSet(detach)
    ensures mm.totalVm == old(mm.totalVm) - SumPages(old(mm.slab), detach)
    ensures commit.pages == old(commit.pages) - SumPagesWith(old(mm.slab), detach, Account)
  {
    hide SumPages, SumPagesWith, Distinct, IdSet, VmaPages;
    ghost var s := mm.slab;
    var nrAccounted := 0;
    RemoveNone(s, detach, Account);
    var i := 0;
    while i < |detach|
      invariant 0 <= i <= |detach|
      invariant mm.slab == s - IdSet(detach[..i])
      invariant forall d | d in detach[..i] :: d in s
      invariant mm.totalVm == old(mm.totalVm) - SumPages(s, detach[..i])
      invariant nrAccounted == SumPagesWith(s, detach[..i], Account) && commit.pages == old(commit.pages)
    {
      var id := detach[i];
      RemoveStep(s, detach, i, Account);
      if Account in mm.slab[id].flags {
        nrAccounted := nrAccounted + VmaPages(mm.slab[id]);
      }
      mm.totalVm := mm.totalVm - VmaPages(mm.slab[id]);
      mm.slab := mm.slab - {id};
      i := i + 1;
    }
    assert detach[..i] == detach;
    commit.pages := commit.pages - nrAccounted;
  }

  /** The part of `do_vmi_align_munmap` after the first split: gather, clear, account, free. */
  method DetachRange(mm: Mm, commit: Commit, vma: VmaId, start: int, end: int, o: Outcomes) returns (ok: bool)
    requires mm.Valid() && vma in mm.slab && 0 <= start < end && Aligned(end)
    requires start <= mm.slab[vma].start < end && Free(mm.tree, start, mm.slab[vma].start)
    modifies mm`tree, mm`slab, mm`nextId, mm`mapCount, mm`totalVm, mm`lockedVm, commit
    ensures mm.Valid()
    ensures ok ==> mm.Sees() == Without(old(mm.Sees()), start, end)
    ensures !ok ==> mm.Sees() == old(mm.Sees()) && mm.totalVm == old(mm.totalVm) && mm.lockedVm == old(mm.lockedVm)
    ensures ToBytes(commit.pages) - mm.Charge() == old(ToBytes(commit.pages) - mm.Charge())
    ensures ok ==> mm.mapCount <= old(mm.mapCount) - if end < old(mm.slab[vma]).end then 0 else 1
    ensures ok <==> old(GatherWorks(mm.tree, start, end, o)) && o.clear
    ensures ok ==> CutOut(old(mm.tree), old(mm.slab), mm.tree, mm.slab, start, end)
    ensures mm.Now() == old(DetachAfter(mm.Now(), start, end, o))
  {
    hide Consistent, Seen, Gathering, SumPagesWith, SumPages, Free, Bytes, BytesWith, Distinct, Clear, Without;
    hide CutOut, GatherWorks, Heads, GatherAfter, Marked, IdSet, Owners;
    ok := false;
    ghost var y, v := GatherAfter(mm.Now(), start, end, o), mm.Sees();
    GatherUnmarked(mm.Now(), start, end, o);
    var gathered, detach, locked, cursor := Gather(mm, vma, start, end, o);
    MarksOff(y.slab, detach);
    if !gathered || !o.clear {
      Unwind(mm, detach, end, start, cursor);
      return;
    }
    ListedOwners(mm.tree, mm.slab, detach, start, end);
    ClearOutside(old(mm.tree), old(mm.slab), mm.tree, mm.slab, detach, start, end);
    DropRange(mm, commit, detach, locked, start, end);
    ok := true;
  }

  /** The end of a successful unmap: clear the tree, settle the counters, free the areas. */
  method DropRange(mm: Mm, commit: Commit, detach: seq<VmaId>, locked: int, start: int, end: int)
    requires mm.Shaped() && mm.Counted() && mm.BrkInside() && Gathering(mm.tree, mm.slab, detach, start, end)
    requires (forall d | d in detach :: d in mm.slab) && locked == SumPagesWith(mm.slab, detach, Locked)
    modifies mm`tree, mm`slab, mm`mapCount, mm`totalVm, mm`lockedVm, commit
    ensures mm.Valid() && mm.Sees() == Without(old(mm.Sees()), start, end)
    ensures ToBytes(commit.pages) - mm.Charge() == old(ToBytes(commit.pages) - mm.Charge())
    ensures mm.tree == Clear(old(mm.tree), start, end) && mm.slab == old(mm.slab) - IdSet(detach)
    ensures mm.mapCount == old(mm.mapCount) - |detach|
  {
    hide Consistent, Seen, Gathering, SumPagesWith, SumPages, Bytes, BytesWith, Distinct, Clear, Without;
    ClearCounts(mm.tree, mm.slab, detach, start, end);
    mm.tree := Clear(mm.tree, start, end);
    mm.lockedVm := mm.lockedVm - locked;
    mm.mapCount := mm.mapCount - |detach|;
    RemoveMt(mm, commit, detach);
  }

  /** Splitting marks nothing. */
  lemma GatherUnmarked(x: Space, start: int, end: int, o: Outcomes)
    requires forall id | id in x.slab :: !x.slab[id].detached
    ensures var y := GatherAfter(x, start, end, o);
            forall id | id in y.slab :: !y.slab[id].detached
  {
  }

  lemma ListedOwners(t: Tree, s: Slab, ids: seq<VmaId>, start: int, end: int)
    requires Consistent(t, s) && Gathering(t, s, ids, start, end)
    ensures IdSet(ids) == Owners(t, start, end) && forall d | d in ids :: d in s
  {
    forall id | id in ids
      ensures id in Owners(t, start, end)
    {
      assert WellFormed(s[id]) && Holds(s[id], s[id].start);
      assert Owner(t, s[id].start) == id;
    }
  }

  /** Clearing a gathered range leaves the areas outside alone. */
  lemma ClearOutside(t0: Tree, s0: Slab, t: Tree, s: Slab, ids: seq<VmaId>, start: int, end: int)
    requires Consistent(t, s) && Gathering(t, s, ids, start, end) && CutOut(t0, s0, t, s, start, end)
    ensures CutOut(t0, s0, Clear(t, start, end), s - IdSet(ids), start, end)
  {
    hide CutAt;
    forall a | a < start || end <= a
      ensures AreaAt(Clear(t, start, end), s - IdSet(ids), a) == CutAt(t0, s0, start, end, a)
    {
      assert AreaAt(t, s, a) == CutAt(t0, s0, start, end, a);
      if a in t {
        var v := Owner(t, a);
        assert Holds(s[v], a);
        assert v !in ids;
      }
    }
  }

  /** What clearing a gathered range does to shape, view and tallies. */
  lemma ClearCounts(t: Tree, s: Slab, ids: seq<VmaId>, start: int, end: int)
    requires Consistent(t, s) && Gathering(t, s, ids, start, end)
    ensures Distinct(ids) && (forall d | d in ids :: d in s)
    ensures var t', s' := Clear(t, start, end), s - IdSet(ids);
            && Consistent(t', s') && Seen(t', s') == Without(Seen(t, s), start, end)
            && Dropped(s, ids, s')
            && Bytes(Seen(t', s')) == Bytes(Seen(t, s)) - ToBytes(SumPages(s, ids))
            && BytesWith(Seen(t', s'), Locked) == BytesWith(Seen(t, s), Locked) - ToBytes(SumPagesWith(s, ids, Locked))
            && BytesWith(Seen(t', s'), Account) == BytesWith(Seen(t, s),
                                                             Account) - ToBytes(SumPagesWith(s, ids, Account))
  {
    hide Consistent, Seen, Bytes, BytesWith, Clear, Without, Dropped;
    ClearConsistent(t, s, ids, start, end);
    ClearSeen(t, s, ids, start, end);
    MinusTally(t, s, ids, Locked);
    MinusTally(t, s, ids, Account);
    DropIds(t, s, ids, start, end);
  }

  /** `s'` is `s` without the listed areas, and none of the rest is marked. */
  ghost predicate Dropped(s: Slab, ids: seq<VmaId>, s': Slab) {
    && |s'| == |s| - |ids|
    && forall id | id in s' :: id in s && !s'[id].detached
  }

  lemma DropIds(t: Tree, s: Slab, ids: seq<VmaId>, start: int, end: int)
    requires Gathering(t, s, ids, start, end)
    ensures Dropped(s, ids, s - IdSet(ids))
  {
    IdSetSize(ids);
    assert (s - IdSet(ids)).Keys == s.Keys - IdSet(ids);
    assert s.Keys == (s.Keys - IdSet(ids)) + IdSet(ids);
  }

  /** The first area of a range tells whether one lies across its start, or across all of it. */
  lemma FirstCrosses(t: Tree, s: Slab, vma: VmaId, start: int, end: int)
    requires Consistent(t, s) && vma in s && 0 <= start < end
    requires s[vma].start < end && start < s[vma].end && Free(t, start, s[vma].start)
    ensures Crosses(t, start) <==> s[vma].start < start
    ensures Hole(t, start, end) <==> s[vma].start < start && end < s[vma].end
  {
    if s[vma].start < start {
      assert Holds(s[vma], start - 1) && Holds(s[vma], start);
      assert end < s[vma].end <==> Holds(s[vma], end);
    } else {
      UncrossedStart(t, s, vma, start);
      if Hole(t, start, end) {
        NoArea(t, s, Owner(t, start - 1), start - 1, start);
      }
    }
  }

  /** Splitting at the start of the range changes neither its areas nor, in the end, what is left outside. */
  lemma StartSplitKeeps(t: Tree, s: Slab, vma: VmaId, newId: VmaId, start: int, end: int)
    requires Consistent(t, s) && vma in s && newId !in s
    requires s[vma].start < start < s[vma].end && Aligned(start) && start < end
    ensures var low := Part(s[vma], start, true);
            var t', s' := Store(t, low.start, low.end, newId), s[vma := Part(s[vma], start, false)][newId := low];
            && Heads(t', start, end) == Heads(t, start, end)
            && (Crosses(t', end) <==> Crosses(t, end))
            && forall a | a < start || end <= a :: CutAt(t', s', start, end, a) == CutAt(t, s, start, end, a)
  {
    var v, low := s[vma], Part(s[vma], start, true);
    var t', s' := Store(t, low.start, low.end, newId), s[vma := Part(s[vma], start, false)][newId := low];
    assert WellFormed(v);
    assert forall a | start < a :: Crosses(t', a) <==> Crosses(t, a);
    assert Heads(t', start, end) == Heads(t, start, end);
    forall a | a < start || end <= a
      ensures CutAt(t', s', start, end, a) == CutAt(t, s, start, end, a)
    {
      SplitCutAt(t, s, vma, newId, start, end, a);
    }
  }

  lemma SplitCutAt(t: Tree, s: Slab, vma: VmaId, newId: VmaId, start: int, end: int, a: int)
    requires Consistent(t, s) && vma in s && newId !in s && (a < start || end <= a)
    requires s[vma].start < start < s[vma].end && Aligned(start) && start < end
    ensures var low := Part(s[vma], start, true);
            var t', s' := Store(t, low.start, low.end, newId), s[vma := Part(s[vma], start, false)][newId := low];
            CutAt(t', s', start, end, a) == CutAt(t, s, start, end, a)
  {
    hide WellFormed;
    KnownArea(t, s, vma);
    assert Holds(s[vma], a) ==> a in t && Owner(t, a) == vma;
    if a in t {
      var o := Owner(t, a);
      assert Holds(s[o], a);
      if o == vma {
        PartOfPart(s[vma], start, end, a);
      }
    }
  }

  /** Cutting a part gives the same as cutting the whole. */
  lemma PartOfPart(v: Vma, start: int, end: int, a: int)
    requires v.start < start < v.end && start < end && Aligned(v.start) && Aligned(start)
    requires Holds(v, a) && (a < start || end <= a)
    ensures Outside(Part(v, start, a < start), start, end, a) == Outside(v, start, end, a)
  {
  }

  /** `do_vmi_align_munmap`: it works exactly when the outcomes it asks for are good, and then all of
      [start, end) disappears from the view and the areas outside are at most cut off; otherwise no
      address sees a change. */
  method AlignMunmap(mm: Mm, commit: Commit, vma: VmaId, start: int, end: int, maxMapCount: int, o: Outcomes)
    returns (ok: bool)
    requires mm.Valid() && vma in mm.slab && 0 <= start < end && Aligned(start) && Aligned(end)
    requires mm.slab[vma].start < end && start < mm.slab[vma].end && Free(mm.tree, start, mm.slab[vma].start)
    modifies mm`tree, mm`slab, mm`nextId, mm`mapCount, mm`totalVm, mm`lockedVm, commit
    ensures mm.Valid()
    ensures ok <==> old(UnmapWorks(mm.tree, mm.mapCount, start, end, maxMapCount, o))
    ensures ok ==> mm.Sees() == Without(old(mm.Sees()), start, end)
    ensures ok ==> CutOut(old(mm.tree), old(mm.slab), mm.tree, mm.slab, start, end)
    ensures !ok ==> mm.Sees() == old(mm.Sees()) && mm.totalVm == old(mm.totalVm) && mm.lockedVm == old(mm.lockedVm)
    ensures ToBytes(commit.pages) - mm.Charge() == old(ToBytes(commit.pages) - mm.Charge())
    ensures ok && old(mm.mapCount) <= maxMapCount ==> mm.mapCount <= maxMapCount
    ensures mm.Now() == old(UnmapAfter(mm.Now(), mm.mapCount, start, end, maxMapCount, o))
  {
    hide Consistent, Seen, Free, Bytes, BytesWith, Store, Without, Heads, Crosses, Hole, AreaAt, CutAt;
    hide DetachAfter, SplitAt;
    ok := false;
    StartSplit(mm.Now(), vma, start);
    FirstCrosses(mm.tree, mm.slab, vma, start, end);
    if start > mm.slab[vma].start {
      if end < mm.slab[vma].end && mm.mapCount >= maxMapCount {
        return;
      }
      FreshId(mm);
      StartSplitKeeps(mm.tree, mm.slab, vma, mm.nextId, start, end);
      var r := SplitUnchecked(mm, vma, start, true, o.startSplit);
      if r.Null? {
        return;
      }
    }
    NothingFree(mm.tree, start, mm.slab[vma].start);
    ok := DetachRange(mm, commit, vma, start, end, o);
  }

  /** The first split is that of the area across the start, if there is one. */
  lemma StartSplit(x: Space, vma: VmaId, start: int)
    requires Consistent(x.tree, x.slab) && vma in x.slab && start < x.slab[vma].end
    requires Free(x.tree, start, x.slab[vma].start)
    ensures SplitAt(x, start, true) == if x.slab[vma].start < start then SplitOff(x, vma, start, true) else x
  {
    if x.slab[vma].start < start {
      assert Holds(x.slab[vma], start - 1) && Holds(x.slab[vma], start);
    } else {
      UncrossedStart(x.tree, x.slab, vma, start);
    }
  }

  lemma FreshId(mm: Mm)
    requires mm.Shaped()
    ensures mm.nextId !in mm.slab
  {
  }

  lemma NothingFree(t: Tree, start: int, end: int)
    ensures end <= start ==> Free(t, start, end)
  {
  }

  /** The ranges `do_vmi_munmap` rejects before touching anything. */
  predicate BadRange(start: int, len: int) {
    !Aligned(start) || start > TASK_SIZE || len > TASK_SIZE - start || len == 0
  }

  /** A range is accepted if and only if it starts on a page, is not empty and lies in the user address space; the
      length need not be a multiple of the page size, and rounded up it still lies there. */
  lemma GoodRangeExact(start: int, len: int)
    requires 0 <= start < WORD && 0 <= len < WORD
    ensures !BadRange(start, len) <==> start % 4096 == 0 && 0 < len && start + len <= TASK_SIZE
    ensures !BadRange(start, len) ==> len <= RoundUp(len) && start + RoundUp(len) <= TASK_SIZE
  {
  }

  /** There is nothing to unmap, or unmapping it works. */
  ghost predicate Unmappable(t: Tree, mapCount: int, start: int, end: int, maxMapCount: int, o: Outcomes) {
    Free(t, start, end) || UnmapWorks(t, mapCount, start, end, maxMapCount, o)
  }

  /** With good outcomes only a hole at the limit is in the way. */
  lemma UnmapsWell(t: Tree, mapCount: int, start: int, end: int, maxMapCount: int, o: Outcomes)
    requires o.AllWell()
    ensures UnmapWorks(t, mapCount, start, end, maxMapCount, o) <==> !(Hole(t, start, end) && maxMapCount <= mapCount)
  {
  }

  /** `do_vmi_munmap` on any 64-bit start and length. */
  method DoMunmap(mm: Mm, commit: Commit, start: int, len: int, maxMapCount: int, o: Outcomes) returns (err: Errno)
    requires mm.Valid() && 0 <= start < WORD && 0 <= len < WORD
    modifies mm`tree, mm`slab, mm`nextId, mm`mapCount, mm`totalVm, mm`lockedVm, commit
    ensures mm.Valid()
    ensures err == EINVAL <==> BadRange(start, len)
    ensures err.Success? ==> mm.Sees() == Without(old(mm.Sees()), start, start + RoundUp(len))
    ensures !err.Success? ==> mm.Sees() == old(mm.Sees()) && mm.totalVm == old(mm.totalVm)
    ensures ToBytes(commit.pages) - mm.Charge() == old(ToBytes(commit.pages) - mm.Charge())
    ensures err.Success? && old(mm.mapCount) <= maxMapCount ==> mm.mapCount <= maxMapCount
    ensures err.Success? <==> !BadRange(start, len) && old(Unmappable(mm.tree, mm.mapCount, start,
                                                                      start + RoundUp(len), maxMapCount, o))
    ensures err.Success? ==> CutOut(old(mm.tree), old(mm.slab), mm.tree, mm.slab, start, start + RoundUp(len))
    ensures err in {Success, EINVAL, ENOMEM}
    ensures mm.Now() == old(MunmapAfter(mm.Now(), mm.mapCount, start, len, maxMapCount, o))
  {
    hide Consistent, Seen, Free, Bytes, BytesWith, WellFormed, CutOut, UnmapWorks, UnmapAfter;
    if !Aligned(start) || start > TASK_SIZE || len > TASK_SIZE - start {
      return EINVAL;
    }
    var end := start + PageAlign(len);
    assert PageAlign(len) == RoundUp(len);
    if end == start {
      return EINVAL;
    }
    var at := First(mm.tree, start, end);
    FirstArea(mm.tree, mm.slab, start, end);
    if at.None? {
      NothingCut(mm.tree, mm.slab, start, end);
      return Success;
    }
    var ok := AlignMunmap(mm, commit, Owner(mm.tree, at.value), start, end, maxMapCount, o);
    err := if ok then Success else ENOMEM;
  }

  lemma NothingCut(t: Tree, s: Slab, start: int, end: int)
    requires Consistent(t, s) && start < end && First(t, start, end).None?
    ensures Free(t, start, end) && CutOut(t, s, t, s, start, end)
  {
    forall a | a < start || end <= a
      ensures AreaAt(t, s, a) == CutAt(t, s, start, end, a)
    {
      if a in t {
        NoArea(t, s, Owner(t, a), a, start);
        NoArea(t, s, Owner(t, a), a, end);
      }
    }
  }

  /** The first area of a range, as the search finds it; with none, the range is invisible. */
  lemma FirstArea(t: Tree, s: Slab, start: int, end: int)
    requires Consistent(t, s)
    ensures var at := First(t, start, end);
            && (at.None? ==> Without(Seen(t, s), start, end) == Seen(t, s))
            && (at.Some? ==> !Free(t, start, end))
            && (at.Some? ==>
                  var id := Owner(t, at.value);
                  && id in s && s[id].start < end && start < s[id].end && Free(t, start, s[id].start))
  {
    var at := First(t, start, end);
    if at.Some? {
      var id := Owner(t, at.value);
      assert Holds(s[id], at.value);
    }
  }
}
