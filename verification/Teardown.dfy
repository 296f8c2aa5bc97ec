/** Releasing an address space (`exit_mmap`), also one that a failed fork left half built. */
module Teardown {
  import opened Pages
  import opened Vmas
  import opened Trees
  import opened AddressSpaces
  import opened Unmapping

  /** The marker a failed fork stores where duplication stopped (XA_ZERO_ENTRY). */
  const XA_ZERO: VmaId := -1

  /** The part of the tree below an address. */
  function LowPart(t: Tree, cut: int): Tree {
    Clear(t, cut, TASK_SIZE)
  }

  /** Below `cut` tree and areas agree; from `cut` on the tree only leads elsewhere, and the first
      thing met there, if anything, is the marker. */
  ghost predicate Partial(t: Tree, s: Slab, cut: int) {
    && Consistent(LowPart(t, cut), s)
    && (forall a | a in t :: 0 <= a < TASK_SIZE)
    && (forall a | a in t && cut <= a :: Owner(t, a) !in s)
    && XA_ZERO !in s
    && var f := First(t, cut, TASK_SIZE);
       f.Some? ==> Owner(t, f.value) == XA_ZERO
  }

  /** A whole address space is the case where nothing lies beyond the cut. */
  lemma WholeIsPartial(t: Tree, s: Slab)
    requires Consistent(t, s) && forall id | id in s :: 0 <= id
    ensures Partial(t, s, TASK_SIZE)
  {
    forall a | a in t
      ensures 0 <= a < TASK_SIZE
    {
      var id := Owner(t, a);
      assert Holds(s[id], a) && WellFormed(s[id]);
    }
    assert LowPart(t, TASK_SIZE) == t;
  }

  /** What is visible through the whole tree is visible through its lower part. */
  lemma LowSeen(t: Tree, s: Slab, cut: int)
    requires forall a | a in t :: 0 <= a < TASK_SIZE
    requires forall a | a in t && cut <= a :: Owner(t, a) !in s
    ensures Seen(LowPart(t, cut), s) == Seen(t, s)
  {
    forall a
      ensures Look(Seen(LowPart(t, cut), s), a) == Look(Seen(t, s), a)
    {
    }
    SameLooks(Seen(LowPart(t, cut), s), Seen(t, s));
  }

  /** The areas released so far are exactly those below the cursor. */
  ghost predicate Released(s: Slab, freed: seq<VmaId>, cursor: int) {
    && Distinct(freed)
    && (forall id | id in freed :: id in s && s[id].end <= cursor)
    && (forall id | id in s && s[id].end <= cursor :: id in freed)
  }

  /** One more area of the walk. */
  lemma ReleaseStep(t: Tree, s: Slab, freed: seq<VmaId>, cursor: int, cut: int)
    requires Partial(t, s, cut) && Released(s, freed, cursor) && 0 <= cursor <= cut
    requires forall id | id in s :: s[id].end <= cursor || cursor <= s[id].start
    requires var f := First(t, cursor, TASK_SIZE);
             f.Some? && Owner(t, f.value) != XA_ZERO
    ensures var id := Owner(t, First(t, cursor, TASK_SIZE).value);
            && id in s && WellFormed(s[id]) && id !in freed && cursor < s[id].end <= TASK_SIZE && s[id].end <= cut
            && Released(s, freed + [id], s[id].end)
            && (forall o | o in s :: s[o].end <= s[id].end || s[id].end <= s[o].start)
  {
    var f := First(t, cursor, TASK_SIZE).value;
    var id := Owner(t, f);
    var low := LowPart(t, cut);
    OwnBelowCut(t, s, cut, cursor);
    assert f in low && Owner(low, f) == id;
    assert Holds(s[id], f) && WellFormed(s[id]);
    assert Holds(s[id], s[id].end - 1);
    forall o | o in s
      ensures s[o].end <= s[id].end || s[id].end <= s[o].start
      ensures s[o].end <= s[id].end ==> o in freed + [id]
    {
      if o != id {
        Disjoint(low, s, o, id);
        assert WellFormed(s[o]);
        if cursor <= s[o].start && s[o].end <= s[id].start {
          assert Holds(s[o], s[o].start);
        }
      }
    }
  }

  /** An entry that is not the marker, met before any marker, is one of our own. */
  lemma OwnBelowCut(t: Tree, s: Slab, cut: int, cursor: int)
    requires Partial(t, s, cut)
    ensures var f := First(t, cursor, TASK_SIZE);
            f.Some? && Owner(t, f.value) != XA_ZERO && cursor <= cut ==> f.value < cut
  {
  }

  /** When the walk meets the marker or the end, every area of the pool has been released. */
  lemma AllReleased(t: Tree, s: Slab, freed: seq<VmaId>, cursor: int, cut: int)
    requires Partial(t, s, cut) && Released(s, freed, cursor) && 0 <= cursor <= cut
    requires forall id | id in s :: s[id].end <= cursor || cursor <= s[id].start
    requires var f := First(t, cursor, TASK_SIZE);
             f.None? || Owner(t, f.value) == XA_ZERO
    ensures IdSet(freed) == s.Keys && |freed| == |s|
  {
    var low := LowPart(t, cut);
    forall id | id in s
      ensures id in freed
    {
      assert WellFormed(s[id]) && Holds(s[id], s[id].start);
      assert s[id].start in low;
    }
    forall id
      ensures id in IdSet(freed) <==> id in s.Keys
    {
    }
    IdSetSize(freed);
  }

  /** `exit_mmap`.  `bug` is its BUG_ON; `freed` lists the areas passed to `remove_vma`. */
  method ExitMmap(mm: Mm, commit: Commit, ghost cut: int) returns (bug: bool, freed: seq<VmaId>)
    requires Partial(mm.tree, mm.slab, cut) && 0 <= cut && mm.mapCount == |mm.slab|
    modifies mm`tree, mm`slab, commit
    ensures !bug
    ensures Distinct(freed) && IdSet(freed) == old(mm.slab).Keys
    ensures mm.tree == map[] && mm.slab == map[]
    ensures ToBytes(commit.pages) == old(ToBytes(commit.pages) - mm.Charge())
  {
    hide Consistent, Seen, Partial, Released, SumPagesWith, BytesWith, IdSet, Distinct;
    bug, freed := false, [];
    var nrAccounted := 0;
    ghost var t, s := mm.tree, mm.slab;
    var cursor := 0;
    var at := First(mm.tree, 0, TASK_SIZE);
    NothingReleased(t, s, cut);
    var entered := at.Some? && Owner(mm.tree, at.value) != XA_ZERO;
    while at.Some? && Owner(mm.tree, at.value) != XA_ZERO
      invariant at == First(mm.tree, cursor, TASK_SIZE) && 0 <= cursor <= cut
      invariant mm.tree == t && mm.slab == s && commit.pages == old(commit.pages)
      invariant Released(s, freed, cursor)
      invariant forall id | id in s :: s[id].end <= cursor || cursor <= s[id].start
      invariant forall id | id in freed :: id in s
      invariant nrAccounted == SumPagesWith(s, freed, Account)
      decreases cut - cursor
    {
      ReleaseStep(t, s, freed, cursor, cut);
      var id := Owner(mm.tree, at.value);
      SumMore(s, s, freed, id, Account);
      if Account in mm.slab[id].flags {
        nrAccounted := nrAccounted + VmaPages(mm.slab[id]);
      }
      cursor := mm.slab[id].end;
      freed := freed + [id];
      at := First(mm.tree, cursor, TASK_SIZE);
    }
    AllReleased(t, s, freed, cursor, cut);
    if entered {
      bug := |freed| != mm.mapCount;
    }
    ReleasedCharge(t, s, freed, cursor, cut);
    mm.tree := map[];
    mm.slab := map[];
    commit.pages := commit.pages - nrAccounted;
  }

  lemma NothingReleased(t: Tree, s: Slab, cut: int)
    requires Partial(t, s, cut)
    ensures Released(s, [], 0) && (forall id | id in s :: 0 <= s[id].start) && SumPagesWith(s, [], Account) == 0
  {
    assert forall id | id in s :: WellFormed(s[id]);
  }

  /** The pages of the released areas with VM_ACCOUNT are the whole charge. */
  lemma ReleasedCharge(t: Tree, s: Slab, freed: seq<VmaId>, cursor: int, cut: int)
    requires Partial(t, s, cut) && Released(s, freed, cursor) && IdSet(freed) == s.Keys
    requires forall id | id in freed :: id in s
    ensures Distinct(freed)
    ensures BytesWith(Seen(t, s), Account) == ToBytes(SumPagesWith(s, freed, Account))
  {
    hide BytesWith, SumPagesWith, SumPages, Minus;
    var low := LowPart(t, cut);
    LowSeen(t, s, cut);
    MinusTally(low, s, freed, Account);
    var rest := Minus(Seen(low, s), s, freed);
    forall a
      ensures Look(rest, a) == None
    {
      MinusAt(Seen(low, s), s, freed, a);
      if a in low {
        var id := Owner(low, a);
        assert id in s.Keys;
        assert id in freed && Holds(s[id], a);
      }
    }
    NothingTally(rest, Account);
  }

  lemma NothingTally(v: View, f: Flag)
    requires forall a :: Look(v, a) == None
    ensures BytesWith(v, f) == 0
  {
    forall a
      ensures a !in v
    {
      assert Look(v, a) == None;
    }
    assert With(v, f) == {};
  }
}
