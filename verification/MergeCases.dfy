/** What each merge does to the tree and to the view, case by case. */
module MergeCases {
  import opened Pages
  import opened Vmas
  import opened Trees
  import opened Reshaping

  /** A mapping request [start, end) that may be laid over the address space. */
  predicate ValidRequest(want: Vma) {
    && 0 <= want.start < want.end <= TASK_SIZE
    && Aligned(want.start) && Aligned(want.end)
    && 0 <= want.pgoff
  }

  /** `want` re-describes addresses of `v`: same file, same offsets, same anon_vma. */
  predicate Continues(v: Vma, want: Vma) {
    && v.file == want.file
    && v.anonVma == want.anonVma
    && v.pgoff * 4096 - v.start == want.pgoff * 4096 - want.start
  }

  /** First address above the predecessor. */
  function Above(s: Slab, prev: Ref): int
    requires prev.To? ==> prev.id in s
  {
    if prev.To? then s[prev.id].end else 0
  }

  /** What `vma_merge` demands of its callers: `prev` is the area before the request, and the
      request is free, or lies in `prev` above its start, or starts an area that covers it. */
  ghost predicate Callable(t: Tree, s: Slab, prev: Ref, want: Vma) {
    && ValidRequest(want)
    && (prev.To? ==> prev.id in s && s[prev.id].start < want.start)
    && Free(t, Above(s, prev), want.start)
    && (want.start < Above(s, prev) ==> want.end <= Above(s, prev) && Continues(s[prev.id], want))
    && (Above(s, prev) <= want.start ==>
          || Free(t, want.start, want.end)
          || (want.start in t && CoversStart(s, Owner(t, want.start), want)))
  }

  ghost predicate CoversStart(s: Slab, curr: VmaId, want: Vma) {
    curr in s && s[curr].start == want.start && want.end <= s[curr].end && Continues(s[curr], want)
  }

  /** The result of a merge: tree and areas agree, exactly the request's addresses see the
      request, and no address loses its anon_vma. */
  ghost predicate Merged(t: Tree, s: Slab, t': Tree, s': Slab, want: Vma) {
    && Consistent(t, s)
    && Consistent(t', s')
    && Seen(t', s') == Override(Seen(t, s), want)
    && AnonKept(t, s, t', s')
  }

  function Ids(o: Ref): set<VmaId> {
    if o.To? then {o.id} else {}
  }

  /** The areas around a request, as `vma_merge` finds them. */
  ghost predicate Around(t: Tree, s: Slab, prev: Ref, curr: Ref, next: Ref, want: Vma) {
    && (prev.To? ==> prev.id in s)
    && (curr.To? ==> CoversStart(s, curr.id, want) && Above(s, prev) <= want.start && curr != prev)
    && (curr.Null? ==> Free(t, Above(s, prev), want.end))
    && (next.To? ==> next.id in s && (next == prev || s[next.id].start == want.end) && next != curr)
    && (next.To? && curr.To? ==> s[curr.id].end == want.end)
  }

  lemma FindAround(t: Tree, s: Slab, prev: Ref, curr: Ref, next: Ref, want: Vma)
    requires Consistent(t, s) && Callable(t, s, prev, want)
    requires var at := First(t, Above(s, prev), want.end);
             curr == if at.Some? then To(Owner(t, at.value)) else Null
    requires next.To? ==> want.end in t && next.id == Owner(t, want.end)
    requires next.To? && curr.To? ==> s[curr.id].end == want.end
    ensures Around(t, s, prev, curr, next, want)
  {
    if curr.To? {
      var at := First(t, Above(s, prev), want.end).value;
      assert at == want.start;
      assert prev.To? ==> !Holds(s[prev.id], at);
    }
    if next.To? && next != prev {
      var n := next.id;
      assert Holds(s[n], want.end);
      assert prev.To? && want.start < Above(s, prev) ==> Holds(s[prev.id], want.end - 1);
      assert curr.To? ==> Holds(s[curr.id], want.end - 1);
      NeighbourStarts(t, s, want.end);
    }
    if next.To? && curr.To? {
      assert !Holds(s[curr.id], want.end);
    }
  }

  /** A request that lies inside `prev` cannot be joined below `prev` itself. */
  lemma NotBelowItself(s: Slab, prev: VmaId, want: Vma)
    requires prev in s && WellFormed(s[prev]) && ValidRequest(want)
    requires s[prev].start < want.start && Continues(s[prev], want)
    ensures s[prev].pgoff != want.pgoff + VmaPages(want)
  {
  }

  // ---------------------------------------------------------------- cases 1, 2, 3, 6, 7, 8

  /** Cases 1, 2, 3, 6, 7 and 8: `p`, which is the predecessor below or the successor above, becomes
      `np`, covering the request and the other neighbours that are named. */
  lemma GrowCase(t: Tree, s: Slab, below: Ref, curr: Ref, above: Ref,
                 p: VmaId, np: Vma, dead: set<VmaId>, want: Vma)
    requires Consistent(t, s) && ValidRequest(want)
    requires dead == Ids(below) + Ids(curr) + Ids(above) - {p}
    requires p in s && (below == To(p) || above == To(p)) && below != above
    requires below.To? ==> below.id in s && s[below.id].end == want.start && SameKind(s[below.id], want)
    requires above.To? ==> above.id in s && s[above.id].start == want.end && SameKind(s[above.id], want)
    requires curr.To? ==> curr.id in s && curr != below && curr != above
    requires curr.To? ==> s[curr.id].start == want.start && s[curr.id].end == want.end
    requires curr.Null? ==> Free(t, want.start, want.end)
    requires WellFormed(np) && SameKind(np, want)
    requires np.start == if below.To? then s[below.id].start else want.start
    requires np.end == if above.To? then s[above.id].end else want.end
    requires forall d | d in Ids(below) + Ids(curr) + Ids(above) :: AnonInto(s[d], np)
    ensures Merged(t, s, Store(t, np.start, np.end, p), s[p := np] - dead, want)
  {
    hide SameKind;
    GrowCaseOwners(t, s, below, curr, above, np, want);
    assert CanGrow(t, s, p, np, dead);
    GrowAnon(t, s, p, np, dead);
    forall a | Holds(want, a)
      ensures Holds(np, a) && AttrAt(np, a) == AttrAt(want, a)
    {
      SameKindSameAttr(np, want, a);
    }
    forall a | Holds(np, a) && !Holds(want, a)
      ensures a in t && AttrAt(s[Owner(t, a)], a) == AttrAt(np, a)
    {
      SameKindSameAttr(np, want, a);
      if a < want.start {
        SameKindSameAttr(s[below.id], want, a);
      } else {
        SameKindSameAttr(s[above.id], want, a);
      }
    }
    GrowSeen(t, s, p, np, dead, want);
  }

  /** Which areas the addresses of the grown area belong to. */
  lemma GrowCaseOwners(t: Tree, s: Slab, below: Ref, curr: Ref, above: Ref,
                       np: Vma, want: Vma)
    requires Consistent(t, s) && want.start < want.end
    requires below.To? ==> below.id in s && s[below.id].end == want.start
    requires above.To? ==> above.id in s && s[above.id].start == want.end
    requires curr.To? ==> curr.id in s && s[curr.id].start == want.start && s[curr.id].end == want.end
    requires curr.Null? ==> Free(t, want.start, want.end)
    requires np.start == if below.To? then s[below.id].start else want.start
    requires np.end == if above.To? then s[above.id].end else want.end
    ensures forall a | Holds(np, a) && a < want.start :: below.To? && a in t && t[a] == below.id
    ensures forall a | Holds(np, a) && want.end <= a :: above.To? && a in t && t[a] == above.id
    ensures forall a | Holds(want, a) && a in t :: curr.To? && t[a] == curr.id
    ensures forall d, a | d in Ids(below) + Ids(curr) + Ids(above) && Holds(s[d], a) :: Holds(np, a)
  {
    assert below.To? ==> WellFormed(s[below.id]);
    assert above.To? ==> WellFormed(s[above.id]);
    forall a | Holds(np, a) && a < want.start
      ensures below.To? && a in t && t[a] == below.id
    {
      assert Holds(s[below.id], a);
    }
    forall a | Holds(np, a) && want.end <= a
      ensures above.To? && a in t && t[a] == above.id
    {
      assert Holds(s[above.id], a);
    }
    forall a | Holds(want, a) && a in t
      ensures curr.To? && t[a] == curr.id
    {
      assert curr.To? ==> Holds(s[curr.id], a);
    }
  }

  // ---------------------------------------------------------------- cases 4 and 5

  /** Cases 4 and 5: the grower takes exactly the request from the loser. */
  lemma ShiftCase(t: Tree, s: Slab, g: VmaId, ng: Vma, l: VmaId, nl: Vma, want: Vma)
    requires Consistent(t, s) && CanShift(s, g, ng, l, nl)
    requires forall a :: Holds(ng, a) <==> Holds(s[g], a) || Holds(want, a)
    requires SameKind(ng, want) && SameKind(s[g], want) && SameKind(nl, s[l])
    requires AnonInto(s[g], ng) && AnonInto(s[l], ng) && nl.anonVma == s[l].anonVma
    ensures Merged(t, s, Store(t, ng.start, ng.end, g), s[g := ng][l := nl], want)
  {
    hide SameKind;
    ShiftAnon(t, s, g, ng, l, nl);
    forall a
      ensures AttrAt(ng, a) == AttrAt(want, a)
      ensures AttrAt(ng, a) == AttrAt(s[g], a)
      ensures AttrAt(nl, a) == AttrAt(s[l], a)
    {
      SameKindSameAttr(ng, want, a);
      SameKindSameAttr(s[g], want, a);
      SameKindSameAttr(nl, s[l], a);
    }
    ShiftSeen(t, s, g, ng, l, nl, want);
  }
}
