/** The two ways an operation reshapes the tree: one area grows over free space and over areas
    that disappear, or one area grows at the expense of a neighbour. */
module Reshaping {
  import opened Vmas
  import opened Trees

  // ---------------------------------------------------------------- an area grows

  /** Area `p` may become `np` while the areas in `dead` disappear. */
  ghost predicate CanGrow(t: Tree, s: Slab, p: VmaId, np: Vma, dead: set<VmaId>) {
    && p in s && p !in dead && dead <= s.Keys
    && WellFormed(np)
    && (forall a | Holds(s[p], a) :: Holds(np, a))
    && (forall d, a {:trigger Holds(s[d], a)} | d in dead && Holds(s[d], a) :: Holds(np, a))
    && (forall a | Holds(np, a) && a in t :: t[a] == p || t[a] in dead)
  }

  lemma GrowConsistent(t: Tree, s: Slab, p: VmaId, np: Vma, dead: set<VmaId>)
    requires Consistent(t, s) && CanGrow(t, s, p, np, dead)
    ensures Consistent(Store(t, np.start, np.end, p), s[p := np] - dead)
  {
    var t', s' := Store(t, np.start, np.end, p), s[p := np] - dead;
    forall a | a in t'
      ensures Owner(t', a) in s' && Holds(s'[Owner(t', a)], a)
    {
      if !Holds(np, a) {
        var id := Owner(t, a);
        assert Holds(s[id], a);
      }
    }
    forall id, a | id in s' && Holds(s'[id], a)
      ensures a in t' && t'[a] == id
    {
      if id != p {
        assert Holds(s[id], a) && t[a] == id;
      }
    }
  }

  /** If `np` continues what `p` and the other surviving addresses showed, the only addresses
      that see something new are those of `want`. */
  lemma GrowSeen(t: Tree, s: Slab, p: VmaId, np: Vma, dead: set<VmaId>, want: Vma)
    requires Consistent(t, s) && CanGrow(t, s, p, np, dead)
    requires forall a | Holds(want, a) :: Holds(np, a) && AttrAt(np, a) == AttrAt(want, a)
    requires forall a | Holds(np, a) && !Holds(want, a) ::
               a in t && AttrAt(s[Owner(t, a)], a) == AttrAt(np, a)
    ensures Seen(Store(t, np.start, np.end, p), s[p := np] - dead) == Override(Seen(t, s), want)
  {
    var t', s' := Store(t, np.start, np.end, p), s[p := np] - dead;
    var v, w := Override(Seen(t, s), want), Seen(t', s');
    forall a
      ensures Look(w, a) == Look(v, a)
    {
      GrowSeenAt(t, s, p, np, dead, want, a);
    }
    SameLooks(w, v);
  }

  lemma GrowSeenAt(t: Tree, s: Slab, p: VmaId, np: Vma, dead: set<VmaId>, want: Vma, a: int)
    requires Consistent(t, s) && CanGrow(t, s, p, np, dead)
    requires Holds(want, a) ==> Holds(np, a) && AttrAt(np, a) == AttrAt(want, a)
    requires Holds(np, a) && !Holds(want, a) ==> a in t && AttrAt(s[Owner(t, a)], a) == AttrAt(np, a)
    ensures Look(Seen(Store(t, np.start, np.end, p), s[p := np] - dead), a) ==
            Look(Override(Seen(t, s), want), a)
  {
    hide AttrAt, WellFormed;
    if !Holds(np, a) && a in t {
      var id := Owner(t, a);
      assert Holds(s[id], a) && id != p && id !in dead;
    }
  }

  // ---------------------------------------------------------------- a boundary shifts

  /** Area `g` may become `ng` by taking from `l`, which keeps `nl`. */
  ghost predicate CanShift(s: Slab, g: VmaId, ng: Vma, l: VmaId, nl: Vma) {
    && g in s && l in s && g != l
    && WellFormed(ng) && WellFormed(nl)
    && (forall a | Holds(s[g], a) :: Holds(ng, a))
    && (forall a | Holds(ng, a) :: Holds(s[g], a) || Holds(s[l], a))
    && (forall a :: Holds(nl, a) <==> Holds(s[l], a) && !Holds(ng, a))
  }

  lemma ShiftConsistent(t: Tree, s: Slab, g: VmaId, ng: Vma, l: VmaId, nl: Vma)
    requires Consistent(t, s) && CanShift(s, g, ng, l, nl)
    ensures Consistent(Store(t, ng.start, ng.end, g), s[g := ng][l := nl])
  {
    hide WellFormed;
    var t', s' := Store(t, ng.start, ng.end, g), s[g := ng][l := nl];
    forall a | a in t'
      ensures Owner(t', a) in s' && Holds(s'[Owner(t', a)], a)
    {
      if !Holds(ng, a) {
        var id := Owner(t, a);
        assert Holds(s[id], a);
      }
    }
    forall id, a | id in s' && Holds(s'[id], a)
      ensures a in t' && t'[a] == id
    {
      if id != g {
        assert Holds(s[id], a) && t[a] == id;
        assert !Holds(ng, a);
      }
    }
  }

  lemma ShiftSeen(t: Tree, s: Slab, g: VmaId, ng: Vma, l: VmaId, nl: Vma, want: Vma)
    requires Consistent(t, s) && CanShift(s, g, ng, l, nl)
    requires forall a :: Holds(ng, a) <==> Holds(s[g], a) || Holds(want, a)
    requires forall a | Holds(want, a) :: AttrAt(ng, a) == AttrAt(want, a)
    requires forall a | Holds(s[g], a) :: AttrAt(ng, a) == AttrAt(s[g], a)
    requires forall a | Holds(nl, a) :: AttrAt(nl, a) == AttrAt(s[l], a)
    ensures Seen(Store(t, ng.start, ng.end, g), s[g := ng][l := nl]) == Override(Seen(t, s), want)
  {
    var t', s' := Store(t, ng.start, ng.end, g), s[g := ng][l := nl];
    var v, w := Override(Seen(t, s), want), Seen(t', s');
    forall a
      ensures Look(w, a) == Look(v, a)
    {
      ShiftSeenAt(t, s, g, ng, l, nl, want, a);
    }
    SameLooks(w, v);
  }

  lemma ShiftSeenAt(t: Tree, s: Slab, g: VmaId, ng: Vma, l: VmaId, nl: Vma, want: Vma, a: int)
    requires Consistent(t, s) && CanShift(s, g, ng, l, nl)
    requires Holds(ng, a) <==> Holds(s[g], a) || Holds(want, a)
    requires Holds(want, a) ==> AttrAt(ng, a) == AttrAt(want, a)
    requires Holds(s[g], a) ==> AttrAt(ng, a) == AttrAt(s[g], a)
    requires Holds(nl, a) ==> AttrAt(nl, a) == AttrAt(s[l], a)
    ensures Look(Seen(Store(t, ng.start, ng.end, g), s[g := ng][l := nl]), a) ==
            Look(Override(Seen(t, s), want), a)
  {
    hide AttrAt, WellFormed;
    if Holds(s[g], a) {
      assert t[a] == g;
    } else if a in t {
      var id := Owner(t, a);
      assert Holds(s[id], a) && id != g;
    }
  }

  // ---------------------------------------------------------------- anon_vmas

  /** Every address whose area had an anon_vma still leads to an area with that anon_vma. */
  ghost predicate AnonKept(t: Tree, s: Slab, t': Tree, s': Slab)
    requires TreeSound(t, s) && TreeSound(t', s')
  {
    forall a | a in t && s[Owner(t, a)].anonVma.Some? ::
      a in t' && s'[Owner(t', a)].anonVma == s[Owner(t, a)].anonVma
  }

  /** The anon_vma of `v`, if any, is the anon_vma of `w`. */
  predicate AnonInto(v: Vma, w: Vma) {
    v.anonVma.Some? ==> w.anonVma == v.anonVma
  }

  lemma GrowAnon(t: Tree, s: Slab, p: VmaId, np: Vma, dead: set<VmaId>)
    requires Consistent(t, s) && CanGrow(t, s, p, np, dead)
    requires AnonInto(s[p], np) && forall d | d in dead :: AnonInto(s[d], np)
    ensures Consistent(Store(t, np.start, np.end, p), s[p := np] - dead)
    ensures AnonKept(t, s, Store(t, np.start, np.end, p), s[p := np] - dead)
  {
    hide WellFormed;
    GrowConsistent(t, s, p, np, dead);
    forall a | a in t && s[Owner(t, a)].anonVma.Some?
      ensures (s[p := np] - dead)[Owner(Store(t, np.start, np.end, p), a)].anonVma == s[Owner(t, a)].anonVma
    {
      var id := Owner(t, a);
      assert Holds(s[id], a);
    }
  }

  lemma ShiftAnon(t: Tree, s: Slab, g: VmaId, ng: Vma, l: VmaId, nl: Vma)
    requires Consistent(t, s) && CanShift(s, g, ng, l, nl)
    requires AnonInto(s[g], ng) && AnonInto(s[l], ng) && nl.anonVma == s[l].anonVma
    ensures Consistent(Store(t, ng.start, ng.end, g), s[g := ng][l := nl])
    ensures AnonKept(t, s, Store(t, ng.start, ng.end, g), s[g := ng][l := nl])
  {
    hide WellFormed;
    ShiftConsistent(t, s, g, ng, l, nl);
    forall a | a in t && s[Owner(t, a)].anonVma.Some?
      ensures s[g := ng][l := nl][Owner(Store(t, ng.start, ng.end, g), a)].anonVma == s[Owner(t, a)].anonVma
    {
      var id := Owner(t, a);
      assert Holds(s[id], a);
      assert Holds(ng, a) ==> Holds(s[g], a) || Holds(s[l], a);
    }
  }

  // ---------------------------------------------------------------- an area is relabelled

  /** Changing what an area shows on exactly its own range. */
  lemma RelabelOwn(t: Tree, s: Slab, id: VmaId, nv: Vma)
    requires Consistent(t, s) && id in s && WellFormed(nv)
    requires nv.start == s[id].start && nv.end == s[id].end
    ensures Consistent(t, s[id := nv])
    ensures Seen(t, s[id := nv]) == Override(Seen(t, s), nv)
  {
    hide Consistent, Seen, Override, Store, CanGrow;
    RelabelCanGrow(t, s, id, nv);
    GrowConsistent(t, s, id, nv, {});
    GrowSeen(t, s, id, nv, {}, nv);
    StoreSame(t, nv.start, nv.end, id);
    assert s[id := nv] - {} == s[id := nv];
  }

  lemma RelabelCanGrow(t: Tree, s: Slab, id: VmaId, nv: Vma)
    requires Consistent(t, s) && id in s && WellFormed(nv)
    requires nv.start == s[id].start && nv.end == s[id].end
    ensures CanGrow(t, s, id, nv, {})
    ensures forall a | Holds(nv, a) :: a in t && t[a] == id
  {
    assert forall a | Holds(nv, a) :: Holds(s[id], a);
  }

  lemma StoreSame(t: Tree, lo: int, hi: int, id: VmaId)
    requires forall a | lo <= a < hi :: a in t && t[a] == id
    ensures Store(t, lo, hi, id) == t
  {
  }

  /** Overriding a view with what it already shows changes nothing. */
  lemma OverrideSame(t: Tree, s: Slab, id: VmaId, nv: Vma)
    requires Consistent(t, s) && id in s && SameKind(nv, s[id])
    requires nv.start == s[id].start && nv.end == s[id].end
    ensures Override(Seen(t, s), nv) == Seen(t, s)
  {
    hide WellFormed, SameKind;
    var v, w := Override(Seen(t, s), nv), Seen(t, s);
    forall a
      ensures Look(v, a) == Look(w, a)
    {
      if Holds(nv, a) {
        assert Holds(s[id], a);
        SameKindSameAttr(nv, s[id], a);
      }
    }
    SameLooks(v, w);
  }

  /** Marking an area, or any other change no address can see, keeps everything else. */
  lemma MarkKeeps(t: Tree, s: Slab, id: VmaId, nv: Vma)
    requires Consistent(t, s) && id in s && WellFormed(nv) && SameKind(nv, s[id])
    requires nv.start == s[id].start && nv.end == s[id].end
    ensures Consistent(t, s[id := nv]) && Seen(t, s[id := nv]) == Seen(t, s)
  {
    hide Consistent, Seen, Override, SameKind, WellFormed;
    RelabelOwn(t, s, id, nv);
    OverrideSame(t, s, id, nv);
  }

  // ---------------------------------------------------------------- an area appears

  /** Storing a new area over free space shows exactly that area there. */
  lemma InsertKeeps(t: Tree, s: Slab, id: VmaId, v: Vma)
    requires Consistent(t, s) && id !in s && WellFormed(v) && Free(t, v.start, v.end)
    ensures Consistent(Store(t, v.start, v.end, id), s[id := v])
    ensures Seen(Store(t, v.start, v.end, id), s[id := v]) == Override(Seen(t, s), v)
  {
    hide Consistent, Seen, Store, Override, Free;
    var t', s' := Store(t, v.start, v.end, id), s[id := v];
    InsertConsistent(t, s, id, v);
    forall a
      ensures Look(Seen(t', s'), a) == Look(Override(Seen(t, s), v), a)
    {
      InsertSeenAt(t, s, id, v, a);
    }
    SameLooks(Seen(t', s'), Override(Seen(t, s), v));
  }

  lemma InsertConsistent(t: Tree, s: Slab, id: VmaId, v: Vma)
    requires Consistent(t, s) && id !in s && WellFormed(v) && Free(t, v.start, v.end)
    ensures Consistent(Store(t, v.start, v.end, id), s[id := v])
  {
    hide WellFormed;
    var t', s' := Store(t, v.start, v.end, id), s[id := v];
    forall i, a | i in s' && Holds(s'[i], a)
      ensures a in t' && t'[a] == i
    {
      if i != id {
        assert Holds(s[i], a);
      }
    }
  }

  lemma InsertSeenAt(t: Tree, s: Slab, id: VmaId, v: Vma, a: int)
    requires Consistent(t, s) && id !in s
    ensures Look(Seen(Store(t, v.start, v.end, id), s[id := v]), a) == Look(Override(Seen(t, s), v), a)
  {
    hide AttrAt, WellFormed;
    if a in t {
      var i := Owner(t, a);
      assert i in s;
    }
  }
}
