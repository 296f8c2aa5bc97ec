/** The maple tree as a finite map from every mapped address to the area that maps it,
    the pool of areas it points into, and the address-level view of the two. */
module Trees {
  import opened Pages
  import opened Vmas

  type Tree = map<int, VmaId>
  type Slab = map<VmaId, Vma>
  type View = map<int, Attr>

  // ---------------------------------------------------------------- ranges

  predicate Between(a: int, lo: int, hi: int) {
    lo <= a < hi
  }

  function Range(lo: int, hi: int): set<int> {
    set a: int | lo <= a < hi && Between(a, lo, hi)
  }

  lemma {:induction false} RangeSize(lo: int, hi: int)
    requires lo <= hi
    ensures |Range(lo, hi)| == hi - lo
    decreases hi - lo
  {
    if lo == hi {
      assert Range(lo, hi) == {};
    } else {
      RangeSize(lo, hi - 1);
      assert Range(lo, hi) == Range(lo, hi - 1) + {hi - 1};
    }
  }

  // ---------------------------------------------------------------- tree operations

  /** `vma_iter_store`: every address of [lo, hi) now leads to `id`, whatever it led to before. */
  function Store(t: Tree, lo: int, hi: int, id: VmaId): (r: Tree)
    ensures forall a: int :: a in r <==> a in t || lo <= a < hi
    ensures forall a: int | a in r :: r[a] == if lo <= a < hi then id else t[a]
  {
    t + map a | a in Range(lo, hi) :: id
  }

  /** `vma_iter_clear`: no address of [lo, hi) leads anywhere. */
  function Clear(t: Tree, lo: int, hi: int): (r: Tree)
    ensures forall a: int :: a in r <==> a in t && !(lo <= a < hi)
    ensures forall a: int | a in r :: r[a] == t[a]
  {
    map a | a in t && !(lo <= a < hi) :: t[a]
  }

  /** Lowest mapped address of [lo, hi), as `mas_find` searches upwards. */
  function First(t: Tree, lo: int, hi: int): (r: Option<int>)
    ensures r.Some? ==> lo <= r.value < hi && r.value in t
    ensures forall a: int | lo <= a < hi && a in t :: r.Some? && r.value <= a
    decreases hi - lo
  {
    if hi <= lo then None
    else if lo in t then Some(lo)
    else First(t, lo + 1, hi)
  }

  /** Highest mapped address of [lo, hi), as `mas_prev` searches downwards. */
  function Last(t: Tree, lo: int, hi: int): (r: Option<int>)
    ensures r.Some? ==> lo <= r.value < hi && r.value in t
    ensures forall a: int | lo <= a < hi && a in t :: r.Some? && a <= r.value
    decreases hi - lo
  {
    if hi <= lo then None
    else if hi - 1 in t then Some(hi - 1)
    else Last(t, lo, hi - 1)
  }

  ghost predicate Free(t: Tree, lo: int, hi: int) {
    forall a: int | lo <= a < hi :: a !in t
  }

  // ---------------------------------------------------------------- consistency

  /** The area an address leads to. */
  function Owner(t: Tree, a: int): VmaId
    requires a in t
  {
    t[a]
  }

  ghost predicate AllWellFormed(s: Slab) {
    forall id | id in s :: WellFormed(s[id])
  }

  /** Every tree entry leads to an area that covers its address. */
  ghost predicate TreeSound(t: Tree, s: Slab) {
    forall a | a in t :: Owner(t, a) in s && Holds(s[Owner(t, a)], a)
  }

  /** Every address of an area is in the tree and leads to it. */
  ghost predicate TreeComplete(t: Tree, s: Slab) {
    forall id, a {:trigger Holds(s[id], a)} | id in s && Holds(s[id], a) :: a in t && t[a] == id
  }

  /** Tree and areas agree: what `validate_mm` checks. */
  ghost predicate Consistent(t: Tree, s: Slab) {
    AllWellFormed(s) && TreeSound(t, s) && TreeComplete(t, s)
  }

  /** Every address of [lo, hi) lies in an area marked soft-dirty. */
  ghost predicate AllDirty(t: Tree, s: Slab, lo: int, hi: int) {
    forall a: int | lo <= a < hi :: a in t && Owner(t, a) in s && SoftDirty in s[Owner(t, a)].flags
  }

  /** An area marks the addresses it covers. */
  lemma DirtyArea(t: Tree, s: Slab, id: VmaId, lo: int, hi: int)
    requires Consistent(t, s) && id in s && s[id].start <= lo && hi <= s[id].end && SoftDirty in s[id].flags
    ensures AllDirty(t, s, lo, hi)
  {
    forall a | lo <= a < hi
      ensures a in t && Owner(t, a) == id
    {
      assert Holds(s[id], a);
    }
  }

  lemma LastKnown(t: Tree, s: Slab, lo: int, hi: int)
    requires Consistent(t, s)
    ensures var below := Last(t, lo, hi);
            below.Some? ==> Owner(t, below.value) in s
  {
  }

  /** Distinct areas of a consistent pair lie one wholly below the other. */
  lemma Disjoint(t: Tree, s: Slab, i: VmaId, j: VmaId)
    requires Consistent(t, s) && i in s && j in s && i != j
    ensures s[i].end <= s[j].start || s[j].end <= s[i].start
  {
    var a: int := Max(s[i].start, s[j].start);
    assert Holds(s[i], a) ==> a in t && t[a] == i;
    assert Holds(s[j], a) ==> a in t && t[a] == j;
  }

  // ---------------------------------------------------------------- view

  /** What each address sees.  Tree entries outside the pool are invisible. */
  ghost function Seen(t: Tree, s: Slab): View {
    map a | a in t && Owner(t, a) in s :: AttrAt(s[Owner(t, a)], a)
  }

  /** `v` with every address of `want` given the attributes of `want`. */
  ghost function Override(v: View, want: Vma): (r: View)
    ensures forall a: int :: a in r <==> a in v || Holds(want, a)
    ensures forall a: int | a in r :: r[a] == if Holds(want, a) then AttrAt(want, a) else v[a]
  {
    v + map a | a in Range(want.start, want.end) :: AttrAt(want, a)
  }

  ghost function Without(v: View, lo: int, hi: int): (r: View)
    ensures forall a: int :: a in r <==> a in v && !(lo <= a < hi)
    ensures forall a: int | a in r :: r[a] == v[a]
  {
    map a | a in v && !(lo <= a < hi) :: v[a]
  }

  ghost function Look(v: View, a: int): Option<Attr> {
    if a in v then Some(v[a]) else None
  }

  /** Views that look the same at every address are equal. */
  lemma SameLooks(v: View, w: View)
    requires forall a :: Look(v, a) == Look(w, a)
    ensures v == w
  {
    forall a
      ensures a in v <==> a in w
      ensures a in v ==> v[a] == w[a]
    {
      assert Look(v, a) == Look(w, a);
    }
  }

  /** Addresses seen with a given flag. */
  ghost function With(v: View, f: Flag): set<int> {
    set a | a in v && f in v[a].flags
  }

  /** Number of bytes mapped, mapped with VM_LOCKED, and mapped with VM_ACCOUNT. */
  ghost function Bytes(v: View): nat {
    |v.Keys|
  }

  ghost function BytesWith(v: View, f: Flag): nat {
    |With(v, f)|
  }

  ghost function If(b: bool, n: int): int {
    if b then n else 0
  }

  /** Giving a free range uniform attributes adds exactly its length to the tallies. */
  lemma OverrideTally(v: View, want: Vma, f: Flag)
    requires want.start <= want.end && f != SoftDirty
    requires forall a: int | Holds(want, a) :: a !in v
    ensures Bytes(Override(v, want)) == Bytes(v) + (want.end - want.start)
    ensures BytesWith(Override(v, want), f) == BytesWith(v, f) + If(f in want.flags, want.end - want.start)
  {
    OverrideKeys(v, want);
    OverrideWith(v, want, f);
    RangeSize(want.start, want.end);
    UnionSize(v.Keys, Range(want.start, want.end));
    UnionSize(With(v, f), Range(want.start, want.end));
  }

  lemma UnionSize<T>(a: set<T>, b: set<T>)
    ensures a !! b ==> |a + b| == |a| + |b|
  {
  }

  lemma OverrideKeys(v: View, want: Vma)
    requires forall a: int | Holds(want, a) :: a !in v
    ensures Override(v, want).Keys == v.Keys + Range(want.start, want.end)
    ensures v.Keys !! Range(want.start, want.end)
    ensures forall f: Flag :: With(v, f) !! Range(want.start, want.end)
  {
    assert forall a: int :: a in Override(v, want).Keys <==> a in v || Holds(want, a);
  }

  lemma OverrideWith(v: View, want: Vma, f: Flag)
    requires f != SoftDirty
    requires forall a: int | Holds(want, a) :: a !in v
    ensures With(Override(v, want), f) ==
            With(v, f) + if f in want.flags then Range(want.start, want.end) else {}
  {
    var w := Override(v, want);
    forall a: int | Holds(want, a)
      ensures f in w[a].flags <==> f in want.flags
    {
      assert w[a] == AttrAt(want, a);
    }
  }

  /** Removing a range that one area maps takes exactly its length off the tallies. */
  lemma WithoutTally(v: View, gone: Vma, f: Flag)
    requires gone.start <= gone.end && f != SoftDirty
    requires forall a: int | Holds(gone, a) :: a in v && v[a] == AttrAt(gone, a)
    ensures Bytes(v) == Bytes(Without(v, gone.start, gone.end)) + (gone.end - gone.start)
    ensures BytesWith(v, f) ==
            BytesWith(Without(v, gone.start, gone.end), f) + If(f in gone.flags, gone.end - gone.start)
  {
    hide Bytes, BytesWith, AttrAt;
    OverrideTally(Without(v, gone.start, gone.end), gone, f);
    PutBack(v, gone);
  }

  /** Removing an area from a view and laying it back over the range gives the view. */
  lemma PutBack(v: View, gone: Vma)
    requires forall a: int | Holds(gone, a) :: a in v && v[a] == AttrAt(gone, a)
    ensures Override(Without(v, gone.start, gone.end), gone) == v
  {
    hide AttrAt;
    var w := Override(Without(v, gone.start, gone.end), gone);
    forall a
      ensures Look(w, a) == Look(v, a)
    {
      assert Holds(gone, a) ==> a in v && v[a] == AttrAt(gone, a);
    }
    SameLooks(w, v);
  }

  /** Every stack is charged for. */
  ghost predicate StacksAccounted(v: View) {
    forall a | a in v :: GrowsDown in v[a].flags ==> Account in v[a].flags
  }

  lemma OverrideAccounted(v: View, want: Vma)
    requires StacksAccounted(v) && (GrowsDown in want.flags ==> Account in want.flags)
    ensures StacksAccounted(Override(v, want))
  {
  }

  lemma WithoutAccounted(v: View, lo: int, hi: int)
    requires StacksAccounted(v)
    ensures StacksAccounted(Without(v, lo, hi))
  {
  }

  /** Relabelling mapped addresses changes no tally of a flag the labels agree on. */
  lemma RelabelTally(v: View, want: Vma, f: Flag)
    requires f != SoftDirty
    requires forall a: int | Holds(want, a) :: a in v && (f in v[a].flags <==> f in want.flags)
    ensures Bytes(Override(v, want)) == Bytes(v) && BytesWith(Override(v, want), f) == BytesWith(v, f)
  {
    assert Override(v, want).Keys == v.Keys;
    assert With(Override(v, want), f) == With(v, f);
  }

  /** A view whose addresses all lie below TASK_SIZE maps at most TASK_SIZE bytes. */
  lemma BytesBounded(v: View)
    requires forall a | a in v :: 0 <= a < TASK_SIZE
    ensures Bytes(v) <= TASK_SIZE
  {
    RangeSize(0, TASK_SIZE);
    SubsetSize(v.Keys, Range(0, TASK_SIZE));
  }

  lemma {:induction false} SubsetSize<T>(a: set<T>, b: set<T>)
    requires a <= b
    ensures |a| <= |b|
  {
    assert b == a + (b - a);
  }

  /** The ends of a consistent area's neighbours: an address just outside an area
      and inside another belongs to an area that starts (ends) there. */
  lemma NeighbourStarts(t: Tree, s: Slab, a: int)
    requires Consistent(t, s) && a in t
    requires a - 1 !in t || t[a - 1] != t[a]
    ensures s[t[a]].start == a
  {
    var id := t[a];
    assert Holds(s[id], a);
    assert !Holds(s[id], a - 1);
  }

  lemma NeighbourEnds(t: Tree, s: Slab, a: int)
    requires Consistent(t, s) && a in t
    requires a + 1 !in t || t[a + 1] != t[a]
    ensures s[t[a]].end == a + 1
  {
    var id := t[a];
    assert Holds(s[id], a);
    assert !Holds(s[id], a + 1);
  }
}
