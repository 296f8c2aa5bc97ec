/** One mapped area (`struct vm_area_struct`), the attributes it gives each of
    its addresses, and the pure mergeability tests. */
module Vmas {
  import opened Pages

  datatype Option<+T> = None | Some(value: T)

  type VmaId = int
  type FileId = int
  type AnonId = int

  /** A pointer to an area. */
  datatype Ref = Null | To(id: VmaId)

  /** The bits of `vm_flags` the modelled code looks at; every other bit is `Other`. */
  datatype Flag =
    | Read | Write | Exec | MayRead | MayWrite | MayExec
    | Shared | GrowsDown
    | Locked | LockOnFault
    | Account | NoReserve | SoftDirty
    | Io | DontExpand | PfnMap | MixedMap
    | DontCopy | WipeOnFork
    | Other(bit: int)

  /** VM_SPECIAL: areas that are never merged and never counted as locked. */
  const SPECIAL: set<Flag> := {Io, DontExpand, PfnMap, MixedMap}

  /** VM_LOCKED_MASK. */
  const LOCKED_MASK: set<Flag> := {Locked, LockOnFault}

  /** VM_DATA_DEFAULT_FLAGS. */
  const DATA_DEFAULT: set<Flag> := {Read, Write, MayRead, MayWrite, MayExec}

  predicate IsSpecial(flags: set<Flag>) {
    flags * SPECIAL != {}
  }

  lemma SpecialExact(flags: set<Flag>)
    ensures IsSpecial(flags) <==> !(flags !! {Io, DontExpand, PfnMap, MixedMap})
  {
    if flags !! {Io, DontExpand, PfnMap, MixedMap} {
      assert flags * SPECIAL == {};
    } else {
      var f :| f in flags && f in {Io, DontExpand, PfnMap, MixedMap};
      assert f in flags * SPECIAL;
    }
  }

  /** An area covers [start, end); `pgoff` is the page offset of `start` in `file`.
      `hasClose` says whether the driver installed a close operation. */
  datatype Vma = Vma(
    start: int,
    end: int,
    pgoff: int,
    flags: set<Flag>,
    file: Option<FileId>,
    policy: Option<int>,
    uffd: Option<int>,
    name: Option<int>,
    hasClose: bool,
    anonVma: Option<AnonId>,
    chain: seq<AnonId>,
    detached: bool)

  /** What an address sees of the area that maps it: the flags except VM_SOFTDIRTY,
      the file and the byte offset in it, the policy and the remaining keys. */
  datatype Attr = Attr(
    flags: set<Flag>,
    file: Option<FileId>,
    offset: int,
    policy: Option<int>,
    uffd: Option<int>,
    name: Option<int>)

  function AttrAt(v: Vma, a: int): Attr {
    Attr(v.flags - {SoftDirty}, v.file, v.pgoff * 4096 + a - v.start, v.policy, v.uffd, v.name)
  }

  predicate Holds(v: Vma, a: int) {
    v.start <= a < v.end
  }

  /** Non-empty, page aligned, inside the user address space, and with no
      anon_vma chain unless an anon_vma is attached. */
  predicate WellFormed(v: Vma) {
    && 0 <= v.start < v.end <= TASK_SIZE
    && 0 <= v.pgoff
    && Aligned(v.start)
    && Aligned(v.end)
    && (v.anonVma.None? ==> v.chain == [])
  }

  /** `vma_pages`. */
  function VmaPages(v: Vma): int {
    (v.end - v.start) / 4096
  }

  /** Two areas that agree on everything an address can see, extended linearly. */
  predicate SameKind(v: Vma, w: Vma) {
    && v.flags - {SoftDirty} == w.flags - {SoftDirty}
    && v.file == w.file
    && v.policy == w.policy
    && v.uffd == w.uffd
    && v.name == w.name
    && v.pgoff * 4096 - v.start == w.pgoff * 4096 - w.start
  }

  /** `is_mergeable_vma`. */
  predicate IsMergeableVma(v: Vma, file: Option<FileId>, flags: set<Flag>, uffd: Option<int>,
                           name: Option<int>, mayRemove: bool)
  {
    && v.flags - {SoftDirty} == flags - {SoftDirty}
    && v.file == file
    && !(mayRemove && v.hasClose)
    && v.uffd == uffd
    && v.name == name
  }

  /** `is_mergeable_anon_vma`; `chain` is absent when the kernel passes no area. */
  predicate IsMergeableAnon(a: Option<AnonId>, b: Option<AnonId>, chain: Option<seq<AnonId>>) {
    || ((a.None? || b.None?) && (chain.None? || |chain.value| == 1))
    || a == b
  }

  /** `can_vma_merge_before`: may a request with these keys be joined below `v`? */
  predicate CanMergeBefore(v: Vma, flags: set<Flag>, anon: Option<AnonId>, file: Option<FileId>,
                           pgoff: int, uffd: Option<int>, name: Option<int>)
  {
    && IsMergeableVma(v, file, flags, uffd, name, true)
    && IsMergeableAnon(anon, v.anonVma, Some(v.chain))
    && v.pgoff == pgoff
  }

  /** `can_vma_merge_after`: may a request with these keys be joined above `v`? */
  predicate CanMergeAfter(v: Vma, flags: set<Flag>, anon: Option<AnonId>, file: Option<FileId>,
                          pgoff: int, uffd: Option<int>, name: Option<int>)
  {
    && IsMergeableVma(v, file, flags, uffd, name, false)
    && IsMergeableAnon(anon, v.anonVma, Some(v.chain))
    && v.pgoff + VmaPages(v) == pgoff
  }

  /** Areas of one kind give every address the same attributes. */
  lemma SameKindSameAttr(v: Vma, w: Vma, a: int)
    requires SameKind(v, w)
    ensures AttrAt(v, a) == AttrAt(w, a)
  {
  }

  /** Being of one kind is showing every address the same. */
  lemma SameKindExact(v: Vma, w: Vma)
    ensures SameKind(v, w) <==> forall a :: AttrAt(v, a) == AttrAt(w, a)
  {
    if forall a :: AttrAt(v, a) == AttrAt(w, a) {
      assert AttrAt(v, 0) == AttrAt(w, 0);
    }
  }

  /** Passing the upper test makes an adjacent request a linear continuation of the area,
      for every address, not only at the seam. */
  lemma MergeAfterIsLinear(v: Vma, w: Vma)
    requires WellFormed(v) && Aligned(w.start)
    requires v.end == w.start && v.policy == w.policy
    requires CanMergeAfter(v, w.flags, w.anonVma, w.file, w.pgoff, w.uffd, w.name)
    ensures SameKind(v, w)
  {
  }

  /** The same for the lower test. */
  lemma MergeBeforeIsLinear(v: Vma, w: Vma)
    requires WellFormed(v) && Aligned(w.start) && Aligned(w.end) && w.start < w.end
    requires w.end == v.start && v.policy == w.policy
    requires CanMergeBefore(v, w.flags, w.anonVma, w.file, w.pgoff + VmaPages(w), w.uffd, w.name)
    ensures SameKind(v, w)
  {
  }
}
