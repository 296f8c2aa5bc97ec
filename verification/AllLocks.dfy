/** Taking every reverse-map lock of an address space at once (`mm_take_all_locks`), and dropping them. */
module AllLocks {
  import opened Pages
  import opened Vmas

  /** The two kinds of lock: of a file's address space, and of the root of an anon_vma tree. */
  datatype Lock = Mapping(id: int) | Root(id: int)

  /** What the two functions look at in an area: its file's address space, whether it is a hugetlb area,
      whether it has an anon_vma, and the roots along its anon_vma chain. */
  datatype Area = Area(mapping: Option<int>, huge: bool, anon: bool, chain: seq<int>)

  // ---------------------------------------------------------------- what is wanted, in which order

  function MappingLock(a: Area, huge: bool): seq<Lock> {
    if a.mapping.Some? && a.huge == huge then [Mapping(a.mapping.value)] else []
  }

  function RootLocks(a: Area): seq<Lock> {
    if a.anon then seq(|a.chain|, i requires 0 <= i < |a.chain| => Root(a.chain[i])) else []
  }

  /** The locks pass `k` asks for, area by area: hugetlb mappings, other mappings, roots. */
  function PassLocks(a: Area, k: int): seq<Lock> {
    if k == 1 then MappingLock(a, true)
    else if k == 2 then MappingLock(a, false)
    else if k == 3 then RootLocks(a)
    else []
  }

  /** Everything pass `k` asks for in the first `n` areas. */
  ghost function Asked(areas: seq<Area>, k: int, n: int): seq<Lock>
    requires 0 <= n <= |areas|
  {
    if n == 0 then [] else Asked(areas, k, n - 1) + PassLocks(areas[n - 1], k)
  }

  /** The same, each lock only where it comes up first. */
  ghost function Firsts(xs: seq<Lock>): seq<Lock> {
    if xs == [] then []
    else
      var r := Firsts(xs[..|xs| - 1]);
      if xs[|xs| - 1] in r then r else r + [xs[|xs| - 1]]
  }

  ghost function AllAsked(areas: seq<Area>): seq<Lock> {
    Asked(areas, 1, |areas|) + Asked(areas, 2, |areas|) + Asked(areas, 3, |areas|)
  }

  lemma AskedStart(areas: seq<Area>, k: int, before: seq<Lock>)
    ensures before + Asked(areas, k, 0) == before
  {
  }

  lemma AskedNext(areas: seq<Area>, k: int, i: int, before: seq<Lock>)
    requires 0 <= i < |areas|
    ensures before + Asked(areas, k, i) + PassLocks(areas[i], k) == before + Asked(areas, k, i + 1)
  {
    hide PassLocks;
  }

  lemma EmptyPrefix(xs: seq<Lock>)
    ensures [] + xs == xs
  {
  }

  lemma NothingTaken()
    ensures Firsts([]) == []
  {
  }

  ghost predicate Once(xs: seq<Lock>) {
    forall i, j | 0 <= i < j < |xs| :: xs[i] != xs[j]
  }

  lemma {:induction false} FirstsExact(xs: seq<Lock>)
    ensures Once(Firsts(xs))
    ensures forall x :: x in Firsts(xs) <==> x in xs
  {
    if xs != [] {
      FirstsExact(xs[..|xs| - 1]);
      assert xs == xs[..|xs| - 1] + [xs[|xs| - 1]];
    }
  }

  lemma FirstsOneMore(xs: seq<Lock>, x: Lock)
    ensures Firsts(xs + [x]) == if x in Firsts(xs) then Firsts(xs) else Firsts(xs) + [x]
  {
    assert (xs + [x])[..|xs|] == xs;
  }

  // ---------------------------------------------------------------- the locks and the marks

  class LockTable {
    var held: seq<Lock>       // by this task, in the order taken
    var marks: set<Lock>      // AS_MM_ALL_LOCKS, or the low bit in the root's tree
    var mutex: bool           // mm_all_locks_mutex
    var written: nat          // areas, from the first on, marked as being written to until mmap_write_unlock
    var bug: bool             // BUG() was reached, or a lock was taken twice or dropped unheld

    constructor ()
      ensures held == [] && marks == {} && !mutex && written == 0 && !bug
    {
      held, marks, mutex, written, bug := [], {}, false, 0, false;
    }

    /** A lock is marked exactly while held, and held once. */
    ghost predicate Sane()
      reads this
    {
      && !bug && mutex && Once(held)
      && forall x :: x in marks <==> x in held
    }

    method Down(x: Lock)
      modifies this`held, this`bug
      ensures held == old(held) + [x]
      ensures bug == (old(bug) || x in old(held))
    {
      bug := bug || x in held;
      held := held + [x];
    }

    method Up(x: Lock)
      modifies this`held, this`bug
      ensures bug == (old(bug) || x !in old(held))
      ensures held == Drop(old(held), x)
    {
      bug := bug || x !in held;
      held := Drop(held, x);
    }

    /** `vm_lock_mapping` marks first and then locks; `vm_lock_anon_vma` the other way round. */
    method Take(x: Lock)
      requires Sane()
      modifies this`held, this`marks, this`bug
      ensures Sane() && held == if x in old(held) then old(held) else old(held) + [x]
    {
      if x !in marks {
        if x.Mapping? {
          bug := bug || x in marks;
          marks := marks + {x};
          Down(x);
        } else {
          Down(x);
          bug := bug || x in marks;
          marks := marks + {x};
        }
      }
    }

    /** `vm_unlock_mapping` unlocks first and then unmarks; `vm_unlock_anon_vma` the other way round. */
    method Release(x: Lock)
      requires Sane()
      modifies this`held, this`marks, this`bug
      ensures Sane() && held == Drop(old(held), x)
    {
      DropExact(held, x);
      if x in marks {
        if x.Mapping? {
          Up(x);
          bug := bug || x !in marks;
          marks := marks - {x};
        } else {
          bug := bug || x !in marks;
          marks := marks - {x};
          Up(x);
        }
      }
    }

    method TakeAll(xs: seq<Lock>, ghost before: seq<Lock>)
      requires Sane() && held == Firsts(before)
      modifies this`held, this`marks, this`bug
      ensures Sane() && held == Firsts(before + xs)
    {
      assert before + xs[..0] == before;
      for i := 0 to |xs|
        invariant Sane() && held == Firsts(before + xs[..i])
      {
        FirstsOneMore(before + xs[..i], xs[i]);
        assert before + xs[..i + 1] == before + xs[..i] + [xs[i]];
        Take(xs[i]);
      }
      assert xs[..|xs|] == xs;
    }

    method ReleaseAll(xs: seq<Lock>)
      requires Sane()
      modifies this`held, this`marks, this`bug
      ensures Sane() && forall x :: x in held <==> x in old(held) && x !in xs
    {
      for i := 0 to |xs|
        invariant Sane() && forall x :: x in held <==> x in old(held) && x !in xs[..i]
      {
        DropExact(held, xs[i]);
        Release(xs[i]);
        assert xs[..i + 1] == xs[..i] + [xs[i]];
      }
      assert xs[..|xs|] == xs;
    }

    /** One pass over the areas, asking before each whether a signal is pending: the first pending one is
        seen at area `signalAt`. */
    method Pass(areas: seq<Area>, k: int, signalAt: nat, ghost before: seq<Lock>) returns (ok: bool)
      requires 1 <= k <= 3 && Sane() && held == Firsts(before)
      modifies this`held, this`marks, this`bug
      ensures Sane()
      ensures ok <==> |areas| <= signalAt
      ensures held == Firsts(before + Asked(areas, k, if ok then |areas| else signalAt))
    {
      hide Firsts, PassLocks, Asked, LockTable.Sane;
      AskedStart(areas, k, before);
      for i := 0 to |areas|
        invariant Sane() && held == Firsts(before + Asked(areas, k, i))
        invariant i <= signalAt
      {
        if signalAt == i {
          return false;
        }
        TakeAll(PassLocks(areas[i], k), before + Asked(areas, k, i));
        AskedNext(areas, k, i, before);
      }
      return true;
    }

    /** `mm_take_all_locks`: without a signal every lock is held exactly once, in the documented order;
        with one, none is, the marks are gone, and the mutex is free again.  Areas stay marked as being
        written to either way. */
    method TakeAllLocks(areas: seq<Area>, signalAt: nat) returns (ok: bool)
      requires held == [] && marks == {} && !mutex && !bug
      modifies this
      ensures ok <==> 4 * |areas| <= signalAt
      ensures ok ==> Sane() && held == Firsts(AllAsked(areas))
      ensures !ok ==> held == [] && marks == {} && !mutex && !bug
      ensures written == Max(old(written), Min(signalAt, |areas|))
    {
      hide Firsts, Asked, WantedBy;
      mutex := true;
      NothingTaken();
      for i := 0 to |areas|
        invariant i <= signalAt && written == Max(old(written), i)
        invariant Sane() && held == []
      {
        if signalAt == i {
          DropAllLocks(areas);
          return false;
        }
        written := Max(written, i + 1);
      }
      ok := Pass(areas, 1, signalAt - |areas|, []);
      Wanted(areas, 1, if ok then |areas| else signalAt - |areas|, []);
      if !ok {
        DropAllLocks(areas);
        return;
      }
      ghost var first := [] + Asked(areas, 1, |areas|);
      ok := Pass(areas, 2, signalAt - 2 * |areas|, first);
      Wanted(areas, 2, if ok then |areas| else signalAt - 2 * |areas|, first);
      if !ok {
        DropAllLocks(areas);
        return;
      }
      ghost var second := first + Asked(areas, 2, |areas|);
      ok := Pass(areas, 3, signalAt - 3 * |areas|, second);
      Wanted(areas, 3, if ok then |areas| else signalAt - 3 * |areas|, second);
      if !ok {
        DropAllLocks(areas);
        return;
      }
      EmptyPrefix(Asked(areas, 1, |areas|));
    }

    /** `mm_drop_all_locks`: whatever part of the areas' locks is held, none is afterwards. */
    method DropAllLocks(areas: seq<Area>)
      requires Sane() && forall x | x in held :: WantedBy(areas, x, |areas|)
      modifies this`held, this`marks, this`bug, this`mutex
      ensures held == [] && marks == {} && !mutex && !bug
    {
      for i := 0 to |areas|
        invariant Sane()
        invariant forall x | x in held :: x in old(held) && !WantedBy(areas, x, i)
      {
        ghost var was := held;
        ReleaseAll(RootLocks(areas[i]));
        if areas[i].mapping.Some? {
          DropExact(held, Mapping(areas[i].mapping.value));
          Release(Mapping(areas[i].mapping.value));
        }
        forall x | x in held
          ensures x in was && !Wants(areas[i], x)
        {
          RootsExact(areas[i], x);
        }
        assert forall x :: WantedBy(areas, x, i + 1) ==> WantedBy(areas, x, i) || Wants(areas[i], x);
      }
      NobodyLeft(held);
      mutex := false;
    }
  }

  /** The area needs this lock, in whichever pass. */
  ghost predicate Wants(a: Area, x: Lock) {
    match x
    case Mapping(id) => a.mapping == Some(id)
    case Root(id) => a.anon && id in a.chain
  }

  ghost predicate WantedBy(areas: seq<Area>, x: Lock, n: int)
    requires 0 <= n <= |areas|
  {
    exists i :: 0 <= i < n && Wants(areas[i], x)
  }

  function Drop(xs: seq<Lock>, x: Lock): seq<Lock> {
    if xs == [] then []
    else
      var r := Drop(xs[..|xs| - 1], x);
      if xs[|xs| - 1] == x then r else r + [xs[|xs| - 1]]
  }

  lemma NobodyLeft(xs: seq<Lock>)
    ensures xs == [] || xs[0] in xs
  {
  }

  lemma {:induction false} DropExact(xs: seq<Lock>, x: Lock)
    ensures Once(xs) ==> Once(Drop(xs, x))
    ensures forall y :: y in Drop(xs, x) <==> y in xs && y != x
    ensures x !in xs ==> Drop(xs, x) == xs
  {
    if xs != [] {
      var init, last := xs[..|xs| - 1], xs[|xs| - 1];
      var r := Drop(init, x);
      DropExact(init, x);
      assert xs == init + [last];
      if Once(xs) {
        assert Once(init) && last !in init;
        assert forall i | 0 <= i < |r| :: r[i] in r;
      }
    }
  }

  lemma RootsExact(a: Area, x: Lock)
    ensures x in RootLocks(a) <==> x.Root? && Wants(a, x)
  {
    if x.Root? && Wants(a, x) {
      var i :| 0 <= i < |a.chain| && a.chain[i] == x.id;
      assert RootLocks(a)[i] == x;
    }
  }

  lemma PassWants(a: Area, x: Lock)
    ensures Wants(a, x) <==> exists k | 1 <= k <= 3 :: x in PassLocks(a, k)
  {
    if x.Mapping? {
      assert a.mapping == Some(x.id) ==> x in PassLocks(a, if a.huge then 1 else 2);
    } else {
      RootsExact(a, x);
      assert Wants(a, x) ==> x in PassLocks(a, 3);
    }
  }

  lemma {:induction false} AskedWanted(areas: seq<Area>, k: int, n: int, x: Lock)
    requires 0 <= n <= |areas| && 1 <= k <= 3 && x in Asked(areas, k, n)
    ensures WantedBy(areas, x, n)
  {
    if x in PassLocks(areas[n - 1], k) {
      PassWants(areas[n - 1], x);
    } else {
      AskedWanted(areas, k, n - 1, x);
      var i :| 0 <= i < n - 1 && Wants(areas[i], x);
    }
  }

  /** Whatever has been taken so far is wanted by some area, so dropping finds it. */
  lemma Wanted(areas: seq<Area>, k: int, n: int, before: seq<Lock>)
    requires 0 <= n <= |areas| && 1 <= k <= 3
    requires forall x | x in before :: WantedBy(areas, x, |areas|)
    ensures forall x | x in before + Asked(areas, k, n) :: WantedBy(areas, x, |areas|)
    ensures forall x | x in Firsts(before + Asked(areas, k, n)) :: WantedBy(areas, x, |areas|)
  {
    var all := before + Asked(areas, k, n);
    FirstsExact(all);
    forall x | x in all
      ensures WantedBy(areas, x, |areas|)
    {
      if x in Asked(areas, k, n) {
        AskedWanted(areas, k, n, x);
        var i :| 0 <= i < n && Wants(areas[i], x);
      }
    }
  }

  lemma {:induction false} WantedAsked(areas: seq<Area>, k: int, n: int, i: int, x: Lock)
    requires 0 <= i < n <= |areas| && x in PassLocks(areas[i], k)
    ensures x in Asked(areas, k, n)
  {
    if i < n - 1 { WantedAsked(areas, k, n - 1, i, x); }
  }

  /** The locks held after a complete take are those some area wants, each once. */
  lemma HeldExact(areas: seq<Area>)
    ensures Once(Firsts(AllAsked(areas)))
    ensures forall x :: x in Firsts(AllAsked(areas)) <==> WantedBy(areas, x, |areas|)
  {
    FirstsExact(AllAsked(areas));
    forall x
      ensures x in AllAsked(areas) <==> WantedBy(areas, x, |areas|)
    {
      if WantedBy(areas, x, |areas|) {
        var i :| 0 <= i < |areas| && Wants(areas[i], x);
        PassWants(areas[i], x);
        var k :| 1 <= k <= 3 && x in PassLocks(areas[i], k);
        WantedAsked(areas, k, |areas|, i, x);
      }
      if x in AllAsked(areas) {
        var k := if x in Asked(areas, 1, |areas|) then 1 else if x in Asked(areas, 2, |areas|) then 2 else 3;
        AskedWanted(areas, k, |areas|, x);
      }
    }
  }

  lemma {:induction false} FirstsAppend(a: seq<Lock>, b: seq<Lock>)
    ensures var r, all := Firsts(a), Firsts(a + b);
            && |r| <= |all| && all[..|r|] == r
            && forall i | |r| <= i < |all| :: all[i] in b && all[i] !in a
    decreases |b|
  {
    if b == [] {
      assert a + b == a;
    } else {
      var b' := b[..|b| - 1];
      FirstsAppend(a, b');
      FirstsExact(a + b');
      assert (a + b)[..|a + b| - 1] == a + b';
      assert b == b' + [b[|b| - 1]];
    }
  }

  lemma {:induction false} PassKind(areas: seq<Area>, k: int, n: int)
    requires 0 <= n <= |areas| && 1 <= k <= 3
    ensures forall x | x in Asked(areas, k, n) :: x.Mapping? == (k < 3)
  {
    if 0 < n { PassKind(areas, k, n - 1); }
  }

  /** Pass 1 asks for the mappings that some hugetlb area maps, and for nothing else. */
  lemma {:induction false} HugeAsked(areas: seq<Area>, n: int, x: Lock)
    requires 0 <= n <= |areas|
    ensures x in Asked(areas, 1, n) <==> HugeMapping(areas, n, x)
  {
    if 0 < n {
      HugeAsked(areas, n - 1, x);
      var a := areas[n - 1];
      assert x in PassLocks(a, 1) <==> x.Mapping? && a.huge && a.mapping == Some(x.id);
    }
  }

  /** A hugetlb area among the first `n` maps the file behind this lock. */
  ghost predicate HugeMapping(areas: seq<Area>, n: int, x: Lock)
    requires 0 <= n <= |areas|
  {
    x.Mapping? && exists i | 0 <= i < n :: areas[i].huge && areas[i].mapping == Some(x.id)
  }

  /** They are taken in the documented order: the mappings that some hugetlb area maps come before all
      others, and mappings come before roots. */
  lemma HeldInOrder(areas: seq<Area>, i: int, j: int)
    requires 0 <= i < j < |Firsts(AllAsked(areas))|
    ensures var all := Firsts(AllAsked(areas));
            && (HugeMapping(areas, |areas|, all[j]) ==> HugeMapping(areas, |areas|, all[i]))
            && (all[j].Mapping? ==> all[i].Mapping?)
  {
    hide Firsts, Asked, HugeMapping;
    var n := |areas|;
    var all := Firsts(AllAsked(areas));
    var huge, plain, roots := Asked(areas, 1, n), Asked(areas, 2, n), Asked(areas, 3, n);
    assert AllAsked(areas) == huge + (plain + roots);
    FirstsAppend(huge, plain + roots);
    FirstsAppend(huge + plain, roots);
    FirstsExact(huge);
    FirstsExact(huge + plain);
    HugeAsked(areas, n, all[i]);
    HugeAsked(areas, n, all[j]);
    PassKind(areas, 1, n);
    PassKind(areas, 2, n);
    PassKind(areas, 3, n);
    assert i < |Firsts(huge)| ==> all[i] == Firsts(huge)[i];
    var mappings := Firsts(huge + plain);
    assert i < |mappings| ==> all[i] == mappings[i] && mappings[i] in mappings;
    assert all[j] in roots || j < |mappings|;
  }
}
