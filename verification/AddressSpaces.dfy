/** The address space of a process (`struct mm_struct`) and its invariants. */
module AddressSpaces {
  import opened Pages
  import opened Vmas
  import opened Trees

  /** Error results of the modelled operations. */
  datatype Errno =
    | Success | EINVAL | ENOMEM | EAGAIN | EEXIST | EOVERFLOW | EPERM | EFAULT | EINTR
    | OtherError(code: int)

  /** The areas of an address space as they are recorded: the tree, the pool, and the next free identity. */
  datatype Space = Space(tree: Tree, slab: Slab, next: VmaId)

  /** An address space as a value; what it counts follows from its areas. */
  datatype Image = Image(now: Space, startBrk: int, brk: int, defFlags: set<Flag>)
  {
    ghost predicate Good() {
      Consistent(now.tree, now.slab) && 0 < startBrk <= brk <= TASK_SIZE
    }

    ghost function Sees(): View {
      Seen(now.tree, now.slab)
    }

    /** `map_count`. */
    ghost function Areas(): int {
      |now.slab|
    }

    /** `total_vm`. */
    ghost function Pages(): int {
      Bytes(Sees()) / 4096
    }
  }

  /** The global `vm_committed_as` counter. */
  class Commit {
    var pages: int

    constructor ()
      ensures pages == 0
    {
      pages := 0;
    }
  }

  class Mm {
    var tree: Tree
    var slab: Slab
    var nextId: VmaId
    var mapCount: int
    var totalVm: int
    var lockedVm: int
    var startBrk: int
    var brk: int
    var defFlags: set<Flag>

    /** An empty address space, with the heap where the program will have it. */
    constructor Fresh(startBrk: int, defFlags: set<Flag>)
      requires 0 < startBrk <= TASK_SIZE
      ensures Valid() && Sees() == map[] && Charge() == 0 && mapCount == 0 && totalVm == 0
      ensures Looks() == Image(Space(map[], map[], 0), startBrk, startBrk, defFlags)
    {
      tree, slab, nextId := map[], map[], 0;
      mapCount, totalVm, lockedVm := 0, 0, 0;
      this.startBrk, this.brk, this.defFlags := startBrk, startBrk, defFlags;
      new;
      EmptyView();
    }

    /** A new address space for a child: `memcpy` of the parent's, then the resets of `mm_init`. */
    constructor CopyOf(parent: Mm, initFlags: set<Flag>)
      ensures tree == map[] && slab == map[] && nextId == parent.nextId
      ensures mapCount == 0 && lockedVm == 0 && totalVm == parent.totalVm
      ensures startBrk == parent.startBrk && brk == parent.brk && defFlags == parent.defFlags * initFlags
    {
      tree, slab, nextId := map[], map[], parent.nextId;
      mapCount, lockedVm, totalVm := 0, 0, parent.totalVm;
      startBrk, brk, defFlags := parent.startBrk, parent.brk, parent.defFlags * initFlags;
    }

    ghost function Now(): Space
      reads this
    {
      Space(tree, slab, nextId)
    }

    ghost function Looks(): Image
      reads this
    {
      Image(Now(), startBrk, brk, defFlags)
    }

    ghost function Sees(): View
      reads this
    {
      Seen(tree, slab)
    }

    /** Bytes this address space owes to the commit counter. */
    ghost function Charge(): nat
      reads this
    {
      BytesWith(Sees(), Account)
    }

    /** Tree, areas and `map_count` agree; some areas may be marked detached. */
    ghost predicate Shaped()
      reads this
    {
      && Consistent(tree, slab)
      && mapCount == |slab|
      && 0 <= nextId
      && forall id | id in slab :: 0 <= id < nextId
    }

    ghost predicate NoneDetached()
      reads this
    {
      forall id | id in slab :: !slab[id].detached
    }

    /** `total_vm` and `locked_vm` count the pages that are mapped and mapped locked. */
    ghost predicate Counted()
      reads this
    {
      && ToBytes(totalVm) == Bytes(Sees())
      && ToBytes(lockedVm) == BytesWith(Sees(), Locked)
    }

    ghost predicate BrkInside()
      reads this
    {
      0 < startBrk <= brk <= TASK_SIZE
    }

    ghost predicate Valid()
      reads this
    {
      && Shaped()
      && NoneDetached()
      && Counted()
      && BrkInside()
    }
  }

  /** A valid address space counts what its areas say. */
  lemma LooksGood(mm: Mm)
    requires mm.Valid()
    ensures var i := mm.Looks();
            i.Good() && i.Sees() == mm.Sees() && i.Areas() == mm.mapCount && i.Pages() == mm.totalVm
  {
    hide Consistent, Seen, Bytes, BytesWith;
  }

  lemma EmptyView()
    ensures Consistent(map[], map[]) && Seen(map[], map[]) == map[]
    ensures Bytes(map[]) == 0 && forall f: Flag :: BytesWith(map[], f) == 0
  {
    forall f: Flag
      ensures BytesWith(map[], f) == 0
    {
      assert With(map[], f) == {};
    }
  }

  /** Everything the view is made of lies in the user address space, so the mapped bytes fit in it. */
  lemma ViewBounded(mm: Mm)
    requires mm.Shaped()
    ensures Bytes(mm.Sees()) <= TASK_SIZE
    ensures forall a | a in mm.Sees() :: 0 <= a < TASK_SIZE
  {
    forall a | a in mm.Sees()
      ensures 0 <= a < TASK_SIZE
    {
      var id := mm.tree[a];
      assert Holds(mm.slab[id], a) && WellFormed(mm.slab[id]);
    }
    BytesBounded(mm.Sees());
  }
}
