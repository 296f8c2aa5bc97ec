# Address space manager: a verified model

A Dafny model of the virtual address space manager in `mm/mmap.c`, of what shares its state (fork's
duplication and the teardown of an address space, the per-process memory limiter in front of `brk` and
`mmap`), and of the process-tree walk with the child-subreaper flags beside that fork code.

Check everything with `dafny verify dfyconfig.toml`.

## How the system is modelled

- **Address space** (`Mm`): the maple tree is a map from every mapped address to the area that maps it; the
  areas live in a pool keyed by identity, so an area in the tree and an area about to be freed are the same
  object. `map_count`, `total_vm`, `locked_vm` and the break are fields.
- **View** (`Mm.Sees`): what user space can tell: for every mapped address the flags except VM_SOFTDIRTY, the
  file with the byte offset, the policy, the userfaultfd context and the name. Every operation is specified by
  what it does to the view: `Override(view, area)` replaces exactly the area's range, `Without(view, lo, hi)`
  removes it. `mmap`, `munmap`, `brk`, merges, attribute changes and stack growth are specified by the exact areas they
  leave as well (`Mm.Now`: tree, pool and next identity), whichever way they end. The lemmas whose names end in `Exact`
  or `Shows` say in terms of areas and addresses what these specifications decide and leave.
- **Invariant** (`Mm.Valid`): areas are non-empty, page-aligned and disjoint, the tree and the pool agree at every
  address, nothing is detached, `map_count` is the number of areas, and `total_vm` and `locked_vm` count the mapped
  and the locked pages of the view.
- **Failures**: allocations, security hooks, signals, other resource limits and driver callbacks are free parameters
  (Booleans, or the error code they return), so every theorem holds for every combination of failures, and the main
  operations are specified by an exact ending for each combination.
- **Arithmetic**: 64-bit sums and differences that can wrap are written out (`Add64`, `Sub64`, `PageAlign`).
- **Concurrency**: the subreaper flags are a state machine whose steps are forks, flag changes and single visits of any
  number of overlapping walks. The address space operations run under the write lock.

Modules:

- `Pages`, `Vmas`, `Trees`, `AddressSpaces`: words and pages, areas and the merge tests, tree and view, address spaces
- `Reshaping`, `MergeCases`, `Merging`: growing, shifting and inserting areas; the eight cases; `vma_merge`
- `Splitting`, `Modifying`, `Unmapping`: `split_vma`, `vma_modify`, munmap with its unwinding
- `Counting`, `Mapping`, `GapSearch`, `Placement`: limits, `mmap_region`, the gap searches, `do_mmap`
- `HeapBreak`, `StackGrowth`: `brk` patched and original, `expand_downwards`
- `Limiter`, `GatedCalls`: the list of limits and the calls behind the gate
- `Forking`, `Teardown`, `SystemRuns`: `dup_mmap`, `exit_mmap`, runs of many address spaces
- `TreeWalk`, `Propagation`, `Subreaper`: the walk, one call on its own, overlapping calls as a protocol
- `WalkSteps`, `Interleaving`: one walk, and any number of interleaved walks, as runs of that protocol
- `AllLocks`: `mm_take_all_locks` and `mm_drop_all_locks`

## Where code and comments or expectations part

- The comment in `brk` that shrinking is always allowed does not hold behind the gate. `GatedCalls.ShrinkGate` says
  exactly when a shrink is refused: when what remains is above the limit, or when the heap spans more than is mapped
  and the 64-bit sum, which then does not wrap, is above it. `GatedCalls.ShrinkRefusedAbove` and
  `GatedCalls.ShrinkRefusedBelow` give one state each.
- `unmapped_area_topdown` can fail although a suitable range exists, does not always return the highest one, and can
  return one outside its limits. `GapSearch.SearchDownFails` says for every layout exactly when it fails, and
  `GapSearch.TrappedFails` says it by the layout alone where no stack lies in another's guard gap;
  `GapSearch.SearchDownExact` and `GapSearch.SearchDownInside` give the exact conditions for the other two.
  `GapSearch.CrowdedFails` and `GapSearch.UnderflowEscapes` give one layout each.
- The limit of a process is unsigned, so the tests for a negative limit in the limiter's calls never fire.
- The walk's comment that all descendants of a flagged process are flagged already is false while another walk is
  under way (`Subreaper.FlaggedTooEarly`). `Subreaper.ShortcutExact` says exactly when it holds of children and
  `Subreaper.DescendantsExact` of all descendants, after every run and at any moment;
  `Subreaper.DescendantsFlagged` is the case of no walk under way.
- The documented lock order puts the marking of areas after the hugetlb locks; the code, and the model, mark all areas
  first.
- Stack growth charges memory without looking at VM_ACCOUNT, so the commit charge drifts for stacks without it;
  `StackGrowth.ExpandDownwards` states by how much and `SystemRuns.DriftHappens` gives a state where it does.

## Model

| member | source | states |
|---|---|---|
| `Vmas.MergeAfterIsLinear` | Proyecto3/project3/mm/mmap.c:805-819 | an area that passes `can_vma_merge_after` continues the request: same attributes, and the file offsets run on linearly from one into the other |
| `Vmas.MergeBeforeIsLinear` | Proyecto3/project3/mm/mmap.c:782-794 | the same for `can_vma_merge_before`, with the request's length in pages added to its offset |
| `Vmas.SameKindExact` | Proyecto3/project3/mm/mmap.c:730-754 | two areas are of one kind if and only if they show every address the same flags but VM_SOFTDIRTY, file, offset, policy, userfaultfd context and name |
| `Trees.Disjoint` | Proyecto3/project3/mm/mmap.c:290-339 | in a consistent tree two different areas never overlap; with the tree a map from address to area this is sortedness |
| `AddressSpaces.ViewBounded` | Proyecto3/project3/mm/mmap.c:290-339 | every mapped address lies below TASK_SIZE, so the mapped bytes are at most TASK_SIZE |
| `Merging.DupAnonVma` | Proyecto3/project3/mm/mmap.c:600-621 | the destination adopts the source's anon_vma and chain if it has none, reports which area was given a copy, and fails, changing nothing, exactly when a copy is needed and the clone fails |
| `Merging.Finish` | Proyecto3/project3/mm/mmap.c:520-590 | the closing half of a merge: resized area stored, swallowed areas gone, the boundary of a neighbour moved, `map_count` lowered by exactly the areas removed; a failed preallocation undoes the anon_vma copy |
| `MergeCases.GrowCase` | Proyecto3/project3/mm/mmap.c:945-1008 | cases 1, 2, 3, 6, 7 and 8 at the level of tree and pool: one area swallows the others, and the view becomes the old one overridden by the request, anon_vmas included |
| `MergeCases.ShiftCase` | Proyecto3/project3/mm/mmap.c:976-991 | cases 4 and 5: the boundary between two neighbours moves, and again exactly the request's range changes |
| `Merging.VmaMerge` | Proyecto3/project3/mm/mmap.c:873-1062 | success turns the view into the old one overridden on exactly [addr, end), keeps every anon_vma that moved, and leaves exactly the tree, pool and returned area that the case at hand makes; NULL leaves tree, pool and counters as they were; and it merges if and only if the request is mergeable and the allocations it needs succeed |
| `Merging.JoinsExact` | Proyecto3/project3/mm/mmap.c:756-819 | of all areas there are, exactly those join that end or start where the request does, show the same at every address, have the same anon_vma or one of the two none with a chain of length one, and, above the request, no close operation |
| `Merging.MergeableExact` | Proyecto3/project3/mm/mmap.c:873-1062 | a request is mergeable if and only if it has none of the four special flags, an area on one side joins it, and no area with a close operation would go in the middle |
| `Merging.BlockExact` | Proyecto3/project3/mm/mmap.c:964-975 | the last condition: the request is all of an area with a close operation, the area below takes it over, and whatever joins above has another anon_vma |
| `Merging.MergeFacts` | Proyecto3/project3/mm/mmap.c:911-929 | every neighbour that the tests accept continues the request linearly, and all anon_vmas that will be joined agree |
| `Splitting.SplitKeeps` | Proyecto3/project3/mm/mmap.c:2345-2421 | cutting an area in two keeps the tree consistent and the view equal, whichever half is the new one |
| `Splitting.SplitUnchecked` | Proyecto3/project3/mm/mmap.c:2345-2421 | `__split_vma` yields exactly the two parts with offsets adjusted, a new identity for one of them and `map_count` one higher, or changes nothing |
| `Splitting.Split` | Proyecto3/project3/mm/mmap.c:2427-2434 | `split_vma` succeeds exactly when `map_count` is below the limit and the split itself is possible, and ends at or below the limit |
| `Modifying.VmaModify` | Proyecto3/project3/mm/mmap.c:2449-2482 | it merges if and only if the request is mergeable and the allocations succeed, and then changes exactly the requested range; otherwise the view is unchanged, also after a first split when the second fails; it returns an area if and only if it merged or both splits it needs work, each with its own outcome; the areas left and the area returned are exact for each ending; no area is left detached |
| `Modifying.SplitOut` | Proyecto3/project3/mm/mmap.c:2466-2479 | both splits work if and only if each is granted and `map_count` leaves room for it; then the area is exactly [start, end); the view never changes, and the areas left are exact, also when only the first split works |
| `Modifying.ModifyAndSet` | Proyecto3/project3/mm/mmap.c:2449-2482 | `vma_modify` followed by setting the attributes changes exactly [start, end), however many splits it took, or nothing, and leaves exactly the merged or split areas with the new attributes in one; what is mapped stays the same, so without a change of VM_LOCKED and VM_ACCOUNT the address space stays valid and the charge the same |
| `Modifying.RequestShows` | Proyecto3/project3/mm/mmap.c:2449-2462 | what the requested range shows afterwards: the new flags, policy, userfaultfd context and name, and at each address the file and offset that were there |
| `Unmapping.GatherStep` | Proyecto3/project3/mm/mmap.c:2572-2608 | one round detaches one more area of the range, splitting its end off if it sticks out, exactly when the split, the store and the hook it needs succeed; the view is unchanged, and tree, pool and next identity are given for every way it ends |
| `Unmapping.Gather` | Proyecto3/project3/mm/mmap.c:2567-2608 | the loop works if and only if the end split it needs and every store and hook up to the number of areas in the range succeed; it gathers exactly those areas, counts the locked ones, and leaves the areas outside the range at most cut off at its end; wherever it stops, apart from the marks, the areas are those before it with the end split off if and only if it got as far as the last area |
| `Unmapping.StopsHere` | Proyecto3/project3/mm/mmap.c:2572-2608 | a round that fails is at the last area of the range or comes before the area across its end, so whether the end has been split off follows from the outcomes alone |
| `Unmapping.Unwind` | Proyecto3/project3/mm/mmap.c:2665-2671 | the unwinding of a failed unmap takes exactly the marks off again, and nothing else of any area changes |
| `Unmapping.RemoveMt` | Proyecto3/project3/mm/mmap.c:2298-2314 | the counters and the commit charge go down by exactly the pages, and the VM_ACCOUNT pages, of the gathered areas |
| `Unmapping.AlignMunmap` | Proyecto3/project3/mm/mmap.c:2529-2678 | it works if and only if it punches no hole at the limit and every split, store, hook and clear it needs succeeds; then exactly [start, end) leaves the view and the areas outside are at most cut off; any failure, also after one or two splits, leaves the view and the counters as they were and nothing detached; tree and pool are exact for every ending, with the splits that stay behind; from `map_count` at or below the limit success ends there |
| `Unmapping.DoMunmap` | Proyecto3/project3/mm/mmap.c:2696-2722 | for any 64-bit start and length: EINVAL if and only if the range is bad, success if and only if nothing is mapped there or unmapping works, all or nothing, with the exact areas left |
| `Unmapping.GoodRangeExact` | Proyecto3/project3/mm/mmap.c:2703-2708 | a range is accepted if and only if it starts on a page, is not empty and ends in the user address space; the length may be any, and rounded up still ends there |
| `Unmapping.HeadsStep` | Proyecto3/project3/mm/mmap.c:2572-2608 | each round records one more of the places where the range enters an area, which is what the n-th store and hook are counted by |
| `Unmapping.StartSplitKeeps` | Proyecto3/project3/mm/mmap.c:2546-2565 | the split at the start changes neither the areas of the range nor what will be left outside it |
| `Unmapping.MinusTally` | Proyecto3/project3/mm/mmap.c:2298-2314 | removing the gathered areas lowers the mapped and the charged bytes by the sums over those areas |
| `Counting.CountVmaPagesRange` | Proyecto3/project3/mm/mmap.c:377-392 | the count equals the mapped pages of the range and never exceeds its length |
| `Counting.WithoutBytes` | Proyecto3/project3/mm/mmap.c:2760-2768 | unmapping a range lowers the mapped bytes by exactly the mapped bytes of the range, which is why the count may be subtracted before the limit check |
| `Mapping.VmaExpand` | Proyecto3/project3/mm/mmap.c:640-685 | the area covers [start, end), swallows `next` exactly when it reaches its end, and takes its anon_vma over; failure changes nothing |
| `Mapping.ExpandMerges` | Proyecto3/project3/mm/mmap.c:2793-2821 | expanding prev, expanding next or joining both gives the view overridden by the request and the pool shrinks by exactly the swallowed area |
| `Mapping.TryExpand` | Proyecto3/project3/mm/mmap.c:2793-2821 | it expands if and only if a neighbour accepts the request and the reservation and the clone it needs succeed; which neighbour, and the areas afterwards, are exact |
| `Mapping.TouchingExact` | Proyecto3/project3/mm/mmap.c:2793-2814 | whom the tests accept: exactly the areas that meet the request in the sense of `Merging.JoinsExact`, the one below asked for the anon_vma of the one above if that one joins too |
| `Mapping.GrowsExact` | Proyecto3/project3/mm/mmap.c:2787-2821 | no new area is made if and only if the request is not special, some area meets it and the tree can be prepared; a failing clone never matters |
| `Mapping.CreateArea` | Proyecto3/project3/mm/mmap.c:2825-2942 | a new area shows exactly the request, with the shmem file for shared anonymous memory; the first of the source's checks to fail gives its own error code and leaves everything as it was |
| `Mapping.MakeRoom` | Proyecto3/project3/mm/mmap.c:2756-2773 | it succeeds if and only if the pages fit the limit, as they are or without those in the way, and the range can be unmapped; then the range is free and what is left around it is only cut off; otherwise nothing changes |
| `Mapping.Settle` | Proyecto3/project3/mm/mmap.c:2946-2968 | `total_vm`, `locked_vm` and the area's lock flags end in agreement with the view, and every address of the range lies in an area marked VM_SOFTDIRTY |
| `Mapping.MapFree` | Proyecto3/project3/mm/mmap.c:2775-2996 | on a free range the areas that touch it and the outcomes decide how it ends: charge refused, neighbour expanded, area created or an error, with the exact areas left and the charge handed back on every failure path |
| `Mapping.MmapRegion` | Proyecto3/project3/mm/mmap.c:2740-2996 | one ending for each state, request and set of outcomes: refused with the view unchanged, refused with exactly the range unmapped, or mapped with the view overridden on exactly [addr, end); the areas left are exact for each; success leaves the range marked VM_SOFTDIRTY and `total_vm` within RLIMIT_AS, MAP_FIXED included, and the commit charge follows the VM_ACCOUNT pages |
| `Mapping.RegionWorks` | Proyecto3/project3/mm/mmap.c:2740-2996 | with good outcomes and room in both limits the mapping is placed |
| `Mapping.SharedFile` | Proyecto3/project3/mm/mmap.c:2894-2897 | while all shared memory has a file, shared anonymous memory joins no neighbour and gets its file from shmem |
| `Mapping.FlanksAt` | Proyecto3/project3/mm/mmap.c:2785-2814 | only the areas that touch the range can join it, whatever the iterator finds on either side |
| `GapSearch.UnmappedArea` | Proyecto3/project3/mm/mmap.c:1594-1634 | the loop with its `goto retry` computes the upward search; the result is free, inside the limits (an upper limit of zero wraps) and has the wanted residue; without alignment it is the lowest suitable range, and it fails only if there is none |
| `GapSearch.ClearAboveExact` | Proyecto3/project3/mm/mmap.c:1617-1626 | keeping clear of the next guard gap is a distance to the area next above: none to an ordinary area, the guard gap to a stack |
| `GapSearch.StepUp` | Proyecto3/project3/mm/mmap.c:1594-1634 | one pass settles on a free range with the wanted residue; if it is not rejected it is clear of the next guard gap, and if it is, no suitable range is skipped by going past the stack that rejected it |
| `GapSearch.SearchUpSound` | Proyecto3/project3/mm/mmap.c:1594-1634 | what the upward search returns is free, inside the limits, has the wanted residue, keeps clear of the next guard gap and is page-aligned from page-aligned limits |
| `GapSearch.SearchUpLowest` | Proyecto3/project3/mm/mmap.c:1594-1634 | without alignment no suitable range lies below the result, and there is a result if there is a suitable range |
| `GapSearch.UnmappedAreaTopdown` | Proyecto3/project3/mm/mmap.c:1646-1686 | the loop with its `goto retry` computes the recursive downward search |
| `GapSearch.SearchDownSound` | Proyecto3/project3/mm/mmap.c:1646-1686 | whatever the layout, the result is free, at or above the lower limit, has the wanted residue and keeps clear of the next guard gap |
| `GapSearch.SearchDownInside` | Proyecto3/project3/mm/mmap.c:1646-1686 | for every alignment the result lies outside the limits if and only if some retry lowers the limit to zero, which wraps |
| `GapSearch.NoUnderflowNoZero` | Proyecto3/project3/mm/mmap.c:1662-1675 | if no guard gap reaches address zero no retry lowers the limit to zero |
| `GapSearch.SearchDownAligned` | Proyecto3/project3/mm/mmap.c:1646-1686 | page-aligned limits and length give a page-aligned result |
| `GapSearch.SearchDownFinds` | Proyecto3/project3/mm/mmap.c:1646-1686 | no suitable range that is not trapped (no window above it is ruled out by a guard gap reaching into it) lies above the result |
| `GapSearch.SearchDownExact` | Proyecto3/project3/mm/mmap.c:1646-1686 | the highest suitable range is returned if and only if no retry lowers the limit below its end, whatever the layout |
| `GapSearch.LimitFollows` | Proyecto3/project3/mm/mmap.c:1662-1675 | the search goes through exactly these limits |
| `GapSearch.CutOffIsTrapped` | Proyecto3/project3/mm/mmap.c:1669-1675 | where no stack lies in another's guard gap that is the same as being trapped: some window above the range is ruled out by a guard gap that reaches into it |
| `GapSearch.UncrowdedUntrapped` | Proyecto3/project3/mm/mmap.c:1669-1675 | where no area lies in a guard gap nothing is trapped |
| `GapSearch.SearchDownFails` | Proyecto3/project3/mm/mmap.c:1646-1686 | the search fails if and only if no retry lowers the limit to zero and every suitable range, if there is any, is cut off by some retry, whatever the layout |
| `GapSearch.TrappedFails` | Proyecto3/project3/mm/mmap.c:1646-1686 | where no stack lies in another's guard gap the layout decides: it fails if and only if no retry lowers the limit to zero and every suitable range is trapped |
| `GapSearch.CrowdedFails` | Proyecto3/project3/mm/mmap.c:1669-1675 | a concrete layout with an area inside a guard gap, where the search fails although a suitable range exists |
| `GapSearch.UnderflowEscapes` | Proyecto3/project3/mm/mmap.c:1662-1675 | a concrete layout with a stack near address zero, where the result lies outside the limits |
| `Placement.SearchGap` | Proyecto3/project3/mm/mmap.c:1721-1819 | the two generic searches, with the bottom-up fallback of the top-down one, compute the specified gap |
| `Placement.GapForMeans` | Proyecto3/project3/mm/mmap.c:1721-1819 | the gap is free, page-aligned and clear of guard gaps; it lies inside the user address space if and only if the top-down search does not underflow; there is none only if the fallback range holds nothing suitable |
| `Placement.GapForPrefers` | Proyecto3/project3/mm/mmap.c:1721-1819 | which gap is taken: top-down, none that no retry cuts off lies above it, below the base; bottom-up, or top-down if every range is cut off and nothing underflows, the lowest suitable one from the fallback base on |
| `Placement.HintExact` | Proyecto3/project3/mm/mmap.c:1736-1744 | a hint is used as it is if and only if its range is one the search could return: inside the limits, free and clear of the next guard gap |
| `Placement.GetUnmappedArea` | Proyecto3/project3/mm/mmap.c:1831-1876 | the code computes the specified place or error for any address and length |
| `Placement.PlaceForMeans` | Proyecto3/project3/mm/mmap.c:1831-1876 | a place is page-aligned and inside the user address space, free and clear of guard gaps unless fixed; a usable fixed address is kept; a refusal without outside cause means an underflow of the top-down search or nothing suitable, and an underflow without a hint always refuses |
| `Placement.ChoosePlace` | Proyecto3/project3/mm/mmap.c:1250-1280 | the code computes the specified address or error |
| `Placement.ChosenMeans` | Proyecto3/project3/mm/mmap.c:1250-1280 | MAP_FIXED keeps the address, MAP_FIXED_NOREPLACE refuses a range in use, everything else gets free space clear of guard gaps; a place that exists is found |
| `Placement.HintKept` | Proyecto3/project3/mm/mmap.c:1165-1173 | without MAP_FIXED the hint, rounded down to a page or up to the lowest address allowed, is kept if it is not zero and its range is suitable; otherwise the search decides |
| `Placement.NoReplaceExact` | Proyecto3/project3/mm/mmap.c:1277-1280 | MAP_FIXED_NOREPLACE is refused with EEXIST if and only if the address could be used but for something mapped there |
| `Placement.DoMmap` | Proyecto3/project3/mm/mmap.c:1226-1403 | one ending for each state, request and set of outcomes, shown by the result, the view and the exact areas left: an error before anything changes, or an address at which `mmap_region` ends; `total_vm`, the VM_SOFTDIRTY marks and the commit charge as there |
| `Placement.MmapEndsMean` | Proyecto3/project3/mm/mmap.c:1226-1403 | a mapping lies page-aligned inside the user address space over the rounded length, at the fixed address if there is one, over nothing else without MAP_FIXED, clear of guard gaps if the search chose; without MAP_FIXED a failure therefore changes nothing; lengths that round to zero or exceed TASK_SIZE never get there |
| `Placement.MmapShows` | Proyecto3/project3/mm/mmap.c:1226-1403 | what a mapping shows, address by address: the file and offset asked for, for shared anonymous memory the offset from its start, for private anonymous memory the address itself; the flags asked for, with VM_ACCOUNT if and only if the memory is private, writable and reserved, and without lock flags if it is special; no policy, context or name; and nothing changes elsewhere |
| `Placement.SharedBacked` | Proyecto3/project3/mm/mmap.c:1361-1372 | from a view in which all shared memory has a file, shared anonymous memory shows the file shmem made, and after any mapping all shared memory has a file |
| `Placement.MmapRefusals` | Proyecto3/project3/mm/mmap.c:1237-1275 | the errors before a place is looked for, in the order of the source: no length, a length that rounds to zero, an offset that wraps, too many areas; after them only the place and the permissions refuse |
| `Placement.MmapWorks` | Proyecto3/project3/mm/mmap.c:1226-1403 | the request is mapped whenever there is a place for it, the limits allow and nothing outside refuses |
| `Placement.MmapDoneUnique` | Proyecto3/project3/mm/mmap.c:1226-1403 | one ending leaves one result and one view |
| `HeapBreak.DoBrkFlags` | Proyecto3/project3/mm/mmap.c:3149-3228 | the heap grows by exactly [addr, addr+len) by extending the area below or by a new one, or nothing changes, not even an area; the new range is marked VM_SOFTDIRTY; success if and only if limits and allocations allow |
| `HeapBreak.HeapJoinsExact` | Proyecto3/project3/mm/mmap.c:3174-3188 | the area below is extended if and only if the heap begins below it and an area there meets the new one: same flags, no file, name or policy, not cloned at a fork |
| `HeapBreak.GrowWorksExact` | Proyecto3/project3/mm/mmap.c:3149-3228 | growing works if and only if RLIMIT_AS, `map_count` and the outside world allow, and the area below can be extended or, where none joins, a new one be made |
| `HeapBreak.PlanRanges` | Proyecto3/project3/mm/mmap.c:181-288 | whatever 64-bit break is asked for, `brk` only ever touches the range between the rounded breaks, inside the user address space; a rounding that wraps changes nothing |
| `HeapBreak.PlanExact` | Proyecto3/project3/mm/mmap.c:181-273 | for every break asked for and every layout: only the break moves if and only if the rounded breaks agree; the heap shrinks if and only if the new one is lower and something is mapped between them; it grows if and only if it is higher, the limits allow it and the area next above, or its guard gap, leaves a page of room; and nothing else is ever decided |
| `HeapBreak.BrkWorks` | Proyecto3/project3/mm/mmap.c:181-288 | whatever is decided works if the limits leave room and nothing outside fails |
| `HeapBreak.ShrinkHeap` | Proyecto3/project3/mm/mmap.c:235-254 | a shrink removes exactly the pages between the breaks if unmapping works, and else leaves break and view as they were |
| `HeapBreak.Brk` | Proyecto3/project3/mm/mmap.c:181-288 | accepted, the call carries out the original plan, and break and view both change if and only if its operation works; refused, neither changes; the areas left are exact, and pages gained are marked VM_SOFTDIRTY |
| `HeapBreak.BrkShows` | Proyecto3/project3/mm/mmap.c:181-288 | what the call shows, address by address: after a growth readable, writable, private, charged memory without a file over exactly the new range, after a shrink nothing in the range, and the break asked for; else the old view and break |
| `HeapBreak.OriginalBrk` | Proyecto3/project3/files/originalmmap.c:178-278 | the unpatched call carries out the same plan under the same condition and leaves the same areas |
| `HeapBreak.MoveBreak` | Proyecto3/project3/mm/mmap.c:231-273 | setting, shrinking or growing follows the plan, and works if and only if the unmap or the growth it needs works |
| `StackGrowth.ExpandDownwards` | Proyecto3/project3/mm/mmap.c:2088-2175 | the error is EFAULT, EPERM, ENOMEM or none by exact conditions, and it succeeds exactly when the area is a stack, the area next below keeps the guard gap or needs none, and limits and allocations allow; then exactly the pages from the fault up to the stack are added; the areas left are exact for each ending, also when the stack has only been given an anon_vma; the commit charge runs ahead of the VM_ACCOUNT pages exactly when the stack lacks VM_ACCOUNT |
| `StackGrowth.GuardExact` | Proyecto3/project3/mm/mmap.c:2102-2110 | the area the iterator steps back to is the area next below, so the guard test is about that one |
| `Limiter.ToMapUpdate` | Proyecto3/project3/kernel/usac/project3/crudmemlimit.c:194-202 | writing the limit of an entry in place is updating the map at its pid |
| `Limiter.ToMapRemove` | Proyecto3/project3/kernel/usac/project3/crudmemlimit.c:228-237 | unlinking the entry of a pid is removing the pid from the map |
| `Limiter.ListFacts` | Proyecto3/project3/kernel/usac/project3/crudmemlimit.c:21-27 | with unique pids the list and the map have the same size and the same pairs |
| `Limiter.Newest` | Proyecto3/project3/kernel/usac/project3/crudmemlimit.c:147-157 | any prefix of the list holds the most recently added entries, newest first |
| `Limiter.MemoryLimiter.Add` | Proyecto3/project3/kernel/usac/project3/crudmemlimit.c:72-117 | errors in the source's order, else the map gains the pid as its newest entry; pids stay unique |
| `Limiter.MemoryLimiter.Find` | Proyecto3/project3/kernel/usac/project3/crudmemlimit.c:95-101 | the first entry of a pid is found exactly when the map has the pid |
| `Limiter.MemoryLimiter.Get` | Proyecto3/project3/kernel/usac/project3/crudmemlimit.c:127-174 | the min(max_entries, size) most recently added entries with their current limits, newest first |
| `Limiter.MemoryLimiter.Update` | Proyecto3/project3/kernel/usac/project3/crudmemlimit.c:178-206 | the map changes at exactly that pid and the order stays, or an error changes nothing |
| `Limiter.MemoryLimiter.Remove` | Proyecto3/project3/kernel/usac/project3/crudmemlimit.c:213-241 | exactly that pid disappears, or an error changes nothing |
| `Limiter.MemoryLimiter.IsRequestAccepted` | Proyecto3/project3/kernel/usac/project3/crudmemlimit.c:32-67 | the first match on the list answers as the map does, on 64-bit arithmetic; unlisted pids are accepted |
| `Limiter.AcceptsExact` | Proyecto3/project3/kernel/usac/project3/crudmemlimit.c:47-66 | an unlisted pid passes, and a listed one if and only if usage and request together, less one wrap of a 64-bit word if there is one, are at most its limit |
| `Limiter.Perform` | Proyecto3/project3/kernel/usac/project3/crudmemlimit.c:72-241 | under every sequence of add, update and remove the list stands for the map the same operations make, and every operation answers as it does on that map |
| `GatedCalls.GateOrRefusal` | Proyecto3/project3/kernel/usac/project3/crudmemlimit.c:49-61 | an accepted length, even one whose sum wrapped, either fits the limit after rounding or is refused later by the length checks of `do_mmap` |
| `GatedCalls.ShrinkGate` | Proyecto3/project3/mm/mmap.c:225-228 | for every call the original would carry out as a shrink by d bytes, the gate accepts if and only if d is at most the usage and the rest is within the limit, or d exceeds the usage and the sum, which then does not wrap, is within the limit |
| `GatedCalls.ShrinkRefusedAbove` | Proyecto3/project3/mm/mmap.c:225-236 | a state above the limit in which giving back a page is refused |
| `GatedCalls.ShrinkRefusedBelow` | Proyecto3/project3/mm/mmap.c:225-236 | a state far below the limit in which moving the break down over a mostly unmapped heap is refused |
| `GatedCalls.GrowthGate` | Proyecto3/project3/mm/mmap.c:225-228 | a growth passes the gate if and only if usage after it is within the limit, and a break that stays in its page if and only if usage is |
| `GatedCalls.SysBrk` | Proyecto3/project3/mm/mmap.c:181-288 | accepted calls carry out the original plan, refused ones do nothing; an unlisted pid is always accepted; for a listed one each kind of plan is accepted exactly as above; a limited task ends at or below max(usage before, limit rounded up) |
| `GatedCalls.SysMmap` | Proyecto3/project3/mm/mmap.c:1405-1456 | accepted calls end exactly as `do_mmap` does on the same state and outcomes, refused ones with ENOMEM and no change; the gate sees the length before rounding and, where the sum does not wrap, accepts if and only if it is within the limit; the bound on usage as for `brk` |
| `GatedCalls.OneCall` | Proyecto3/project3/mm/mmap.c:181-288 | brk, mmap or munmap of the patched kernel: if the gate passes it, the original kernel's answer and the original kernel's address space, as functions of the address space before; if not, the denial and no change |
| `GatedCalls.OriginalCall` | Proyecto3/project3/files/originalmmap.c:178-278 | the unpatched calls, built without the gate, compute those functions |
| `GatedCalls.CallRefines` | Proyecto3/project3/files/originalmmap.c:178-278 | any call of the patched kernel, beside the original kernel on a twin that sees it only if it is accepted, leaves the twins equal: tree, pool, next identity, `map_count`, `total_vm`, `locked_vm` and break; accepted, both give the same answer and charge, and which calls are accepted is given by the address space before |
| `GatedCalls.RunIsOriginal` | Proyecto3/project3/files/originalmmap.c:178-278 | every run of the patched kernel is a run of the original on exactly the calls that pass, with the same answers, from and to the same address space |
| `GatedCalls.RunRefines` | Proyecto3/project3/files/originalmmap.c:1395-1438 | both kernels run side by side on every sequence of brk, mmap and munmap: the patched one goes through such a run from the given address space, the original answers the calls that pass the same, and at the end areas, counters, break and charge are equal; an unlisted pid has no other calls |
| `GatedCalls.SysMunmap` | Proyecto3/project3/mm/mmap.c:2998-3026 | munmap is not gated, works exactly as `do_vmi_munmap`, and never raises usage |
| `GatedCalls.RunLimited` | Proyecto3/project3/kernel/usac/project3/crudmemlimit.c:49-61 | over every sequence of brk, mmap and munmap calls of one task, each call doing what `GatedCalls.OneCall` says, usage before, between and after them is at most max(usage at the start, limit rounded up), and the commit charge is conserved |
| `Forking.ForkCopy` | Proyecto1/kernel-linux/kernel/fork.c:742-748 | storing the copy of one area extends the part of the child that is its own, and shows that area minus its lock flags, with the userfaultfd context that the fork carries over or none |
| `Forking.ForkArea` | Proyecto1/kernel-linux/kernel/fork.c:671-759 | each step of duplicating one area, and each way it fails: what is the child's own stays separate from what is still the parent's, and charge and counters follow |
| `Forking.ForkAreas` | Proyecto1/kernel-linux/kernel/fork.c:671-759 | the loop over all areas, stopped anywhere |
| `Forking.CopiedNext` | Proyecto1/kernel-linux/kernel/fork.c:671-748 | one more area copied, field by field: same range, offset, file, policy and name, no lock flags, the userfaultfd context that is carried over, the anon_vma and chain unless VM_WIPEONFORK |
| `Forking.DupMmap` | Proyecto1/kernel-linux/kernel/fork.c:631-794 | it succeeds if and only if no step that some area takes fails, and then gives a valid child that sees the parent's view without VM_DONTCOPY areas and lock flags, and holds for every such area a copy of it, field by field; failure at any area and step leaves a tree whose marker separates the child's areas from the parent's, with `map_count` equal to the child's own |
| `Teardown.ReleaseStep` | Proyecto3/project3/mm/mmap.c:3325-3333 | the next entry before the marker is an area of this address space, not yet released |
| `Teardown.AllReleased` | Proyecto3/project3/mm/mmap.c:3325-3335 | when the walk stops, at the marker or at the end, every own area has been released |
| `Teardown.ExitMmap` | Proyecto3/project3/mm/mmap.c:3278-3342 | also after a failed fork: the areas freed are exactly the own ones, each once, so the BUG_ON cannot fire; tree and pool are empty; the charge of the VM_ACCOUNT pages is returned |
| `Forking.DupMm` | Proyecto1/kernel-linux/kernel/fork.c:1675-1710 | a fork yields a valid child that sees the forked view, with a copy of every area, the parent's heap start and break, and the default flags that are inherited, if and only if every allocation and step it needs succeeds; otherwise the commit charge is as it was and nothing of the parent's has been freed |
| `AddressSpaces.Mm.CopyOf` | Proyecto1/kernel-linux/kernel/fork.c:1256-1316 | the child starts as the parent's copy with an empty tree and the counters that `mm_init` resets |
| `AddressSpaces.Mm.Fresh` | Proyecto1/kernel-linux/kernel/fork.c:1328-1337 | an address space starts valid, empty and uncharged |
| `AddressSpaces.LooksGood` | Proyecto3/project3/mm/mmap.c:290-339 | in a valid address space `map_count` and `total_vm` are what the areas themselves say, so that what a call does can be said of the areas and the break alone |
| `SystemRuns.GrowStack` | Proyecto3/project3/mm/mmap.c:2221-2238 | a fault extends the stack above it by exactly the pages down to the fault, or changes nothing to be seen, with the exact areas left, and keeps the address space valid; the charge moves away from the charged areas by exactly the growth of a stack without VM_ACCOUNT, and not at all if all stacks are charged for |
| `SystemRuns.DriftHappens` | Proyecto3/project3/mm/mmap.c:1973-1980 | a state with one stack without VM_ACCOUNT where a fault in the page below leaves the commit counter one page ahead of the charged areas |
| `SystemRuns.Modify` | Proyecto3/project3/mm/mmap.c:2449-2482 | a caller of `vma_modify` keeps the address space valid and the charge the same, changes exactly [start, end) if and only if it lies in one area and merging or splitting works, and leaves exactly the areas that `vma_modify` leaves |
| `SystemRuns.System.Start` | Proyecto1/kernel-linux/kernel/fork.c:1328-1337 | a new program adds one fresh, empty, valid address space with the given break, and leaves the others as they were |
| `SystemRuns.System.Step` | Proyecto3/project3/mm/mmap.c:290-339 | any event does to the address space it is about exactly what the operation does, areas and break included, and touches no other; all address spaces stay valid and the surplus of the commit counter unchanged; the drift grows by exactly what a stack fault adds, never falls, and stands still if all stacks are charged for |
| `SystemRuns.System.Fork` | Proyecto1/kernel-linux/kernel/fork.c:1675-1710 | a fork adds one fresh valid address space with the forked view, the copied areas and the parent's break, exactly when the duplication survives, or changes nothing, charge included |
| `SystemRuns.System.Exit` | Proyecto3/project3/mm/mmap.c:3278-3342 | an exit removes the address space and exactly its charge |
| `SystemRuns.System.Run` | Proyecto3/project3/mm/mmap.c:290-339 | over every run of program start, mmap, munmap, brk, attribute changes by merge and split, stack growth, fork and exit, failures included, every step does exactly what its event says, and: areas stay well formed and disjoint, `map_count`, `total_vm` and `locked_vm` stay exact, and the commit counter changes by exactly the VM_ACCOUNT pages of live areas and the drift, to which only stack faults add; from charged stacks, events that keep them charged leave no drift |
| `TreeWalk.WalkProcessTree` | Proyecto1/kernel-linux/kernel/fork.c:3218-3248 | the walk without a stack ends on every well-formed forest and calls the visitor on the same processes in the same order, with the same states, as the recursive pre-order walk that skips below a zero and aborts on a negative answer |
| `TreeWalk.OneRound` | Proyecto1/kernel-linux/kernel/fork.c:3225-3247 | what each turn of the loop, each `goto down` and each `goto up` does to the rest of the recursive walk |
| `TreeWalk.DescendAndReturn` | Proyecto1/kernel-linux/kernel/fork.c:3238-3244 | going up through `real_parent` and `group_leader` resumes at the next sibling of the child gone into |
| `Propagation.PreorderSpreads` | Proyecto1/kernel-linux/kernel/sys.c:2294-2310 | the visitor never aborts, flags all children left that are not namespace reapers, and every process it newly flags has all such children flagged |
| `Propagation.PreorderLeast` | Proyecto1/kernel-linux/kernel/sys.c:2294-2310 | it flags nothing beyond what any set with these properties must hold |
| `Propagation.SetChildSubreaper` | Proyecto1/kernel-linux/kernel/sys.c:2599-2604 | one call on its own leaves the least set that holds the old flags, the children of the caller and the children of all newly flagged processes; clearing the flag propagates nothing |
| `Subreaper.GroundedStep` | Proyecto1/kernel-linux/kernel/sys.c:2294-2310 | no step flags a process whose parent neither has the flag nor ever was a subreaper |
| `Subreaper.CoveredStep` | Proyecto1/kernel-linux/kernel/sys.c:2294-2310 | after every step an unflagged child of a flagged process is on some walk's list, and of a subreaper also if that subreaper's walk has not begun |
| `Subreaper.StepKeeps` | Proyecto1/kernel-linux/kernel/fork.c:2688-2695 | the two together are kept by forks, flag changes and every step of any number of overlapping walks |
| `Subreaper.ReachableInv` | Proyecto1/kernel-linux/kernel/sys.c:2599-2604 | they hold after every run from a forest without flags |
| `Subreaper.SubreaperExact` | Proyecto1/kernel-linux/kernel/sys.c:2599-2604 | after every run a process is a subreaper if and only if the last it did about it was to ask for it |
| `Subreaper.ForkInherits` | Proyecto1/kernel-linux/kernel/fork.c:2688-2695 | in every run, a child forked at any point has the flag at once if and only if its parent had it or was a subreaper then, and keeps it, its parent and whether it reaps its namespace to the end |
| `Subreaper.FinishWalk` | Proyecto1/kernel-linux/kernel/sys.c:2294-2310 | from every such state a walk under way can be brought to its end by visits alone |
| `Subreaper.AllReturn` | Proyecto1/kernel-linux/kernel/fork.c:3218-3248 | and so can all calls under way, after which every process can fork: no run is stuck |
| `Subreaper.ShortcutExact` | Proyecto1/kernel-linux/kernel/sys.c:2296-2303 | after every run, at any moment: every child of a flagged process that is not a namespace reaper is flagged, which is what the walk's shortcut relies on, if and only if no walk has an unflagged such child on its list |
| `Subreaper.DescendantsExact` | Proyecto1/kernel-linux/kernel/sys.c:2296-2303 | the same for all descendants of a flagged process or a subreaper reached without passing a namespace reaper: all are flagged if and only if no walk under way or about to begin still has to come to an unflagged one |
| `Subreaper.DescendantsFlagged` | Proyecto1/kernel-linux/kernel/sys.c:2296-2303 | after every run, while no walk is under way, the flag of a process, or of a subreaper that has finished its walk, is on every descendant reached without passing a namespace reaper |
| `Subreaper.FlagHasOrigin` | Proyecto1/kernel-linux/kernel/sys.c:2294-2310 | after every run, a flagged process has a proper ancestor that set the subreaper flag in the course of the run |
| `Subreaper.FlaggedTooEarly` | Proyecto1/kernel-linux/kernel/sys.c:2296-2303 | a reachable state in the middle of a walk in which a process is flagged and its child is not |
| `WalkSteps.VisitStep` | Proyecto1/kernel-linux/kernel/sys.c:2294-2310 | one call of the visitor is one visit step of the protocol |
| `WalkSteps.RestIsVisits` | Proyecto1/kernel-linux/kernel/fork.c:3218-3248 | the rest of a walk, from any point on, is a possible sequence of visits of the same processes in the same order with the same flags at the end |
| `WalkSteps.WalkIsRun` | Proyecto1/kernel-linux/kernel/fork.c:3218-3248 | a call that walks the tree in one go is a possible run of the protocol: it starts, visits what the stackless walk visits, and ends with nothing left to visit |
| `Interleaving.TurnFollows` | Proyecto1/kernel-linux/kernel/fork.c:3225-3247 | the turns used below are those of the loop: what is left of the recursive walk after a turn is what is left before it, one round later |
| `Interleaving.TurnPending` | Proyecto1/kernel-linux/kernel/fork.c:3225-3247 | from any position of the loop: a turn that visits takes exactly that process off what is pending and adds its children if it goes down, any other turn leaves what is pending as it is, and a finished walk has nothing pending |
| `Interleaving.GoIsStep` | Proyecto1/kernel-linux/kernel/sys.c:2294-2310 | with other walks under way, a turn of one of them is one visit step of the protocol, its end, or no step, and each walk's list stays what its position leaves pending |
| `Interleaving.TurnsAreRun` | Proyecto1/kernel-linux/kernel/sys.c:2599-2604 | any interleaving of turns of any number of stackless walks with starting calls, setting and clearing flags is a run of the protocol, by exactly the events its moves stand for, with the same flags and with each walk's list equal to what is pending for it |
| `Interleaving.AllFlaggedAtTheEnd` | Proyecto1/kernel-linux/kernel/sys.c:2599-2604 | so when all walks are over, in whatever order they took their turns, every child of a flagged process and of a subreaper is flagged or a namespace reaper |
| `AllLocks.LockTable.Take` | Proyecto3/project3/mm/mmap.c:3675-3713 | a lock is taken unless its mark says it is held already; no BUG, no second acquisition |
| `AllLocks.LockTable.Release` | Proyecto3/project3/mm/mmap.c:3810-3844 | a marked lock is released and unmarked, an unmarked one left alone; no BUG |
| `AllLocks.LockTable.Pass` | Proyecto3/project3/mm/mmap.c:3776-3802 | one pass holds the locks its areas ask for up to the signal, each once, in order of first request |
| `AllLocks.LockTable.TakeAllLocks` | Proyecto3/project3/mm/mmap.c:3754-3808 | from any number of areas already marked as written to, it succeeds if and only if no signal is seen at any of the 4n tests; then all locks are held in order; otherwise none is held, no mark is left and the mutex is free; areas stay marked as written to up to the signal |
| `AllLocks.LockTable.DropAllLocks` | Proyecto3/project3/mm/mmap.c:3850-3868 | whatever part of the locks is held, afterwards none is, with all marks clear and no BUG |
| `AllLocks.HeldExact` | Proyecto3/project3/mm/mmap.c:3754-3808 | the locks held are exactly those some area wants, each once, despite sharing |
| `AllLocks.HugeAsked` | Proyecto3/project3/mm/mmap.c:3776-3786 | the first pass asks for exactly the mappings that some hugetlb area maps |
| `AllLocks.HeldInOrder` | Proyecto3/project3/mm/mmap.c:3737-3743 | the mappings of hugetlb areas come before other mappings and mappings before anon_vma roots |

## Left out

- Maple tree internals: node layout, preallocation and RCU; the tree is a map and preallocation a Boolean.
- Page tables, TLB, rmap interval trees, uprobes, khugepaged, perf and accounting hooks.
- Userfaultfd events; only the context as a merge key, and whether a fork carries it over, is modelled, and the flags of a copy that loses its context stay: `fs/userfaultfd.c` is not part of this model.
- Driver callbacks that change an area's flags or its range during `mmap`, hugetlb and DAX mappings, and the internals of shmem.
- The per-kind counters behind `vm_stat_account` (exec, stack and data pages); RLIMIT_DATA, RLIMIT_STACK and RLIMIT_MEMLOCK are free Booleans.
- Architectures with upward-growing stacks, and their branches in the gap searches and in stack growth.
- Permission, seal and file-mode checks of `do_mmap`: one outcome that can refuse with any error.
- File lookup and hugetlb rounding in `ksys_mmap_pgoff`; the gate sees the length as passed on.
- `get_unmapped_area` of files and architectures; the generic searches are modelled.
- CONFIG_COMPAT_BRK's other lower bound for the break.
- `mremap`, `mprotect`, `mlock` and `remap_file_pages`: callers whose changes go through the modelled operations; their own accounting of VM_LOCKED and VM_ACCOUNT is not modelled.
- Which anon_vma a forked child receives: the model's copy keeps the parent's, or none under VM_WIPEONFORK.
- Concurrent faults while a stack grows; the operation is modelled as one step.
- The limiter's `copy_to_user` and buffer allocation in the get call; pid namespaces in the lookup of the gate.
- Reparenting on exit in the subreaper protocol: `exit.c` is not part of this model.
- The rest of `fork.c` and `sys.c`, the statistics system calls and the `/proc` module.
