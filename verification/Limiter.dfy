/** The per-process memory limiter: a list of (pid, limit) entries behind a mutex, its four system
    calls, and the gate that `brk` and `mmap` ask. */
module Limiter {
  import opened Pages

  const EPERM: int := -1
  const ESRCH: int := -3
  const ENOMEM: int := -12
  const EINVAL: int := -22
  const ALREADY_LISTED: int := -101

  datatype Entry = Entry(pid: int, limit: nat)

  /** The finite map a list stands for: the first entry of a pid counts. */
  function ToMap(list: seq<Entry>): map<int, nat> {
    if list == [] then map[] else ToMap(list[1..])[list[0].pid := list[0].limit]
  }

  ghost predicate UniquePids(list: seq<Entry>) {
    forall i, j | 0 <= i < j < |list| :: list[i].pid != list[j].pid
  }

  lemma {:induction false} ToMapAt(list: seq<Entry>, i: int)
    requires UniquePids(list) && 0 <= i < |list|
    ensures list[i].pid in ToMap(list) && ToMap(list)[list[i].pid] == list[i].limit
  {
    if i > 0 {
      ToMapAt(list[1..], i - 1);
    }
  }

  lemma {:induction false} ToMapAbsent(list: seq<Entry>, pid: int)
    ensures pid in ToMap(list) <==> exists i :: 0 <= i < |list| && list[i].pid == pid
  {
    if list != [] {
      ToMapAbsent(list[1..], pid);
      if i :| 0 <= i < |list| && list[i].pid == pid {
        assert i > 0 ==> list[1..][i - 1].pid == pid;
      }
    }
  }

  lemma ToMapAdd(list: seq<Entry>, e: Entry)
    ensures ToMap([e] + list) == ToMap(list)[e.pid := e.limit]
  {
    assert ([e] + list)[1..] == list;
  }

  lemma {:induction false} ToMapUpdate(list: seq<Entry>, i: int, limit: nat)
    requires UniquePids(list) && 0 <= i < |list|
    ensures ToMap(list[i := list[i].(limit := limit)]) == ToMap(list)[list[i].pid := limit]
  {
    var l := list[i := list[i].(limit := limit)];
    if i == 0 {
      assert l[1..] == list[1..];
    } else {
      ToMapUpdate(list[1..], i - 1, limit);
      assert l[1..] == list[1..][i - 1 := list[i].(limit := limit)];
    }
  }

  lemma {:induction false} ToMapRemove(list: seq<Entry>, i: int)
    requires UniquePids(list) && 0 <= i < |list|
    ensures ToMap(list[..i] + list[i + 1..]) == ToMap(list) - {list[i].pid}
  {
    var l := list[..i] + list[i + 1..];
    if i == 0 {
      assert l == list[1..];
      ToMapAbsent(list[1..], list[0].pid);
    } else {
      ToMapRemove(list[1..], i - 1);
      assert l[1..] == list[1..][..i - 1] + list[1..][i..];
    }
  }

  /** A list with unique pids and its map list the same things. */
  lemma {:induction false} ListFacts(list: seq<Entry>)
    requires UniquePids(list)
    ensures |ToMap(list)| == |list|
    ensures forall i | 0 <= i < |list| :: list[i].pid in ToMap(list) && ToMap(list)[list[i].pid] == list[i].limit
    ensures forall pid | pid in ToMap(list) :: exists i :: 0 <= i < |list| && list[i].pid == pid
  {
    if list != [] {
      ListFacts(list[1..]);
      ToMapAbsent(list[1..], list[0].pid);
    }
    forall i | 0 <= i < |list|
      ensures list[i].pid in ToMap(list) && ToMap(list)[list[i].pid] == list[i].limit
    {
      ToMapAt(list, i);
    }
    forall pid | pid in ToMap(list)
      ensures exists i :: 0 <= i < |list| && list[i].pid == pid
    {
      ToMapAbsent(list, pid);
    }
  }

  /** The list runs from the most recently added entry to the oldest. */
  ghost predicate Recent(list: seq<Entry>, addedAt: map<int, int>, clock: int) {
    && (forall i | 0 <= i < |list| :: list[i].pid in addedAt && addedAt[list[i].pid] < clock)
    && (forall i, j | 0 <= i < j < |list| :: addedAt[list[j].pid] < addedAt[list[i].pid])
  }

  lemma RecentRemove(list: seq<Entry>, addedAt: map<int, int>, clock: int, i: int)
    requires UniquePids(list) && Recent(list, addedAt, clock) && 0 <= i < |list|
    ensures var l := list[..i] + list[i + 1..];
            UniquePids(l) && Recent(l, addedAt, clock)
  {
    var l := list[..i] + list[i + 1..];
    assert forall k | 0 <= k < |l| :: l[k] == list[if k < i then k else k + 1];
  }

  /** A prefix of the list holds the newest entries of the map, in order. */
  lemma Newest(list: seq<Entry>, addedAt: map<int, int>, clock: int, n: int)
    requires UniquePids(list) && Recent(list, addedAt, clock) && 0 <= n <= |list|
    ensures |ToMap(list)| == |list|
    ensures var buffer, limits := list[..n], ToMap(list);
            && (forall e | e in buffer :: e.pid in limits && limits[e.pid] == e.limit && e.pid in addedAt)
            && (forall i, j | 0 <= i < j < |buffer| :: addedAt[buffer[j].pid] < addedAt[buffer[i].pid])
            && (forall pid | pid in limits ::
                  || (exists i :: 0 <= i < |buffer| && buffer[i].pid == pid)
                  || (pid in addedAt && forall e | e in buffer :: addedAt[pid] < addedAt[e.pid]))
  {
    hide ToMap;
    ListFacts(list);
    var buffer, limits := list[..n], ToMap(list);
    forall pid | pid in limits
      ensures (exists i :: 0 <= i < |buffer| && buffer[i].pid == pid)
           || (pid in addedAt && forall e | e in buffer :: addedAt[pid] < addedAt[e.pid])
    {
      var k :| 0 <= k < |list| && list[k].pid == pid;
      if k < n {
        assert buffer[k].pid == pid;
      }
    }
  }

  class MemoryLimiter {
    var list: seq<Entry>
    ghost var clock: int
    ghost var addedAt: map<int, int>

    /** Pids are unique, and the list runs from the most recently added entry to the oldest. */
    ghost predicate Valid()
      reads this
    {
      UniquePids(list) && Recent(list, addedAt, clock)
    }

    function Limits(): map<int, nat>
      reads this
    {
      ToMap(list)
    }

    constructor ()
      ensures Valid() && Limits() == map[]
    {
      list, clock, addedAt := [], 0, map[];
    }

    /** `julioz_add_memory_limit`.  The limit is a `size_t`, so the source's test for a negative one never
        fires; the same holds for the update. */
    method Add(pid: int, limit: nat, admin: bool, taskExists: bool, allocOk: bool) returns (r: int)
      requires Valid()
      modifies this
      ensures Valid()
      ensures r == if pid < 0 then EINVAL else if !admin then EPERM else if !taskExists then ESRCH
                   else if pid in old(Limits()) then ALREADY_LISTED else if !allocOk then ENOMEM else 0
      ensures r == 0 ==> Limits() == old(Limits())[pid := limit] && addedAt == old(addedAt)[pid := old(clock)]
      ensures r != 0 ==> list == old(list) && addedAt == old(addedAt)
    {
      if pid < 0 {
        return EINVAL;
      }
      if !admin {
        return EPERM;
      }
      if !taskExists {
        return ESRCH;
      }
      var i := Find(pid);
      if i < |list| {
        return ALREADY_LISTED;
      }
      if !allocOk {
        return ENOMEM;
      }
      ToMapAdd(list, Entry(pid, limit));
      list := [Entry(pid, limit)] + list;
      addedAt, clock := addedAt[pid := clock], clock + 1;
      r := 0;
    }

    /** The walk every operation makes: the index of the first entry of a pid, or the length. */
    method Find(pid: int) returns (i: int)
      ensures 0 <= i <= |list|
      ensures i < |list| ==> list[i].pid == pid
      ensures forall j | 0 <= j < i :: list[j].pid != pid
      ensures i < |list| <==> pid in Limits()
    {
      i := 0;
      while i < |list|
        invariant 0 <= i <= |list|
        invariant forall j | 0 <= j < i :: list[j].pid != pid
      {
        if list[i].pid == pid {
          ToMapAbsent(list, pid);
          return;
        }
        i := i + 1;
      }
      ToMapAbsent(list, pid);
    }

    /** `julioz_get_memory_limits`: the most recently added entries, newest first. */
    method Get(maxEntries: int) returns (buffer: seq<Entry>)
      requires Valid() && 0 <= maxEntries
      ensures |buffer| == Min(maxEntries, |Limits()|)
      ensures forall e | e in buffer :: e.pid in Limits() && Limits()[e.pid] == e.limit && e.pid in addedAt
      ensures forall i, j | 0 <= i < j < |buffer| :: addedAt[buffer[j].pid] < addedAt[buffer[i].pid]
      ensures forall pid | pid in Limits() ::
                || (exists i :: 0 <= i < |buffer| && buffer[i].pid == pid)
                || (pid in addedAt && forall e | e in buffer :: addedAt[pid] < addedAt[e.pid])
    {
      hide UniquePids, Recent, ToMap;
      buffer := [];
      var count := 0;
      while count < |list| && count < maxEntries
        invariant 0 <= count <= |list| && count <= maxEntries
        invariant buffer == list[..count]
      {
        buffer := buffer + [list[count]];
        count := count + 1;
      }
      Newest(list, addedAt, clock, count);
    }

    /** `julioz_update_memory_limit`. */
    method Update(pid: int, limit: nat, admin: bool) returns (r: int)
      requires Valid()
      modifies this`list
      ensures Valid()
      ensures r == if pid < 0 then EINVAL else if !admin then EPERM
                   else if pid in old(Limits()) then 0 else ESRCH
      ensures r == 0 ==> Limits() == old(Limits())[pid := limit] && |list| == old(|list|)
      ensures r != 0 ==> list == old(list)
    {
      if pid < 0 {
        return EINVAL;
      }
      if !admin {
        return EPERM;
      }
      var i := Find(pid);
      if i == |list| {
        return ESRCH;
      }
      ToMapUpdate(list, i, limit);
      list := list[i := list[i].(limit := limit)];
      r := 0;
    }

    /** `julioz_remove_memory_limit`. */
    method Remove(pid: int, admin: bool) returns (r: int)
      requires Valid()
      modifies this`list
      ensures Valid()
      ensures r == if pid < 0 then EINVAL else if !admin then EPERM else if pid in old(Limits()) then 0 else ESRCH
      ensures r == 0 ==> Limits() == old(Limits()) - {pid}
      ensures r != 0 ==> list == old(list)
    {
      if pid < 0 {
        return EINVAL;
      }
      if !admin {
        return EPERM;
      }
      hide UniquePids, Recent, ToMap;
      var i := Find(pid);
      if i == |list| {
        return ESRCH;
      }
      ToMapRemove(list, i);
      RecentRemove(list, addedAt, clock, i);
      list := list[..i] + list[i + 1..];
      r := 0;
    }

    /** `is_request_accepted`: unlisted tasks always pass; a listed task passes when the 64-bit sum of
        its usage and the request does not exceed its limit. */
    method IsRequestAccepted(pid: int, taskFound: bool, hasMm: bool, totalVm: int, requested: int) returns (ok: bool)
      requires Valid()
      ensures ok == (taskFound && hasMm && Accepts(Limits(), pid, totalVm, requested))
    {
      if !taskFound {
        return false;
      }
      if !hasMm {
        return false;
      }
      var currentUsage := Add64(ToBytes(totalVm), 0);
      var i := 0;
      while i < |list|
        invariant 0 <= i <= |list|
        invariant forall j | 0 <= j < i :: list[j].pid != pid
      {
        if list[i].pid == pid {
          ToMapAt(list, i);
          return Add64(currentUsage, requested) <= list[i].limit;
        }
        i := i + 1;
      }
      ToMapAbsent(list, pid);
      ok := true;
    }
  }

  // ---------------------------------------------------------------- sequences of operations

  /** One of the calls that change the list, with what the outside world answers. */
  datatype Op =
    | AddOp(pid: int, limit: nat, admin: bool, taskExists: bool, allocOk: bool)
    | UpdateOp(pid: int, limit: nat, admin: bool)
    | RemoveOp(pid: int, admin: bool)

  /** The result of an operation on a map ... */
  function ResultOn(m: map<int, nat>, op: Op): int {
    if op.pid < 0 then EINVAL
    else if !op.admin then EPERM
    else
      match op
      case AddOp(pid, _, _, taskExists, allocOk) =>
        if !taskExists then ESRCH else if pid in m then ALREADY_LISTED else if !allocOk then ENOMEM else 0
      case UpdateOp(pid, _, _) => if pid in m then 0 else ESRCH
      case RemoveOp(pid, _) => if pid in m then 0 else ESRCH
  }

  /** ... and the map after it. */
  function MapAfter(m: map<int, nat>, op: Op): map<int, nat> {
    if ResultOn(m, op) != 0 then m
    else
      match op
      case AddOp(pid, limit, _, _, _) => m[pid := limit]
      case UpdateOp(pid, limit, _) => m[pid := limit]
      case RemoveOp(pid, _) => m - {pid}
  }

  function MapAfterAll(m: map<int, nat>, ops: seq<Op>): map<int, nat> {
    if ops == [] then m else MapAfter(MapAfterAll(m, ops[..|ops| - 1]), ops[|ops| - 1])
  }

  /** Under every sequence of operations the list stands for the map that the same operations make, and every
      operation answers as it does on the map. */
  method Perform(lim: MemoryLimiter, ops: seq<Op>) returns (results: seq<int>)
    requires lim.Valid()
    modifies lim
    ensures lim.Valid() && lim.Limits() == MapAfterAll(old(lim.Limits()), ops)
    ensures |results| == |ops|
    ensures forall i | 0 <= i < |ops| :: results[i] == ResultOn(MapAfterAll(old(lim.Limits()), ops[..i]), ops[i])
  {
    results := [];
    for i := 0 to |ops|
      invariant lim.Valid() && lim.Limits() == MapAfterAll(old(lim.Limits()), ops[..i])
      invariant |results| == i
      invariant forall k | 0 <= k < i :: results[k] == ResultOn(MapAfterAll(old(lim.Limits()), ops[..k]), ops[k])
    {
      var r := PerformOne(lim, ops[i]);
      results := results + [r];
      assert ops[..i + 1][..i] == ops[..i];
    }
    assert ops[..|ops|] == ops;
  }

  method PerformOne(lim: MemoryLimiter, op: Op) returns (r: int)
    requires lim.Valid()
    modifies lim
    ensures lim.Valid() && r == ResultOn(old(lim.Limits()), op)
    ensures lim.Limits() == MapAfter(old(lim.Limits()), op)
  {
    hide MemoryLimiter.Valid, ToMap;
    match op
    case AddOp(pid, limit, admin, taskExists, allocOk) => r := lim.Add(pid, limit, admin, taskExists, allocOk);
    case UpdateOp(pid, limit, admin) => r := lim.Update(pid, limit, admin);
    case RemoveOp(pid, admin) => r := lim.Remove(pid, admin);
  }

  /** The gate as a function of the map. */
  predicate Accepts(limits: map<int, nat>, pid: int, totalVm: int, requested: int) {
    pid in limits ==> Add64(Add64(ToBytes(totalVm), 0), requested) <= limits[pid]
  }

  /** The gate lets an unlisted task pass, and a listed one if and only if usage and request together, less one wrap
      of a 64-bit word if there is one, are within its limit. */
  lemma AcceptsExact(limits: map<int, nat>, pid: int, totalVm: int, requested: int)
    requires 0 <= ToBytes(totalVm) <= TASK_SIZE && 0 <= requested < WORD
    ensures var sum := ToBytes(totalVm) + requested;
            Accepts(limits, pid, totalVm, requested) <==>
              pid !in limits || (if sum < WORD then sum else sum - WORD) <= limits[pid]
  {
    var usage := ToBytes(totalVm);
    assert Add64(usage, 0) == usage;
    assert Add64(usage, requested) == if usage + requested < WORD then usage + requested else usage + requested - WORD;
  }
}
