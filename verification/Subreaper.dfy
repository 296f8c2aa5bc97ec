/** The child-subreaper flags: inherited at fork, set by `prctl`, and propagated by walks that may overlap. */
module Subreaper {

  type Pid = int

  /** The shared part of a process: its parent process, the two flags, whether it is the reaper of its pid
      namespace, and, for the record, whether it ever was a subreaper and how many forks lie above it. */
  datatype Proc = Proc(parent: Pid, has: bool, isSub: bool, reaper: bool, ever: bool, depth: nat)

  /** A `prctl` call between setting the flag and returning: about to walk, or walking with these
      processes still to be visited. */
  datatype Call = Waiting(who: Pid) | Walking(who: Pid, todo: set<Pid>)

  datatype State = State(procs: map<Pid, Proc>, calls: map<int, Call>)

  /** Steps under `tasklist_lock`: fork holds it for writing, so no walk is under way; walks hold it for
      reading, so several may interleave visit by visit; the flag itself is set without the lock. */
  datatype Event =
    | Fork(parent: Pid, child: Pid, reaper: bool)
    | SetFlag(who: Pid, call: int)
    | ClearFlag(who: Pid)
    | StartWalk(call: int)
    | Visit(call: int, child: Pid)
    | EndWalk(call: int)

  function Kids(procs: map<Pid, Proc>, p: Pid): set<Pid> {
    set c | c in procs && c != p && procs[c].parent == p
  }

  predicate NoneWalking(s: State) {
    forall w | w in s.calls :: s.calls[w].Waiting?
  }

  predicate Enabled(s: State, e: Event) {
    match e
    case Fork(p, c, _) => NoneWalking(s) && p in s.procs && c !in s.procs
    case SetFlag(p, w) => p in s.procs && w !in s.calls
    case ClearFlag(p) => p in s.procs
    case StartWalk(w) => w in s.calls && s.calls[w].Waiting?
    case Visit(w, c) => w in s.calls && s.calls[w].Walking? && c in s.calls[w].todo && c in s.procs
    case EndWalk(w) => w in s.calls && s.calls[w].Walking? && s.calls[w].todo == {}
  }

  function Step(s: State, e: Event): State
    requires Enabled(s, e)
  {
    match e
    case Fork(p, c, reaper) =>
      var pp := s.procs[p];
      s.(procs := s.procs[c := Proc(p, pp.has || pp.isSub, false, reaper, false, pp.depth + 1)])
    case SetFlag(p, w) =>
      State(s.procs[p := s.procs[p].(isSub := true, ever := true)], s.calls[w := Waiting(p)])
    case ClearFlag(p) =>
      s.(procs := s.procs[p := s.procs[p].(isSub := false)])
    case StartWalk(w) =>
      var p := s.calls[w].who;
      s.(calls := s.calls[w := Walking(p, Kids(s.procs, p))])
    case Visit(w, c) =>
      var call := s.calls[w];
      if s.procs[c].has || s.procs[c].reaper then
        s.(calls := s.calls[w := call.(todo := call.todo - {c})])
      else
        State(s.procs[c := s.procs[c].(has := true)],
              s.calls[w := call.(todo := call.todo - {c} + Kids(s.procs, c))])
    case EndWalk(w) =>
      s.(calls := s.calls - {w})
  }

  /** Some walk still has `c` to visit. */
  ghost predicate Awaited(s: State, c: Pid) {
    exists w :: w in s.calls && s.calls[w].Walking? && c in s.calls[w].todo
  }

  ghost predicate AboutToWalk(s: State, p: Pid) {
    exists w :: w in s.calls && s.calls[w] == Waiting(p)
  }

  /** The parent has the flag, or was a subreaper at some time. */
  ghost predicate FromAbove(procs: map<Pid, Proc>, c: Pid) {
    && c in procs
    && var p := procs[c].parent;
       p in procs && p != c && (procs[p].has || procs[p].ever)
  }

  /** A process is in order: its parent is known, a subreaper is on record as one, and its flag
      comes from above. */
  ghost predicate InOrder(procs: map<Pid, Proc>, c: Pid)
    requires c in procs
  {
    && var p := procs[c].parent;
    && p in procs && (p != c ==> procs[p].depth < procs[c].depth)
    && (procs[c].isSub ==> procs[c].ever)
    && (procs[c].has ==> FromAbove(procs, c))
  }

  /** A call is in order: it belongs to a process that was a subreaper, and it only visits processes
      below a flagged one or below its own. */
  ghost predicate CallInOrder(procs: map<Pid, Proc>, call: Call) {
    && call.who in procs && procs[call.who].ever
    && (call.Walking? ==> forall c | c in call.todo :: FromAbove(procs, c))
  }

  ghost predicate Grounded(s: State) {
    && (forall c {:trigger InOrder(s.procs, c)} | c in s.procs :: InOrder(s.procs, c))
    && (forall w {:trigger s.calls[w]} | w in s.calls :: CallInOrder(s.procs, s.calls[w]))
  }

  /** An unflagged process that is not a namespace reaper, below a flagged process, is awaited by a walk;
      below a subreaper it is awaited, or that subreaper's walk has not started. */
  ghost predicate Covered(s: State, c: Pid)
    requires c in s.procs
  {
    var p := s.procs[c].parent;
    !s.procs[c].reaper && !s.procs[c].has && p in s.procs && p != c ==>
      && (s.procs[p].has ==> Awaited(s, c))
      && (s.procs[p].isSub ==> AboutToWalk(s, p) || Awaited(s, c))
  }

  ghost predicate Inv(s: State) {
    Grounded(s) && forall c {:trigger Covered(s, c)} | c in s.procs :: Covered(s, c)
  }

  // ---------------------------------------------------------------- one step

  /** Flags only ever come from above, whatever the step. */
  lemma GroundedStep(s: State, e: Event)
    requires Grounded(s) && Enabled(s, e)
    ensures Grounded(Step(s, e))
  {
    hide Enabled, Step, InOrder, CallInOrder;
    var s' := Step(s, e);
    forall c | c in s'.procs
      ensures InOrder(s'.procs, c)
    {
      StaysInOrder(s, e, c);
    }
    forall w | w in s'.calls
      ensures CallInOrder(s'.procs, s'.calls[w])
    {
      CallStaysInOrder(s, e, w);
    }
  }

  lemma StaysInOrder(s: State, e: Event, c: Pid)
    requires Grounded(s) && Enabled(s, e) && c in Step(s, e).procs
    ensures InOrder(Step(s, e).procs, c)
  {
    hide Kids, NoneWalking;
    AboveGrows(s, e);
    assert c in s.procs ==> InOrder(s.procs, c);
    match e
    case Fork(p, x, _) =>
      assert InOrder(s.procs, p);
    case Visit(w, x) =>
      var call := s.calls[w];
      assert CallInOrder(s.procs, call);
    case _ =>
  }

  lemma CallStaysInOrder(s: State, e: Event, w: int)
    requires Grounded(s) && Enabled(s, e) && w in Step(s, e).calls
    ensures CallInOrder(Step(s, e).procs, Step(s, e).calls[w])
  {
    hide Kids, NoneWalking, InOrder;
    AboveGrows(s, e);
    assert w in s.calls ==> CallInOrder(s.procs, s.calls[w]);
    match e
    case StartWalk(v) =>
      KidsAbove(s.procs, s.calls[v].who);
    case Visit(v, x) =>
      var procs' := s.procs[x := s.procs[x].(has := true)];
      SameKids(s.procs, procs', x);
      KidsAbove(procs', x);
    case _ =>
  }

  /** No step takes a flag, or the record of having been a subreaper, away. */
  lemma AboveGrows(s: State, e: Event)
    requires Grounded(s) && Enabled(s, e)
    ensures var s' := Step(s, e);
            && (forall c | c in s.procs ::
                c in s'.procs && s'.procs[c].parent == s.procs[c].parent && s'.procs[c].depth == s.procs[c].depth)
            && (forall c | c in s.procs ::
                (s.procs[c].has ==> s'.procs[c].has) && (s.procs[c].ever ==> s'.procs[c].ever))
            && (forall c | FromAbove(s.procs, c) :: FromAbove(s'.procs, c))
  {
  }

  lemma KidsAbove(procs: map<Pid, Proc>, p: Pid)
    requires p in procs
    ensures procs[p].has || procs[p].ever ==> forall c | c in Kids(procs, p) :: FromAbove(procs, c)
  {
  }

  lemma SameKids(procs: map<Pid, Proc>, procs': map<Pid, Proc>, p: Pid)
    requires forall c | c in procs :: c in procs' && procs'[c].parent == procs[c].parent
    requires procs'.Keys == procs.Keys
    ensures Kids(procs', p) == Kids(procs, p)
  {
  }

  /** A process waits for its visit until it gets it. */
  lemma AwaitedStays(s: State, e: Event, c: Pid)
    requires Enabled(s, e) && Awaited(s, c)
    ensures Awaited(Step(s, e), c) || (e.Visit? && e.child == c && (Step(s, e).procs[c].has || s.procs[c].reaper))
  {
    hide Kids;
    var s' := Step(s, e);
    var w :| w in s.calls && s.calls[w].Walking? && c in s.calls[w].todo;
    if !(e.Visit? && e.call == w && e.child == c) {
      assert w in s'.calls && s'.calls[w].Walking? && c in s'.calls[w].todo;
    }
  }

  /** A call about to walk is still about to, or it has just put all children of its process on its list. */
  lemma AboutStays(s: State, e: Event, p: Pid)
    requires Enabled(s, e) && AboutToWalk(s, p)
    ensures AboutToWalk(Step(s, e), p) ||
            (Step(s, e).procs == s.procs && forall c | c in Kids(s.procs, p) :: Awaited(Step(s, e), c))
  {
    var s' := Step(s, e);
    var w :| w in s.calls && s.calls[w] == Waiting(p);
    if e == StartWalk(w) {
      forall c | c in Kids(s.procs, p)
        ensures Awaited(s', c)
      {
        assert s'.calls[w].Walking? && c in s'.calls[w].todo;
      }
    } else {
      assert w in s'.calls && s'.calls[w] == Waiting(p);
    }
  }

  /** A visit that flags a process puts its children on the visiting walk's list. */
  lemma VisitAwaits(s: State, w: int, x: Pid, c: Pid)
    requires Enabled(s, Visit(w, x)) && c in Kids(s.procs, x)
    requires !s.procs[x].has && !s.procs[x].reaper
    ensures Awaited(Step(s, Visit(w, x)), c)
  {
    hide Kids;
    var s' := Step(s, Visit(w, x));
    assert s'.calls[w].Walking? && c in s'.calls[w].todo;
  }

  lemma CoveredStep(s: State, e: Event, c: Pid)
    requires Grounded(s) && Enabled(s, e) && c in Step(s, e).procs
    requires c in s.procs ==> Covered(s, c)
    ensures Covered(Step(s, e), c)
  {
    hide Awaited, AboutToWalk, NoneWalking;
    var s' := Step(s, e);
    if c in s.procs {
      assert InOrder(s.procs, c);
      var p := s.procs[c].parent;
      if Awaited(s, c) { AwaitedStays(s, e, c); }
      if AboutToWalk(s, p) { AboutStays(s, e, p); }
      match e
      case SetFlag(q, w) =>
        assert p == q ==> AboutToWalk(s', p) by { WaitingStarts(s, w, q); }
      case Visit(w, x) =>
        if x == p != c && !s.procs[x].has && !s.procs[x].reaper { VisitAwaits(s, w, x, c); }
      case _ =>
    }
  }

  lemma WaitingStarts(s: State, w: int, p: Pid)
    requires Enabled(s, SetFlag(p, w))
    ensures AboutToWalk(Step(s, SetFlag(p, w)), p)
  {
    var s' := Step(s, SetFlag(p, w));
    assert w in s'.calls && s'.calls[w] == Waiting(p);
  }

  /** Every step of every call keeps the invariant, however the walks interleave. */
  lemma StepKeeps(s: State, e: Event)
    requires Inv(s) && Enabled(s, e)
    ensures Inv(Step(s, e))
  {
    hide Enabled, Step, Covered, Grounded;
    GroundedStep(s, e);
    forall c | c in Step(s, e).procs
      ensures Covered(Step(s, e), c)
    {
      assert c in s.procs ==> Covered(s, c);
      CoveredStep(s, e, c);
    }
  }

  // ---------------------------------------------------------------- whole runs

  /** Each event is possible where it happens. */
  ghost predicate Possible(s: State, es: seq<Event>)
    decreases |es|
  {
    es == [] || (Enabled(s, es[0]) && Possible(Step(s, es[0]), es[1..]))
  }

  ghost function Run(s: State, es: seq<Event>): State
    requires Possible(s, es)
    decreases |es|
  {
    if es == [] then s else Run(Step(s, es[0]), es[1..])
  }

  /** A forest of processes in which nobody has asked for anything yet. */
  ghost predicate Initial(s: State) {
    && s.calls == map[]
    && forall c {:trigger InOrder(s.procs, c)} | c in s.procs ::
         InOrder(s.procs, c) && !s.procs[c].has && !s.procs[c].isSub && !s.procs[c].ever
  }

  lemma {:induction false} RunKeeps(s: State, es: seq<Event>)
    requires Inv(s) && Possible(s, es)
    ensures Inv(Run(s, es))
    decreases |es|
  {
    if es != [] {
      StepKeeps(s, es[0]);
      RunKeeps(Step(s, es[0]), es[1..]);
    }
  }

  lemma ReachableInv(s: State, es: seq<Event>)
    requires Initial(s) && Possible(s, es)
    ensures Inv(Run(s, es))
  {
    forall c | c in s.procs
      ensures Covered(s, c)
    {
      assert InOrder(s.procs, c);
      assert InOrder(s.procs, s.procs[c].parent);
    }
    RunKeeps(s, es);
  }

  /** A line of descent on which no process below the first is the reaper of a pid namespace. */
  ghost predicate Descent(procs: map<Pid, Proc>, line: seq<Pid>) {
    && 0 < |line|
    && (forall i | 0 <= i < |line| :: line[i] in procs)
    && (forall i | 0 < i < |line| :: DirectChild(procs, line[i - 1], line[i]))
  }

  ghost predicate DirectChild(procs: map<Pid, Proc>, p: Pid, c: Pid) {
    c in procs && c != p && procs[c].parent == p && !procs[c].reaper
  }

  /** `c` lies below `p` on such a line. */
  ghost predicate Reached(procs: map<Pid, Proc>, p: Pid, c: Pid) {
    exists line :: Descent(procs, line) && 1 < |line| && line[0] == p && line[|line| - 1] == c
  }

  /** A walk will still come to `c`: it is on some walk's list, or it is a child of `p` and a call of `p` is about
      to walk. */
  ghost predicate StillToCome(s: State, p: Pid, c: Pid) {
    Awaited(s, c) || (AboutToWalk(s, p) && DirectChild(s.procs, p, c))
  }

  /** On a line below a flagged process or a subreaper either all are flagged, or the first that is not is
      still to come. */
  lemma {:induction false} FirstUnflagged(s: State, line: seq<Pid>, k: int)
    requires Inv(s) && Descent(s.procs, line) && 0 < k < |line|
    requires s.procs[line[0]].has || s.procs[line[0]].isSub
    requires forall c | Reached(s.procs, line[0], c) && StillToCome(s, line[0], c) :: s.procs[c].has
    ensures s.procs[line[k]].has
  {
    hide Grounded, Awaited, AboutToWalk;
    if 1 < k {
      FirstUnflagged(s, line, k - 1);
    }
    var up := line[..k + 1];
    assert Descent(s.procs, up) && up[|up| - 1] == line[k];
    assert Reached(s.procs, line[0], line[k]);
    assert DirectChild(s.procs, line[k - 1], line[k]);
    assert Covered(s, line[k]);
  }

  /** After every run, at any moment: everything below a flagged process or a subreaper is flagged, up to namespace
      reapers, if and only if no walk still has to come to anything unflagged there. */
  lemma DescendantsExact(s: State, es: seq<Event>, p: Pid)
    requires Initial(s) && Possible(s, es)
    requires p in Run(s, es).procs && (Run(s, es).procs[p].has || Run(s, es).procs[p].isSub)
    ensures var s' := Run(s, es);
            && (forall c | Reached(s'.procs, p, c) :: c in s'.procs)
            && ((forall c | Reached(s'.procs, p, c) :: s'.procs[c].has) <==>
                (forall c | Reached(s'.procs, p, c) && StillToCome(s', p, c) :: s'.procs[c].has))
  {
    hide Run, Possible, Initial, StillToCome, Inv;
    var s' := Run(s, es);
    ReachableInv(s, es);
    if forall c | Reached(s'.procs, p, c) && StillToCome(s', p, c) :: s'.procs[c].has {
      forall c | Reached(s'.procs, p, c)
        ensures s'.procs[c].has
      {
        var line :| Descent(s'.procs, line) && 1 < |line| && line[0] == p && line[|line| - 1] == c;
        FirstUnflagged(s', line, |line| - 1);
      }
    }
  }

  /** After every run, at any moment: every child of a flagged process is flagged, up to namespace reapers, if and
      only if no walk has an unflagged child of a flagged process on its list.  This is what the walk's
      shortcut relies on. */
  lemma ShortcutExact(s: State, es: seq<Event>)
    requires Initial(s) && Possible(s, es)
    ensures var s' := Run(s, es);
            (forall p, c | MissedChild(s', p, c) :: false) <==> (forall p, c | MissedChild(s', p, c) :: !Awaited(s', c))
  {
    hide Run, Possible, Initial, Grounded, Awaited, AboutToWalk;
    var s' := Run(s, es);
    ReachableInv(s, es);
    forall p, c | MissedChild(s', p, c)
      ensures Awaited(s', c)
    {
      assert Covered(s', c);
    }
  }

  /** A flagged process with an unflagged child. */
  ghost predicate MissedChild(s: State, p: Pid, c: Pid) {
    p in s.procs && s.procs[p].has && DirectChild(s.procs, p, c) && !s.procs[c].has
  }

  /** Whenever no walk is under way, a flag has reached all descendants of its process, and the flag of a
      subreaper whose own walk is over has reached all of its. */
  lemma DescendantsFlagged(s: State, es: seq<Event>, p: Pid)
    requires Initial(s) && Possible(s, es)
    requires var s' := Run(s, es);
             && NoneWalking(s') && p in s'.procs
             && (s'.procs[p].has || (s'.procs[p].isSub && !AboutToWalk(s', p)))
    ensures forall c | Reached(Run(s, es).procs, p, c) :: c in Run(s, es).procs && Run(s, es).procs[c].has
  {
    hide Run, Possible, Initial, Reached, Inv;
    var s' := Run(s, es);
    DescendantsExact(s, es, p);
    ReachableInv(s, es);
    forall c | Reached(s'.procs, p, c) && StillToCome(s', p, c)
      ensures s'.procs[c].has
    {
      assert !Awaited(s', c);
      ChildOfFlagged(s', p, c);
    }
  }

  lemma ChildOfFlagged(s: State, p: Pid, c: Pid)
    requires Inv(s) && p in s.procs && s.procs[p].has && DirectChild(s.procs, p, c) && !Awaited(s, c)
    ensures s.procs[c].has
  {
    assert Covered(s, c);
  }

  /** An ancestor through any number of forks. */
  ghost predicate Above(procs: map<Pid, Proc>, a: Pid, c: Pid, steps: nat)
    decreases steps
  {
    c in procs && if steps == 0 then a == c else procs[c].parent != c && Above(procs, a, procs[c].parent, steps - 1)
  }

  /** Whoever was a subreaper at some time has asked for it. */
  lemma {:induction false} EverAsked(s: State, es: seq<Event>, a: Pid) returns (i: int)
    requires Possible(s, es) && a in Run(s, es).procs && Run(s, es).procs[a].ever
    requires a in s.procs ==> !s.procs[a].ever
    ensures 0 <= i < |es| && es[i].SetFlag? && es[i].who == a
    decreases |es|
  {
    hide Kids, NoneWalking;
    var e := es[0];
    if e.SetFlag? && e.who == a {
      i := 0;
    } else {
      i := EverAsked(Step(s, e), es[1..], a);
      i := i + 1;
    }
  }

  /** Whoever carries the flag has a proper ancestor that asked to be a subreaper in the course of the run. */
  lemma FlagHasOrigin(s: State, es: seq<Event>, c: Pid) returns (a: Pid, steps: nat, i: int)
    requires Initial(s) && Possible(s, es)
    requires c in Run(s, es).procs && Run(s, es).procs[c].has
    ensures 0 < steps && Above(Run(s, es).procs, a, c, steps)
    ensures 0 <= i < |es| && es[i].SetFlag? && es[i].who == a
  {
    hide Run, Possible;
    ReachableInv(s, es);
    a, steps := OriginAbove(Run(s, es).procs, c);
    assert a in s.procs ==> InOrder(s.procs, a);
    i := EverAsked(s, es, a);
  }

  lemma {:induction false} OriginAbove(procs: map<Pid, Proc>, c: Pid) returns (a: Pid, steps: nat)
    requires forall x {:trigger InOrder(procs, x)} | x in procs :: InOrder(procs, x)
    requires c in procs && procs[c].has
    ensures 0 < steps && Above(procs, a, c, steps) && a in procs && procs[a].ever
    decreases procs[c].depth
  {
    assert InOrder(procs, c);
    var p := procs[c].parent;
    if procs[p].ever {
      a, steps := p, 1;
      assert Above(procs, p, p, 0);
    } else {
      a, steps := OriginAbove(procs, p);
      steps := steps + 1;
    }
  }

  // ---------------------------------------------------------------- who is a subreaper, and what a fork inherits

  /** The last thing `p` did about its flag was to set it. */
  ghost predicate AskedLast(es: seq<Event>, p: Pid) {
    exists i | 0 <= i < |es| :: AskedAt(es, p, i) && NotClearedFrom(es, p, i + 1)
  }

  ghost predicate AskedAt(es: seq<Event>, p: Pid, i: int)
    requires 0 <= i < |es|
  {
    es[i].SetFlag? && es[i].who == p
  }

  ghost predicate NotClearedFrom(es: seq<Event>, p: Pid, i: int)
    requires 0 <= i
  {
    forall j | i <= j < |es| :: es[j] != ClearFlag(p)
  }

  lemma AskedLater(es: seq<Event>, p: Pid)
    requires es != []
    ensures AskedLast(es, p) <==> AskedLast(es[1..], p) || (AskedAt(es, p, 0) && NotClearedFrom(es[1..], p, 0))
    ensures NotClearedFrom(es, p, 0) <==> es[0] != ClearFlag(p) && NotClearedFrom(es[1..], p, 0)
  {
    var rest := es[1..];
    assert forall j | 0 <= j < |rest| :: rest[j] == es[j + 1];
    assert forall j | 1 <= j < |es| :: es[j] == rest[j - 1];
    if AskedLast(es, p) {
      var i :| 0 <= i < |es| && AskedAt(es, p, i) && NotClearedFrom(es, p, i + 1);
      if 0 < i {
        assert AskedAt(rest, p, i - 1) && NotClearedFrom(rest, p, i);
      }
    }
    if AskedLast(rest, p) {
      var i :| 0 <= i < |rest| && AskedAt(rest, p, i) && NotClearedFrom(rest, p, i + 1);
      assert AskedAt(es, p, i + 1) && NotClearedFrom(es, p, i + 2);
    }
    if AskedAt(es, p, 0) && NotClearedFrom(rest, p, 0) {
      assert NotClearedFrom(es, p, 0 + 1);
    }
  }

  /** A process is a subreaper if it set the flag last, or if it was one before and has not cleared it. */
  lemma {:induction false} SubreaperAfter(s: State, es: seq<Event>, p: Pid)
    requires Possible(s, es) && p in Run(s, es).procs
    ensures Run(s, es).procs[p].isSub <==>
              AskedLast(es, p) || (p in s.procs && s.procs[p].isSub && NotClearedFrom(es, p, 0))
    decreases |es|
  {
    hide AskedLast, NotClearedFrom, Kids;
    if es == [] {
      NothingAsked(p);
    } else {
      AskedLater(es, p);
      SubreaperAfter(Step(s, es[0]), es[1..], p);
    }
  }

  lemma NothingAsked(p: Pid)
    ensures !AskedLast([], p) && NotClearedFrom([], p, 0)
  {
  }

  /** After every run a process is a subreaper if and only if the last thing it did about its flag was to set it. */
  lemma SubreaperExact(s: State, es: seq<Event>, p: Pid)
    requires Initial(s) && Possible(s, es) && p in Run(s, es).procs
    ensures Run(s, es).procs[p].isSub <==> AskedLast(es, p)
  {
    hide Run, Possible, AskedLast;
    assert p in s.procs ==> InOrder(s.procs, p);
    SubreaperAfter(s, es, p);
  }

  /** No step changes who a process descends from or which namespace it reaps, or takes its flag away. */
  lemma {:induction false} Kept(s: State, es: seq<Event>, c: Pid)
    requires Possible(s, es) && c in s.procs
    ensures c in Run(s, es).procs
    ensures var before, after := s.procs[c], Run(s, es).procs[c];
            after.parent == before.parent && after.reaper == before.reaper && (before.has ==> after.has)
    decreases |es|
  {
    if es != [] {
      Kept(Step(s, es[0]), es[1..], c);
    }
  }

  /** What a fork leaves in the child: its parent, whether it reaps its namespace, and the flag if and only if the
      parent had it or was a subreaper at that moment; parent, reaper and flag then stay to the end of the run. */
  lemma ForkInherits(s: State, es: seq<Event>, k: int)
    requires Initial(s) && Possible(s, es) && 0 <= k < |es| && es[k].Fork?
    ensures var p, c := es[k].parent, es[k].child;
            && Possible(s, es[..k]) && Possible(s, es[..k + 1])
            && p in Run(s, es[..k]).procs && c in Run(s, es[..k + 1]).procs && c in Run(s, es).procs
            && (Run(s, es[..k + 1]).procs[c].has <==> Run(s, es[..k]).procs[p].has || AskedLast(es[..k], p))
            && (Run(s, es[..k]).procs[p].has || AskedLast(es[..k], p) ==> Run(s, es).procs[c].has)
            && Run(s, es).procs[c].parent == p && Run(s, es).procs[c].reaper == es[k].reaper
  {
    hide Run, Possible, AskedLast, Initial;
    var p, c, e := es[k].parent, es[k].child, es[k];
    assert es == es[..k] + es[k..] && es[k..] == [e] + es[k + 1..] && es[..k + 1] == es[..k] + [e];
    RunSplit(s, es[..k], es[k..]);
    var s1 := Run(s, es[..k]);
    RunSplit(s1, [e], es[k + 1..]);
    RunFirst(s1, e);
    RunConcat(s, es[..k], [e]);
    SubreaperExact(s, es[..k], p);
    Kept(Step(s1, e), es[k + 1..], c);
  }

  lemma RunFirst(s: State, e: Event)
    requires Possible(s, [e])
    ensures Enabled(s, e) && Run(s, [e]) == Step(s, e)
  {
    assert [e][1..] == [];
    RunOne(s, e);
  }

  lemma {:induction false} RunSplit(s: State, a: seq<Event>, b: seq<Event>)
    requires Possible(s, a + b)
    ensures Possible(s, a) && Possible(Run(s, a), b) && Run(s, a + b) == Run(Run(s, a), b)
    decreases |a|
  {
    if a == [] {
      assert a + b == b;
    } else {
      assert (a + b)[1..] == a[1..] + b && (a + b)[0] == a[0];
      RunSplit(Step(s, a[0]), a[1..], b);
    }
  }

  // ---------------------------------------------------------------- no call gets stuck

  ghost function Unflagged(procs: map<Pid, Proc>): set<Pid> {
    set c | c in procs && !procs[c].has
  }

  /** The event belongs to a walk. */
  predicate OfWalk(e: Event) {
    e.StartWalk? || e.Visit? || e.EndWalk?
  }

  /** A walk comes to its end: each visit flags one process more or has one process less to visit. */
  lemma {:induction false} FinishWalk(s: State, w: int) returns (es: seq<Event>)
    requires Grounded(s) && w in s.calls && s.calls[w].Walking?
    ensures Possible(s, es) && (forall e | e in es :: OfWalk(e))
    ensures var s' := Run(s, es);
            Grounded(s') && s'.calls == s.calls - {w} && s'.procs.Keys == s.procs.Keys
    decreases |Unflagged(s.procs)|, |s.calls[w].todo|
  {
    hide Possible, Run, Grounded;
    var todo := s.calls[w].todo;
    if todo == {} {
      es := [EndWalk(w)];
      GroundedStep(s, es[0]);
      RunOne(s, es[0]);
    } else {
      var c := AnyOf(todo);
      TodoKnown(s, w, c);
      var e := Visit(w, c);
      GroundedStep(s, e);
      RunOne(s, e);
      VisitProgress(s, w, c);
      var rest := FinishWalk(Step(s, e), w);
      RunConcat(s, [e], rest);
      es := [e] + rest;
    }
  }

  lemma AnyOf<T>(xs: set<T>) returns (x: T)
    requires xs != {}
    ensures x in xs
  {
    x :| x in xs;
  }

  lemma TodoKnown(s: State, w: int, c: Pid)
    requires Grounded(s) && w in s.calls && s.calls[w].Walking? && c in s.calls[w].todo
    ensures c in s.procs
  {
    assert CallInOrder(s.procs, s.calls[w]);
  }

  lemma VisitProgress(s: State, w: int, c: Pid)
    requires Enabled(s, Visit(w, c))
    ensures var s' := Step(s, Visit(w, c));
            && w in s'.calls && s'.calls[w].Walking? && s'.calls - {w} == s.calls - {w}
            && s'.procs.Keys == s.procs.Keys
            && (|Unflagged(s'.procs)| < |Unflagged(s.procs)| ||
                (Unflagged(s'.procs) == Unflagged(s.procs) && |s'.calls[w].todo| < |s.calls[w].todo|))
  {
    hide Kids;
    var s' := Step(s, Visit(w, c));
    if s.procs[c].has || s.procs[c].reaper {
      assert s.calls[w].todo == s'.calls[w].todo + {c};
    } else {
      assert Unflagged(s.procs) == Unflagged(s'.procs) + {c};
    }
  }

  /** Whatever has happened, the calls under way can all return by walking alone, and then any process can fork: the
      runs the laws speak of never get stuck. */
  lemma {:induction false} AllReturn(s: State) returns (es: seq<Event>)
    requires Grounded(s)
    ensures Possible(s, es) && (forall e | e in es :: OfWalk(e))
    ensures var s' := Run(s, es);
            && Grounded(s') && s'.calls == map[] && s'.procs.Keys == s.procs.Keys
            && forall p, c, reaper | p in s.procs && c !in s.procs :: Enabled(s', Fork(p, c, reaper))
    decreases |s.calls|
  {
    hide Possible, Run, Grounded;
    var calls := s.calls.Keys;
    if calls == {} {
      es := [];
      NoRun(s);
    } else {
      var w := AnyOf(calls);
      var begun: seq<Event> := [];
      NoRun(s);
      if s.calls[w].Waiting? {
        begun := [StartWalk(w)];
        GroundedStep(s, begun[0]);
        RunOne(s, begun[0]);
      }
      var s1 := Run(s, begun);
      var walk := FinishWalk(s1, w);
      RunConcat(s, begun, walk);
      var s2 := Run(s1, walk);
      assert s.calls.Keys == s2.calls.Keys + {w};
      var rest := AllReturn(s2);
      RunConcat(s, begun + walk, rest);
      es := begun + walk + rest;
    }
  }

  lemma NoRun(s: State)
    ensures Possible(s, []) && Run(s, []) == s
  {
  }

  // ---------------------------------------------------------------- while a walk is under way

  /** Three processes in a line. */
  function ThreeInLine(): State {
    State(map[1 := Proc(1, false, false, false, false, 0), 2 := Proc(1, false, false, false, false, 1),
              3 := Proc(2, false, false, false, false, 2)], map[])
  }

  lemma ThreeInitial()
    ensures Initial(ThreeInLine())
  {
    var s := ThreeInLine();
    forall c | c in s.procs
      ensures InOrder(s.procs, c)
    {
    }
  }

  /** In the middle of the first process's walk the second is flagged and its child is not: that all
      descendants of a flagged process are flagged is true only between walks. */
  lemma FlaggedTooEarly()
    ensures var s, es := ThreeInLine(), [SetFlag(1, 9), StartWalk(9), Visit(9, 2)];
            && Initial(s) && Possible(s, es)
            && var procs := Run(s, es).procs;
               2 in procs && procs[2].has && DirectChild(procs, 2, 3) && !procs[3].has
  {
    hide Possible, Run, Initial;
    ThreeInitial();
    var s := ThreeInLine();
    var s1 := Step(s, SetFlag(1, 9));
    RunOne(s, SetFlag(1, 9));
    var s2 := Step(s1, StartWalk(9));
    assert Kids(s1.procs, 1) == {2};
    RunOne(s1, StartWalk(9));
    RunConcat(s, [SetFlag(1, 9)], [StartWalk(9)]);
    assert [SetFlag(1, 9)] + [StartWalk(9)] == [SetFlag(1, 9), StartWalk(9)];
    var s3 := Step(s2, Visit(9, 2));
    RunOne(s2, Visit(9, 2));
    RunConcat(s, [SetFlag(1, 9), StartWalk(9)], [Visit(9, 2)]);
    assert [SetFlag(1, 9), StartWalk(9)] + [Visit(9, 2)] == [SetFlag(1, 9), StartWalk(9), Visit(9, 2)];
  }

  /** Runs can be cut in two. */
  lemma {:induction false} RunConcat(s: State, a: seq<Event>, b: seq<Event>)
    requires Possible(s, a) && Possible(Run(s, a), b)
    ensures Possible(s, a + b) && Run(s, a + b) == Run(Run(s, a), b)
    decreases |a|
  {
    if a == [] {
      assert a + b == b;
    } else {
      RunConcat(Step(s, a[0]), a[1..], b);
      assert (a + b)[1..] == a[1..] + b;
    }
  }

  lemma RunOne(s: State, e: Event)
    requires Enabled(s, e)
    ensures Possible(s, [e]) && Run(s, [e]) == Step(s, e)
  {
    assert [e][1..] == [];
    assert Possible(Step(s, e), []) && Run(Step(s, e), []) == Step(s, e);
  }
}
