/** The stackless walk as a run of the flag protocol: its rounds are visits of one walking call. */
module WalkSteps {
  import opened TreeWalk
  import opened Propagation
  import S = Subreaper

  /** The children of process `l` that are left from child `ci` of thread `ti` on. */
  ghost function Left(f: Forest, l: Task, ti: int, ci: int): set<Task>
    requires l in f.threads && 0 <= ti && 0 <= ci
  {
    set i, j | ti <= i < |f.threads[l]| && f.threads[l][i] in f.children
               && (if i == ti then ci else 0) <= j < |f.children[f.threads[l][i]]| ::
      f.children[f.threads[l][i]][j]
  }

  /** The processes of the protocol are those of the forest, with the same children. */
  ghost predicate Matches(f: Forest, procs: map<S.Pid, S.Proc>) {
    && procs.Keys == f.threads.Keys
    && forall l {:trigger S.Kids(procs, l)} | l in f.threads :: S.Kids(procs, l) == Left(f, l, 0, 0)
  }

  ghost function Flagged(procs: map<S.Pid, S.Proc>): set<Task> {
    set c | c in procs && procs[c].has
  }

  ghost function Reapers(procs: map<S.Pid, S.Proc>): set<Task> {
    set c | c in procs && procs[c].reaper
  }

  ghost function WithFlags(procs: map<S.Pid, S.Proc>, flagged: set<Task>): map<S.Pid, S.Proc> {
    map c | c in procs :: procs[c].(has := c in flagged)
  }

  /** The state in which call `w` is walking with these flags set and these processes to visit. */
  ghost function Midway(base: S.State, w: int, me: Task, flagged: set<Task>, todo: set<Task>): S.State {
    S.State(WithFlags(base.procs, flagged), base.calls[w := S.Walking(me, todo)])
  }

  ghost function Visits(w: int, vs: seq<Task>): seq<S.Event> {
    seq(|vs|, i requires 0 <= i < |vs| => S.Visit(w, vs[i]))
  }

  lemma VisitsConcat(w: int, a: seq<Task>, b: seq<Task>)
    ensures Visits(w, a + b) == Visits(w, a) + Visits(w, b)
  {
  }

  lemma SameFlags(procs: map<S.Pid, S.Proc>)
    ensures WithFlags(procs, Flagged(procs)) == procs
  {
    forall c | c in procs
      ensures WithFlags(procs, Flagged(procs))[c] == procs[c]
    {
      assert procs[c].(has := procs[c].has) == procs[c];
    }
  }

  // ---------------------------------------------------------------- what is left

  lemma LeftNextThread(f: Forest, rank: map<Task, nat>, l: Task, ti: int)
    requires WellFormed(f, rank) && l in f.threads && 0 <= ti < |f.threads[l]|
    ensures f.threads[l][ti] in f.children
    ensures var n := |f.children[f.threads[l][ti]]|;
            && (ti + 1 < |f.threads[l]| ==> Left(f, l, ti, n) == Left(f, l, ti + 1, 0))
            && (ti + 1 == |f.threads[l]| ==> Left(f, l, ti, n) == {})
  {
    assert GoodProcess(f, l);
  }

  lemma LeftNextChild(f: Forest, rank: map<Task, nat>, l: Task, ti: int, ci: int)
    requires WellFormed(f, rank) && l in f.threads && 0 <= ti < |f.threads[l]|
    requires f.threads[l][ti] in f.children && 0 <= ci < |f.children[f.threads[l][ti]]|
    ensures var c := f.children[f.threads[l][ti]][ci];
            Left(f, l, ti, ci) == {c} + Left(f, l, ti, ci + 1) && c !in Left(f, l, ti, ci + 1)
  {
    var t := f.threads[l][ti];
    var c := f.children[t][ci];
    assert GoodProcess(f, l) && GoodChild(f, rank, t, c);
    forall i, j | ti <= i < |f.threads[l]| && (if i == ti then ci + 1 else 0) <= j < |f.children[f.threads[l][i]]|
      ensures f.children[f.threads[l][i]][j] != c
    {
      assert GoodChild(f, rank, f.threads[l][i], f.children[f.threads[l][i]][j]);
    }
    assert c in Left(f, l, ti, ci);
  }

  /** Everything still to visit has its parent at or above `l`. */
  ghost predicate NotBelow(procs: map<S.Pid, S.Proc>, rank: map<Task, nat>, todo: set<Task>, l: Task) {
    l in rank && forall x | x in todo :: x in procs && procs[x].parent in rank && rank[l] <= rank[procs[x].parent]
  }

  lemma KidsApart(f: Forest, rank: map<Task, nat>, procs: map<S.Pid, S.Proc>, todo: set<Task>, l: Task, c: Task)
    requires Matches(f, procs) && NotBelow(procs, rank, todo, l) && c in f.threads && c in rank && rank[c] < rank[l]
    ensures Left(f, c, 0, 0) !! todo
    ensures NotBelow(procs, rank, todo + Left(f, c, 0, 0), c)
  {
    assert S.Kids(procs, c) == Left(f, c, 0, 0);
  }

  // ---------------------------------------------------------------- one visit

  /** A call of the visitor is a visit step: same flags, and the children to visit are added if it goes down. */
  lemma VisitStep(f: Forest, base: S.State, w: int, me: Task, flagged: set<Task>, todo: set<Task>, c: Task)
    requires Matches(f, base.procs) && c in todo && c in f.threads
    ensures var s, e := Midway(base, w, me, flagged, todo), S.Visit(w, c);
            var (flagged', res) := Propagate(Reapers(base.procs))(flagged, c);
            && S.Enabled(s, e)
            && S.Step(s, e) == Midway(base, w, me, flagged', todo - {c} + if res == 0 then {} else Left(f, c, 0, 0))
            && (res == 0 || res == 1)
  {
    var procs := WithFlags(base.procs, flagged);
    SameChildren(base.procs, flagged, c);
    assert S.Kids(base.procs, c) == Left(f, c, 0, 0);
    assert WithFlags(base.procs, flagged + {c}) == procs[c := procs[c].(has := true)];
    var s, e := Midway(base, w, me, flagged, todo), S.Visit(w, c);
    assert s.calls[w] == S.Walking(me, todo);
    assert S.Enabled(s, e);
    var (flagged', res) := Propagate(Reapers(base.procs))(flagged, c);
    var next := todo - {c} + if res == 0 then {} else Left(f, c, 0, 0);
    assert todo - {c} + {} == todo - {c};
    assert s.calls[w := S.Walking(me, next)] == base.calls[w := S.Walking(me, next)];
  }

  lemma SameChildren(procs: map<S.Pid, S.Proc>, flagged: set<Task>, c: Task)
    ensures S.Kids(WithFlags(procs, flagged), c) == S.Kids(procs, c)
  {
  }

  // ---------------------------------------------------------------- the whole walk

  /** The rest of a walk is a possible sequence of visits, with the same processes in the same order; it leaves
      the flags the walk leaves, and of the processes to visit exactly those that were left. */
  lemma {:induction false} RestIsVisits(f: Forest, rank: map<Task, nat>, base: S.State, w: int, me: Task,
                                        l: Task, ti: int, ci: int, tr: Trace<set<Task>>, todo: set<Task>)
    returns (vs: seq<Task>)
    requires WellFormed(f, rank) && Matches(f, base.procs) && l in f.threads && 0 <= ti < |f.threads[l]|
    requires f.threads[l][ti] in f.children && 0 <= ci <= |f.children[f.threads[l][ti]]|
    requires Left(f, l, ti, ci) <= todo && NotBelow(base.procs, rank, todo, l)
    ensures var wk := Preorder(f, rank, Propagate(Reapers(base.procs)), l, ti, ci, tr);
            && !wk.aborted && wk.trace.visits == tr.visits + vs
            && var s := Midway(base, w, me, tr.state, todo);
               && S.Possible(s, Visits(w, vs))
               && S.Run(s, Visits(w, vs)) == Midway(base, w, me, wk.trace.state, todo - Left(f, l, ti, ci))
    decreases rank[l], |f.threads[l]| - ti, |f.children[f.threads[l][ti]]| - ci
  {
    hide WellFormed, Matches, Left, NotBelow, Midway, S.Possible, S.Run, Visits;
    var t := f.threads[l][ti];
    Links(f, rank, l, ti);
    if ci < |f.children[t]| {
      vs := ChildIsVisits(f, rank, base, w, me, l, ti, ci, tr, todo);
    } else {
      LeftNextThread(f, rank, l, ti);
      if ti + 1 < |f.threads[l]| {
        Links(f, rank, l, ti + 1);
        vs := RestIsVisits(f, rank, base, w, me, l, ti + 1, 0, tr, todo);
      } else {
        vs := [];
        NoVisits(Midway(base, w, me, tr.state, todo), w);
        assert todo - {} == todo;
      }
    }
  }

  lemma NoVisits(s: S.State, w: int)
    ensures Visits(w, []) == [] && S.Possible(s, []) && S.Run(s, []) == s
  {
  }

  /** The same from a child on. */
  lemma {:induction false} ChildIsVisits(f: Forest, rank: map<Task, nat>, base: S.State, w: int, me: Task,
                                         l: Task, ti: int, ci: int, tr: Trace<set<Task>>, todo: set<Task>)
    returns (vs: seq<Task>)
    requires WellFormed(f, rank) && Matches(f, base.procs) && l in f.threads && 0 <= ti < |f.threads[l]|
    requires f.threads[l][ti] in f.children && 0 <= ci < |f.children[f.threads[l][ti]]|
    requires Left(f, l, ti, ci) <= todo && NotBelow(base.procs, rank, todo, l)
    ensures var wk := Preorder(f, rank, Propagate(Reapers(base.procs)), l, ti, ci, tr);
            && !wk.aborted && wk.trace.visits == tr.visits + vs
            && var s := Midway(base, w, me, tr.state, todo);
               && S.Possible(s, Visits(w, vs))
               && S.Run(s, Visits(w, vs)) == Midway(base, w, me, wk.trace.state, todo - Left(f, l, ti, ci))
    decreases rank[l], |f.threads[l]| - ti, |f.children[f.threads[l][ti]]| - ci, 0
  {
    hide WellFormed, Matches, Left, NotBelow, Midway, S.Possible, S.Run, S.Step, S.Enabled, Visits, Propagate;
    var t := f.threads[l][ti];
    Links(f, rank, l, ti);
    var c := f.children[t][ci];
    ChildRank(f, rank, l, ti, ci);
    LeftNextChild(f, rank, l, ti, ci);
    StillAbove(base.procs, rank, todo, l, c);
    KidsApart(f, rank, base.procs, todo - {c}, l, c);
    VisitStep(f, base, w, me, tr.state, todo, c);
    var (state, res) := Propagate(Reapers(base.procs))(tr.state, c);
    var tr' := Trace(state, tr.visits + [c]);
    var s := Midway(base, w, me, tr.state, todo);
    vs := [c];
    FirstVisit(s, w, c);
    var between := tr';
    if res != 0 {
      var kids := Left(f, c, 0, 0);
      var below := RestIsVisits(f, rank, base, w, me, c, 0, 0, tr', todo - {c} + kids);
      between := Preorder(f, rank, Propagate(Reapers(base.procs)), c, 0, 0, tr').trace;
      assert todo - {c} + kids - kids == todo - {c};
      Append(s, w, vs, below);
      vs := vs + below;
    } else {
      assert todo - {c} + {} == todo - {c};
    }
    var rest := RestIsVisits(f, rank, base, w, me, l, ti, ci + 1, between, todo - {c});
    Append(s, w, vs, rest);
    vs := vs + rest;
    assert todo - {c} - Left(f, l, ti, ci + 1) == todo - Left(f, l, ti, ci);
  }

  lemma StillAbove(procs: map<S.Pid, S.Proc>, rank: map<Task, nat>, todo: set<Task>, l: Task, c: Task)
    requires NotBelow(procs, rank, todo, l)
    ensures NotBelow(procs, rank, todo - {c}, l)
  {
  }

  lemma FirstVisit(s: S.State, w: int, c: Task)
    requires S.Enabled(s, S.Visit(w, c))
    ensures S.Possible(s, Visits(w, [c])) && S.Run(s, Visits(w, [c])) == S.Step(s, S.Visit(w, c))
  {
    S.RunOne(s, S.Visit(w, c));
    assert Visits(w, [c]) == [S.Visit(w, c)];
  }

  lemma Append(s: S.State, w: int, a: seq<Task>, b: seq<Task>)
    requires S.Possible(s, Visits(w, a)) && S.Possible(S.Run(s, Visits(w, a)), Visits(w, b))
    ensures S.Possible(s, Visits(w, a + b)) && S.Run(s, Visits(w, a + b)) == S.Run(S.Run(s, Visits(w, a)), Visits(w, b))
  {
    VisitsConcat(w, a, b);
    S.RunConcat(s, Visits(w, a), Visits(w, b));
  }

  /** A call that walks the tree in one go is a possible run of the protocol: it starts, visits exactly the
      processes the stackless walk calls its visitor on, in that order, and ends with nothing left to visit and
      the flags that walk leaves. */
  lemma WalkIsRun(f: Forest, rank: map<Task, nat>, s: S.State, w: int, me: Task) returns (vs: seq<Task>)
    requires WellFormed(f, rank) && Matches(f, s.procs) && me in f.threads
    requires w in s.calls && s.calls[w] == S.Waiting(me)
    ensures var wk := Preorder(f, rank, Propagate(Reapers(s.procs)), me, 0, 0, Trace(Flagged(s.procs), []));
            && wk.trace.visits == vs
            && var es := [S.StartWalk(w)] + Visits(w, vs) + [S.EndWalk(w)];
               S.Possible(s, es) && S.Run(s, es) == S.State(WithFlags(s.procs, wk.trace.state), s.calls - {w})
  {
    hide WellFormed, Left, S.Possible, S.Run, Visits, Preorder, NotBelow;
    var kids := Left(f, me, 0, 0);
    TopChain(f, rank, me);
    assert S.Kids(s.procs, me) == kids;
    SameFlags(s.procs);
    var s1 := Midway(s, w, me, Flagged(s.procs), kids);
    assert S.Step(s, S.StartWalk(w)) == s1;
    S.RunOne(s, S.StartWalk(w));
    AtTop(f, rank, s.procs, me);
    vs := RestIsVisits(f, rank, s, w, me, me, 0, 0, Trace(Flagged(s.procs), []), kids);
    S.RunConcat(s, [S.StartWalk(w)], Visits(w, vs));
    var flagged := Preorder(f, rank, Propagate(Reapers(s.procs)), me, 0, 0, Trace(Flagged(s.procs), [])).trace.state;
    var s2 := Midway(s, w, me, flagged, kids - kids);
    assert kids - kids == {};
    S.RunOne(s2, S.EndWalk(w));
    S.RunConcat(s, [S.StartWalk(w)] + Visits(w, vs), [S.EndWalk(w)]);
    assert s2.calls - {w} == s.calls - {w};
    assert [] + vs == vs;
  }

  lemma AtTop(f: Forest, rank: map<Task, nat>, procs: map<S.Pid, S.Proc>, me: Task)
    requires WellFormed(f, rank) && Matches(f, procs) && me in f.threads
    ensures NotBelow(procs, rank, Left(f, me, 0, 0), me)
  {
    assert S.Kids(procs, me) == Left(f, me, 0, 0);
  }
}
