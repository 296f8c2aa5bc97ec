/** One `prctl` call on its own: what the stackless walk leaves behind when it spreads the flag. */
module Propagation {
  import opened TreeWalk

  /** The visitor over the set of flagged processes: flag and go down, unless the process already has
      the flag or is the reaper of its pid namespace. */
  function Propagate(reapers: set<Task>): (set<Task>, Task) -> (set<Task>, int) {
    (flagged: set<Task>, c: Task) => if c in flagged || c in reapers then (flagged, 0) else (flagged + {c}, 1)
  }

  /** The children of thread `t` from the given one on are all in `ok`. */
  ghost predicate ThreadIn(f: Forest, ok: set<Task>, t: Task, ci: int)
    requires 0 <= ci
  {
    t in f.children && forall j | ci <= j < |f.children[t]| :: f.children[t][j] in ok
  }

  /** So are all that are left of process `l` from there on. */
  ghost predicate RestIn(f: Forest, ok: set<Task>, l: Task, ti: int, ci: int)
    requires l in f.threads && 0 <= ti < |f.threads[l]| && 0 <= ci
  {
    && ThreadIn(f, ok, f.threads[l][ti], ci)
    && forall i | ti < i < |f.threads[l]| :: ThreadIn(f, ok, f.threads[l][i], 0)
  }

  /** Every child of every thread of `l` is in `ok`. */
  ghost predicate ClosedAt(f: Forest, ok: set<Task>, l: Task) {
    l in f.threads && 0 < |f.threads[l]| && RestIn(f, ok, l, 0, 0)
  }

  /** `after` flags what is left of `l`, and whatever it flags beyond `before` has all its children
      flagged, up to namespace reapers. */
  ghost predicate Spreads(f: Forest, reapers: set<Task>, l: Task, ti: int, ci: int, before: set<Task>, after: set<Task>)
    requires l in f.threads && 0 <= ti < |f.threads[l]| && 0 <= ci
  {
    && before <= after
    && RestIn(f, after + reapers, l, ti, ci)
    && forall x {:trigger ClosedAt(f, after + reapers, x)} | x in after - before :: ClosedAt(f, after + reapers, x)
  }

  lemma MoreIsFine(f: Forest, ok: set<Task>, ok': set<Task>, l: Task, ti: int, ci: int)
    requires l in f.threads && 0 <= ti < |f.threads[l]| && 0 <= ci
    requires RestIn(f, ok, l, ti, ci) && ok <= ok'
    ensures RestIn(f, ok', l, ti, ci)
  {
    assert ThreadIn(f, ok', f.threads[l][ti], ci);
    forall i | ti < i < |f.threads[l]|
      ensures ThreadIn(f, ok', f.threads[l][i], 0)
    {
      assert ThreadIn(f, ok, f.threads[l][i], 0);
    }
  }

  /** What comes before the walk moves on and what comes after add up. */
  lemma SpreadsChain(f: Forest, reapers: set<Task>, l: Task, ti: int, ci: int, before: set<Task>, between: set<Task>,
                     after: set<Task>)
    requires l in f.threads && 0 <= ti < |f.threads[l]| && f.threads[l][ti] in f.children
    requires 0 <= ci < |f.children[f.threads[l][ti]]|
    requires before <= between && f.children[f.threads[l][ti]][ci] in between + reapers
    requires forall x {:trigger ClosedAt(f, between + reapers, x)} | x in between - before ::
        ClosedAt(f, between + reapers, x)
    requires Spreads(f, reapers, l, ti, ci + 1, between, after)
    ensures Spreads(f, reapers, l, ti, ci, before, after)
  {
    var t := f.threads[l][ti];
    forall j | ci <= j < |f.children[t]|
      ensures f.children[t][j] in after + reapers
    {
      assert ThreadIn(f, after + reapers, t, ci + 1);
    }
    forall x | x in after - before
      ensures ClosedAt(f, after + reapers, x)
    {
      if x in between {
        assert ClosedAt(f, between + reapers, x);
        MoreIsFine(f, between + reapers, after + reapers, x, 0, 0);
      }
    }
  }

  /** The walk is never aborted and spreads the flag over everything left. */
  lemma {:induction false} PreorderSpreads(f: Forest, rank: map<Task, nat>, reapers: set<Task>, l: Task, ti: int,
                                           ci: int, tr: Trace<set<Task>>)
    requires WellFormed(f, rank) && l in f.threads && 0 <= ti < |f.threads[l]|
    requires f.threads[l][ti] in f.children && 0 <= ci <= |f.children[f.threads[l][ti]]|
    ensures var w := Preorder(f, rank, Propagate(reapers), l, ti, ci, tr);
            !w.aborted && Spreads(f, reapers, l, ti, ci, tr.state, w.trace.state)
    decreases rank[l], |f.threads[l]| - ti, |f.children[f.threads[l][ti]]| - ci
  {
    hide Spreads, WellFormed, ClosedAt;
    var t := f.threads[l][ti];
    Links(f, rank, l, ti);
    if ci < |f.children[t]| {
      var c := f.children[t][ci];
      var (state, res) := Propagate(reapers)(tr.state, c);
      var tr' := Trace(state, tr.visits + [c]);
      ChildRank(f, rank, l, ti, ci);
      var between := if res == 0 then tr' else Preorder(f, rank, Propagate(reapers), c, 0, 0, tr').trace;
      if res != 0 {
        PreorderSpreads(f, rank, reapers, c, 0, 0, tr');
        ChildSpreads(f, reapers, c, tr.state, between.state);
      }
      PreorderSpreads(f, rank, reapers, l, ti, ci + 1, between);
      SpreadsChain(f, reapers, l, ti, ci, tr.state, between.state,
                   Preorder(f, rank, Propagate(reapers), l, ti, ci + 1, between).trace.state);
    } else if ti + 1 < |f.threads[l]| {
      Links(f, rank, l, ti + 1);
      PreorderSpreads(f, rank, reapers, l, ti + 1, 0, tr);
      NextThread(f, reapers, l, ti, tr.state, Preorder(f, rank, Propagate(reapers), l, ti + 1, 0, tr).trace.state);
    } else {
      NothingLeft(f, reapers, l, tr.state);
    }
  }

  lemma ChildRank(f: Forest, rank: map<Task, nat>, l: Task, ti: int, ci: int)
    requires WellFormed(f, rank) && l in f.threads && 0 <= ti < |f.threads[l]|
    requires f.threads[l][ti] in f.children && 0 <= ci < |f.children[f.threads[l][ti]]|
    ensures var c := f.children[f.threads[l][ti]][ci];
            c in rank && l in rank && rank[c] < rank[l]
  {
    assert GoodProcess(f, l);
    assert GoodChild(f, rank, f.threads[l][ti], f.children[f.threads[l][ti]][ci]);
  }

  lemma ChildSpreads(f: Forest, reapers: set<Task>, c: Task, before: set<Task>, after: set<Task>)
    requires c in f.threads && 0 < |f.threads[c]| && Spreads(f, reapers, c, 0, 0, before + {c}, after)
    ensures before <= after && c in after
    ensures forall x {:trigger ClosedAt(f, after + reapers, x)} | x in after - before :: ClosedAt(f, after + reapers, x)
  {
    assert ClosedAt(f, after + reapers, c);
  }

  lemma NextThread(f: Forest, reapers: set<Task>, l: Task, ti: int, before: set<Task>, after: set<Task>)
    requires l in f.threads && 0 <= ti < |f.threads[l]| - 1 && f.threads[l][ti] in f.children
    requires Spreads(f, reapers, l, ti + 1, 0, before, after)
    ensures Spreads(f, reapers, l, ti, |f.children[f.threads[l][ti]]|, before, after)
  {
    assert ThreadIn(f, after + reapers, f.threads[l][ti + 1], 0);
  }

  lemma NothingLeft(f: Forest, reapers: set<Task>, l: Task, flagged: set<Task>)
    requires l in f.threads && 0 < |f.threads[l]| && f.threads[l][|f.threads[l]| - 1] in f.children
    ensures var ti := |f.threads[l]| - 1;
            Spreads(f, reapers, l, ti, |f.children[f.threads[l][ti]]|, flagged, flagged)
  {
  }

  /** It flags nothing beyond that: any set that spreads from the same place holds all it flags. */
  lemma {:induction false} PreorderLeast(f: Forest, rank: map<Task, nat>, reapers: set<Task>, l: Task, ti: int, ci: int,
                                         tr: Trace<set<Task>>, start: set<Task>, any: set<Task>)
    requires WellFormed(f, rank) && l in f.threads && 0 <= ti < |f.threads[l]|
    requires f.threads[l][ti] in f.children && 0 <= ci <= |f.children[f.threads[l][ti]]|
    requires start <= tr.state <= any
    requires forall x {:trigger ClosedAt(f, any + reapers, x)} | x in any - start :: ClosedAt(f, any + reapers, x)
    requires RestIn(f, any + reapers, l, ti, ci)
    ensures Preorder(f, rank, Propagate(reapers), l, ti, ci, tr).trace.state <= any
    decreases rank[l], |f.threads[l]| - ti, |f.children[f.threads[l][ti]]| - ci
  {
    hide WellFormed;
    var t := f.threads[l][ti];
    Links(f, rank, l, ti);
    assert ThreadIn(f, any + reapers, t, ci);
    if ci < |f.children[t]| {
      var c := f.children[t][ci];
      var (state, res) := Propagate(reapers)(tr.state, c);
      var tr' := Trace(state, tr.visits + [c]);
      ChildRank(f, rank, l, ti, ci);
      var between := if res == 0 then tr' else Preorder(f, rank, Propagate(reapers), c, 0, 0, tr').trace;
      PreorderSpreads(f, rank, reapers, c, 0, 0, tr');
      if res != 0 {
        assert c in any;
        assert ClosedAt(f, any + reapers, c);
        PreorderLeast(f, rank, reapers, c, 0, 0, tr', start, any);
      }
      PreorderLeast(f, rank, reapers, l, ti, ci + 1, between, start, any);
    } else if ti + 1 < |f.threads[l]| {
      Links(f, rank, l, ti + 1);
      PreorderLeast(f, rank, reapers, l, ti + 1, 0, tr, start, any);
    }
  }

  /** `prctl(PR_SET_CHILD_SUBREAPER)` by process `me`, nobody else walking: the flagged processes are
      afterwards the least set that holds the old ones, the children of `me`, and the children of
      every newly flagged process, namespace reapers left out. */
  method SetChildSubreaper(f: Forest, ghost rank: map<Task, nat>, reapers: set<Task>, me: Task, on: bool,
                           isSub: set<Task>, flagged: set<Task>)
    returns (isSub': set<Task>, flagged': set<Task>)
    requires WellFormed(f, rank) && me in f.threads
    ensures 0 < |f.threads[me]|
    ensures on ==> isSub' == isSub + {me} && Spreads(f, reapers, me, 0, 0, flagged, flagged')
    ensures on ==> forall any {:trigger Spreads(f, reapers, me, 0, 0, flagged, any)} ::
              Spreads(f, reapers, me, 0, 0, flagged, any) ==> flagged' <= any
    ensures !on ==> isSub' == isSub - {me} && flagged' == flagged
  {
    TopChain(f, rank, me);
    isSub', flagged' := if on then isSub + {me} else isSub - {me}, flagged;
    if !on {
      return;
    }
    var tr, aborted := WalkProcessTree(f, rank, Propagate(reapers), me, flagged);
    flagged' := tr.state;
    PreorderSpreads(f, rank, reapers, me, 0, 0, Trace(flagged, []));
    forall any | Spreads(f, reapers, me, 0, 0, flagged, any)
      ensures flagged' <= any
    {
      PreorderLeast(f, rank, reapers, me, 0, 0, Trace(flagged, []), flagged, any);
    }
  }
}
