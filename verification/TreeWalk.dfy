/** The stackless walk over the process tree (`walk_process_tree`). */
module TreeWalk {

  type Task = int

  /** The links the walk follows: the threads of each process, keyed by its leader, the children of each
      thread (leaders of their processes), and the links back up. */
  datatype Forest = Forest(
    threads: map<Task, seq<Task>>,
    children: map<Task, seq<Task>>,
    realParent: map<Task, Task>,
    groupLeader: map<Task, Task>)

  ghost predicate NoRepeats(xs: seq<Task>) {
    forall i, j | 0 <= i < j < |xs| :: xs[i] != xs[j]
  }

  /** The links agree with each other, and `rank` shows that going down always ends. */
  ghost predicate WellFormed(f: Forest, rank: map<Task, nat>) {
    && f.threads.Keys <= rank.Keys
    && (forall l | l in f.threads :: GoodProcess(f, l))
    && (forall t | t in f.children :: NoRepeats(f.children[t]) && t in f.groupLeader && f.groupLeader[t] in f.threads)
    && (forall t, i {:trigger f.children[t][i]} | t in f.children && 0 <= i < |f.children[t]| ::
          GoodChild(f, rank, t, f.children[t][i]))
  }

  ghost predicate GoodProcess(f: Forest, l: Task)
    requires l in f.threads
  {
    && 0 < |f.threads[l]| && NoRepeats(f.threads[l])
    && forall i | 0 <= i < |f.threads[l]| ::
         f.threads[l][i] in f.children && f.threads[l][i] in f.groupLeader && f.groupLeader[f.threads[l][i]] == l
  }

  ghost predicate GoodChild(f: Forest, rank: map<Task, nat>, t: Task, c: Task) {
    && c in f.threads && c in f.realParent && f.realParent[c] == t
    && t in f.groupLeader && f.groupLeader[t] in rank && c in rank && rank[c] < rank[f.groupLeader[t]]
    && f.groupLeader[t] in f.threads && t in f.threads[f.groupLeader[t]]
  }

  /** The visitor's own state, and the processes it has been called on so far. */
  datatype Trace<S> = Trace(state: S, visits: seq<Task>)

  /** Outcome of a walk: the trace, whether the visitor aborted it, and how many rounds a loop takes. */
  datatype Walk<S> = Walk(trace: Trace<S>, aborted: bool, rounds: nat)

  /** The recursive pre-order walk over what is left of process `l` from child `ci` of thread `ti` on:
      a negative answer aborts, zero skips the child's own descendants. */
  ghost function Preorder<S>(f: Forest, rank: map<Task, nat>, visit: (S, Task) -> (S, int),
                             l: Task, ti: int, ci: int, tr: Trace<S>): Walk<S>
    requires WellFormed(f, rank) && l in f.threads && 0 <= ti < |f.threads[l]|
    requires 0 <= ci <= |f.children[f.threads[l][ti]]|
    decreases rank[l], |f.threads[l]| - ti, |f.children[f.threads[l][ti]]| - ci
  {
    var t := f.threads[l][ti];
    if ci == |f.children[t]| then
      if ti + 1 == |f.threads[l]| then Walk(tr, false, 1)
      else
        var rest := Preorder(f, rank, visit, l, ti + 1, 0, tr);
        rest.(rounds := rest.rounds + 1)
    else
      var c := f.children[t][ci];
      assert GoodChild(f, rank, t, c) && f.groupLeader[t] == l;
      var (state, res) := visit(tr.state, c);
      var tr' := Trace(state, tr.visits + [c]);
      if res < 0 then Walk(tr', true, 1)
      else if res == 0 then
        var rest := Preorder(f, rank, visit, l, ti, ci + 1, tr');
        rest.(rounds := rest.rounds + 1)
      else
        var below := Preorder(f, rank, visit, c, 0, 0, tr');
        if below.aborted then below.(rounds := below.rounds + 1)
        else
          var rest := Preorder(f, rank, visit, l, ti, ci + 1, below.trace);
          rest.(rounds := below.rounds + rest.rounds + 1)
  }

  // ---------------------------------------------------------------- where the loop stands

  function IndexOf(xs: seq<Task>, x: Task): (i: int)
    requires x in xs
    ensures 0 <= i < |xs| && xs[i] == x
  {
    if xs[0] == x then 0 else 1 + IndexOf(xs[1..], x)
  }

  /** The processes from the top down to the current one; the loop itself keeps no such list. */
  ghost predicate Chain(f: Forest, rank: map<Task, nat>, stack: seq<Task>) {
    && 0 < |stack|
    && (forall k | 0 <= k < |stack| :: stack[k] in f.threads)
    && (forall k | 0 < k < |stack| :: ChildOf(f, rank, stack[k], stack[k - 1]))
  }

  /** `c` is a child of some thread of `p`. */
  ghost predicate ChildOf(f: Forest, rank: map<Task, nat>, c: Task, p: Task) {
    && c in f.realParent && f.realParent[c] in f.children && c in f.children[f.realParent[c]]
    && GoodChild(f, rank, f.realParent[c], c) && f.groupLeader[f.realParent[c]] == p
  }

  /** What is left to do once the current process is finished: go up and carry on after it. */
  ghost function Resume<S>(f: Forest, rank: map<Task, nat>, visit: (S, Task) -> (S, int), stack: seq<Task>,
                           tr: Trace<S>): Walk<S>
    requires WellFormed(f, rank) && Chain(f, rank, stack)
    decreases |stack|, 0
  {
    if |stack| == 1 then Walk(tr, false, 0)
    else
      var c, p := stack[|stack| - 1], stack[|stack| - 2];
      assert ChildOf(f, rank, c, p);
      var t := f.realParent[c];
      Continue(f, rank, visit, stack[..|stack| - 1], IndexOf(f.threads[p], t), IndexOf(f.children[t], c) + 1, tr)
  }

  /** What is left to do from a position inside the current process. */
  ghost function Continue<S>(f: Forest, rank: map<Task, nat>, visit: (S, Task) -> (S, int),
                             stack: seq<Task>, ti: int, ci: int, tr: Trace<S>): Walk<S>
    requires WellFormed(f, rank) && Chain(f, rank, stack)
    requires var l := stack[|stack| - 1]; 0 <= ti < |f.threads[l]| && 0 <= ci <= |f.children[f.threads[l][ti]]|
    decreases |stack|, 1
  {
    var w := Preorder(f, rank, visit, stack[|stack| - 1], ti, ci, tr);
    if w.aborted then w
    else
      var r := Resume(f, rank, visit, stack, w.trace);
      r.(rounds := w.rounds + r.rounds)
  }

  lemma {:induction false} IndexUnique(xs: seq<Task>, i: int)
    requires NoRepeats(xs) && 0 <= i < |xs|
    ensures IndexOf(xs, xs[i]) == i
  {
  }

  /** Entering a process and leaving it again comes back to the next child. */
  lemma DescendAndReturn<S>(f: Forest, rank: map<Task, nat>, visit: (S, Task) -> (S, int), stack: seq<Task>, ti: int,
                            ci: int, tr: Trace<S>)
    requires WellFormed(f, rank) && Chain(f, rank, stack)
    requires var l := stack[|stack| - 1]; 0 <= ti < |f.threads[l]| && 0 <= ci < |f.children[f.threads[l][ti]]|
    ensures var c := f.children[f.threads[stack[|stack| - 1]][ti]][ci];
            && Chain(f, rank, stack + [c])
            && Resume(f, rank, visit, stack + [c], tr) == Continue(f, rank, visit, stack, ti, ci + 1, tr)
  {
    var l := stack[|stack| - 1];
    var t := f.threads[l][ti];
    var c := f.children[t][ci];
    assert GoodProcess(f, l) && GoodChild(f, rank, t, c);
    IndexUnique(f.threads[l], ti);
    IndexUnique(f.children[t], ci);
    var deeper := stack + [c];
    assert deeper[..|deeper| - 1] == stack;
    assert ChildOf(f, rank, c, l);
  }

  /** Below the top the current process is never the top. */
  lemma {:induction false} RankFalls(f: Forest, rank: map<Task, nat>, stack: seq<Task>, k: int)
    requires WellFormed(f, rank) && Chain(f, rank, stack) && 0 <= k < |stack|
    ensures stack[k] in rank && stack[0] in rank
    ensures 0 < k ==> rank[stack[k]] < rank[stack[0]]
  {
    if 0 < k {
      RankFalls(f, rank, stack, k - 1);
      assert ChildOf(f, rank, stack[k], stack[k - 1]);
    }
  }

  /** `walk_process_tree` from a leader: three variables, the links, and no stack.  It ends, and the visitor
      has been called on the same processes in the same order, with the same states in between, as by
      the recursive pre-order walk. */
  method WalkProcessTree<S>(f: Forest, ghost rank: map<Task, nat>, visit: (S, Task) -> (S, int), top: Task, state: S)
    returns (tr: Trace<S>, aborted: bool)
    requires WellFormed(f, rank) && top in f.threads
    ensures var w := Preorder(f, rank, visit, top, 0, 0, Trace(state, []));
            tr == w.trace && aborted == w.aborted
  {
    hide WellFormed, Preorder, Continue, Resume, Chain;
    tr := Trace(state, []);
    var leader := top;
    ghost var stack, ti, ci := [top], 0, 0;
    TopChain(f, rank, top);
    var parent := f.threads[leader][0];
    var taken := false;                             // has a child of `parent` been handled yet?
    var child := top;                               // the last one, if so
    StartOfWalk(f, rank, visit, top, tr);
    while true
      invariant 0 < |stack| && Chain(f, rank, stack) && stack[0] == top && stack[|stack| - 1] == leader
          && leader in f.threads
      invariant 0 <= ti < |f.threads[leader]| && parent == f.threads[leader][ti] && parent in f.children
      invariant 0 <= ci <= |f.children[parent]|
      invariant taken == (0 < ci) && (taken ==> child == f.children[parent][ci - 1])
      invariant var w, c := Preorder(f, rank, visit, top, 0, 0, Trace(state, [])),
          Continue(f, rank, visit, stack, ti, ci, tr);
                w.trace == c.trace && w.aborted == c.aborted
      decreases Continue(f, rank, visit, stack, ti, ci, tr).rounds
    {
      Links(f, rank, leader, ti);
      OneRound(f, rank, visit, stack, ti, ci, tr);
      var next := if taken then IndexOf(f.children[parent], child) + 1 else 0;
      if taken {
        IndexUnique(f.children[parent], ci - 1);
      }
      if next < |f.children[parent]| {
        child := f.children[parent][next];
        var (state', res) := visit(tr.state, child);
        tr := Trace(state', tr.visits + [child]);
        if res < 0 {
          return tr, true;
        }
        if res > 0 {
          leader := child;                          // goto down
          stack, ti, ci := stack + [child], 0, 0;
          parent, taken := f.threads[leader][0], false;
        } else {
          taken, ci := true, ci + 1;
        }
      } else {
        var here := IndexOf(f.threads[leader], parent);
        IndexUnique(f.threads[leader], ti);
        if here + 1 < |f.threads[leader]| {
          parent, taken := f.threads[leader][here + 1], false;
          ti, ci := ti + 1, 0;
        } else if leader != top {
          child := leader;                          // goto up
          parent := f.realParent[child];
          leader := f.groupLeader[parent];
          taken := true;
          stack := stack[..|stack| - 1];
          ti, ci := IndexOf(f.threads[leader], parent), IndexOf(f.children[parent], child) + 1;
        } else {
          return tr, false;
        }
      }
    }
  }

  lemma TopChain(f: Forest, rank: map<Task, nat>, top: Task)
    requires WellFormed(f, rank) && top in f.threads
    ensures Chain(f, rank, [top]) && 0 < |f.threads[top]| && f.threads[top][0] in f.children
  {
    assert GoodProcess(f, top);
  }

  /** At the start everything is left to do. */
  lemma StartOfWalk<S>(f: Forest, rank: map<Task, nat>, visit: (S, Task) -> (S, int), top: Task, tr: Trace<S>)
    requires WellFormed(f, rank) && top in f.threads && Chain(f, rank, [top])
    requires 0 < |f.threads[top]| && f.threads[top][0] in f.children
    ensures var w, c := Preorder(f, rank, visit, top, 0, 0, tr), Continue(f, rank, visit, [top], 0, 0, tr);
            w.trace == c.trace && w.aborted == c.aborted
  {
  }

  lemma Links(f: Forest, rank: map<Task, nat>, leader: Task, ti: int)
    requires WellFormed(f, rank) && leader in f.threads && 0 <= ti < |f.threads[leader]|
    ensures var t := f.threads[leader][ti];
            && NoRepeats(f.threads[leader]) && t in f.children && NoRepeats(f.children[t])
            && forall i | 0 <= i < |f.children[t]| ::
                 var c := f.children[t][i];
                 && c in f.threads && 0 < |f.threads[c]| && f.threads[c][0] in f.children
  {
    assert GoodProcess(f, leader);
    var t := f.threads[leader][ti];
    forall i | 0 <= i < |f.children[t]|
      ensures var c := f.children[t][i]; c in f.threads && 0 < |f.threads[c]| && f.threads[c][0] in f.children
    {
      var c := f.children[t][i];
      assert GoodChild(f, rank, t, c);
      assert GoodProcess(f, c);
    }
  }

  /** What one round of the loop does to the rest of the walk. */
  lemma OneRound<S>(f: Forest, rank: map<Task, nat>, visit: (S, Task) -> (S, int), stack: seq<Task>, ti: int, ci: int,
                    tr: Trace<S>)
    requires WellFormed(f, rank) && Chain(f, rank, stack)
    requires var l := stack[|stack| - 1]; 0 <= ti < |f.threads[l]| && 0 <= ci <= |f.children[f.threads[l][ti]]|
    ensures var l := stack[|stack| - 1];
            var t := f.threads[l][ti];
            var now := Continue(f, rank, visit, stack, ti, ci, tr);
            && (ci < |f.children[t]| ==>
                  var c := f.children[t][ci];
                  var (state, res) := visit(tr.state, c);
                  var tr' := Trace(state, tr.visits + [c]);
                  && Chain(f, rank, stack + [c]) && c in f.threads && 0 < |f.threads[c]|
                      && f.threads[c][0] in f.children
                  && (res < 0 ==> now.trace == tr' && now.aborted)
                  && (res == 0 ==> Follows(now, Continue(f, rank, visit, stack, ti, ci + 1, tr')))
                  && (res > 0 ==> Follows(now, Continue(f, rank, visit, stack + [c], 0, 0, tr'))))
            && (ci == |f.children[t]| && ti + 1 < |f.threads[l]| ==>
                  && f.threads[l][ti + 1] in f.children
                  && Follows(now, Continue(f, rank, visit, stack, ti + 1, 0, tr)))
            && (ci == |f.children[t]| && ti + 1 == |f.threads[l]| && |stack| == 1 ==> now.trace == tr && !now.aborted)
            && (ci == |f.children[t]| && ti + 1 == |f.threads[l]| && 1 < |stack| ==>
                  var p := stack[|stack| - 2];
                  && Chain(f, rank, stack[..|stack| - 1]) && ChildOf(f, rank, l, p) && l != stack[0]
                  && var t' := f.realParent[l];
                     Follows(now, Continue(f, rank, visit, stack[..|stack| - 1], IndexOf(f.threads[p], t'),
                                           IndexOf(f.children[t'], l) + 1, tr)))
  {
    var l := stack[|stack| - 1];
    var t := f.threads[l][ti];
    Links(f, rank, l, ti);
    if ci < |f.children[t]| {
      var c := f.children[t][ci];
      var (state, res) := visit(tr.state, c);
      var tr' := Trace(state, tr.visits + [c]);
      var below := Preorder(f, rank, visit, c, 0, 0, tr');
      DescendAndReturn(f, rank, visit, stack, ti, ci, below.trace);
      assert (stack + [c])[|stack|] == c;
    } else if ti + 1 < |f.threads[l]| {
      Links(f, rank, l, ti + 1);
    } else if 1 < |stack| {
      RankFalls(f, rank, stack, |stack| - 1);
      assert ChildOf(f, rank, l, stack[|stack| - 2]);
    }
  }

  /** The second walk is the first one round later. */
  ghost predicate Follows<S>(now: Walk<S>, later: Walk<S>) {
    now.trace == later.trace && now.aborted == later.aborted && now.rounds == later.rounds + 1
  }
}
