/** Several stackless walks at once, turn by turn, as a run of the flag protocol. */
module Interleaving {
  import opened TreeWalk
  import opened Propagation
  import opened WalkSteps
  import S = Subreaper

  /** Where a walk stands: the processes from its own down to the current one, and the thread and child there. */
  datatype Walker = Walker(stack: seq<Task>, ti: int, ci: int)

  ghost predicate AtWork(f: Forest, rank: map<Task, nat>, k: Walker) {
    && Chain(f, rank, k.stack)
    && var l := k.stack[|k.stack| - 1];
       && 0 <= k.ti < |f.threads[l]| && f.threads[l][k.ti] in f.children
       && 0 <= k.ci <= |f.children[f.threads[l][k.ti]]|
  }

  /** The position in the parent at which a walk goes on when it is done with its current process. */
  ghost function Upwards(f: Forest, rank: map<Task, nat>, stack: seq<Task>): (up: Walker)
    requires WellFormed(f, rank) && Chain(f, rank, stack) && 1 < |stack|
    ensures AtWork(f, rank, up) && up.stack == stack[..|stack| - 1]
  {
    var c, p := stack[|stack| - 1], stack[|stack| - 2];
    assert ChildOf(f, rank, c, p);
    var t := f.realParent[c];
    Walker(stack[..|stack| - 1], IndexOf(f.threads[p], t), IndexOf(f.children[t], c) + 1)
  }

  /** All that a walk still has to visit. */
  ghost function Pending(f: Forest, rank: map<Task, nat>, k: Walker): set<Task>
    requires WellFormed(f, rank) && AtWork(f, rank, k)
    decreases |k.stack|
  {
    Left(f, k.stack[|k.stack| - 1], k.ti, k.ci)
    + if |k.stack| == 1 then {} else Pending(f, rank, Upwards(f, rank, k.stack))
  }

  // ---------------------------------------------------------------- one turn of the loop

  /** A turn visits a process, or only moves on to the next thread or back up, or finds the walk finished. */
  datatype Turn = Visited(child: Task, flagged: set<Task>, next: Walker) | Moved(next: Walker) | Finished

  /** One turn of the loop of `walk_process_tree` with the flag-setting visitor. */
  ghost function TakeTurn(f: Forest, rank: map<Task, nat>, reapers: set<Task>, flagged: set<Task>, k: Walker): Turn
    requires WellFormed(f, rank) && AtWork(f, rank, k)
  {
    var l := k.stack[|k.stack| - 1];
    var t := f.threads[l][k.ti];
    if k.ci < |f.children[t]| then
      var c := f.children[t][k.ci];
      var (flagged', res) := Propagate(reapers)(flagged, c);
      Visited(c, flagged', if res == 0 then k.(ci := k.ci + 1) else Walker(k.stack + [c], 0, 0))
    else if k.ti + 1 < |f.threads[l]| then Moved(k.(ti := k.ti + 1, ci := 0))
    else if 1 < |k.stack| then Moved(Upwards(f, rank, k.stack))
    else Finished
  }

  /** These are the turns of the proved loop: what is left of the walk after a turn is what is left before it,
      one round later. */
  lemma TurnFollows(f: Forest, rank: map<Task, nat>, reapers: set<Task>, k: Walker, tr: Trace<set<Task>>)
    requires WellFormed(f, rank) && AtWork(f, rank, k)
    ensures var visit := Propagate(reapers);
            var now := Continue(f, rank, visit, k.stack, k.ti, k.ci, tr);
            var turn := TakeTurn(f, rank, reapers, tr.state, k);
            && (turn.Finished? ==> now.trace == tr && !now.aborted)
            && (!turn.Finished? ==>
                  var k' := turn.next;
                  var tr' := if turn.Visited? then Trace(turn.flagged, tr.visits + [turn.child]) else tr;
                  AtWork(f, rank, k') && Follows(now, Continue(f, rank, visit, k'.stack, k'.ti, k'.ci, tr')))
  {
    hide WellFormed, Continue;
    OneRound(f, rank, Propagate(reapers), k.stack, k.ti, k.ci, tr);
    var l := k.stack[|k.stack| - 1];
    Links(f, rank, l, k.ti);
  }

  // ---------------------------------------------------------------- what is pending

  lemma LeftInKids(f: Forest, l: Task, ti: int, ci: int)
    requires l in f.threads && 0 <= ti && 0 <= ci
    ensures Left(f, l, ti, ci) <= Left(f, l, 0, 0)
  {
  }

  /** Whatever is pending has its parent on the stack, at or above the current process. */
  lemma {:induction false} PendingAbove(f: Forest, rank: map<Task, nat>, procs: map<S.Pid, S.Proc>, k: Walker)
    requires WellFormed(f, rank) && Matches(f, procs) && AtWork(f, rank, k)
    ensures NotBelow(procs, rank, Pending(f, rank, k), k.stack[|k.stack| - 1])
    decreases |k.stack|
  {
    hide WellFormed, Matches, Left;
    var l := k.stack[|k.stack| - 1];
    AtTop(f, rank, procs, l);
    LeftInKids(f, l, k.ti, k.ci);
    if 1 < |k.stack| {
      PendingAbove(f, rank, procs, Upwards(f, rank, k.stack));
      RankStep(f, rank, k.stack);
    }
  }

  lemma RankStep(f: Forest, rank: map<Task, nat>, stack: seq<Task>)
    requires Chain(f, rank, stack) && 1 < |stack|
    ensures var l, p := stack[|stack| - 1], stack[|stack| - 2];
            l in rank && p in rank && rank[l] < rank[p]
  {
    assert ChildOf(f, rank, stack[|stack| - 1], stack[|stack| - 2]);
  }

  /** A turn that visits takes the process off what is pending, and adds its children if it goes down; any other
      turn leaves what is pending as it is, and a finished walk has nothing pending. */
  lemma TurnPending(f: Forest, rank: map<Task, nat>, procs: map<S.Pid, S.Proc>, reapers: set<Task>, flagged: set<Task>,
                    k: Walker)
    requires WellFormed(f, rank) && Matches(f, procs) && AtWork(f, rank, k)
    ensures var todo, turn := Pending(f, rank, k), TakeTurn(f, rank, reapers, flagged, k);
            && (turn.Finished? ==> todo == {})
            && (!turn.Finished? ==> AtWork(f, rank, turn.next) && turn.next.stack[0] == k.stack[0])
            && (turn.Moved? ==> Pending(f, rank, turn.next) == todo)
            && (turn.Visited? ==>
                  var (after, res) := Propagate(reapers)(flagged, turn.child);
                  && turn.child in todo && turn.child in f.threads && turn.flagged == after
                  && Pending(f, rank, turn.next) ==
                     todo - {turn.child} + if res == 0 then {} else Left(f, turn.child, 0, 0))
  {
    hide WellFormed, Matches, Left, Pending, Propagate;
    var l := k.stack[|k.stack| - 1];
    if k.ci < |f.children[f.threads[l][k.ti]]| {
      VisitPending(f, rank, procs, k);
    } else {
      MovePending(f, rank, k);
    }
  }

  /** The turns that do not visit. */
  lemma MovePending(f: Forest, rank: map<Task, nat>, k: Walker)
    requires WellFormed(f, rank) && AtWork(f, rank, k)
    requires k.ci == |f.children[f.threads[k.stack[|k.stack| - 1]][k.ti]]|
    ensures var l := k.stack[|k.stack| - 1];
            && (k.ti + 1 < |f.threads[l]| ==>
                  && AtWork(f, rank, k.(ti := k.ti + 1, ci := 0))
                  && Pending(f, rank, k.(ti := k.ti + 1, ci := 0)) == Pending(f, rank, k))
            && (k.ti + 1 == |f.threads[l]| && 1 < |k.stack| ==>
                  Pending(f, rank, Upwards(f, rank, k.stack)) == Pending(f, rank, k))
            && (k.ti + 1 == |f.threads[l]| && |k.stack| == 1 ==> Pending(f, rank, k) == {})
  {
    hide WellFormed, Left;
    var l := k.stack[|k.stack| - 1];
    LeftNextThread(f, rank, l, k.ti);
    if k.ti + 1 < |f.threads[l]| {
      Links(f, rank, l, k.ti + 1);
    }
  }

  /** The turns that visit. */
  lemma VisitPending(f: Forest, rank: map<Task, nat>, procs: map<S.Pid, S.Proc>, k: Walker)
    requires WellFormed(f, rank) && Matches(f, procs) && AtWork(f, rank, k)
    requires var l := k.stack[|k.stack| - 1]; k.ci < |f.children[f.threads[l][k.ti]]|
    ensures var c := f.children[f.threads[k.stack[|k.stack| - 1]][k.ti]][k.ci];
            && c in Pending(f, rank, k) && c in f.threads
            && AtWork(f, rank, k.(ci := k.ci + 1)) && AtWork(f, rank, Walker(k.stack + [c], 0, 0))
            && Pending(f, rank, k.(ci := k.ci + 1)) == Pending(f, rank, k) - {c}
            && Pending(f, rank, Walker(k.stack + [c], 0, 0)) == Left(f, c, 0, 0) + (Pending(f, rank, k) - {c})
  {
    hide WellFormed, Matches, Left;
    var l := k.stack[|k.stack| - 1];
    var t := f.threads[l][k.ti];
    var c := f.children[t][k.ci];
    Links(f, rank, l, k.ti);
    LeftNextChild(f, rank, l, k.ti, k.ci);
    NotAbove(f, rank, procs, k, c);
    var k1 := k.(ci := k.ci + 1);
    assert Pending(f, rank, k1) == Pending(f, rank, k) - {c};
    GoneDown(f, rank, k, c);
  }

  /** A child of the current process is not pending further up. */
  lemma NotAbove(f: Forest, rank: map<Task, nat>, procs: map<S.Pid, S.Proc>, k: Walker, c: Task)
    requires WellFormed(f, rank) && Matches(f, procs) && AtWork(f, rank, k)
    requires c in Left(f, k.stack[|k.stack| - 1], k.ti, k.ci)
    ensures 1 < |k.stack| ==> c !in Pending(f, rank, Upwards(f, rank, k.stack))
  {
    hide WellFormed, Left, Pending;
    var l := k.stack[|k.stack| - 1];
    LeftInKids(f, l, k.ti, k.ci);
    assert S.Kids(procs, l) == Left(f, l, 0, 0);
    if 1 < |k.stack| {
      PendingAbove(f, rank, procs, Upwards(f, rank, k.stack));
      RankStep(f, rank, k.stack);
    }
  }

  /** Going down into a child, the way up leads to the next child. */
  lemma GoneDown(f: Forest, rank: map<Task, nat>, k: Walker, c: Task)
    requires WellFormed(f, rank) && AtWork(f, rank, k)
    requires var t := f.threads[k.stack[|k.stack| - 1]][k.ti];
             k.ci < |f.children[t]| && c == f.children[t][k.ci]
    ensures var down := Walker(k.stack + [c], 0, 0);
            AtWork(f, rank, down) && Upwards(f, rank, down.stack) == k.(ci := k.ci + 1)
  {
    var l := k.stack[|k.stack| - 1];
    var t := f.threads[l][k.ti];
    DescendAndReturn<set<Task>>(f, rank, Propagate({}), k.stack, k.ti, k.ci, Trace({}, []));
    Links(f, rank, l, k.ti);
    assert GoodProcess(f, l) && GoodChild(f, rank, t, c);
    IndexUnique(f.threads[l], k.ti);
    IndexUnique(f.children[t], k.ci);
    var deeper := k.stack + [c];
    assert deeper[..|deeper| - 1] == k.stack && deeper[|deeper| - 1] == c && deeper[|deeper| - 2] == l;
  }

  // ---------------------------------------------------------------- many walks

  /** The flags, the calls that are about to walk, and the walks under way. */
  datatype Scene = Scene(flagged: set<Task>, waiting: map<int, Task>, walkers: map<int, Walker>)

  /** A process sets or clears its own flag, a call starts to walk, or a walk takes a turn. */
  datatype Move = Ask(call: int, who: Task) | Clear(who: Task) | Begin(call: int) | Go(call: int)

  ghost predicate Ready(f: Forest, rank: map<Task, nat>, scene: Scene) {
    && (forall w | w in scene.waiting :: scene.waiting[w] in f.threads)
    && (forall w | w in scene.walkers :: AtWork(f, rank, scene.walkers[w]))
  }

  /** What a move does to the scene; a move that cannot be made leaves it alone. */
  ghost function AfterMove(f: Forest, rank: map<Task, nat>, reapers: set<Task>, scene: Scene, m: Move): (after: Scene)
    requires WellFormed(f, rank) && Ready(f, rank, scene)
    ensures Ready(f, rank, after)
  {
    match m
    case Ask(w, p) =>
      if w in scene.waiting || w in scene.walkers || p !in f.threads then scene
      else scene.(waiting := scene.waiting[w := p])
    case Clear(_) => scene
    case Begin(w) =>
      if w !in scene.waiting then scene
      else
        var me := scene.waiting[w];
        TopChain(f, rank, me);
        Scene(scene.flagged, scene.waiting - {w}, scene.walkers[w := Walker([me], 0, 0)])
    case Go(w) =>
      if w !in scene.walkers then scene
      else
        TurnFollows(f, rank, reapers, scene.walkers[w], Trace(scene.flagged, []));
        match TakeTurn(f, rank, reapers, scene.flagged, scene.walkers[w])
        case Visited(_, flagged, k) => Scene(flagged, scene.waiting, scene.walkers[w := k])
        case Moved(k) => scene.(walkers := scene.walkers[w := k])
        case Finished => scene.(walkers := scene.walkers - {w})
  }

  ghost function AfterMoves(f: Forest, rank: map<Task, nat>, reapers: set<Task>, scene: Scene, ms: seq<Move>): Scene
    requires WellFormed(f, rank) && Ready(f, rank, scene)
    decreases |ms|
  {
    if ms == [] then scene
    else AfterMoves(f, rank, reapers, AfterMove(f, rank, reapers, scene, ms[0]), ms[1..])
  }

  /** The step of the protocol that a move is, if any: setting, clearing and starting are one each, and a turn is a
      visit, an end or nothing. */
  ghost function StepsOf(f: Forest, rank: map<Task, nat>, reapers: set<Task>, scene: Scene, m: Move): seq<S.Event>
    requires WellFormed(f, rank) && Ready(f, rank, scene)
  {
    match m
    case Ask(w, p) => if w in scene.waiting || w in scene.walkers || p !in f.threads then [] else [S.SetFlag(p, w)]
    case Clear(p) => if p in f.threads then [S.ClearFlag(p)] else []
    case Begin(w) => if w in scene.waiting then [S.StartWalk(w)] else []
    case Go(w) =>
      if w !in scene.walkers then []
      else
        var turn := TakeTurn(f, rank, reapers, scene.flagged, scene.walkers[w]);
        if turn.Visited? then [S.Visit(w, turn.child)] else if turn.Moved? then [] else [S.EndWalk(w)]
  }

  ghost function AllStepsOf(f: Forest, rank: map<Task, nat>, reapers: set<Task>, scene: Scene,
                            ms: seq<Move>): seq<S.Event>
    requires WellFormed(f, rank) && Ready(f, rank, scene)
    decreases |ms|
  {
    if ms == [] then []
    else
      StepsOf(f, rank, reapers, scene, ms[0])
      + AllStepsOf(f, rank, reapers, AfterMove(f, rank, reapers, scene, ms[0]), ms[1..])
  }

  /** The scene and the state of the protocol tell the same: each walk's list is what is pending for it. */
  ghost predicate Linked(f: Forest, rank: map<Task, nat>, scene: Scene, s: S.State)
    requires WellFormed(f, rank)
  {
    && Ready(f, rank, scene) && Matches(f, s.procs) && Flagged(s.procs) == scene.flagged
    && s.calls.Keys == scene.waiting.Keys + scene.walkers.Keys && scene.waiting.Keys !! scene.walkers.Keys
    && (forall w | w in scene.waiting :: s.calls[w] == S.Waiting(scene.waiting[w]))
    && (forall w | w in scene.walkers :: InStep(f, rank, scene.walkers[w], s.calls[w]))
  }

  ghost predicate InStep(f: Forest, rank: map<Task, nat>, k: Walker, call: S.Call)
    requires WellFormed(f, rank) && AtWork(f, rank, k)
  {
    call == S.Walking(k.stack[0], Pending(f, rank, k))
  }

  /** Flags do not change who is whose child, or who is a reaper. */
  lemma StillMatches(f: Forest, procs: map<S.Pid, S.Proc>, p: Task, has: bool, isSub: bool, ever: bool)
    requires Matches(f, procs) && p in procs
    ensures var procs' := procs[p := procs[p].(has := has, isSub := isSub, ever := ever)];
            && Matches(f, procs') && Reapers(procs') == Reapers(procs)
            && Flagged(procs') == Flagged(procs) - {p} + if has then {p} else {}
  {
    hide Left;
    var procs' := procs[p := procs[p].(has := has, isSub := isSub, ever := ever)];
    forall l | l in f.threads
      ensures S.Kids(procs', l) == Left(f, l, 0, 0)
    {
      assert S.Kids(procs', l) == S.Kids(procs, l);
    }
  }

  /** What a visit step does, in the terms of the visitor. */
  lemma VisitDoes(f: Forest, s: S.State, w: int, c: Task)
    requires Matches(f, s.procs) && w in s.calls && s.calls[w].Walking? && c in s.calls[w].todo && c in f.threads
    ensures var e := S.Visit(w, c);
            var (flagged, res) := Propagate(Reapers(s.procs))(Flagged(s.procs), c);
            && S.Enabled(s, e)
            && var s' := S.Step(s, e);
               && Matches(f, s'.procs) && Reapers(s'.procs) == Reapers(s.procs) && Flagged(s'.procs) == flagged
               && s'.calls == s.calls[w := S.Walking(s.calls[w].who,
                                                     s.calls[w].todo - {c} + if res == 0 then {} else Left(f, c, 0, 0))]
  {
    hide Left;
    StillMatches(f, s.procs, c, true, s.procs[c].isSub, s.procs[c].ever);
    assert S.Kids(s.procs, c) == Left(f, c, 0, 0);
    var todo := s.calls[w].todo;
    assert todo - {c} + {} == todo - {c};
  }

  lemma EndDoes(s: S.State, w: int)
    requires w in s.calls && s.calls[w].Walking? && s.calls[w].todo == {}
    ensures S.Enabled(s, S.EndWalk(w)) && S.Step(s, S.EndWalk(w)) == S.State(s.procs, s.calls - {w})
  {
  }

  lemma NoEvents(s: S.State)
    ensures S.Possible(s, []) && S.Run(s, []) == s
  {
  }

  /** A turn of a walk is one visit of the protocol, or its end, or no step at all. */
  lemma GoIsStep(f: Forest, rank: map<Task, nat>, scene: Scene, s: S.State, w: int) returns (es: seq<S.Event>)
    requires WellFormed(f, rank) && Linked(f, rank, scene, s) && w in scene.walkers
    ensures S.Possible(s, es)
    ensures Linked(f, rank, AfterMove(f, rank, Reapers(s.procs), scene, Go(w)), S.Run(s, es))
    ensures Reapers(S.Run(s, es).procs) == Reapers(s.procs)
    ensures var turn := TakeTurn(f, rank, Reapers(s.procs), scene.flagged, scene.walkers[w]);
            es == if turn.Visited? then [S.Visit(w, turn.child)] else if turn.Moved? then [] else [S.EndWalk(w)]
  {
    hide WellFormed, Linked, Matches, S.Possible, S.Run, Left, Pending, TakeTurn, Propagate, S.Enabled, S.Step;
    LinkedWalker(f, rank, scene, s, w);
    var turn := TakeTurn(f, rank, Reapers(s.procs), scene.flagged, scene.walkers[w]);
    TurnPending(f, rank, s.procs, Reapers(s.procs), scene.flagged, scene.walkers[w]);
    match turn {
      case Visited(c, _, _) =>
        es := [S.Visit(w, c)];
        VisitDoes(f, s, w, c);
        S.RunOne(s, es[0]);
        StillLinked(f, rank, scene, s, w, turn.flagged, turn.next, S.Step(s, es[0]));
      case Moved(_) =>
        es := [];
        NoEvents(s);
        assert s.calls[w := s.calls[w]] == s.calls;
        StillLinked(f, rank, scene, s, w, scene.flagged, turn.next, s);
      case Finished =>
        es := [S.EndWalk(w)];
        EndDoes(s, w);
        S.RunOne(s, es[0]);
        OneFewer(f, rank, scene, s, w);
    }
  }

  lemma LinkedWalker(f: Forest, rank: map<Task, nat>, scene: Scene, s: S.State, w: int)
    requires WellFormed(f, rank) && Linked(f, rank, scene, s) && w in scene.walkers
    ensures Ready(f, rank, scene) && Matches(f, s.procs) && Flagged(s.procs) == scene.flagged
    ensures w in s.calls && s.calls[w] == S.Walking(scene.walkers[w].stack[0], Pending(f, rank, scene.walkers[w]))
  {
  }

  /** One walk has moved on, and its list with it. */
  lemma StillLinked(f: Forest, rank: map<Task, nat>, scene: Scene, s: S.State, w: int, flagged: set<Task>, k: Walker,
                    s': S.State)
    requires WellFormed(f, rank) && Linked(f, rank, scene, s) && w in scene.walkers && AtWork(f, rank, k)
    requires Matches(f, s'.procs) && Flagged(s'.procs) == flagged
    requires s'.calls == s.calls[w := S.Walking(k.stack[0], Pending(f, rank, k))]
    ensures Linked(f, rank, Scene(flagged, scene.waiting, scene.walkers[w := k]), s')
  {
    hide WellFormed, Matches, Pending, AtWork;
    var walkers := scene.walkers[w := k];
    forall v | v in walkers
      ensures AtWork(f, rank, walkers[v]) && InStep(f, rank, walkers[v], s'.calls[v])
    {
      if v != w {
        assert walkers[v] == scene.walkers[v] && s'.calls[v] == s.calls[v];
      }
    }
  }

  /** One walk is over. */
  lemma OneFewer(f: Forest, rank: map<Task, nat>, scene: Scene, s: S.State, w: int)
    requires WellFormed(f, rank) && Linked(f, rank, scene, s) && w in scene.walkers
    ensures Linked(f, rank, scene.(walkers := scene.walkers - {w}), S.State(s.procs, s.calls - {w}))
  {
    hide WellFormed, Matches, Pending, AtWork;
  }

  lemma AskIsStep(f: Forest, rank: map<Task, nat>, scene: Scene, s: S.State, w: int, p: Task)
    requires WellFormed(f, rank) && Linked(f, rank, scene, s)
    requires w !in scene.waiting && w !in scene.walkers && p in f.threads
    ensures S.Enabled(s, S.SetFlag(p, w))
    ensures var s' := S.Step(s, S.SetFlag(p, w));
            && Linked(f, rank, AfterMove(f, rank, Reapers(s.procs), scene, Ask(w, p)), s')
            && Reapers(s'.procs) == Reapers(s.procs)
  {
    hide WellFormed, Left, Pending;
    StillMatches(f, s.procs, p, s.procs[p].has, true, true);
  }

  lemma ClearIsStep(f: Forest, rank: map<Task, nat>, scene: Scene, s: S.State, p: Task)
    requires WellFormed(f, rank) && Linked(f, rank, scene, s) && p in f.threads
    ensures S.Enabled(s, S.ClearFlag(p))
    ensures var s' := S.Step(s, S.ClearFlag(p));
            Linked(f, rank, scene, s') && Reapers(s'.procs) == Reapers(s.procs)
  {
    hide WellFormed, Left, Pending;
    StillMatches(f, s.procs, p, s.procs[p].has, false, s.procs[p].ever);
  }

  lemma BeginIsStep(f: Forest, rank: map<Task, nat>, scene: Scene, s: S.State, w: int)
    requires WellFormed(f, rank) && Linked(f, rank, scene, s) && w in scene.waiting
    ensures S.Enabled(s, S.StartWalk(w))
    ensures var s' := S.Step(s, S.StartWalk(w));
            Linked(f, rank, AfterMove(f, rank, Reapers(s.procs), scene, Begin(w)), s') && s'.procs == s.procs
  {
    hide WellFormed, Left;
    var me := scene.waiting[w];
    TopChain(f, rank, me);
    var k := Walker([me], 0, 0);
    assert S.Kids(s.procs, me) == Left(f, me, 0, 0);
    assert Pending(f, rank, k) == Left(f, me, 0, 0) + {};
    assert InStep(f, rank, k, S.Walking(me, S.Kids(s.procs, me)));
  }

  /** Every move is at most one step of the protocol. */
  lemma MoveIsStep(f: Forest, rank: map<Task, nat>, scene: Scene, s: S.State, m: Move) returns (es: seq<S.Event>)
    requires WellFormed(f, rank) && Linked(f, rank, scene, s)
    ensures Ready(f, rank, scene) && es == StepsOf(f, rank, Reapers(s.procs), scene, m) && S.Possible(s, es)
    ensures Linked(f, rank, AfterMove(f, rank, Reapers(s.procs), scene, m), S.Run(s, es))
    ensures Reapers(S.Run(s, es).procs) == Reapers(s.procs)
  {
    hide WellFormed, Matches, S.Possible, S.Run, S.Step, S.Enabled, Left, TakeTurn;
    es := [];
    NoEvents(s);
    match m {
      case Ask(w, p) =>
        if w !in scene.waiting && w !in scene.walkers && p in f.threads {
          AskIsStep(f, rank, scene, s, w, p);
          es := [S.SetFlag(p, w)];
          S.RunOne(s, es[0]);
        }
      case Clear(p) =>
        if p in f.threads {
          ClearIsStep(f, rank, scene, s, p);
          es := [S.ClearFlag(p)];
          S.RunOne(s, es[0]);
        }
      case Begin(w) =>
        if w in scene.waiting {
          BeginIsStep(f, rank, scene, s, w);
          es := [S.StartWalk(w)];
          S.RunOne(s, es[0]);
        }
      case Go(w) =>
        if w in scene.walkers {
          es := GoIsStep(f, rank, scene, s, w);
        }
    }
  }

  /** Whatever the order in which the walks take their turns, the whole is a run of the protocol, and each walk's
      list stays what is pending for it. */
  lemma {:induction false} TurnsAreRun(f: Forest, rank: map<Task, nat>, scene: Scene, s: S.State, ms: seq<Move>)
    returns (es: seq<S.Event>)
    requires WellFormed(f, rank) && Linked(f, rank, scene, s)
    ensures Ready(f, rank, scene) && es == AllStepsOf(f, rank, Reapers(s.procs), scene, ms) && S.Possible(s, es)
    ensures Linked(f, rank, AfterMoves(f, rank, Reapers(s.procs), scene, ms), S.Run(s, es))
    ensures Reapers(S.Run(s, es).procs) == Reapers(s.procs)
    decreases |ms|
  {
    hide WellFormed, Linked, S.Possible, S.Run, AfterMove, StepsOf;
    StaysReady(f, rank, scene, s);
    if ms == [] {
      es := [];
      NoEvents(s);
    } else {
      var first := MoveIsStep(f, rank, scene, s, ms[0]);
      var rest := TurnsAreRun(f, rank, AfterMove(f, rank, Reapers(s.procs), scene, ms[0]), S.Run(s, first), ms[1..]);
      es := first + rest;
      S.RunConcat(s, first, rest);
    }
  }

  lemma StaysReady(f: Forest, rank: map<Task, nat>, scene: Scene, s: S.State)
    requires WellFormed(f, rank) && Linked(f, rank, scene, s)
    ensures Ready(f, rank, scene)
  {
  }

  /** So when all the walks are over, whatever their turns were, every child of a flagged process, and of one that
      is still a subreaper, is flagged or the reaper of its namespace. */
  lemma AllFlaggedAtTheEnd(f: Forest, rank: map<Task, nat>, scene: Scene, s: S.State, ms: seq<Move>)
    returns (es: seq<S.Event>)
    requires WellFormed(f, rank) && Linked(f, rank, scene, s) && S.Inv(s)
    ensures Ready(f, rank, scene) && es == AllStepsOf(f, rank, Reapers(s.procs), scene, ms) && S.Possible(s, es)
    ensures var after, procs := AfterMoves(f, rank, Reapers(s.procs), scene, ms), S.Run(s, es).procs;
            && Matches(f, procs) && Flagged(procs) == after.flagged && Reapers(procs) == Reapers(s.procs)
            && (after.waiting == map[] && after.walkers == map[] ==>
                  forall p, c | p in procs && c in S.Kids(procs, p) && (procs[p].has || procs[p].isSub) ::
                    procs[c].has || procs[c].reaper)
  {
    hide WellFormed, S.Possible, S.Run, AfterMoves, AllStepsOf, Left;
    es := TurnsAreRun(f, rank, scene, s, ms);
    S.RunKeeps(s, es);
    var after, s' := AfterMoves(f, rank, Reapers(s.procs), scene, ms), S.Run(s, es);
    if after.waiting == map[] && after.walkers == map[] {
      NoCallsLeft(s');
    }
  }

  lemma NoCallsLeft(s: S.State)
    requires S.Inv(s) && s.calls.Keys == {}
    ensures forall p, c | p in s.procs && c in S.Kids(s.procs, p) && (s.procs[p].has || s.procs[p].isSub) ::
              s.procs[c].has || s.procs[c].reaper
  {
    forall p, c | p in s.procs && c in S.Kids(s.procs, p) && (s.procs[p].has || s.procs[p].isSub)
      ensures s.procs[c].has || s.procs[c].reaper
    {
      assert S.Covered(s, c);
    }
  }
}
