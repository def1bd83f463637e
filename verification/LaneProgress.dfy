/**
 Closing a lane comes to an end: no wake-up is lost, some call inside the lane
 can always go on, and once admission is sealed every step of such a call lowers
 a rank that nothing else can raise. Application code, in deinits or outside any
 call, and calls leaving their scopes need the lane for nothing.
 */
module LaneProgress {
  import opened Wrappers
  import opened CallbackTable
  import opened LaneGate
  import opened LaneProtocol
  import opened LaneInvariant
  import opened LaneScopes
  import opened LaneOwners
  import opened LaneRecords
  import opened LaneTheorems

  /** A sleeping thread still has something to wait for. */
  lemma NoLostWakeup(c: Config, s: State, t: Tid)
    requires Reachable(c, s)
    ensures PcOf(s, t) == Draining(true) ==> Borrowers(s) != {}
    ensures PcOf(s, t) == Awaiting(true) ==> s.closer.Some? && Closes(PcOf(s, s.closer.value))
  {
    ReachableLane(c, s);
    ThreadAt(s, t);
    if PcOf(s, t) == Awaiting(true) {
      ThreadAt(s, s.closer.value);
    }
  }

  // ----- No deadlock

  /** The thread's running call is in the lane. */
  predicate InLane(pc: Pc) {
    !AppRuns(pc) && !AtExit(pc)
  }

  /** A step of a call inside the lane, other than a wake-up without reason. */
  predicate Advances(s: State, a: Action) {
    && !a.Evict? && !a.Take? && !a.WakeSpuriously?
    && InLane(PcOf(s, a.t))
  }

  ghost predicate CanAdvance(c: Config, s: State) {
    exists a :: Enabled(c, s, a) && Advances(s, a)
  }

  /** What a call that does not sleep does next, and what Core then answers. */
  function NextStep(c: Config, s: State, t: Tid): Action
    requires InLane(PcOf(s, t))
  {
    match PcOf(s, t)
    case Borrowed(todo) => if todo.None? then Read(t) else Lock(t)
    case Mutating(now) => if now.Admitting? then Abandon(t) else ControlReturns(t, STATUS_OK)
    case Calling(key, _, taken) =>
      var outcome := Answered(if taken then STATUS_OK else BAD_STATE);
      var table := Settlement(c, s, key, outcome, Knows(s.records));
      CallReturns(t, outcome, Knows(s.records), Roots(s.table) - Roots(table))
    case Forgetting(key) => ForgetOwner(t, Roots(s.table) - Roots(Forgotten(c, s, key)))
    case Unlocking => Unlock(t)
    case Ending => GiveBack(t)
    case Stopping => StopReturns(t)
    case Draining(_) => Drain(t)
    case Detaching => Detach(t)
    case Finishing => FinishClose(t)
    case Awaiting(_) => Recheck(t)
  }

  predicate Asleep(pc: Pc) {
    pc == Draining(true) || pc == Awaiting(true)
  }

  lemma NextEnabled(c: Config, s: State, t: Tid)
    requires InLane(PcOf(s, t)) && !Asleep(PcOf(s, t)) && (s.lock.None? || HoldsLock(PcOf(s, t)))
    ensures CanAdvance(c, s)
  {
    var a := NextStep(c, s, t);
    assert Enabled(c, s, a) && Advances(s, a);
  }

  /** While any call is inside the lane, some call inside it can go on. */
  lemma NoDeadlock(c: Config, s: State, t: Tid)
    requires Reachable(c, s) && InLane(PcOf(s, t))
    ensures CanAdvance(c, s)
  {
    ReachableLane(c, s);
    if s.lock.Some? {
      ThreadAt(s, s.lock.value);
      NextEnabled(c, s, s.lock.value);
    } else if Borrowers(s) != {} {
      var u :| u in Borrowers(s);
      IsBorrower(s, u);
      NextEnabled(c, s, u);
    } else if PcOf(s, t).Awaiting? && s.open {
      ThreadAt(s, t);
      ThreadAt(s, s.closer.value);
      NextEnabled(c, s, s.closer.value);
    } else {
      ThreadAt(s, t);
      NextEnabled(c, s, t);
    }
  }

  /** A call that leaves its scope waits for nobody. */
  lemma ExitsFreely(c: Config, s: State, t: Tid)
    requires AtExit(PcOf(s, t))
    ensures Enabled(c, s, Return(t)) || exists root :: Enabled(c, s, Release(t, root))
  {
    if RootsOf(s, t) != {} {
      var root :| root in RootsOf(s, t);
      assert Enabled(c, s, Release(t, root));
    }
  }

  // ----- A rank for closing

  /** Steps a call has left inside the lane. */
  function Weight(pc: Pc): nat
    ensures Weight(pc) <= 5
  {
    match pc
    case Borrowed(_) => 5
    case Mutating(_) => 4
    case Calling(_, _, _) => 3
    case Forgetting(_) => 3
    case Unlocking => 2
    case Ending => 1
    case Stopping => 4
    case Draining(_) => 3
    case Detaching => 2
    case Finishing => 1
    case _ => 0
  }

  function AtLeast(s: State, w: nat): set<Tid> {
    set t | t in s.threads && w <= Weight(TopPc(s.threads[t]))
  }

  /** All the steps that calls have left inside the lane. */
  function Work(s: State): nat {
    |AtLeast(s, 1)| + |AtLeast(s, 2)| + |AtLeast(s, 3)| + |AtLeast(s, 4)| + |AtLeast(s, 5)|
  }

  predicate Waits(pc: Pc) {
    pc == Draining(false) || pc == Awaiting(false)
  }

  /** Threads that are about to look whether they may leave. */
  function Watching(s: State): set<Tid> {
    set t | t in s.threads && Waits(TopPc(s.threads[t]))
  }

  lemma AtLeastPut(s: State, next: State, t: Tid, stack: Stack, w: nat)
    requires next.threads == s.threads[t := stack] && 1 <= w
    ensures |AtLeast(next, w)| ==
            |AtLeast(s, w)| + (if w <= Weight(TopPc(stack)) then 1 else 0) - (if w <= Weight(PcOf(s, t)) then 1 else 0)
  {
    if w <= Weight(TopPc(stack)) {
      assert AtLeast(next, w) == AtLeast(s, w) + {t};
    } else {
      assert AtLeast(next, w) == AtLeast(s, w) - {t};
    }
    assert t in AtLeast(s, w) <==> w <= Weight(PcOf(s, t));
  }

  lemma WorkPut(s: State, next: State, t: Tid, stack: Stack)
    requires next.threads == s.threads[t := stack]
    ensures Work(next) == Work(s) + Weight(TopPc(stack)) - Weight(PcOf(s, t))
  {
    AtLeastPut(s, next, t, stack, 1);
    AtLeastPut(s, next, t, stack, 2);
    AtLeastPut(s, next, t, stack, 3);
    AtLeastPut(s, next, t, stack, 4);
    AtLeastPut(s, next, t, stack, 5);
  }

  lemma IsWatching(s: State, t: Tid)
    ensures t in Watching(s) <==> Waits(PcOf(s, t))
  {
  }

  lemma WatchersAfter(s: State, next: State, t: Tid, stack: Stack)
    requires next.threads == s.threads[t := stack]
    ensures Watching(next) == if Waits(TopPc(stack)) then Watching(s) + {t} else Watching(s) - {t}
  {
  }

  lemma WatchingPut(s: State, next: State, t: Tid, stack: Stack)
    requires next.threads == s.threads[t := stack]
    ensures |Watching(next)| == |Watching(s)| + (if Waits(TopPc(stack)) then 1 else 0) - (if Waits(PcOf(s, t)) then 1 else 0)
  {
    IsWatching(s, t);
    WatchersAfter(s, next, t, stack);
  }

  lemma AtLeastBroadcast(s: State, w: nat)
    ensures AtLeast(Broadcast(s), w) == AtLeast(s, w)
  {
  }

  lemma WorkBroadcast(s: State)
    ensures Work(Broadcast(s)) == Work(s)
  {
    AtLeastBroadcast(s, 1);
    AtLeastBroadcast(s, 2);
    AtLeastBroadcast(s, 3);
    AtLeastBroadcast(s, 4);
    AtLeastBroadcast(s, 5);
  }

  /** A call that is done with the lane leaves less work, whoever it wakes. */
  lemma LeavingLowers(s: State, next: State, t: Tid)
    requires next.threads == s.threads[t := StackOf(next, t)] && Weight(PcOf(next, t)) < Weight(PcOf(s, t))
    ensures Lower(s, next) && Lower(s, Broadcast(next))
  {
    WorkPut(s, next, t, StackOf(next, t));
    WorkBroadcast(next);
  }

  predicate Lower(s: State, next: State) {
    Work(next) < Work(s) || (Work(next) == Work(s) && |Watching(next)| < |Watching(s)|)
  }

  predicate NotHigher(s: State, next: State) {
    Work(next) < Work(s) || (Work(next) == Work(s) && |Watching(next)| <= |Watching(s)|)
  }

  lemma OwnStepLowers(s: State, next: State, t: Tid, stack: Stack)
    requires next.threads == s.threads[t := stack]
    requires Weight(TopPc(stack)) < Weight(PcOf(s, t))
             || (Weight(TopPc(stack)) == Weight(PcOf(s, t)) && Waits(PcOf(s, t)) && !Waits(TopPc(stack)))
    ensures Lower(s, next)
  {
    WorkPut(s, next, t, stack);
    WatchingPut(s, next, t, stack);
  }

  lemma OwnStepKeeps(s: State, next: State, t: Tid, stack: Stack)
    requires next.threads == s.threads[t := stack]
    requires Weight(TopPc(stack)) == Weight(PcOf(s, t)) && Waits(TopPc(stack)) == Waits(PcOf(s, t))
    ensures NotHigher(s, next)
  {
    WorkPut(s, next, t, stack);
    WatchingPut(s, next, t, stack);
  }

  lemma MovedLowers(s: State, next: State, t: Tid)
    requires TopMoved(s, next, t) && Weight(PcOf(next, t)) < Weight(PcOf(s, t))
    ensures Lower(s, next)
  {
    OwnStepLowers(s, next, t, StackOf(next, t));
  }

  lemma BodyLowers(c: Config, s: State, a: Action)
    requires Enabled(c, s, a) && (a.Read? || a.Lock? || a.Unlock? || a.Abandon?)
    ensures Lower(s, Step(c, s, a))
  {
    BodyMoves(c, s, a);
    MovedLowers(s, Step(c, s, a), a.t);
  }

  lemma ControlLowers(c: Config, s: State, a: Action)
    requires Enabled(c, s, a) && a.ControlReturns?
    ensures Lower(s, Step(c, s, a))
  {
    ControlMoves(c, s, a);
    MovedLowers(s, Step(c, s, a), a.t);
  }

  lemma TableStepLowers(c: Config, s: State, a: Action)
    requires Enabled(c, s, a) && (a.CallReturns? || a.ForgetOwner? || a.Detach?)
    ensures Lower(s, Step(c, s, a))
  {
    TableMoves(c, s, a);
    MovedLowers(s, Step(c, s, a), a.t);
  }

  lemma OfferLowers(c: Config, s: State, a: Action)
    requires Enabled(c, s, a) && a.Offer?
    ensures Lower(s, Step(c, s, a))
  {
    OfferMoves(c, s, a);
    MovedLowers(s, Step(c, s, a), a.t);
  }

  lemma CloserLowers(c: Config, s: State, a: Action)
    requires Enabled(c, s, a) && (a.StopReturns? || a.Drain? || a.Recheck?)
    ensures Lower(s, Step(c, s, a))
  {
    var next := Step(c, s, a);
    TopMoves(c, s, a);
    OwnStepLowers(s, next, a.t, StackOf(next, a.t));
  }

  lemma GiveBackLowers(s: State, t: Tid)
    requires PcOf(s, t).Ending?
    ensures Lower(s, DoGiveBack(s, t))
  {
    LeavingLowers(s, SetGate(Move(s, t, Exiting), Leave(GateOf(s)).0), t);
  }

  lemma FinishLowers(c: Config, s: State, a: Action)
    requires Enabled(c, s, a) && a.FinishClose?
    ensures Lower(s, Step(c, s, a))
  {
    var next := SetGate(Move(s, a.t, Exiting), Closed(GateOf(s))).(lock := None);
    LeavingLowers(s, next, a.t);
    assert Step(c, s, a) == Broadcast(next);
  }

  /** Every step of a call inside the lane lowers the rank. */
  lemma AdvanceLowers(c: Config, s: State, a: Action)
    requires Enabled(c, s, a) && Advances(s, a)
    ensures Lower(s, Do(c, s, a))
  {
    DoIs(c, s, a);
    if a.GiveBack? {
      GiveBackLowers(s, a.t);
    } else if a.FinishClose? {
      FinishLowers(c, s, a);
    } else if a.StopReturns? || a.Drain? || a.Recheck? {
      CloserLowers(c, s, a);
    } else if a.CallReturns? || a.ForgetOwner? || a.Detach? {
      TableStepLowers(c, s, a);
    } else if a.Offer? {
      OfferLowers(c, s, a);
    } else if a.ControlReturns? {
      ControlLowers(c, s, a);
    } else {
      BodyLowers(c, s, a);
    }
  }

  lemma IdleStepKeeps(s: State, next: State, t: Tid)
    requires StackFine(StackOf(s, t)) && next.threads == s.threads[t := StackOf(next, t)]
    requires !InLane(PcOf(s, t)) && (!InLane(PcOf(next, t)) || PcOf(next, t) == Awaiting(true))
    ensures NotHigher(s, next)
  {
    OwnStepKeeps(s, next, t, StackOf(next, t));
  }

  lemma CallKeepsRank(s: State, t: Tid, todo: Option<Mutation>)
    requires s.closing && StackFine(StackOf(s, t)) && AppRuns(PcOf(s, t))
    ensures NotHigher(s, DoCall(s, t, todo))
  {
    IdleStepKeeps(s, DoCall(s, t, todo), t);
  }

  lemma CloseCallKeepsRank(s: State, t: Tid)
    requires s.closing && StackFine(StackOf(s, t)) && AppRuns(PcOf(s, t))
    ensures NotHigher(s, DoCallClose(s, t))
  {
    if BeginClose(GateOf(s)).1.AnotherCloses? {
      IdleStepKeeps(s, DoCallClose(s, t), t);
    }
  }

  lemma ExitKeepsRank(c: Config, s: State, a: Action)
    requires Enabled(c, s, a) && (a.Release? || a.Return?) && StackFine(StackOf(s, a.t))
    ensures NotHigher(s, Step(c, s, a)) && !InLane(PcOf(Step(c, s, a), a.t))
  {
    IdleStepKeeps(s, Step(c, s, a), a.t);
  }

  lemma DeinitKeepsRank(s: State, t: Tid)
    requires !InLane(PcOf(s, t))
    ensures NotHigher(s, Push(s, t, Frame(Finalizing, {})))
  {
    var next := Push(s, t, Frame(Finalizing, {}));
    OwnStepKeeps(s, next, t, StackOf(next, t));
  }

  lemma TakeKeepsRank(c: Config, s: State, a: Action)
    requires Enabled(c, s, a) && a.Take?
    ensures NotHigher(s, Step(c, s, a))
  {
    TakeMoves(c, s, a);
    OwnStepKeeps(s, Step(c, s, a), a.t, StackOf(Step(c, s, a), a.t));
  }

  lemma IdleActs(c: Config, s: State, a: Action)
    requires Enabled(c, s, a) && !Advances(s, a) && !a.WakeSpuriously? && !a.Evict? && !a.Take?
    ensures a.Call? || a.CallClose? || a.Release? || a.Return?
  {
  }

  /**
   Once admission is sealed nothing else raises it: new calls are turned away,
   late closers only sleep, and neither deinits nor scope exits enter the lane.
   */
  lemma SealedNeverRises(c: Config, s: State, a: Action)
    requires Reachable(c, s) && s.closing && Enabled(c, s, a) && !Advances(s, a) && !a.WakeSpuriously?
    ensures NotHigher(s, Do(c, s, a))
  {
    ReachableLane(c, s);
    DoIs(c, s, a);
    if a.Evict? {
      assert Step(c, s, a).threads == s.threads;
      assert Work(Step(c, s, a)) == Work(s) && Watching(Step(c, s, a)) == Watching(s);
    } else if a.Take? {
      TakeKeepsRank(c, s, a);
    } else {
      FineAt(s, a.t);
      IdleActs(c, s, a);
      if a.Call? {
        CallKeepsRank(s, a.t, a.todo);
      } else if a.CallClose? {
        CloseCallKeepsRank(s, a.t);
      } else {
        ExitKeepsRank(c, s, a);
        DeinitKeepsRank(Step(c, s, a), a.t);
      }
    }
  }

  /** When no call inside can go on, every close has returned: a sealed lane is then closed for good. */
  lemma StuckMeansClosed(c: Config, s: State)
    requires Reachable(c, s) && s.closing && !CanAdvance(c, s)
    ensures !s.open && s.destroys == 1 && s.table == map[]
    ensures forall t :: !InLane(PcOf(s, t))
  {
    forall t
      ensures !InLane(PcOf(s, t))
    {
      if InLane(PcOf(s, t)) {
        NoDeadlock(c, s, t);
      }
    }
    ReachableLane(c, s);
    ThreadAt(s, s.closer.value);
  }

  /** Every step of `run` advances some call. */
  ghost predicate AllAdvance(c: Config, s: State, run: seq<Action>)
    requires IsRun(c, s, run)
    decreases |run|
  {
    run != [] ==> Advances(s, run[0]) && AllAdvance(c, Do(c, s, run[0]), run[1..])
  }

  /** However a sealed lane is left, letting its calls go on closes it, and then every close has returned. */
  lemma {:induction false} CloseCompletes(c: Config, s: State) returns (run: seq<Action>)
    requires Reachable(c, s) && s.closing
    ensures IsRun(c, s, run) && AllAdvance(c, s, run)
    ensures !Final(c, s, run).open && forall t :: !InLane(PcOf(Final(c, s, run), t))
    decreases Work(s), |Watching(s)|
  {
    if CanAdvance(c, s) {
      var a :| Enabled(c, s, a) && Advances(s, a);
      AdvanceLowers(c, s, a);
      SealStays(c, s, a);
      StepReachable(c, s, a);
      var rest := CloseCompletes(c, Do(c, s, a));
      run := [a] + rest;
      assert run[1..] == rest;
    } else {
      StuckMeansClosed(c, s);
      run := [];
    }
  }
}
