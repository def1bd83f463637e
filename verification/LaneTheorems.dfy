/** What the borrow and drain protocol of a lane guarantees in every interleaving. */
module LaneTheorems {
  import opened Wrappers
  import opened CallbackTable
  import opened LaneGate
  import opened LaneProtocol
  import opened LaneInvariant
  import opened LaneScopes
  import opened LaneRecords

  // ----- Runs extend

  lemma {:induction false} RunThenStep(c: Config, s: State, run: seq<Action>, a: Action)
    requires IsRun(c, s, run) && Enabled(c, Final(c, s, run), a)
    ensures IsRun(c, s, run + [a]) && Final(c, s, run + [a]) == Do(c, Final(c, s, run), a)
    decreases |run|
  {
    if run == [] {
      assert run + [a] == [a];
      assert [a][1..] == [];
    } else {
      RunThenStep(c, Do(c, s, run[0]), run[1..], a);
      assert (run + [a])[1..] == run[1..] + [a];
    }
  }

  lemma StepReachable(c: Config, s: State, a: Action)
    requires Reachable(c, s) && Enabled(c, s, a)
    ensures Reachable(c, Do(c, s, a))
  {
    var run :| IsRun(c, START, run) && Final(c, START, run) == s;
    RunThenStep(c, START, run, a);
  }

  // ----- What a step leaves alone

  lemma TopOneThread(c: Config, s: State, a: Action, u: Tid)
    requires Enabled(c, s, a) && MovesTop(a) && u != a.t
    ensures StackOf(Step(c, s, a), u) == StackOf(s, u)
  {
    if a.Release? {
      ReleaseMoves(c, s, a);
    } else if ChangesTable(a) {
      TableMoves(c, s, a);
    } else {
      TopMoves(c, s, a);
    }
  }

  /** Apart from the two broadcasts, a step changes one stack at most. */
  lemma OneThread(c: Config, s: State, a: Action, u: Tid)
    requires Enabled(c, s, a) && !a.GiveBack? && !a.FinishClose? && (a.Evict? || u != a.t)
    ensures StackOf(Step(c, s, a), u) == StackOf(s, u)
  {
    if MovesTop(a) {
      TopOneThread(c, s, a, u);
    } else if a.Call? {
    } else if a.CallClose? {
    } else if a.Return? {
    }
  }

  /** A step moves one thread; it can only wake the others. */
  lemma OthersKeep(c: Config, s: State, a: Action, u: Tid)
    requires Enabled(c, s, a) && (a.Evict? || u != a.t)
    ensures PcOf(Do(c, s, a), u) == PcOf(s, u) || PcOf(Do(c, s, a), u) == Woken(PcOf(s, u))
  {
    DoIs(c, s, a);
    if a.GiveBack? {
      AtBroadcast(SetGate(Move(s, a.t, Exiting), Leave(GateOf(s)).0), u);
    } else if a.FinishClose? {
      var next := SetGate(Move(s, a.t, Exiting), Closed(GateOf(s))).(lock := None);
      AtBroadcast(next, u);
      assert Step(c, s, a) == Broadcast(next);
    } else {
      OneThread(c, s, a, u);
    }
  }

  lemma OnlyDrainDestroys(c: Config, s: State, a: Action)
    requires Enabled(c, s, a) && Step(c, s, a).destroys != s.destroys
    ensures a.Drain? && s.activeCalls == 0
  {
    if a.Call? {
    } else if a.CallClose? {
    } else if a.GiveBack? {
    } else if a.Offer? {
    } else if a.CallReturns? || a.ForgetOwner? || a.Detach? {
    } else if a.ControlReturns? || a.Take? {
    } else if a.FinishClose? {
    }
  }

  lemma SealedStep(c: Config, s: State, a: Action)
    requires Enabled(c, s, a) && s.closing
    ensures Step(c, s, a).closing
  {
    if a.Call? {
    } else if a.CallClose? {
    } else if a.GiveBack? {
    } else if a.Offer? {
    } else if a.CallReturns? || a.ForgetOwner? || a.Detach? {
    } else if a.ControlReturns? || a.Take? {
    } else if a.FinishClose? {
    }
  }

  lemma SealStays(c: Config, s: State, a: Action)
    requires s.closing && Enabled(c, s, a)
    ensures Do(c, s, a).closing
  {
    SealedStep(c, s, a);
    DoIs(c, s, a);
  }

  // ----- Counting and closing

  /** The call is inside the lane, or about to be let in by a close. */
  predicate Inside(pc: Pc) {
    Borrows(pc) || HoldsLock(pc) || Closes(pc) || pc.Awaiting?
  }

  /**
   The counter is the number of calls that hold a borrow, at most one to a
   thread; the condition and the effective close have one holder each.
   */
  lemma CallsCounted(c: Config, s: State)
    requires Reachable(c, s)
    ensures s.activeCalls == |Borrowers(s)|
    ensures forall t, i :: 0 <= i < |StackOf(s, t)| && Inside(StackOf(s, t)[i].pc) ==> i == |StackOf(s, t)| - 1
    ensures forall t, u :: HoldsLock(PcOf(s, t)) && HoldsLock(PcOf(s, u)) ==> t == u
    ensures forall t, u :: Closes(PcOf(s, t)) && Closes(PcOf(s, u)) ==> t == u
  {
    ReachableLane(c, s);
    forall t, i | 0 <= i < |StackOf(s, t)| && Inside(StackOf(s, t)[i].pc)
      ensures i == |StackOf(s, t)| - 1
    {
      FineAt(s, t);
    }
    forall t, u | HoldsLock(PcOf(s, t)) && HoldsLock(PcOf(s, u))
      ensures t == u
    {
      ThreadAt(s, t);
      ThreadAt(s, u);
    }
    forall t, u | Closes(PcOf(s, t)) && Closes(PcOf(s, u))
      ensures t == u
    {
      ThreadAt(s, t);
      ThreadAt(s, u);
    }
  }

  lemma LeavingEndsBorrow(s: State, t: Tid)
    ensures !Borrows(PcOf(DoGiveBack(s, t), t))
  {
    AtBroadcast(SetGate(Move(s, t, Exiting), Leave(GateOf(s)).0), t);
  }

  lemma FinishingBorrowsNone(c: Config, s: State, a: Action)
    requires a.FinishClose? && Enabled(c, s, a)
    ensures !Borrows(PcOf(Step(c, s, a), a.t))
  {
    var next := SetGate(Move(s, a.t, Exiting), Closed(GateOf(s))).(lock := None);
    AtBroadcast(next, a.t);
    assert Step(c, s, a) == Broadcast(next);
  }

  lemma ScopesAdmitNone(c: Config, s: State, a: Action)
    requires !a.Evict? && !MovesTop(a)
    requires Enabled(c, s, a) && s.closing && StackFine(StackOf(s, a.t))
    ensures !Borrows(PcOf(Step(c, s, a), a.t))
  {
    if a.Call? {
    } else if a.CallClose? {
    } else if a.FinishClose? {
      FinishingBorrowsNone(c, s, a);
    } else if a.GiveBack? {
      LeavingEndsBorrow(s, a.t);
    } else {
      assert a.Return?;
    }
  }

  /** Steps of calls that hold a borrow. */
  predicate OfBorrower(a: Action) {
    || a.Read? || a.Lock? || a.Abandon? || a.Offer? || a.CallReturns? || a.ControlReturns? || a.ForgetOwner?
    || a.Unlock? || a.Take?
  }

  lemma BorrowersSteps(c: Config, s: State, a: Action)
    requires Enabled(c, s, a) && OfBorrower(a)
    ensures Borrows(PcOf(s, a.t))
  {
  }

  lemma OthersAdmitNone(c: Config, s: State, a: Action)
    requires Enabled(c, s, a) && MovesTop(a) && !OfBorrower(a)
    ensures !Borrows(PcOf(Step(c, s, a), a.t))
  {
    if a.Release? {
    } else if a.StopReturns? || a.Drain? {
    } else if a.Detach? {
    } else {
      assert a.Recheck? || a.WakeSpuriously?;
    }
  }

  lemma SealedAdmitsNone(c: Config, s: State, a: Action)
    requires Enabled(c, s, a) && !a.Evict? && s.closing && !Borrows(PcOf(s, a.t)) && StackFine(StackOf(s, a.t))
    ensures !Borrows(PcOf(Step(c, s, a), a.t))
  {
    if OfBorrower(a) {
      BorrowersSteps(c, s, a);
    } else if MovesTop(a) {
      OthersAdmitNone(c, s, a);
    } else {
      ScopesAdmitNone(c, s, a);
    }
  }

  lemma BorrowedBefore(c: Config, s: State, a: Action, t: Tid)
    requires s.closing && StacksInv(s) && Enabled(c, s, a) && Borrows(PcOf(Do(c, s, a), t))
    ensures Borrows(PcOf(s, t))
  {
    if a.Evict? || t != a.t {
      OthersKeep(c, s, a, t);
    } else if !Borrows(PcOf(s, t)) {
      FineAt(s, t);
      SealedAdmitsNone(c, s, a);
      DoIs(c, s, a);
    }
  }

  lemma BorrowersWithin(next: State, s: State)
    requires forall t :: Borrows(PcOf(next, t)) ==> Borrows(PcOf(s, t))
    ensures Borrowers(next) <= Borrowers(s)
  {
    forall t | t in Borrowers(next)
      ensures t in Borrowers(s)
    {
      IsBorrower(next, t);
      IsBorrower(s, t);
    }
  }

  /** Once sealed, a lane stays sealed and no thread becomes a borrower. */
  lemma NoCallAfterSeal(c: Config, s: State, a: Action)
    requires Reachable(c, s) && s.closing && Enabled(c, s, a)
    ensures Do(c, s, a).closing && Borrowers(Do(c, s, a)) <= Borrowers(s)
  {
    ReachableLane(c, s);
    SealStays(c, s, a);
    forall t | Borrows(PcOf(Do(c, s, a), t))
      ensures Borrows(PcOf(s, t))
    {
      BorrowedBefore(c, s, a, t);
    }
    BorrowersWithin(Do(c, s, a), s);
  }

  /** Core's lane is destroyed by one step, after native stop returned, while no call is inside. */
  lemma DestroyedOnce(c: Config, s: State, a: Action)
    requires Reachable(c, s) && Enabled(c, s, a) && Do(c, s, a).destroys != s.destroys
    ensures s.destroys == 0 && Do(c, s, a).destroys == 1
    ensures s.stops == 1 && s.closing && Borrowers(s) == {}
  {
    DoIs(c, s, a);
    OnlyDrainDestroys(c, s, a);
    ReachableLane(c, s);
    ThreadAt(s, a.t);
  }

  lemma CloseActs(c: Config, s: State, a: Action)
    requires Enabled(c, s, a) && !a.Evict? && (Closes(PcOf(s, a.t)) || PcOf(s, a.t).Awaiting?)
    ensures a.StopReturns? || a.Drain? || a.Detach? || a.FinishClose? || a.Recheck? || a.WakeSpuriously?
  {
  }

  /** The last step of a close is its own finishing, or finding the lane closed. */
  lemma CloseEnds(c: Config, s: State, a: Action)
    requires Enabled(c, s, a) && !a.Evict? && (Closes(PcOf(s, a.t)) || PcOf(s, a.t).Awaiting?)
    requires !Closes(PcOf(Step(c, s, a), a.t)) && !PcOf(Step(c, s, a), a.t).Awaiting?
    ensures !Step(c, s, a).open
  {
    CloseActs(c, s, a);
    if a.StopReturns? || a.Drain? || a.Detach? {
    } else if a.Recheck? || a.WakeSpuriously? {
    } else {
      assert a.FinishClose?;
    }
  }

  /** A close that was called while the lane was open returns only once the lane is destroyed and its table detached. */
  lemma CloseReturnsClosed(c: Config, s: State, a: Action, t: Tid)
    requires Reachable(c, s) && Enabled(c, s, a)
    requires Closes(PcOf(s, t)) || PcOf(s, t).Awaiting?
    requires !Closes(PcOf(Do(c, s, a), t)) && !PcOf(Do(c, s, a), t).Awaiting?
    ensures var next := Do(c, s, a);
            !next.open && next.stops == next.destroys == 1 && next.table == map[] && next.records == map[]
  {
    if a.Evict? || t != a.t {
      OthersKeep(c, s, a, t);
    }
    DoIs(c, s, a);
    CloseEnds(c, s, a);
    StepReachable(c, s, a);
    ReachableLane(c, Do(c, s, a));
  }

  /** After the table is detached nothing is inside the lane, and every later state is so too. */
  lemma {:induction false} DetachedForGood(c: Config, s: State, run: seq<Action>)
    requires Reachable(c, s) && !s.open && IsRun(c, s, run)
    ensures var last := Final(c, s, run);
            !last.open && last.table == map[] && last.records == map[] && last.destroys == 1 && Borrowers(last) == {}
    decreases |run|
  {
    ReachableLane(c, s);
    if run != [] {
      StepReachable(c, s, run[0]);
      ClosedStays(c, s, run[0]);
      DetachedForGood(c, Do(c, s, run[0]), run[1..]);
    }
  }

  lemma ClosedStays(c: Config, s: State, a: Action)
    requires Enabled(c, s, a) && !s.open
    ensures !Do(c, s, a).open
  {
    DoIs(c, s, a);
    if a.Call? {
    } else if a.CallClose? {
    } else if a.GiveBack? {
    } else if a.Offer? {
    } else if a.CallReturns? || a.ForgetOwner? || a.Detach? {
    } else if a.ControlReturns? || a.Take? {
    } else if a.FinishClose? {
    }
  }

  // ----- Roots

  lemma DiesOnRelease(c: Config, s: State, a: Action, root: Root)
    requires Enabled(c, s, a) && Owned(s, root) && !Owned(Do(c, s, a), root)
    ensures a.Release? && a.root == root && PcOf(Do(c, s, a), a.t).Finalizing?
  {
    var next := Step(c, s, a);
    if Owned(next, root) {
      DoOwns(c, s, a, root);
    }
    DiesAtExit(c, s, a, root);
    assert Dies(s, next);
  }

  /**
   The deinit of a callback root starts only when a call lets go of the root on
   leaving its scope, and no call of that thread is then inside the lane.
   */
  lemma ReleasedOutside(c: Config, s: State, a: Action, root: Root)
    requires Reachable(c, s) && Enabled(c, s, a) && Owned(s, root) && !Owned(Do(c, s, a), root)
    ensures a.Release? && a.root == root && PcOf(Do(c, s, a), a.t).Finalizing?
    ensures forall i :: 0 <= i < |StackOf(Do(c, s, a), a.t)| ==> !Inside(StackOf(Do(c, s, a), a.t)[i].pc)
  {
    DiesOnRelease(c, s, a, root);
    StepReachable(c, s, a);
    CloseNeverWaitsForItself(c, Do(c, s, a), a.t);
  }

  /** Starting a deinit keeps what was kept. */
  lemma DoOwns(c: Config, s: State, a: Action, root: Root)
    requires Enabled(c, s, a) && Owned(Step(c, s, a), root)
    ensures Owned(Do(c, s, a), root)
  {
    var next := Step(c, s, a);
    DoIs(c, s, a);
    if root !in Roots(next.table) && Do(c, s, a) != next {
      var u :| Keeps(StackOf(next, u), root);
      if u == a.t {
        KeepsPush(StackOf(next, u), Frame(Finalizing, {}), root);
      }
      assert Keeps(StackOf(Do(c, s, a), u), root);
    }
  }

  /**
   A close that a root's deinit calls never waits on its own thread: whatever
   the running call does, every call below it holds neither borrow nor condition
   and takes no part in closing.
   */
  lemma CloseNeverWaitsForItself(c: Config, s: State, t: Tid)
    requires Reachable(c, s)
    ensures forall i :: 0 <= i < |StackOf(s, t)| - 1 ==> !Inside(StackOf(s, t)[i].pc)
  {
    ReachableLane(c, s);
    FineAt(s, t);
  }
}
