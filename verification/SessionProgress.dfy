/**
 When retirement can still happen: after failed stops, timed-out closes and
 cancelled tickets some continuation retires the session, as long as the host is
 referenced or no stop is on record as refused. The continuation is built by the
 lemmas below. A host that is dropped before a refused stop is repeated has
 nobody left to repeat it.
 */
module SessionProgress {
  import opened Wrappers
  import opened NativeCore
  import opened Sessions
  import opened SessionProtocol
  import opened SessionInvariant
  import opened SessionTheorems

  lemma {:induction false} RunConcat(s: State, a: seq<Action>, b: seq<Action>)
    requires IsRun(s, a) && IsRun(Final(s, a), b)
    ensures IsRun(s, a + b) && Final(s, a + b) == Final(Final(s, a), b)
    decreases |a|
  {
    if a == [] {
      assert a + b == b;
    } else {
      assert (a + b)[1..] == a[1..] + b;
      RunConcat(Do(s, a[0]), a[1..], b);
    }
  }

  lemma RunCons(s: State, a: Action, rest: seq<Action>)
    requires Enabled(s, a) && IsRun(Do(s, a), rest)
    ensures IsRun(s, [a] + rest) && Final(s, [a] + rest) == Final(Do(s, a), rest)
  {
    assert ([a] + rest)[1..] == rest;
  }

  lemma RunOne(s: State, a: Action)
    requires Enabled(s, a)
    ensures IsRun(s, [a]) && Final(s, [a]) == Do(s, a)
  {
    RunCons(s, a, []);
    assert [a] + [] == [a];
  }

  /** What the runner does next when the loop is to end. */
  function NextRunnerAction(r: Runner): Action
    requires r != Finished
  {
    match r
    case Checking => TestClosing
    case Reading => ReadReturns(STATUS_WOULD_BLOCK, false, false, 0)
    case Handling(_, next) =>
      if next == Fail then RecordFailure else if next == Deliver then HandlerReturns else EndIteration
    case Unwinding => RetireReader
    case Locking => FinishRunner(STATUS_OK)
    case Leaving => SignalReader
  }

  lemma {:induction false} FinishTheRunner(s: State) returns (run: seq<Action>)
    requires Inv(s) && s.ses.closing
    ensures IsRun(s, run) && Inv(Final(s, run)) && Final(s, run).runner == Finished
    ensures Final(s, run).host == s.host && Final(s, run).ses.closing
    ensures s.ses.stopFailure.None? ==> Final(s, run).ses.stopped
    decreases RunnerRank(s.runner)
  {
    if s.runner == Finished {
      run := [];
    } else {
      var a := NextRunnerAction(s.runner);
      InvKept(s, a);
      RunnerMoves(s);
      RunnerRefusesNothing(s);
      var rest := FinishTheRunner(Do(s, a));
      RunCons(s, a, rest);
      run := [a] + rest;
    }
  }

  lemma RunnerMoves(s: State)
    requires s.ses.closing && s.runner != Finished
    ensures var a := NextRunnerAction(s.runner);
            Enabled(s, a) && Do(s, a).ses.closing && RunnerRank(Do(s, a).runner) < RunnerRank(s.runner)
  {
    var a := NextRunnerAction(s.runner);
    if !a.FinishRunner? {
      RunnerProgress(s, a);
    }
  }

  lemma RunnerRefusesNothing(s: State)
    requires s.runner != Finished
    ensures var a := NextRunnerAction(s.runner);
            Do(s, a).host == s.host && (s.ses.stopFailure.None? ==> Do(s, a).ses.stopFailure.None?)
  {
    if s.runner == Locking {
      assert RetireRunner(s.ses, STATUS_OK).ses.stopFailure in {None, s.ses.stopFailure};
    }
  }

  // ----- Outstanding tickets

  function PhaseRank(p: Phase): nat {
    match p
    case Begun => 5
    case Awaiting => 4
    case Answered(_) => 3
    case Ending(_) => 2
    case Returning(_) => 1
    case Ended(_) => 0
  }

  function NextTicketAction(t: nat, p: Phase): Action
    requires !p.Ended?
  {
    match p
    case Begun => TakeTicket(t)
    case Awaiting => AwaitReturns(t, STATUS_CLOSED)
    case Answered(_) => Conclude(t, false)
    case Ending(_) => DestroyTicket(t)
    case Returning(_) => GiveBack(t)
  }

  lemma TicketStep(s: State, t: nat)
    requires t in s.tickets && !s.tickets[t].phase.Ended?
    ensures var a := NextTicketAction(t, s.tickets[t].phase);
            && Enabled(s, a)
            && var next := Do(s, a);
               && t in next.tickets && PhaseRank(next.tickets[t].phase) < PhaseRank(s.tickets[t].phase)
               && (next.tickets[t].phase.Ended? <==> a.GiveBack?)
  {
  }

  lemma TicketsStopNothing(s: State, t: nat)
    requires t in s.tickets && !s.tickets[t].phase.Ended?
    ensures var a := NextTicketAction(t, s.tickets[t].phase);
            var next := Do(s, a);
            && next.host == s.host && next.ses.stopped == s.ses.stopped && next.runner == s.runner
            && next.ses.activeAsks == s.ses.activeAsks - (if a.GiveBack? then 1 else 0)
  {
  }

  /** The owner of a borrowed ticket can always bring it to its end. */
  lemma {:induction false} FinishTicket(s: State, t: nat) returns (run: seq<Action>)
    requires Inv(s) && t in s.tickets && !s.tickets[t].phase.Ended?
    ensures IsRun(s, run) && Inv(Final(s, run))
    ensures Final(s, run).runner == s.runner && Final(s, run).ses.activeAsks == s.ses.activeAsks - 1
    ensures Final(s, run).host == s.host && Final(s, run).ses.stopped == s.ses.stopped
    decreases PhaseRank(s.tickets[t].phase)
  {
    var a := NextTicketAction(t, s.tickets[t].phase);
    TicketStep(s, t);
    TicketsStopNothing(s, t);
    InvKept(s, a);
    if a.GiveBack? {
      RunOne(s, a);
      run := [a];
    } else {
      var rest := FinishTicket(Do(s, a), t);
      RunCons(s, a, rest);
      run := [a] + rest;
    }
  }

  lemma {:induction false} FinishTickets(s: State) returns (run: seq<Action>)
    requires Inv(s)
    ensures IsRun(s, run) && Inv(Final(s, run))
    ensures Final(s, run).runner == s.runner && Final(s, run).ses.activeAsks == 0
    ensures Final(s, run).host == s.host && Final(s, run).ses.stopped == s.ses.stopped
    decreases s.ses.activeAsks
  {
    if s.ses.activeAsks == 0 {
      run := [];
    } else {
      assert Borrowed(s.tickets) != {};
      var t :| t in Borrowed(s.tickets);
      var first := FinishTicket(s, t);
      var rest := FinishTickets(Final(s, first));
      RunConcat(s, first, rest);
      run := first + rest;
    }
  }

  // ----- The close in progress, and a new one

  function CloserRank(pc: Closer): nat {
    match pc
    case Entering(_) => 5
    case Sealing => 4
    case JoiningReader => 3
    case Stopping => 2
    case JoiningAsks => 1
    case Done(_) => 0
  }

  function NextCloserAction(c: nat, pc: Closer): Action
    requires HoldsCloseLock(pc)
  {
    match pc
    case Sealing => SealAdmission(c)
    case JoiningReader => JoinReader(c)
    case Stopping => StopRuntimeLocked(c, STATUS_OK)
    case JoiningAsks => JoinAsks(c)
  }

  lemma CloserStep(s: State, c: nat)
    requires c in s.closers && HoldsCloseLock(s.closers[c]) && s.runner == Finished && s.readerLeft
    requires s.ses.readerRetired && (if s.ses.stopped then s.ses.stopFailure.None? else s.ses.runtime)
    ensures var a := NextCloserAction(c, s.closers[c]);
            && Enabled(s, a)
            && var next := Do(s, a);
               && c in next.closers && CloserRank(next.closers[c]) < CloserRank(s.closers[c])
               && (next.closers[c].Done? || HoldsCloseLock(next.closers[c]))
               && next.runner == Finished && next.readerLeft
               && next.ses.activeAsks == s.ses.activeAsks
               && (s.ses.stopped ==> next.ses.stopped)
               && (next.closers[c].Done? ==> s.closers[c].JoiningAsks?)
  {
  }

  /** A close that has begun ends; if it had still to stop the runtime, an accepted stop is the end of it. */
  lemma {:induction false} FinishClose(s: State, c: nat) returns (run: seq<Action>)
    requires Inv(s) && c in s.closers && HoldsCloseLock(s.closers[c]) && s.runner == Finished
    ensures IsRun(s, run) && Inv(Final(s, run))
    ensures Final(s, run).ses.activeAsks == s.ses.activeAsks && Final(s, run).ses.stopped
    decreases CloserRank(s.closers[c])
  {
    var a := NextCloserAction(c, s.closers[c]);
    assert CloserInv(s, s.closers[c]);
    CloserStep(s, c);
    InvKept(s, a);
    var next := Do(s, a);
    if next.closers[c].Done? {
      RunOne(s, a);
      run := [a];
    } else {
      var rest := FinishClose(next, c);
      RunCons(s, a, rest);
      run := [a] + rest;
    }
  }

  lemma {:induction false} Fresh(used: set<nat>) returns (n: nat)
    ensures forall m :: m in used ==> m < n
    decreases |used|
  {
    if used == {} {
      n := 0;
    } else {
      var m :| m in used;
      var rest := Fresh(used - {m});
      n := if m < rest then rest else m + 1;
      forall k | k in used
        ensures k < n
      {
        assert k == m || k in used - {m};
      }
    }
  }

  /** Somebody who still has the host calls close and finds no other close running. */
  lemma NewClose(s: State) returns (c: nat, run: seq<Action>)
    requires Inv(s) && s.host && s.closeLock.None?
    ensures IsRun(s, run) && Inv(Final(s, run))
    ensures var next := Final(s, run);
            && c in next.closers && next.closers[c] == Sealing
            && next.runner == s.runner && next.host && next.ses == s.ses && next.readerLeft == s.readerLeft
  {
    c := Fresh(s.closers.Keys);
    assert c !in s.closers;
    var call, enter := CallClose(c, false), EnterClose(c);
    InvKept(s, call);
    var called := Do(s, call);
    InvKept(called, enter);
    RunOne(called, enter);
    RunCons(s, call, [enter]);
    run := [call] + [enter];
  }

  /** A close, the one that is running or a new one, seals admission. */
  lemma SealIt(s: State) returns (run: seq<Action>)
    requires Inv(s) && s.host
    ensures IsRun(s, run) && Inv(Final(s, run))
    ensures Final(s, run).host && Final(s, run).ses.closing
  {
    if s.ses.closing {
      run := [];
    } else if s.closeLock.None? {
      var c, enter := NewClose(s);
      var entered := Final(s, enter);
      InvKept(entered, SealAdmission(c));
      RunOne(entered, SealAdmission(c));
      RunConcat(s, enter, [SealAdmission(c)]);
      run := enter + [SealAdmission(c)];
    } else {
      var c := s.closeLock.value;
      assert CloserInv(s, s.closers[c]);
      InvKept(s, SealAdmission(c));
      RunOne(s, SealAdmission(c));
      run := [SealAdmission(c)];
    }
  }

  /** A close, the one that is running or a new one, stops the runtime. */
  lemma StopIt(s: State) returns (run: seq<Action>)
    requires Inv(s) && s.host && s.runner == Finished
    ensures IsRun(s, run) && Inv(Final(s, run))
    ensures Final(s, run).ses.stopped && Final(s, run).ses.activeAsks == s.ses.activeAsks
  {
    if s.closeLock.None? {
      var c, enter := NewClose(s);
      var close := FinishClose(Final(s, enter), c);
      RunConcat(s, enter, close);
      run := enter + close;
    } else {
      run := FinishClose(s, s.closeLock.value);
    }
  }

  // ----- When a session can still be retired

  /** Whoever drops the last reference to a host can see this beforehand: some close must have succeeded, or none is owed. */
  predicate Retirable(s: State) {
    s.host || s.ses.stopFailure.None?
  }

  /** While somebody has the host: seal, let the runner and the asks finish, and stop. */
  lemma RetireByClose(s: State) returns (run: seq<Action>)
    requires Inv(s) && s.host
    ensures IsRun(s, run) && Inv(Final(s, run)) && !Final(s, run).ses.runtime
  {
    var seal := SealIt(s);
    var sealed := Final(s, seal);
    var runner := FinishTheRunner(sealed);
    RunConcat(s, seal, runner);
    var joined := Final(sealed, runner);
    var tickets := FinishTicketsOf(joined);
    RunConcat(s, seal + runner, tickets);
    var idle := Final(joined, tickets);
    var stop := StopIt(idle);
    RunConcat(s, seal + runner + tickets, stop);
    run := seal + runner + tickets + stop;
  }

  /** Without a host and without a refused stop, the runner and the asks are enough. */
  lemma RetireByItself(s: State) returns (run: seq<Action>)
    requires Inv(s) && !s.host && s.ses.stopFailure.None?
    ensures IsRun(s, run) && Inv(Final(s, run)) && !Final(s, run).ses.runtime
  {
    var runner := FinishTheRunner(s);
    var joined := Final(s, runner);
    var tickets := FinishTicketsOf(joined);
    RunConcat(s, runner, tickets);
    run := runner + tickets;
  }

  lemma FinishTicketsOf(s: State) returns (run: seq<Action>)
    requires Inv(s) && s.runner == Finished
    ensures IsRun(s, run) && Inv(Final(s, run))
    ensures var next := Final(s, run);
            next.runner == Finished && next.ses.activeAsks == 0 && next.host == s.host && next.ses.stopped == s.ses.stopped
  {
    run := FinishTickets(s);
  }

  /** Nobody has the host, and the stop that was tried was refused. */
  predicate Stranded(s: State) {
    !s.host && s.ses.stopFailure.Some?
  }

  lemma StrandedStep(s: State, a: Action)
    requires Inv(s) && Stranded(s) && Enabled(s, a)
    ensures Stranded(Do(s, a))
  {
    assert s.runner == Leaving || s.runner == Finished;
  }

  lemma {:induction false} StrandedForGood(s: State, run: seq<Action>)
    requires Inv(s) && Stranded(s) && IsRun(s, run)
    ensures Stranded(Final(s, run)) && Final(s, run).ses.runtime
    decreases |run|
  {
    if run != [] {
      InvKept(s, run[0]);
      StrandedStep(s, run[0]);
      StrandedForGood(Do(s, run[0]), run[1..]);
    }
  }

  ghost predicate CanRetire(s: State) {
    exists run :: IsRun(s, run) && !Final(s, run).ses.runtime
  }

  /**
   A session can still be retired exactly while its host is referenced or no stop
   is on record as refused: the runner tries the stop once, ended asks never do,
   and only the host can call close.
   */
  lemma RetirementNeverLost(s: State)
    requires Reachable(s)
    ensures CanRetire(s) <==> Retirable(s)
  {
    ReachableInv(s);
    if s.host {
      var run := RetireByClose(s);
    } else if s.ses.stopFailure.None? {
      var run := RetireByItself(s);
    } else {
      forall run | IsRun(s, run)
        ensures Final(s, run).ses.runtime
      {
        StrandedForGood(s, run);
      }
    }
  }

  /** The last reference goes without a close, and Core refuses the one stop that the runner tries. */
  const DROPPED: seq<Action> := [ReleaseHost, TestClosing, RetireReader, FinishRunner(-3), SignalReader]

  lemma DroppedRun()
    ensures IsRun(START, DROPPED)
    ensures Stranded(Final(START, DROPPED)) && Final(START, DROPPED).ses.failedStopOwner
  {
    var gone := Do(Do(START, ReleaseHost), TestClosing);
    var last := [FinishRunner(-3), SignalReader];
    RefusedAtExit(Do(gone, RetireReader));
    RunCons(gone, RetireReader, last);
    RunCons(Do(START, ReleaseHost), TestClosing, [RetireReader] + last);
    RunCons(START, ReleaseHost, [TestClosing] + ([RetireReader] + last));
    assert DROPPED == [ReleaseHost] + ([TestClosing] + ([RetireReader] + last));
  }

  lemma RefusedAtExit(s: State)
    requires s.runner == Locking && !s.host && s.ses.runtime && !s.ses.stopped
    ensures var last := [FinishRunner(-3), SignalReader];
            IsRun(s, last) && Stranded(Final(s, last)) && Final(s, last).ses.failedStopOwner
  {
    var refused := Do(s, FinishRunner(-3));
    RunOne(refused, SignalReader);
    RunCons(s, FinishRunner(-3), [SignalReader]);
    assert [FinishRunner(-3)] + [SignalReader] == [FinishRunner(-3), SignalReader];
  }

  /** A run after which the session keeps itself and every native owner alive for good. */
  lemma DroppedHostLeaks()
    ensures IsRun(START, DROPPED) && !CanRetire(Final(START, DROPPED))
  {
    DroppedRun();
    assert Reachable(Final(START, DROPPED));
    RetirementNeverLost(Final(START, DROPPED));
  }

  /** A refused stop can be repeated by whoever still has the host, and an accepted one then counts. */
  lemma FailedStopRetried(s: State, a: Action) returns (run: seq<Action>)
    requires Inv(s) && Enabled(s, a) && s.host
    requires a.FinishRunner? || (a.StopRuntimeLocked? && !s.ses.stopped)
    requires a.stopStatus != STATUS_OK
    ensures IsRun(Do(s, a), run) && Final(Do(s, a), run).ses.stopped
  {
    FailedStopRetryable(s, a);
    InvKept(s, a);
    var failed := Do(s, a);
    var runner := FinishTheRunner(failed);
    var stop := StopIt(Final(failed, runner));
    RunConcat(failed, runner, stop);
    run := runner + stop;
  }

  // ----- When nothing is left to do

  /** A step of the runner, of a ticket's owner or of a running close. */
  predicate Advances(a: Action) {
    || RunnerAction(a)
    || a.TakeTicket? || a.AwaitReturns? || a.Conclude? || a.DestroyTicket? || a.GiveBack?
    || a.EnterClose? || a.SealAdmission? || a.JoinReader? || a.StopRuntimeLocked? || a.JoinAsks?
  }

  ghost predicate CanAdvance(s: State) {
    exists a :: Enabled(s, a) && Advances(a)
  }

  lemma RunnerAdvances(s: State)
    requires s.ses.closing && s.runner != Finished
    ensures CanAdvance(s)
  {
    RunnerMoves(s);
    assert Advances(NextRunnerAction(s.runner));
  }

  lemma TicketAdvances(s: State, t: nat)
    requires t in s.tickets && !s.tickets[t].phase.Ended?
    ensures CanAdvance(s)
  {
    TicketStep(s, t);
    assert Advances(NextTicketAction(t, s.tickets[t].phase));
  }

  lemma CloserAdvances(s: State, c: nat)
    requires c in s.closers && !s.closers[c].Done?
    ensures CanAdvance(s)
  {
    var a := if s.closers[c].Entering? then EnterClose(c) else NextCloserAction(c, s.closers[c]);
    assert Enabled(s, a) && Advances(a);
  }

  /** A closing session in which nobody can go on is retired, unless its stop was refused. */
  lemma StuckMeansRetired(s: State)
    requires Reachable(s) && s.ses.closing && !CanAdvance(s)
    ensures s.readerLeft && s.ses.activeAsks == 0 && NoCloseRunning(s)
    ensures !s.ses.runtime <==> s.ses.stopFailure.None?
  {
    ReachableInv(s);
    if s.runner != Finished {
      RunnerAdvances(s);
    }
    forall t | t in s.tickets
      ensures s.tickets[t].phase.Ended?
    {
      if !s.tickets[t].phase.Ended? {
        TicketAdvances(s, t);
      }
    }
    assert Borrowed(s.tickets) == {};
    forall c | c in s.closers
      ensures s.closers[c].Done?
    {
      if !s.closers[c].Done? {
        CloserAdvances(s, c);
      }
    }
  }
}
