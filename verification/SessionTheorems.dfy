/** The main results about the retirement protocol, over every run of it. */
module SessionTheorems {
  import opened Wrappers
  import opened NativeCore
  import opened Sessions
  import opened SessionProtocol
  import opened SessionInvariant

  // ----- Retirement happens exactly when, exactly once and in order

  /**
   Whenever the lock is free: the runtime pointer is gone exactly when the
   reader is retired, the runtime stopped and no ask borrowed; the five releases
   of a retirement have happened exactly then, each once.
   */
  lemma RetirementExact(s: State)
    requires Reachable(s)
    ensures !s.ses.runtime <==> s.ses.readerRetired && s.ses.stopped && s.ses.activeAsks == 0
    ensures forall call :: call in RETIREMENT ==> (call in s.log <==> !s.ses.runtime)
    ensures forall i, j :: 0 <= i < j < |s.log| && OneWay(s.log[i]) ==> s.log[i] != s.log[j]
  {
    ReachableInv(s);
    if s.ses.runtime {
      NothingReleased(s);
    } else {
      RetiredLogged(s);
    }
    forall i, j | 0 <= i < j < |s.log| && OneWay(s.log[i])
      ensures s.log[i] != s.log[j]
    {
      ReleasedOnce(ADOPTED, s.log, s.log[i], i, j);
    }
  }

  /** Every native call of every run meets Core's precondition, and none follows the release of what it uses. */
  lemma CallsLegal(s: State, k: nat)
    requires Reachable(s) && k < |s.log|
    ensures Exec(Some(ADOPTED), s.log[..k]).Some? && Allowed(Exec(Some(ADOPTED), s.log[..k]).value, s.log[k])
    ensures s.log[k].StopRuntime? ==> DestroyReader in s.log[..k] && StopRuntime(true) !in s.log[..k]
    ensures s.log[k].UseRuntime? || s.log[k].BeginAsk? ==> forall ok :: StopRuntime(ok) !in s.log[..k]
    ensures s.log[k].DestroyClient? ==>
              forall t :: BeginAsk(Some(t)) in s.log[..k] ==> DestroyAsk(t) in s.log[..k]
    ensures s.log[k].CloseHandles? ==> DestroyClient in s.log[..k]
    ensures s.log[k].DestroyRuntime? ==> CloseHandles in s.log[..k]
    ensures s.log[k].CloseLibrary? ==> DestroyRuntime in s.log[..k]
    ensures s.log[k].SignalRetired? ==> CloseLibrary in s.log[..k]
  {
    ReachableInv(s);
    LegalPrefix(ADOPTED, s.log, k);
    ReleaseOrder(s.log, k);
    forall i | 0 <= i < k && s.log[i].StopRuntime?
      ensures !s.log[k].UseRuntime? && !s.log[k].BeginAsk? && (s.log[i].ok ==> !s.log[k].StopRuntime?)
    {
      StopSeals(ADOPTED, s.log, i, k);
    }
    if s.log[k].DestroyClient? {
      forall t | BeginAsk(Some(t)) in s.log[..k]
        ensures DestroyAsk(t) in s.log[..k]
      {
        var i :| 0 <= i < k && s.log[..k][i] == BeginAsk(Some(t));
        TicketsBeforeClient(ADOPTED, s.log, i, k, t);
      }
    }
  }

  // ----- A successful stop comes before everything it protects

  predicate StopFirst(s: State) {
    && (s.ses.stopped ==> StopRuntime(true) in s.log)
    && forall k :: 0 <= k < |s.log| && s.log[k].DestroyClient? ==> StopRuntime(true) in s.log[..k]
  }

  lemma StopFirstExtends(s: State, next: State, calls: seq<Call>)
    requires StopFirst(s) && next.log == s.log + calls
    requires next.ses.stopped && !s.ses.stopped ==> calls != [] && calls[0] == StopRuntime(true)
    requires forall j :: 0 <= j < |calls| && calls[j].DestroyClient? ==> s.ses.stopped || (j > 0 && calls[0] == StopRuntime(true))
    ensures StopFirst(next)
  {
    forall k | 0 <= k < |next.log| && next.log[k].DestroyClient?
      ensures StopRuntime(true) in next.log[..k]
    {
      if k < |s.log| {
        assert next.log[..k] == s.log[..k];
      } else {
        assert next.log[..k] == s.log + calls[..k - |s.log|];
        if !s.ses.stopped {
          assert calls[..k - |s.log|][0] == StopRuntime(true);
        }
      }
    }
  }

  /** At most one call, and not one that releases the client. */
  predicate Harmless(calls: seq<Call>) {
    |calls| <= 1 && forall call :: call in calls ==> !call.DestroyClient?
  }

  lemma EmitHarmless(s: State, next: State, calls: seq<Call>)
    requires StopFirst(s) && Harmless(calls)
    requires next.ses.stopped == s.ses.stopped && next.log == s.log + calls
    ensures StopFirst(next)
  {
    StopFirstExtends(s, next, calls);
  }

  lemma RunnerHarmless(s: State, a: Action)
    requires StopFirst(s) && Enabled(s, a) && RunnerAction(a) && !a.FinishRunner?
    ensures StopFirst(Do(s, a))
  {
    var next := Do(s, a);
    assert s.log + [] == s.log;
    EmitHarmless(s, next,
                 if a.ReadReturns? then [ReadFrame(a.frame)]
                 else if a.EndIteration? && s.runner.frame then [ReleaseFrame]
                 else if a.RetireReader? then [DestroyReader]
                 else []);
  }

  lemma TicketHarmless(s: State, a: Action)
    requires StopFirst(s) && Enabled(s, a)
    requires a.AskCancellation? || a.TakeTicket? || a.AwaitReturns? || a.Conclude? || a.DestroyTicket?
    ensures StopFirst(Do(s, a))
  {
    var next := Do(s, a);
    assert s.log + [] == s.log;
    EmitHarmless(s, next,
                 if a.TakeTicket? then [if s.tickets[a.t].cancelled then CancelAsk(a.t) else StartAwait(a.t)]
                 else if a.AwaitReturns? then [EndAwait(a.t)]
                 else if a.Conclude? then CancelCalls(a.t, next.tickets[a.t].phase.outcome)
                 else if a.DestroyTicket? then [DestroyAsk(a.t)]
                 else []);
  }

  lemma SessionHarmless(s: State, a: Action)
    requires StopFirst(s) && Enabled(s, a) && (a.ReleaseHost? || a.UseOpen? || a.TryBegin?)
    ensures StopFirst(Do(s, a))
  {
    var next := Do(s, a);
    assert s.log + [] == s.log;
    EmitHarmless(s, next,
                 if a.UseOpen? && IsOpen(s.ses) then [UseRuntime]
                 else if a.TryBegin? then Begin(s.ses, a.answer).0.calls
                 else []);
  }

  lemma CloserHarmless(s: State, a: Action)
    requires StopFirst(s) && Enabled(s, a)
    requires a.CallClose? || a.EnterClose? || a.SealAdmission? || a.JoinReader? || a.JoinAsks?
    ensures StopFirst(Do(s, a))
  {
  }

  lemma StopFirstStep(s: State, a: Action)
    requires StopFirst(s) && Enabled(s, a)
    ensures StopFirst(Do(s, a))
  {
    var next := Do(s, a);
    if a.FinishRunner? {
      StopFirstExtends(s, next, RetireRunner(s.ses, a.stopStatus).calls);
    } else if a.StopRuntimeLocked? {
      StopFirstExtends(s, next, CloseSection(s.ses, a.stopStatus).calls);
    } else if a.GiveBack? {
      StopFirstExtends(s, next, EndBorrow(s.ses).calls);
    } else if RunnerAction(a) {
      RunnerHarmless(s, a);
    } else if a.ReleaseHost? || a.UseOpen? || a.TryBegin? {
      SessionHarmless(s, a);
    } else if a.AskCancellation? || a.TakeTicket? || a.AwaitReturns? || a.Conclude? || a.DestroyTicket? {
      TicketHarmless(s, a);
    } else {
      CloserHarmless(s, a);
    }
  }

  lemma {:induction false} StopFirstRun(s: State, run: seq<Action>)
    requires StopFirst(s) && IsRun(s, run)
    ensures StopFirst(Final(s, run))
    decreases |run|
  {
    if run != [] {
      StopFirstStep(s, run[0]);
      StopFirstRun(Do(s, run[0]), run[1..]);
    }
  }

  /** In every run the client, and with it everything else, outlives a successful stop. */
  lemma StopBeforeRelease(s: State, k: nat)
    requires Reachable(s) && k < |s.log| && s.log[k].DestroyClient?
    ensures StopRuntime(true) in s.log[..k]
  {
    var run :| IsRun(START, run) && Final(START, run) == s;
    StopFirstRun(START, run);
  }

  // ----- The measure of retirement

  function RunnerRank(r: Runner): nat {
    match r
    case Reading => 8
    case Handling(_, Deliver) => 7
    case Handling(_, Fail) => 7
    case Handling(_, _) => 6
    case Checking => 5
    case Unwinding => 3
    case Locking => 2
    case Leaving => 1
    case Finished => 0
  }

  /** What a closing session still waits for. */
  function Rank(s: State): int {
    RunnerRank(s.runner) + (if s.ses.stopped then 0 else 1) + s.ses.activeAsks
  }

  predicate RunnerAction(a: Action) {
    || a.TestClosing? || a.ReadReturns? || a.RecordFailure? || a.HandlerReturns? || a.EndIteration?
    || a.RetireReader? || a.FinishRunner? || a.SignalReader?
  }

  /**
   Once closing, a session stays closing and waits for no more than before;
   runner progress, a successful stop and each returned borrow bring it closer.
   */
  lemma RankFalls(s: State, a: Action)
    requires Enabled(s, a) && s.ses.closing
    ensures Do(s, a).ses.closing && Rank(Do(s, a)) <= Rank(s)
    ensures RunnerAction(a) || a.GiveBack? || (Do(s, a).ses.stopped && !s.ses.stopped) ==> Rank(Do(s, a)) < Rank(s)
  {
    if a.FinishRunner? || a.StopRuntimeLocked? || a.GiveBack? {
    } else if RunnerAction(a) {
      RunnerProgress(s, a);
    } else {
      NothingToWaitFor(s, a);
    }
  }

  lemma RunnerProgress(s: State, a: Action)
    requires Enabled(s, a) && s.ses.closing && RunnerAction(a) && !a.FinishRunner?
    ensures Do(s, a).ses == s.ses.(readFailed := Do(s, a).ses.readFailed)
    ensures RunnerRank(Do(s, a).runner) < RunnerRank(s.runner)
  {
    if a.ReadReturns? {
    } else if a.EndIteration? {
    } else if a.TestClosing? {
    } else if a.RetireReader? {
    } else if a.RecordFailure? {
    } else if a.HandlerReturns? {
    }
  }

  lemma NothingToWaitFor(s: State, a: Action)
    requires Enabled(s, a) && s.ses.closing && !RunnerAction(a) && !a.StopRuntimeLocked? && !a.GiveBack?
    ensures Do(s, a).ses == s.ses && Do(s, a).runner == s.runner
  {
  }

  lemma RankBounded(s: State)
    requires Inv(s)
    ensures Rank(s) >= 0
  {
  }

  lemma RankZero(s: State)
    requires Inv(s) && Rank(s) == 0
    ensures !s.ses.runtime && s.readerLeft
  {
  }

  /** A refused stop releases nothing and leaves every owner where a close can try again. */
  lemma FailedStopRetryable(s: State, a: Action)
    requires Inv(s) && Enabled(s, a)
    requires a.FinishRunner? || (a.StopRuntimeLocked? && !s.ses.stopped)
    requires a.stopStatus != STATUS_OK
    ensures var next := Do(s, a);
            && next.ses.runtime && !next.ses.stopped && next.ses.closing && next.ses.failedStopOwner
            && next.log == s.log + [StopRuntime(false)]
            && next.core.Some? && next.core.value.client == next.core.value.handles == next.core.value.library == Live
            && (a.StopRuntimeLocked? ==> next.closers[a.c] == Done(StopFailed(a.stopStatus)))
  {
    InvKept(s, a);
  }

  // ----- How a close ends

  predicate CloserAction(a: Action, c: nat) {
    match a
    case EnterClose(d) => d == c
    case SealAdmission(d) => d == c
    case JoinReader(d) => d == c
    case StopRuntimeLocked(d, _) => d == c
    case JoinAsks(d) => d == c
    case _ => false
  }

  /** Nothing of the session was released. */
  predicate OwnersKept(s: State) {
    && s.ses.runtime
    && s.core.Some? && s.core.value.client == s.core.value.handles == s.core.value.library == Live
    && s.core.value.lifecycle != Destroyed
    && forall call :: call in RETIREMENT ==> call !in s.log
  }

  lemma OwnersKeptWhileNeeded(s: State)
    requires Inv(s) && (s.ses.activeAsks > 0 || !s.ses.stopped)
    ensures OwnersKept(s)
  {
    NothingReleased(s);
  }

  lemma NothingReleased(s: State)
    requires Inv(s) && s.ses.runtime
    ensures forall call :: call in RETIREMENT ==> call !in s.log
  {
    forall call | call in RETIREMENT
      ensures call !in s.log
    {
      ReleasedIffLogged(ADOPTED, s.log, call);
    }
  }

  lemma RefusedOnEntry(s: State, a: Action, c: nat)
    requires Enabled(s, a) && CloserAction(a, c) && Do(s, a).closers[c] == Done(Refused)
    ensures Do(s, a) == SetCloser(s, c, Done(Refused))
  {
  }

  /**
   A close that returns found everything retired; a refused one changed nothing
   but its own progress; any other leaves admission sealed and, while a ticket is
   borrowed or the stop has not succeeded, every owner in place.
   */
  lemma CloseOutcomes(s: State, a: Action, c: nat)
    requires Reachable(s) && Enabled(s, a) && CloserAction(a, c)
    requires c in Do(s, a).closers && Do(s, a).closers[c].Done?
    ensures var next, o := Do(s, a), Do(s, a).closers[c].outcome;
            && (o == Returned ==> !next.ses.runtime && next.ses.closing && forall call :: call in RETIREMENT ==> call in next.log)
            && (o == Refused ==> next == SetCloser(s, c, Done(Refused)))
            && (o != Refused ==> next.ses.closing)
            && (o != Refused && (next.ses.activeAsks > 0 || !next.ses.stopped) ==> OwnersKept(next))
  {
    ReachableInv(s);
    InvKept(s, a);
    var next := Do(s, a);
    assert CloserInv(next, next.closers[c]);
    if next.closers[c].outcome == Refused {
      RefusedOnEntry(s, a, c);
    }
    if next.ses.activeAsks > 0 || !next.ses.stopped {
      OwnersKeptWhileNeeded(next);
    }
    if !next.ses.runtime {
      RetiredLogged(next);
    }
  }

  lemma RetiredLogged(s: State)
    requires Inv(s) && !s.ses.runtime
    ensures forall call :: call in RETIREMENT ==> call in s.log
  {
    forall call | call in RETIREMENT
      ensures call in s.log
    {
      ReleasedIffLogged(ADOPTED, s.log, call);
    }
  }

  /** After retirement a close calls nothing, fails at nothing and returns, whatever a stop would answer. */
  lemma CloseAgain(s: State, a: Action, c: nat)
    requires Inv(s) && !s.ses.runtime && s.readerLeft
    requires Enabled(s, a) && CloserAction(a, c)
    ensures var next := Do(s, a);
            && next == s.(closers := s.closers[c := next.closers[c]], closeLock := next.closeLock)
            && (next.closers[c].Done? ==> next.closers[c].outcome in {Returned, Refused})
            && (next.closers[c] == Done(Refused) ==> a.EnterClose?)
  {
    ReleasedIffLogged(ADOPTED, s.log, SignalRetired);
    EmitNothing(s);
  }

  // ----- Tickets

  /**
   The borrow count is the number of begun tickets whose borrow has not ended,
   at most 64; an ended ticket was destroyed; and its outcome ranks Core's own
   failure over a cancellation its owner saw, and that over the timeout.
   */
  lemma TicketConservation(s: State)
    requires Reachable(s)
    ensures 0 <= s.ses.activeAsks == |Borrowed(s.tickets)| <= 64
    ensures forall t :: t in s.tickets && s.tickets[t].phase.Ended? ==> DestroyAsk(t) in s.log
    ensures forall t :: t in s.tickets && Outcomes(s.tickets[t].phase).Some? ==>
                          && Ranked(s.tickets[t], Outcomes(s.tickets[t].phase).value)
                          && (Outcomes(s.tickets[t].phase).value == TimedOut ==> !s.tickets[t].seen)
  {
    ReachableInv(s);
    forall t | t in s.tickets && s.tickets[t].phase.Ended?
      ensures DestroyAsk(t) in s.log
    {
      TicketsLogged(ADOPTED, s.log, t);
    }
  }
}
