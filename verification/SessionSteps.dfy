/**
 What each step of the retirement protocol decides, told by what the step is
 given and not by how the protocol computes it: when the runner leaves its loop,
 when a call is let in, how a ticket ends and how a close does.
 */
module SessionSteps {
  import opened Wrappers
  import opened NativeCore
  import opened Sessions
  import opened SessionProtocol
  import opened SessionInvariant
  import opened SessionTheorems

  // ----- The runner

  /** The runner's loop ends exactly when it finds the session closing. */
  lemma LoopTest(s: State)
    requires Enabled(s, TestClosing)
    ensures Do(s, TestClosing) == s.(runner := if s.ses.closing then Unwinding else Reading)
  {
  }

  /**
   One read: nothing yet goes round again, a closed reader leaves, a readable
   frame of some size is delivered and anything else is a failure.
   */
  lemma RunnerDecides(s: State, status: int, frame: bool, readable: bool, size: int)
    requires Enabled(s, ReadReturns(status, frame, readable, size))
    ensures var r := Do(s, ReadReturns(status, frame, readable, size)).runner;
            && r.Handling? && r.frame == frame
            && (r.next == Again <==> status == -6)
            && (r.next == Leave <==> status == -7)
            && (r.next == Deliver <==> status == 0 && frame && readable && size > 0)
            && (r.next == Fail <==> status !in {0, -6, -7} || (status == 0 && !(frame && readable && size > 0)))
  {
  }

  /** A failure is recorded and leaves the loop, a delivered frame goes round again, and every frame is released. */
  lemma IterationEnds(s: State, a: Action)
    requires Enabled(s, a) && (a.RecordFailure? || a.HandlerReturns? || a.EndIteration?)
    ensures var next := Do(s, a);
            && (a.RecordFailure? ==> next.ses.readFailed && next.runner == Handling(s.runner.frame, Leave))
            && (a.HandlerReturns? ==> next.ses == s.ses && next.runner == Handling(s.runner.frame, Again))
            && (a.EndIteration? ==>
                  && next.runner == (if s.runner.next == Leave then Unwinding else Checking)
                  && next.log == s.log + if s.runner.frame then [ReleaseFrame] else [])
  {
    assert s.log + [] == s.log;
  }

  // ----- Calls on the session

  /** An operation reaches the runtime exactly while the session is open. */
  lemma UseDecides(s: State)
    requires Enabled(s, UseOpen)
    ensures Do(s, UseOpen).log == s.log + (if !s.ses.closing && s.ses.runtime then [UseRuntime] else [])
    ensures Do(s, UseOpen).ses == s.ses
  {
    assert s.log + [] == s.log;
  }

  /**
   A begin asks Core exactly while the session is open with fewer than 64 asks
   borrowed, and starts a ticket exactly if Core then hands one out.
   */
  lemma BeginDecides(s: State, answer: BeginAnswer)
    requires Enabled(s, TryBegin(answer))
    ensures var next := Do(s, TryBegin(answer));
            var asks := !s.ses.closing && s.ses.runtime && s.ses.activeAsks < 64;
            var begins := asks && answer.status == 0 && answer.ticket.Some?;
            && next.log == s.log + (if !asks then [] else [BeginAsk(if begins then answer.ticket else None)])
            && next.tickets == (if begins then s.tickets[answer.ticket.value := FRESH_TICKET] else s.tickets)
            && next.ses.activeAsks == s.ses.activeAsks + if begins then 1 else 0
  {
    assert s.log + [] == s.log;
  }

  // ----- Tickets

  /** Whether a task asked for cancellation before its ticket was awaited decides whether it is awaited at all. */
  lemma TakeDecides(s: State, t: nat)
    requires Enabled(s, TakeTicket(t))
    ensures var next, cancelled := Do(s, TakeTicket(t)), s.tickets[t].cancelled;
            && (next.tickets[t].phase == Ending(Cancelled) <==> cancelled)
            && (next.tickets[t].phase == Awaiting <==> !cancelled)
            && next.tickets[t].seen == (cancelled || s.tickets[t].seen)
            && next.log == s.log + [if cancelled then CancelAsk(t) else StartAwait(t)]
  {
  }

  /** How an answered ticket ends, by Core's answer, the cancellation flag at that time and the copy. */
  lemma ConcludeDecides(s: State, t: nat, copyFailed: bool)
    requires Reachable(s) && Enabled(s, Conclude(t, copyFailed))
    ensures var next, status := Do(s, Conclude(t, copyFailed)), s.tickets[t].answer;
            var seen := s.tickets[t].cancelled && status in {Some(0), Some(-6)};
            && status.Some? && next.tickets[t].phase.Ending?
            && var o := next.tickets[t].phase.outcome;
               && (o == Cancelled <==> seen)
               && (forall e :: o == CoreFailed(e) <==> status == Some(e) && e !in {0, -6})
               && (o == TimedOut <==> status == Some(-6) && !seen)
               && (o == CopyFailed <==> status == Some(0) && !seen && copyFailed)
               && (o == Delivered <==> status == Some(0) && !seen && !copyFailed)
               && next.log == s.log + if seen then [CancelAsk(t)] else []
  {
    ReachableInv(s);
    assert Justified(s.tickets[t]);
    assert s.log + [] == s.log;
  }

  // ----- Close

  /** A closer called on the request queue is refused or about to be, and no other is on that queue. */
  predicate QueueKept(s: State, c: nat) {
    && (c in s.fromQueue ==> c in s.closers && s.closers[c] in {Entering(true), Done(Refused)})
    && (c in s.closers && s.closers[c] == Entering(true) ==> c in s.fromQueue)
  }

  lemma QueueStep(s: State, a: Action, c: nat)
    requires QueueKept(s, c) && Enabled(s, a)
    ensures QueueKept(Do(s, a), c)
  {
    if a.EnterClose? || a.CallClose? {
    } else if a.SealAdmission? || a.JoinReader? || a.StopRuntimeLocked? || a.JoinAsks? {
      CloserStepsOn(s, a, c);
    } else {
      ClosersUntouched(s, a);
    }
  }

  lemma CloserStepsOn(s: State, a: Action, c: nat)
    requires Enabled(s, a) && (a.SealAdmission? || a.JoinReader? || a.StopRuntimeLocked? || a.JoinAsks?)
    ensures var next := Do(s, a);
            && next.fromQueue == s.fromQueue && next.closers.Keys == s.closers.Keys
            && !s.closers[a.c].Entering? && !s.closers[a.c].Done? && !next.closers[a.c].Entering?
            && (c != a.c && c in s.closers ==> next.closers[c] == s.closers[c])
  {
  }

  lemma ClosersUntouched(s: State, a: Action)
    requires Enabled(s, a)
    requires !a.CallClose? && !a.EnterClose? && !a.SealAdmission? && !a.JoinReader? && !a.StopRuntimeLocked? && !a.JoinAsks?
    ensures Do(s, a).closers == s.closers && Do(s, a).fromQueue == s.fromQueue
  {
  }

  lemma {:induction false} QueueRun(s: State, run: seq<Action>, c: nat)
    requires QueueKept(s, c) && IsRun(s, run)
    ensures QueueKept(Final(s, run), c)
    decreases |run|
  {
    if run != [] {
      QueueStep(s, run[0], c);
      QueueRun(Do(s, run[0]), run[1..], c);
    }
  }

  lemma ReachableQueue(s: State, c: nat)
    requires Reachable(s)
    ensures QueueKept(s, c)
  {
    var run :| IsRun(START, run) && Final(START, run) == s;
    QueueRun(START, run, c);
  }

  /** A close called on the request queue never gets past its entry, in any run. */
  lemma ReentrantCloseRefused(s: State, c: nat)
    requires Reachable(s) && c in s.fromQueue
    ensures c in s.closers && s.closers[c] in {Entering(true), Done(Refused)}
  {
    ReachableQueue(s, c);
  }

  /** Another close is running and holds the close lock. */
  predicate AnotherCloses(s: State, c: nat) {
    exists d :: d in s.closers && d != c && HoldsCloseLock(s.closers[d])
  }

  /** A close is refused on entry exactly if it was called on the request queue or another one is running; refusal changes nothing else. */
  lemma EntryDecides(s: State, c: nat)
    requires Reachable(s) && Enabled(s, EnterClose(c))
    ensures var next := Do(s, EnterClose(c));
            && (next.closers[c] == Done(Refused) <==> c in s.fromQueue || AnotherCloses(s, c))
            && (next.closers[c] == Done(Refused) ==> next == s.(closers := s.closers[c := Done(Refused)]))
            && (next.closers[c] != Done(Refused) ==>
                  next == s.(closers := s.closers[c := Sealing], closeLock := Some(c)))
  {
    ReachableInv(s);
    ReachableQueue(s, c);
    if s.closeLock.Some? {
      assert HoldsCloseLock(s.closers[s.closeLock.value]);
    }
  }

  /** The queue a close is called on is remembered as it was. */
  lemma CallRemembered(s: State, c: nat, onQueue: bool)
    requires Reachable(s) && Enabled(s, CallClose(c, onQueue))
    ensures c in Do(s, CallClose(c, onQueue)).fromQueue <==> onQueue
  {
    ReachableQueue(s, c);
  }

  /** A close that was let in seals admission. */
  lemma CloseSeals(s: State, c: nat)
    requires Enabled(s, SealAdmission(c))
    ensures Do(s, SealAdmission(c)) == s.(ses := s.ses.(closing := true), closers := s.closers[c := JoiningReader])
  {
  }

  /** It goes on to stop exactly if the runner has left in time. */
  lemma CloseJoinsReader(s: State, c: nat)
    requires Reachable(s) && Enabled(s, JoinReader(c))
    ensures Do(s, JoinReader(c)).closers[c] == if s.runner == Finished then Stopping else Done(ReaderStillRunning)
  {
    ReachableInv(s);
  }

  /** It returns exactly if every borrowed ask has ended in time. */
  lemma CloseJoinsAsks(s: State, c: nat)
    requires Reachable(s) && Enabled(s, JoinAsks(c))
    ensures Do(s, JoinAsks(c)).closers[c] == if s.ses.activeAsks == 0 then Done(Returned) else Done(AsksStillBorrowed)
  {
    ReachableInv(s);
    assert CloserInv(s, s.closers[c]);
    ReleasedIffLogged(ADOPTED, s.log, SignalRetired);
  }

  /** The runner's last step tries the stop and puts what it answers on record. */
  lemma RunnerStops(s: State, status: int)
    requires Reachable(s) && Enabled(s, FinishRunner(status))
    ensures var next := Do(s, FinishRunner(status));
            && next.ses.closing && next.ses.stopped == (status == 0)
            && next.ses.stopFailure == (if status == 0 then None else Some(status))
            && |next.log| > |s.log| && next.log[|s.log|] == StopRuntime(status == 0)
  {
    ReachableInv(s);
  }

  /** A close stops the runtime exactly if no stop succeeded yet, and fails exactly with what that stop answers. */
  lemma CloseStops(s: State, c: nat, status: int)
    requires Reachable(s) && Enabled(s, StopRuntimeLocked(c, status))
    ensures var next := Do(s, StopRuntimeLocked(c, status));
            && (s.ses.stopped ==> next.log == s.log && next.closers[c] == JoiningAsks)
            && (!s.ses.stopped ==>
                  && next.ses.stopped == (status == 0)
                  && |next.log| > |s.log| && next.log[|s.log|] == StopRuntime(status == 0)
                  && next.closers[c] == if status == 0 then JoiningAsks else Done(StopFailed(status)))
  {
    ReachableInv(s);
    assert CloserInv(s, s.closers[c]);
    EmitNothing(s);
  }
}
