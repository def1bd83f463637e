/** What every reachable state of the retirement protocol satisfies. */
module SessionInvariant {
  import opened Wrappers
  import opened NativeCore
  import opened Sessions
  import opened SessionProtocol

  predicate ReaderDestroyed(r: Runner) {
    r == Locking || r == Leaving || r == Finished
  }

  predicate RunnerInv(s: State, c: Core) {
    && c.reader == (if ReaderDestroyed(s.runner) then Gone else Live)
    && c.frame == (s.runner.Handling? && s.runner.frame)
    && (s.ses.readerRetired <==> s.runner == Leaving || s.runner == Finished)
    && (s.readerLeft <==> s.runner == Finished)
  }

  predicate RetirementInv(s: State, c: Core) {
    && (s.ses.readerRetired ==> s.ses.closing)
    && (s.ses.stopped ==> s.ses.readerRetired)
    && (s.ses.stopFailure.Some? <==> s.ses.readerRetired && !s.ses.stopped)
    && (s.ses.failedStopOwner <==> s.ses.stopFailure.Some?)
    && (s.ses.runtime <==> !(s.ses.readerRetired && s.ses.stopped && s.ses.activeAsks == 0))
    && (c.stopTried <==> s.ses.readerRetired)
    && c.lifecycle == (if !s.ses.runtime then Destroyed else if s.ses.stopped then Stopped else Started)
    && c.client == c.handles == c.library == (if s.ses.runtime then Live else Gone)
    && (c.signalled <==> !s.ses.runtime)
  }

  function NativeState(p: Phase): TicketState {
    match p
    case Awaiting => Waiting
    case Returning(_) => Released
    case Ended(_) => Released
    case _ => Idle
  }

  /** The tickets whose borrow has not ended. */
  function Borrowed(tickets: map<nat, Ticket>): set<nat> {
    set t | t in tickets && !tickets[t].phase.Ended?
  }

  function Outcomes(p: Phase): Option<Outcome> {
    match p
    case Ending(o) => Some(o)
    case Returning(o) => Some(o)
    case Ended(o) => Some(o)
    case _ => None
  }

  /** Core's own failure outranks a cancellation that was seen, and that outranks everything else. */
  ghost predicate Ranked(ticket: Ticket, o: Outcome) {
    && (ticket.seen ==> ticket.cancelled && ticket.answer in {None, Some(0), Some(-6)})
    && (o == Cancelled <==> ticket.seen)
    && (forall e :: o == CoreFailed(e) <==> ticket.answer == Some(e) && e != 0 && e != -6)
    && (o == TimedOut <==> ticket.answer == Some(-6) && !ticket.seen)
    && (o == CopyFailed <==> ticket.answer == Some(0) && !ticket.seen && ticket.uncopied)
    && (o == Delivered <==> ticket.answer == Some(0) && !ticket.seen && !ticket.uncopied)
    && o != AlreadyConsumed
  }

  /** A ticket's outcome agrees with what its await answered and with what its owner saw of its task's intent. */
  ghost predicate Justified(ticket: Ticket) {
    && (ticket.phase.Answered? ==> ticket.answer == Some(ticket.phase.status))
    && (ticket.phase.Begun? || ticket.phase.Awaiting? ==> ticket.answer.None?)
    && (Outcomes(ticket.phase).None? ==> !ticket.seen)
    && (Outcomes(ticket.phase).Some? ==> Ranked(ticket, Outcomes(ticket.phase).value))
  }

  ghost predicate TicketsInv(s: State, c: Core) {
    && c.tickets.Keys == s.tickets.Keys
    && (forall t :: t in s.tickets ==> c.tickets[t] == NativeState(s.tickets[t].phase))
    && (forall t :: t in s.tickets ==> Justified(s.tickets[t]))
    && s.ses.activeAsks == |Borrowed(s.tickets)|
    && s.ses.activeAsks <= MAX_ASKS
  }

  predicate HoldsCloseLock(pc: Closer) {
    pc == Sealing || pc == JoiningReader || pc == Stopping || pc == JoiningAsks
  }

  predicate CloserInv(s: State, pc: Closer) {
    match pc
    case Entering(_) => true
    case Sealing => true
    case JoiningReader => s.ses.closing
    case Stopping => s.readerLeft
    case JoiningAsks => s.readerLeft && s.ses.stopped
    case Done(Refused) => true
    case Done(Returned) => !s.ses.runtime
    case Done(_) => s.ses.closing
  }

  predicate ClosersInv(s: State) {
    && (forall c :: c in s.closers ==> CloserInv(s, s.closers[c]))
    && (forall c :: c in s.closers && HoldsCloseLock(s.closers[c]) ==> s.closeLock == Some(c))
    && (s.closeLock.Some? ==> s.closeLock.value in s.closers && HoldsCloseLock(s.closers[s.closeLock.value]))
    && (!s.host ==> s.ses.closing && NoCloseRunning(s))
  }

  ghost predicate Inv(s: State) {
    && s.core == Exec(Some(ADOPTED), s.log)
    && s.core.Some?
    && RunnerInv(s, s.core.value)
    && RetirementInv(s, s.core.value)
    && TicketsInv(s, s.core.value)
    && ClosersInv(s)
  }

  // ----- Native calls under the invariant

  /** A legal call extends the log and leaves Core where the call puts it. */
  lemma EmitOne(s: State, call: Call)
    requires s.core == Exec(Some(ADOPTED), s.log) && s.core.Some? && Allowed(s.core.value, call)
    ensures Emit(s, [call]).core == Exec(Some(ADOPTED), Emit(s, [call]).log)
    ensures Emit(s, [call]).core == Some(After(s.core.value, call))
  {
    ExecConcat(Some(ADOPTED), s.log, [call]);
    ExecOne(s.core.value, call);
  }

  lemma EmitNothing(s: State)
    ensures Emit(s, []) == s
  {
    assert s.log + [] == s.log;
  }

  function Retired(c: Core): Core {
    c.(client := Gone, handles := Gone, lifecycle := Destroyed, library := Gone, signalled := true)
  }

  predicate RetirementAllowed(c: Core) {
    && Allowed(c, DestroyClient)
    && c.handles == Live && c.reader != Live && c.library == Live && !c.signalled
    && (c.lifecycle == Stopped || c.lifecycle == Created)
  }

  /** The five calls of a retirement are legal one after the other. */
  lemma RetirementLegal(c: Core)
    requires RetirementAllowed(c)
    ensures Exec(Some(c), RETIREMENT) == Some(Retired(c))
  {
    var calls := RETIREMENT;
    var c1 := After(c, DestroyClient);
    var c2 := After(c1, CloseHandles);
    var c3 := After(c2, DestroyRuntime);
    var c4 := After(c3, CloseLibrary);
    ExecFirst(c, calls);
    ExecFirst(c1, calls[1..]);
    ExecFirst(c2, calls[2..]);
    ExecFirst(c3, calls[3..]);
    ExecFirst(c4, calls[4..]);
    assert calls[1..][1..] == calls[2..] && calls[2..][1..] == calls[3..] && calls[3..][1..] == calls[4..];
    assert calls[4..][1..] == [];
  }

  lemma ExecFirst(c: Core, log: seq<Call>)
    requires log != [] && Allowed(c, log[0])
    ensures Exec(Some(c), log) == Exec(Some(After(c, log[0])), log[1..])
  {
  }

  lemma EmitMany(s: State, calls: seq<Call>)
    requires s.core == Exec(Some(ADOPTED), s.log)
    ensures Emit(s, calls).core == Exec(Some(ADOPTED), Emit(s, calls).log)
  {
    ExecConcat(Some(ADOPTED), s.log, calls);
  }

  /** Core after `Retire`, from any state where the session may have nothing left to wait for. */
  lemma RetireCore(ses: Session, c: Core)
    requires ses.runtime && ses.readerRetired && ses.stopped && ses.activeAsks == 0 ==> RetirementAllowed(c)
    ensures var e := Retire(ses);
            Exec(Some(c), e.calls) == Some(if e.ses.runtime == ses.runtime then c else Retired(c))
  {
    if ses.runtime && ses.readerRetired && ses.stopped && ses.activeAsks == 0 {
      RetirementLegal(c);
    }
  }

  /** Core after a stop attempt and the retirement that follows it. */
  lemma StopAndRetireCore(ses: Session, c: Core, status: int)
    requires ses.readerRetired && ses.runtime && !ses.stopped
    requires Allowed(c, StopRuntime(status == STATUS_OK))
    requires c.client == c.handles == c.library == Live && !c.signalled
    requires ses.activeAsks == 0 ==> Allowed(c, DestroyClient)
    ensures var e := StopAndRetire(ses, status);
            var d := After(c, StopRuntime(status == STATUS_OK));
            Exec(Some(c), e.calls) == Some(if e.ses.runtime then d else Retired(d))
  {
    var call := StopRuntime(status == STATUS_OK);
    var stop := Stop(ses, status);
    var d := After(c, call);
    RetireCore(stop.ses, d);
    ExecConcat(Some(c), [call], Retire(stop.ses).calls);
    ExecOne(c, call);
  }

  // ----- Tickets as sets

  lemma BorrowedStill(before: map<nat, Ticket>, t: nat, ticket: Ticket)
    requires t in before && (before[t].phase.Ended? <==> ticket.phase.Ended?)
    ensures Borrowed(before[t := ticket]) == Borrowed(before)
  {
  }

  lemma BorrowedEnds(before: map<nat, Ticket>, t: nat, ticket: Ticket)
    requires t in before && !before[t].phase.Ended? && ticket.phase.Ended?
    ensures Borrowed(before[t := ticket]) == Borrowed(before) - {t} && t in Borrowed(before)
    ensures |Borrowed(before[t := ticket])| == |Borrowed(before)| - 1
  {
    assert Borrowed(before[t := ticket]) == Borrowed(before) - {t};
  }

  lemma BorrowedBegins(before: map<nat, Ticket>, t: nat, ticket: Ticket)
    requires t !in before && !ticket.phase.Ended?
    ensures |Borrowed(before[t := ticket])| == |Borrowed(before)| + 1
  {
    assert Borrowed(before[t := ticket]) == Borrowed(before) + {t};
    assert t !in Borrowed(before);
  }

  /** With no borrow left, Core has no ticket left. */
  lemma NoBorrowNoTicket(s: State, c: Core)
    requires TicketsInv(s, c) && s.ses.activeAsks == 0
    ensures forall t :: t in c.tickets ==> c.tickets[t] == Released
  {
    forall t | t in c.tickets
      ensures c.tickets[t] == Released
    {
      assert t !in Borrowed(s.tickets);
    }
  }

  // ----- The invariant is kept

  lemma LoopKeeps(s: State, a: Action)
    requires Inv(s) && Enabled(s, a)
    requires a.TestClosing? || a.RecordFailure? || a.HandlerReturns? || a.SignalReader?
    ensures Inv(Do(s, a))
  {
    ClosersStay(s, Do(s, a));
  }

  lemma ReadKeeps(s: State, status: int, frame: bool, readable: bool, size: int)
    requires Inv(s) && Enabled(s, ReadReturns(status, frame, readable, size))
    ensures Inv(Do(s, ReadReturns(status, frame, readable, size)))
  {
    EmitOne(s.(runner := Handling(frame, Decide(status, frame, readable, size))), ReadFrame(frame));
    ClosersStay(s, Do(s, ReadReturns(status, frame, readable, size)));
  }

  lemma IterationKeeps(s: State)
    requires Inv(s) && Enabled(s, EndIteration)
    ensures Inv(Do(s, EndIteration))
  {
    var next := s.(runner := if s.runner.next == Leave then Unwinding else Checking);
    if s.runner.frame {
      EmitOne(next, ReleaseFrame);
    } else {
      EmitNothing(next);
    }
    ClosersStay(s, Do(s, EndIteration));
  }

  lemma RetireReaderKeeps(s: State)
    requires Inv(s) && Enabled(s, RetireReader)
    ensures Inv(Do(s, RetireReader))
  {
    EmitOne(s.(runner := Locking), DestroyReader);
    ClosersStay(s, Do(s, RetireReader));
  }

  lemma FinishRunnerKeeps(s: State, status: int)
    requires Inv(s) && Enabled(s, FinishRunner(status))
    ensures Inv(Do(s, FinishRunner(status)))
  {
    var c, ses := s.core.value, s.ses.(readerRetired := true, closing := true);
    var e := RetireRunner(s.ses, status);
    if ses.activeAsks == 0 {
      NoBorrowNoTicket(s, c);
    }
    StopAndRetireCore(ses, c, status);
    EmitMany(s.(runner := Leaving, ses := e.ses), e.calls);
    ClosersStay(s, Do(s, FinishRunner(status)));
  }

  lemma UseKeeps(s: State, a: Action)
    requires Inv(s) && Enabled(s, a) && (a.ReleaseHost? || a.UseOpen?)
    ensures Inv(Do(s, a))
  {
    if a.UseOpen? && IsOpen(s.ses) {
      EmitOne(s, UseRuntime);
    }
  }

  function Begun(s: State, t: nat): State {
    SetTicket(Affect(s, Effect(s.ses.(activeAsks := s.ses.activeAsks + 1), [BeginAsk(Some(t))])),
              t, FRESH_TICKET)
  }

  /** A begin is refused before Core, refused by Core, or starts a ticket. */
  lemma BeginDoes(s: State, answer: BeginAnswer)
    requires Enabled(s, TryBegin(answer))
    ensures var next := Do(s, TryBegin(answer));
            || next == s
            || (IsOpen(s.ses) && next == Emit(s, [BeginAsk(None)]))
            || (IsOpen(s.ses) && s.ses.activeAsks < MAX_ASKS && answer.ticket.Some? && next == Begun(s, answer.ticket.value))
  {
    EmitNothing(s);
  }

  lemma BeginKeeps(s: State, answer: BeginAnswer)
    requires Inv(s) && Enabled(s, TryBegin(answer))
    ensures Inv(Do(s, TryBegin(answer)))
  {
    BeginDoes(s, answer);
    if IsOpen(s.ses) {
      RefusedKeeps(s);
      if s.ses.activeAsks < MAX_ASKS && answer.ticket.Some? {
        BegunKeeps(s, answer.ticket.value);
      }
    }
  }

  lemma RefusedKeeps(s: State)
    requires Inv(s) && IsOpen(s.ses)
    ensures Inv(Emit(s, [BeginAsk(None)]))
  {
    EmitOne(s, BeginAsk(None));
    ClosersStay(s, Emit(s, [BeginAsk(None)]));
  }

  lemma BegunKeeps(s: State, t: nat)
    requires Inv(s) && IsOpen(s.ses) && t !in s.tickets && s.ses.activeAsks < MAX_ASKS
    ensures Inv(Begun(s, t))
  {
    var begun := s.(ses := s.ses.(activeAsks := s.ses.activeAsks + 1));
    EmitOne(begun, BeginAsk(Some(t)));
    BorrowedBegins(s.tickets, t, FRESH_TICKET);
    ClosersStay(s, Begun(s, t));
  }

  lemma ClosersStay(s: State, next: State)
    requires ClosersInv(s) && next.closers == s.closers && next.closeLock == s.closeLock
    requires s.ses.closing ==> next.ses.closing
    requires s.readerLeft ==> next.readerLeft
    requires s.ses.stopped ==> next.ses.stopped
    requires !s.ses.runtime ==> !next.ses.runtime
    requires next.host == s.host
    ensures ClosersInv(next)
  {
  }

  /** Core's view of the tickets after the one call that moves ticket `t`. */
  predicate Moves(c: Core, calls: seq<Call>, t: nat, to: TicketState) {
    && |calls| <= 1
    && (calls == [] ==> t in c.tickets && c.tickets[t] == to)
    && (calls != [] ==> Allowed(c, calls[0]) && After(c, calls[0]) == c.(tickets := c.tickets[t := to]))
  }

  lemma TicketsMove(s: State, c: Core, t: nat, ticket: Ticket, d: Core)
    requires TicketsInv(s, c) && t in s.tickets && Justified(ticket)
    requires s.tickets[t].phase.Ended? <==> ticket.phase.Ended?
    requires d.tickets == c.tickets[t := NativeState(ticket.phase)]
    ensures TicketsInv(SetTicket(s, t, ticket), d)
  {
    BorrowedStill(s.tickets, t, ticket);
  }

  lemma TicketMoves(s: State, t: nat, ticket: Ticket, calls: seq<Call>)
    requires Inv(s) && t in s.tickets && Justified(ticket)
    requires s.tickets[t].phase.Ended? <==> ticket.phase.Ended?
    requires Moves(s.core.value, calls, t, NativeState(ticket.phase))
    ensures Inv(Emit(SetTicket(s, t, ticket), calls))
  {
    var moved, c := SetTicket(s, t, ticket), s.core.value;
    var to := NativeState(ticket.phase);
    if calls == [] {
      EmitNothing(moved);
      assert c.tickets[t := to] == c.tickets;
      TicketsMove(s, c, t, ticket, c);
    } else {
      EmitOne(moved, calls[0]);
      assert calls == [calls[0]];
      TicketsMove(s, c, t, ticket, c.(tickets := c.tickets[t := to]));
    }
    ClosersStay(s, Emit(moved, calls));
  }

  /** A borrow that has not ended keeps the session's native objects alive. */
  lemma BorrowHolds(s: State, t: nat)
    requires Inv(s) && t in s.tickets && !s.tickets[t].phase.Ended?
    ensures s.ses.activeAsks > 0 && s.ses.runtime && s.core.value.client == Live
  {
    assert t in Borrowed(s.tickets);
    BorrowedCount(s, t);
  }

  lemma CancellationKeeps(s: State, t: nat)
    requires Inv(s) && Enabled(s, AskCancellation(t))
    ensures Inv(Do(s, AskCancellation(t)))
  {
    var ticket := s.tickets[t].(cancelled := true);
    TicketMoves(s, t, ticket, []);
    EmitNothing(SetTicket(s, t, ticket));
  }

  // What the next step of a ticket's owner makes of a justified ticket, and which call it makes.

  lemma JustifiedCancelled(ticket: Ticket)
    requires Justified(ticket) && ticket.phase.Begun? && ticket.cancelled
    ensures Justified(ticket.(phase := Ending(Cancelled), seen := true))
  {
  }

  lemma JustifiedConclusion(ticket: Ticket, copyFailed: bool)
    requires Justified(ticket) && ticket.phase.Answered?
    ensures Justified(Concluded(ticket, Verdict(ticket.phase.status, ticket.cancelled, copyFailed), copyFailed))
  {
  }

  lemma JustifiedReturning(ticket: Ticket)
    requires Justified(ticket) && ticket.phase.Ending?
    ensures Justified(ticket.(phase := Returning(ticket.phase.outcome)))
  {
  }

  lemma MovesInPlace(c: Core, t: nat, cancel: bool)
    requires c.client == Live && t in c.tickets && c.tickets[t] == Idle
    ensures Moves(c, if cancel then [CancelAsk(t)] else [], t, Idle)
  {
    assert c.tickets[t := Idle] == c.tickets;
  }

  lemma MovesOn(c: Core, t: nat)
    requires c.client == Live && t in c.tickets
    ensures c.tickets[t] == Idle ==> Moves(c, [StartAwait(t)], t, Waiting) && Moves(c, [DestroyAsk(t)], t, Released)
    ensures c.tickets[t] == Waiting ==> Moves(c, [EndAwait(t)], t, Idle)
  {
  }

  /** A ticket whose task was cancelled first is never awaited. */
  lemma CancelledFirst(s: State, t: nat)
    requires Inv(s) && Enabled(s, TakeTicket(t)) && s.tickets[t].cancelled
    ensures Inv(Emit(SetTicket(s, t, s.tickets[t].(phase := Ending(Cancelled), seen := true)), [CancelAsk(t)]))
  {
    BorrowHolds(s, t);
    JustifiedCancelled(s.tickets[t]);
    MovesInPlace(s.core.value, t, true);
    TicketMoves(s, t, s.tickets[t].(phase := Ending(Cancelled), seen := true), [CancelAsk(t)]);
  }

  lemma AwaitStarts(s: State, t: nat)
    requires Inv(s) && Enabled(s, TakeTicket(t))
    ensures Inv(Emit(SetPhase(s, t, Awaiting), [StartAwait(t)]))
  {
    BorrowHolds(s, t);
    MovesOn(s.core.value, t);
    TicketMoves(s, t, s.tickets[t].(phase := Awaiting), [StartAwait(t)]);
  }

  lemma TakeKeeps(s: State, t: nat)
    requires Inv(s) && Enabled(s, TakeTicket(t))
    ensures Inv(Do(s, TakeTicket(t)))
  {
    if s.tickets[t].cancelled {
      CancelledFirst(s, t);
    } else {
      AwaitStarts(s, t);
    }
  }

  lemma AwaitKeeps(s: State, t: nat, status: int)
    requires Inv(s) && Enabled(s, AwaitReturns(t, status))
    ensures Inv(Do(s, AwaitReturns(t, status)))
  {
    BorrowHolds(s, t);
    MovesOn(s.core.value, t);
    TicketMoves(s, t, s.tickets[t].(phase := Answered(status), answer := Some(status)), [EndAwait(t)]);
  }

  lemma ConcludeKeeps(s: State, t: nat, copyFailed: bool)
    requires Inv(s) && Enabled(s, Conclude(t, copyFailed))
    ensures Inv(Do(s, Conclude(t, copyFailed)))
  {
    BorrowHolds(s, t);
    var ticket := s.tickets[t];
    var o := Verdict(ticket.phase.status, ticket.cancelled, copyFailed);
    JustifiedConclusion(ticket, copyFailed);
    MovesInPlace(s.core.value, t, o == Cancelled);
    TicketMoves(s, t, Concluded(ticket, o, copyFailed), CancelCalls(t, o));
  }

  lemma DestroyKeeps(s: State, t: nat)
    requires Inv(s) && Enabled(s, DestroyTicket(t))
    ensures Inv(Do(s, DestroyTicket(t)))
  {
    BorrowHolds(s, t);
    var ticket := s.tickets[t].(phase := Returning(s.tickets[t].phase.outcome));
    JustifiedReturning(s.tickets[t]);
    MovesOn(s.core.value, t);
    TicketMoves(s, t, ticket, [DestroyAsk(t)]);
  }

  /** The state in which a borrow has ended but nothing was retired yet. */
  function BorrowEnded(s: State, t: nat): State
    requires t in s.tickets && s.tickets[t].phase.Returning?
  {
    SetPhase(s, t, Ended(s.tickets[t].phase.outcome)).(ses := s.ses.(activeAsks := s.ses.activeAsks - 1))
  }

  /** Core already released the ticket of a borrow that ends. */
  lemma EndKeepsTickets(s: State, c: Core, t: nat, ticket: Ticket)
    requires TicketsInv(s, c) && t in s.tickets && s.tickets[t].phase.Returning?
    requires ticket == s.tickets[t].(phase := Ended(s.tickets[t].phase.outcome))
    ensures TicketsInv(SetTicket(s, t, ticket).(ses := s.ses.(activeAsks := s.ses.activeAsks - 1)), c)
  {
    BorrowedEnds(s.tickets, t, ticket);
  }

  lemma GiveBackTickets(s: State, t: nat)
    requires Inv(s) && Enabled(s, GiveBack(t))
    ensures TicketsInv(BorrowEnded(s, t), s.core.value) && s.ses.activeAsks > 0
  {
    BorrowHolds(s, t);
    EndKeepsTickets(s, s.core.value, t, BorrowEnded(s, t).tickets[t]);
  }

  /** After the last borrow Core has no ticket that the client still needs. */
  lemma LastBorrow(s: State, t: nat)
    requires Inv(s) && Enabled(s, GiveBack(t))
    ensures BorrowEnded(s, t).ses.activeAsks == 0 ==> Allowed(s.core.value, DestroyClient)
  {
    BorrowHolds(s, t);
    GiveBackTickets(s, t);
    if BorrowEnded(s, t).ses.activeAsks == 0 {
      NoBorrowNoTicket(BorrowEnded(s, t), s.core.value);
    }
  }

  lemma GiveBackKeeps(s: State, t: nat)
    requires Inv(s) && Enabled(s, GiveBack(t))
    ensures Inv(Do(s, GiveBack(t)))
  {
    BorrowHolds(s, t);
    GiveBackTickets(s, t);
    LastBorrow(s, t);
    RetireKeeps(s, BorrowEnded(s, t));
  }

  lemma BorrowedCount(s: State, t: nat)
    requires t in Borrowed(s.tickets) && s.ses.activeAsks == |Borrowed(s.tickets)|
    ensures s.ses.activeAsks > 0
  {
  }

  /** A borrow that just ended retires the session if it was the last thing waited for. */
  lemma RetireKeeps(s: State, ended: State)
    requires Inv(s) && s.ses.runtime
    requires ended == s.(tickets := ended.tickets, ses := s.ses.(activeAsks := ended.ses.activeAsks))
    requires TicketsInv(ended, s.core.value)
    requires ended.ses.activeAsks == 0 ==> Allowed(s.core.value, DestroyClient)
    ensures Inv(Affect(ended, Retire(ended.ses)))
  {
    var e := Retire(ended.ses);
    RetireCore(ended.ses, s.core.value);
    EmitMany(ended.(ses := e.ses), e.calls);
    ClosersStay(s, Affect(ended, e));
  }

  /** One closer moves, perhaps taking or returning the close lock or sealing admission. */
  lemma CloserMoves(s: State, c: nat, pc: Closer, lock: Option<nat>, closing: bool)
    requires Inv(s) && s.host && (s.ses.closing ==> closing)
    requires CloserInv(s.(ses := s.ses.(closing := closing)), pc)
    requires if HoldsCloseLock(pc) then lock == Some(c) && (s.closeLock.None? || s.closeLock == Some(c))
             else lock == (if s.closeLock == Some(c) then None else s.closeLock)
    ensures Inv(SetCloser(s, c, pc).(closeLock := lock, ses := s.ses.(closing := closing)))
  {
    var next := SetCloser(s, c, pc).(closeLock := lock, ses := s.ses.(closing := closing));
    ClosersStay(s, s.(ses := next.ses));
    assert RetirementInv(next, next.core.value);
    assert TicketsInv(next, next.core.value);
    assert ClosersInv(next);
  }

  lemma CallKeeps(s: State, c: nat, onQueue: bool)
    requires Inv(s) && Enabled(s, CallClose(c, onQueue))
    ensures Inv(Do(s, CallClose(c, onQueue)))
  {
    CloserMoves(s, c, Entering(onQueue), s.closeLock, s.ses.closing);
  }

  lemma EnterRefused(s: State, c: nat)
    requires Inv(s) && Enabled(s, EnterClose(c))
    ensures Inv(SetCloser(s, c, Done(Refused)))
  {
    CloserMoves(s, c, Done(Refused), s.closeLock, s.ses.closing);
  }

  lemma EnterKeeps(s: State, c: nat)
    requires Inv(s) && Enabled(s, EnterClose(c))
    ensures Inv(Do(s, EnterClose(c)))
  {
    if s.closers[c].onQueue || s.closeLock.Some? {
      EnterRefused(s, c);
    } else {
      CloserMoves(s, c, Sealing, Some(c), s.ses.closing);
    }
  }

  lemma SealKeeps(s: State, c: nat)
    requires Inv(s) && Enabled(s, SealAdmission(c))
    ensures Inv(Do(s, SealAdmission(c)))
  {
    CloserMoves(s, c, JoiningReader, s.closeLock, true);
  }

  lemma JoinReaderKeeps(s: State, c: nat)
    requires Inv(s) && Enabled(s, JoinReader(c))
    ensures Inv(Do(s, JoinReader(c)))
  {
    if s.readerLeft {
      CloserMoves(s, c, Stopping, s.closeLock, s.ses.closing);
    } else {
      CloserMoves(s, c, Done(ReaderStillRunning), None, s.ses.closing);
    }
  }

  lemma JoinAsksKeeps(s: State, c: nat)
    requires Inv(s) && Enabled(s, JoinAsks(c))
    ensures Inv(Do(s, JoinAsks(c)))
  {
    ReleasedIffLogged(ADOPTED, s.log, SignalRetired);
    CloserMoves(s, c, Done(if SignalRetired in s.log then Returned else AsksStillBorrowed), None, s.ses.closing);
  }

  /** The effect of `close`'s critical section on everything but the closers. */
  lemma StopSectionKeeps(s: State, status: int)
    requires Inv(s) && s.ses.readerRetired
    ensures Inv(Affect(s, CloseSection(s.ses, status)))
  {
    var e := CloseSection(s.ses, status);
    if s.ses.stopped {
      EmitNothing(s);
    } else {
      if s.ses.activeAsks == 0 {
        NoBorrowNoTicket(s, s.core.value);
      }
      StopAndRetireCore(s.ses, s.core.value, status);
      EmitMany(s.(ses := e.ses), e.calls);
      ClosersStay(s, Affect(s, e));
    }
  }

  lemma StopKeeps(s: State, c: nat, status: int)
    requires Inv(s) && Enabled(s, StopRuntimeLocked(c, status))
    ensures Inv(Do(s, StopRuntimeLocked(c, status)))
  {
    var next := Affect(s, CloseSection(s.ses, status));
    StopSectionKeeps(s, status);
    var failure := next.ses.stopFailure;
    if failure.Some? {
      CloserMoves(next, c, Done(StopFailed(failure.value)), None, next.ses.closing);
    } else {
      CloserMoves(next, c, JoiningAsks, Some(c), next.ses.closing);
    }
  }

  lemma InvKept(s: State, a: Action)
    requires Inv(s) && Enabled(s, a)
    ensures Inv(Do(s, a))
  {
    if a.ReadReturns? {
      ReadKeeps(s, a.status, a.frame, a.readable, a.size);
    } else if a.EndIteration? {
      IterationKeeps(s);
    } else if a.RetireReader? {
      RetireReaderKeeps(s);
    } else if a.FinishRunner? {
      FinishRunnerKeeps(s, a.stopStatus);
    } else if a.ReleaseHost? || a.UseOpen? {
      UseKeeps(s, a);
    } else if a.TryBegin? {
      BeginKeeps(s, a.answer);
    } else if a.AskCancellation? {
      CancellationKeeps(s, a.t);
    } else if a.TakeTicket? {
      TakeKeeps(s, a.t);
    } else if a.AwaitReturns? {
      AwaitKeeps(s, a.t, a.status);
    } else if a.Conclude? {
      ConcludeKeeps(s, a.t, a.copyFailed);
    } else if a.DestroyTicket? {
      DestroyKeeps(s, a.t);
    } else if a.GiveBack? {
      GiveBackKeeps(s, a.t);
    } else if a.CallClose? {
      CallKeeps(s, a.c, a.onQueue);
    } else if a.EnterClose? {
      EnterKeeps(s, a.c);
    } else if a.SealAdmission? {
      SealKeeps(s, a.c);
    } else if a.JoinReader? {
      JoinReaderKeeps(s, a.c);
    } else if a.StopRuntimeLocked? {
      StopKeeps(s, a.c, a.stopStatus);
    } else if a.JoinAsks? {
      JoinAsksKeeps(s, a.c);
    } else {
      LoopKeeps(s, a);
    }
  }

  lemma {:induction false} RunKeeps(s: State, run: seq<Action>)
    requires Inv(s) && IsRun(s, run)
    ensures Inv(Final(s, run))
    decreases |run|
  {
    if run != [] {
      InvKept(s, run[0]);
      RunKeeps(Do(s, run[0]), run[1..]);
    }
  }

  lemma StartInv()
    ensures Inv(START)
  {
    assert Borrowed(START.tickets) == {};
  }

  lemma ReachableInv(s: State)
    requires Reachable(s)
    ensures Inv(s)
  {
    var run :| IsRun(START, run) && Final(START, run) == s;
    StartInv();
    RunKeeps(START, run);
  }
}
