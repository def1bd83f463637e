/**
 The retirement protocol of a session as a transition system: one request
 runner, any number of asks, any number of closers and any number of releases,
 interleaved at the granularity of the session lock's critical sections.
 Timeouts, cancellations and native answers are the parameters of the actions.
 */
module SessionProtocol {
  import opened Wrappers
  import opened NativeCore
  import opened Sessions

  /** What the runner does with the answer of one read. */
  datatype Next = Again | Leave | Fail | Deliver

  /** Where the request runner is. */
  datatype Runner =
    | Checking                              // about to test whether the session is closing
    | Reading                               // inside the native read
    | Handling(frame: bool, next: Next)     // inside one iteration; `frame` is to be released at its end
    | Unwinding                             // left the loop; the reader is still live
    | Locking                               // destroyed the reader; about to take the lock
    | Leaving                               // retired what it could; about to signal its exit
    | Finished

  /** What a read answered decides the iteration, in the order the runner tests it. */
  function Decide(status: int, frame: bool, readable: bool, size: int): Next {
    if status == STATUS_WOULD_BLOCK then Again
    else if status == STATUS_CLOSED then Leave
    else if status != STATUS_OK || !frame || !readable then Fail
    else if size <= 0 then Fail
    else Deliver
  }

  /** Where the exclusive owner of one ticket is. */
  datatype Phase =
    | Begun
    | Awaiting
    | Answered(status: int)
    | Ending(outcome: Outcome)      // about to destroy the ticket
    | Returning(outcome: Outcome)   // ticket destroyed; about to give the borrow back
    | Ended(outcome: Outcome)

  /**
   A ticket, whether its task asked for cancellation, whether its owner saw that
   when it last looked, what its await answered, and whether a response that
   arrived could not be copied.
   */
  datatype Ticket = Ticket(phase: Phase, cancelled: bool, seen: bool, answer: Option<int>, uncopied: bool)

  const FRESH_TICKET := Ticket(Begun, false, false, None, false)

  datatype CloseOutcome =
    | Returned
    | Refused                    // called on the request queue, or another close is in progress
    | ReaderStillRunning
    | StopFailed(status: int)
    | AsksStillBorrowed

  datatype Closer =
    | Entering(onQueue: bool)
    | Sealing
    | JoiningReader
    | Stopping
    | JoiningAsks
    | Done(outcome: CloseOutcome)

  /** `host` says that the host object is still referenced; only through it can anybody begin, use or close. */
  datatype State = State(
    host: bool,
    ses: Session,
    runner: Runner,
    readerLeft: bool,
    tickets: map<nat, Ticket>,
    closers: map<nat, Closer>,
    fromQueue: set<nat>,        // the closers that were called on the request queue
    closeLock: Option<nat>,
    log: seq<Call>,
    core: Option<Core>)

  const START := State(true, OPENED, Checking, false, map[], map[], {}, None, [], Some(ADOPTED))

  datatype Action =
    // the request runner
    | TestClosing
    | ReadReturns(status: int, frame: bool, readable: bool, size: int)
    | RecordFailure
    | HandlerReturns
    | EndIteration
    | RetireReader
    | FinishRunner(stopStatus: int)
    | SignalReader
    // any thread
    | ReleaseHost
    | UseOpen
    | TryBegin(answer: BeginAnswer)
    // the owner of one ticket, and its task
    | AskCancellation(t: nat)
    | TakeTicket(t: nat)
    | AwaitReturns(t: nat, status: int)
    | Conclude(t: nat, copyFailed: bool)
    | DestroyTicket(t: nat)
    | GiveBack(t: nat)
    // a caller of close
    | CallClose(c: nat, onQueue: bool)
    | EnterClose(c: nat)
    | SealAdmission(c: nat)
    | JoinReader(c: nat)
    | StopRuntimeLocked(c: nat, stopStatus: int)
    | JoinAsks(c: nat)

  /** A call keeps its host referenced, so the last reference goes only when no close is running. */
  predicate NoCloseRunning(s: State) {
    forall c :: c in s.closers ==> s.closers[c].Done?
  }

  predicate Enabled(s: State, a: Action) {
    match a
    case TestClosing => s.runner == Checking
    case ReadReturns(_, _, _, _) => s.runner == Reading
    case RecordFailure => s.runner.Handling? && s.runner.next == Fail
    case HandlerReturns => s.runner.Handling? && s.runner.next == Deliver
    case EndIteration => s.runner.Handling? && (s.runner.next == Again || s.runner.next == Leave)
    case RetireReader => s.runner == Unwinding
    case FinishRunner(_) => s.runner == Locking
    case SignalReader => s.runner == Leaving
    case ReleaseHost => s.host && NoCloseRunning(s)
    case UseOpen => s.host
    case TryBegin(answer) => s.host && (answer.ticket.Some? ==> answer.ticket.value !in s.tickets)
    case AskCancellation(t) => t in s.tickets
    case TakeTicket(t) => t in s.tickets && s.tickets[t].phase.Begun?
    case AwaitReturns(t, _) => t in s.tickets && s.tickets[t].phase.Awaiting?
    case Conclude(t, _) => t in s.tickets && s.tickets[t].phase.Answered?
    case DestroyTicket(t) => t in s.tickets && s.tickets[t].phase.Ending?
    case GiveBack(t) => t in s.tickets && s.tickets[t].phase.Returning?
    case CallClose(c, _) => s.host && c !in s.closers
    case EnterClose(c) => c in s.closers && s.closers[c].Entering?
    case SealAdmission(c) => c in s.closers && s.closers[c] == Sealing
    case JoinReader(c) => c in s.closers && s.closers[c] == JoiningReader
    case StopRuntimeLocked(c, _) => c in s.closers && s.closers[c] == Stopping
    case JoinAsks(c) => c in s.closers && s.closers[c] == JoiningAsks
  }

  /** Appends native calls to the log and lets Core judge them. */
  function Emit(s: State, calls: seq<Call>): State {
    s.(log := s.log + calls, core := Exec(s.core, calls))
  }

  function Affect(s: State, e: Effect): State {
    Emit(s.(ses := e.ses), e.calls)
  }

  function SetTicket(s: State, t: nat, ticket: Ticket): State {
    s.(tickets := s.tickets[t := ticket])
  }

  function SetPhase(s: State, t: nat, p: Phase): State
    requires t in s.tickets
  {
    SetTicket(s, t, s.tickets[t].(phase := p))
  }

  /** An owner that was answered looks at the cancellation flag only if Core did not fail. */
  function Concluded(ticket: Ticket, o: Outcome, copyFailed: bool): Ticket
    requires ticket.phase.Answered?
  {
    ticket.(phase := Ending(o), seen := ticket.cancelled && !IsCoreFailure(ticket.phase.status), uncopied := copyFailed)
  }

  function SetCloser(s: State, c: nat, pc: Closer): State {
    s.(closers := s.closers[c := pc])
  }

  /** Leaving `close` gives the close lock back. */
  function LeaveClose(s: State, c: nat, o: CloseOutcome): State {
    SetCloser(s, c, Done(o)).(closeLock := None)
  }

  function Do(s: State, a: Action): State
    requires Enabled(s, a)
  {
    match a
    case TestClosing => s.(runner := if s.ses.closing then Unwinding else Reading)
    case ReadReturns(status, frame, readable, size) =>
      Emit(s.(runner := Handling(frame, Decide(status, frame, readable, size))), [ReadFrame(frame)])
    case RecordFailure => s.(ses := s.ses.(readFailed := true), runner := Handling(s.runner.frame, Leave))
    case HandlerReturns => s.(runner := Handling(s.runner.frame, Again))
    case EndIteration =>
      Emit(s.(runner := if s.runner.next == Leave then Unwinding else Checking),
           if s.runner.frame then [ReleaseFrame] else [])
    case RetireReader => Emit(s.(runner := Locking), [DestroyReader])
    case FinishRunner(status) => Affect(s.(runner := Leaving), RetireRunner(s.ses, status))
    case SignalReader => s.(runner := Finished, readerLeft := true)
    case ReleaseHost => s.(host := false, ses := s.ses.(closing := true))
    case UseOpen => if IsOpen(s.ses) then Emit(s, [UseRuntime]) else s
    case TryBegin(answer) =>
      var (effect, r) := Begin(s.ses, answer);
      var next := Affect(s, effect);
      if r.Ok? then SetTicket(next, r.value, FRESH_TICKET) else next
    case AskCancellation(t) => SetTicket(s, t, s.tickets[t].(cancelled := true))
    case TakeTicket(t) =>
      if s.tickets[t].cancelled
      then Emit(SetTicket(s, t, s.tickets[t].(phase := Ending(Cancelled), seen := true)), [CancelAsk(t)])
      else Emit(SetPhase(s, t, Awaiting), [StartAwait(t)])
    case AwaitReturns(t, status) =>
      Emit(SetTicket(s, t, s.tickets[t].(phase := Answered(status), answer := Some(status))), [EndAwait(t)])
    case Conclude(t, copyFailed) =>
      var o := Verdict(s.tickets[t].phase.status, s.tickets[t].cancelled, copyFailed);
      Emit(SetTicket(s, t, Concluded(s.tickets[t], o, copyFailed)), CancelCalls(t, o))
    case DestroyTicket(t) => Emit(SetPhase(s, t, Returning(s.tickets[t].phase.outcome)), [DestroyAsk(t)])
    case GiveBack(t) => Affect(SetPhase(s, t, Ended(s.tickets[t].phase.outcome)), EndBorrow(s.ses))
    case CallClose(c, onQueue) =>
      SetCloser(s, c, Entering(onQueue)).(fromQueue := if onQueue then s.fromQueue + {c} else s.fromQueue)
    case EnterClose(c) =>
      if s.closers[c].onQueue || s.closeLock.Some? then SetCloser(s, c, Done(Refused))
      else SetCloser(s, c, Sealing).(closeLock := Some(c))
    case SealAdmission(c) => SetCloser(s, c, JoiningReader).(ses := s.ses.(closing := true))
    case JoinReader(c) => if s.readerLeft then SetCloser(s, c, Stopping) else LeaveClose(s, c, ReaderStillRunning)
    case StopRuntimeLocked(c, status) =>
      var next := Affect(s, CloseSection(s.ses, status));
      var failure := next.ses.stopFailure;
      if failure.Some? then LeaveClose(next, c, StopFailed(failure.value)) else SetCloser(next, c, JoiningAsks)
    case JoinAsks(c) => LeaveClose(s, c, if SignalRetired in s.log then Returned else AsksStillBorrowed)
  }

  // ----- Runs

  predicate IsRun(s: State, run: seq<Action>)
    decreases |run|
  {
    run == [] || (Enabled(s, run[0]) && IsRun(Do(s, run[0]), run[1..]))
  }

  function Final(s: State, run: seq<Action>): State
    requires IsRun(s, run)
    decreases |run|
  {
    if run == [] then s else Final(Do(s, run[0]), run[1..])
  }

  /** Some interleaving of the protocol leads a fresh session to `s`. */
  ghost predicate Reachable(s: State) {
    exists run :: IsRun(START, run) && Final(START, run) == s
  }
}
