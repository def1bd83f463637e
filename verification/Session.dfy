/**
 The session of Sources/CoAkkaRuntime/RuntimeSession.swift: the fields its lock
 owns, and what each critical section does to them and calls natively. The
 functions are the specification; the class below is the source's form and is
 proved against them. What Core answers is a parameter.
 */
module Sessions {
  import opened Wrappers
  import opened NativeCore

  const STATUS_OK: int := 0
  const STATUS_WOULD_BLOCK: int := -6
  const STATUS_CLOSED: int := -7
  const MAX_ASKS: int := 64

  datatype Error =
    | Closed
    | ResourceLimit
    | NativeStatus(status: int)
    | ContractViolation

  /** The fields under the session lock. `runtime` says that the pointer is still held. */
  datatype Session = Session(
    runtime: bool,
    closing: bool,
    readerRetired: bool,
    stopped: bool,
    activeAsks: int,
    stopFailure: Option<int>,
    readFailed: bool,
    failedStopOwner: bool)

  const OPENED := Session(true, false, false, false, 0, None, false, false)

  /** A critical section's effect: the fields after it and the native calls it made. */
  datatype Effect = Effect(ses: Session, calls: seq<Call>)

  const RETIREMENT: seq<Call> := [DestroyClient, CloseHandles, DestroyRuntime, CloseLibrary, SignalRetired]

  predicate IsOpen(s: Session) {
    !s.closing && s.runtime
  }

  function Stop(s: Session, status: int): Effect {
    if !s.readerRetired || s.stopped || !s.runtime then Effect(s, [])
    else
      Effect(
        s.(stopFailure := if status == STATUS_OK then None else Some(status),
           stopped := status == STATUS_OK,
           failedStopOwner := status != STATUS_OK),
        [StopRuntime(status == STATUS_OK)])
  }

  function Retire(s: Session): Effect {
    if s.readerRetired && s.stopped && s.activeAsks == 0 && s.runtime
    then Effect(s.(runtime := false), RETIREMENT)
    else Effect(s, [])
  }

  function StopAndRetire(s: Session, status: int): Effect {
    var stop := Stop(s, status);
    var retire := Retire(stop.ses);
    Effect(retire.ses, stop.calls + retire.calls)
  }

  /** The runner's last critical section, after it destroyed the reader. */
  function RetireRunner(s: Session, status: int): Effect {
    StopAndRetire(s.(readerRetired := true, closing := true), status)
  }

  /** The section of `close` between its two joins. */
  function CloseSection(s: Session, status: int): Effect {
    if s.stopped then Effect(s, []) else StopAndRetire(s, status)
  }

  function EndBorrow(s: Session): Effect {
    Retire(s.(activeAsks := s.activeAsks - 1))
  }

  /** What Core answers to a begin: its status, and the ticket it handed out if any. */
  datatype BeginAnswer = BeginAnswer(status: int, ticket: Option<nat>)

  function Begin(s: Session, answer: BeginAnswer): (Effect, Result<nat, Error>) {
    if !IsOpen(s) then (Effect(s, []), Err(Closed))
    else if s.activeAsks >= MAX_ASKS then (Effect(s, []), Err(ResourceLimit))
    else if answer.status != STATUS_OK then (Effect(s, [BeginAsk(None)]), Err(NativeStatus(answer.status)))
    else if answer.ticket.None? then (Effect(s, [BeginAsk(None)]), Err(ContractViolation))
    else (Effect(s.(activeAsks := s.activeAsks + 1), [BeginAsk(answer.ticket)]), Ok(answer.ticket.value))
  }

  class RuntimeSession {
    var runtime: bool
    var closing: bool
    var readerRetired: bool
    var stopped: bool
    var activeAsks: int
    var stopFailure: Option<int>
    var readFailed: bool
    var failedStopOwner: bool
    /** Every native call made through this session, in order. */
    var calls: seq<Call>

    ghost function State(): Session
      reads this
    {
      Session(runtime, closing, readerRetired, stopped, activeAsks, stopFailure, readFailed, failedStopOwner)
    }

    /** The object has had exactly this effect since the state `s` with the log `log`. */
    ghost predicate Became(s: Session, log: seq<Call>, e: Effect)
      reads this
    {
      State() == e.ses && calls == log + e.calls
    }

    constructor ()
      ensures State() == OPENED && calls == []
    {
      runtime, closing, readerRetired, stopped := true, false, false, false;
      activeAsks, stopFailure, readFailed, failedStopOwner := 0, None, false, false;
      calls := [];
    }

    method RequireOpenLocked() returns (open: bool)
      ensures open <==> IsOpen(State())
    {
      open := !closing && runtime;
    }

    /** Runs an operation on the runtime pointer if the session is open. */
    method WithOpen() returns (r: Result<(), Error>)
      modifies this
      ensures r == (if old(!closing && runtime) then Ok(()) else Err(Closed))
      ensures Became(old(State()), old(calls), Effect(old(State()), if r.Ok? then [UseRuntime] else []))
    {
      var open := RequireOpenLocked();
      if !open {
        return Err(Closed);
      }
      calls := calls + [UseRuntime];
      r := Ok(());
    }

    method BeginAsk(answer: BeginAnswer) returns (r: Result<nat, Error>)
      modifies this
      ensures Became(old(State()), old(calls), Begin(old(State()), answer).0)
      ensures r == Begin(old(State()), answer).1
      ensures r == Err(Closed) <==> old(closing || !runtime)
      ensures r == Err(ResourceLimit) <==> old(!closing && runtime && activeAsks >= 64)
      ensures r.Err? && r.error in {Closed, ResourceLimit} ==> calls == old(calls)
      ensures r.Ok? || r.error !in {Closed, ResourceLimit} ==>
                && |calls| == |old(calls)| + 1 && calls[|old(calls)|].BeginAsk?
                && r == (if answer.status != 0 then Err(NativeStatus(answer.status))
                         else if answer.ticket.None? then Err(ContractViolation)
                         else Ok(answer.ticket.value))
      ensures activeAsks == old(activeAsks) + if r.Ok? then 1 else 0
    {
      var open := RequireOpenLocked();
      if !open {
        return Err(Closed);
      }
      if activeAsks >= MAX_ASKS {
        return Err(ResourceLimit);
      }
      calls := calls + [Call.BeginAsk(if answer.status == STATUS_OK then answer.ticket else None)];
      if answer.status != STATUS_OK {
        return Err(NativeStatus(answer.status));
      }
      match answer.ticket
      case None => r := Err(ContractViolation);
      case Some(t) =>
        activeAsks := activeAsks + 1;
        r := Ok(t);
    }

    method EndBorrowedAsk()
      modifies this
      ensures Became(old(State()), old(calls), EndBorrow(old(State())))
    {
      activeAsks := activeAsks - 1;
      RetireLocked();
    }

    method RequestRetirement()
      modifies this
      ensures Became(old(State()), old(calls), Effect(old(State()).(closing := true), []))
    {
      closing := true;
    }

    /** The runner's deferred exit, once the reader is destroyed. */
    method FinishRunner(stopStatus: int)
      modifies this
      ensures Became(old(State()), old(calls), RetireRunner(old(State()), stopStatus))
    {
      readerRetired := true;
      closing := true;
      StopLocked(stopStatus);
      RetireLocked();
    }

    /** The critical section of `close`; the result is the failure it then throws. */
    method CloseLocked(stopStatus: int) returns (failure: Option<int>)
      modifies this
      ensures Became(old(State()), old(calls), CloseSection(old(State()), stopStatus))
      ensures failure == stopFailure
    {
      if !stopped {
        StopLocked(stopStatus);
        RetireLocked();
      }
      failure := stopFailure;
    }

    method StopLocked(status: int)
      modifies this
      ensures Became(old(State()), old(calls), Stop(old(State()), status))
      ensures old(readerRetired && !stopped && runtime) ==>
                stopped == (status == 0) && stopFailure == (if status == 0 then None else Some(status))
    {
      if !readerRetired || stopped || !runtime {
        return;
      }
      calls := calls + [StopRuntime(status == STATUS_OK)];
      stopFailure := if status == STATUS_OK then None else Some(status);
      stopped := status == STATUS_OK;
      failedStopOwner := status != STATUS_OK;
    }

    method RetireLocked()
      modifies this
      ensures Became(old(State()), old(calls), Retire(old(State())))
    {
      if !readerRetired || !stopped || activeAsks != 0 || !runtime {
        return;
      }
      calls := calls + [DestroyClient];
      calls := calls + [CloseHandles];
      calls := calls + [DestroyRuntime];
      runtime := false;
      calls := calls + [CloseLibrary];
      calls := calls + [SignalRetired];
    }
  }

  // ----- Tickets

  datatype Outcome =
    | AlreadyConsumed
    | CoreFailed(status: int)
    | Cancelled
    | TimedOut
    | CopyFailed
    | Delivered

  /** Core answered an await with a failure of its own, not with "nothing yet". */
  predicate IsCoreFailure(status: int) {
    status != STATUS_OK && status != STATUS_WOULD_BLOCK
  }

  /** How an awaited ticket ends: Core's failure first, then cancellation, then the timeout. */
  function Verdict(status: int, cancelled: bool, copyFailed: bool): Outcome {
    if IsCoreFailure(status) then CoreFailed(status)
    else if cancelled then Cancelled
    else if status == STATUS_WOULD_BLOCK then TimedOut
    else if copyFailed then CopyFailed
    else Delivered
  }

  function CancelCalls(t: nat, o: Outcome): seq<Call> {
    if o == Cancelled then [CancelAsk(t)] else []
  }

  class NativeAskTicket {
    const ticket: nat
    const session: RuntimeSession
    var consumed: bool

    constructor (session: RuntimeSession, ticket: nat)
      ensures this.session == session && this.ticket == ticket && !consumed
    {
      this.session := session;
      this.ticket := ticket;
      consumed := false;
    }

    /**
     Awaits the ticket once. `cancelledBefore` and `cancelledAfter` are the
     cancellation intent as read before and after the native await; `status` is
     what that await answered and `copyFailed` whether its bytes could not be copied.
     */
    method AwaitResult(cancelledBefore: bool, status: int, cancelledAfter: bool, copyFailed: bool)
      returns (o: Outcome)
      modifies this, session
      ensures consumed && (o == AlreadyConsumed <==> old(consumed))
      ensures old(consumed) ==> session.State() == old(session.State()) && session.calls == old(session.calls)
      ensures !old(consumed) ==>
                var mine := (if cancelledBefore then [] else [StartAwait(ticket), EndAwait(ticket)])
                          + (if o == Cancelled then [CancelAsk(ticket)] else []);
                var end := EndBorrow(old(session.State()));
                && o == (if cancelledBefore then Cancelled else Verdict(status, cancelledAfter, copyFailed))
                && session.State() == end.ses
                && session.calls == old(session.calls) + mine + [DestroyAsk(ticket)] + end.calls
      ensures !old(consumed) ==>
                && (o == Cancelled <==> cancelledBefore || (status in {0, -6} && cancelledAfter))
                && (forall e :: o == CoreFailed(e) <==> !cancelledBefore && e == status && status !in {0, -6})
                && (o == TimedOut <==> !cancelledBefore && status == -6 && !cancelledAfter)
                && (o == CopyFailed <==> !cancelledBefore && status == 0 && !cancelledAfter && copyFailed)
                && (o == Delivered <==> !cancelledBefore && status == 0 && !cancelledAfter && !copyFailed)
    {
      if consumed {
        return AlreadyConsumed;
      }
      consumed := true;
      if cancelledBefore {
        session.calls := session.calls + [CancelAsk(ticket)];
        o := Cancelled;
      } else {
        session.calls := session.calls + [StartAwait(ticket)];
        session.calls := session.calls + [EndAwait(ticket)];
        if status != STATUS_OK && status != STATUS_WOULD_BLOCK {
          o := CoreFailed(status);
        } else if cancelledAfter {
          session.calls := session.calls + [CancelAsk(ticket)];
          o := Cancelled;
        } else if status == STATUS_WOULD_BLOCK {
          o := TimedOut;
        } else if copyFailed {
          o := CopyFailed;
        } else {
          o := Delivered;
        }
      }
      session.calls := session.calls + [DestroyAsk(ticket)];
      session.EndBorrowedAsk();
    }
  }
}
