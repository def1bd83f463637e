/**
 Starting a host, Sources/CoAkkaRuntime/RuntimeHost.swift: after native creation
 every resource is acquired in order, and a failure at any step rolls back what
 was acquired. The log of native calls is judged by the same Core as a session's.
 */
module Startup {
  import opened Wrappers
  import opened NativeCore
  import opened Sessions

  /** What Core answers at each step after creation. */
  datatype Script = Script(
    network: bool,
    security: Option<bool>,      // the outcome of applying a security intent, if the spec has one
    routes: bool,
    handles: int,
    start: int,
    client: bool,                // a client was constructed
    readerStatus: int,
    reader: bool,                // a reader was handed out
    stop: int)                   // what a stop would answer during rollback

  datatype Failure =
    | NetworkRefused
    | SecurityRefused
    | RoutesRefused
    | HandlesRefused(status: int)
    | StartRefused(status: int)
    | ClientRefused
    | ReaderRefused(status: int)
    | ReaderMissing

  /**
   How many resources a start acquires, in order. The last is a reader that Core
   handed out, whatever the status it handed it out with.
   */
  function Acquired(script: Script): nat {
    if !script.network || script.security == Some(false) || !script.routes || script.handles != STATUS_OK then 0
    else if script.start != STATUS_OK then 1
    else if !script.client then 2
    else if !script.reader then 3
    else 4
  }

  predicate Succeeds(script: Script) {
    Acquired(script) == 4 && script.readerStatus == STATUS_OK
  }

  const ACQUISITION: seq<Call> := [GetHandles, StartRuntime, CreateClient, CreateReader]

  /** The order in which a session lets go of what it owns. */
  function RetirementOrder(stopped: bool): seq<Call> {
    [DestroyReader, StopRuntime(stopped), DestroyClient, CloseHandles, DestroyRuntime, CloseLibrary]
  }

  /** It is what the session's last runner step and its retirement do, but for the signal that somebody may wait for. */
  lemma RetirementOrderIsSession(stopped: bool)
    ensures RetirementOrder(stopped) + [SignalRetired] == [DestroyReader, StopRuntime(stopped)] + RETIREMENT
  {
  }

  /** What has to be released once the first `n` acquisitions succeeded. */
  predicate Owned(n: nat, call: Call) {
    match call
    case DestroyReader => n >= 4
    case StopRuntime(_) => n >= 2
    case DestroyClient => n >= 3
    case CloseHandles => n >= 1
    case _ => true
  }

  function Keep(calls: seq<Call>, n: nat): seq<Call> {
    if calls == [] then []
    else (if Owned(n, calls[0]) then [calls[0]] else []) + Keep(calls[1..], n)
  }

  /** One call of a rollback: made if the resource was acquired. */
  function When(owned: bool, call: Call): seq<Call> {
    if owned then [call] else []
  }

  lemma KeepCons(call: Call, rest: seq<Call>, n: nat)
    ensures Keep([call] + rest, n) == When(Owned(n, call), call) + Keep(rest, n)
  {
    assert ([call] + rest)[1..] == rest;
  }

  /** The releases of a rollback are those of a session, in a session's order, for what is owned. */
  lemma KeepOrder(stopped: bool, n: nat)
    ensures Keep(RetirementOrder(stopped), n)
         == When(n >= 4, DestroyReader)
          + (When(n >= 2, StopRuntime(stopped))
          + (When(n >= 3, DestroyClient)
          + (When(n >= 1, CloseHandles)
          + [DestroyRuntime, CloseLibrary])))
  {
    var order := RetirementOrder(stopped);
    KeepCons(DestroyReader, order[1..], n);
    KeepCons(StopRuntime(stopped), order[2..], n);
    KeepCons(DestroyClient, order[3..], n);
    KeepCons(CloseHandles, order[4..], n);
    KeepCons(DestroyRuntime, order[5..], n);
    KeepCons(CloseLibrary, [], n);
    assert order == [DestroyReader] + order[1..] && order[1..] == [StopRuntime(stopped)] + order[2..];
    assert order[2..] == [DestroyClient] + order[3..] && order[3..] == [CloseHandles] + order[4..];
    assert order[4..] == [DestroyRuntime] + order[5..] && order[5..] == [CloseLibrary] + [];
  }

  /** The calls of a failed start, spelled out. */
  lemma RollbackSpelled(stopped: bool, n: nat)
    requires n <= 4
    ensures var calls := ACQUISITION[..n] + Keep(RetirementOrder(stopped), n);
            && (n == 0 ==> calls == [DestroyRuntime, CloseLibrary])
            && (n == 1 ==> calls == [GetHandles, CloseHandles, DestroyRuntime, CloseLibrary])
            && (n == 2 ==> calls == [GetHandles, StartRuntime,
                                     StopRuntime(stopped), CloseHandles, DestroyRuntime, CloseLibrary])
            && (n == 3 ==> calls == [GetHandles, StartRuntime, CreateClient,
                                     StopRuntime(stopped), DestroyClient, CloseHandles, DestroyRuntime, CloseLibrary])
            && (n == 4 ==> calls == [GetHandles, StartRuntime, CreateClient, CreateReader, DestroyReader,
                                     StopRuntime(stopped), DestroyClient, CloseHandles, DestroyRuntime, CloseLibrary])
  {
    KeepOrder(stopped, n);
  }

  /** The calls of a start that fails so, `reader` being whether Core handed one out and `stopped` what it answers to a stop. */
  function FailedCalls(e: Failure, reader: bool, stopped: bool): seq<Call> {
    match e
    case StartRefused(_) => [GetHandles, CloseHandles, DestroyRuntime, CloseLibrary]
    case ClientRefused => [GetHandles, StartRuntime, StopRuntime(stopped), CloseHandles, DestroyRuntime, CloseLibrary]
    case ReaderRefused(_) =>
      [GetHandles, StartRuntime, CreateClient] + (if reader then [CreateReader, DestroyReader] else [])
      + [StopRuntime(stopped), DestroyClient, CloseHandles, DestroyRuntime, CloseLibrary]
    case ReaderMissing =>
      [GetHandles, StartRuntime, CreateClient,
       StopRuntime(stopped), DestroyClient, CloseHandles, DestroyRuntime, CloseLibrary]
    case _ => [DestroyRuntime, CloseLibrary]
  }

  /** How many resources are acquired where a start fails so. */
  function AcquiredBefore(e: Failure, reader: bool): nat {
    match e
    case StartRefused(_) => 1
    case ClientRefused => 2
    case ReaderRefused(_) => if reader then 4 else 3
    case ReaderMissing => 3
    case _ => 0
  }

  /** Rolls back and fails. */
  method FailWith(e: Failure, made: seq<Call>, reader: bool, started: bool, client: bool, handlesOwned: bool, stop: int,
                  ghost n: nat)
    returns (r: Result<(), Failure>, calls: seq<Call>)
    requires n == AcquiredBefore(e, reader) && made == ACQUISITION[..n]
    requires reader == (n >= 4) && client == (n >= 3) && started == (n >= 2) && handlesOwned == (n >= 1)
    ensures r == Err(e)
    ensures calls == ACQUISITION[..n] + Keep(RetirementOrder(stop == STATUS_OK), n)
    ensures calls == FailedCalls(e, reader, stop == 0)
  {
    calls := RollBack(made, reader, started, client, handlesOwned, stop, n);
    RollbackSpelled(stop == STATUS_OK, n);
    r := Err(e);
  }

  /**
   Creates a host after native creation. It succeeds exactly if every step does,
   and fails with the first step that does not.
   */
  method Start(script: Script) returns (r: Result<(), Failure>, calls: seq<Call>)
    ensures r.Ok? <==>
              && script.network && script.security != Some(false) && script.routes && script.handles == 0
              && script.start == 0 && script.client && script.readerStatus == 0 && script.reader
    ensures r == Err(NetworkRefused) <==> !script.network
    ensures r == Err(SecurityRefused) <==> script.network && script.security == Some(false)
    ensures r == Err(RoutesRefused) <==> script.network && script.security != Some(false) && !script.routes
    ensures var configured := script.network && script.security != Some(false) && script.routes;
            var running := configured && script.handles == 0 && script.start == 0;
            && (r == Err(HandlesRefused(script.handles)) <==> configured && script.handles != 0)
            && (r == Err(StartRefused(script.start)) <==> configured && script.handles == 0 && script.start != 0)
            && (r == Err(ClientRefused) <==> running && !script.client)
            && (r == Err(ReaderRefused(script.readerStatus)) <==> running && script.client && script.readerStatus != 0)
            && (r == Err(ReaderMissing) <==> running && script.client && script.readerStatus == 0 && !script.reader)
    ensures r.Ok? ==> calls == [GetHandles, StartRuntime, CreateClient, CreateReader]
    ensures r.Err? ==> calls == ACQUISITION[..Acquired(script)]
                                + Keep(RetirementOrder(script.stop == STATUS_OK), Acquired(script))
    ensures r.Ok? <==> Succeeds(script)
    ensures r.Err? ==> calls == FailedCalls(r.error, script.reader, script.stop == 0)
  {
    calls := [];
    if !script.network {
      r, calls := FailWith(NetworkRefused, calls, false, false, false, false, script.stop, 0);
      return;
    }
    if script.security == Some(false) {
      r, calls := FailWith(SecurityRefused, calls, false, false, false, false, script.stop, 0);
      return;
    }
    if !script.routes {
      r, calls := FailWith(RoutesRefused, calls, false, false, false, false, script.stop, 0);
      return;
    }
    if script.handles != STATUS_OK {
      r, calls := FailWith(HandlesRefused(script.handles), calls, false, false, false, false, script.stop, 0);
      return;
    }
    calls := calls + [GetHandles];
    if script.start != STATUS_OK {
      r, calls := FailWith(StartRefused(script.start), calls, false, false, false, true, script.stop, 1);
      return;
    }
    calls := calls + [StartRuntime];
    if !script.client {
      r, calls := FailWith(ClientRefused, calls, false, true, false, true, script.stop, 2);
      return;
    }
    calls := calls + [CreateClient];
    if script.reader {
      calls := calls + [CreateReader];
    }
    ghost var n := if script.reader then 4 else 3;
    if script.readerStatus != STATUS_OK {
      r, calls := FailWith(ReaderRefused(script.readerStatus), calls, script.reader, true, true, true, script.stop, n);
      return;
    }
    if !script.reader {
      r, calls := FailWith(ReaderMissing, calls, script.reader, true, true, true, script.stop, n);
      return;
    }
    r := Ok(());
  }

  /** The catch clause of start. `n` says how many acquisitions the flags stand for. */
  method RollBack(made: seq<Call>, reader: bool, started: bool, client: bool, handlesOwned: bool, stop: int, ghost n: nat)
    returns (calls: seq<Call>)
    requires reader == (n >= 4) && client == (n >= 3) && started == (n >= 2) && handlesOwned == (n >= 1)
    requires n <= 4 && made == ACQUISITION[..n]
    ensures calls == ACQUISITION[..n] + Keep(RetirementOrder(stop == STATUS_OK), n)
  {
    KeepOrder(stop == STATUS_OK, n);
    calls := [];
    if reader {
      calls := calls + [DestroyReader];
    }
    if started {
      calls := calls + [StopRuntime(stop == STATUS_OK)];
    }
    if client {
      calls := calls + [DestroyClient];
    }
    if handlesOwned {
      calls := calls + [CloseHandles];
    }
    calls := calls + [DestroyRuntime];
    calls := calls + [CloseLibrary];
    assert calls == Keep(RetirementOrder(stop == STATUS_OK), n);
    calls := made + calls;
  }

  /** Core once the first `n` resources are acquired. */
  function Holding(n: nat): Core
    requires n <= 4
  {
    var c := NEW_RUNTIME;
    if n == 0 then c
    else if n == 1 then c.(handles := Live)
    else if n == 2 then c.(handles := Live, lifecycle := Started)
    else if n == 3 then c.(handles := Live, lifecycle := Started, client := Live)
    else ADOPTED
  }

  lemma AcquisitionLegal(n: nat)
    requires n <= 4
    ensures Exec(Some(NEW_RUNTIME), ACQUISITION[..n]) == Some(Holding(n))
  {
    if n > 0 {
      AcquisitionLegal(n - 1);
      assert ACQUISITION[..n] == ACQUISITION[..n - 1] + [ACQUISITION[n - 1]];
      ExecConcat(Some(NEW_RUNTIME), ACQUISITION[..n - 1], [ACQUISITION[n - 1]]);
      ExecOne(Holding(n - 1), ACQUISITION[n - 1]);
    }
  }

  function AfterRelease(c: Core, owned: bool, call: Call): Core {
    if owned then After(c, call) else c
  }

  lemma ReleaseFirst(c: Core, owned: bool, call: Call, rest: seq<Call>)
    requires owned ==> Allowed(c, call)
    ensures Exec(Some(c), When(owned, call) + rest) == Exec(Some(AfterRelease(c, owned, call)), rest)
  {
    if owned {
      ExecCons(c, call, rest);
    } else {
      assert [] + rest == rest;
    }
  }

  predicate EndsReleased(c: Core, calls: seq<Call>) {
    var d := Exec(Some(c), calls);
    d.Some? && NothingLive(d.value)
  }

  lemma EndLegal(c: Core)
    requires Allowed(c, DestroyRuntime) && c.library == Live && !c.frame
    ensures EndsReleased(c, [DestroyRuntime, CloseLibrary])
  {
    assert [DestroyRuntime, CloseLibrary] == [DestroyRuntime] + [CloseLibrary];
    ExecCons(c, DestroyRuntime, [CloseLibrary]);
    ExecOne(After(c, DestroyRuntime), CloseLibrary);
  }

  lemma HandlesThenEnd(c: Core, n: nat)
    requires c.library == Live && !c.frame && c.reader != Live && c.client != Live
    requires c.lifecycle == Created || c.lifecycle == Stopped || (c.lifecycle == Started && c.stopTried)
    requires c.handles == Live <==> n >= 1
    ensures EndsReleased(c, When(n >= 1, CloseHandles) + [DestroyRuntime, CloseLibrary])
  {
    ReleaseFirst(c, n >= 1, CloseHandles, [DestroyRuntime, CloseLibrary]);
    EndLegal(AfterRelease(c, n >= 1, CloseHandles));
  }

  /** Rolling back from any point is legal and leaves nothing live. */
  lemma RollbackLegal(n: nat, stopped: bool)
    requires n <= 4
    ensures EndsReleased(Holding(n), Keep(RetirementOrder(stopped), n))
  {
    KeepOrder(stopped, n);
    var c := AfterRelease(Holding(n), n >= 4, DestroyReader);
    ReleaseFirst(Holding(n), n >= 4, DestroyReader, AfterReader(n, stopped));
    StoppedThenEnd(c, n, stopped);
  }

  /** What a rollback does once no reader is live. */
  function AfterReader(n: nat, stopped: bool): seq<Call> {
    When(n >= 2, StopRuntime(stopped))
    + (When(n >= 3, DestroyClient)
    + (When(n >= 1, CloseHandles)
    + [DestroyRuntime, CloseLibrary]))
  }

  lemma StoppedThenEnd(c: Core, n: nat, stopped: bool)
    requires n <= 4 && c == AfterRelease(Holding(n), n >= 4, DestroyReader)
    ensures EndsReleased(c, AfterReader(n, stopped))
  {
    var handles := When(n >= 1, CloseHandles) + [DestroyRuntime, CloseLibrary];
    var client := When(n >= 3, DestroyClient) + handles;
    var d := AfterRelease(c, n >= 2, StopRuntime(stopped));
    ReleaseFirst(c, n >= 2, StopRuntime(stopped), client);
    ReleaseFirst(d, n >= 3, DestroyClient, handles);
    HandlesThenEnd(AfterRelease(d, n >= 3, DestroyClient), n);
  }

  /**
   Start is all or nothing: it hands the session exactly the objects a session
   starts from, or, failing at any step, leaves Core without a live object; in
   both cases every call met its precondition and no release happened twice.
   */
  lemma AllOrNothing(script: Script)
    ensures Succeeds(script) ==> Exec(Some(NEW_RUNTIME), ACQUISITION) == Some(ADOPTED)
    ensures var calls := ACQUISITION[..Acquired(script)]
                       + Keep(RetirementOrder(script.stop == STATUS_OK), Acquired(script));
            !Succeeds(script) ==>
              && EndsReleased(NEW_RUNTIME, calls)
              && forall i, j :: 0 <= i < j < |calls| && OneWay(calls[i]) ==> calls[i] != calls[j]
  {
    var n := Acquired(script);
    AcquisitionLegal(n);
    if Succeeds(script) {
      assert ACQUISITION[..4] == ACQUISITION;
    } else {
      var rollback := Keep(RetirementOrder(script.stop == STATUS_OK), n);
      RollbackLegal(n, script.stop == STATUS_OK);
      ExecConcat(Some(NEW_RUNTIME), ACQUISITION[..n], rollback);
      var calls := ACQUISITION[..n] + rollback;
      forall i, j | 0 <= i < j < |calls| && OneWay(calls[i])
        ensures calls[i] != calls[j]
      {
        ReleasedOnce(NEW_RUNTIME, calls, calls[i], i, j);
      }
    }
  }
}
