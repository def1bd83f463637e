/**
 The native Core as its headers describe it to a host: which calls are allowed
 in which state of its objects. A host's log of calls is legal when every call
 of it finds its precondition met. Nothing here says when Core succeeds.
 */
module NativeCore {
  import opened Wrappers

  datatype Resource = Absent | Live | Gone

  datatype Lifecycle = Created | Started | Stopped | Destroyed

  datatype TicketState = Idle | Waiting | Released

  datatype Core = Core(
    lifecycle: Lifecycle,
    stopTried: bool,
    handles: Resource,
    client: Resource,
    reader: Resource,
    frame: bool,
    tickets: map<nat, TicketState>,
    library: Resource,
    signalled: bool)

  /** The calls a host makes, with what Core answered where that matters later. */
  datatype Call =
    | GetHandles
    | StartRuntime
    | CreateClient
    | CreateReader
    | ReadFrame(frame: bool)
    | ReleaseFrame
    | DestroyReader
    | StopRuntime(ok: bool)
    | UseRuntime
    | BeginAsk(ticket: Option<nat>)
    | StartAwait(t: nat)
    | EndAwait(t: nat)
    | CancelAsk(t: nat)
    | DestroyAsk(t: nat)
    | DestroyClient
    | CloseHandles
    | DestroyRuntime
    | CloseLibrary
    | SignalRetired

  predicate Allowed(c: Core, call: Call) {
    match call
    case GetHandles => c.lifecycle == Created && c.handles == Absent
    case StartRuntime => c.lifecycle == Created && c.handles == Live
    case CreateClient => c.lifecycle == Started && c.handles == Live && c.client == Absent
    case CreateReader => c.lifecycle == Started && c.handles == Live && c.reader == Absent
    case ReadFrame(_) => c.lifecycle == Started && c.reader == Live && !c.frame
    case ReleaseFrame => c.reader == Live && c.frame
    case DestroyReader => c.reader == Live && !c.frame
    case StopRuntime(_) => c.lifecycle == Started && c.reader != Live
    case UseRuntime => c.lifecycle == Started && !c.stopTried
    case BeginAsk(ticket) =>
      c.lifecycle == Started && !c.stopTried && c.client == Live && (ticket.Some? ==> ticket.value !in c.tickets)
    case StartAwait(t) => c.client == Live && t in c.tickets && c.tickets[t] == Idle
    case EndAwait(t) => c.client == Live && t in c.tickets && c.tickets[t] == Waiting
    case CancelAsk(t) => c.client == Live && t in c.tickets && c.tickets[t] == Idle
    case DestroyAsk(t) => c.client == Live && t in c.tickets && c.tickets[t] == Idle
    case DestroyClient => c.client == Live && forall t :: t in c.tickets ==> c.tickets[t] == Released
    case CloseHandles => c.handles == Live && c.client != Live && c.reader != Live
    case DestroyRuntime =>
      && (c.lifecycle == Created || c.lifecycle == Stopped || (c.lifecycle == Started && c.stopTried))
      && c.handles != Live && c.client != Live && c.reader != Live
    case CloseLibrary => c.library == Live && c.lifecycle == Destroyed
    case SignalRetired => c.library == Gone && !c.signalled
  }

  function After(c: Core, call: Call): Core {
    match call
    case GetHandles => c.(handles := Live)
    case StartRuntime => c.(lifecycle := Started)
    case CreateClient => c.(client := Live)
    case CreateReader => c.(reader := Live)
    case ReadFrame(frame) => c.(frame := frame)
    case ReleaseFrame => c.(frame := false)
    case DestroyReader => c.(reader := Gone)
    case StopRuntime(ok) => if ok then c.(lifecycle := Stopped, stopTried := true) else c.(stopTried := true)
    case UseRuntime => c
    case BeginAsk(ticket) => if ticket.Some? then c.(tickets := c.tickets[ticket.value := Idle]) else c
    case StartAwait(t) => c.(tickets := c.tickets[t := Waiting])
    case EndAwait(t) => c.(tickets := c.tickets[t := Idle])
    case CancelAsk(t) => c
    case DestroyAsk(t) => c.(tickets := c.tickets[t := Released])
    case DestroyClient => c.(client := Gone)
    case CloseHandles => c.(handles := Gone)
    case DestroyRuntime => c.(lifecycle := Destroyed)
    case CloseLibrary => c.(library := Gone)
    case SignalRetired => c.(signalled := true)
  }

  /** Core after a log of calls, or `None` once a call broke its precondition. */
  function Exec(c: Option<Core>, log: seq<Call>): Option<Core>
    decreases |log|
  {
    if log == [] || c.None? then c
    else if Allowed(c.value, log[0]) then Exec(Some(After(c.value, log[0])), log[1..])
    else None
  }

  /** A runtime that native creation has just returned. */
  const NEW_RUNTIME := Core(Created, false, Absent, Absent, Absent, false, map[], Live, false)

  /** The state in which a started host hands everything to its session. */
  const ADOPTED := Core(Started, false, Live, Live, Live, false, map[], Live, false)

  /** What a failed start leaves behind: nothing live. */
  predicate NothingLive(c: Core) {
    && c.lifecycle == Destroyed && c.library == Gone && !c.frame
    && c.handles != Live && c.client != Live && c.reader != Live
  }

  lemma {:induction false} ExecConcat(c: Option<Core>, a: seq<Call>, b: seq<Call>)
    ensures Exec(c, a + b) == Exec(Exec(c, a), b)
    decreases |a|
  {
    if a == [] {
      assert a + b == b;
    } else if c.Some? && Allowed(c.value, a[0]) {
      assert (a + b)[1..] == a[1..] + b;
      ExecConcat(Some(After(c.value, a[0])), a[1..], b);
    }
  }

  lemma ExecOne(c: Core, call: Call)
    ensures Exec(Some(c), [call]) == if Allowed(c, call) then Some(After(c, call)) else None
  {
    assert [call][1..] == [];
  }

  lemma ExecCons(c: Core, call: Call, rest: seq<Call>)
    requires Allowed(c, call)
    ensures Exec(Some(c), [call] + rest) == Exec(Some(After(c, call)), rest)
  {
    assert ([call] + rest)[1..] == rest;
  }

  lemma LegalPrefix(c: Core, log: seq<Call>, k: nat)
    requires Exec(Some(c), log).Some? && k <= |log|
    ensures Exec(Some(c), log[..k]).Some?
    ensures k < |log| ==> Allowed(Exec(Some(c), log[..k]).value, log[k])
  {
    assert log == log[..k] + log[k..];
    ExecConcat(Some(c), log[..k], log[k..]);
  }

  // ----- What a legal log says about releases

  /** The release has happened and cannot happen again. */
  predicate ReleaseDone(c: Core, call: Call) {
    match call
    case DestroyReader => c.reader == Gone
    case DestroyClient => c.client == Gone
    case CloseHandles => c.handles == Gone
    case DestroyRuntime => c.lifecycle == Destroyed
    case CloseLibrary => c.library == Gone
    case SignalRetired => c.signalled
    case _ => false
  }

  predicate OneWay(call: Call) {
    || call.DestroyReader? || call.DestroyClient? || call.CloseHandles?
    || call.DestroyRuntime? || call.CloseLibrary? || call.SignalRetired?
  }

  lemma ReleaseStep(c: Core, call: Call, release: Call)
    requires OneWay(release) && Allowed(c, call)
    ensures ReleaseDone(c, release) ==> call != release && ReleaseDone(After(c, call), release)
    ensures !ReleaseDone(c, release) ==> (call == release <==> ReleaseDone(After(c, call), release))
  {
  }

  /** A release that a legal log contains is done at its end; one that is done, and was not at first, is in it. */
  lemma {:induction false} ReleasedIffLogged(c: Core, log: seq<Call>, release: Call)
    requires OneWay(release) && Exec(Some(c), log).Some?
    ensures ReleaseDone(c, release) ==> release !in log && ReleaseDone(Exec(Some(c), log).value, release)
    ensures !ReleaseDone(c, release) ==> (release in log <==> ReleaseDone(Exec(Some(c), log).value, release))
    decreases |log|
  {
    if log != [] {
      ReleaseStep(c, log[0], release);
      ReleasedIffLogged(After(c, log[0]), log[1..], release);
      assert release in log <==> release == log[0] || release in log[1..];
    }
  }

  /** No release happens twice in a legal log. */
  lemma ReleasedOnce(c: Core, log: seq<Call>, release: Call, i: nat, j: nat)
    requires OneWay(release) && Exec(Some(c), log).Some?
    requires i < j < |log| && log[i] == release
    ensures log[j] != release
  {
    LegalPrefix(c, log, i + 1);
    LegalPrefix(c, log, i);
    var before := Exec(Some(c), log[..i]).value;
    ExecConcat(Some(c), log[..i], [log[i]]);
    assert log[..i + 1] == log[..i] + [log[i]];
    ExecOne(before, log[i]);
    ExecConcat(Some(c), log[..i + 1], log[i + 1..]);
    assert log == log[..i + 1] + log[i + 1..];
    ReleasedIffLogged(After(before, log[i]), log[i + 1..], release);
    assert log[j] == log[i + 1..][j - i - 1];
  }

  /** Each release of a legal log that started from an adopted runtime comes after those it depends on. */
  lemma ReleaseOrder(log: seq<Call>, k: nat)
    requires Exec(Some(ADOPTED), log).Some? && k < |log|
    ensures log[k].StopRuntime? ==> DestroyReader in log[..k]
    ensures log[k].CloseHandles? ==> DestroyClient in log[..k] && DestroyReader in log[..k]
    ensures log[k].DestroyRuntime? ==> CloseHandles in log[..k] && DestroyClient in log[..k]
    ensures log[k].CloseLibrary? ==> DestroyRuntime in log[..k]
    ensures log[k].SignalRetired? ==> CloseLibrary in log[..k]
  {
    LegalPrefix(ADOPTED, log, k);
    ResourcesStay(ADOPTED, log[..k]);
    ReleasedIffLogged(ADOPTED, log[..k], DestroyReader);
    ReleasedIffLogged(ADOPTED, log[..k], DestroyClient);
    ReleasedIffLogged(ADOPTED, log[..k], CloseHandles);
    ReleasedIffLogged(ADOPTED, log[..k], DestroyRuntime);
    ReleasedIffLogged(ADOPTED, log[..k], CloseLibrary);
  }

  lemma {:induction false} ResourcesStay(c: Core, log: seq<Call>)
    requires Exec(Some(c), log).Some?
    requires c.handles != Absent && c.client != Absent && c.reader != Absent
    ensures var d := Exec(Some(c), log).value; d.handles != Absent && d.client != Absent && d.reader != Absent
    decreases |log|
  {
    if log != [] {
      ResourceStep(c, log[0]);
      ResourcesStay(After(c, log[0]), log[1..]);
    }
  }

  lemma ResourceStep(c: Core, call: Call)
    requires Allowed(c, call)
    ensures c.handles != Absent ==> After(c, call).handles != Absent
    ensures c.client != Absent ==> After(c, call).client != Absent
    ensures c.reader != Absent ==> After(c, call).reader != Absent
  {
  }

  // ----- What a legal log says about stopping

  predicate StopOver(c: Core) {
    c.lifecycle == Stopped || c.lifecycle == Destroyed
  }

  lemma {:induction false} StopStays(c: Core, log: seq<Call>)
    requires Exec(Some(c), log).Some?
    ensures c.stopTried ==> Exec(Some(c), log).value.stopTried
    ensures StopOver(c) ==> StopOver(Exec(Some(c), log).value)
    decreases |log|
  {
    if log != [] {
      StopStep(c, log[0]);
      StopStays(After(c, log[0]), log[1..]);
    }
  }

  lemma StopStep(c: Core, call: Call)
    requires Allowed(c, call)
    ensures c.stopTried ==> After(c, call).stopTried
    ensures StopOver(c) ==> StopOver(After(c, call))
  {
  }

  /** A stop attempt seals the runtime against new work, and a successful one against further stops. */
  lemma StopSeals(c: Core, log: seq<Call>, i: nat, j: nat)
    requires Exec(Some(c), log).Some?
    requires i < j < |log| && log[i].StopRuntime?
    ensures !log[j].UseRuntime? && !log[j].BeginAsk?
    ensures log[i].ok ==> !log[j].StopRuntime?
  {
    LegalPrefix(c, log, i);
    LegalPrefix(c, log, j);
    var before := Exec(Some(c), log[..i]).value;
    assert log[..j] == log[..i] + ([log[i]] + log[i + 1..j]);
    ExecConcat(Some(c), log[..i], [log[i]] + log[i + 1..j]);
    ExecCons(before, log[i], log[i + 1..j]);
    StopStays(After(before, log[i]), log[i + 1..j]);
  }

  lemma {:induction false} TicketsLogged(c: Core, log: seq<Call>, t: nat)
    requires Exec(Some(c), log).Some?
    ensures var d := Exec(Some(c), log).value;
            && (t in c.tickets ==> t in d.tickets)
            && (BeginAsk(Some(t)) in log ==> t in d.tickets)
            && (t in d.tickets && d.tickets[t] == Released ==>
                  DestroyAsk(t) in log || (t in c.tickets && c.tickets[t] == Released))
    decreases |log|
  {
    if log != [] {
      TicketsLogged(After(c, log[0]), log[1..], t);
      assert forall call :: call in log <==> call == log[0] || call in log[1..];
    }
  }

  /** Every ticket that was begun is destroyed before its client is. */
  lemma TicketsBeforeClient(c: Core, log: seq<Call>, i: nat, k: nat, t: nat)
    requires Exec(Some(c), log).Some? && t !in c.tickets
    requires i < k < |log| && log[i] == BeginAsk(Some(t)) && log[k].DestroyClient?
    ensures DestroyAsk(t) in log[..k]
  {
    LegalPrefix(c, log, k);
    TicketsLogged(c, log[..k], t);
    assert log[..k][i] == BeginAsk(Some(t));
  }
}
