/**
 The borrow and drain protocol of a stream lane as a transition system: any
 number of threads read, admit, cancel, forget, close and release callback
 roots, interleaved at the granularity of the lane condition's critical
 sections. A file lane runs the same protocol without mutations.

 A thread is a stack of frames, each a call in progress with the roots that its
 locals keep alive. A root that loses its last owner in a step runs its deinit
 there and then: `Do` puts a finalizer's frame on the stack of the thread that
 took the step, and application code in it may call the lane again.

 Core is the environment. It keeps callback records under the spelling it was
 called with, may drop any of them at any time, and answers as it likes within
 its documented contract: it says that it has no record only when it has none,
 it reports success only for a callback that it took, and an error only for one
 that it did not take.
 */
module LaneProtocol {
  import opened Wrappers
  import opened CallbackTable
  import opened LaneGate

  type Tid = nat

  /** What a call does while it holds the lane condition. */
  datatype Mutation =
    | Admitting(key: Key, root: Root)
    | Controlling(key: Key, forget: bool)

  datatype Pc =
    | Outside                                          // no call in progress
    | Borrowed(todo: Option<Mutation>)                 // counted; about to run its body
    | Mutating(now: Mutation)                          // holds the condition
    | Calling(key: Key, root: Root, taken: bool)       // holds the condition; Core is admitting the candidate
    | Forgetting(key: Key)                             // holds the condition; Core forgot the record
    | Unlocking                                        // holds the condition; its body is done
    | Ending                                           // about to give the borrow back
    | Stopping                                         // sealed admission; inside native stop
    | Draining(asleep: bool)                           // waits for the last borrow
    | Detaching                                        // holds the condition; Core's lane is destroyed
    | Finishing                                        // holds the condition; the table is detached
    | Awaiting(asleep: bool)                           // waits for another thread's close
    | Exiting                                          // leaving the call's scope, letting go of its locals
    | Finalizing                                       // inside the deinit of a root

  /** A call in progress, and the callback roots its locals keep alive: its own and those retired to it. */
  datatype Frame = Frame(pc: Pc, roots: set<Root>)

  /** The calls of one thread, the running one last. */
  type Stack = seq<Frame>

  datatype State = State(
    open: bool,
    closing: bool,
    activeCalls: int,
    lock: Option<Tid>,
    table: Table,
    threads: map<Tid, Stack>,
    records: map<Key, Root>,    // what Core holds
    stops: nat,                 // native stops that returned
    destroys: nat,
    closer: Option<Tid>)        // the thread that sealed admission

  const START := State(OPENED.open, OPENED.closing, OPENED.activeCalls, None, map[], map[], map[], 0, 0, None)

  /**
   A lane's canonical form, capacity and session ids. An exact Core also keeps to
   the capacity, knows precisely which records it has and always answers.
   */
  datatype Config = Config(canon: Canon, capacity: nat, ids: iset<string>, exact: bool)

  function Limit(c: Config): nat {
    c.capacity + 1
  }

  /** `handed` are the roots that a change of the table hands to the thread that makes it. */
  datatype Action =
    // any thread
    | Call(t: Tid, todo: Option<Mutation>)
    | Read(t: Tid)
    | Lock(t: Tid)
    | GiveBack(t: Tid)
    | Release(t: Tid, root: Root)
    | Return(t: Tid)
    // under the condition
    | Abandon(t: Tid)
    | Offer(t: Tid, presence: Key -> int, handed: set<Root>)
    | CallReturns(t: Tid, outcome: Outcome, presence: Key -> int, handed: set<Root>)
    | ControlReturns(t: Tid, status: int)
    | ForgetOwner(t: Tid, handed: set<Root>)
    | Unlock(t: Tid)
    // a caller of close
    | CallClose(t: Tid)
    | StopReturns(t: Tid)
    | Drain(t: Tid)
    | Detach(t: Tid)
    | FinishClose(t: Tid)
    | Recheck(t: Tid)
    | WakeSpuriously(t: Tid)
    // Core
    | Take(t: Tid)
    | Evict(key: Key)

  // ----- Threads

  function StackOf(s: State, t: Tid): Stack {
    if t in s.threads then s.threads[t] else []
  }

  function TopPc(stack: Stack): Pc {
    if stack == [] then Outside else stack[|stack| - 1].pc
  }

  function TopRoots(stack: Stack): set<Root> {
    if stack == [] then {} else stack[|stack| - 1].roots
  }

  function PcOf(s: State, t: Tid): Pc {
    TopPc(StackOf(s, t))
  }

  function RootsOf(s: State, t: Tid): set<Root> {
    TopRoots(StackOf(s, t))
  }

  function Pop(stack: Stack): Stack {
    if stack == [] then [] else stack[..|stack| - 1]
  }

  function SetTop(stack: Stack, frame: Frame): Stack {
    Pop(stack) + [frame]
  }

  /** Application code runs on the thread: no call is in progress, or a root's deinit is. */
  predicate AppRuns(pc: Pc) {
    pc.Outside? || pc.Finalizing?
  }

  predicate AtExit(pc: Pc) {
    pc.Exiting? || pc.Finalizing?
  }

  function Put(s: State, t: Tid, stack: Stack): State {
    s.(threads := s.threads[t := stack])
  }

  /** The running call of `t` goes on to `pc`. */
  function Move(s: State, t: Tid, pc: Pc): State {
    Put(s, t, SetTop(StackOf(s, t), Frame(pc, RootsOf(s, t))))
  }

  function Push(s: State, t: Tid, frame: Frame): State {
    Put(s, t, StackOf(s, t) + [frame])
  }

  /** Changes the table; the running call of `t` takes over the roots that the change hands out. */
  function Swap(s: State, t: Tid, pc: Pc, table: Table, handed: set<Root>): State {
    Put(s, t, SetTop(StackOf(s, t), Frame(pc, RootsOf(s, t) + handed))).(table := table)
  }

  function Woken(pc: Pc): Pc {
    if pc == Draining(true) then Draining(false)
    else if pc == Awaiting(true) then Awaiting(false)
    else pc
  }

  function Wake(stack: Stack): Stack {
    if stack == [] then [] else SetTop(stack, Frame(Woken(TopPc(stack)), TopRoots(stack)))
  }

  function Broadcast(s: State): State {
    s.(threads := map t | t in s.threads :: Wake(s.threads[t]))
  }

  // ----- The lane's fields

  function GateOf(s: State): Gate {
    Gate(s.open, s.closing, s.activeCalls)
  }

  function SetGate(s: State, g: Gate): State {
    s.(open := g.open, closing := g.closing, activeCalls := g.activeCalls)
  }

  // ----- What Core may answer

  ghost predicate Truthful(c: Config, s: State, presence: Key -> int) {
    && (forall k :: presence(k) == BAD_STATE ==> k !in s.records)
    && (c.exact ==> forall k :: k !in s.records ==> presence(k) == BAD_STATE)
  }

  /** The answers of a Core that knows its records exactly. */
  function Knows(records: map<Key, Root>): Key -> int {
    k => if k in records then STATUS_OK else BAD_STATE
  }

  predicate Honest(c: Config, taken: bool, outcome: Outcome) {
    && (outcome == Answered(STATUS_OK) ==> taken)
    && (outcome.Answered? && outcome.status != STATUS_OK ==> !taken)
    && (c.exact ==> outcome.Answered?)
  }

  // ----- What the owner of the callbacks does, as its methods promise

  function Offered(c: Config, s: State, now: Mutation, presence: Key -> int): Publication
    requires now.Admitting?
  {
    Publish(c.canon, Limit(c), s.table, now.key, now.root, presence)
  }

  predicate OfferHands(t: Table, root: Root, p: Publication, handed: set<Root>) {
    if p.Refused? then handed == {} else HandsOver(Roots(t) + {root}, Roots(p.table), handed)
  }

  function Settlement(c: Config, s: State, key: Key, outcome: Outcome, presence: Key -> int): Table {
    var k := Canonical(c.canon, key);
    if k in s.table then Settle(s.table, k, outcome, presence) else s.table
  }

  function Forgotten(c: Config, s: State, key: Key): Table {
    Forget(s.table, Canonical(c.canon, key))
  }

  ghost predicate Enabled(c: Config, s: State, a: Action) {
    match a
    case Call(t, todo) => AppRuns(PcOf(s, t)) && s.lock.None? && (todo.Some? ==> todo.value.key.id in c.ids)
    case Read(t) => PcOf(s, t) == Borrowed(None)
    case Lock(t) => PcOf(s, t).Borrowed? && PcOf(s, t).todo.Some? && s.lock.None?
    case GiveBack(t) => PcOf(s, t).Ending? && s.lock.None?
    case Release(t, root) => AtExit(PcOf(s, t)) && root in RootsOf(s, t)
    case Return(t) => AtExit(PcOf(s, t)) && RootsOf(s, t) == {}
    case Abandon(t) => PcOf(s, t).Mutating? && PcOf(s, t).now.Admitting?
    case Offer(t, presence, handed) =>
      && PcOf(s, t).Mutating? && PcOf(s, t).now.Admitting? && Truthful(c, s, presence)
      && OfferHands(s.table, PcOf(s, t).now.root, Offered(c, s, PcOf(s, t).now, presence), handed)
    case CallReturns(t, outcome, presence, handed) =>
      && PcOf(s, t).Calling? && Honest(c, PcOf(s, t).taken, outcome) && Truthful(c, s, presence)
      && HandsOver(Roots(s.table), Roots(Settlement(c, s, PcOf(s, t).key, outcome, presence)), handed)
    case ControlReturns(t, _) => PcOf(s, t).Mutating? && PcOf(s, t).now.Controlling?
    case ForgetOwner(t, handed) =>
      PcOf(s, t).Forgetting? && HandsOver(Roots(s.table), Roots(Forgotten(c, s, PcOf(s, t).key)), handed)
    case Unlock(t) => PcOf(s, t).Unlocking?
    case CallClose(t) => AppRuns(PcOf(s, t)) && s.lock.None?
    case StopReturns(t) => PcOf(s, t).Stopping?
    case Drain(t) => PcOf(s, t) == Draining(false) && s.lock.None?
    case Detach(t) => PcOf(s, t).Detaching?
    case FinishClose(t) => PcOf(s, t).Finishing?
    case Recheck(t) => PcOf(s, t) == Awaiting(false) && s.lock.None?
    case WakeSpuriously(t) => PcOf(s, t) == Draining(true) || PcOf(s, t) == Awaiting(true)
    case Take(t) =>
      && PcOf(s, t).Calling?
      && (c.exact ==> |s.records[PcOf(s, t).key := PcOf(s, t).root]| <= c.capacity)
    case Evict(key) => key in s.records
  }

  function CallerRoots(todo: Option<Mutation>): set<Root> {
    if todo.Some? && todo.value.Admitting? then {todo.value.root} else {}
  }

  /** The call is on its way in, or turned away. */
  function DoCall(s: State, t: Tid, todo: Option<Mutation>): State {
    var (g, admitted) := Enter(GateOf(s));
    SetGate(Push(s, t, Frame(if admitted then Borrowed(todo) else Exiting, CallerRoots(todo))), g)
  }

  function DoGiveBack(s: State, t: Tid): State {
    var (g, broadcast) := Leave(GateOf(s));
    var next := SetGate(Move(s, t, Exiting), g);
    if broadcast then Broadcast(next) else next
  }

  function DoCallClose(s: State, t: Tid): State {
    var (g, step) := BeginClose(GateOf(s));
    match step
    case AlreadyClosed => s
    case AnotherCloses => SetGate(Push(s, t, Frame(Awaiting(true), {})), g)
    case Seals => SetGate(Push(s, t, Frame(Stopping, {})), g).(closer := Some(t))
  }

  /** Publishes the candidate of an admission, or ends the body without calling Core. */
  function DoOffer(s: State, t: Tid, now: Mutation, p: Publication, handed: set<Root>): State
    requires now.Admitting?
  {
    if p.Refused? then Move(s, t, Unlocking)
    else Swap(s, t, Calling(now.key, now.root, false), p.table, handed)
  }

  ghost function Step(c: Config, s: State, a: Action): State
    requires Enabled(c, s, a)
  {
    match a
    case Call(t, todo) => DoCall(s, t, todo)
    case Read(t) => Move(s, t, Ending)
    case Lock(t) => Move(s, t, Mutating(PcOf(s, t).todo.value)).(lock := Some(t))
    case GiveBack(t) => DoGiveBack(s, t)
    case Release(t, root) => Put(s, t, SetTop(StackOf(s, t), Frame(PcOf(s, t), RootsOf(s, t) - {root})))
    case Return(t) => Put(s, t, Pop(StackOf(s, t)))
    case Abandon(t) => Move(s, t, Unlocking)
    case Offer(t, presence, handed) =>
      DoOffer(s, t, PcOf(s, t).now, Offered(c, s, PcOf(s, t).now, presence), handed)
    case CallReturns(t, outcome, presence, handed) =>
      Swap(s, t, Unlocking, Settlement(c, s, PcOf(s, t).key, outcome, presence), handed)
    case ControlReturns(t, status) =>
      if status == STATUS_OK && PcOf(s, t).now.forget
      then Move(s, t, Forgetting(PcOf(s, t).now.key)).(records := s.records - {PcOf(s, t).now.key})
      else Move(s, t, Unlocking)
    case ForgetOwner(t, handed) => Swap(s, t, Unlocking, Forgotten(c, s, PcOf(s, t).key), handed)
    case Unlock(t) => Move(s, t, Ending).(lock := None)
    case CallClose(t) => DoCallClose(s, t)
    case StopReturns(t) => Move(s, t, Draining(false)).(stops := s.stops + 1)
    case Drain(t) =>
      if s.activeCalls != 0 then Move(s, t, Draining(true))
      else Move(s, t, Detaching).(lock := Some(t), records := map[], destroys := s.destroys + 1)
    case Detach(t) => Swap(s, t, Finishing, map[], Roots(s.table))
    case FinishClose(t) => Broadcast(SetGate(Move(s, t, Exiting), Closed(GateOf(s))).(lock := None))
    case Recheck(t) => Move(s, t, if s.open then Awaiting(true) else Exiting)
    case WakeSpuriously(t) => Move(s, t, Woken(PcOf(s, t)))
    case Take(t) =>
      Move(s, t, PcOf(s, t).(taken := true)).(records := s.records[PcOf(s, t).key := PcOf(s, t).root])
    case Evict(key) => s.(records := s.records - {key})
  }

  // ----- Ownership

  predicate Keeps(stack: Stack, root: Root) {
    exists i :: 0 <= i < |stack| && root in stack[i].roots
  }

  /** The lane or one of its calls keeps `root` alive. */
  ghost predicate Owned(s: State, root: Root) {
    root in Roots(s.table) || exists t :: Keeps(StackOf(s, t), root)
  }

  ghost predicate Dies(s: State, next: State) {
    exists root :: Owned(s, root) && !Owned(next, root)
  }

  /** A step, and the deinit that it sets off on the thread that takes it. */
  ghost function Do(c: Config, s: State, a: Action): State
    requires Enabled(c, s, a)
  {
    var next := Step(c, s, a);
    if !a.Evict? && Dies(s, next) then Push(next, a.t, Frame(Finalizing, {})) else next
  }

  // ----- Runs

  ghost predicate IsRun(c: Config, s: State, run: seq<Action>)
    decreases |run|
  {
    run == [] || (Enabled(c, s, run[0]) && IsRun(c, Do(c, s, run[0]), run[1..]))
  }

  ghost function Final(c: Config, s: State, run: seq<Action>): State
    requires IsRun(c, s, run)
    decreases |run|
  {
    if run == [] then s else Final(c, Do(c, s, run[0]), run[1..])
  }

  /** Some interleaving of the protocol leads a freshly started lane to `s`. */
  ghost predicate Reachable(c: Config, s: State) {
    exists run :: IsRun(c, START, run) && Final(c, START, run) == s
  }
}
