/** Counting, locking and closing in every reachable state of the borrow and drain protocol. */
module LaneInvariant {
  import opened Wrappers
  import opened CallbackTable
  import opened LaneGate
  import opened LaneProtocol

  predicate Borrows(pc: Pc) {
    pc.Borrowed? || pc.Mutating? || pc.Calling? || pc.Forgetting? || pc.Unlocking? || pc.Ending?
  }

  predicate HoldsLock(pc: Pc) {
    pc.Mutating? || pc.Calling? || pc.Forgetting? || pc.Unlocking? || pc.Detaching? || pc.Finishing?
  }

  predicate Closes(pc: Pc) {
    pc.Stopping? || pc.Draining? || pc.Detaching? || pc.Finishing?
  }

  /** Core's lane is destroyed and the close is about to end. */
  predicate Destroyed(pc: Pc) {
    pc.Detaching? || pc.Finishing?
  }

  function Borrowers(s: State): set<Tid> {
    set t | t in s.threads && Borrows(TopPc(s.threads[t]))
  }

  predicate ThreadOk(s: State, t: Tid, pc: Pc) {
    && (HoldsLock(pc) <==> s.lock == Some(t))
    && (Closes(pc) <==> s.open && s.closer == Some(t))
    && (pc == Draining(true) ==> s.activeCalls != 0)
    && (pc.Awaiting? ==> s.closing)
    && (pc == Awaiting(true) ==> s.open)
  }

  ghost predicate ThreadsInv(s: State) {
    forall t :: ThreadOk(s, t, PcOf(s, t))
  }

  /** How far the lane's one effective close has come. */
  predicate CloseInv(s: State) {
    && (s.closing <==> s.closer.Some?)
    && (!s.open ==> s.closing)
    && s.stops == (if !s.closing || (s.open && PcOf(s, s.closer.value).Stopping?) then 0 else 1)
    && s.destroys == (if s.closing && (!s.open || Destroyed(PcOf(s, s.closer.value))) then 1 else 0)
  }

  predicate CountInv(s: State) {
    && s.activeCalls == |Borrowers(s)|
    && (s.destroys == 1 ==> Borrowers(s) == {})
  }

  ghost predicate ProtocolInv(s: State) {
    ThreadsInv(s) && CloseInv(s) && CountInv(s)
  }

  /** Only the running call of a thread is inside the lane; those below it are leaving their scopes or run a deinit. */
  predicate StackFine(stack: Stack) {
    && (forall i :: 0 <= i < |stack| ==> !stack[i].pc.Outside?)
    && (forall i :: 0 <= i < |stack| - 1 ==> AtExit(stack[i].pc))
  }

  ghost predicate StacksInv(s: State) {
    forall t :: StackFine(StackOf(s, t))
  }

  // ----- Counting

  lemma BorrowersPut(s: State, t: Tid, stack: Stack)
    ensures Borrowers(Put(s, t, stack)) == if Borrows(TopPc(stack)) then Borrowers(s) + {t} else Borrowers(s) - {t}
  {
  }

  lemma BorrowersBroadcast(s: State)
    ensures Borrowers(Broadcast(s)) == Borrowers(s)
  {
  }

  lemma AtBroadcast(s: State, t: Tid)
    ensures StackOf(Broadcast(s), t) == Wake(StackOf(s, t)) && PcOf(Broadcast(s), t) == Woken(PcOf(s, t))
  {
  }

  lemma IsBorrower(s: State, t: Tid)
    ensures t in Borrowers(s) <==> Borrows(PcOf(s, t))
  {
  }

  /** The counts stay right while `t` moves without entering or leaving a borrow. */
  lemma SameCount(s: State, next: State, t: Tid, stack: Stack)
    requires CountInv(s) && next.threads == s.threads[t := stack]
    requires Borrows(TopPc(stack)) == Borrows(PcOf(s, t))
    requires next.activeCalls == s.activeCalls
    requires next.destroys == 1 ==> s.destroys == 1 || s.activeCalls == 0
    ensures CountInv(next)
  {
    BorrowersPut(s, t, stack);
    IsBorrower(s, t);
    assert Borrowers(next) == Borrowers(Put(s, t, stack));
  }

  lemma ThreadAt(s: State, t: Tid)
    requires ThreadsInv(s)
    ensures ThreadOk(s, t, PcOf(s, t))
  {
  }

  // ----- Each step keeps the invariant

  /** What a step of `t` may do to the lane without disturbing any other thread. */
  predicate Undisturbed(s: State, next: State, t: Tid) {
    && (next.lock == s.lock || (s.lock in {None, Some(t)} && next.lock in {None, Some(t)}))
    && next.open == s.open
    && (next.closer == s.closer || (s.closer.None? && next.closer == Some(t)))
    && (s.activeCalls != 0 ==> next.activeCalls != 0)
    && (s.closing ==> next.closing)
  }

  lemma Stepped(s: State, next: State, t: Tid, stack: Stack)
    requires ThreadsInv(s) && next.threads == s.threads[t := stack]
    requires Undisturbed(s, next, t) && ThreadOk(next, t, TopPc(stack))
    ensures ThreadsInv(next)
  {
    forall u
      ensures ThreadOk(next, u, PcOf(next, u))
    {
      ThreadAt(s, u);
    }
  }

  lemma Signalled(s: State)
    requires forall t :: ThreadOk(s, t, Woken(PcOf(s, t)))
    ensures ThreadsInv(Broadcast(s))
  {
    forall u
      ensures ThreadOk(Broadcast(s), u, PcOf(Broadcast(s), u))
    {
      AtBroadcast(s, u);
      assert ThreadOk(s, u, Woken(PcOf(s, u)));
    }
  }

  /** A step of a thread that takes no part in closing, and neither starts nor ends a borrow. */
  lemma OtherKept(s: State, next: State, t: Tid, stack: Stack)
    requires ProtocolInv(s) && next.threads == s.threads[t := stack]
    requires Borrows(PcOf(s, t)) == Borrows(TopPc(stack))
    requires !Closes(PcOf(s, t)) && !Closes(TopPc(stack)) && !TopPc(stack).Awaiting?
    requires HoldsLock(TopPc(stack)) <==> next.lock == Some(t)
    requires next.lock == s.lock || (s.lock in {None, Some(t)} && next.lock in {None, Some(t)})
    requires next.open == s.open && next.closing == s.closing && next.closer == s.closer
    requires next.activeCalls == s.activeCalls && next.stops == s.stops && next.destroys == s.destroys
    ensures ProtocolInv(next)
  {
    ThreadAt(s, t);
    SameCount(s, next, t, stack);
    Stepped(s, next, t, stack);
    if s.closer.Some? {
      ThreadAt(s, s.closer.value);
    }
  }

  /** A thread that runs application code or leaves a scope goes on to do either. */
  lemma IdleKept(s: State, t: Tid, stack: Stack)
    requires ProtocolInv(s) && (AppRuns(PcOf(s, t)) || AtExit(PcOf(s, t)))
    requires AppRuns(TopPc(stack)) || AtExit(TopPc(stack))
    ensures ProtocolInv(Put(s, t, stack))
  {
    ThreadAt(s, t);
    OtherKept(s, Put(s, t, stack), t, stack);
  }

  /** Admission: one more borrower, counted. */
  lemma BorrowKept(s: State, t: Tid, stack: Stack)
    requires ProtocolInv(s) && AppRuns(PcOf(s, t)) && s.open && !s.closing && TopPc(stack).Borrowed?
    ensures ProtocolInv(Put(s, t, stack).(activeCalls := s.activeCalls + 1))
  {
    var next := Put(s, t, stack).(activeCalls := s.activeCalls + 1);
    ThreadAt(s, t);
    IsBorrower(s, t);
    BorrowersPut(s, t, stack);
    assert Borrowers(next) == Borrowers(s) + {t};
    Stepped(s, next, t, stack);
  }

  lemma CallKept(s: State, t: Tid, todo: Option<Mutation>)
    requires ProtocolInv(s) && AppRuns(PcOf(s, t))
    ensures ProtocolInv(DoCall(s, t, todo))
  {
    var stack := StackOf(DoCall(s, t, todo), t);
    if Enter(GateOf(s)).1 {
      BorrowKept(s, t, stack);
    } else {
      IdleKept(s, t, stack);
      assert DoCall(s, t, todo) == Put(s, t, stack);
    }
  }

  lemma LeftKept(s: State, t: Tid)
    requires ProtocolInv(s) && PcOf(s, t).Ending? && s.activeCalls != 1
    ensures ProtocolInv(Move(s, t, Exiting).(activeCalls := s.activeCalls - 1))
  {
    var next := Move(s, t, Exiting).(activeCalls := s.activeCalls - 1);
    ThreadAt(s, t);
    IsBorrower(s, t);
    BorrowersPut(s, t, StackOf(next, t));
    assert Borrowers(next) == Borrowers(s) - {t};
    Stepped(s, next, t, StackOf(next, t));
    if s.closer.Some? {
      ThreadAt(s, s.closer.value);
    }
  }

  lemma LastLeftCount(s: State, t: Tid)
    requires ProtocolInv(s) && PcOf(s, t).Ending? && s.activeCalls == 1
    ensures CountInv(Broadcast(Move(s, t, Exiting).(activeCalls := 0)))
  {
    var next := Move(s, t, Exiting).(activeCalls := 0);
    IsBorrower(s, t);
    BorrowersPut(s, t, StackOf(next, t));
    assert Borrowers(next) == Borrowers(s) - {t};
    BorrowersBroadcast(next);
  }

  lemma LastLeftThreads(s: State, t: Tid)
    requires ProtocolInv(s) && PcOf(s, t).Ending? && s.activeCalls == 1
    ensures ThreadsInv(Broadcast(Move(s, t, Exiting).(activeCalls := 0)))
  {
    var next := Move(s, t, Exiting).(activeCalls := 0);
    ThreadAt(s, t);
    forall u
      ensures ThreadOk(next, u, Woken(PcOf(next, u)))
    {
      ThreadAt(s, u);
    }
    Signalled(next);
  }

  lemma LastLeftKept(s: State, t: Tid)
    requires ProtocolInv(s) && PcOf(s, t).Ending? && s.activeCalls == 1
    ensures ProtocolInv(Broadcast(Move(s, t, Exiting).(activeCalls := 0)))
  {
    LastLeftCount(s, t);
    LastLeftThreads(s, t);
    if s.closer.Some? {
      ThreadAt(s, t);
      ThreadAt(s, s.closer.value);
      AtBroadcast(Move(s, t, Exiting).(activeCalls := 0), s.closer.value);
    }
  }

  lemma GiveBackKept(s: State, t: Tid)
    requires ProtocolInv(s) && PcOf(s, t).Ending?
    ensures ProtocolInv(DoGiveBack(s, t))
  {
    if s.activeCalls == 1 {
      LastLeftKept(s, t);
    } else {
      LeftKept(s, t);
    }
  }

  lemma CloseCallKept(s: State, t: Tid)
    requires ProtocolInv(s) && AppRuns(PcOf(s, t))
    ensures ProtocolInv(DoCallClose(s, t))
  {
    var next := DoCallClose(s, t);
    ThreadAt(s, t);
    if next != s {
      SameCount(s, next, t, StackOf(next, t));
      Stepped(s, next, t, StackOf(next, t));
    }
  }

  lemma FinishedKept(s: State, t: Tid)
    requires ProtocolInv(s) && PcOf(s, t).Finishing?
    ensures ProtocolInv(Broadcast(Move(s, t, Exiting).(open := false, lock := None)))
  {
    var next := Move(s, t, Exiting).(open := false, lock := None);
    ThreadAt(s, t);
    IsBorrower(s, t);
    BorrowersPut(s, t, StackOf(next, t));
    assert Borrowers(next) == Borrowers(s) - {t};
    BorrowersBroadcast(next);
    forall u
      ensures ThreadOk(next, u, Woken(PcOf(next, u)))
    {
      ThreadAt(s, u);
    }
    Signalled(next);
  }

  lemma FinishCloseKept(c: Config, s: State, a: Action)
    requires a.FinishClose? && ProtocolInv(s) && Enabled(c, s, a)
    ensures ProtocolInv(Step(c, s, a))
  {
    FinishedKept(s, a.t);
    assert Step(c, s, a) == Broadcast(Move(s, a.t, Exiting).(open := false, lock := None));
  }

  lemma StopReturnsKept(c: Config, s: State, a: Action)
    requires a.StopReturns? && ProtocolInv(s) && Enabled(c, s, a)
    ensures ProtocolInv(Step(c, s, a))
  {
    var t, next := a.t, Step(c, s, a);
    ThreadAt(s, t);
    SameCount(s, next, t, StackOf(next, t));
    Stepped(s, next, t, StackOf(next, t));
  }

  lemma DrainKept(c: Config, s: State, a: Action)
    requires a.Drain? && ProtocolInv(s) && Enabled(c, s, a)
    ensures ProtocolInv(Step(c, s, a))
  {
    var t, next := a.t, Step(c, s, a);
    ThreadAt(s, t);
    SameCount(s, next, t, StackOf(next, t));
    Stepped(s, next, t, StackOf(next, t));
  }

  lemma DetachKept(c: Config, s: State, a: Action)
    requires a.Detach? && ProtocolInv(s) && Enabled(c, s, a)
    ensures ProtocolInv(Step(c, s, a))
  {
    var t, next := a.t, Step(c, s, a);
    ThreadAt(s, t);
    SameCount(s, next, t, StackOf(next, t));
    Stepped(s, next, t, StackOf(next, t));
  }

  lemma RecheckKept(c: Config, s: State, a: Action)
    requires a.Recheck? && ProtocolInv(s) && Enabled(c, s, a)
    ensures ProtocolInv(Step(c, s, a))
  {
    var t, next := a.t, Step(c, s, a);
    ThreadAt(s, t);
    SameCount(s, next, t, StackOf(next, t));
    Stepped(s, next, t, StackOf(next, t));
  }

  lemma WakeSpuriouslyKept(c: Config, s: State, a: Action)
    requires a.WakeSpuriously? && ProtocolInv(s) && Enabled(c, s, a)
    ensures ProtocolInv(Step(c, s, a))
  {
    var t, next := a.t, Step(c, s, a);
    ThreadAt(s, t);
    SameCount(s, next, t, StackOf(next, t));
    Stepped(s, next, t, StackOf(next, t));
  }

  lemma ReadKept(c: Config, s: State, a: Action)
    requires a.Read? && ProtocolInv(s) && Enabled(c, s, a)
    ensures ProtocolInv(Step(c, s, a))
  {
    ThreadAt(s, a.t);
    OtherKept(s, Step(c, s, a), a.t, StackOf(Step(c, s, a), a.t));
  }

  lemma LockKept(c: Config, s: State, a: Action)
    requires (a.Lock? || a.Unlock?) && ProtocolInv(s) && Enabled(c, s, a)
    ensures ProtocolInv(Step(c, s, a))
  {
    ThreadAt(s, a.t);
    OtherKept(s, Step(c, s, a), a.t, StackOf(Step(c, s, a), a.t));
  }

  lemma ReleaseKept(c: Config, s: State, a: Action)
    requires a.Release? && ProtocolInv(s) && Enabled(c, s, a)
    ensures ProtocolInv(Step(c, s, a))
  {
    IdleKept(s, a.t, StackOf(Step(c, s, a), a.t));
  }

  lemma ReturnKept(c: Config, s: State, a: Action)
    requires a.Return? && ProtocolInv(s) && StacksInv(s) && Enabled(c, s, a)
    ensures ProtocolInv(Step(c, s, a))
  {
    assert StackFine(StackOf(s, a.t));
    IdleKept(s, a.t, Pop(StackOf(s, a.t)));
  }

  /** A call goes on under the condition. */
  lemma HolderKept(s: State, t: Tid, pc: Pc)
    requires ProtocolInv(s) && HoldsLock(PcOf(s, t)) && Borrows(PcOf(s, t)) && HoldsLock(pc) && Borrows(pc)
    ensures ProtocolInv(Move(s, t, pc))
  {
    ThreadAt(s, t);
    OtherKept(s, Move(s, t, pc), t, StackOf(Move(s, t, pc), t));
  }

  lemma RecordsKept(s: State, records: map<Key, Root>)
    requires ProtocolInv(s)
    ensures ProtocolInv(s.(records := records))
  {
    var next := s.(records := records);
    assert Borrowers(next) == Borrowers(s);
    forall u
      ensures ThreadOk(next, u, PcOf(next, u))
    {
      ThreadAt(s, u);
    }
  }

  lemma ControlReturnsKept(c: Config, s: State, a: Action)
    requires a.ControlReturns? && ProtocolInv(s) && Enabled(c, s, a)
    ensures ProtocolInv(Step(c, s, a))
  {
    if a.status == STATUS_OK && PcOf(s, a.t).now.forget {
      var key := PcOf(s, a.t).now.key;
      HolderKept(s, a.t, Forgetting(key));
      RecordsKept(Move(s, a.t, Forgetting(key)), s.records - {key});
    } else {
      HolderKept(s, a.t, Unlocking);
    }
  }

  /** A call changes the table under the condition. */
  lemma SwapKept(s: State, t: Tid, pc: Pc, table: Table, handed: set<Root>)
    requires ProtocolInv(s) && HoldsLock(PcOf(s, t)) && Borrows(PcOf(s, t)) && HoldsLock(pc) && Borrows(pc)
    ensures ProtocolInv(Swap(s, t, pc, table, handed))
  {
    var next := Swap(s, t, pc, table, handed);
    ThreadAt(s, t);
    OtherKept(s, next, t, StackOf(next, t));
  }

  lemma OfferKept(s: State, t: Tid, now: Mutation, p: Publication, handed: set<Root>)
    requires ProtocolInv(s) && PcOf(s, t).Mutating? && now.Admitting?
    ensures ProtocolInv(DoOffer(s, t, now, p, handed))
  {
    if p.Refused? {
      HolderKept(s, t, Unlocking);
    } else {
      SwapKept(s, t, Calling(now.key, now.root, false), p.table, handed);
    }
  }

  lemma TakeKept(c: Config, s: State, a: Action)
    requires a.Take? && ProtocolInv(s) && Enabled(c, s, a)
    ensures ProtocolInv(Step(c, s, a))
  {
    ThreadAt(s, a.t);
    OtherKept(s, Step(c, s, a), a.t, StackOf(Step(c, s, a), a.t));
  }

  lemma EvictKept(c: Config, s: State, a: Action)
    requires a.Evict? && ProtocolInv(s) && Enabled(c, s, a)
    ensures ProtocolInv(Step(c, s, a))
  {
    RecordsKept(s, s.records - {a.key});
  }

  lemma ProtocolKept(c: Config, s: State, a: Action)
    requires ProtocolInv(s) && StacksInv(s) && Enabled(c, s, a)
    ensures ProtocolInv(Step(c, s, a))
  {
    if a.Call? {
      CallKept(s, a.t, a.todo);
    } else if a.GiveBack? {
      GiveBackKept(s, a.t);
    } else if a.CallClose? {
      CloseCallKept(s, a.t);
    } else if a.FinishClose? {
      FinishCloseKept(c, s, a);
    } else if a.StopReturns? {
      StopReturnsKept(c, s, a);
    } else if a.Drain? {
      DrainKept(c, s, a);
    } else if a.Detach? {
      DetachKept(c, s, a);
    } else if a.Recheck? {
      RecheckKept(c, s, a);
    } else if a.WakeSpuriously? {
      WakeSpuriouslyKept(c, s, a);
    } else if a.Read? {
      ReadKept(c, s, a);
    } else if a.Lock? || a.Unlock? {
      LockKept(c, s, a);
    } else if a.Release? {
      ReleaseKept(c, s, a);
    } else if a.Return? {
      ReturnKept(c, s, a);
    } else if a.Abandon? {
      HolderKept(s, a.t, Unlocking);
    } else if a.Offer? {
      OfferKept(s, a.t, PcOf(s, a.t).now, Offered(c, s, PcOf(s, a.t).now, a.presence), a.handed);
    } else if a.CallReturns? {
      SwapKept(s, a.t, Unlocking, Settlement(c, s, PcOf(s, a.t).key, a.outcome, a.presence), a.handed);
    } else if a.ControlReturns? {
      ControlReturnsKept(c, s, a);
    } else if a.ForgetOwner? {
      SwapKept(s, a.t, Unlocking, Forgotten(c, s, PcOf(s, a.t).key), a.handed);
    } else if a.Take? {
      TakeKept(c, s, a);
    } else {
      EvictKept(c, s, a);
    }
  }

  // ----- Stacks

  lemma FineTop(stack: Stack, frame: Frame)
    requires StackFine(stack) && !frame.pc.Outside?
    ensures StackFine(SetTop(stack, frame))
  {
  }

  lemma FinePush(stack: Stack, frame: Frame)
    requires StackFine(stack) && (AppRuns(TopPc(stack)) || AtExit(TopPc(stack))) && !frame.pc.Outside?
    ensures StackFine(stack + [frame])
  {
  }

  lemma FineWake(stack: Stack)
    requires StackFine(stack)
    ensures StackFine(Wake(stack))
  {
    if stack != [] {
      FineTop(stack, Frame(Woken(TopPc(stack)), TopRoots(stack)));
    }
  }

  lemma FineAt(s: State, t: Tid)
    requires StacksInv(s)
    ensures StackFine(StackOf(s, t))
  {
  }

  lemma StackPut(s: State, next: State, t: Tid, stack: Stack)
    requires StacksInv(s) && next.threads == s.threads[t := stack] && StackFine(stack)
    ensures StacksInv(next)
  {
    forall u
      ensures StackFine(StackOf(next, u))
    {
      FineAt(s, u);
    }
  }

  lemma StacksBroadcast(s: State)
    requires StacksInv(s)
    ensures StacksInv(Broadcast(s))
  {
    forall u
      ensures StackFine(StackOf(Broadcast(s), u))
    {
      AtBroadcast(s, u);
      FineAt(s, u);
      FineWake(StackOf(s, u));
    }
  }

  lemma MovedFine(s: State, next: State, t: Tid, pc: Pc, roots: set<Root>)
    requires StacksInv(s) && !pc.Outside? && next.threads == s.threads[t := SetTop(StackOf(s, t), Frame(pc, roots))]
    ensures StacksInv(next)
  {
    FineAt(s, t);
    FineTop(StackOf(s, t), Frame(pc, roots));
    StackPut(s, next, t, SetTop(StackOf(s, t), Frame(pc, roots)));
  }

  lemma PushedFine(s: State, next: State, t: Tid, frame: Frame)
    requires StacksInv(s) && (AppRuns(PcOf(s, t)) || AtExit(PcOf(s, t))) && !frame.pc.Outside?
    requires next.threads == s.threads[t := StackOf(s, t) + [frame]]
    ensures StacksInv(next)
  {
    FineAt(s, t);
    FinePush(StackOf(s, t), frame);
    StackPut(s, next, t, StackOf(s, t) + [frame]);
  }
}
