/** The ownership table and Core's records in every reachable state of the lane protocol. */
module LaneRecords {
  import opened Wrappers
  import opened CallbackTable
  import opened LaneGate
  import opened LaneProtocol
  import opened LaneInvariant
  import opened LaneScopes
  import opened LaneOwners

  predicate Named(ids: iset<string>, pc: Pc) {
    && (pc.Borrowed? && pc.todo.Some? ==> pc.todo.value.key.id in ids)
    && (pc.Mutating? ==> pc.now.key.id in ids)
    && (pc.Calling? ==> pc.key.id in ids)
    && (pc.Forgetting? ==> pc.key.id in ids)
  }

  ghost predicate OwnerOk(c: Config, t: Table, records: map<Key, Root>, pc: Pc) {
    && Named(c.ids, pc)
    && (pc.Calling? ==>
          && InAdmission(c.canon, t, pc.key, pc.root)
          && (Injective(c.canon, c.ids) ==> TakenOrNot(c.canon, t, records, pc.key, pc.root, pc.taken)))
    && (pc.Forgetting? ==> pc.key !in records)
  }

  ghost predicate ThreadsOwn(c: Config, s: State) {
    forall t :: OwnerOk(c, s.table, s.records, PcOf(s, t))
  }

  ghost predicate TableInv(c: Config, s: State) {
    && TableValid(c.canon, Limit(c), s.table)
    && NamedIn(c.ids, s.table)
    && RecordedIn(c.ids, s.records)
    && (Injective(c.canon, c.ids) ==> Backed(c.canon, s.table, s.records))
    && (s.destroys == 1 ==> s.records == map[])
    && (!s.open || (s.closer.Some? && PcOf(s, s.closer.value).Finishing?) ==> s.table == map[])
  }

  ghost predicate OwnersInv(c: Config, s: State) {
    ThreadsOwn(c, s) && TableInv(c, s)
  }

  ghost predicate LaneInv(c: Config, s: State) {
    ProtocolInv(s) && StacksInv(s) && OwnersInv(c, s)
  }

  lemma OwnerAt(c: Config, s: State, t: Tid)
    requires ThreadsOwn(c, s)
    ensures OwnerOk(c, s.table, s.records, PcOf(s, t))
  {
  }

  /** Only the thread that holds the condition, or no thread at all, has a call in progress. */
  lemma OwnersStepped(c: Config, s: State, next: State, t: Tid, stack: Stack)
    requires ThreadsInv(s) && ThreadsOwn(c, s) && next.threads == s.threads[t := stack]
    requires OwnerOk(c, next.table, next.records, TopPc(stack))
    requires (next.table == s.table && next.records == s.records) || s.lock in {None, Some(t)}
    ensures ThreadsOwn(c, next)
  {
    forall u
      ensures OwnerOk(c, next.table, next.records, PcOf(next, u))
    {
      ThreadAt(s, u);
      OwnerAt(c, s, u);
    }
  }

  lemma OwnersSignalled(c: Config, s: State)
    requires ThreadsOwn(c, s)
    ensures ThreadsOwn(c, Broadcast(s))
  {
    forall u
      ensures OwnerOk(c, s.table, s.records, PcOf(Broadcast(s), u))
    {
      AtBroadcast(s, u);
      OwnerAt(c, s, u);
    }
  }

  // ----- Steps that change neither the table nor the records

  /** Only the close that holds the condition can have detached the table already. */
  lemma TableSame(c: Config, s: State, next: State, t: Tid)
    requires LaneInv(c, s) && next.table == s.table && next.records == s.records && next.destroys == s.destroys
    requires next.open == s.open && !PcOf(next, t).Finishing?
    requires forall u :: u != t ==> PcOf(next, u) == PcOf(s, u) || PcOf(next, u) == Woken(PcOf(s, u))
    requires next.closer == s.closer || next.closer == Some(t)
    ensures TableInv(c, next)
  {
  }

  /** Steps of the running call that leave the table and the records alone. */
  predicate Quiet(a: Action) {
    || a.Read? || a.Lock? || a.Abandon? || a.Unlock? || a.StopReturns? || a.Recheck? || a.WakeSpuriously?
  }

  lemma QuietSame(c: Config, s: State, a: Action)
    requires Quiet(a) && Enabled(c, s, a)
    ensures var next := Step(c, s, a);
            && next.table == s.table && next.records == s.records && next.destroys == s.destroys
            && next.open == s.open && next.closer == s.closer
            && TopMoved(s, next, a.t) && !PcOf(next, a.t).Finishing?
            && (forall ids :: Named(ids, PcOf(s, a.t)) ==> Named(ids, PcOf(next, a.t)))
            && !PcOf(next, a.t).Calling? && !PcOf(next, a.t).Forgetting?
  {
    TopMoves(c, s, a);
  }

  lemma QuietOwns(c: Config, s: State, a: Action)
    requires Quiet(a) && LaneInv(c, s) && Enabled(c, s, a)
    ensures OwnersInv(c, Step(c, s, a))
  {
    var next := Step(c, s, a);
    QuietSame(c, s, a);
    OwnerAt(c, s, a.t);
    OwnersStepped(c, s, next, a.t, StackOf(next, a.t));
    TableSame(c, s, next, a.t);
  }

  /** A step that puts a stack of no consequence for the table in place of another. */
  lemma PutOwns(c: Config, s: State, next: State, t: Tid, stack: Stack)
    requires LaneInv(c, s) && next.threads == s.threads[t := stack]
    requires next.table == s.table && next.records == s.records && next.destroys == s.destroys && next.open == s.open
    requires next.closer == s.closer || next.closer == Some(t)
    requires Named(c.ids, TopPc(stack)) && !TopPc(stack).Calling? && !TopPc(stack).Forgetting? && !TopPc(stack).Finishing?
    ensures OwnersInv(c, next)
  {
    OwnersStepped(c, s, next, t, stack);
    TableSame(c, s, next, t);
  }

  lemma CallOwns(c: Config, s: State, t: Tid, todo: Option<Mutation>)
    requires LaneInv(c, s) && AppRuns(PcOf(s, t)) && (todo.Some? ==> todo.value.key.id in c.ids)
    ensures OwnersInv(c, DoCall(s, t, todo))
  {
    PutOwns(c, s, DoCall(s, t, todo), t, StackOf(DoCall(s, t, todo), t));
  }

  lemma CloseCallOwns(c: Config, s: State, t: Tid)
    requires LaneInv(c, s) && AppRuns(PcOf(s, t))
    ensures OwnersInv(c, DoCallClose(s, t))
  {
    if BeginClose(GateOf(s)).1 != AlreadyClosed {
      PutOwns(c, s, DoCallClose(s, t), t, StackOf(DoCallClose(s, t), t));
    }
  }

  lemma ReleaseOwns(c: Config, s: State, a: Action)
    requires a.Release? && LaneInv(c, s) && Enabled(c, s, a)
    ensures OwnersInv(c, Step(c, s, a))
  {
    ReleaseMoves(c, s, a);
    PutOwns(c, s, Step(c, s, a), a.t, StackOf(Step(c, s, a), a.t));
  }

  lemma ReturnOwns(c: Config, s: State, a: Action)
    requires a.Return? && LaneInv(c, s) && Enabled(c, s, a)
    ensures OwnersInv(c, Step(c, s, a))
  {
    FineAt(s, a.t);
    PutOwns(c, s, Step(c, s, a), a.t, Pop(StackOf(s, a.t)));
  }

  lemma GiveBackOwns(c: Config, s: State, t: Tid)
    requires LaneInv(c, s)
    ensures OwnersInv(c, DoGiveBack(s, t))
  {
    var next := SetGate(Move(s, t, Exiting), Leave(GateOf(s)).0);
    PutOwns(c, s, next, t, StackOf(next, t));
    BroadcastOwns(c, next);
  }

  lemma BroadcastOwns(c: Config, s: State)
    requires OwnersInv(c, s)
    ensures OwnersInv(c, Broadcast(s))
  {
    OwnersSignalled(c, s);
    if s.closer.Some? {
      AtBroadcast(s, s.closer.value);
    }
  }

  lemma FinishOwns(c: Config, s: State, a: Action)
    requires a.FinishClose? && LaneInv(c, s) && Enabled(c, s, a)
    ensures OwnersInv(c, Step(c, s, a))
  {
    var next := SetGate(Move(s, a.t, Exiting), Closed(GateOf(s))).(lock := None);
    ThreadAt(s, a.t);
    OwnersStepped(c, s, next, a.t, StackOf(next, a.t));
    BroadcastOwns(c, next);
    assert Step(c, s, a) == Broadcast(next);
  }

  // ----- Steps that change one of them

  /** A thread with a borrow keeps the lane open and undestroyed. */
  lemma BorrowKeepsLane(s: State, t: Tid)
    requires ProtocolInv(s) && Borrows(PcOf(s, t))
    ensures s.open && s.destroys == 0
    ensures s.closer.Some? ==> !PcOf(s, s.closer.value).Finishing? && s.closer.value != t
  {
    IsBorrower(s, t);
    ThreadAt(s, t);
  }

  lemma LockHeld(s: State, t: Tid)
    requires ProtocolInv(s) && HoldsLock(PcOf(s, t))
    ensures s.lock == Some(t)
  {
    ThreadAt(s, t);
  }

  /** A step of a call in the lane that changes the table or the records, and what it has to show for it. */
  lemma MutationOwns(c: Config, s: State, next: State, t: Tid)
    requires LaneInv(c, s) && Borrows(PcOf(s, t)) && HoldsLock(PcOf(s, t)) && TopMoved(s, next, t)
    requires next.open == s.open && next.destroys == s.destroys && next.closer == s.closer
    requires OwnerOk(c, next.table, next.records, PcOf(next, t))
    requires TableValid(c.canon, Limit(c), next.table) && NamedIn(c.ids, next.table) && RecordedIn(c.ids, next.records)
    requires Injective(c.canon, c.ids) ==> Backed(c.canon, next.table, next.records)
    ensures OwnersInv(c, next)
  {
    LockHeld(s, t);
    BorrowKeepsLane(s, t);
    OwnersStepped(c, s, next, t, StackOf(next, t));
  }

  lemma PublishNamed(c: Config, t: Table, key: Key, root: Root, presence: Key -> int)
    requires TableValid(c.canon, Limit(c), t) && NamedIn(c.ids, t) && key.id in c.ids
    requires Publish(c.canon, Limit(c), t, key, root, presence).Published?
    ensures var p := Publish(c.canon, Limit(c), t, key, root, presence).table;
            TableValid(c.canon, Limit(c), p) && NamedIn(c.ids, p) && InAdmission(c.canon, p, key, root)
  {
    PublishValid(c.canon, Limit(c), t, key, root, presence);
  }

  lemma OfferOwns(c: Config, s: State, a: Action)
    requires a.Offer? && LaneInv(c, s) && Enabled(c, s, a)
    ensures OwnersInv(c, Step(c, s, a))
  {
    var t, next := a.t, Step(c, s, a);
    var key, root := PcOf(s, t).now.key, PcOf(s, t).now.root;
    OwnerAt(c, s, t);
    OfferMoves(c, s, a);
    if Publish(c.canon, Limit(c), s.table, key, root, a.presence).Published? {
      PublishNamed(c, s.table, key, root, a.presence);
      if Injective(c.canon, c.ids) {
        PublishBacked(c.canon, Limit(c), c.ids, s.table, s.records, key, root, a.presence);
      }
    }
    MutationOwns(c, s, next, t);
  }

  lemma SettleNamed(c: Config, t: Table, k: Key, outcome: Outcome, presence: Key -> int)
    requires NamedIn(c.ids, t) && k in t
    ensures NamedIn(c.ids, Settle(t, k, outcome, presence))
  {
  }

  lemma CallReturnsOwns(c: Config, s: State, a: Action)
    requires a.CallReturns? && LaneInv(c, s) && Enabled(c, s, a)
    ensures OwnersInv(c, Step(c, s, a))
  {
    var t, next, pc := a.t, Step(c, s, a), PcOf(s, a.t);
    var k := Canonical(c.canon, pc.key);
    OwnerAt(c, s, t);
    TableMoves(c, s, a);
    assert next.table == Settle(s.table, k, a.outcome, a.presence);
    SettleValid(c.canon, Limit(c), s.table, k, a.outcome, a.presence);
    SettleNamed(c, s.table, k, a.outcome, a.presence);
    if Injective(c.canon, c.ids) {
      SettleBacked(c, s.table, s.records, pc.key, pc.root, pc.taken, a.outcome, a.presence);
    }
    MutationOwns(c, s, next, t);
  }

  lemma TakeOwns(c: Config, s: State, a: Action)
    requires a.Take? && LaneInv(c, s) && Enabled(c, s, a)
    ensures OwnersInv(c, Step(c, s, a))
  {
    var t, next, pc := a.t, Step(c, s, a), PcOf(s, a.t);
    OwnerAt(c, s, t);
    TakeMoves(c, s, a);
    if Injective(c.canon, c.ids) {
      forall key | key in next.records
        ensures HeldFor(c.canon, s.table, key, next.records[key])
      {
        assert key != pc.key ==> HeldFor(c.canon, s.table, key, s.records[key]);
      }
    }
    MutationOwns(c, s, next, t);
  }

  lemma FewerRecords(c: Config, s: State, records: map<Key, Root>)
    requires LaneInv(c, s) && records.Keys <= s.records.Keys
    requires forall key :: key in records ==> records[key] == s.records[key]
    ensures RecordedIn(c.ids, records)
    ensures Injective(c.canon, c.ids) ==> Backed(c.canon, s.table, records)
    ensures forall pc :: OwnerOk(c, s.table, s.records, pc) ==> OwnerOk(c, s.table, records, pc)
  {
    forall key | key in records && Injective(c.canon, c.ids)
      ensures HeldFor(c.canon, s.table, key, records[key])
    {
      assert HeldFor(c.canon, s.table, key, s.records[key]);
    }
  }

  lemma EvictOwns(c: Config, s: State, a: Action)
    requires a.Evict? && LaneInv(c, s) && Enabled(c, s, a)
    ensures OwnersInv(c, Step(c, s, a))
  {
    var next := Step(c, s, a);
    FewerRecords(c, s, next.records);
    forall u
      ensures OwnerOk(c, next.table, next.records, PcOf(next, u))
    {
      OwnerAt(c, s, u);
    }
  }

  lemma ControlForgets(c: Config, s: State, t: Tid, key: Key)
    requires LaneInv(c, s) && PcOf(s, t) == Mutating(Controlling(key, true))
    ensures OwnersInv(c, Move(s, t, Forgetting(key)).(records := s.records - {key}))
  {
    var next := Move(s, t, Forgetting(key)).(records := s.records - {key});
    OwnerAt(c, s, t);
    FewerRecords(c, s, next.records);
    TopPut(s, next, t, Frame(Forgetting(key), RootsOf(s, t)));
    MutationOwns(c, s, next, t);
  }

  lemma ControlReturnsOwns(c: Config, s: State, a: Action)
    requires a.ControlReturns? && LaneInv(c, s) && Enabled(c, s, a)
    ensures OwnersInv(c, Step(c, s, a))
  {
    if a.status == STATUS_OK && PcOf(s, a.t).now.forget {
      ControlForgets(c, s, a.t, PcOf(s, a.t).now.key);
    } else {
      var next := Move(s, a.t, Unlocking);
      PutOwns(c, s, next, a.t, StackOf(next, a.t));
    }
  }

  lemma ForgetOwnerOwns(c: Config, s: State, a: Action)
    requires a.ForgetOwner? && LaneInv(c, s) && Enabled(c, s, a)
    ensures OwnersInv(c, Step(c, s, a))
  {
    var t, next, key := a.t, Step(c, s, a), PcOf(s, a.t).key;
    OwnerAt(c, s, t);
    TableMoves(c, s, a);
    PruneSmaller(s.table, next.table);
    if Injective(c.canon, c.ids) {
      ForgetBacked(c.canon, Limit(c), c.ids, s.table, s.records, key);
    }
    MutationOwns(c, s, next, t);
  }

  lemma DrainOwns(c: Config, s: State, a: Action)
    requires a.Drain? && LaneInv(c, s) && Enabled(c, s, a)
    ensures OwnersInv(c, Step(c, s, a))
  {
    var t, next := a.t, Step(c, s, a);
    CloserMoves(c, s, a);
    ThreadAt(s, t);
    if s.activeCalls == 0 {
      FewerRecords(c, s, map[]);
    }
    OwnersStepped(c, s, next, t, StackOf(next, t));
  }

  lemma DetachOwns(c: Config, s: State, a: Action)
    requires a.Detach? && LaneInv(c, s) && Enabled(c, s, a)
    ensures OwnersInv(c, Step(c, s, a))
  {
    var next := Step(c, s, a);
    TableMoves(c, s, a);
    LockHeld(s, a.t);
    ThreadAt(s, a.t);
    OwnersStepped(c, s, next, a.t, StackOf(next, a.t));
  }

  lemma OwnersKept(c: Config, s: State, a: Action)
    requires LaneInv(c, s) && Enabled(c, s, a)
    ensures OwnersInv(c, Step(c, s, a))
  {
    if Quiet(a) {
      QuietOwns(c, s, a);
    } else if a.Call? {
      CallOwns(c, s, a.t, a.todo);
    } else if a.CallClose? {
      CloseCallOwns(c, s, a.t);
    } else if a.Release? {
      ReleaseOwns(c, s, a);
    } else if a.Return? {
      ReturnOwns(c, s, a);
    } else if a.GiveBack? {
      GiveBackOwns(c, s, a.t);
    } else if a.FinishClose? {
      FinishOwns(c, s, a);
    } else if a.Offer? {
      OfferOwns(c, s, a);
    } else if a.CallReturns? {
      CallReturnsOwns(c, s, a);
    } else if a.Take? {
      TakeOwns(c, s, a);
    } else if a.Evict? {
      EvictOwns(c, s, a);
    } else if a.ControlReturns? {
      ControlReturnsOwns(c, s, a);
    } else if a.ForgetOwner? {
      ForgetOwnerOwns(c, s, a);
    } else if a.Drain? {
      DrainOwns(c, s, a);
    } else {
      DetachOwns(c, s, a);
    }
  }

  // ----- Runs

  /** A deinit that starts on a thread that leaves a scope disturbs nothing. */
  lemma DeinitKept(c: Config, s: State, t: Tid)
    requires LaneInv(c, s) && AtExit(PcOf(s, t))
    ensures LaneInv(c, Push(s, t, Frame(Finalizing, {})))
  {
    var frame := Frame(Finalizing, {});
    IdleKept(s, t, StackOf(s, t) + [frame]);
    PushedFine(s, Push(s, t, frame), t, frame);
    PutOwns(c, s, Push(s, t, frame), t, StackOf(s, t) + [frame]);
  }

  lemma LaneKept(c: Config, s: State, a: Action)
    requires LaneInv(c, s) && Enabled(c, s, a)
    ensures LaneInv(c, Do(c, s, a))
  {
    ProtocolKept(c, s, a);
    StacksKept(c, s, a);
    OwnersKept(c, s, a);
    DoIs(c, s, a);
    if Do(c, s, a) != Step(c, s, a) {
      DeinitKept(c, Step(c, s, a), a.t);
    }
  }

  lemma LaneStarts(c: Config)
    ensures LaneInv(c, START)
  {
    assert Borrowers(START) == {};
  }

  lemma {:induction false} RunKeepsLane(c: Config, s: State, run: seq<Action>)
    requires LaneInv(c, s) && IsRun(c, s, run)
    ensures LaneInv(c, Final(c, s, run))
    decreases |run|
  {
    if run != [] {
      LaneKept(c, s, run[0]);
      RunKeepsLane(c, Do(c, s, run[0]), run[1..]);
    }
  }

  /** Every state of every run satisfies the invariant. */
  lemma ReachableLane(c: Config, s: State)
    requires Reachable(c, s)
    ensures LaneInv(c, s)
  {
    var run :| IsRun(c, START, run) && Final(c, START, run) == s;
    LaneStarts(c);
    RunKeepsLane(c, START, run);
  }
}
