/**
 The promise of the callback ownership table over whole runs of a lane: Core
 never holds a callback that nobody keeps alive. It holds for exactly the ids
 that the table and Core tell apart alike.
 */
module LaneSafety {
  import opened Wrappers
  import opened CallbackTable
  import opened LaneGate
  import opened LaneProtocol
  import opened LaneInvariant
  import opened LaneScopes
  import opened LaneOwners
  import opened LaneRecords
  import opened LaneTheorems

  // ----- No dangling callback

  /** In every reachable state every callback Core may call is kept alive for its key. */
  ghost predicate NeverDangles(c: Config) {
    forall s :: Reachable(c, s) ==> Backed(c.canon, s.table, s.records)
  }

  /**
   No run dangles exactly when the canonical form tells the session ids apart.
   The table compares ids as strings and Core compares their bytes, so two
   spellings of one string share an entry and yet have two records.
   */
  lemma NoDanglingCallback(c: Config)
    requires c.capacity > 0
    ensures NeverDangles(c) <==> Injective(c.canon, c.ids)
  {
    if Injective(c.canon, c.ids) {
      forall s | Reachable(c, s)
        ensures Backed(c.canon, s.table, s.records)
      {
        ReachableLane(c, s);
      }
    } else {
      var a, b :| a in c.ids && b in c.ids && c.canon(a) == c.canon(b) && a != b;
      var s := TwoSpellings(c, a, b);
    }
  }

  /** Nobody closes the lane, nobody holds the condition, and `t` has no call in progress. */
  ghost predicate Idle(c: Config, s: State, t: Tid) {
    Reachable(c, s) && s.open && !s.closing && s.lock.None? && StackOf(s, t) == []
  }

  /** Between `s` and `next` only `t` moved, and the lane stayed as open as it was. */
  ghost predicate Alongside(s: State, next: State, t: Tid) {
    next.open == s.open && next.closing == s.closing && forall u :: u != t ==> StackOf(next, u) == StackOf(s, u)
  }

  /** A step that releases nothing sets no deinit off. */
  lemma Steps(c: Config, s: State, a: Action) returns (next: State)
    requires Reachable(c, s) && Enabled(c, s, a) && !a.Release?
    ensures next == Step(c, s, a) && Reachable(c, next)
  {
    DoIs(c, s, a);
    StepReachable(c, s, a);
    next := Do(c, s, a);
  }

  /** What a change of the table has to hand out at least. */
  function Handed(before: set<Root>, after: set<Root>): (handed: set<Root>)
    ensures HandsOver(before, after, handed)
  {
    before - after
  }

  predicate HasRoom(c: Config, t: Table, key: Key, root: Root) {
    Publish(c.canon, Limit(c), t, key, root, Knows(map[])).Published?
  }

  /** The table once Core, which held nothing, accepted `key`. */
  function AfterAccept(c: Config, t: Table, key: Key, root: Root): Table
    requires HasRoom(c, t, key, root)
  {
    var p := Publish(c.canon, Limit(c), t, key, root, Knows(map[])).table;
    Settle(p, Canonical(c.canon, key), Answered(STATUS_OK), Knows(map[key := root]))
  }

  /** An admission that Core accepts, alone on the lane. */
  lemma Accepted(c: Config, s: State, t: Tid, key: Key, root: Root) returns (next: State)
    requires Idle(c, s, t) && key.id in c.ids && s.records == map[] && c.capacity > 0 && HasRoom(c, s.table, key, root)
    ensures Reachable(c, next) && Alongside(s, next, t) && next.lock.None?
    ensures next.records == map[key := root] && next.table == AfterAccept(c, s.table, key, root)
  {
    next := Candidacy(c, s, t, key, root);
    next := Returned(c, next, t, key, root);
    next := Unlocked(c, next, t);
  }

  lemma Candidacy(c: Config, s: State, t: Tid, key: Key, root: Root) returns (next: State)
    requires Idle(c, s, t) && key.id in c.ids && s.records == map[] && HasRoom(c, s.table, key, root)
    ensures Reachable(c, next) && Alongside(s, next, t)
    ensures PcOf(next, t) == Calling(key, root, false) && next.records == map[]
    ensures next.table == Publish(c.canon, Limit(c), s.table, key, root, Knows(map[])).table
  {
    next := Entered(c, s, t, key, root);
    next := Published(c, next, t, key, root);
  }

  lemma Unlocked(c: Config, s: State, t: Tid) returns (next: State)
    requires Reachable(c, s) && PcOf(s, t) == Unlocking
    ensures Reachable(c, next) && Alongside(s, next, t) && next.lock.None?
    ensures next.records == s.records && next.table == s.table
  {
    next := Steps(c, s, Unlock(t));
  }

  lemma LetIn(c: Config, s: State, t: Tid, key: Key, root: Root) returns (next: State)
    requires Idle(c, s, t) && key.id in c.ids
    ensures Reachable(c, next) && Alongside(s, next, t) && next.lock.None?
    ensures PcOf(next, t) == Borrowed(Some(Admitting(key, root))) && next.records == s.records && next.table == s.table
  {
    next := Steps(c, s, Call(t, Some(Admitting(key, root))));
  }

  lemma Entered(c: Config, s: State, t: Tid, key: Key, root: Root) returns (next: State)
    requires Idle(c, s, t) && key.id in c.ids
    ensures Reachable(c, next) && Alongside(s, next, t) && next.lock == Some(t)
    ensures PcOf(next, t) == Mutating(Admitting(key, root)) && next.records == s.records && next.table == s.table
  {
    next := LetIn(c, s, t, key, root);
    next := Steps(c, next, Lock(t));
  }

  lemma Published(c: Config, s: State, t: Tid, key: Key, root: Root) returns (next: State)
    requires Reachable(c, s) && s.records == map[] && PcOf(s, t) == Mutating(Admitting(key, root))
    requires HasRoom(c, s.table, key, root)
    ensures Reachable(c, next) && Alongside(s, next, t) && next.lock == s.lock
    ensures PcOf(next, t) == Calling(key, root, false) && next.records == s.records
    ensures next.table == Publish(c.canon, Limit(c), s.table, key, root, Knows(map[])).table
  {
    var p := Publish(c.canon, Limit(c), s.table, key, root, Knows(map[])).table;
    next := Steps(c, s, Offer(t, Knows(map[]), Handed(Roots(s.table) + {root}, Roots(p))));
  }

  lemma TakenBy(c: Config, s: State, t: Tid, key: Key, root: Root) returns (next: State)
    requires Reachable(c, s) && s.records == map[] && PcOf(s, t) == Calling(key, root, false) && c.capacity > 0
    ensures Reachable(c, next) && Alongside(s, next, t) && next.table == s.table
    ensures PcOf(next, t) == Calling(key, root, true) && next.records == map[key := root]
  {
    assert s.records[key := root] == map[key := root];
    next := Steps(c, s, Take(t));
  }

  lemma Returned(c: Config, s: State, t: Tid, key: Key, root: Root) returns (next: State)
    requires Reachable(c, s) && s.records == map[] && PcOf(s, t) == Calling(key, root, false) && c.capacity > 0
    requires Canonical(c.canon, key) in s.table
    ensures Reachable(c, next) && Alongside(s, next, t) && PcOf(next, t) == Unlocking
    ensures next.records == map[key := root]
    ensures next.table == Settle(s.table, Canonical(c.canon, key), Answered(STATUS_OK), Knows(next.records))
  {
    var taken := TakenBy(c, s, t, key, root);
    var settled := Settlement(c, taken, key, Answered(STATUS_OK), Knows(taken.records));
    next := Steps(c, taken, CallReturns(t, Answered(STATUS_OK), Knows(taken.records), Handed(Roots(s.table), Roots(settled))));
  }

  /** The entry that accepting `key` on a fresh lane leaves behind. */
  function Alone(canon: Canon, key: Key, root: Root): Table {
    map[Canonical(canon, key) := Slot(key, Entry(root, Some(STATUS_OK), None))]
  }

  lemma FirstTable(c: Config, key: Key, root: Root)
    requires c.capacity > 0
    ensures HasRoom(c, map[], key, root) && AfterAccept(c, map[], key, root) == Alone(c.canon, key, root)
  {
    var k := Canonical(c.canon, key);
    assert Publish(c.canon, Limit(c), map[], key, root, Knows(map[])).table == map[k := Slot(key, Entry(root, None, None))];
  }

  /** Under another spelling of its key the first entry answers for the second record, and is dropped with it. */
  lemma SecondTable(c: Config, first: Key, second: Key)
    requires c.capacity > 0 && first != second && Canonical(c.canon, first) == Canonical(c.canon, second)
    ensures HasRoom(c, Alone(c.canon, first, 1), second, 2)
    ensures AfterAccept(c, Alone(c.canon, first, 1), second, 2) == map[]
  {
    var k := Canonical(c.canon, first);
    var t := Alone(c.canon, first, 1);
    assert t[k].spelling == first;
  }

  lemma StartReachable(c: Config)
    ensures Reachable(c, START)
  {
    assert IsRun(c, START, []) && Final(c, START, []) == START;
  }

  lemma Dropped(c: Config, s: State, key: Key) returns (next: State)
    requires Reachable(c, s) && s.records.Keys == {key}
    ensures Reachable(c, next) && next == s.(records := map[])
  {
    next := Steps(c, s, Evict(key));
    assert next.records == map[];
  }

  /** Core admitted `first` on a fresh lane. */
  lemma Admitted(c: Config, first: Key) returns (s: State)
    requires c.capacity > 0 && first.id in c.ids
    ensures Idle(c, s, 1) && s.records == map[first := 1] && s.table == Alone(c.canon, first, 1)
  {
    StartReachable(c);
    FirstTable(c, first, 1);
    s := Accepted(c, START, 0, first, 1);
    assert StackOf(s, 1) == StackOf(START, 1);
  }

  /** Core admitted `first` and dropped its record; the table still has the entry. */
  lemma Orphaned(c: Config, first: Key) returns (s: State)
    requires c.capacity > 0 && first.id in c.ids
    ensures Idle(c, s, 1) && s.records == map[] && s.table == Alone(c.canon, first, 1)
  {
    s := Admitted(c, first);
    s := Dropped(c, s, first);
  }

  /**
   Core admits `a`, drops its record and admits `b`. The entry of `a` answers for
   both; Core reports that it has no `a`, and the table lets go of the callback of `b`.
   */
  lemma TwoSpellings(c: Config, a: string, b: string) returns (s: State)
    requires c.capacity > 0 && a in c.ids && b in c.ids && a != b && c.canon(a) == c.canon(b)
    ensures Reachable(c, s) && !Backed(c.canon, s.table, s.records)
  {
    var first, second := Key(a, 0), Key(b, 0);
    s := Orphaned(c, first);
    SecondTable(c, first, second);
    s := Accepted(c, s, 1, second, 2);
    assert s.table == map[] && second in s.records;
    assert !HeldFor(c.canon, map[], second, 2);
  }

  // ----- A close inside a deinit

  /** Only thread 0 has a call in progress; it keeps callback 1 for itself. */
  function Lone(pc: Pc): map<Tid, Stack> {
    map[0 := [Frame(pc, {1})]]
  }

  lemma LoneMove(s: State, pc: Pc, to: Pc)
    requires s.threads == Lone(pc)
    ensures Move(s, 0, to) == s.(threads := Lone(to))
  {
    assert StackOf(s, 0) == [Frame(pc, {1})];
    assert SetTop(StackOf(s, 0), Frame(to, {1})) == [Frame(to, {1})];
    assert Move(s, 0, to).threads == Lone(to);
  }

  lemma LoneCall(todo: Option<Mutation>)
    requires CallerRoots(todo) == {1}
    ensures DoCall(START, 0, todo) == START.(threads := Lone(Borrowed(todo)), activeCalls := 1)
  {
    assert StackOf(START, 0) + [Frame(Borrowed(todo), {1})] == [Frame(Borrowed(todo), {1})];
    assert DoCall(START, 0, todo).threads == Lone(Borrowed(todo));
  }

  lemma LoneBorrowed(c: Config, id: string) returns (s: State)
    requires id in c.ids
    ensures Reachable(c, s)
    ensures s == START.(threads := Lone(Borrowed(Some(Admitting(Key(id, 0), 1)))), activeCalls := 1)
  {
    StartReachable(c);
    LoneCall(Some(Admitting(Key(id, 0), 1)));
    s := Steps(c, START, Call(0, Some(Admitting(Key(id, 0), 1))));
  }

  lemma LoneLocked(c: Config, id: string) returns (s: State)
    requires id in c.ids
    ensures Reachable(c, s)
    ensures s == START.(threads := Lone(Mutating(Admitting(Key(id, 0), 1))), activeCalls := 1, lock := Some(0))
  {
    s := LoneBorrowed(c, id);
    LoneMove(s, PcOf(s, 0), Mutating(Admitting(Key(id, 0), 1)));
    s := Steps(c, s, Lock(0));
  }

  lemma LoneUnlocking(c: Config, id: string) returns (s: State)
    requires id in c.ids
    ensures Reachable(c, s) && s == START.(threads := Lone(Unlocking), activeCalls := 1, lock := Some(0))
  {
    s := LoneLocked(c, id);
    LoneMove(s, PcOf(s, 0), Unlocking);
    s := Steps(c, s, Abandon(0));
  }

  lemma LoneEnding(c: Config, id: string) returns (s: State)
    requires id in c.ids
    ensures Reachable(c, s) && s == START.(threads := Lone(Ending), activeCalls := 1)
  {
    s := LoneUnlocking(c, id);
    LoneMove(s, Unlocking, Ending);
    s := Steps(c, s, Unlock(0));
  }

  lemma LoneGivesBack(s: State)
    requires s == START.(threads := Lone(Ending), activeCalls := 1)
    ensures DoGiveBack(s, 0) == START.(threads := Lone(Exiting))
  {
    LoneMove(s, Ending, Exiting);
    assert Wake([Frame(Exiting, {1})]) == [Frame(Exiting, {1})];
    assert DoGiveBack(s, 0).threads == Lone(Exiting);
  }

  lemma LoneExit(c: Config, id: string) returns (s: State)
    requires id in c.ids
    ensures Reachable(c, s) && s == START.(threads := Lone(Exiting))
  {
    s := LoneEnding(c, id);
    LoneGivesBack(s);
    s := Steps(c, s, GiveBack(0));
  }

  lemma LoneRelease(c: Config, s: State)
    requires s == START.(threads := Lone(Exiting))
    ensures Enabled(c, s, Release(0, 1)) && Step(c, s, Release(0, 1)) == START.(threads := map[0 := [Frame(Exiting, {})]])
  {
    assert StackOf(s, 0) == [Frame(Exiting, {1})];
    assert RootsOf(s, 0) - {1} == {};
    assert SetTop(StackOf(s, 0), Frame(Exiting, {})) == [Frame(Exiting, {})];
    assert Step(c, s, Release(0, 1)).threads == map[0 := [Frame(Exiting, {})]];
  }

  lemma LoneDies(s: State, next: State)
    requires s == START.(threads := Lone(Exiting)) && next == START.(threads := map[0 := [Frame(Exiting, {})]])
    ensures Dies(s, next)
  {
    TopKeeps(StackOf(s, 0), 1);
    assert Owned(s, 1) && !Owned(next, 1);
  }

  lemma LastRelease(c: Config, s: State) returns (next: State)
    requires Reachable(c, s) && s == START.(threads := Lone(Exiting))
    ensures Reachable(c, next) && StackOf(next, 0) == [Frame(Exiting, {}), Frame(Finalizing, {})]
    ensures GateOf(next) == OPENED && next.lock.None?
  {
    LoneRelease(c, s);
    LoneDies(s, Step(c, s, Release(0, 1)));
    StepReachable(c, s, Release(0, 1));
    next := Do(c, s, Release(0, 1));
  }

  /** The hazard exists: a refused callback's deinit may call close from within the call that offered it. */
  lemma DeinitMayClose(c: Config, id: string) returns (s: State)
    requires id in c.ids
    ensures Reachable(c, s) && s.closer == Some(0)
    ensures StackOf(s, 0) == [Frame(Exiting, {}), Frame(Finalizing, {}), Frame(Stopping, {})]
  {
    s := LoneExit(c, id);
    s := LastRelease(c, s);
    s := Steps(c, s, CallClose(0));
  }
}
