/**
 With a Core that keeps to its capacity, knows which records it has and always
 answers, one entry more than that capacity is enough, and after an accepted
 admission the table has an entry for each of Core's records and no other.
 */
module LaneCapacity {
  import opened Wrappers
  import opened CallbackTable
  import opened LaneGate
  import opened LaneProtocol
  import opened LaneInvariant
  import opened LaneScopes
  import opened LaneOwners
  import opened LaneRecords
  import opened LaneTheorems

  /** The slot whose admission is in progress. */
  function InProgress(c: Config, s: State): Option<Key> {
    if s.lock.Some? && PcOf(s, s.lock.value).Calling?
    then Some(Canonical(c.canon, PcOf(s, s.lock.value).key))
    else None
  }

  predicate ResolvedBut(t: Table, k: Option<Key>) {
    forall j :: j in t ==> Resolved(t[j].entry) || k == Some(j)
  }

  predicate ExactInv(c: Config, s: State) {
    |s.records| <= c.capacity && ResolvedBut(s.table, InProgress(c, s))
  }

  // ----- Only the admission in progress is unresolved

  /** Steps of a call in the lane under the condition, and the deinits they might set off. */
  lemma NotCalling(c: Config, s: State, a: Action)
    requires Enabled(c, s, a) && !a.Evict? && !a.Take? && !a.CallReturns?
    ensures !PcOf(s, a.t).Calling?
  {
  }

  /** A step of a thread that is not in admission leaves the one that is where it is. */
  lemma AdmissionStays(c: Config, s: State, a: Action)
    requires LaneInv(c, s) && Enabled(c, s, a) && !a.Evict? && !a.Take? && !a.CallReturns?
    requires InProgress(c, s).Some?
    ensures Step(c, s, a).lock == s.lock && PcOf(Step(c, s, a), s.lock.value) == PcOf(s, s.lock.value)
  {
    var u := s.lock.value;
    ThreadAt(s, a.t);
    NotCalling(c, s, a);
    NeedsNoLock(c, s, a);
    OneThread(c, s, a, u);
    LockUntouched(c, s, a);
  }

  /** While an admission is in progress only calls without a part in it move. */
  lemma NeedsNoLock(c: Config, s: State, a: Action)
    requires LaneInv(c, s) && Enabled(c, s, a) && !a.Evict? && s.lock.Some? && s.lock != Some(a.t)
    ensures a.Read? || a.Release? || a.Return? || a.StopReturns? || a.WakeSpuriously?
  {
    ThreadAt(s, a.t);
  }

  lemma LockUntouched(c: Config, s: State, a: Action)
    requires Enabled(c, s, a) && (a.Read? || a.Release? || a.Return? || a.StopReturns? || a.WakeSpuriously?)
    ensures var next := Step(c, s, a);
            next.lock == s.lock && next.table == s.table && next.records == s.records
  {
  }

  /** No admission is in progress, so every entry is resolved, and the step adds neither entry nor record. */
  lemma ResolvedStays(c: Config, s: State, next: State)
    requires ExactInv(c, s) && InProgress(c, s).None?
    requires next.table == s.table && next.records.Keys <= s.records.Keys
    ensures ExactInv(c, next)
  {
    SubsetSize(next.records.Keys, s.records.Keys);
  }

  /** Steps that change neither the table nor, but for losing some, the records. */
  predicate Adds(a: Action) {
    a.Take? || ChangesTable(a)
  }

  lemma NoneAdded(c: Config, s: State, a: Action)
    requires Enabled(c, s, a) && !Adds(a)
    ensures Step(c, s, a).table == s.table && Step(c, s, a).records.Keys <= s.records.Keys
  {
    TableKept(c, s, a);
    if a.Call? {
    } else if a.CallClose? {
    } else if a.GiveBack? {
    } else if a.FinishClose? {
    } else if a.ControlReturns? {
    } else if a.Drain? {
    }
  }

  lemma OtherExact(c: Config, s: State, a: Action)
    requires LaneInv(c, s) && Enabled(c, s, a) && ExactInv(c, s) && !Adds(a) && !a.Evict?
    ensures ExactInv(c, Step(c, s, a))
  {
    NoneAdded(c, s, a);
    if InProgress(c, s).None? {
      ResolvedStays(c, s, Step(c, s, a));
    } else {
      AdmissionStays(c, s, a);
      SubsetSize(Step(c, s, a).records.Keys, s.records.Keys);
    }
  }

  lemma EvictExact(c: Config, s: State, a: Action)
    requires LaneInv(c, s) && Enabled(c, s, a) && a.Evict? && ExactInv(c, s)
    ensures ExactInv(c, Step(c, s, a))
  {
    SubsetSize(Step(c, s, a).records.Keys, s.records.Keys);
  }

  lemma ForgetExact(c: Config, s: State, a: Action)
    requires LaneInv(c, s) && Enabled(c, s, a) && a.ForgetOwner? && ExactInv(c, s)
    ensures ExactInv(c, Step(c, s, a))
  {
    LockHeld(s, a.t);
  }

  lemma DetachExact(c: Config, s: State, a: Action)
    requires LaneInv(c, s) && Enabled(c, s, a) && a.Detach? && ExactInv(c, s)
    ensures ExactInv(c, Step(c, s, a))
  {
  }

  lemma Published(c: Config, s: State, t: Tid, key: Key, root: Root, p: Table, handed: set<Root>)
    requires s.lock == Some(t) && |s.records| <= c.capacity && ResolvedBut(p, Some(Canonical(c.canon, key)))
    ensures ExactInv(c, Swap(s, t, Calling(key, root, false), p, handed))
  {
  }

  lemma OfferResolved(c: Config, t: Table, key: Key, root: Root, presence: Key -> int)
    requires ResolvedBut(t, None) && Publish(c.canon, Limit(c), t, key, root, presence).Published?
    ensures ResolvedBut(Publish(c.canon, Limit(c), t, key, root, presence).table, Some(Canonical(c.canon, key)))
  {
  }

  lemma DoOfferExact(c: Config, s: State, t: Tid, now: Mutation, presence: Key -> int, handed: set<Root>)
    requires now.Admitting? && s.lock == Some(t) && |s.records| <= c.capacity && ResolvedBut(s.table, None)
    ensures ExactInv(c, DoOffer(s, t, now, Offered(c, s, now, presence), handed))
  {
    var p := Offered(c, s, now, presence);
    if p.Published? {
      OfferResolved(c, s.table, now.key, now.root, presence);
      Published(c, s, t, now.key, now.root, p.table, handed);
    }
  }

  lemma OfferExact(c: Config, s: State, a: Action)
    requires LaneInv(c, s) && Enabled(c, s, a) && a.Offer? && ExactInv(c, s)
    ensures ExactInv(c, Step(c, s, a))
  {
    LockHeld(s, a.t);
    DoOfferExact(c, s, a.t, PcOf(s, a.t).now, a.presence, a.handed);
  }

  lemma TakeExact(c: Config, s: State, a: Action)
    requires LaneInv(c, s) && Enabled(c, s, a) && a.Take? && ExactInv(c, s) && c.exact
    ensures ExactInv(c, Step(c, s, a))
  {
    LockHeld(s, a.t);
    TakeMoves(c, s, a);
  }

  lemma SettleResolved(t: Table, k: Key, status: int, presence: Key -> int)
    requires k in t && ResolvedBut(t, Some(k)) && EntryValid(t[k].entry)
    ensures ResolvedBut(Settle(t, k, Answered(status), presence), None)
  {
  }

  lemma CallReturnsExact(c: Config, s: State, a: Action)
    requires LaneInv(c, s) && Enabled(c, s, a) && a.CallReturns? && ExactInv(c, s) && c.exact
    ensures ExactInv(c, Step(c, s, a))
  {
    LockHeld(s, a.t);
    OwnerAt(c, s, a.t);
    SettleResolved(s.table, Canonical(c.canon, PcOf(s, a.t).key), a.outcome.status, a.presence);
  }

  lemma StepExact(c: Config, s: State, a: Action)
    requires LaneInv(c, s) && Enabled(c, s, a) && ExactInv(c, s) && c.exact
    ensures ExactInv(c, Step(c, s, a))
  {
    if a.Evict? {
      EvictExact(c, s, a);
    } else if a.ForgetOwner? {
      ForgetExact(c, s, a);
    } else if a.Detach? {
      DetachExact(c, s, a);
    } else if a.Offer? {
      OfferExact(c, s, a);
    } else if a.Take? {
      TakeExact(c, s, a);
    } else if a.CallReturns? {
      CallReturnsExact(c, s, a);
    } else {
      OtherExact(c, s, a);
    }
  }

  lemma ExactKept(c: Config, s: State, a: Action)
    requires LaneInv(c, s) && Enabled(c, s, a) && ExactInv(c, s) && c.exact
    ensures ExactInv(c, Do(c, s, a))
  {
    StepExact(c, s, a);
    DoIs(c, s, a);
  }

  lemma {:induction false} RunKeepsExact(c: Config, s: State, run: seq<Action>)
    requires LaneInv(c, s) && ExactInv(c, s) && c.exact && IsRun(c, s, run)
    ensures ExactInv(c, Final(c, s, run))
    decreases |run|
  {
    if run != [] {
      LaneKept(c, s, run[0]);
      ExactKept(c, s, run[0]);
      RunKeepsExact(c, Do(c, s, run[0]), run[1..]);
    }
  }

  lemma ReachableExact(c: Config, s: State)
    requires Reachable(c, s) && c.exact
    ensures ExactInv(c, s)
  {
    var run :| IsRun(c, START, run) && Final(c, START, run) == s;
    LaneStarts(c);
    RunKeepsExact(c, START, run);
  }

  // ----- Room for one more

  /** The canonical forms of Core's keys. */
  function CoreKeys(canon: Canon, records: set<Key>): set<Key> {
    set key | key in records :: Canonical(canon, key)
  }

  lemma {:induction false} CoreKeysSize(canon: Canon, records: set<Key>)
    ensures |CoreKeys(canon, records)| <= |records|
    decreases |records|
  {
    if records == {} {
      assert CoreKeys(canon, records) == {};
    } else {
      var key :| key in records;
      CoreKeysSize(canon, records - {key});
      assert CoreKeys(canon, records) == CoreKeys(canon, records - {key}) + {Canonical(canon, key)};
    }
  }

  /** Where every entry is resolved, exact pruning leaves no more entries than Core has records. */
  lemma PrunedFits(c: Config, t: Table, records: map<Key, Root>, presence: Key -> int)
    requires TableValid(c.canon, Limit(c), t) && ResolvedBut(t, None)
    requires forall k :: k !in records ==> presence(k) == BAD_STATE
    ensures |Prune(t, presence)| <= |records|
  {
    var room := Prune(t, presence);
    forall k | k in room
      ensures k in CoreKeys(c.canon, records.Keys)
    {
      assert t[k].spelling in records;
    }
    SubsetSize(room.Keys, CoreKeys(c.canon, records.Keys));
    CoreKeysSize(c.canon, records.Keys);
  }

  /** No admission is refused, neither for storage nor for an unresolved outcome. */
  lemma AlwaysAdmitted(c: Config, s: State, a: Action)
    requires Reachable(c, s) && c.exact && Enabled(c, s, a) && a.Offer?
    ensures Publish(c.canon, Limit(c), s.table, PcOf(s, a.t).now.key, PcOf(s, a.t).now.root, a.presence).Published?
  {
    ReachableLane(c, s);
    ReachableExact(c, s);
    LockHeld(s, a.t);
    assert InProgress(c, s).None?;
    PrunedFits(c, s.table, s.records, a.presence);
  }

  // ----- The table mirrors Core

  /** The spellings the table was asked to keep. */
  function Spellings(t: Table): set<Key> {
    set k | k in t :: t[k].spelling
  }

  lemma SettledSpellings(c: Config, t: Table, records: map<Key, Root>, k: Key, presence: Key -> int)
    requires TableValid(c.canon, Limit(c), t) && NamedIn(c.ids, t) && RecordedIn(c.ids, records)
    requires Injective(c.canon, c.ids) && Backed(c.canon, t, records) && k in t && ResolvedBut(t, Some(k))
    requires forall j :: presence(j) == BAD_STATE <==> j !in records
    ensures Spellings(Settle(t, k, Answered(STATUS_OK), presence)) == records.Keys
  {
    var r := Settle(t, k, Answered(STATUS_OK), presence);
    forall key | key in records
      ensures key in Spellings(r)
    {
      var j := Canonical(c.canon, key);
      assert HeldFor(c.canon, t, key, records[key]);
      SameKey(c.canon, c.ids, t[j].spelling, key);
      assert j in r && r[j].spelling == key;
    }
    forall j | j in r
      ensures r[j].spelling in records
    {
    }
  }

  /** After an accepted admission the table names exactly Core's records. */
  lemma TableMirrorsCore(c: Config, s: State, a: Action)
    requires Reachable(c, s) && c.exact && Injective(c.canon, c.ids)
    requires Enabled(c, s, a) && a.CallReturns? && a.outcome == Answered(STATUS_OK)
    ensures Spellings(Do(c, s, a).table) == Do(c, s, a).records.Keys
  {
    ReachableLane(c, s);
    ReachableExact(c, s);
    LockHeld(s, a.t);
    OwnerAt(c, s, a.t);
    DoIs(c, s, a);
    SettledSpellings(c, s.table, s.records, Canonical(c.canon, PcOf(s, a.t).key), a.presence);
  }
}
