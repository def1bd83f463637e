/**
 The stream callback ownership table, as values: what admission, pruning and
 forgetting do to the roots a lane keeps alive for Core. The class of
 CallbackOwners.dfy is proved against these functions and the lane protocol of
 LaneProtocol.dfy takes its steps with them.

 Two spellings of one session id can be equal as Swift strings; the table is
 keyed by the canonical form, while Core compares the spelling it is given.
 */
module CallbackTable {
  import opened Wrappers

  type Root = nat

  const STATUS_OK: int := 0
  const BAD_STATE: int := -3

  datatype Key = Key(id: string, direction: nat)

  type Canon = string -> string

  function Canonical(canon: Canon, key: Key): Key {
    Key(canon(key.id), key.direction)
  }

  /** A callback root, the outcome of its admission once received, and the entry it would replace. */
  datatype Entry = Entry(root: Root, status: Option<int>, previous: Option<Entry>)

  /** An entry under the spelling its slot was first stored with. */
  datatype Slot = Slot(spelling: Key, entry: Entry)

  type Table = map<Key, Slot>

  predicate Resolved(e: Entry) {
    e.status.Some?
  }

  /** Resolved entries were accepted and replace nothing; an unresolved one hides at most one resolved entry. */
  predicate EntryValid(e: Entry) {
    if Resolved(e) then e.status == Some(STATUS_OK) && e.previous.None?
    else e.previous.Some? ==> e.previous.value.status == Some(STATUS_OK) && e.previous.value.previous.None?
  }

  predicate TableValid(canon: Canon, limit: nat, t: Table) {
    && |t| <= limit
    && forall k :: k in t ==> EntryValid(t[k].entry) && Canonical(canon, t[k].spelling) == k
  }

  /** The entry keeps `root` alive, itself or through what it would replace. */
  predicate Holds(e: Entry, root: Root) {
    e.root == root || (e.previous.Some? && e.previous.value.root == root)
  }

  function Roots(t: Table): set<Root> {
    (set k | k in t :: t[k].entry.root)
    + (set k | k in t && t[k].entry.previous.Some? :: t[k].entry.previous.value.root)
  }

  /**
   The roots `before` a change are still kept `after` it or were handed out, and
   nothing else was handed out.
   */
  predicate HandsOver(before: set<Root>, after: set<Root>, handed: set<Root>) {
    before <= after + handed && handed <= before
  }

  predicate Absent(slot: Slot, presence: Key -> int) {
    Resolved(slot.entry) && presence(slot.spelling) == BAD_STATE
  }

  /** Drops the resolved entries of which Core says that it keeps no record. */
  function Prune(t: Table, presence: Key -> int): (r: Table)
    ensures |r| <= |t|
  {
    var r := map k | k in t && !Absent(t[k], presence) :: t[k];
    PruneSmaller(t, r);
    r
  }

  /** `r` is what pruning leaves of `t`. */
  ghost predicate Pruned(t: Table, r: Table, presence: Key -> int) {
    && (forall k :: k in r <==> k in t && !Absent(t[k], presence))
    && (forall k :: k in r ==> r[k] == t[k])
  }

  lemma PrunedIsPrune(t: Table, r: Table, presence: Key -> int)
    ensures Pruned(t, r, presence) <==> r == Prune(t, presence)
  {
  }

  lemma PruneSmaller(t: Table, r: Table)
    requires r.Keys <= t.Keys
    ensures |r| <= |t|
  {
    SubsetSize(r.Keys, t.Keys);
  }

  lemma {:induction false} SubsetSize<T>(a: set<T>, b: set<T>)
    requires a <= b
    ensures |a| <= |b|
    decreases |a|
  {
    if a != {} {
      var x :| x in a;
      SubsetSize(a - {x}, b - {x});
    }
  }

  /** What a call to Core answered, if its answer was received at all. */
  datatype Outcome = Answered(status: int) | Unreceived

  datatype Admission =
    | Admitted(status: int)
    | Unresolved
    | StorageExhausted
    | OutcomeLost

  datatype Publication = Refused(why: Admission) | Published(table: Table)

  /** An unresolved candidate over whatever slot `k` holds. */
  function CandidateSlot(t: Table, k: Key, spelling: Key, root: Root): Slot {
    Slot(spelling, Entry(root, None, if k in t then Some(t[k].entry) else None))
  }

  /** Publishes a candidate before Core is called, or refuses without calling Core. */
  function Publish(canon: Canon, limit: nat, t: Table, key: Key, root: Root, presence: Key -> int): (p: Publication)
    ensures p.Published? ==> Canonical(canon, key) in p.table
  {
    var k := Canonical(canon, key);
    if k in t then
      if !Resolved(t[k].entry) then Refused(Unresolved)
      else Published(t[k := CandidateSlot(t, k, t[k].spelling, root)])
    else
      var room := if |t| == limit then Prune(t, presence) else t;
      if |room| >= limit then Refused(StorageExhausted)
      else Published(room[k := CandidateSlot(room, k, key, root)])
  }

  /** The table once the candidate of slot `k` is accepted or refused, before the pruning that follows acceptance. */
  function Settled(t: Table, k: Key, status: int): Table
    requires k in t
  {
    var slot := t[k];
    if status == STATUS_OK then t[k := Slot(slot.spelling, Entry(slot.entry.root, Some(status), None))]
    else if slot.entry.previous.Some? then t[k := Slot(slot.spelling, slot.entry.previous.value)]
    else t - {k}
  }

  /** Settles the candidate of slot `k` once Core has answered. */
  function Settle(t: Table, k: Key, outcome: Outcome, presence: Key -> int): Table
    requires k in t
  {
    match outcome
    case Unreceived => t
    case Answered(status) =>
      if status == STATUS_OK then Prune(Settled(t, k, status), presence) else Settled(t, k, status)
  }

  function Admit(canon: Canon, limit: nat, t: Table, key: Key, root: Root,
                 before: Key -> int, outcome: Outcome, after: Key -> int): (Table, Admission)
  {
    match Publish(canon, limit, t, key, root, before)
    case Refused(why) => (t, why)
    case Published(p) =>
      (Settle(p, Canonical(canon, key), outcome, after),
       match outcome
       case Unreceived => OutcomeLost
       case Answered(status) => Admitted(status))
  }

  function Forget(t: Table, k: Key): Table {
    t - {k}
  }

  // ----- The table stays valid

  /** Slot `k` of `p` holds an unresolved candidate over what `t` held there; the rest of `p` is from `t`. */
  predicate Candidate(t: Table, p: Table, k: Key, spelling: Key, root: Root) {
    && k in p
    && p[k] == Slot(spelling, Entry(root, None, if k in t then Some(t[k].entry) else None))
    && forall j :: j in p && j != k ==> j in t && p[j] == t[j]
  }

  lemma PublishValid(canon: Canon, limit: nat, t: Table, key: Key, root: Root, presence: Key -> int)
    requires TableValid(canon, limit, t) && Publish(canon, limit, t, key, root, presence).Published?
    ensures var p, k := Publish(canon, limit, t, key, root, presence).table, Canonical(canon, key);
            && TableValid(canon, limit, p)
            && Candidate(t, p, k, if k in t then t[k].spelling else key, root)
  {
    var k := Canonical(canon, key);
    var spelling := if k in t then t[k].spelling else key;
    var room := if k !in t && |t| == limit then Prune(t, presence) else t;
    var slot := Slot(spelling, Entry(root, None, if k in t then Some(t[k].entry) else None));
    CandidateValid(canon, limit, room, k, slot);
  }

  lemma CandidateValid(canon: Canon, limit: nat, room: Table, k: Key, slot: Slot)
    requires TableValid(canon, limit, room) && EntryValid(slot.entry) && Canonical(canon, slot.spelling) == k
    requires k in room || |room| < limit
    ensures TableValid(canon, limit, room[k := slot])
  {
    if k in room {
      assert room[k := slot].Keys == room.Keys;
    } else {
      assert room[k := slot].Keys == room.Keys + {k};
    }
  }

  lemma SettledValid(canon: Canon, limit: nat, t: Table, k: Key, status: int)
    requires TableValid(canon, limit, t) && k in t && !Resolved(t[k].entry)
    ensures TableValid(canon, limit, Settled(t, k, status))
    ensures status == STATUS_OK ==> |Settled(t, k, status)| == |t|
  {
    if status != STATUS_OK && t[k].entry.previous.None? {
      PruneSmaller(t, t - {k});
    } else {
      assert Settled(t, k, status).Keys == t.Keys;
    }
  }

  lemma SettleValid(canon: Canon, limit: nat, t: Table, k: Key, outcome: Outcome, presence: Key -> int)
    requires TableValid(canon, limit, t) && k in t && !Resolved(t[k].entry)
    ensures TableValid(canon, limit, Settle(t, k, outcome, presence))
  {
    if outcome.Answered? {
      SettledValid(canon, limit, t, k, outcome.status);
    }
  }

  /** A storage refusal means that nothing was absent: the table keeps every entry. */
  lemma ExhaustedUnchanged(canon: Canon, limit: nat, t: Table, key: Key, root: Root, presence: Key -> int)
    requires TableValid(canon, limit, t)
    requires Publish(canon, limit, t, key, root, presence) == Refused(StorageExhausted)
    ensures |t| == limit && Prune(t, presence) == t
    ensures forall k :: k in t ==> !Absent(t[k], presence)
  {
    var room := Prune(t, presence);
    if room.Keys != t.Keys {
      var k :| k in t && k !in room;
      SubsetSize(room.Keys, t.Keys - {k});
    }
    assert room.Keys == t.Keys;
  }

  // ----- What an admission comes to

  /** An admission is refused without a call exactly for an unresolved key, or for a new key and a table with no room. */
  lemma RefusedExactly(canon: Canon, limit: nat, t: Table, key: Key, root: Root, presence: Key -> int)
    requires TableValid(canon, limit, t)
    ensures var p, k := Publish(canon, limit, t, key, root, presence), Canonical(canon, key);
            && (p == Refused(Unresolved) <==> k in t && t[k].entry.status.None?)
            && (p == Refused(StorageExhausted) <==>
                  && k !in t && |t| == limit
                  && forall j :: j in t ==> t[j].entry.status.None? || presence(t[j].spelling) != -3)
            && (p.Refused? ==> p.why in {Unresolved, StorageExhausted})
  {
    var k := Canonical(canon, key);
    if k !in t && |t| == limit {
      if Publish(canon, limit, t, key, root, presence).Refused? {
        ExhaustedUnchanged(canon, limit, t, key, root, presence);
      } else if forall j :: j in t ==> !Absent(t[j], presence) {
        PruneNothing(t, presence);
      }
    }
  }

  lemma PruneNothing(t: Table, presence: Key -> int)
    requires forall j :: j in t ==> !Absent(t[j], presence)
    ensures Prune(t, presence) == t
  {
  }

  /** Core said, of this spelling, that it has no record. */
  predicate Gone(spelling: Key, presence: Key -> int) {
    presence(spelling) == -3
  }

  /** What an admission that reached Core leaves under its own key, by the outcome. */
  lemma AdmissionOwnEntry(canon: Canon, limit: nat, t: Table, key: Key, root: Root,
                          before: Key -> int, outcome: Outcome, after: Key -> int)
    requires TableValid(canon, limit, t) && Publish(canon, limit, t, key, root, before).Published?
    ensures var k, r := Canonical(canon, key), Admit(canon, limit, t, key, root, before, outcome, after).0;
            var spelling := if k in t then t[k].spelling else key;
            && (outcome.Unreceived? ==>
                  k in r && r[k] == Slot(spelling, Entry(root, None, if k in t then Some(t[k].entry) else None)))
            && (outcome == Answered(0) ==>
                  if Gone(spelling, after) then k !in r else k in r && r[k] == Slot(spelling, Entry(root, Some(0), None)))
            && (outcome.Answered? && outcome.status != 0 ==>
                  if k in t then k in r && r[k] == t[k] else k !in r)
  {
    PublishValid(canon, limit, t, key, root, before);
  }

  /** Every other entry is as it was, and is missing only if Core reported it gone. */
  lemma AdmissionOtherEntries(canon: Canon, limit: nat, t: Table, key: Key, root: Root,
                              before: Key -> int, outcome: Outcome, after: Key -> int, j: Key)
    requires TableValid(canon, limit, t) && Publish(canon, limit, t, key, root, before).Published?
    requires j != Canonical(canon, key)
    ensures var r := Admit(canon, limit, t, key, root, before, outcome, after).0;
            && (j in r ==> j in t && r[j] == t[j])
            && (j in t && j !in r ==>
                  && t[j].entry.status.Some?
                  && (Gone(t[j].spelling, before) || (outcome == Answered(0) && Gone(t[j].spelling, after))))
            && (j in r && outcome == Answered(0) && r[j].entry.status.Some? ==> !Gone(r[j].spelling, after))
  {
    PublishValid(canon, limit, t, key, root, before);
    PublishKeeps(canon, limit, t, key, root, before);
  }

  /** Publication drops nothing but what makes room. */
  lemma PublishKeeps(canon: Canon, limit: nat, t: Table, key: Key, root: Root, presence: Key -> int)
    requires TableValid(canon, limit, t) && Publish(canon, limit, t, key, root, presence).Published?
    ensures var p := Publish(canon, limit, t, key, root, presence).table;
            forall j :: j in t && j !in p ==> Absent(t[j], presence)
  {
  }
}
