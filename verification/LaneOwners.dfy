/**
 Core's callback records against the ownership table, over every run of a
 stream lane: which root each record needs, who keeps it alive, and when the
 table keeps exactly what Core holds.
 */
module LaneOwners {
  import opened Wrappers
  import opened CallbackTable
  import opened LaneProtocol
  import opened LaneInvariant

  /** No two of `ids` are spelled differently and equal as strings. */
  ghost predicate Injective(canon: Canon, ids: iset<string>) {
    forall a, b :: a in ids && b in ids && canon(a) == canon(b) ==> a == b
  }

  predicate HeldFor(canon: Canon, t: Table, key: Key, root: Root) {
    Canonical(canon, key) in t && Holds(t[Canonical(canon, key)].entry, root)
  }

  /** The callback of every record is kept alive by its key's entry or by what that entry would replace. */
  predicate Backed(canon: Canon, t: Table, records: map<Key, Root>) {
    forall key :: key in records ==> HeldFor(canon, t, key, records[key])
  }

  predicate NamedIn(ids: iset<string>, t: Table) {
    forall k :: k in t ==> t[k].spelling.id in ids
  }

  predicate RecordedIn(ids: iset<string>, records: map<Key, Root>) {
    forall key :: key in records ==> key.id in ids
  }

  /** Only absent records are reported absent. */
  ghost predicate NeverLies(presence: Key -> int, records: map<Key, Root>) {
    forall k :: presence(k) == BAD_STATE ==> k !in records
  }

  ghost predicate Spelled(canon: Canon, limit: nat, ids: iset<string>, t: Table, records: map<Key, Root>) {
    TableValid(canon, limit, t) && Injective(canon, ids) && NamedIn(ids, t) && RecordedIn(ids, records)
  }

  /** The candidate of a call in progress, and which of its roots Core's record has. */
  predicate InAdmission(canon: Canon, t: Table, key: Key, root: Root) {
    && Canonical(canon, key) in t
    && t[Canonical(canon, key)].entry.status.None?
    && t[Canonical(canon, key)].entry.root == root
  }

  predicate TakenOrNot(canon: Canon, t: Table, records: map<Key, Root>, key: Key, root: Root, taken: bool)
    requires InAdmission(canon, t, key, root)
  {
    key in records ==>
      var e := t[Canonical(canon, key)].entry;
      if taken then records[key] == root else e.previous.Some? && e.previous.value.root == records[key]
  }

  // ----- One change of the table at a time

  /** Keys of one canonical form are one key. */
  lemma SameKey(canon: Canon, ids: iset<string>, a: Key, b: Key)
    requires Injective(canon, ids) && a.id in ids && b.id in ids
    requires Canonical(canon, a) == Canonical(canon, b)
    ensures a == b
  {
    assert canon(a.id) == canon(b.id);
  }

  lemma PruneBacked(canon: Canon, limit: nat, ids: iset<string>, t: Table, records: map<Key, Root>, presence: Key -> int)
    requires Spelled(canon, limit, ids, t, records) && Backed(canon, t, records) && NeverLies(presence, records)
    ensures Backed(canon, Prune(t, presence), records)
  {
    forall key | key in records
      ensures HeldFor(canon, Prune(t, presence), key, records[key])
    {
      var k := Canonical(canon, key);
      assert HeldFor(canon, t, key, records[key]);
      SameKey(canon, ids, t[k].spelling, key);
    }
  }

  /** A published candidate hides what Core holds behind `previous`. */
  lemma CandidateBacked(canon: Canon, limit: nat, ids: iset<string>, room: Table, records: map<Key, Root>,
                        key: Key, spelling: Key, root: Root)
    requires Spelled(canon, limit, ids, room, records) && Backed(canon, room, records)
    requires Canonical(canon, key) in room ==> Resolved(room[Canonical(canon, key)].entry)
    ensures var k := Canonical(canon, key);
            var p := room[k := CandidateSlot(room, k, spelling, root)];
            Backed(canon, p, records) && InAdmission(canon, p, key, root) && TakenOrNot(canon, p, records, key, root, false)
  {
    var k := Canonical(canon, key);
    var p := room[k := CandidateSlot(room, k, spelling, root)];
    forall j | j in records
      ensures HeldFor(canon, p, j, records[j])
    {
      assert HeldFor(canon, room, j, records[j]);
    }
    if key in records {
      assert HeldFor(canon, room, key, records[key]);
    }
  }

  lemma PublishBacked(canon: Canon, limit: nat, ids: iset<string>, t: Table, records: map<Key, Root>,
                      key: Key, root: Root, presence: Key -> int)
    requires Spelled(canon, limit, ids, t, records) && Backed(canon, t, records) && NeverLies(presence, records)
    requires Publish(canon, limit, t, key, root, presence).Published?
    ensures var p := Publish(canon, limit, t, key, root, presence).table;
            Backed(canon, p, records) && InAdmission(canon, p, key, root) && TakenOrNot(canon, p, records, key, root, false)
  {
    var k := Canonical(canon, key);
    var room := if k !in t && |t| == limit then Prune(t, presence) else t;
    PruneBacked(canon, limit, ids, t, records, presence);
    CandidateBacked(canon, limit, ids, room, records, key, if k in t then t[k].spelling else key, root);
  }

  lemma SettledBacked(canon: Canon, limit: nat, ids: iset<string>, t: Table, records: map<Key, Root>,
                      key: Key, root: Root, taken: bool, status: int)
    requires Spelled(canon, limit, ids, t, records) && Backed(canon, t, records) && key.id in ids
    requires InAdmission(canon, t, key, root) && TakenOrNot(canon, t, records, key, root, taken)
    requires taken <==> status == STATUS_OK
    ensures Backed(canon, Settled(t, Canonical(canon, key), status), records)
  {
    var k := Canonical(canon, key);
    forall j | j in records
      ensures HeldFor(canon, Settled(t, k, status), j, records[j])
    {
      assert HeldFor(canon, t, j, records[j]);
      if Canonical(canon, j) == k {
        SameKey(canon, ids, j, key);
      }
    }
  }

  lemma SettleBacked(c: Config, t: Table, records: map<Key, Root>,
                     key: Key, root: Root, taken: bool, outcome: Outcome, presence: Key -> int)
    requires Spelled(c.canon, Limit(c), c.ids, t, records) && Backed(c.canon, t, records) && key.id in c.ids
    requires InAdmission(c.canon, t, key, root) && TakenOrNot(c.canon, t, records, key, root, taken)
    requires Honest(c, taken, outcome) && NeverLies(presence, records)
    ensures Backed(c.canon, Settle(t, Canonical(c.canon, key), outcome, presence), records)
  {
    if outcome.Answered? {
      var k := Canonical(c.canon, key);
      SettledBacked(c.canon, Limit(c), c.ids, t, records, key, root, taken, outcome.status);
      SettledValid(c.canon, Limit(c), t, k, outcome.status);
      PruneBacked(c.canon, Limit(c), c.ids, Settled(t, k, outcome.status), records, presence);
    }
  }

  lemma ForgetBacked(canon: Canon, limit: nat, ids: iset<string>, t: Table, records: map<Key, Root>, key: Key)
    requires Spelled(canon, limit, ids, t, records) && Backed(canon, t, records)
    requires key.id in ids && key !in records
    ensures Backed(canon, Forget(t, Canonical(canon, key)), records)
  {
    forall j | j in records
      ensures HeldFor(canon, Forget(t, Canonical(canon, key)), j, records[j])
    {
      assert HeldFor(canon, t, j, records[j]);
      if Canonical(canon, j) == Canonical(canon, key) {
        SameKey(canon, ids, j, key);
      }
    }
  }
}
