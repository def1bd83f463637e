/**
 Sources/CoAkkaRuntime/StreamCallbackOwners.swift in its own form: a dictionary
 of entry objects that admission, pruning, forgetting and detaching update in
 place, proved against CallbackTable.dfy. Entries that leave the dictionary are
 handed to the caller, who releases them later; none is lost or handed out twice.
 */
module CallbackOwners {
  import opened Wrappers
  import opened CallbackTable

  class OwnedEntry {
    const root: Root
    /** The canonical key this entry was admitted under. */
    ghost const key: Key
    var previous: OwnedEntry?
    var status: Option<int>

    constructor (root: Root, previous: OwnedEntry?, ghost key: Key)
      ensures this.root == root && this.previous == previous && this.key == key && status == None
    {
      this.root := root;
      this.key := key;
      this.previous := previous;
      status := None;
    }
  }

  datatype Stored = Stored(spelling: Key, entry: OwnedEntry)

  type Dictionary = map<Key, Stored>

  predicate Distinct<X(==)>(s: seq<X>) {
    forall i, j :: 0 <= i < j < |s| ==> s[i] != s[j]
  }

  function Elements<X(==)>(s: seq<X>): set<X> {
    set x | x in s
  }

  // ----- What a dictionary of entries holds, independently of the heap

  /** The fields of an entry object. */
  datatype Cell = Cell(root: Root, key: Key, previous: OwnedEntry?, status: Option<int>)

  type Cells = map<OwnedEntry, Cell>

  /** The objects' fields are as recorded. */
  ghost predicate Mirrors(cells: Cells)
    reads cells.Keys
  {
    forall e :: e in cells ==>
                  e.root == cells[e].root && e.key == cells[e].key
                  && e.previous == cells[e].previous && e.status == cells[e].status
  }

  /** The entry `e` is the value `v`, kept under `k` with what it would replace. */
  ghost predicate IsEntry(cells: Cells, k: Key, e: OwnedEntry, v: Entry) {
    && e in cells && cells[e].key == k && cells[e].root == v.root && cells[e].status == v.status
    && if cells[e].previous == null then v.previous.None?
       else
         var p := cells[e].previous;
         && p in cells && p != e && cells[p].key == k && cells[p].previous == null
         && v.previous == Some(Entry(cells[p].root, cells[p].status, None))
  }

  ghost predicate HoldsAt(m: Dictionary, t: Table, cells: Cells, k: Key) {
    k in m && k in t && m[k].spelling == t[k].spelling && IsEntry(cells, k, m[k].entry, t[k].entry)
  }

  /** An owned entry is found under its own key. */
  ghost predicate Found(m: Dictionary, cells: Cells, e: OwnedEntry) {
    && e in cells && cells[e].key in m
    && var top := m[cells[e].key].entry;
       top == e || (top in cells && cells[top].previous == e)
  }

  /** The dictionary holds the table `t` and keeps exactly the recorded entries alive. */
  ghost predicate Represents(m: Dictionary, t: Table, cells: Cells) {
    && m.Keys == t.Keys
    && (forall k {:trigger HoldsAt(m, t, cells, k)} :: k in m ==> HoldsAt(m, t, cells, k))
    && (forall e {:trigger Found(m, cells, e)} :: e in cells ==> Found(m, cells, e))
  }

  /** `rest` is `m` without `keys`. */
  ghost predicate Without(m: Dictionary, keys: seq<Key>, rest: Dictionary) {
    && (forall k :: k in rest <==> k in m && k !in keys)
    && (forall k :: k in rest ==> rest[k] == m[k])
  }

  /** `out` are the entries of `keys`, in that order. */
  ghost predicate EntriesOf(m: Dictionary, keys: seq<Key>, out: seq<OwnedEntry>) {
    && |out| == |keys|
    && forall i :: 0 <= i < |keys| ==> keys[i] in m && out[i] == m[keys[i]].entry
  }

  lemma WithoutStep(m: Dictionary, keys: seq<Key>, i: nat, rest: Dictionary)
    requires i < |keys| && Distinct(keys) && keys[i] in m && Without(m, keys[..i], rest)
    ensures keys[i] in rest && rest[keys[i]] == m[keys[i]]
    ensures Without(m, keys[..i + 1], rest - {keys[i]}) && |rest - {keys[i]}| == |rest| - 1
  {
    assert keys[..i + 1] == keys[..i] + [keys[i]];
    RemoveOne(rest, keys[i]);
  }

  lemma EntriesStep(m: Dictionary, keys: seq<Key>, i: nat, handed: seq<OwnedEntry>, retired: seq<OwnedEntry>)
    requires i < |keys| && keys[i] in m && |handed| <= |retired| && EntriesOf(m, keys[..i], retired[|handed|..])
    ensures EntriesOf(m, keys[..i + 1], (retired + [m[keys[i]].entry])[|handed|..])
  {
    assert (retired + [m[keys[i]].entry])[|handed|..] == retired[|handed|..] + [m[keys[i]].entry];
    assert keys[..i + 1] == keys[..i] + [keys[i]];
  }

  lemma RemoveOne(m: Dictionary, k: Key)
    requires k in m
    ensures |m - {k}| == |m| - 1
  {
    assert (m - {k}).Keys == m.Keys - {k};
  }

  lemma SameSize(m: Dictionary, t: Table)
    requires m.Keys == t.Keys
    ensures |m| == |t|
  {
    assert |m| == |m.Keys| == |t.Keys| == |t|;
  }

  // ----- One update at a time

  lemma PublishShares(m: Dictionary, t: Table, cells: Cells, k: Key, spelling: Key, root: Root,
                      previous: OwnedEntry?, mine: OwnedEntry)
    requires Represents(m, t, cells) && mine !in cells
    requires if k in m then previous == m[k].entry && t[k].entry.previous.None? else previous == null
    ensures Represents(m[k := Stored(spelling, mine)], t[k := CandidateSlot(t, k, spelling, root)],
                       cells[mine := Cell(root, k, previous, None)])
  {
    var m1, t1 := m[k := Stored(spelling, mine)], t[k := CandidateSlot(t, k, spelling, root)];
    var cells1 := cells[mine := Cell(root, k, previous, None)];
    assert k in m ==> HoldsAt(m, t, cells, k);
    forall j | j in m1
      ensures HoldsAt(m1, t1, cells1, j)
    {
      assert j != k ==> HoldsAt(m, t, cells, j);
    }
    forall e | e in cells1
      ensures Found(m1, cells1, e)
    {
      assert e != mine ==> Found(m, cells, e);
    }
  }

  /** A refused candidate is gone and what it hid is back in its place. */
  lemma RefuseShares(m: Dictionary, t: Table, cells: Cells, k: Key, status: int, rest: Dictionary)
    requires Represents(m, t, cells) && k in m && k in t && status != STATUS_OK
    requires var mine := m[k].entry;
             mine in cells && rest == if cells[mine].previous == null then m - {k}
                                      else m[k := Stored(m[k].spelling, cells[mine].previous)]
    ensures Represents(rest, Settled(t, k, status), cells - {m[k].entry})
  {
    var t1, cells1 := Settled(t, k, status), cells - {m[k].entry};
    assert HoldsAt(m, t, cells, k);
    forall j | j in rest
      ensures HoldsAt(rest, t1, cells1, j)
    {
      assert HoldsAt(m, t, cells, j);
    }
    forall e | e in cells1
      ensures Found(rest, cells1, e)
    {
      assert Found(m, cells, e);
    }
  }

  /** The records once candidate `mine` is accepted: it replaces nothing any more. */
  ghost function Accepted(cells: Cells, mine: OwnedEntry): Cells
    requires mine in cells
  {
    var c := cells[mine];
    (if c.previous == null then cells else cells - {c.previous})[mine := c.(previous := null, status := Some(STATUS_OK))]
  }

  lemma AcceptShares(m: Dictionary, t: Table, cells: Cells, k: Key)
    requires Represents(m, t, cells) && k in m && k in t && m[k].entry in cells
    ensures Represents(m, Settled(t, k, STATUS_OK), Accepted(cells, m[k].entry))
  {
    var t1, cells1 := Settled(t, k, STATUS_OK), Accepted(cells, m[k].entry);
    assert HoldsAt(m, t, cells, k);
    forall j | j in m
      ensures HoldsAt(m, t1, cells1, j)
    {
      assert HoldsAt(m, t, cells, j);
    }
    forall e | e in cells1
      ensures Found(m, cells1, e)
    {
      assert Found(m, cells, e);
    }
  }

  /** What the slot of a key keeps alive. */
  ghost function Chain(cells: Cells, e: OwnedEntry): set<OwnedEntry>
    requires e in cells
  {
    {e} + if cells[e].previous == null then {} else {cells[e].previous}
  }

  lemma ForgetShares(m: Dictionary, t: Table, cells: Cells, k: Key)
    requires Represents(m, t, cells) && k in m && m[k].entry in cells
    ensures Represents(m - {k}, t - {k}, cells - Chain(cells, m[k].entry))
  {
    var m1, t1, cells1 := m - {k}, t - {k}, cells - Chain(cells, m[k].entry);
    assert HoldsAt(m, t, cells, k);
    forall j | j in m1
      ensures HoldsAt(m1, t1, cells1, j)
    {
      assert HoldsAt(m, t, cells, j);
    }
    forall e | e in cells1
      ensures Found(m1, cells1, e)
    {
      assert Found(m, cells, e);
    }
  }

  /** The entries of distinct keys are distinct, and are what the dictionary without those keys no longer owns. */
  lemma DroppedEntries(m: Dictionary, t: Table, cells: Cells, keys: seq<Key>, out: seq<OwnedEntry>)
    requires Represents(m, t, cells) && Distinct(keys) && EntriesOf(m, keys, out)
    requires forall k :: k in keys ==> m[k].entry in cells && cells[m[k].entry].previous == null
    ensures Elements(out) <= cells.Keys && Distinct(out)
    ensures forall e :: e in cells ==> (e in out <==> cells[e].key in keys)
  {
    forall i, j | 0 <= i < j < |out|
      ensures out[i] != out[j]
    {
      assert HoldsAt(m, t, cells, keys[i]) && HoldsAt(m, t, cells, keys[j]);
    }
    forall e | e in out
      ensures e in cells && cells[e].key in keys
    {
      var i :| 0 <= i < |out| && out[i] == e;
      assert HoldsAt(m, t, cells, keys[i]);
    }
    forall e | e in cells && cells[e].key in keys
      ensures e in out
    {
      var i :| 0 <= i < |keys| && keys[i] == cells[e].key;
      assert Found(m, cells, e) && out[i] == m[cells[e].key].entry;
    }
  }

  /** Dropping the missing entries is pruning; the entries dropped are distinct and were owned. */
  lemma PruneShares(m: Dictionary, t: Table, cells: Cells, keys: seq<Key>,
                    presence: Key -> int, rest: Dictionary, pruned: Table, out: seq<OwnedEntry>)
    requires Represents(m, t, cells) && Pruned(t, pruned, presence)
    requires forall k :: k in t ==> EntryValid(t[k].entry)
    requires Distinct(keys) && forall k :: k in keys <==> k in t && Absent(t[k], presence)
    requires Without(m, keys, rest) && EntriesOf(m, keys, out)
    ensures Represents(rest, pruned, cells - Elements(out))
    ensures Elements(out) <= cells.Keys && Distinct(out)
  {
    forall k | k in keys
      ensures m[k].entry in cells && cells[m[k].entry].previous == null
    {
      assert HoldsAt(m, t, cells, k) && EntryValid(t[k].entry);
    }
    DroppedEntries(m, t, cells, keys, out);
    assert rest.Keys == pruned.Keys;
    var cells1 := cells - Elements(out);
    forall k | k in rest
      ensures HoldsAt(rest, pruned, cells1, k)
    {
      assert HoldsAt(m, t, cells, k);
    }
    forall e | e in cells1
      ensures Found(rest, cells1, e)
    {
      assert Found(m, cells, e);
    }
  }

  // ----- Handing entries out

  /** `retired` extends `handed` by the entries of `all` that are owned no longer, each once. */
  ghost predicate HandedOut(all: set<OwnedEntry>, owned: set<OwnedEntry>, handed: seq<OwnedEntry>, retired: seq<OwnedEntry>) {
    && |handed| <= |retired| && retired[..|handed|] == handed
    && var out := retired[|handed|..];
       && owned + Elements(out) == all
       && owned !! Elements(out)
       && Distinct(out)
  }

  lemma HandDropped(cells: Cells, handed: seq<OwnedEntry>, retired: seq<OwnedEntry>)
    requires |handed| <= |retired| && retired[..|handed|] == handed
    requires Elements(retired[|handed|..]) <= cells.Keys && Distinct(retired[|handed|..])
    ensures HandedOut(cells.Keys, (cells - Elements(retired[|handed|..])).Keys, handed, retired)
  {
  }

  lemma HandNone(all: set<OwnedEntry>, handed: seq<OwnedEntry>)
    ensures HandedOut(all, all, handed, handed)
  {
  }

  lemma HandOne(all: set<OwnedEntry>, owned: set<OwnedEntry>, handed: seq<OwnedEntry>, retired: seq<OwnedEntry>, e: OwnedEntry)
    requires HandedOut(all, owned, handed, retired) && e in owned
    ensures HandedOut(all, owned - {e}, handed, retired + [e])
  {
    var out := retired[|handed|..];
    assert (retired + [e])[|handed|..] == out + [e];
    assert Elements(out + [e]) == Elements(out) + {e};
  }

  lemma HandMore(all: set<OwnedEntry>, owned: set<OwnedEntry>, rest: set<OwnedEntry>,
                 handed: seq<OwnedEntry>, retired: seq<OwnedEntry>, more: seq<OwnedEntry>)
    requires HandedOut(all, owned, handed, retired) && HandedOut(owned, rest, retired, more)
    ensures HandedOut(all, rest, handed, more)
  {
    var first, second := retired[|handed|..], more[|retired|..];
    assert more[..|retired|] == retired;
    assert more[|handed|..] == first + second;
    assert Elements(first + second) == Elements(first) + Elements(second);
    forall i, j | 0 <= i < j < |first + second|
      ensures (first + second)[i] != (first + second)[j]
    {
      if i < |first| <= j {
        assert first[i] in Elements(first) && second[j - |first|] in Elements(second);
      }
    }
  }

  lemma OwnOne(all: set<OwnedEntry>, owned: set<OwnedEntry>, handed: seq<OwnedEntry>, retired: seq<OwnedEntry>, e: OwnedEntry)
    requires HandedOut(all, owned, handed, retired) && e !in all
    ensures HandedOut(all + {e}, owned + {e}, handed, retired)
  {
  }

  // ----- The roots behind the entries

  function RootSet(entries: set<OwnedEntry>): set<Root> {
    set e | e in entries :: e.root
  }

  function RootsOut(handed: seq<OwnedEntry>, retired: seq<OwnedEntry>): set<Root>
    requires |handed| <= |retired|
  {
    RootSet(Elements(retired[|handed|..]))
  }

  /** The object behind a root that the slot of `k` keeps alive. */
  lemma HolderOf(m: Dictionary, t: Table, cells: Cells, k: Key, root: Root) returns (e: OwnedEntry)
    requires HoldsAt(m, t, cells, k) && Holds(t[k].entry, root)
    ensures e in cells && cells[e].root == root
  {
    e := m[k].entry;
    if cells[e].root != root {
      e := cells[e].previous;
    }
  }

  /** The roots of a table are those of the entries that its dictionary keeps alive. */
  lemma RootsAreCells(m: Dictionary, t: Table, cells: Cells)
    requires Represents(m, t, cells) && forall e :: e in cells ==> cells[e].root == e.root
    ensures Roots(t) == RootSet(cells.Keys)
  {
    forall root | root in Roots(t)
      ensures root in RootSet(cells.Keys)
    {
      var k :| k in t && Holds(t[k].entry, root);
      assert HoldsAt(m, t, cells, k);
      var e := HolderOf(m, t, cells, k, root);
    }
    forall e | e in cells
      ensures e.root in Roots(t)
    {
      assert Found(m, cells, e) && HoldsAt(m, t, cells, cells[e].key);
      var top := t[cells[e].key].entry;
      assert top.root == e.root || top.previous.value.root == e.root;
    }
  }

  lemma RootSetUnion(a: set<OwnedEntry>, b: set<OwnedEntry>)
    ensures RootSet(a + b) == RootSet(a) + RootSet(b)
  {
  }

  /** Handing out entries hands over their roots. */
  lemma EntriesHandOver(all: set<OwnedEntry>, owned: set<OwnedEntry>, handed: seq<OwnedEntry>, retired: seq<OwnedEntry>)
    requires HandedOut(all, owned, handed, retired)
    ensures HandsOver(RootSet(all), RootSet(owned), RootsOut(handed, retired))
  {
    RootSetUnion(owned, Elements(retired[|handed|..]));
  }

  lemma ChainHandsOver(cells: Cells, e: OwnedEntry)
    requires e in cells && (cells[e].previous == null || cells[e].previous in cells)
    ensures HandsOver(RootSet(cells.Keys), RootSet((cells - Chain(cells, e)).Keys), RootSet(Chain(cells, e)))
  {
    assert cells.Keys == (cells - Chain(cells, e)).Keys + Chain(cells, e);
    RootSetUnion((cells - Chain(cells, e)).Keys, Chain(cells, e));
  }

  /** The largest Swift Int on the 64-bit platforms the package supports. */
  const INT_MAX: int := 0x7fff_ffff_ffff_ffff

  class StreamCallbackOwners {
    const limit: nat
    const canon: Canon
    var entries: Dictionary
    var retiredKeys: seq<Key>

    /** The table the dictionary holds, and the entries it keeps alive with their fields. */
    ghost var table: Table
    ghost var cells: Cells

    ghost predicate Valid()
      reads this, cells.Keys
    {
      && retiredKeys == []
      && Mirrors(cells)
      && Represents(entries, table, cells)
      && TableValid(canon, limit, table)
    }

    /** A valid owner keeps alive exactly the roots of its table. */
    lemma KeepsRoots()
      requires Valid()
      ensures Roots(table) == RootSet(cells.Keys)
    {
      RootsAreCells(entries, table, cells);
    }

    constructor (limit: nat, canon: Canon)
      ensures Valid() && table == map[] && cells == map[] && this.limit == limit && this.canon == canon
    {
      this.limit := limit;
      this.canon := canon;
      entries := map[];
      retiredKeys := [];
      table := map[];
      cells := map[];
    }

    /** The table for a lane of the given native capacity, or nothing if that is unrepresentable. */
    static method Create(capacity: int, canon: Canon) returns (owners: StreamCallbackOwners?)
      ensures owners != null <==> 0 < capacity < 0x7fff_ffff_ffff_ffff
      ensures owners != null ==>
                fresh(owners) && owners.Valid() && owners.table == map[]
                && owners.limit == capacity + 1 && owners.canon == canon
    {
      if capacity <= 0 || capacity >= INT_MAX {
        return null;
      }
      owners := new StreamCallbackOwners(capacity + 1, canon);
    }

    // ----- Pruning

    /** Collects the keys of the entries whose record Core says is gone. */
    method CollectAbsent(presence: Key -> int)
      requires Valid()
      modifies `retiredKeys
      ensures Distinct(retiredKeys)
      ensures forall k :: k in retiredKeys <==> k in table && Absent(table[k], presence)
    {
      var todo := entries.Keys;
      while todo != {}
        invariant todo <= entries.Keys
        invariant Distinct(retiredKeys)
        invariant forall k :: k in retiredKeys <==> k in table && k !in todo && Absent(table[k], presence)
        decreases todo
      {
        var k :| k in todo;
        todo := todo - {k};
        assert HoldsAt(entries, table, cells, k);
        if entries[k].entry.status.Some? && presence(entries[k].spelling) == BAD_STATE {
          retiredKeys := retiredKeys + [k];
        }
      }
    }

    /** Removes the collected keys, handing out their entries. */
    method DropRetired(handed: seq<OwnedEntry>) returns (retired: seq<OwnedEntry>)
      requires Distinct(retiredKeys) && forall k :: k in retiredKeys ==> k in entries
      modifies `entries, `retiredKeys
      ensures retiredKeys == [] && Without(old(entries), old(retiredKeys), entries)
      ensures |retired| >= |handed| && retired[..|handed|] == handed
      ensures EntriesOf(old(entries), old(retiredKeys), retired[|handed|..])
      ensures |retired| - |handed| == |old(entries)| - |entries|
    {
      ghost var all, keys := entries, retiredKeys;
      retired := handed;
      var i := 0;
      while i < |retiredKeys|
        invariant 0 <= i <= |retiredKeys| && retiredKeys == keys
        invariant Without(all, keys[..i], entries) && |entries| == |all| - i
        invariant |retired| >= |handed| && retired[..|handed|] == handed
        invariant EntriesOf(all, keys[..i], retired[|handed|..])
      {
        var k := retiredKeys[i];
        WithoutStep(all, keys, i, entries);
        EntriesStep(all, keys, i, handed, retired);
        retired := retired + [entries[k].entry];
        entries := entries - {k};
        i := i + 1;
      }
      assert keys[..i] == keys;
      retiredKeys := [];
    }

    /** Drops every resolved entry whose record Core says is gone, handing it out. */
    method PruneEntries(presence: Key -> int, handed: seq<OwnedEntry>) returns (retired: seq<OwnedEntry>)
      requires Valid()
      modifies this
      ensures Valid() && Pruned(old(table), table, presence)
      ensures HandedOut(old(cells).Keys, cells.Keys, handed, retired)
      ensures HandsOver(Roots(old(table)), Roots(table), RootsOut(handed, retired))
      ensures |retired| - |handed| == |old(entries)| - |entries|
    {
      KeepsRoots();
      CollectAbsent(presence);
      ghost var all, keys := entries, retiredKeys;
      retired := DropRetired(handed);
      RecordPrune(all, keys, presence, Prune(table, presence), retired[|handed|..]);
      HandDropped(old(cells), handed, retired);
      KeepsRoots();
      EntriesHandOver(old(cells).Keys, cells.Keys, handed, retired);
    }

    /** Brings the specification fields up to date once the missing entries are out. */
    ghost method RecordPrune(all: Dictionary, keys: seq<Key>, presence: Key -> int, pruned: Table, out: seq<OwnedEntry>)
      requires retiredKeys == [] && Mirrors(cells) && TableValid(canon, limit, table)
      requires Represents(all, table, cells) && pruned == Prune(table, presence)
      requires Distinct(keys) && forall k :: k in keys <==> k in table && Absent(table[k], presence)
      requires Without(all, keys, entries) && EntriesOf(all, keys, out)
      modifies `table, `cells
      ensures Valid() && table == pruned && Pruned(old(table), table, presence)
      ensures cells == old(cells) - Elements(out) && Elements(out) <= old(cells).Keys && Distinct(out)
    {
      PrunedIsPrune(table, pruned, presence);
      PruneShares(all, table, cells, keys, presence, entries, pruned, out);
      PruneSmaller(table, pruned);
      table, cells := pruned, cells - Elements(out);
    }

    // ----- Admission

    /** Strong publication: the candidate is owned before Core is called. */
    method PublishCandidate(k: Key, spelling: Key, root: Root, previous: OwnedEntry?) returns (mine: OwnedEntry)
      requires Valid() && Canonical(canon, spelling) == k
      requires k in entries ==> previous == entries[k].entry && spelling == entries[k].spelling && previous.status.Some?
      requires k !in entries ==> previous == null && |entries| < limit
      modifies `entries, `table, `cells
      ensures Valid() && fresh(mine)
      ensures table == old(table)[k := CandidateSlot(old(table), k, spelling, root)]
      ensures mine !in old(cells) && cells == old(cells)[mine := Cell(root, k, previous, None)]
      ensures entries == old(entries)[k := Stored(spelling, mine)]
    {
      assert k in entries ==> HoldsAt(entries, table, cells, k);
      SameSize(entries, table);
      CandidateValid(canon, limit, table, k, CandidateSlot(table, k, spelling, root));
      mine := new OwnedEntry(root, previous, k);
      PublishShares(entries, table, cells, k, spelling, root, previous, mine);
      entries := entries[k := Stored(spelling, mine)];
      table := table[k := CandidateSlot(table, k, spelling, root)];
      cells := cells[mine := Cell(root, k, previous, None)];
    }

    /** The candidate of slot `k`, still without an outcome. */
    ghost predicate Pending(k: Key, mine: OwnedEntry, previous: OwnedEntry?)
      reads this
    {
      && k in entries && k in table && entries[k].entry == mine && mine in cells
      && cells[mine].previous == previous && cells[mine].status == None
    }

    /** A refused candidate leaves and what it would have replaced is back. */
    method RefuseCandidate(k: Key, mine: OwnedEntry, previous: OwnedEntry?, status: int)
      requires Valid() && Pending(k, mine, previous) && status != STATUS_OK
      modifies this, mine
      ensures Valid() && cells == old(cells) - {mine}
      ensures k in old(table) && table == Settled(old(table), k, status)
    {
      assert HoldsAt(entries, table, cells, k);
      ghost var m, t, c := entries, table, cells;
      SettledValid(canon, limit, t, k, status);
      mine.status := Some(status);
      if previous == null {
        entries := entries - {k};
      } else {
        entries := entries[k := Stored(entries[k].spelling, previous)];
      }
      RefuseShares(m, t, c, k, status, entries);
      table, cells := Settled(t, k, status), c - {mine};
    }

    /** An accepted candidate lets go of what it replaced. */
    method AcceptCandidate(k: Key, mine: OwnedEntry, previous: OwnedEntry?)
      requires Valid() && Pending(k, mine, previous)
      modifies `table, `cells, mine
      ensures Valid() && mine in old(cells) && cells == Accepted(old(cells), mine)
      ensures k in old(table) && table == Settled(old(table), k, STATUS_OK)
    {
      assert HoldsAt(entries, table, cells, k);
      ghost var t, c := table, cells;
      SettledValid(canon, limit, t, k, STATUS_OK);
      mine.status := Some(STATUS_OK);
      mine.previous := null;
      AcceptShares(entries, t, c, k);
      table, cells := Settled(t, k, STATUS_OK), Accepted(c, mine);
    }

    /** Room for a new key: a full dictionary is pruned first, and refuses if that frees nothing. */
    method MakeRoom(key: Key, ghost root: Root, before: Key -> int, handed: seq<OwnedEntry>)
      returns (room: bool, retired: seq<OwnedEntry>)
      requires Valid() && Canonical(canon, key) !in entries
      modifies this
      ensures Valid() && Canonical(canon, key) !in entries
      ensures room <==> Publish(canon, limit, old(table), key, root, before).Published?
      ensures table == if |old(table)| == limit then Prune(old(table), before) else old(table)
      ensures room ==> |entries| < limit
      ensures !room ==> table == old(table) && cells == old(cells) && retired == handed
      ensures HandedOut(old(cells).Keys, cells.Keys, handed, retired)
      ensures |retired| - |handed| + |entries| <= limit
    {
      retired := handed;
      HandNone(cells.Keys, handed);
      SameSize(entries, table);
      if |entries| == limit {
        ghost var t, c := table, cells;
        retired := PruneEntries(before, retired);
        PrunedIsPrune(t, table, before);
        SameSize(entries, table);
        if |entries| >= limit {
          ExhaustedUnchanged(canon, limit, t, key, root, before);
          assert retired == handed;
          assert cells == c;
        }
      }
      room := |entries| < limit;
    }

    /** After a refusal the candidate is handed out. */
    method SettleRefused(k: Key, mine: OwnedEntry, previous: OwnedEntry?, status: int, sofar: seq<OwnedEntry>)
      returns (retired: seq<OwnedEntry>)
      requires Valid() && Pending(k, mine, previous) && status != STATUS_OK
      modifies this, mine
      ensures Valid() && k in old(table) && table == Settled(old(table), k, status)
      ensures HandedOut(old(cells).Keys, cells.Keys, sofar, retired) && |retired| == |sofar| + 1
      ensures HandsOver(Roots(old(table)), Roots(table), RootsOut(sofar, retired))
    {
      KeepsRoots();
      HandNone(cells.Keys, sofar);
      HandOne(cells.Keys, cells.Keys, sofar, sofar, mine);
      RefuseCandidate(k, mine, previous, status);
      retired := sofar + [mine];
      KeepsRoots();
      EntriesHandOver(old(cells).Keys, cells.Keys, sofar, retired);
    }

    /** After acceptance the replaced entry is handed out, and whatever Core no longer keeps. */
    method SettleAccepted(k: Key, mine: OwnedEntry, previous: OwnedEntry?, after: Key -> int, sofar: seq<OwnedEntry>)
      returns (retired: seq<OwnedEntry>)
      requires Valid() && Pending(k, mine, previous)
      modifies this, mine
      ensures Valid() && k in old(table) && Pruned(Settled(old(table), k, STATUS_OK), table, after)
      ensures HandedOut(old(cells).Keys, cells.Keys, sofar, retired)
      ensures HandsOver(Roots(old(table)), Roots(table), RootsOut(sofar, retired))
      ensures |retired| <= |sofar| + (if previous == null then 0 else 1) + |old(entries)|
    {
      KeepsRoots();
      var replaced := AcceptAndHand(k, mine, previous, sofar);
      ghost var kept := cells;
      retired := PruneEntries(after, replaced);
      HandMore(old(cells).Keys, kept.Keys, cells.Keys, sofar, replaced, retired);
      KeepsRoots();
      EntriesHandOver(old(cells).Keys, cells.Keys, sofar, retired);
    }

    method AcceptAndHand(k: Key, mine: OwnedEntry, previous: OwnedEntry?, sofar: seq<OwnedEntry>)
      returns (retired: seq<OwnedEntry>)
      requires Valid() && Pending(k, mine, previous)
      modifies `table, `cells, mine
      ensures Valid() && k in old(table) && table == Settled(old(table), k, STATUS_OK)
      ensures HandedOut(old(cells).Keys, cells.Keys, sofar, retired)
      ensures |retired| == |sofar| + if previous == null then 0 else 1
    {
      assert HoldsAt(entries, table, cells, k);
      ghost var before := cells;
      HandNone(before.Keys, sofar);
      AcceptCandidate(k, mine, previous);
      retired := sofar;
      if previous != null {
        HandOne(before.Keys, before.Keys, sofar, sofar, previous);
        assert cells.Keys == before.Keys - {previous};
        retired := sofar + [previous as OwnedEntry];
      } else {
        assert cells.Keys == before.Keys;
      }
    }

    /**
     The part of admission before Core is called: refuses without a call, or
     publishes a candidate that the dictionary owns from then on.
     */
    method Prepare(key: Key, root: Root, before: Key -> int, handed: seq<OwnedEntry>)
      returns (refusal: Option<Admission>, mine: OwnedEntry?, previous: OwnedEntry?, retired: seq<OwnedEntry>)
      requires Valid()
      modifies this
      ensures Valid()
      ensures match Publish(canon, limit, old(table), key, root, before)
              case Refused(why) =>
                refusal == Some(why) && mine == null && table == old(table) && cells == old(cells) && retired == handed
              case Published(t) =>
                refusal == None && table == t && mine != null && fresh(mine)
                && Pending(Canonical(canon, key), mine, previous) && cells[mine].root == root
      ensures mine != null ==> HandedOut(old(cells).Keys + {mine}, cells.Keys, handed, retired)
      ensures mine != null ==> HandsOver(Roots(old(table)) + {root}, Roots(table), RootsOut(handed, retired))
      ensures mine != null ==> |retired| - |handed| + |entries| <= limit + if previous == null then 1 else 0
    {
      var k := Canonical(canon, key);
      KeepsRoots();
      mine, previous := null, null;
      if k in entries {
        assert HoldsAt(entries, table, cells, k);
        previous := entries[k].entry;
        if previous.status.None? {
          return Some(Unresolved), null, null, handed;
        }
        mine, retired := PublishAndHand(k, entries[k].spelling, root, previous, handed, handed, cells.Keys);
      } else {
        var room;
        room, retired := MakeRoom(key, root, before, handed);
        if !room {
          return Some(StorageExhausted), null, null, retired;
        }
        mine, retired := PublishAndHand(k, key, root, previous, handed, retired, old(cells).Keys);
      }
      refusal := None;
      KeepsRoots();
      RootSetUnion(old(cells).Keys, {mine});
      EntriesHandOver(old(cells).Keys + {mine}, cells.Keys, handed, retired);
    }

    /** Publication after `retired` was handed out of `all`. */
    method PublishAndHand(k: Key, spelling: Key, root: Root, previous: OwnedEntry?,
                          ghost handed: seq<OwnedEntry>, sofar: seq<OwnedEntry>, ghost all: set<OwnedEntry>)
      returns (mine: OwnedEntry, retired: seq<OwnedEntry>)
      requires Valid() && Canonical(canon, spelling) == k
      requires k in entries ==> previous == entries[k].entry && spelling == entries[k].spelling && previous.status.Some?
      requires k !in entries ==> previous == null && |entries| < limit
      requires (sofar == handed && all == cells.Keys) || HandedOut(all, cells.Keys, handed, sofar)
      modifies `entries, `table, `cells
      ensures Valid() && fresh(mine)
      ensures table == old(table)[k := CandidateSlot(old(table), k, spelling, root)]
      ensures Pending(k, mine, previous) && cells[mine].root == root
      ensures retired == sofar && (mine !in all ==> HandedOut(all + {mine}, cells.Keys, handed, retired))
      ensures |entries| == |old(entries)| + if k in old(entries) then 0 else 1
      ensures |entries| <= limit
    {
      HandNone(cells.Keys, handed);
      ghost var kept := cells;
      mine := PublishCandidate(k, spelling, root, previous);
      retired := sofar;
      SameSize(entries, table);
      assert entries.Keys == old(entries).Keys + {k};
      if mine !in all {
        OwnOne(all, kept.Keys, handed, retired, mine);
        assert cells.Keys == kept.Keys + {mine};
      }
    }

    /**
     Admits `root` under `key`. Core's answer to the call is `outcome`; `before`
     and `after` are what it answers about the presence of records around it.
     The caller's list of handed-out entries is extended by exactly what left the
     dictionary: at most one more than the limit, both prunes together.
     */
    method Admit(key: Key, root: Root, before: Key -> int, outcome: Outcome, after: Key -> int,
                 handed: seq<OwnedEntry>)
      returns (r: Admission, retired: seq<OwnedEntry>, ghost candidate: set<OwnedEntry>)
      requires Valid()
      modifies this
      ensures Valid()
      ensures (table, r) == CallbackTable.Admit(canon, limit, old(table), key, root, before, outcome, after)
      ensures r == Unresolved <==>
                Canonical(canon, key) in old(table) && old(table)[Canonical(canon, key)].entry.status.None?
      ensures r == StorageExhausted <==>
                && Canonical(canon, key) !in old(table) && |old(table)| == limit
                && forall k :: k in old(table) ==> old(table)[k].entry.status.None? || before(old(table)[k].spelling) != -3
      ensures r != Unresolved && r != StorageExhausted ==>
                r == if outcome.Answered? then Admitted(outcome.status) else OutcomeLost
      ensures candidate == {} <==> r == Unresolved || r == StorageExhausted
      ensures forall e :: e in candidate ==> fresh(e) && e.root == root
      ensures HandedOut(old(cells).Keys + candidate, cells.Keys, handed, retired)
      ensures HandsOver(Roots(old(table)) + RootSet(candidate), Roots(table), RootsOut(handed, retired))
      ensures |retired| - |handed| <= limit + 1
    {
      candidate := {};
      KeepsRoots();
      RefusedExactly(canon, limit, table, key, root, before);
      HandNone(cells.Keys, handed);
      var refusal, mine, previous;
      refusal, mine, previous, retired := Prepare(key, root, before, handed);
      if refusal.Some? {
        return refusal.value, retired, candidate;
      }
      var k := Canonical(canon, key);
      candidate := {mine};
      ghost var published, t := cells.Keys, table;
      var offered := retired;
      HandNone(published, offered);
      match outcome {
        case Unreceived =>
          r := OutcomeLost;
        case Answered(status) =>
          if status != STATUS_OK {
            retired := SettleRefused(k, mine, previous, status, offered);
          } else {
            retired := SettleAccepted(k, mine, previous, after, offered);
            PrunedIsPrune(Settled(t, k, STATUS_OK), table, after);
          }
          r := Admitted(status);
      }
      HandMore(old(cells).Keys + candidate, published, cells.Keys, handed, offered, retired);
      KeepsRoots();
      RootSetUnion(old(cells).Keys, candidate);
      EntriesHandOver(old(cells).Keys + candidate, cells.Keys, handed, retired);
    }

    // ----- Forgetting and detaching

    /** Drops whatever a forgotten key holds, an unresolved candidate with what it hides. */
    method Forget(key: Key, handed: seq<OwnedEntry>) returns (retired: seq<OwnedEntry>)
      requires Valid()
      modifies this
      ensures Valid() && table == CallbackTable.Forget(old(table), Canonical(canon, key))
      ensures var k := Canonical(canon, key);
              if k in old(entries)
              then
                var e := old(entries)[k].entry;
                && retired == handed + [e] && e in old(cells) && cells == old(cells) - Chain(old(cells), e)
                && HandsOver(Roots(old(table)), Roots(table), RootSet(Chain(old(cells), e)))
              else retired == handed && cells == old(cells)
    {
      retired := handed;
      var k := Canonical(canon, key);
      if k in entries {
        assert HoldsAt(entries, table, cells, k);
        retired := retired + [entries[k].entry];
        KeepsRoots();
        ChainHandsOver(cells, entries[k].entry);
        Remove(k);
        KeepsRoots();
      } else {
        assert table - {k} == table;
      }
    }

    /** Takes the slot of `k` out, with everything it keeps alive. */
    method Remove(k: Key)
      requires Valid() && k in entries && entries[k].entry in cells
      modifies `entries, `table, `cells
      ensures Valid() && table == CallbackTable.Forget(old(table), k)
      ensures cells == old(cells) - Chain(old(cells), old(entries)[k].entry)
    {
      ForgetShares(entries, table, cells, k);
      PruneSmaller(table, table - {k});
      cells := cells - Chain(cells, entries[k].entry);
      table := table - {k};
      entries := entries - {k};
    }

    /** Hands the whole dictionary over and leaves an empty one. */
    method Detach() returns (retired: Dictionary)
      requires Valid()
      modifies this
      ensures Valid() && table == map[] && cells == map[]
      ensures retired == old(entries) && Represents(retired, old(table), old(cells))
      ensures Roots(old(table)) == RootSet(old(cells).Keys)
    {
      KeepsRoots();
      retired := entries;
      entries, table, cells := map[], map[], map[];
    }
  }
}
