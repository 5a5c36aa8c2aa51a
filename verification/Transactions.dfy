/** Snapshot-isolation staging for computes (termin_core/transaction.py). */
module Transactions {
  import opened Basics

  datatype Operation = Create | Update | Delete

  /** A staged or stored record is addressed by its content type and its id. */
  datatype Key = Key(content: string, id: Value)

  datatype StagedWrite = StagedWrite(key: Key, data: Record, operation: Operation, sequence: nat)

  type Rows = map<Key, Record>

  // ------------------------------------------------------------ the reference: replaying a journal

  /** One journal entry applied to a store: put the whole record, or remove it. */
  function ApplyWrite(rows: Rows, w: StagedWrite): Rows {
    if w.operation.Delete? then rows - {w.key} else rows[w.key := w.data]
  }

  function Replay(journal: seq<StagedWrite>, rows: Rows): Rows {
    if journal == [] then rows
    else ApplyWrite(Replay(journal[..|journal| - 1], rows), journal[|journal| - 1])
  }

  function Grouped(m: map<string, map<Value, Record>>, content: string, id: Value): Option<Record> {
    if content in m && id in m[content] then Some(m[content][id]) else None
  }

  lemma {:induction false} ReplaySplits(a: seq<StagedWrite>, b: seq<StagedWrite>, rows: Rows)
    ensures Replay(a + b, rows) == Replay(b, Replay(a, rows))
  {
    if b == [] {
      assert a + b == a;
    } else {
      assert (a + b)[..|a + b| - 1] == a + b[..|b| - 1];
      ReplaySplits(a, b[..|b| - 1], rows);
    }
  }

  /** A journal decides the keys it writes and leaves every other key as it was. */
  lemma {:induction false} ReplayDecidesItsKeys(journal: seq<StagedWrite>, rows: Rows, other: Rows, key: Key)
    ensures (exists w :: w in journal && w.key == key) ==>
              Lookup(Replay(journal, rows), key) == Lookup(Replay(journal, other), key)
    ensures (forall w :: w in journal ==> w.key != key) ==>
              Lookup(Replay(journal, rows), key) == Lookup(rows, key)
  {
    if journal != [] {
      var init, last := journal[..|journal| - 1], journal[|journal| - 1];
      assert forall w :: w in journal <==> w in init || w == last;
      ReplayDecidesItsKeys(init, rows, other, key);
      OneWriteDecides(Replay(init, rows), last, key);
      OneWriteDecides(Replay(init, other), last, key);
    }
  }

  lemma OneWriteDecides(rows: Rows, w: StagedWrite, key: Key)
    ensures Lookup(ApplyWrite(rows, w), key) ==
            if w.key != key then Lookup(rows, key) else if w.operation.Delete? then None else Some(w.data)
  {
  }

  /** Replaying again over any part of an earlier replay changes nothing. */
  lemma ReplayAbsorbsPartial(journal: seq<StagedWrite>, more: seq<StagedWrite>, k: nat, rows: Rows)
    requires k <= |journal|
    ensures Replay(journal + more, Replay(journal[..k], rows)) == Replay(journal + more, rows)
  {
    var whole, part := journal + more, Replay(journal[..k], rows);
    forall key: Key
      ensures Lookup(Replay(whole, part), key) == Lookup(Replay(whole, rows), key)
    {
      ReplayDecidesItsKeys(whole, part, rows, key);
      ReplayDecidesItsKeys(whole, rows, rows, key);
      ReplayDecidesItsKeys(journal[..k], rows, rows, key);
      assert forall w :: w in journal[..k] ==> w in whole;
    }
    SameLookupsSameRows(Replay(whole, part), Replay(whole, rows));
  }

  lemma SameLookupsSameRows(a: Rows, b: Rows)
    requires forall key :: Lookup(a, key) == Lookup(b, key)
    ensures a == b
  {
    assert forall key :: key in a <==> key in b by {
      forall key ensures key in a <==> key in b { assert Lookup(a, key) == Lookup(b, key); }
    }
    forall key | key in a ensures a[key] == b[key] { assert Lookup(a, key) == Lookup(b, key); }
  }

  // ------------------------------------------------------------ the summary of a journal

  /** The staging map and the tombstones together act on any store like the journal replayed. */
  ghost predicate Summarises(journal: seq<StagedWrite>, staging: map<Key, Record>, deleted: set<Key>) {
    && staging.Keys !! deleted
    && (forall key :: key in staging.Keys + deleted <==> key in WrittenKeys(journal))
    && (forall rows: Rows :: Replay(journal, rows) == (rows - deleted) + staging)
  }

  ghost function WrittenKeys(journal: seq<StagedWrite>): set<Key> {
    set w | w in journal :: w.key
  }

  lemma StagingFollowsJournal(journal: seq<StagedWrite>, staging: map<Key, Record>, deleted: set<Key>, w: StagedWrite)
    requires Summarises(journal, staging, deleted)
    ensures w.operation.Delete? ==> Summarises(journal + [w], staging - {w.key}, deleted + {w.key})
    ensures !w.operation.Delete? ==> Summarises(journal + [w], staging[w.key := w.data], deleted - {w.key})
  {
    assert (journal + [w])[..|journal|] == journal;
    assert WrittenKeys(journal + [w]) == WrittenKeys(journal) + {w.key};
    var staging' := if w.operation.Delete? then staging - {w.key} else staging[w.key := w.data];
    var deleted' := if w.operation.Delete? then deleted + {w.key} else deleted - {w.key};
    assert staging'.Keys + deleted' == staging.Keys + deleted + {w.key};
    forall rows: Rows
      ensures Replay(journal + [w], rows) == (rows - deleted') + staging'
    {
      OverlayStep(rows, staging, deleted, w);
    }
  }

  lemma OverlayStep(rows: Rows, staging: map<Key, Record>, deleted: set<Key>, w: StagedWrite)
    ensures w.operation.Delete? ==>
              ApplyWrite((rows - deleted) + staging, w) == (rows - (deleted + {w.key})) + (staging - {w.key})
    ensures !w.operation.Delete? ==>
              ApplyWrite((rows - deleted) + staging, w) == (rows - (deleted - {w.key})) + staging[w.key := w.data]
  {
  }

  // ------------------------------------------------------------ production

  /** The production store a commit writes to. */
  class Production {
    var rows: Rows

    constructor ()
      ensures rows == map[]
    {
      rows := map[];
    }
  }

  datatype CommitResult = Committed | Inactive | WriteFailed(position: nat)

  // ------------------------------------------------------------ listings of a content type

  function IdsOf(records: seq<Record>): seq<Value> {
    seq(|records|, i requires 0 <= i < |records| => Get(records[i], "id"))
  }

  lemma IdsAreTheIdColumn(records: seq<Record>, i: nat)
    requires i < |records|
    ensures |IdsOf(records)| == |records|
    ensures IdsOf(records)[i] == if "id" in records[i] then records[i]["id"] else Null
  {
  }

  ghost predicate ListsSome(records: seq<Record>, ids: seq<Value>, content: string, rows: Rows) {
    && |records| == |ids| && NoDup(ids)
    && forall i :: 0 <= i < |ids| ==> Lookup(rows, Key(content, ids[i])) == Some(records[i])
  }

  /** `records` are the rows of one content type, each once, in some order; `ids` says which is which. */
  ghost predicate ListsContent(records: seq<Record>, ids: seq<Value>, content: string, rows: Rows) {
    && ListsSome(records, ids, content, rows)
    && forall v :: Key(content, v) in rows ==> v in ids
  }

  ghost predicate IsListing(records: seq<Record>, content: string, rows: Rows) {
    exists ids :: ListsContent(records, ids, content, rows)
  }

  /** A content type has one listing, up to order. */
  lemma ListingsAreUnique(xs: seq<Record>, ys: seq<Record>, content: string, rows: Rows)
    requires IsListing(xs, content, rows) && IsListing(ys, content, rows)
    ensures multiset(xs) == multiset(ys)
  {
    var ids :| ListsContent(xs, ids, content, rows);
    var jds :| ListsContent(ys, jds, content, rows);
    forall v ensures v in ids <==> v in jds {
      ListedIffStored(xs, ids, content, rows, v);
      ListedIffStored(ys, jds, content, rows, v);
    }
    assert Elements(ids) == Elements(jds);
    ListingsAgree(xs, ids, ys, jds, content, rows);
  }

  lemma ListedIffStored(records: seq<Record>, ids: seq<Value>, content: string, rows: Rows, v: Value)
    requires ListsContent(records, ids, content, rows)
    ensures v in ids <==> Key(content, v) in rows
  {
    if v in ids {
      var i :| 0 <= i < |ids| && ids[i] == v;
      assert Lookup(rows, Key(content, ids[i])) == Some(records[i]);
    }
  }

  lemma ListsOneMore(records: seq<Record>, ids: seq<Value>, content: string, rows: Rows, r: Record, id: Value)
    requires ListsSome(records, ids, content, rows)
    requires id !in ids && Lookup(rows, Key(content, id)) == Some(r)
    ensures ListsSome(records + [r], ids + [id], content, rows)
    ensures Elements(ids + [id]) == Elements(ids) + {id}
  {
  }

  lemma DropAtCounts<T>(s: seq<T>, j: nat)
    requires j < |s|
    ensures multiset(s) == multiset(DropAt(s, j)) + multiset{s[j]}
  {
    assert s == s[..j] + [s[j]] + s[j + 1..];
  }

  lemma ListsOneLess(records: seq<Record>, ids: seq<Value>, content: string, rows: Rows, j: nat)
    requires ListsSome(records, ids, content, rows) && j < |ids|
    ensures ListsSome(DropAt(records, j), DropAt(ids, j), content, rows)
    ensures Elements(DropAt(ids, j)) == Elements(ids) - {ids[j]}
    ensures multiset(records) == multiset(DropAt(records, j)) + multiset{records[j]}
  {
    DropAtCounts(records, j);
    var rest := ids[..j] + ids[j + 1..];
    assert forall i :: 0 <= i < |rest| ==> rest[i] == ids[if i < j then i else i + 1];
    forall v | v in Elements(ids) - {ids[j]} ensures v in rest {
      var i :| 0 <= i < |ids| && ids[i] == v;
      assert rest[if i < j then i else i - 1] == v;
    }
  }

  /** Any two listings of the same rows hold the same records equally often. */
  lemma {:induction false} ListingsAgree(xs: seq<Record>, ids: seq<Value>, ys: seq<Record>, jds: seq<Value>,
                                         content: string, rows: Rows)
    requires ListsSome(xs, ids, content, rows) && ListsSome(ys, jds, content, rows)
    requires Elements(ids) == Elements(jds)
    ensures multiset(xs) == multiset(ys)
    decreases |ids|
  {
    EmptyElements(ids);
    EmptyElements(jds);
    if ids != [] {
      assert ids[0] in Elements(jds);
      var j :| 0 <= j < |jds| && jds[j] == ids[0];
      SameRow(xs, ids, ys, jds, content, rows, j);
      ListsOneLess(xs, ids, content, rows, 0);
      ListsOneLess(ys, jds, content, rows, j);
      ListingsAgree(DropAt(xs, 0), DropAt(ids, 0), DropAt(ys, j), DropAt(jds, j), content, rows);
    }
  }

  lemma EmptyElements<T>(s: seq<T>)
    ensures Elements(s) == {} <==> s == []
  {
    if s != [] { assert s[0] in Elements(s); }
  }

  lemma SameRow(xs: seq<Record>, ids: seq<Value>, ys: seq<Record>, jds: seq<Value>, content: string, rows: Rows, j: nat)
    requires ListsSome(xs, ids, content, rows) && ListsSome(ys, jds, content, rows)
    requires ids != [] && j < |jds| && jds[j] == ids[0]
    ensures xs[0] == ys[j]
  {
    assert Lookup(rows, Key(content, ids[0])) == Some(xs[0]) && Lookup(rows, Key(content, jds[j])) == Some(ys[j]);
  }

  // ------------------------------------------------------------ the two loops of `read_all`

  /** Production with the staged values in place and the tombstones gone. */
  ghost function Overlay(prod: Rows, staging: map<Key, Record>, deleted: set<Key>): Rows {
    (prod - deleted) + staging
  }

  method MergeProduction(content: string, prodRecords: seq<Record>, staging: map<Key, Record>, deleted: set<Key>,
                         ghost prod: Rows)
    returns (result: seq<Record>, ghost ids: seq<Value>, seen: set<Value>)
    requires staging.Keys !! deleted
    requires ListsContent(prodRecords, IdsOf(prodRecords), content, prod)
    ensures ListsSome(result, ids, content, Overlay(prod, staging, deleted)) && seen == Elements(ids)
    ensures forall v :: Key(content, v) in prod && Key(content, v) !in deleted ==> v in seen
  {
    ghost var rids := IdsOf(prodRecords);
    result, ids, seen := [], [], {};
    var i := 0;
    while i < |prodRecords|
      invariant 0 <= i <= |prodRecords|
      invariant ListsSome(result, ids, content, Overlay(prod, staging, deleted)) && seen == Elements(ids)
      invariant seen <= Elements(rids[..i])
      invariant forall j :: 0 <= j < i && Key(content, rids[j]) !in deleted ==> rids[j] in seen
    {
      var rid := Get(prodRecords[i], "id");
      var key := Key(content, rid);
      assert rid == rids[i] && rid !in rids[..i];
      assert rids[..i + 1] == rids[..i] + [rid];
      if key !in deleted {
        assert Lookup(prod, key) == Some(prodRecords[i]);
        assert rid !in ids by { assert rid in ids ==> rid in Elements(ids); }
        var r := if key in staging then staging[key] else prodRecords[i];
        ListsOneMore(result, ids, content, Overlay(prod, staging, deleted), r, rid);
        result, ids := result + [r], ids + [rid];
        seen := seen + {rid};
      }
      i := i + 1;
    }
  }

  /** The staging map is walked in no particular order. */
  method AppendCreates(content: string, merged: seq<Record>, ghost mergedIds: seq<Value>, seen: set<Value>,
                       staging: map<Key, Record>, ghost rows: Rows)
    returns (result: seq<Record>, ghost ids: seq<Value>)
    requires ListsSome(merged, mergedIds, content, rows) && seen == Elements(mergedIds)
    requires forall k :: k in staging ==> Lookup(rows, k) == Some(staging[k])
    requires forall v :: Key(content, v) in rows && v !in seen ==> Key(content, v) in staging
    ensures ListsContent(result, ids, content, rows)
  {
    result, ids := merged, mergedIds;
    var todo := staging.Keys;
    while todo != {}
      invariant todo <= staging.Keys
      invariant ListsSome(result, ids, content, rows)
      invariant seen <= Elements(ids)
      invariant forall v :: Key(content, v) in rows && v !in ids ==> Key(content, v) in todo
      invariant forall k :: k in todo && k.content == content && k.id !in seen ==> k.id !in ids
      decreases |todo|
    {
      var k :| k in todo;
      todo := todo - {k};
      if k.content == content && k.id !in seen {
        ListsOneMore(result, ids, content, rows, staging[k], k.id);
        result, ids := result + [staging[k]], ids + [k.id];
      }
    }
  }

  // ------------------------------------------------------------ the loop of `get_snapshot`

  /** Adds one record to the group of its content type. */
  function AddToGroup(m: map<string, map<Value, Record>>, key: Key, r: Record): map<string, map<Value, Record>> {
    m[key.content := (if key.content in m then m[key.content] else map[])[key.id := r]]
  }

  lemma AddToGroupAt(m: map<string, map<Value, Record>>, key: Key, r: Record, other: Key)
    ensures Grouped(AddToGroup(m, key, r), other.content, other.id) ==
            if other == key then Some(r) else Grouped(m, other.content, other.id)
    ensures key.id in AddToGroup(m, key, r)[key.content]
  {
  }

  method GroupByContent(staging: map<Key, Record>, content: string) returns (snapshot: map<string, map<Value, Record>>)
    ensures forall key: Key ::
              Grouped(snapshot, key.content, key.id) ==
              if content == "" || key.content == content then Lookup(staging, key) else None
    ensures forall cn :: cn in snapshot ==> snapshot[cn] != map[]
  {
    snapshot := map[];
    var todo := staging.Keys;
    while todo != {}
      invariant todo <= staging.Keys
      invariant forall key: Key ::
                  Grouped(snapshot, key.content, key.id) ==
                  if (content == "" || key.content == content) && key !in todo then Lookup(staging, key) else None
      invariant forall cn :: cn in snapshot ==> snapshot[cn] != map[]
      decreases |todo|
    {
      var key :| key in todo;
      todo := todo - {key};
      if content == "" || key.content == content {
        ghost var before := snapshot;
        snapshot := AddToGroup(snapshot, key, staging[key]);
        forall other: Key
          ensures Grouped(snapshot, other.content, other.id) ==
                  if other == key then Some(staging[key]) else Grouped(before, other.content, other.id)
        {
          AddToGroupAt(before, key, staging[key], other);
        }
        AddToGroupAt(before, key, staging[key], key);
      }
    }
  }

  // ------------------------------------------------------------ the transaction

  class Transaction {
    var journal: seq<StagedWrite>
    var staging: map<Key, Record>
    var deleted: set<Key>
    var sequence: nat
    var committed: bool
    var rolledBack: bool

    ghost predicate Valid()
      reads this
    {
      && Summarises(journal, staging, deleted)
      && sequence >= |journal|
      && (!rolledBack ==> forall i :: 0 <= i < |journal| ==> journal[i].sequence == i + 1)
      && (!rolledBack ==> sequence == |journal|)
    }

    predicate IsActive()
      reads this
    {
      !committed && !rolledBack
    }

    constructor ()
      ensures Valid() && !committed && !rolledBack && journal == []
    {
      journal, staging, deleted, sequence := [], map[], {}, 0;
      committed, rolledBack := false, false;
    }

    /** Refused (`ok == false`) with nothing changed when the transaction is over; otherwise journalled. */
    method Write(content: string, id: Value, data: Record, operation: Operation) returns (ok: bool)
      requires Valid()
      modifies this
      ensures Valid()
      ensures ok == old(!committed && !rolledBack)
      ensures committed == old(committed) && rolledBack == old(rolledBack)
      ensures journal == if ok then old(journal) + [StagedWrite(Key(content, id), data, operation, |old(journal)| + 1)]
                         else old(journal)
      ensures !ok ==> staging == old(staging) && deleted == old(deleted) && sequence == old(sequence)
    {
      if !IsActive() {
        return false;
      }
      var key := Key(content, id);
      sequence := sequence + 1;
      var entry := StagedWrite(key, data, operation, sequence);
      journal := journal + [entry];
      if operation.Delete? {
        deleted := deleted + {key};
        staging := staging - {key};
      } else {
        staging := staging[key := data];
        deleted := deleted - {key};
      }
      StagingFollowsJournal(old(journal), old(staging), old(deleted), entry);
      ok := true;
    }

    /** Read-your-writes: what the journal replayed over production would hold at the key. */
    method Read(prod: Production?, content: string, id: Value) returns (r: Option<Record>)
      requires Valid()
      ensures r == Lookup(Replay(journal, if prod == null then map[] else prod.rows), Key(content, id))
    {
      var key := Key(content, id);
      ghost var rows := if prod == null then map[] else prod.rows;
      assert Replay(journal, rows) == (rows - deleted) + staging;
      if key in deleted {
        return None;
      }
      if key in staging {
        return Some(staging[key]);
      }
      if prod != null {
        return Lookup(prod.rows, key);
      }
      return None;
    }

    /** Replays the journal over production, entry by entry; `fails(k)` says the k-th write raises.
        A failure leaves the transaction active, with the entries before it already in production. */
    method Commit(prod: Production, fails: nat -> bool) returns (r: CommitResult)
      requires Valid()
      modifies this`committed, prod
      ensures Valid()
      ensures r.Inactive? <==> old(committed || rolledBack)
      ensures r.Inactive? ==> prod.rows == old(prod.rows) && committed == old(committed)
      ensures r.Committed? ==> committed && prod.rows == Replay(journal, old(prod.rows))
      ensures r.WriteFailed? ==> && !committed && r.position < |journal| && fails(r.position)
                                 && prod.rows == Replay(journal[..r.position], old(prod.rows))
      ensures r.Committed? <==> old(!committed && !rolledBack) && forall k :: 0 <= k < |journal| ==> !fails(k)
    {
      if !IsActive() {
        return Inactive;
      }
      var i := 0;
      while i < |journal|
        invariant 0 <= i <= |journal|
        invariant prod.rows == Replay(journal[..i], old(prod.rows))
        invariant forall k :: 0 <= k < i ==> !fails(k)
        invariant committed == old(committed)
      {
        if fails(i) {
          return WriteFailed(i);
        }
        prod.rows := ApplyWrite(prod.rows, journal[i]);
        assert journal[..i + 1][..i] == journal[..i];
        i := i + 1;
      }
      assert journal[..i] == journal;
      committed := true;
      r := Committed;
    }

    /** Every record of one content type: production's rows with the staged changes merged in. `prodRecords`
        is the caller's query result; the answer lists the replayed store's rows, each exactly once. */
    method ReadAll(content: string, prodRecords: seq<Record>, ghost prod: Rows) returns (result: seq<Record>)
      requires Valid()
      requires ListsContent(prodRecords, IdsOf(prodRecords), content, prod)
      ensures IsListing(result, content, Replay(journal, prod))
    {
      assert Replay(journal, prod) == Overlay(prod, staging, deleted);
      var seen;
      ghost var ids;
      result, ids, seen := MergeProduction(content, prodRecords, staging, deleted, prod);
      result, ids := AppendCreates(content, result, ids, seen, staging, Overlay(prod, staging, deleted));
    }

    /** What the journal alone would build, grouped by content type; an empty `content` asks for all of it. */
    method GetSnapshot(content: string) returns (snapshot: map<string, map<Value, Record>>)
      requires Valid()
      ensures forall key: Key ::
                Grouped(snapshot, key.content, key.id) ==
                if content == "" || key.content == content then Lookup(Replay(journal, map[]), key) else None
      ensures forall cn :: cn in snapshot ==> snapshot[cn] != map[]
    {
      assert Replay(journal, map[]) == (map[] - deleted) + staging == staging;
      snapshot := GroupByContent(staging, content);
    }

    method Rollback()
      requires Valid()
      modifies this
      ensures Valid() && rolledBack && journal == []
      ensures staging == map[] && deleted == {} && committed == old(committed)
    {
      journal, staging, deleted := [], map[], {};
      rolledBack := true;
    }
  }

  // ------------------------------------------------------------ runs with failed commits

  /** Between its start and its successful commit a transaction stages writes and may fail to commit,
      each time after replaying some prefix of its journal into production. */
  datatype Event = Staged(write: StagedWrite) | CommitFailed(position: nat)

  function JournalAfter(run: seq<Event>): seq<StagedWrite> {
    if run == [] then []
    else
      var last := run[|run| - 1];
      JournalAfter(run[..|run| - 1]) + if last.Staged? then [last.write] else []
  }

  function ProductionAfter(run: seq<Event>, rows: Rows): Rows {
    if run == [] then rows
    else
      var init, last := run[..|run| - 1], run[|run| - 1];
      var before, journal := ProductionAfter(init, rows), JournalAfter(init);
      if last.CommitFailed? && last.position <= |journal| then Replay(journal[..last.position], before) else before
  }

  lemma {:induction false} FailedCommitsAreAbsorbed(run: seq<Event>, more: seq<StagedWrite>, rows: Rows)
    ensures Replay(JournalAfter(run) + more, ProductionAfter(run, rows)) == Replay(JournalAfter(run) + more, rows)
  {
    if run != [] {
      var init, last := run[..|run| - 1], run[|run| - 1];
      match last
      case Staged(w) =>
        FailedCommitsAreAbsorbed(init, [w] + more, rows);
        assert JournalAfter(run) + more == JournalAfter(init) + ([w] + more);
      case CommitFailed(k) =>
        FailedCommitsAreAbsorbed(init, more, rows);
        assert JournalAfter(run) == JournalAfter(init);
        if k <= |JournalAfter(init)| {
          ReplayAbsorbsPartial(JournalAfter(init), more, k, ProductionAfter(init, rows));
        }
    }
  }

  /** However often a commit failed and wherever, the commit that succeeds leaves the store one replay over
      the original production would have left, and every read in between saw that store. */
  lemma RetriedCommitIsOneReplay(run: seq<Event>, rows: Rows)
    ensures Replay(JournalAfter(run), ProductionAfter(run, rows)) == Replay(JournalAfter(run), rows)
  {
    FailedCommitsAreAbsorbed(run, [], rows);
    assert JournalAfter(run) + [] == JournalAfter(run);
  }

  // ------------------------------------------------------------ giving up after a failed commit

  /** Rolling back after a commit that failed at `k` leaves the store of the first `k` writes. That is the store from
      before exactly when each key they wrote already held what they left at it. */
  lemma AbortIsAtomicIff(journal: seq<StagedWrite>, k: nat, rows: Rows)
    requires k <= |journal|
    ensures Replay(journal[..k], rows) == rows <==>
            forall key :: key in WrittenKeys(journal[..k]) ==>
              Lookup(Replay(journal[..k], map[]), key) == Lookup(rows, key)
  {
    var part := journal[..k];
    var after := Replay(part, rows);
    forall key: Key
      ensures key in WrittenKeys(part) ==> Lookup(after, key) == Lookup(Replay(part, map[]), key)
      ensures key !in WrittenKeys(part) ==> Lookup(after, key) == Lookup(rows, key)
    {
      ReplayDecidesItsKeys(part, rows, map[], key);
      assert forall w :: w in part ==> w.key in WrittenKeys(part);
    }
    if forall key :: key in WrittenKeys(part) ==> Lookup(Replay(part, map[]), key) == Lookup(rows, key) {
      SameLookupsSameRows(after, rows);
    }
  }

  /** An abort is atomic whatever production holds exactly when the commit failed at its very first write. */
  lemma AbortIsAlwaysAtomicIff(journal: seq<StagedWrite>, k: nat)
    requires k <= |journal|
    ensures (forall rows :: Replay(journal[..k], rows) == rows) <==> k == 0
  {
    var part := journal[..k];
    if k > 0 {
      var key := part[0].key;
      assert part[0] in part;
      ReplayDecidesItsKeys(part, map[], map[key := map[]], key);
      ReplayDecidesItsKeys(part, map[], map[], key);
      if key in Replay(part, map[]) {
        assert Replay(part, map[]) != map[];
      } else {
        var rows: Rows := map[key := map[]];
        assert Lookup(Replay(part, rows), key) != Lookup(rows, key);
      }
    }
  }

  // ------------------------------------------------------------ committing the summary instead

  /** A list of writes that only repeats the staging map and the tombstones, in whatever order. */
  ghost predicate IsSummary(ws: seq<StagedWrite>, staging: map<Key, Record>, deleted: set<Key>) {
    && WrittenKeys(ws) == staging.Keys + deleted
    && forall w :: w in ws ==>
         if w.operation.Delete? then w.key in deleted else w.key in staging && staging[w.key] == w.data
  }

  lemma {:induction false} AgreeingWrites(ws: seq<StagedWrite>, staging: map<Key, Record>, deleted: set<Key>,
                                          rows: Rows, key: Key)
    requires staging.Keys !! deleted && key in WrittenKeys(ws)
    requires forall w :: w in ws ==>
               if w.operation.Delete? then w.key in deleted else w.key in staging && staging[w.key] == w.data
    ensures Lookup(Replay(ws, rows), key) == Lookup(staging, key)
  {
    var init, last := ws[..|ws| - 1], ws[|ws| - 1];
    assert forall w :: w in ws <==> w in init || w == last;
    if last.key != key {
      assert key in WrittenKeys(init);
      AgreeingWrites(init, staging, deleted, rows, key);
    }
  }

  lemma SummaryCommitsTheSame(journal: seq<StagedWrite>, staging: map<Key, Record>, deleted: set<Key>,
                              ws: seq<StagedWrite>, rows: Rows)
    requires Summarises(journal, staging, deleted) && IsSummary(ws, staging, deleted)
    ensures Replay(ws, rows) == Replay(journal, rows)
  {
    assert Replay(journal, rows) == (rows - deleted) + staging;
    forall key: Key
      ensures Lookup(Replay(ws, rows), key) == Lookup((rows - deleted) + staging, key)
    {
      if key in WrittenKeys(ws) {
        AgreeingWrites(ws, staging, deleted, rows, key);
      } else {
        assert forall w :: w in ws ==> w.key in WrittenKeys(ws);
        ReplayDecidesItsKeys(ws, rows, rows, key);
      }
    }
    SameLookupsSameRows(Replay(ws, rows), (rows - deleted) + staging);
  }
}
