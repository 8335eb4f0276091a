/**
 * The service layer's list operations over the stored transaction list: add,
 * update, delete, and an import that drops records already present by id or by
 * their date-amount-description key. The storage blob is the `stored` field and
 * every write of it is counted in `saves`.
 */
module TransactionService {
  import opened Wrappers
  import opened Numbers
  import opened Transactions

  /** The one error the list operations raise. */
  datatype ServiceError = NotFound(id: string)

  /** The message the error is thrown with. */
  function ErrorText(e: ServiceError): string
  {
    "Transaction with id " + e.id + " not found"
  }

  /** `ts.findIndex(t => t.id === id)`: the first index carrying `id`, or -1. */
  function FindIndex(ts: seq<Transaction>, id: string): (k: int)
    ensures -1 <= k < |ts|
    ensures k == -1 <==> !HasId(ts, id)
    ensures k >= 0 ==> ts[k].id == id && forall j :: 0 <= j < k ==> ts[j].id != id
  {
    if ts == [] then -1
    else if ts[0].id == id then
      assert ts[0] in ts;
      0
    else
      var k := FindIndex(ts[1..], id);
      assert forall t :: t in ts && t.id == id ==> t in ts[1..];
      if k == -1 then -1
      else
        assert ts[1..][k] in ts;
        k + 1
  }

  /** The duplicate key of a record: its date, amount text and description joined by dashes. */
  function Key(t: Transaction): string
  {
    t.date + "-" + RenderCents(t.amount) + "-" + t.description
  }

  /** The keys of a list's records, under a key function. */
  function Keys(ts: seq<Transaction>, key: Transaction -> string): set<string>
  {
    set t | t in ts :: key(t)
  }

  /**
   * The records the import keeps, in input order, given the ids of the existing
   * records and the keys seen so far: a record is skipped when its id is one of
   * those ids or its key has been seen; otherwise it is kept and its key becomes
   * seen. The policy is stated for any key function; the import uses `Key`.
   */
  function Fresh(ids: set<string>, seen: set<string>, incoming: seq<Transaction>, key: Transaction -> string): (kept: seq<Transaction>)
    ensures |kept| <= |incoming|
    decreases incoming
  {
    if incoming == [] then []
    else
      var t := incoming[0];
      if t.id in ids || key(t) in seen then Fresh(ids, seen, incoming[1..], key)
      else [t] + Fresh(ids, seen + {key(t)}, incoming[1..], key)
  }

  /** What the import keeps of `incoming`, starting from the existing records' ids and keys. */
  function Unique(existing: seq<Transaction>, incoming: seq<Transaction>, key: Transaction -> string): seq<Transaction>
  {
    Fresh(Ids(existing), Keys(existing, key), incoming, key)
  }

  /** The step at position `i`: the record there is kept exactly when it is new by id and not yet seen by key. */
  lemma FreshStep(ids: set<string>, seen: set<string>, incoming: seq<Transaction>, i: nat, key: Transaction -> string)
    requires i < |incoming|
    ensures var t := incoming[i];
      Fresh(ids, seen, incoming[i..], key) ==
        if t.id in ids || key(t) in seen then Fresh(ids, seen, incoming[i + 1..], key)
        else [t] + Fresh(ids, seen + {key(t)}, incoming[i + 1..], key)
  {
    assert incoming[i..][1..] == incoming[i + 1..];
  }

  /** What is kept came in, is new by id, and was not seen by key. */
  lemma {:induction false} FreshAreNew(ids: set<string>, seen: set<string>, incoming: seq<Transaction>, key: Transaction -> string)
    ensures forall t :: t in Fresh(ids, seen, incoming, key) ==> t in incoming && t.id !in ids && key(t) !in seen
    decreases incoming
  {
    if incoming != [] {
      var t := incoming[0];
      FreshAreNew(ids, seen, incoming[1..], key);
      FreshAreNew(ids, seen + {key(t)}, incoming[1..], key);
      assert forall s :: s in incoming[1..] ==> s in incoming;
    }
  }

  /** What the import keeps came in, and is new both by id and by key. */
  lemma UniqueAreNew(existing: seq<Transaction>, incoming: seq<Transaction>, key: Transaction -> string)
    ensures forall t :: t in Unique(existing, incoming, key) ==>
      t in incoming && t.id !in Ids(existing) && key(t) !in Keys(existing, key)
  {
    FreshAreNew(Ids(existing), Keys(existing, key), incoming, key);
  }

  /** No two records of the list share a key. */
  predicate KeysDistinct(ts: seq<Transaction>, key: Transaction -> string)
  {
    forall i, j :: 0 <= i < j < |ts| ==> key(ts[i]) != key(ts[j])
  }

  /** No two records kept share a key. */
  lemma {:induction false} FreshKeysDistinct(ids: set<string>, seen: set<string>, incoming: seq<Transaction>, key: Transaction -> string)
    ensures KeysDistinct(Fresh(ids, seen, incoming, key), key)
    decreases incoming
  {
    if incoming != [] {
      var t := incoming[0];
      if !(t.id in ids || key(t) in seen) {
        var rest := Fresh(ids, seen + {key(t)}, incoming[1..], key);
        FreshKeysDistinct(ids, seen + {key(t)}, incoming[1..], key);
        FreshAreNew(ids, seen + {key(t)}, incoming[1..], key);
        var r := [t] + rest;
        forall i, j | 0 <= i < j < |r| ensures key(r[i]) != key(r[j]) {
          assert r[j] == rest[j - 1];
          assert rest[j - 1] in rest;
          if i > 0 {
            assert r[i] == rest[i - 1];
          }
        }
      } else {
        FreshKeysDistinct(ids, seen, incoming[1..], key);
      }
    }
  }

  /** No two records the import keeps share a key. */
  lemma UniqueKeysDistinct(existing: seq<Transaction>, incoming: seq<Transaction>, key: Transaction -> string)
    ensures KeysDistinct(Unique(existing, incoming, key), key)
  {
    FreshKeysDistinct(Ids(existing), Keys(existing, key), incoming, key);
  }

  /**
   * The id set is never extended: two incoming records with the same new id
   * and different new keys are both kept.
   */
  lemma SameIdInBatchKept(existing: seq<Transaction>, t1: Transaction, t2: Transaction, key: Transaction -> string)
    requires t1.id == t2.id && t1.id !in Ids(existing)
    requires key(t1) !in Keys(existing, key) && key(t2) !in Keys(existing, key) && key(t1) != key(t2)
    ensures Unique(existing, [t1, t2], key) == [t1, t2]
  {
    var ids, seen := Ids(existing), Keys(existing, key);
    assert [t1, t2][1..] == [t2];
    assert [t2][1..] == [];
    assert Fresh(ids, seen + {key(t1)}, [t2], key) == [t2] + Fresh(ids, seen + {key(t1)} + {key(t2)}, [], key);
  }

  /** The key set is extended: a later incoming record with an earlier kept record's key is dropped. */
  lemma SameKeyInBatchDropped(existing: seq<Transaction>, t1: Transaction, t2: Transaction, key: Transaction -> string)
    requires t1.id !in Ids(existing) && key(t1) !in Keys(existing, key)
    requires key(t1) == key(t2)
    ensures Unique(existing, [t1, t2], key) == [t1]
  {
    var ids, seen := Ids(existing), Keys(existing, key);
    assert [t1, t2][1..] == [t2];
    assert [t2][1..] == [];
    assert Fresh(ids, seen + {key(t1)}, [t2], key) == Fresh(ids, seen + {key(t1)}, [], key);
  }

  /**
   * When the records carry distinct ids, replacing the first record with `id`
   * is the same as updating every record with `id`.
   */
  lemma {:induction false} UpdateFirstIsUpdateAll(ts: seq<Transaction>, id: string, u: Updates)
    requires HasId(ts, id)
    requires forall i, j :: 0 <= i < j < |ts| ==> ts[i].id != ts[j].id
    ensures var k := FindIndex(ts, id);
      ts[k := Merge(ts[k], u)] == UpdateId(ts, id, u)
  {
    var k := FindIndex(ts, id);
    var r := UpdateId(ts, id, u);
    forall i | 0 <= i < |ts| ensures ts[k := Merge(ts[k], u)][i] == r[i] {
      if i != k {
        assert ts[i].id != ts[k].id;
      }
    }
  }

  /**
   * The loop of `importTransactions`, for a key function: skips a record whose
   * id an existing record carries or whose key is already seen, and otherwise
   * keeps it and marks its key as seen.
   */
  method SplitDuplicates(existing: seq<Transaction>, incoming: seq<Transaction>, key: Transaction -> string)
    returns (unique: seq<Transaction>, duplicates: nat)
    ensures unique == Unique(existing, incoming, key)
    ensures |unique| + duplicates == |incoming|
  {
    var existingIds := Ids(existing);
    var seenKeys := Keys(existing, key);
    unique := [];
    duplicates := 0;
    var i := 0;
    while i < |incoming|
      invariant 0 <= i <= |incoming|
      invariant unique + Fresh(existingIds, seenKeys, incoming[i..], key) == Unique(existing, incoming, key)
      invariant duplicates == i - |unique|
    {
      var t := incoming[i];
      FreshStep(existingIds, seenKeys, incoming, i, key);
      if t.id in existingIds {
        duplicates := duplicates + 1;
      } else {
        var k := key(t);
        if k in seenKeys {
          duplicates := duplicates + 1;
        } else {
          ghost var rest := Fresh(existingIds, seenKeys + {k}, incoming[i + 1..], key);
          assert unique + ([t] + rest) == (unique + [t]) + rest;
          unique := unique + [t];
          seenKeys := seenKeys + {k};
        }
      }
      i := i + 1;
    }
    assert unique + [] == unique;
  }

  /** The storage the service reads and writes, holding the list of records. */
  class TransactionStorage {
    var stored: seq<Transaction>
    var saves: nat

    constructor (initial: seq<Transaction>)
      ensures stored == initial && saves == 0
    {
      stored := initial;
      saves := 0;
    }

    /** `addTransaction`: stamps the draft and appends it. */
    method AddTransaction(d: Draft, id: string, createdAt: int) returns (t: Transaction)
      modifies this
      ensures t == Stamp(d, id, createdAt) && DraftOf(t) == d
      ensures stored == old(stored) + [t] && saves == old(saves) + 1
    {
      t := Stamp(d, id, createdAt);
      var updated := stored + [t];
      stored := updated;
      saves := saves + 1;
    }

    /**
     * `updateTransaction`: an unknown id fails and writes nothing; otherwise the
     * first record with the id is replaced by its merge with the updates, in place.
     */
    method UpdateTransaction(id: string, u: Updates) returns (r: Result<Transaction, ServiceError>)
      modifies this
      ensures !HasId(old(stored), id) ==>
        r == Failure(NotFound(id)) && stored == old(stored) && saves == old(saves)
      ensures HasId(old(stored), id) ==>
        var k := FindIndex(old(stored), id);
        && r == Success(Merge(old(stored)[k], u))
        && stored == old(stored)[k := r.value]
        && saves == old(saves) + 1
    {
      var transactions := stored;
      var index := FindIndex(transactions, id);
      if index == -1 {
        return Failure(NotFound(id));
      }
      var updated := Merge(transactions[index], u);
      transactions := transactions[index := updated];
      stored := transactions;
      saves := saves + 1;
      return Success(updated);
    }

    /** `deleteTransaction`: fails exactly when no record has the id; otherwise removes every record with it. */
    method DeleteTransaction(id: string) returns (error: Option<ServiceError>)
      modifies this
      ensures error.None? <==> HasId(old(stored), id)
      ensures error.Some? ==> error.value == NotFound(id) && stored == old(stored) && saves == old(saves)
      ensures error.None? ==> stored == RemoveId(old(stored), id) && saves == old(saves) + 1
    {
      var transactions := stored;
      var filtered := RemoveId(transactions, id);
      if |filtered| == |transactions| {
        return Some(NotFound(id));
      }
      stored := filtered;
      saves := saves + 1;
      return None;
    }

    /**
     * `importTransactions`: keeps the records that are new by id and by key,
     * appends them, and counts the rest as duplicates; storage is written only
     * when something is kept.
     */
    method ImportTransactions(incoming: seq<Transaction>) returns (imported: nat, duplicates: nat)
      modifies this
      ensures imported == |Unique(old(stored), incoming, Key)| && imported + duplicates == |incoming|
      ensures stored == old(stored) + Unique(old(stored), incoming, Key)
      ensures saves == if imported > 0 then old(saves) + 1 else old(saves)
    {
      var existing := stored;
      var unique;
      unique, duplicates := SplitDuplicates(existing, incoming, Key);
      imported := |unique|;
      if |unique| > 0 {
        stored := existing + unique;
        saves := saves + 1;
      } else {
        assert existing + unique == existing;
      }
    }
  }
}
