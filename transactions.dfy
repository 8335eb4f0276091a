/**
 * The ledger's record: a dated, signed amount with a description, identified by
 * an opaque id and stamped with its creation time. Also the list operations on
 * records that the store and the service share, and the `isTransaction` guard
 * over JSON-like values.
 */
module Transactions {
  import opened Wrappers
  import opened Dates

  datatype TransactionType = Deposit | Withdrawal

  /** The text the source uses for a type. */
  function TypeName(kind: TransactionType): string
  {
    match kind
    case Deposit => "Deposit"
    case Withdrawal => "Withdrawal"
  }

  /**
   * A stored transaction. `amount` is in cents of the canonical currency,
   * positive for deposits and negative for withdrawals.
   */
  datatype Transaction = Transaction(
    id: string,
    date: string,
    createdAt: int,
    amount: int,
    description: string,
    kind: TransactionType)

  /** A transaction as entered, before an id and a creation time are given to it. */
  datatype Draft = Draft(date: string, amount: int, description: string, kind: TransactionType)

  /** A partial update: each present field replaces the stored one. */
  datatype Updates = Updates(
    date: Option<string>,
    amount: Option<int>,
    description: Option<string>,
    kind: Option<TransactionType>)

  /** `{ ...draft, id, createdAt }`. */
  function Stamp(d: Draft, id: string, createdAt: int): (t: Transaction)
    ensures t.id == id && t.createdAt == createdAt
    ensures DraftOf(t) == d
  {
    Transaction(id, d.date, createdAt, d.amount, d.description, d.kind)
  }

  /** The user-entered fields of a transaction. */
  function DraftOf(t: Transaction): Draft
  {
    Draft(t.date, t.amount, t.description, t.kind)
  }

  /** `{ ...t, ...updates }`: present fields replace, `id` and `createdAt` stay. */
  function Merge(t: Transaction, u: Updates): (r: Transaction)
    ensures r.id == t.id && r.createdAt == t.createdAt
    ensures r.date == (if u.date.Some? then u.date.value else t.date)
    ensures r.amount == (if u.amount.Some? then u.amount.value else t.amount)
    ensures r.description == (if u.description.Some? then u.description.value else t.description)
    ensures r.kind == (if u.kind.Some? then u.kind.value else t.kind)
  {
    t.(date := if u.date.Some? then u.date.value else t.date,
       amount := if u.amount.Some? then u.amount.value else t.amount,
       description := if u.description.Some? then u.description.value else t.description,
       kind := if u.kind.Some? then u.kind.value else t.kind)
  }

  /** An update that carries every field replaces all user-entered fields. */
  lemma MergeFullUpdate(t: Transaction, d: Draft)
    ensures Merge(t, Updates(Some(d.date), Some(d.amount), Some(d.description), Some(d.kind)))
      == Stamp(d, t.id, t.createdAt)
  {
  }

  /** The ids present in a list. */
  function Ids(ts: seq<Transaction>): set<string>
  {
    set t | t in ts :: t.id
  }

  predicate HasId(ts: seq<Transaction>, id: string)
  {
    exists t :: t in ts && t.id == id
  }

  /** `ts.filter(t => t.id !== id)`. */
  function RemoveId(ts: seq<Transaction>, id: string): (r: seq<Transaction>)
    ensures |r| <= |ts|
    ensures forall t :: t in r <==> t in ts && t.id != id
    ensures |r| == |ts| <==> !HasId(ts, id)
  {
    if ts == [] then []
    else if ts[|ts| - 1].id == id then
      var r := RemoveId(ts[..|ts| - 1], id);
      assert ts == ts[..|ts| - 1] + [ts[|ts| - 1]];
      r
    else
      var r := RemoveId(ts[..|ts| - 1], id) + [ts[|ts| - 1]];
      assert ts == ts[..|ts| - 1] + [ts[|ts| - 1]];
      r
  }

  /** `ts.map(t => t.id === id ? { ...t, ...u } : t)`. */
  function UpdateId(ts: seq<Transaction>, id: string, u: Updates): (r: seq<Transaction>)
    ensures |r| == |ts|
    ensures forall i :: 0 <= i < |ts| ==> r[i] == if ts[i].id == id then Merge(ts[i], u) else ts[i]
  {
    if ts == [] then []
    else [if ts[0].id == id then Merge(ts[0], u) else ts[0]] + UpdateId(ts[1..], id, u)
  }

  /** Updating keeps every id where it was, and an update for an id no record carries changes nothing. */
  lemma UpdateIdKeepsIds(ts: seq<Transaction>, id: string, u: Updates)
    ensures forall i :: 0 <= i < |ts| ==> UpdateId(ts, id, u)[i].id == ts[i].id
    ensures !HasId(ts, id) ==> UpdateId(ts, id, u) == ts
  {
    if !HasId(ts, id) {
      var r := UpdateId(ts, id, u);
      forall i | 0 <= i < |ts| ensures r[i] == ts[i] {
        assert ts[i] in ts;
      }
    }
  }

  /** `ts.find(t => t.id === id)`: the first record carrying `id`. */
  function FirstWithId(ts: seq<Transaction>, id: string): (t: Transaction)
    requires HasId(ts, id)
    ensures t in ts && t.id == id
  {
    if ts[0].id == id then ts[0] else FirstWithId(ts[1..], id)
  }

  /** The record `find` returns is the first match: no record in front of it carries the id. */
  lemma {:induction false} FirstWithIdIsFirst(ts: seq<Transaction>, id: string)
    requires HasId(ts, id)
    ensures exists k :: 0 <= k < |ts| && ts[k] == FirstWithId(ts, id) && forall j :: 0 <= j < k ==> ts[j].id != id
  {
    if ts[0].id != id {
      assert HasId(ts[1..], id) by {
        var t :| t in ts && t.id == id;
        assert t != ts[0];
      }
      FirstWithIdIsFirst(ts[1..], id);
      var k :| 0 <= k < |ts| - 1 && ts[1..][k] == FirstWithId(ts[1..], id)
        && forall j :: 0 <= j < k ==> ts[1..][j].id != id;
      assert ts[k + 1] == FirstWithId(ts, id);
      assert forall j :: 0 <= j < k + 1 ==> ts[j].id != id by {
        forall j | 0 <= j < k + 1 ensures ts[j].id != id {
          if j > 0 {
            assert ts[j] == ts[1..][j - 1];
          }
        }
      }
    }
  }

  /** Appending a record and then removing its id, when the id was new, gives back the list. */
  lemma {:induction false} RemoveAppendedId(ts: seq<Transaction>, t: Transaction)
    requires !HasId(ts, t.id)
    ensures RemoveId(ts + [t], t.id) == ts
  {
    assert (ts + [t])[..|ts|] == ts;
    NoIdRemovesNothing(ts, t.id);
  }

  /** Removing an id that no record carries changes nothing. */
  lemma {:induction false} NoIdRemovesNothing(ts: seq<Transaction>, id: string)
    requires !HasId(ts, id)
    ensures RemoveId(ts, id) == ts
  {
    if ts != [] {
      assert ts[|ts| - 1] in ts;
      assert !HasId(ts[..|ts| - 1], id) by {
        forall t | t in ts[..|ts| - 1] ensures t.id != id {
          assert t in ts;
        }
      }
      NoIdRemovesNothing(ts[..|ts| - 1], id);
      assert ts == ts[..|ts| - 1] + [ts[|ts| - 1]];
    }
  }

  /**
   * When exactly one record carries `id`, removing it and appending it again
   * keeps the same records (a permutation of the list).
   */
  lemma {:induction false} RemoveThenAppendIsPermutation(ts: seq<Transaction>, id: string)
    requires HasId(ts, id)
    requires IdAtMostOnce(ts, id)
    ensures multiset(RemoveId(ts, id) + [FirstWithId(ts, id)]) == multiset(ts)
  {
    var n := |ts|;
    var init, last := ts[..n - 1], ts[n - 1];
    if last.id == id {
      LastIsOnly(ts, id);
    } else {
      assert ts == init + [last];
      assert HasId(init, id) by {
        var t :| t in ts && t.id == id;
        assert t != last;
      }
      AtMostOnceInPrefix(ts, id);
      RemoveThenAppendIsPermutation(init, id);
      AppendOtherKeepsPermutation(init, last, id);
    }
  }

  /** At most one record of `ts` carries `id`. */
  predicate IdAtMostOnce(ts: seq<Transaction>, id: string)
  {
    forall i, j :: 0 <= i < j < |ts| && ts[i].id == id ==> ts[j].id != id
  }

  /** Removing an id that exactly one record carries shortens the list by one. */
  lemma RemoveUniqueIdDropsOne(ts: seq<Transaction>, id: string)
    requires HasId(ts, id) && IdAtMostOnce(ts, id)
    ensures |RemoveId(ts, id)| == |ts| - 1
  {
    RemoveThenAppendIsPermutation(ts, id);
    assert |multiset(RemoveId(ts, id) + [FirstWithId(ts, id)])| == |multiset(ts)|;
  }

  lemma AtMostOnceInPrefix(ts: seq<Transaction>, id: string)
    requires ts != [] && IdAtMostOnce(ts, id)
    ensures IdAtMostOnce(ts[..|ts| - 1], id)
  {
    var init := ts[..|ts| - 1];
    assert forall i :: 0 <= i < |init| ==> init[i] == ts[i];
  }

  /** The step of `RemoveThenAppendIsPermutation` where the last record carries the id. */
  lemma LastIsOnly(ts: seq<Transaction>, id: string)
    requires ts != [] && ts[|ts| - 1].id == id && IdAtMostOnce(ts, id)
    ensures HasId(ts, id)
    ensures multiset(RemoveId(ts, id) + [FirstWithId(ts, id)]) == multiset(ts)
  {
    var n := |ts|;
    var init := ts[..n - 1];
    assert ts == init + [ts[n - 1]];
    assert !HasId(init, id) by {
      forall t | t in init ensures t.id != id {
        var i :| 0 <= i < n - 1 && init[i] == t;
        assert ts[i] == t;
      }
    }
    NoIdRemovesNothing(init, id);
    FirstIsOnly(ts, id, n - 1);
  }

  /** The step of `RemoveThenAppendIsPermutation` that appends a record with another id. */
  lemma AppendOtherKeepsPermutation(init: seq<Transaction>, last: Transaction, id: string)
    requires HasId(init, id) && last.id != id
    requires multiset(RemoveId(init, id) + [FirstWithId(init, id)]) == multiset(init)
    ensures HasId(init + [last], id)
    ensures multiset(RemoveId(init + [last], id) + [FirstWithId(init + [last], id)]) == multiset(init + [last])
  {
    var ts := init + [last];
    assert ts[..|ts| - 1] == init;
    FirstWithIdOfPrefix(init, last, id);
    var r, f := RemoveId(init, id), FirstWithId(init, id);
    assert RemoveId(ts, id) == r + [last];
    assert multiset(r + [last] + [f]) == multiset(r) + multiset{last} + multiset{f};
    assert multiset(r + [f]) == multiset(r) + multiset{f};
    assert multiset(ts) == multiset(init) + multiset{last};
  }

  lemma {:induction false} FirstWithIdOfPrefix(init: seq<Transaction>, last: Transaction, id: string)
    requires HasId(init, id)
    ensures FirstWithId(init + [last], id) == FirstWithId(init, id)
  {
    if init[0].id != id {
      assert (init + [last])[1..] == init[1..] + [last];
      assert HasId(init[1..], id) by {
        var t :| t in init && t.id == id;
        assert t != init[0];
      }
      FirstWithIdOfPrefix(init[1..], last, id);
    }
  }

  lemma {:induction false} FirstIsOnly(ts: seq<Transaction>, id: string, k: nat)
    requires k < |ts| && ts[k].id == id
    requires forall i :: 0 <= i < |ts| && i != k ==> ts[i].id != id
    ensures HasId(ts, id) && FirstWithId(ts, id) == ts[k]
  {
    assert ts[k] in ts;
    if k > 0 {
      FirstIsOnly(ts[1..], id, k - 1);
    }
  }

  /** A value of the JSON data model, as `JSON.parse` produces. */
  datatype Json =
    | JNull
    | JBool(b: bool)
    | JNumber(n: real)
    | JString(s: string)
    | JArray(items: seq<Json>)
    | JObject(fields: map<string, Json>)

  predicate IsStringField(fields: map<string, Json>, key: string)
  {
    key in fields && fields[key].JString?
  }

  predicate IsNumberField(fields: map<string, Json>, key: string)
  {
    key in fields && fields[key].JNumber?
  }

  /**
   * `isTransaction`: an object with string `id`, `date`, `description` and `type`
   * and numeric `createdAt` and `amount`, whose `type` is `Deposit` or `Withdrawal`
   * and whose `date` has the `YYYY-MM-DD` shape. Neither the calendar nor the sign
   * of the amount is checked.
   */
  predicate IsTransaction(value: Json)
  {
    match value
    case JObject(f) =>
      && IsStringField(f, "id")
      && IsStringField(f, "date")
      && IsNumberField(f, "createdAt")
      && IsNumberField(f, "amount")
      && IsStringField(f, "description")
      && IsStringField(f, "type")
      && (f["type"].s == "Deposit" || f["type"].s == "Withdrawal")
      && HasIsoShape(f["date"].s)
    case _ => false
  }

  /** How a stored transaction is written out as JSON (amount in currency units). */
  function ToJson(t: Transaction): (v: Json)
    ensures v.JObject?
  {
    JObject(map[
      "id" := JString(t.id),
      "date" := JString(t.date),
      "createdAt" := JNumber(t.createdAt as real),
      "amount" := JNumber(t.amount as real / 100.0),
      "description" := JString(t.description),
      "type" := JString(TypeName(t.kind))])
  }

  /** A stored transaction passes the guard exactly when its date has the right shape. */
  lemma IsTransactionOfStored(t: Transaction)
    ensures IsTransaction(ToJson(t)) <==> HasIsoShape(t.date)
  {
  }

  /** Only objects can pass. */
  lemma IsTransactionNeedsObject(value: Json)
    requires !value.JObject?
    ensures !IsTransaction(value)
  {
  }

  /** The guard does not look at the sign of the amount: a negative deposit passes. */
  lemma IsTransactionIgnoresSign()
    ensures IsTransaction(ToJson(Transaction("a", "2024-01-15", 0, -500, "x", Deposit)))
  {
    IsTransactionOfStored(Transaction("a", "2024-01-15", 0, -500, "x", Deposit));
  }

  /** The guard checks only the shape of the date: `2024-13-45` passes. */
  lemma IsTransactionIgnoresCalendar()
    ensures IsTransaction(ToJson(Transaction("a", "2024-13-45", 0, 500, "x", Deposit)))
    ensures !IsValidIsoDate("2024-13-45")
  {
    IsTransactionOfStored(Transaction("a", "2024-13-45", 0, 500, "x", Deposit));
    var s := "2024-13-45";
    assert HasIsoShape(s);
    ParseTwoDigits(s[5..7]);
    assert s[5..7] == "13";
  }
}
