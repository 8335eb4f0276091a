/**
 * What the banking store derives from its transaction list: the balance and
 * the income and expense totals, the filtered and sorted view, and its
 * division into pages of twenty.
 */
module StoreViews {
  import opened Wrappers
  import opened Text
  import opened Transactions

  const TransactionsPerPage := 20

  /** `calculateBalance`: the sum of all amounts. */
  function Balance(ts: seq<Transaction>): int
  {
    if ts == [] then 0 else Balance(ts[..|ts| - 1]) + ts[|ts| - 1].amount
  }

  /** `calculateTotalIncome`: the sum of the positive amounts. */
  function Income(ts: seq<Transaction>): (r: int)
    ensures r >= 0
  {
    if ts == [] then 0
    else Income(ts[..|ts| - 1]) + (if ts[|ts| - 1].amount > 0 then ts[|ts| - 1].amount else 0)
  }

  /** The sum of the negative amounts. */
  function NegativeSum(ts: seq<Transaction>): (r: int)
    ensures r <= 0
  {
    if ts == [] then 0
    else NegativeSum(ts[..|ts| - 1]) + (if ts[|ts| - 1].amount < 0 then ts[|ts| - 1].amount else 0)
  }

  /** `calculateTotalExpenses`: the absolute value of the sum of the negative amounts. */
  function Expenses(ts: seq<Transaction>): (r: int)
    ensures r >= 0 && r == -NegativeSum(ts)
  {
    var s := NegativeSum(ts);
    if s < 0 then -s else s
  }

  /** The balance is always income minus expenses. */
  lemma {:induction false} BalanceIsIncomeMinusExpenses(ts: seq<Transaction>)
    ensures Balance(ts) == Income(ts) - Expenses(ts)
  {
    if ts != [] {
      BalanceIsIncomeMinusExpenses(ts[..|ts| - 1]);
    }
  }

  /** Appending a transaction moves the balance by exactly its amount. */
  lemma BalanceAppend(ts: seq<Transaction>, t: Transaction)
    ensures Balance(ts + [t]) == Balance(ts) + t.amount
  {
    assert (ts + [t])[..|ts|] == ts;
  }

  /** Replacing one transaction moves the balance by the difference of the two amounts. */
  lemma {:induction false} BalanceReplace(ts: seq<Transaction>, k: nat, x: Transaction)
    requires k < |ts|
    ensures Balance(ts[k := x]) == Balance(ts) - ts[k].amount + x.amount
  {
    var n := |ts| - 1;
    if k < n {
      assert ts[k := x][..n] == ts[..n][k := x];
      BalanceReplace(ts[..n], k, x);
    } else {
      assert ts[k := x][..n] == ts[..n];
    }
  }

  lemma {:induction false} BalanceConcat(a: seq<Transaction>, b: seq<Transaction>)
    ensures Balance(a + b) == Balance(a) + Balance(b)
  {
    if b == [] {
      assert a + b == a;
    } else {
      var init := b[..|b| - 1];
      assert a + b == (a + init) + [b[|b| - 1]];
      assert b == init + [b[|b| - 1]];
      BalanceAppend(a + init, b[|b| - 1]);
      BalanceAppend(init, b[|b| - 1]);
      BalanceConcat(a, init);
    }
  }

  /** The balance depends only on which transactions there are, not on their order. */
  lemma {:induction false} BalancePermutation(a: seq<Transaction>, b: seq<Transaction>)
    requires multiset(a) == multiset(b)
    ensures Balance(a) == Balance(b)
  {
    if a != [] {
      var n := |a|;
      var x := a[n - 1];
      assert x in multiset(b);
      var k :| 0 <= k < |b| && b[k] == x;
      var rest := b[..k] + b[k + 1..];
      assert b == b[..k] + [x] + b[k + 1..];
      assert a == a[..n - 1] + [x];
      assert multiset(b) == multiset(b[..k]) + multiset{x} + multiset(b[k + 1..]);
      assert multiset(rest) == multiset(b[..k]) + multiset(b[k + 1..]);
      assert multiset(a) == multiset(a[..n - 1]) + multiset{x};
      assert multiset(a[..n - 1]) == multiset(a) - multiset{x};
      assert multiset(rest) == multiset(b) - multiset{x};
      BalancePermutation(a[..n - 1], rest);
      BalanceConcat(b[..k] + [x], b[k + 1..]);
      BalanceConcat(b[..k], [x]);
      BalanceConcat(b[..k], b[k + 1..]);
      assert Balance([x]) == x.amount by {
        assert [x][..0] == [];
      }
    } else {
      assert b == [];
    }
  }

  /** `ts.filter(p)`. */
  function Keep(ts: seq<Transaction>, p: Transaction -> bool): (r: seq<Transaction>)
    ensures forall t :: multiset(r)[t] == if p(t) then multiset(ts)[t] else 0
  {
    if ts == [] then []
    else
      var last := ts[|ts| - 1];
      assert ts == ts[..|ts| - 1] + [last];
      if p(last) then Keep(ts[..|ts| - 1], p) + [last] else Keep(ts[..|ts| - 1], p)
  }

  /** A single record is kept exactly when it passes. */
  lemma KeepOne(t: Transaction, p: Transaction -> bool)
    ensures Keep([t], p) == if p(t) then [t] else []
  {
    assert [t][..0] == [];
  }

  /**
   * Filtering a concatenation filters each part and keeps them in order; with
   * `KeepOne` this makes the result the records that pass, in input order.
   */
  lemma {:induction false} KeepAppend(a: seq<Transaction>, b: seq<Transaction>, p: Transaction -> bool)
    ensures Keep(a + b, p) == Keep(a, p) + Keep(b, p)
    decreases |b|
  {
    if b == [] {
      assert a + b == a;
    } else {
      var n := |b| - 1;
      assert (a + b)[..|a + b| - 1] == a + b[..n];
      KeepAppend(a, b[..n], p);
    }
  }

  /** `RemoveId` is the filter that keeps the records whose id differs. */
  lemma {:induction false} RemoveIdIsKeep(ts: seq<Transaction>, id: string)
    ensures RemoveId(ts, id) == Keep(ts, (t: Transaction) => t.id != id)
  {
    if ts != [] {
      RemoveIdIsKeep(ts[..|ts| - 1], id);
    }
  }

  /** The type selector of the filters: every type, or one. */
  datatype TypeFilter = All | Only(kind: TransactionType)

  /**
   * `TransactionFilters`. A date bound is `null` (None) or a `YYYY-MM-DD`
   * string; the description is a search term.
   */
  datatype Filters = Filters(
    dateFrom: Option<string>,
    dateTo: Option<string>,
    description: string,
    kind: TypeFilter)

  const NoFilters := Filters(None, None, "", All)

  /** A date bound takes part only when it is a non-empty string. */
  predicate Active(bound: Option<string>)
  {
    bound.Some? && bound.value != ""
  }

  /** Every filter that is set lets `t` through. */
  predicate Matches(f: Filters, t: Transaction)
  {
    && (Active(f.dateFrom) ==> !LexLess(t.date, f.dateFrom.value))
    && (Active(f.dateTo) ==> !LexLess(f.dateTo.value, t.date))
    && (Trim(f.description) != [] ==>
          Contains(ToLower(t.description), Trim(ToLower(f.description))))
    && (f.kind.Only? ==> t.kind == f.kind.kind)
  }

  /** `a` is listed before `b`: a later date, or the same date and a later creation time. */
  predicate Before(a: Transaction, b: Transaction)
  {
    if a.date != b.date then LexLess(b.date, a.date) else a.createdAt > b.createdAt
  }

  lemma BeforeAsymmetric(a: Transaction, b: Transaction)
    ensures !(Before(a, b) && Before(b, a))
  {
    LexLessAsymmetric(a.date, b.date);
  }

  /** No transaction is listed before the one in front of it. */
  predicate NewestFirst(ts: seq<Transaction>)
  {
    forall i :: 0 <= i < |ts| - 1 ==> !Before(ts[i + 1], ts[i])
  }

  /**
   * What `NewestFirst` says of neighbours: dates never increase, and on the
   * same date creation times never increase.
   */
  lemma NewestFirstNeighbours(ts: seq<Transaction>, i: int)
    requires NewestFirst(ts) && 0 <= i < |ts| - 1
    ensures ts[i].date == ts[i + 1].date || LexLess(ts[i + 1].date, ts[i].date)
    ensures ts[i].date == ts[i + 1].date ==> ts[i].createdAt >= ts[i + 1].createdAt
  {
    assert !Before(ts[i + 1], ts[i]);
    if ts[i].date != ts[i + 1].date {
      LexLessTotal(ts[i].date, ts[i + 1].date);
    }
  }

  /** Places `x` in front of the first element it is listed before. */
  function Insert(x: Transaction, r: seq<Transaction>): (s: seq<Transaction>)
    requires NewestFirst(r)
    ensures NewestFirst(s)
    ensures multiset(s) == multiset(r) + multiset{x}
    ensures s[0] == x || (r != [] && s[0] == r[0])
  {
    if r == [] then [x]
    else if Before(x, r[0]) then
      BeforeAsymmetric(x, r[0]);
      [x] + r
    else
      var tail := Insert(x, r[1..]);
      assert r == [r[0]] + r[1..];
      assert !Before(tail[0], r[0]) by {
        if tail[0] != x {
          assert r[1..][0] == r[1];
        }
      }
      var s := [r[0]] + tail;
      assert forall i :: 0 < i < |s| ==> s[i] == tail[i - 1];
      s
  }

  /**
   * The comparator sort of `filterTransactions`: newest date first, then
   * newest creation time first; transactions that compare equal keep their
   * order.
   */
  function Sort(ts: seq<Transaction>): (r: seq<Transaction>)
    ensures NewestFirst(r)
    ensures multiset(r) == multiset(ts)
  {
    if ts == [] then []
    else
      assert ts == ts[..|ts| - 1] + [ts[|ts| - 1]];
      Insert(ts[|ts| - 1], Sort(ts[..|ts| - 1]))
  }

  /**
   * `filterTransactions`: the date, description and type passes in turn, each
   * only when its filter is set, then the sort.
   */
  function FilterTransactions(ts: seq<Transaction>, f: Filters): (r: seq<Transaction>)
    ensures NewestFirst(r)
    ensures forall t :: multiset(r)[t] == if Matches(f, t) then multiset(ts)[t] else 0
  {
    var a := if Active(f.dateFrom) then
        var from := f.dateFrom.value; Keep(ts, (t: Transaction) => !LexLess(t.date, from))
      else ts;
    var b := if Active(f.dateTo) then
        var to := f.dateTo.value; Keep(a, (t: Transaction) => !LexLess(to, t.date))
      else a;
    var c := if Trim(f.description) != [] then
        var term := Trim(ToLower(f.description)); Keep(b, (t: Transaction) => Contains(ToLower(t.description), term))
      else b;
    var d := if f.kind.Only? then
        var kind := f.kind.kind; Keep(c, (t: Transaction) => t.kind == kind)
      else c;
    Sort(d)
  }

  /** With no filter set, the view holds every transaction, newest first. */
  lemma NoFiltersKeepsAll(ts: seq<Transaction>)
    ensures multiset(FilterTransactions(ts, NoFilters)) == multiset(ts)
    ensures |FilterTransactions(ts, NoFilters)| == |ts|
  {
    var r := FilterTransactions(ts, NoFilters);
    assert Trim(NoFilters.description) == [];
    forall t ensures multiset(r)[t] == multiset(ts)[t] {
      assert Matches(NoFilters, t);
    }
    assert multiset(r) == multiset(ts);
    assert |multiset(r)| == |r| && |multiset(ts)| == |ts|;
  }

  /**
   * The deposits view and the withdrawals view together hold exactly the
   * transactions of the all-types view.
   */
  lemma TypeFilterPartition(ts: seq<Transaction>, f: Filters)
    ensures var deposits := FilterTransactions(ts, f.(kind := Only(Deposit)));
      var withdrawals := FilterTransactions(ts, f.(kind := Only(Withdrawal)));
      var all := FilterTransactions(ts, f.(kind := All));
      && multiset(deposits) + multiset(withdrawals) == multiset(all)
      && |deposits| + |withdrawals| == |all|
  {
    var deposits := FilterTransactions(ts, f.(kind := Only(Deposit)));
    var withdrawals := FilterTransactions(ts, f.(kind := Only(Withdrawal)));
    var all := FilterTransactions(ts, f.(kind := All));
    forall t ensures (multiset(deposits) + multiset(withdrawals))[t] == multiset(all)[t] {
      MatchesByKind(f, t);
    }
    assert multiset(deposits) + multiset(withdrawals) == multiset(all);
    assert |multiset(deposits)| == |deposits| && |multiset(withdrawals)| == |withdrawals|;
    assert |multiset(all)| == |all|;
  }

  /** A transaction passes the all-types filter exactly when it passes one of the one-type filters. */
  lemma MatchesByKind(f: Filters, t: Transaction)
    ensures Matches(f.(kind := All), t) <==>
      Matches(f.(kind := Only(Deposit)), t) || Matches(f.(kind := Only(Withdrawal)), t)
    ensures !(Matches(f.(kind := Only(Deposit)), t) && Matches(f.(kind := Only(Withdrawal)), t))
  {
  }

  /** A position normalised as `Array.prototype.slice` does: negative counts from the end. */
  function SliceIndex(i: int, n: nat): (r: nat)
    ensures r <= n
    ensures 0 <= i <= n ==> r == i
  {
    if i < 0 then (if n + i < 0 then 0 else n + i) else if i > n then n else i
  }

  /** `s.slice(start, end)`. */
  function JsSlice(s: seq<Transaction>, start: int, end: int): seq<Transaction>
  {
    var b, e := SliceIndex(start, |s|), SliceIndex(end, |s|);
    if b < e then s[b..e] else []
  }

  /** `getPaginatedTransactions` on a list: the slice for page `page`. */
  function PageSlice(s: seq<Transaction>, page: int): seq<Transaction>
  {
    var start := (page - 1) * TransactionsPerPage;
    JsSlice(s, start, start + TransactionsPerPage)
  }

  function Min(a: int, b: int): int
  {
    if a <= b then a else b
  }

  /**
   * Every page holds at most twenty transactions; page `p` from 1 on holds
   * positions `(p - 1) * 20` up to `p * 20` of the list, cut at its end.
   */
  lemma PageSliceContents(s: seq<Transaction>, page: int)
    ensures |PageSlice(s, page)| <= TransactionsPerPage
    ensures page >= 1 ==>
      var lo := Min((page - 1) * TransactionsPerPage, |s|);
      PageSlice(s, page) == s[lo..Min(page * TransactionsPerPage, |s|)]
  {
  }

  /** A page from 1 on shows something exactly when the list reaches past the pages before it. */
  lemma PageNonEmptyIff(s: seq<Transaction>, page: int)
    ensures page >= 1 ==> (PageSlice(s, page) != [] <==> (page - 1) * TransactionsPerPage < |s|)
  {
  }

  /** `Math.ceil(count / 20) || 1`. */
  function TotalPages(count: nat): (r: nat)
    ensures r >= 1
    ensures count > 0 ==> (r - 1) * TransactionsPerPage < count <= r * TransactionsPerPage
    ensures count == 0 ==> r == 1
  {
    if count == 0 then 1 else (count + TransactionsPerPage - 1) / TransactionsPerPage
  }

  /** Pages 1 to `k`, one after the other. */
  function Pages(s: seq<Transaction>, k: nat): seq<Transaction>
  {
    if k == 0 then [] else Pages(s, k - 1) + PageSlice(s, k)
  }

  lemma {:induction false} PagesPrefix(s: seq<Transaction>, k: nat)
    ensures Pages(s, k) == s[..Min(k * TransactionsPerPage, |s|)]
  {
    if k > 0 {
      PagesPrefix(s, k - 1);
      PageSliceContents(s, k);
      var lo := Min((k - 1) * TransactionsPerPage, |s|);
      assert s[..lo] + s[lo..Min(k * TransactionsPerPage, |s|)] == s[..Min(k * TransactionsPerPage, |s|)];
    }
  }

  /** Pages 1 to `TotalPages` show every transaction once, in order. */
  lemma PagesCoverList(s: seq<Transaction>)
    ensures Pages(s, TotalPages(|s|)) == s
  {
    PagesPrefix(s, TotalPages(|s|));
  }

  /**
   * The page `deleteTransaction` moves to: one back when the page is past the
   * first and the list held, before the deletion, at most one transaction
   * beyond the pages in front of it. The count is that of ALL transactions,
   * whatever filters are set.
   */
  function PageAfterDelete(page: int, countBefore: nat): (r: int)
    ensures r == page || (r == page - 1 && page > 1)
  {
    if page > 1 && countBefore <= (page - 1) * TransactionsPerPage + 1 then page - 1 else page
  }

  /**
   * Deleting an id that exactly one record carries, from a page that showed
   * something with no filter set, lands on a page within the new page count
   * that still shows something.
   */
  lemma PageAfterDeleteStaysInRange(ts: seq<Transaction>, id: string, page: int)
    requires HasId(ts, id)
    requires IdAtMostOnce(ts, id)
    requires 1 <= page && (page - 1) * TransactionsPerPage < |ts|
    ensures var p := PageAfterDelete(page, |ts|);
      var view := FilterTransactions(RemoveId(ts, id), NoFilters);
      1 <= p <= TotalPages(|view|) && (|view| > 0 ==> PageSlice(view, p) != [])
  {
    var after := RemoveId(ts, id);
    var view := FilterTransactions(after, NoFilters);
    RemoveUniqueIdDropsOne(ts, id);
    NoFiltersKeepsAll(after);
    PageInRangeAfterOneLeaves(page, |ts|);
    PageNonEmptyIff(view, PageAfterDelete(page, |ts|));
  }

  /** The count side: one record fewer, and the page the fix-up picks still reaches into the list. */
  lemma PageInRangeAfterOneLeaves(page: int, countBefore: nat)
    requires 1 <= page && (page - 1) * TransactionsPerPage < countBefore
    ensures var p := PageAfterDelete(page, countBefore);
      1 <= p <= TotalPages(countBefore - 1)
      && (countBefore - 1 > 0 ==> (p - 1) * TransactionsPerPage < countBefore - 1)
  {
  }

  /**
   * When two records carry the id, the fix-up can miss: with 22 records, the
   * last two sharing the id, deleting it from page 2 stays on page 2, which
   * no longer exists and shows nothing.
   */
  lemma PageAfterDeleteDuplicateId(ts: seq<Transaction>, t1: Transaction, t2: Transaction)
    requires |ts| == 20 && !HasId(ts, t1.id) && t2.id == t1.id
    ensures var after := RemoveId(ts + [t1, t2], t1.id);
      && PageAfterDelete(2, |ts + [t1, t2]|) == 2
      && after == ts
      && TotalPages(|after|) == 1
      && PageSlice(after, 2) == []
  {
    var all := ts + [t1, t2];
    assert all[..|all| - 1] == ts + [t1];
    assert (ts + [t1])[..|ts|] == ts;
    NoIdRemovesNothing(ts, t1.id);
  }

  /**
   * With a filter set, the fix-up counts all records: the page can stay where
   * the filtered view after the deletion no longer reaches, and show nothing.
   */
  lemma PageAfterDeleteIgnoresFilter(ts: seq<Transaction>, id: string, f: Filters, page: int)
    requires page > 1 && |ts| > (page - 1) * TransactionsPerPage + 1
    requires |FilterTransactions(RemoveId(ts, id), f)| <= (page - 1) * TransactionsPerPage
    ensures PageAfterDelete(page, |ts|) == page
    ensures PageSlice(FilterTransactions(RemoveId(ts, id), f), PageAfterDelete(page, |ts|)) == []
  {
  }
}
