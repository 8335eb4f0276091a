/**
 * The banking store: the transaction list, a one-slot undo buffer for the last
 * addition or deletion, the list filters, the current page, the display
 * currency and the privacy toggle. Every action replaces some of these fields.
 * Ids and creation times, which the store draws from `crypto.randomUUID` and
 * `Date.now`, are parameters of `Add`.
 */
module BankingStore {
  import opened Wrappers
  import opened Transactions
  import opened StoreViews

  /** `Partial<TransactionFilters>`: a present field replaces the current one. */
  datatype FiltersUpdate = FiltersUpdate(
    dateFrom: Option<Option<string>>,
    dateTo: Option<Option<string>>,
    description: Option<string>,
    kind: Option<TypeFilter>)

  /** `{ ...filters, ...update }`. */
  function ApplyFiltersUpdate(f: Filters, u: FiltersUpdate): (r: Filters)
    ensures r.dateFrom == if u.dateFrom.Some? then u.dateFrom.value else f.dateFrom
    ensures r.dateTo == if u.dateTo.Some? then u.dateTo.value else f.dateTo
    ensures r.description == if u.description.Some? then u.description.value else f.description
    ensures r.kind == if u.kind.Some? then u.kind.value else f.kind
  {
    Filters(
      if u.dateFrom.Some? then u.dateFrom.value else f.dateFrom,
      if u.dateTo.Some? then u.dateTo.value else f.dateTo,
      if u.description.Some? then u.description.value else f.description,
      if u.kind.Some? then u.kind.value else f.kind)
  }

  /** The records `importTransactions` keeps: those whose id the existing list does not hold. */
  function NewById(existing: seq<Transaction>, incoming: seq<Transaction>): (r: seq<Transaction>)
    ensures forall t :: multiset(r)[t] == if HasId(existing, t.id) then 0 else multiset(incoming)[t]
  {
    Keep(incoming, (t: Transaction) => !HasId(existing, t.id))
  }

  /** No imported record shares an id with a record that was already there. */
  lemma NewByIdAreNew(existing: seq<Transaction>, incoming: seq<Transaction>)
    ensures forall t :: t in NewById(existing, incoming) ==> t in incoming && !HasId(existing, t.id)
    ensures forall t :: t in incoming && !HasId(existing, t.id) ==> t in NewById(existing, incoming)
  {
    var r := NewById(existing, incoming);
    forall t | t in r ensures t in incoming && !HasId(existing, t.id) {
      assert multiset(r)[t] > 0;
    }
    forall t | t in incoming && !HasId(existing, t.id) ensures t in r {
      assert multiset(incoming)[t] > 0;
    }
  }

  /**
   * Import keeps the incoming order: the records kept from a concatenation are
   * those kept from each part, one part after the other, and a single record
   * is kept exactly when its id is new.
   */
  lemma NewByIdInOrder(existing: seq<Transaction>, a: seq<Transaction>, b: seq<Transaction>, t: Transaction)
    ensures NewById(existing, a + b) == NewById(existing, a) + NewById(existing, b)
    ensures NewById(existing, [t]) == if HasId(existing, t.id) then [] else [t]
  {
    KeepAppend(a, b, (t: Transaction) => !HasId(existing, t.id));
    KeepOne(t, (t: Transaction) => !HasId(existing, t.id));
  }

  class BankingStore {
    var transactions: seq<Transaction>
    var lastDeleted: Option<Transaction>
    var lastAdded: Option<Transaction>
    var filters: Filters
    var currentPage: int
    var selectedCurrency: string
    var isBalanceVisible: bool

    /**
     * At most one undo slot is filled, and the record in the add slot is still
     * in the list.
     */
    predicate Valid()
      reads this
    {
      && !(lastDeleted.Some? && lastAdded.Some?)
      && (lastAdded.Some? ==> lastAdded.value in transactions)
    }

    /** `initialState`. */
    predicate IsInitial()
      reads this
    {
      && transactions == []
      && lastDeleted == None && lastAdded == None
      && filters == NoFilters
      && currentPage == 1
      && selectedCurrency == "EUR"
      && isBalanceVisible
    }

    constructor()
      ensures IsInitial() && Valid()
    {
      transactions := [];
      lastDeleted := None;
      lastAdded := None;
      filters := NoFilters;
      currentPage := 1;
      selectedCurrency := "EUR";
      isBalanceVisible := true;
    }

    /** `addTransaction`: appends the draft under a new id and creation time. */
    method Add(d: Draft, id: string, createdAt: int)
      requires Valid()
      modifies this
      ensures Valid()
      ensures transactions == old(transactions) + [Stamp(d, id, createdAt)]
      ensures lastAdded == Some(Stamp(d, id, createdAt)) && lastDeleted == None
      ensures currentPage == 1
      ensures filters == old(filters) && selectedCurrency == old(selectedCurrency)
      ensures isBalanceVisible == old(isBalanceVisible)
    {
      var t := Stamp(d, id, createdAt);
      transactions := transactions + [t];
      lastAdded := Some(t);
      lastDeleted := None;
      currentPage := 1;
    }

    /** `updateTransaction`: merges the update into every record with `id`; both undo slots are cleared. */
    method Update(id: string, u: Updates)
      requires Valid()
      modifies this
      ensures Valid()
      ensures transactions == UpdateId(old(transactions), id, u)
      ensures lastAdded == None && lastDeleted == None
      ensures currentPage == old(currentPage) && filters == old(filters)
      ensures selectedCurrency == old(selectedCurrency) && isBalanceVisible == old(isBalanceVisible)
    {
      transactions := UpdateId(transactions, id, u);
      lastAdded := None;
      lastDeleted := None;
    }

    /**
     * `deleteTransaction`: with an unknown id nothing changes; otherwise every
     * record with `id` goes, the first of them is kept for undo, the add slot
     * is cleared and the page is fixed up from the count before the deletion.
     */
    method Delete(id: string)
      requires Valid()
      modifies this
      ensures Valid()
      ensures !HasId(old(transactions), id) ==>
        && transactions == old(transactions)
        && lastDeleted == old(lastDeleted) && lastAdded == old(lastAdded)
        && currentPage == old(currentPage)
      ensures HasId(old(transactions), id) ==>
        && transactions == RemoveId(old(transactions), id)
        && lastDeleted == Some(FirstWithId(old(transactions), id))
        && lastAdded == None
        && currentPage == PageAfterDelete(old(currentPage), |old(transactions)|)
      ensures filters == old(filters) && selectedCurrency == old(selectedCurrency)
      ensures isBalanceVisible == old(isBalanceVisible)
    {
      if HasId(transactions, id) {
        var deleted := FirstWithId(transactions, id);
        currentPage := PageAfterDelete(currentPage, |transactions|);
        transactions := RemoveId(transactions, id);
        lastDeleted := Some(deleted);
        lastAdded := None;
      }
    }

    /** `setFilters`: merges the update into the filters and goes back to page 1. */
    method SetFilters(u: FiltersUpdate)
      requires Valid()
      modifies this
      ensures Valid()
      ensures filters == ApplyFiltersUpdate(old(filters), u) && currentPage == 1
      ensures transactions == old(transactions)
      ensures lastAdded == old(lastAdded) && lastDeleted == old(lastDeleted)
      ensures selectedCurrency == old(selectedCurrency) && isBalanceVisible == old(isBalanceVisible)
    {
      filters := ApplyFiltersUpdate(filters, u);
      currentPage := 1;
    }

    /** `clearFilters`: no filter set, page 1. */
    method ClearFilters()
      requires Valid()
      modifies this
      ensures Valid()
      ensures filters == NoFilters && currentPage == 1
      ensures transactions == old(transactions)
      ensures lastAdded == old(lastAdded) && lastDeleted == old(lastDeleted)
      ensures selectedCurrency == old(selectedCurrency) && isBalanceVisible == old(isBalanceVisible)
    {
      filters := NoFilters;
      currentPage := 1;
    }

    /** `setCurrentPage`: any number is taken as it is. */
    method SetCurrentPage(page: int)
      requires Valid()
      modifies this
      ensures Valid()
      ensures currentPage == page
      ensures transactions == old(transactions) && filters == old(filters)
      ensures lastAdded == old(lastAdded) && lastDeleted == old(lastDeleted)
      ensures selectedCurrency == old(selectedCurrency) && isBalanceVisible == old(isBalanceVisible)
    {
      currentPage := page;
    }

    /** `undoDelete`: puts the deleted record back at the end of the list. */
    method UndoDelete()
      requires Valid()
      modifies this
      ensures Valid()
      ensures old(lastDeleted).None? ==> transactions == old(transactions)
      ensures old(lastDeleted).Some? ==> transactions == old(transactions) + [old(lastDeleted).value]
      ensures lastDeleted == None && lastAdded == old(lastAdded)
      ensures currentPage == old(currentPage) && filters == old(filters)
      ensures selectedCurrency == old(selectedCurrency) && isBalanceVisible == old(isBalanceVisible)
    {
      if lastDeleted.Some? {
        transactions := transactions + [lastDeleted.value];
        lastDeleted := None;
      }
    }

    /** `undoAdd`: removes every record carrying the id of the last added one. */
    method UndoAdd()
      requires Valid()
      modifies this
      ensures Valid()
      ensures old(lastAdded).None? ==> transactions == old(transactions)
      ensures old(lastAdded).Some? ==> transactions == RemoveId(old(transactions), old(lastAdded).value.id)
      ensures lastAdded == None && lastDeleted == old(lastDeleted)
      ensures currentPage == old(currentPage) && filters == old(filters)
      ensures selectedCurrency == old(selectedCurrency) && isBalanceVisible == old(isBalanceVisible)
    {
      if lastAdded.Some? {
        transactions := RemoveId(transactions, lastAdded.value.id);
        lastAdded := None;
      }
    }

    /** `clearUndo`: empties both undo slots. */
    method ClearUndo()
      requires Valid()
      modifies this
      ensures Valid()
      ensures lastAdded == None && lastDeleted == None
      ensures transactions == old(transactions) && currentPage == old(currentPage)
      ensures filters == old(filters)
      ensures selectedCurrency == old(selectedCurrency) && isBalanceVisible == old(isBalanceVisible)
    {
      lastAdded := None;
      lastDeleted := None;
    }

    /**
     * `importTransactions`: appends, in their order, the incoming records whose
     * id the list does not hold yet, and goes back to page 1. The undo slots
     * are left as they are.
     */
    method Import(incoming: seq<Transaction>)
      requires Valid()
      modifies this
      ensures Valid()
      ensures transactions == old(transactions) + NewById(old(transactions), incoming)
      ensures currentPage == 1
      ensures lastAdded == old(lastAdded) && lastDeleted == old(lastDeleted)
      ensures filters == old(filters)
      ensures selectedCurrency == old(selectedCurrency) && isBalanceVisible == old(isBalanceVisible)
    {
      transactions := transactions + NewById(transactions, incoming);
      currentPage := 1;
    }

    /** `resetStore`: back to the initial state. */
    method Reset()
      requires Valid()
      modifies this
      ensures Valid() && IsInitial()
    {
      transactions := [];
      lastDeleted := None;
      lastAdded := None;
      filters := NoFilters;
      currentPage := 1;
      selectedCurrency := "EUR";
      isBalanceVisible := true;
    }

    /** `setSelectedCurrency`. */
    method SetSelectedCurrency(currency: string)
      requires Valid()
      modifies this
      ensures Valid()
      ensures selectedCurrency == currency
      ensures transactions == old(transactions) && currentPage == old(currentPage)
      ensures lastAdded == old(lastAdded) && lastDeleted == old(lastDeleted)
      ensures filters == old(filters) && isBalanceVisible == old(isBalanceVisible)
    {
      selectedCurrency := currency;
    }

    /** `toggleBalanceVisibility`. */
    method ToggleBalanceVisibility()
      requires Valid()
      modifies this
      ensures Valid()
      ensures isBalanceVisible == !old(isBalanceVisible)
      ensures transactions == old(transactions) && currentPage == old(currentPage)
      ensures lastAdded == old(lastAdded) && lastDeleted == old(lastDeleted)
      ensures filters == old(filters) && selectedCurrency == old(selectedCurrency)
    {
      isBalanceVisible := !isBalanceVisible;
    }

    /** `getBalance`: always income minus expenses. */
    function GetBalance(): (r: int)
      reads this
      ensures r == GetTotalIncome() - GetTotalExpenses()
    {
      BalanceIsIncomeMinusExpenses(transactions);
      Balance(transactions)
    }

    /** `getTotalIncome`. */
    function GetTotalIncome(): int
      reads this
    {
      Income(transactions)
    }

    /** `getTotalExpenses`. */
    function GetTotalExpenses(): int
      reads this
    {
      Expenses(transactions)
    }

    /** `getFilteredTransactions`: the sorted selection of the records the filters let through. */
    function GetFilteredTransactions(): (r: seq<Transaction>)
      reads this
      ensures NewestFirst(r)
      ensures forall t :: multiset(r)[t] == if Matches(filters, t) then multiset(transactions)[t] else 0
    {
      FilterTransactions(transactions, filters)
    }

    /** `getPaginatedTransactions`: at most one page of the filtered view. */
    function GetPaginatedTransactions(): (r: seq<Transaction>)
      reads this
      ensures |r| <= TransactionsPerPage
      ensures currentPage >= 1 ==> (r != [] <==> (currentPage - 1) * TransactionsPerPage < |GetFilteredTransactions()|)
    {
      PageSliceContents(GetFilteredTransactions(), currentPage);
      PageNonEmptyIff(GetFilteredTransactions(), currentPage);
      PageSlice(GetFilteredTransactions(), currentPage)
    }

    /** `getTotalPages`: at least 1, and enough pages to show the whole filtered view. */
    function GetTotalPages(): (r: nat)
      reads this
      ensures r >= 1
      ensures Pages(GetFilteredTransactions(), r) == GetFilteredTransactions()
    {
      PagesCoverList(GetFilteredTransactions());
      TotalPages(|GetFilteredTransactions()|)
    }
  }

  /** Adding under a new id and undoing the addition leaves the list as it was. */
  method AddThenUndoAdd(store: BankingStore, d: Draft, id: string, createdAt: int)
    requires store.Valid() && !HasId(store.transactions, id)
    modifies store
    ensures store.Valid()
    ensures store.transactions == old(store.transactions)
    ensures store.lastAdded == None && store.lastDeleted == None
  {
    store.Add(d, id, createdAt);
    store.UndoAdd();
    RemoveAppendedId(old(store.transactions), Stamp(d, id, createdAt));
  }

  /**
   * Deleting a record whose id is unique and undoing the deletion keeps the
   * same records, now with that one at the end, and the same balance.
   */
  method DeleteThenUndoDelete(store: BankingStore, id: string)
    requires store.Valid() && HasId(store.transactions, id)
    requires IdAtMostOnce(store.transactions, id)
    modifies store
    ensures store.Valid()
    ensures store.transactions == RemoveId(old(store.transactions), id) + [FirstWithId(old(store.transactions), id)]
    ensures multiset(store.transactions) == multiset(old(store.transactions))
    ensures store.GetBalance() == old(store.GetBalance())
    ensures store.lastAdded == None && store.lastDeleted == None
  {
    store.Delete(id);
    store.UndoDelete();
    RemoveThenAppendIsPermutation(old(store.transactions), id);
    BalancePermutation(store.transactions, old(store.transactions));
  }

  /** Whatever action runs, at most one undo slot is filled afterwards (here: an addition after a deletion). */
  method DeleteThenAdd(store: BankingStore, id: string, d: Draft, newId: string, createdAt: int)
    requires store.Valid()
    modifies store
    ensures store.Valid()
    ensures store.lastDeleted == None && store.lastAdded == Some(Stamp(d, newId, createdAt))
  {
    store.Delete(id);
    store.Add(d, newId, createdAt);
  }
}
