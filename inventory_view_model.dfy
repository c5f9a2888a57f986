/**
 * The inventory view-model shared by the inventory and grocery screens: the
 * two displayed lists, the search query, category and sort order that shape
 * them, the duplicate-name warning, and the multi-selection that can be moved
 * to another location or deleted.
 *
 * Every coroutine the source launches is modelled as running to completion
 * before the next call. The outcome of each remote call is a parameter; an
 * `onSuccess` callback becomes a returned boolean that says whether it runs.
 */
module Inventory {
  import opened Common
  import opened Items
  import opened Sorting
  import opened Repository

  /** The user name shown when the signed-in user has no display name. */
  const DEFAULT_USER_NAME := "User"

  // ---------------------------------------------------------------------------
  // The search filter

  /** filterItemsByQuery: a blank query keeps everything; otherwise names containing it, ignoring case. */
  function FilterItemsByQuery(items: seq<InventoryItem>, query: string): (r: seq<InventoryItem>)
    ensures IsSubsequence(r, items)
    ensures IsBlank(query) ==> r == items
    ensures forall x :: x in r <==> x in items && (IsBlank(query) || ContainsIgnoreCase(x.name, query))
    ensures forall x :: multiset(r)[x] == if IsBlank(query) || ContainsIgnoreCase(x.name, query) then multiset(items)[x] else 0
  {
    if IsBlank(query) then
      SubsequenceReflexive(items);
      items
    else
      var r := Filter(items, (it: InventoryItem) => ContainsIgnoreCase(it.name, query));
      forall x ensures x in r <==> x in items && ContainsIgnoreCase(x.name, query) {
        FilterMembership(items, (it: InventoryItem) => ContainsIgnoreCase(it.name, query), x);
      }
      r
  }

  /** Dropping items never breaks the order of the rest. */
  lemma {:induction false} SubsequenceKeepsOrder(a: seq<InventoryItem>, b: seq<InventoryItem>, key: InventoryItem -> SortKey)
    requires IsSubsequence(a, b) && SortedBy(b, key)
    ensures SortedBy(a, key)
    decreases |b|
  {
    if a != [] {
      assert SortedBy(b[1..], key);
      if a[0] == b[0] && IsSubsequence(a[1..], b[1..]) {
        SubsequenceKeepsOrder(a[1..], b[1..], key);
        SubsequenceMembers(a[1..], b[1..]);
        forall j | 1 <= j < |a| ensures KeyLe(key(a[0]), key(a[j])) {
          assert a[j] in a[1..];
          var k :| 0 <= k < |b[1..]| && b[1..][k] == a[j];
          assert b[k + 1] == a[j];
        }
        forall i, j | 0 <= i < j < |a| ensures KeyLe(key(a[i]), key(a[j])) {
          if i > 0 {
            assert a[i] == a[1..][i - 1] && a[j] == a[1..][j - 1];
          }
        }
      } else {
        SubsequenceKeepsOrder(a, b[1..], key);
      }
    }
  }

  /**
   * What a screen shows after a fetch: sorted by the chosen order, and
   * exactly the stored items in the category whose name matches the query,
   * each of them once.
   */
  lemma DisplayedList(snapshot: seq<InventoryItem>, docs: map<string, InventoryItem>, category: string,
                      order: SortOrder, parseDate: string -> Option<int>, nowMillis: int, query: string)
    requires IsSnapshot(snapshot, docs, category)
    ensures var shown := FilterItemsByQuery(SortItems(snapshot, order, parseDate, nowMillis), query);
            && (forall i, j :: 0 <= i < j < |shown| ==>
                  KeyLe(Key(shown[i], order, parseDate, nowMillis), Key(shown[j], order, parseDate, nowMillis)))
            && (forall x :: x in shown <==>
                  x.id in docs && x == docs[x.id].(id := x.id) && InCategory(docs[x.id], category) &&
                  (IsBlank(query) || ContainsIgnoreCase(x.name, query)))
            && NoDuplicates(shown)
  {
    var key := (x: InventoryItem) => Key(x, order, parseDate, nowMillis);
    var sorted := SortItems(snapshot, order, parseDate, nowMillis);
    var shown := FilterItemsByQuery(sorted, query);
    assert SortedBy(sorted, key);
    SubsequenceKeepsOrder(shown, sorted, key);
    forall x ensures x in sorted <==> x in snapshot {
      assert x in sorted <==> x in multiset(sorted);
      assert x in snapshot <==> x in multiset(snapshot);
    }
    forall x: InventoryItem | x.id in docs && x == docs[x.id].(id := x.id) && InCategory(docs[x.id], category)
      ensures x in snapshot
    {
      var i :| 0 <= i < |snapshot| && snapshot[i].id == x.id;
    }
    NoDuplicatesCounts(snapshot);
    NoDuplicatesCounts(sorted);
    SubsequenceNoDuplicates(shown, sorted);
  }

  // ---------------------------------------------------------------------------
  // Selection

  /** toggleItemSelected: remove the item if selected, else append it. */
  function Toggle(selected: seq<InventoryItem>, item: InventoryItem): (r: seq<InventoryItem>)
    ensures item in selected ==> |r| == |selected| - 1
    ensures item !in selected ==> |r| == |selected| + 1 && r[..|selected|] == selected && r[|selected|] == item
  {
    if item in selected then RemoveFirst(selected, item) else selected + [item]
  }

  /** Removing the element at `i` from a list without duplicates removes exactly that value. */
  lemma RemoveAt(s: seq<InventoryItem>, i: nat)
    requires NoDuplicates(s) && i < |s|
    ensures NoDuplicates(s[..i] + s[i + 1..])
    ensures forall y :: y in s[..i] + s[i + 1..] <==> y in s && y != s[i]
  {
    var r := s[..i] + s[i + 1..];
    assert |r| == |s| - 1;
    assert forall a :: 0 <= a < |r| ==> r[a] == s[if a < i then a else a + 1];
    forall y | y in s && y != s[i] ensures y in r {
      var j :| 0 <= j < |s| && s[j] == y;
      assert r[if j < i then j else j - 1] == y;
    }
  }

  /** Toggling flips the membership of that one item, leaves the rest alone and never creates duplicates. */
  lemma ToggleSpec(selected: seq<InventoryItem>, item: InventoryItem)
    requires NoDuplicates(selected)
    ensures NoDuplicates(Toggle(selected, item))
    ensures item in Toggle(selected, item) <==> item !in selected
    ensures forall y :: y != item ==> (y in Toggle(selected, item) <==> y in selected)
  {
    if item in selected {
      var i :| 0 <= i < |selected| && selected[i] == item && item !in selected[..i] &&
               RemoveFirst(selected, item) == selected[..i] + selected[i + 1..];
      RemoveAt(selected, i);
    } else {
      var r := selected + [item];
      assert forall a :: 0 <= a < |selected| ==> r[a] == selected[a];
    }
  }

  /** Toggling twice restores the selection as a set, and exactly when the item was not selected. */
  lemma ToggleTwice(selected: seq<InventoryItem>, item: InventoryItem)
    requires NoDuplicates(selected)
    ensures forall y :: y in Toggle(Toggle(selected, item), item) <==> y in selected
    ensures item !in selected ==> Toggle(Toggle(selected, item), item) == selected
  {
    ToggleSpec(selected, item);
    ToggleSpec(Toggle(selected, item), item);
    if item !in selected {
      var s := selected + [item];
      var i :| 0 <= i < |s| && s[i] == item && item !in s[..i] && RemoveFirst(s, item) == s[..i] + s[i + 1..];
      assert forall j :: 0 <= j < |selected| ==> s[j] == selected[j] && s[j] != item;
      assert i == |selected|;
      assert s[..i] == selected;
    }
  }

  // ---------------------------------------------------------------------------
  // Moving and deleting the selection

  /**
   * transferSelectedItems: updateItemLocation on items[i..] in order,
   * stopping at the first failure; `remote(j)` is how the j-th update ends.
   */
  function TransferFrom(store: Store, user: Option<string>, items: seq<InventoryItem>, location: string,
                        remote: nat -> Outcome, i: nat): (st: Step)
    ensures forall u :: user.None? || u != user.value ==> Docs(st.store, u) == Docs(store, u)
    ensures user.Some? ==> Docs(st.store, user.value).Keys == Docs(store, user.value).Keys
    decreases |items| - i
  {
    if i >= |items| then Step(store, Ok)
    else
      var st := LocationStep(store, user, items[i].id, location, remote(i));
      if st.outcome.Failed? then st else TransferFrom(st.store, user, items, location, remote, i + 1)
  }

  /** The document ids of items[i..]. */
  ghost function IdsFrom(items: seq<InventoryItem>, i: nat): set<string> {
    set j | i <= j < |items| :: items[j].id
  }

  /**
   * A transfer succeeds exactly when every selected item is stored and every
   * update succeeds; then exactly the selected documents are relocated.
   * Whatever happens, no document appears or disappears, and each document
   * is either untouched or relocated (updates before a failure stay done).
   */
  lemma {:induction false} TransferFromSpec(store: Store, user: string, items: seq<InventoryItem>, location: string,
                                           remote: nat -> Outcome, i: nat)
    ensures var st := TransferFrom(store, Some(user), items, location, remote, i);
            var before := Docs(store, user);
            var after := Docs(st.store, user);
            && (st.outcome.Ok? <==> forall j :: i <= j < |items| ==> items[j].id in before && remote(j).Ok?)
            && after.Keys == before.Keys
            && (forall k :: k in before ==> after[k] == before[k] || after[k] == before[k].(location := location))
            && (st.outcome.Ok? ==> forall k :: k in before ==>
                  after[k] == if k in IdsFrom(items, i) then before[k].(location := location) else before[k])
            && (forall u :: u != user ==> Docs(st.store, u) == Docs(store, u))
    decreases |items| - i
  {
    if i < |items| {
      var st := LocationStep(store, Some(user), items[i].id, location, remote(i));
      LocationStepSpec(store, user, items[i].id, location, remote(i));
      if st.outcome.Ok? {
        TransferFromSpec(st.store, user, items, location, remote, i + 1);
        assert IdsFrom(items, i) == {items[i].id} + IdsFrom(items, i + 1);
      }
    }
  }

  /** deleteSelectedItems: deleteItem on items[i..] in order; every failure is swallowed. */
  function DeleteFrom(store: Store, user: Option<string>, items: seq<InventoryItem>, remote: nat -> Outcome, i: nat): (after: Store)
    ensures forall u :: user.None? || u != user.value ==> Docs(after, u) == Docs(store, u)
    ensures user.Some? ==> Docs(after, user.value).Keys <= Docs(store, user.value).Keys
    decreases |items| - i
  {
    if i >= |items| then store
    else DeleteFrom(DeleteStep(store, user, items[i].id, remote(i)), user, items, remote, i + 1)
  }

  /** The ids of items[i..] whose delete succeeded. */
  ghost function DeletedIds(items: seq<InventoryItem>, remote: nat -> Outcome, i: nat): set<string> {
    set j | i <= j < |items| && remote(j).Ok? :: items[j].id
  }

  /** Deleting the selection removes exactly the documents whose delete succeeded. */
  lemma {:induction false} DeleteFromSpec(store: Store, user: string, items: seq<InventoryItem>, remote: nat -> Outcome, i: nat)
    ensures Docs(DeleteFrom(store, Some(user), items, remote, i), user) == Docs(store, user) - DeletedIds(items, remote, i)
    ensures forall u :: u != user ==> Docs(DeleteFrom(store, Some(user), items, remote, i), u) == Docs(store, u)
    decreases |items| - i
  {
    if i < |items| {
      var next := DeleteStep(store, Some(user), items[i].id, remote(i));
      DeleteStepSpec(store, user, items[i].id, remote(i));
      DeleteFromSpec(next, user, items, remote, i + 1);
      if remote(i).Ok? {
        assert DeletedIds(items, remote, i) == {items[i].id} + DeletedIds(items, remote, i + 1);
      } else {
        assert DeletedIds(items, remote, i) == DeletedIds(items, remote, i + 1);
      }
    }
  }

  // ---------------------------------------------------------------------------
  // Duplicate names

  /** `items.any { it.name.equals(name, ignoreCase = true) }`. */
  predicate AnyNameMatches(items: seq<InventoryItem>, name: string)
    ensures (exists x :: x in items && x.name == name) ==> AnyNameMatches(items, name)
    ensures AnyNameMatches(items, name) ==> items != []
  {
    exists i :: 0 <= i < |items| && EqualsIgnoreCase(items[i].name, name)
  }

  /** Some stored document has this name, ignoring case. */
  ghost predicate HasStoredName(docs: map<string, InventoryItem>, name: string) {
    exists k :: k in docs && EqualsIgnoreCase(docs[k].name, name)
  }

  /** The duplicate check over the fetched list is a check over the user's stored documents. */
  lemma DuplicateIffStoredName(snapshot: seq<InventoryItem>, docs: map<string, InventoryItem>,
                               parseDate: string -> Option<int>, nowMillis: int, name: string)
    requires IsSnapshot(snapshot, docs, ALL)
    ensures AnyNameMatches(SortItems(snapshot, ByName, parseDate, nowMillis), name) <==> HasStoredName(docs, name)
  {
    var sorted := SortItems(snapshot, ByName, parseDate, nowMillis);
    if AnyNameMatches(sorted, name) {
      var i :| 0 <= i < |sorted| && EqualsIgnoreCase(sorted[i].name, name);
      assert sorted[i] in multiset(snapshot);
      var j :| 0 <= j < |snapshot| && snapshot[j] == sorted[i];
      assert snapshot[j].id in docs && EqualsIgnoreCase(docs[snapshot[j].id].name, name);
    }
    if HasStoredName(docs, name) {
      var k :| k in docs && EqualsIgnoreCase(docs[k].name, name);
      var j :| 0 <= j < |snapshot| && snapshot[j].id == k;
      assert snapshot[j] in multiset(sorted);
      var i :| 0 <= i < |sorted| && sorted[i] == snapshot[j];
    }
  }

  // ---------------------------------------------------------------------------
  // The view-model

  class InventoryViewModel {
    var isLoading: bool
    var inventoryItems: seq<InventoryItem>
    var groceryItems: seq<InventoryItem>
    var userName: string
    var searchQuery: string
    var selectedCategory: string
    var sortOrder: SortOrder
    var showWarningModal: bool
    /** The item waiting for the user to confirm adding it despite its name. */
    var duplicateItem: Option<InventoryItem>
    var selectedItems: seq<InventoryItem>
    const repository: InventoryRepository

    ghost predicate Valid()
      reads this, repository
    {
      && repository.Valid()
      && !isLoading
      && (showWarningModal <==> duplicateItem.Some?)
      && NoDuplicates(selectedItems)
    }

    /** `shown` is what a fetch with this query, category and order leaves on screen. */
    ghost predicate Shows(shown: seq<InventoryItem>, snapshot: seq<InventoryItem>, nowMillis: int, remote: Outcome)
      reads this`searchQuery, this`selectedCategory, this`sortOrder, repository`store, repository`currentUser
    {
      if repository.currentUser.None? || remote.Failed? then shown == []
      else
        && IsSnapshot(snapshot, Docs(repository.store, repository.currentUser.value), selectedCategory)
        && shown == FilterItemsByQuery(SortItems(snapshot, sortOrder, repository.parseDate, nowMillis), searchQuery)
    }

    /** The query, category, order and user name are what they were. */
    twostate predicate SettingsKept()
      reads this
    {
      && searchQuery == old(searchQuery)
      && selectedCategory == old(selectedCategory)
      && sortOrder == old(sortOrder)
      && userName == old(userName)
    }

    /**
     * The view-model's construction: the user name, then both lists fetched
     * with an empty query, category "All" and order BY_NAME.
     */
    constructor (repository: InventoryRepository, user: Option<AuthUser>, nowMillis: int,
                 inventoryRemote: Outcome, groceryRemote: Outcome)
      requires repository.Valid()
      ensures Valid() && this.repository == repository
      ensures userName == if user.Some? then user.value.displayName.GetOr(DEFAULT_USER_NAME) else DEFAULT_USER_NAME
      ensures searchQuery == "" && selectedCategory == ALL && sortOrder == ByName
      ensures !showWarningModal && selectedItems == []
      ensures exists snapshot :: Shows(inventoryItems, snapshot, nowMillis, inventoryRemote)
      ensures exists snapshot :: Shows(groceryItems, snapshot, nowMillis, groceryRemote)
    {
      this.repository := repository;
      isLoading := false;
      inventoryItems := [];
      groceryItems := [];
      userName := "";
      searchQuery := "";
      selectedCategory := ALL;
      sortOrder := ByName;
      showWarningModal := false;
      duplicateItem := None;
      selectedItems := [];
      new;
      FetchUserName(user);
      ghost var s1 := FetchInventoryItems(nowMillis, inventoryRemote);
      ghost var s2 := FetchGroceryItems(nowMillis, groceryRemote);
      assert Shows(inventoryItems, s1, nowMillis, inventoryRemote);
      assert Shows(groceryItems, s2, nowMillis, groceryRemote);
    }

    /** fetchUserName: the display name, or "User". */
    method FetchUserName(user: Option<AuthUser>)
      requires Valid()
      modifies this
      ensures Valid()
      ensures userName == if user.Some? then user.value.displayName.GetOr(DEFAULT_USER_NAME) else DEFAULT_USER_NAME
      ensures searchQuery == old(searchQuery) && selectedCategory == old(selectedCategory) && sortOrder == old(sortOrder)
      ensures inventoryItems == old(inventoryItems) && groceryItems == old(groceryItems)
      ensures showWarningModal == old(showWarningModal) && duplicateItem == old(duplicateItem)
      ensures selectedItems == old(selectedItems)
    {
      userName := if user.Some? then user.value.displayName.GetOr(DEFAULT_USER_NAME) else DEFAULT_USER_NAME;
    }

    /** fetchInventoryItems: the query result, filtered by the search text; an error empties the list. */
    method FetchInventoryItems(nowMillis: int, remote: Outcome) returns (ghost snapshot: seq<InventoryItem>)
      requires Valid()
      modifies this
      ensures Valid() && SettingsKept()
      ensures Shows(inventoryItems, snapshot, nowMillis, remote)
      ensures groceryItems == old(groceryItems) && selectedItems == old(selectedItems)
      ensures showWarningModal == old(showWarningModal) && duplicateItem == old(duplicateItem)
    {
      var r;
      r, snapshot := repository.GetInventoryItems(selectedCategory, sortOrder, nowMillis, remote);
      match r {
        case Failure(_) => inventoryItems := [];
        case Success(items) => inventoryItems := FilterItemsByQuery(items, searchQuery);
      }
    }

    /** fetchGroceryItems: the same query, into the grocery list. */
    method FetchGroceryItems(nowMillis: int, remote: Outcome) returns (ghost snapshot: seq<InventoryItem>)
      requires Valid()
      modifies this
      ensures Valid() && SettingsKept()
      ensures Shows(groceryItems, snapshot, nowMillis, remote)
      ensures inventoryItems == old(inventoryItems) && selectedItems == old(selectedItems)
      ensures showWarningModal == old(showWarningModal) && duplicateItem == old(duplicateItem)
    {
      var r;
      r, snapshot := repository.GetInventoryItems(selectedCategory, sortOrder, nowMillis, remote);
      match r {
        case Failure(_) => groceryItems := [];
        case Success(items) => groceryItems := FilterItemsByQuery(items, searchQuery);
      }
    }

    /** onSearchQueryChanged: store the query and refetch the inventory list. */
    method OnSearchQueryChanged(query: string, nowMillis: int, remote: Outcome) returns (ghost snapshot: seq<InventoryItem>)
      requires Valid()
      modifies this
      ensures Valid() && searchQuery == query
      ensures selectedCategory == old(selectedCategory) && sortOrder == old(sortOrder) && userName == old(userName)
      ensures Shows(inventoryItems, snapshot, nowMillis, remote)
      ensures groceryItems == old(groceryItems) && selectedItems == old(selectedItems)
      ensures showWarningModal == old(showWarningModal) && duplicateItem == old(duplicateItem)
    {
      searchQuery := query;
      snapshot := FetchInventoryItems(nowMillis, remote);
    }

    /** onSearchQueryChangedGrocery: store the query and refetch the grocery list. */
    method OnSearchQueryChangedGrocery(query: string, nowMillis: int, remote: Outcome) returns (ghost snapshot: seq<InventoryItem>)
      requires Valid()
      modifies this
      ensures Valid() && searchQuery == query
      ensures selectedCategory == old(selectedCategory) && sortOrder == old(sortOrder) && userName == old(userName)
      ensures Shows(groceryItems, snapshot, nowMillis, remote)
      ensures inventoryItems == old(inventoryItems) && selectedItems == old(selectedItems)
      ensures showWarningModal == old(showWarningModal) && duplicateItem == old(duplicateItem)
    {
      searchQuery := query;
      snapshot := FetchGroceryItems(nowMillis, remote);
    }

    /** onCategorySelected: store the category and refetch the inventory list. */
    method OnCategorySelected(category: string, nowMillis: int, remote: Outcome) returns (ghost snapshot: seq<InventoryItem>)
      requires Valid()
      modifies this
      ensures Valid() && selectedCategory == category
      ensures searchQuery == old(searchQuery) && sortOrder == old(sortOrder) && userName == old(userName)
      ensures Shows(inventoryItems, snapshot, nowMillis, remote)
      ensures groceryItems == old(groceryItems) && selectedItems == old(selectedItems)
      ensures showWarningModal == old(showWarningModal) && duplicateItem == old(duplicateItem)
    {
      selectedCategory := category;
      snapshot := FetchInventoryItems(nowMillis, remote);
    }

    /** onCategoryCategorySelected: store the category and refetch the grocery list. */
    method OnCategoryCategorySelected(category: string, nowMillis: int, remote: Outcome) returns (ghost snapshot: seq<InventoryItem>)
      requires Valid()
      modifies this
      ensures Valid() && selectedCategory == category
      ensures searchQuery == old(searchQuery) && sortOrder == old(sortOrder) && userName == old(userName)
      ensures Shows(groceryItems, snapshot, nowMillis, remote)
      ensures inventoryItems == old(inventoryItems) && selectedItems == old(selectedItems)
      ensures showWarningModal == old(showWarningModal) && duplicateItem == old(duplicateItem)
    {
      selectedCategory := category;
      snapshot := FetchGroceryItems(nowMillis, remote);
    }

    /** changeSortOrder: store the order and refetch the inventory list. */
    method ChangeSortOrder(order: SortOrder, nowMillis: int, remote: Outcome) returns (ghost snapshot: seq<InventoryItem>)
      requires Valid()
      modifies this
      ensures Valid() && sortOrder == order
      ensures searchQuery == old(searchQuery) && selectedCategory == old(selectedCategory) && userName == old(userName)
      ensures Shows(inventoryItems, snapshot, nowMillis, remote)
      ensures groceryItems == old(groceryItems) && selectedItems == old(selectedItems)
      ensures showWarningModal == old(showWarningModal) && duplicateItem == old(duplicateItem)
    {
      sortOrder := order;
      snapshot := FetchInventoryItems(nowMillis, remote);
    }

    /**
     * addInventoryItem(item, imageUri, onSuccess): fetch all items by name;
     * if one has the same name ignoring case, hold the item and show the
     * warning; otherwise add it. `existing` is how that fetch ends, `write`
     * how the add ends.
     */
    method AddInventoryItem(item: InventoryItem, image: Option<ImageUpload>, nowMillis: int,
                            existing: Outcome, write: Outcome)
      returns (onSuccess: bool, ghost newId: string)
      requires Valid()
      modifies this, repository
      ensures Valid() && SettingsKept() && repository.currentUser == old(repository.currentUser)
      ensures inventoryItems == old(inventoryItems) && groceryItems == old(groceryItems)
      ensures selectedItems == old(selectedItems)
      ensures repository.currentUser.None? || existing.Failed? ==>
                && !onSuccess && repository.store == old(repository.store)
                && showWarningModal == old(showWarningModal) && duplicateItem == old(duplicateItem)
      ensures repository.currentUser.Some? && existing.Ok? &&
              HasStoredName(Docs(old(repository.store), repository.currentUser.value), item.name) ==>
                && !onSuccess && repository.store == old(repository.store)
                && showWarningModal && duplicateItem == Some(item)
      ensures repository.currentUser.Some? && existing.Ok? &&
              !HasStoredName(Docs(old(repository.store), repository.currentUser.value), item.name) ==>
                var st := AddStep(old(repository.store), repository.currentUser, item, image, write, newId);
                && newId != "" && newId !in Docs(old(repository.store), repository.currentUser.value)
                && repository.store == st.store && (onSuccess <==> st.outcome.Ok?)
                && showWarningModal == old(showWarningModal) && duplicateItem == old(duplicateItem)
    {
      newId := "";
      isLoading := true;
      onSuccess := false;
      var duplicate := HasDuplicate(item.name, nowMillis, existing);
      match duplicate {
        case None =>
        case Some(true) =>
          duplicateItem := Some(item);
          showWarningModal := true;
        case Some(false) =>
          var outcome;
          outcome, newId := repository.AddInventoryItem(item, image, write);
          onSuccess := outcome.Ok?;
      }
      isLoading := false;
    }

    /**
     * The duplicate check of addInventoryItem: every stored item, ordered by
     * name, searched for the name ignoring case; None when the fetch fails.
     */
    method HasDuplicate(name: string, nowMillis: int, existing: Outcome) returns (r: Option<bool>)
      ensures r.None? <==> repository.currentUser.None? || existing.Failed?
      ensures r.Some? ==> (r.value <==> HasStoredName(Docs(repository.store, repository.currentUser.value), name))
    {
      var items, snapshot := repository.GetInventoryItems(ALL, ByName, nowMillis, existing);
      if items.Failure? {
        return None;
      }
      DuplicateIffStoredName(snapshot, Docs(repository.store, repository.currentUser.value),
                             repository.parseDate, nowMillis, name);
      r := Some(AnyNameMatches(items.value, name));
    }

    /** confirmAddDuplicateItem: add the held item without an image, then drop the warning either way. */
    method ConfirmAddDuplicateItem(write: Outcome) returns (onSuccess: bool, ghost newId: string)
      requires Valid()
      modifies this, repository
      ensures Valid() && SettingsKept() && repository.currentUser == old(repository.currentUser)
      ensures inventoryItems == old(inventoryItems) && groceryItems == old(groceryItems)
      ensures selectedItems == old(selectedItems)
      ensures old(duplicateItem).None? ==> !onSuccess && repository.store == old(repository.store) && duplicateItem.None?
      ensures old(duplicateItem).Some? ==>
                var st := AddStep(old(repository.store), repository.currentUser, old(duplicateItem).value, None, write, newId);
                && repository.store == st.store && (onSuccess <==> st.outcome.Ok?)
                && (repository.currentUser.Some? ==> newId != "" && newId !in Docs(old(repository.store), repository.currentUser.value))
                && !showWarningModal && duplicateItem.None?
    {
      newId := "";
      onSuccess := false;
      if duplicateItem.Some? {
        isLoading := true;
        var outcome;
        outcome, newId := repository.AddInventoryItem(duplicateItem.value, None, write);
        onSuccess := outcome.Ok?;
        isLoading := false;
        showWarningModal := false;
        duplicateItem := None;
      }
    }

    /** cancelAddDuplicateItem: drop the held item and the warning. */
    method CancelAddDuplicateItem()
      requires Valid()
      modifies this
      ensures Valid() && SettingsKept()
      ensures !showWarningModal && duplicateItem.None?
      ensures inventoryItems == old(inventoryItems) && groceryItems == old(groceryItems)
      ensures selectedItems == old(selectedItems)
    {
      showWarningModal := false;
      duplicateItem := None;
    }

    /** toggleItemSelected. */
    method ToggleItemSelected(item: InventoryItem)
      requires Valid()
      modifies this
      ensures Valid() && SettingsKept()
      ensures selectedItems == Toggle(old(selectedItems), item)
      ensures inventoryItems == old(inventoryItems) && groceryItems == old(groceryItems)
      ensures showWarningModal == old(showWarningModal) && duplicateItem == old(duplicateItem)
    {
      ToggleSpec(selectedItems, item);
      selectedItems := Toggle(selectedItems, item);
    }

    /** clearSelectedItems: empty the selection and the grocery list, then refetch the grocery list. */
    method ClearSelectedItems(nowMillis: int, remote: Outcome) returns (ghost snapshot: seq<InventoryItem>)
      requires Valid()
      modifies this
      ensures Valid() && SettingsKept()
      ensures selectedItems == []
      ensures Shows(groceryItems, snapshot, nowMillis, remote)
      ensures inventoryItems == old(inventoryItems)
      ensures showWarningModal == old(showWarningModal) && duplicateItem == old(duplicateItem)
    {
      selectedItems := [];
      groceryItems := [];
      snapshot := FetchGroceryItems(nowMillis, remote);
    }

    /** clearAllItems(onSuccess): on success the grocery list empties too. */
    method ClearAllItems(fetch: Outcome, commit: Outcome) returns (onSuccess: bool)
      requires Valid()
      modifies this, repository
      ensures Valid() && SettingsKept() && repository.currentUser == old(repository.currentUser)
      ensures var st := ClearAllStep(old(repository.store), repository.currentUser, fetch, commit);
              repository.store == st.store && (onSuccess <==> st.outcome.Ok?)
      ensures groceryItems == if onSuccess then [] else old(groceryItems)
      ensures inventoryItems == old(inventoryItems) && selectedItems == old(selectedItems)
      ensures showWarningModal == old(showWarningModal) && duplicateItem == old(duplicateItem)
    {
      var outcome := repository.ClearAllItems(fetch, commit);
      onSuccess := outcome.Ok?;
      if onSuccess {
        groceryItems := [];
      }
    }

    /**
     * transferSelectedItems(location, onSuccess): move each selected item in
     * order; the first failure ends the run and keeps the selection. On
     * success the selection is cleared and the grocery list refetched.
     */
    method TransferSelectedItems(location: string, remote: nat -> Outcome, nowMillis: int, refetch: Outcome)
      returns (onSuccess: bool, ghost snapshot: seq<InventoryItem>)
      requires Valid()
      modifies this, repository
      ensures Valid() && SettingsKept() && repository.currentUser == old(repository.currentUser)
      ensures var st := TransferFrom(old(repository.store), repository.currentUser, old(selectedItems), location, remote, 0);
              repository.store == st.store && (onSuccess <==> st.outcome.Ok?)
      ensures onSuccess ==> selectedItems == [] && Shows(groceryItems, snapshot, nowMillis, refetch)
      ensures !onSuccess ==> selectedItems == old(selectedItems) && groceryItems == old(groceryItems)
      ensures inventoryItems == old(inventoryItems)
      ensures showWarningModal == old(showWarningModal) && duplicateItem == old(duplicateItem)
    {
      var items := selectedItems;
      ghost var store0 := repository.store;
      var i := 0;
      while i < |items|
        invariant 0 <= i <= |items|
        invariant repository.Valid() && repository.currentUser == old(repository.currentUser)
        invariant TransferFrom(repository.store, repository.currentUser, items, location, remote, i) ==
                  TransferFrom(store0, repository.currentUser, items, location, remote, 0)
        modifies repository
      {
        var outcome := repository.UpdateItemLocation(items[i], location, remote(i));
        if outcome.Failed? {
          return false, [];
        }
        i := i + 1;
      }
      snapshot := ClearSelectedItems(nowMillis, refetch);
      onSuccess := true;
    }

    /** deleteSelectedItems: delete each selected item, then clear the selection and refetch. */
    method DeleteSelectedItems(remote: nat -> Outcome, nowMillis: int, refetch: Outcome)
      returns (ghost snapshot: seq<InventoryItem>)
      requires Valid()
      modifies this, repository
      ensures Valid() && SettingsKept() && repository.currentUser == old(repository.currentUser)
      ensures repository.store == DeleteFrom(old(repository.store), repository.currentUser, old(selectedItems), remote, 0)
      ensures selectedItems == [] && Shows(groceryItems, snapshot, nowMillis, refetch)
      ensures inventoryItems == old(inventoryItems)
      ensures showWarningModal == old(showWarningModal) && duplicateItem == old(duplicateItem)
    {
      var items := selectedItems;
      ghost var store0 := repository.store;
      var i := 0;
      while i < |items|
        invariant 0 <= i <= |items|
        invariant repository.Valid() && repository.currentUser == old(repository.currentUser)
        invariant DeleteFrom(repository.store, repository.currentUser, items, remote, i) ==
                  DeleteFrom(store0, repository.currentUser, items, remote, 0)
        modifies repository
      {
        repository.DeleteItem(items[i], remote(i));
        i := i + 1;
      }
      snapshot := ClearSelectedItems(nowMillis, refetch);
    }
  }
}
