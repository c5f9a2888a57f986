/**
 * The inventory repository: the signed-in user's item collection in the
 * remote document store, the location query with client-side sort, and the
 * four mutations (add with an optional image, move, delete, clear all).
 *
 * The remote store is a map from user id to that user's documents (document
 * id to stored record). What each remote call returns (success or the
 * message of the exception it throws) is a parameter.
 */
module Repository {
  import opened Common
  import opened Items
  import opened Sorting

  const NOT_AUTHENTICATED := "User not authenticated"

  /** The backend's error when an update names a document that does not exist. */
  const NO_DOCUMENT := "No document to update"

  /** Category value that disables the location filter. */
  const ALL := "All"

  /** user id -> (document id -> stored record): the collections "inventory/{uid}/items". */
  type Store = map<string, map<string, InventoryItem>>

  /** The documents of one user; a user who never wrote has none. */
  function Docs(store: Store, user: string): map<string, InventoryItem> {
    if user in store then store[user] else map[]
  }

  /** No stored document has the empty id (document ids are never empty). */
  predicate WellFormed(store: Store) {
    forall u :: u in store ==> "" !in store[u]
  }

  /** The location filter of getInventoryItems. */
  predicate InCategory(item: InventoryItem, category: string) {
    category == ALL || item.location == category
  }

  /**
   * `items` is what the query returns: each document of `docs` in the
   * category exactly once, in some order, with its document id as `id`.
   */
  ghost predicate IsSnapshot(items: seq<InventoryItem>, docs: map<string, InventoryItem>, category: string) {
    && (forall i :: 0 <= i < |items| ==>
          items[i].id in docs && items[i] == docs[items[i].id].(id := items[i].id) &&
          InCategory(docs[items[i].id], category))
    && (forall i, j :: 0 <= i < j < |items| ==> items[i].id != items[j].id)
    && (forall key :: key in docs && InCategory(docs[key], category) ==>
          exists i :: 0 <= i < |items| && items[i].id == key)
  }

  /** A picked image and how its upload ends: a download URL, or an exception. */
  datatype ImageUpload = ImageUpload(uri: string, downloadUrl: Result<string>)

  /** The state of the store after a mutation, and how the call ended. */
  datatype Step = Step(store: Store, outcome: Outcome)

  // ---------------------------------------------------------------------------
  // The mutations as functions of the store

  /**
   * addInventoryItem: upload the image if there is one, then add the item
   * under the fresh document id `newId` with imageUrl set to the download
   * URL, or to null when there is no image.
   */
  function AddStep(store: Store, user: Option<string>, item: InventoryItem, image: Option<ImageUpload>,
                   write: Outcome, newId: string): (st: Step)
    ensures st.outcome.Failed? ==> st.store == store
    ensures forall u :: user.None? || u != user.value ==> Docs(st.store, u) == Docs(store, u)
    ensures st.outcome.Ok? ==> user.Some? && Docs(st.store, user.value).Keys == Docs(store, user.value).Keys + {newId}
  {
    if user.None? then Step(store, Failed(NOT_AUTHENTICATED))
    else if image.Some? && image.value.downloadUrl.Failure? then Step(store, Failed(image.value.downloadUrl.message))
    else if write.Failed? then Step(store, write)
    else
      var url := if image.Some? then Some(image.value.downloadUrl.value) else None;
      Step(store[user.value := Docs(store, user.value)[newId := item.(imageUrl := url)]], Ok)
  }

  /** updateItemLocation: set the `location` field of one document. */
  function LocationStep(store: Store, user: Option<string>, itemId: string, location: string, remote: Outcome): (st: Step)
    ensures st.outcome.Failed? ==> st.store == store
    ensures forall u :: user.None? || u != user.value ==> Docs(st.store, u) == Docs(store, u)
    ensures user.Some? ==> Docs(st.store, user.value).Keys == Docs(store, user.value).Keys
  {
    if user.None? then Step(store, Failed(NOT_AUTHENTICATED))
    else if itemId !in Docs(store, user.value) then Step(store, Failed(NO_DOCUMENT))
    else if remote.Failed? then Step(store, remote)
    else
      var docs := Docs(store, user.value);
      Step(store[user.value := docs[itemId := docs[itemId].(location := location)]], Ok)
  }

  /** deleteItem: remove one document; every failure is swallowed. */
  function DeleteStep(store: Store, user: Option<string>, itemId: string, remote: Outcome): (after: Store)
    ensures forall u :: user.None? || u != user.value ==> Docs(after, u) == Docs(store, u)
    ensures user.Some? ==> Docs(after, user.value).Keys <= Docs(store, user.value).Keys
    ensures user.Some? && remote.Ok? ==> itemId !in Docs(after, user.value)
  {
    if user.None? || remote.Failed? then store
    else store[user.value := Docs(store, user.value) - {itemId}]
  }

  /** clearAllItems: read every document, then delete them all in one batch. */
  function ClearAllStep(store: Store, user: Option<string>, fetch: Outcome, commit: Outcome): (st: Step)
    ensures st.outcome.Failed? ==> st.store == store
    ensures forall u :: user.None? || u != user.value ==> Docs(st.store, u) == Docs(store, u)
    ensures st.outcome.Ok? ==> user.Some? && Docs(st.store, user.value) == map[]
  {
    if user.None? then Step(store, Failed(NOT_AUTHENTICATED))
    else if fetch.Failed? then Step(store, fetch)
    else if commit.Failed? then Step(store, commit)
    else Step(store[user.value := map[]], Ok)
  }

  // ---------------------------------------------------------------------------
  // What the mutations promise

  /** Without a signed-in user every mutation fails with "User not authenticated" (delete silently) and changes nothing. */
  lemma Unauthenticated(store: Store, item: InventoryItem, image: Option<ImageUpload>, location: string,
                        remote: Outcome, commit: Outcome, newId: string)
    ensures AddStep(store, None, item, image, remote, newId) == Step(store, Failed(NOT_AUTHENTICATED))
    ensures LocationStep(store, None, item.id, location, remote) == Step(store, Failed(NOT_AUTHENTICATED))
    ensures DeleteStep(store, None, item.id, remote) == store
    ensures ClearAllStep(store, None, remote, commit) == Step(store, Failed(NOT_AUTHENTICATED))
  {
  }

  /**
   * An add succeeds exactly when the user is signed in, the upload (if any)
   * and the write succeed; then the user's documents gain exactly the new
   * record, whose imageUrl is the uploaded URL or null. A failed upload
   * means no write at all.
   */
  lemma AddStepSpec(store: Store, user: Option<string>, item: InventoryItem, image: Option<ImageUpload>,
                    write: Outcome, newId: string)
    requires user.Some? && newId !in Docs(store, user.value)
    ensures var st := AddStep(store, user, item, image, write, newId);
            && (st.outcome.Ok? <==> (image.None? || image.value.downloadUrl.Success?) && write.Ok?)
            && (st.outcome.Failed? ==> st.store == store)
            && (image.Some? && image.value.downloadUrl.Failure? ==> st.outcome == Failed(image.value.downloadUrl.message))
            && (st.outcome.Ok? ==>
                  && Docs(st.store, user.value).Keys == Docs(store, user.value).Keys + {newId}
                  && Docs(st.store, user.value)[newId] ==
                       item.(imageUrl := if image.Some? then Some(image.value.downloadUrl.value) else None)
                  && (forall k :: k in Docs(store, user.value) ==> Docs(st.store, user.value)[k] == Docs(store, user.value)[k])
                  && (forall u :: u != user.value ==> Docs(st.store, u) == Docs(store, u)))
  {
  }

  /** A move changes the location of that one document and nothing else; a failed move changes nothing. */
  lemma LocationStepSpec(store: Store, user: string, itemId: string, location: string, remote: Outcome)
    ensures var st := LocationStep(store, Some(user), itemId, location, remote);
            && (st.outcome.Ok? <==> itemId in Docs(store, user) && remote.Ok?)
            && (st.outcome.Failed? ==> st.store == store)
            && (st.outcome.Ok? ==>
                  && Docs(st.store, user).Keys == Docs(store, user).Keys
                  && Docs(st.store, user)[itemId] == Docs(store, user)[itemId].(location := location)
                  && (forall k :: k in Docs(store, user) && k != itemId ==> Docs(st.store, user)[k] == Docs(store, user)[k])
                  && (forall u :: u != user ==> Docs(st.store, u) == Docs(store, u)))
  {
  }

  /** A delete removes that one document, or nothing when it fails. */
  lemma DeleteStepSpec(store: Store, user: string, itemId: string, remote: Outcome)
    ensures var after := DeleteStep(store, Some(user), itemId, remote);
            && (remote.Ok? ==> Docs(after, user) == Docs(store, user) - {itemId})
            && (remote.Failed? ==> after == store)
            && (forall u :: u != user ==> Docs(after, u) == Docs(store, u))
  {
  }

  /** Clearing removes every document of the user at once or, on any failure, none. */
  lemma ClearAllStepSpec(store: Store, user: string, fetch: Outcome, commit: Outcome)
    ensures var st := ClearAllStep(store, Some(user), fetch, commit);
            && (st.outcome.Ok? <==> fetch.Ok? && commit.Ok?)
            && (st.outcome.Ok? ==> Docs(st.store, user) == map[])
            && (st.outcome.Failed? ==> st.store == store)
            && (forall u :: u != user ==> Docs(st.store, u) == Docs(store, u))
  {
  }

  /** Every mutation keeps document ids non-empty. */
  lemma StepsKeepWellFormed(store: Store, user: Option<string>, item: InventoryItem, image: Option<ImageUpload>,
                            location: string, remote: Outcome, commit: Outcome, newId: string)
    requires WellFormed(store) && newId != ""
    ensures WellFormed(AddStep(store, user, item, image, remote, newId).store)
    ensures WellFormed(LocationStep(store, user, item.id, location, remote).store)
    ensures WellFormed(DeleteStep(store, user, item.id, remote))
    ensures WellFormed(ClearAllStep(store, user, remote, commit).store)
  {
  }

  /** A string longer than every key of a finite set is not in it. */
  lemma {:induction false} LongerThanAll(keys: set<string>) returns (n: nat)
    ensures forall k :: k in keys ==> |k| < n
  {
    if keys == {} {
      n := 0;
    } else {
      var a :| a in keys;
      var m := LongerThanAll(keys - {a});
      n := if |a| + 1 > m then |a| + 1 else m;
    }
  }

  // ---------------------------------------------------------------------------
  // The repository object

  class InventoryRepository {
    /** The remote document store. */
    var store: Store
    /** The uid of the signed-in user, if any. */
    var currentUser: Option<string>
    /** The expiration-date parser: epoch milliseconds, or None where it throws. */
    const parseDate: string -> Option<int>

    ghost predicate Valid()
      reads this
    {
      WellFormed(store)
    }

    constructor (parseDate: string -> Option<int>, store: Store, currentUser: Option<string>)
      requires WellFormed(store)
      ensures Valid()
      ensures this.parseDate == parseDate && this.store == store && this.currentUser == currentUser
    {
      this.parseDate := parseDate;
      this.store := store;
      this.currentUser := currentUser;
    }

    /**
     * getInventoryItems(category, sortOrder): the signed-in user's documents
     * in the category, each with its document id, sorted by `order`.
     * `remote` is how the query ends.
     */
    method GetInventoryItems(category: string, order: SortOrder, nowMillis: int, remote: Outcome)
      returns (r: Result<seq<InventoryItem>>, ghost snapshot: seq<InventoryItem>)
      ensures currentUser.None? ==> r == Failure(NOT_AUTHENTICATED)
      ensures currentUser.Some? && remote.Failed? ==> r == Failure(remote.message)
      ensures currentUser.Some? && remote.Ok? ==>
                && r.Success?
                && IsSnapshot(snapshot, Docs(store, currentUser.value), category)
                && r.value == SortItems(snapshot, order, parseDate, nowMillis)
    {
      if currentUser.None? {
        return Failure(NOT_AUTHENTICATED), [];
      }
      if remote.Failed? {
        return Failure(remote.message), [];
      }
      var docs := Docs(store, currentUser.value);
      var pending := docs.Keys;
      var items: seq<InventoryItem> := [];
      while pending != {}
        invariant pending <= docs.Keys
        invariant forall i :: 0 <= i < |items| ==>
                    items[i].id in docs && items[i].id !in pending &&
                    items[i] == docs[items[i].id].(id := items[i].id) && InCategory(docs[items[i].id], category)
        invariant forall i, j :: 0 <= i < j < |items| ==> items[i].id != items[j].id
        invariant forall key :: key in docs && key !in pending && InCategory(docs[key], category) ==>
                    exists i :: 0 <= i < |items| && items[i].id == key
        decreases pending
      {
        var key :| key in pending;
        if InCategory(docs[key], category) {
          var prev := items;
          items := items + [docs[key].(id := key)];
          assert forall i :: 0 <= i < |prev| ==> items[i] == prev[i];
          assert items[|items| - 1].id == key;
        }
        pending := pending - {key};
      }
      snapshot := items;
      r := Success(SortItems(items, order, parseDate, nowMillis));
    }

    /** addInventoryItem(item, imageUri): the new document's id is chosen by the store. */
    method AddInventoryItem(item: InventoryItem, image: Option<ImageUpload>, write: Outcome)
      returns (r: Outcome, ghost newId: string)
      requires Valid()
      modifies this
      ensures Valid() && currentUser == old(currentUser)
      ensures currentUser.Some? ==> newId != "" && newId !in Docs(old(store), currentUser.value)
      ensures Step(store, r) == AddStep(old(store), currentUser, item, image, write, newId)
    {
      newId := "";
      if currentUser.None? {
        r := Failed(NOT_AUTHENTICATED);
        return;
      }
      var user := currentUser.value;
      var docs := Docs(store, user);
      ghost var n := LongerThanAll(docs.Keys);
      assert seq(n + 1, _ => 'x') !in docs.Keys;
      var id :| id != "" && id !in docs.Keys;
      newId := id;
      var imageUrl: Option<string> := None;
      if image.Some? {
        match image.value.downloadUrl {
          case Failure(message) =>
            r := Failed(message);
            return;
          case Success(url) =>
            imageUrl := Some(url);
        }
      }
      var itemWithImage := item.(imageUrl := imageUrl);
      if write.Failed? {
        r := write;
        return;
      }
      store := store[user := docs[id := itemWithImage]];
      r := Ok;
    }

    /** updateItemLocation(item, location): failures are rethrown. */
    method UpdateItemLocation(item: InventoryItem, location: string, remote: Outcome) returns (r: Outcome)
      requires Valid()
      modifies this
      ensures Valid() && currentUser == old(currentUser)
      ensures Step(store, r) == LocationStep(old(store), currentUser, item.id, location, remote)
    {
      if currentUser.None? {
        return Failed(NOT_AUTHENTICATED);
      }
      var user := currentUser.value;
      var docs := Docs(store, user);
      if item.id !in docs {
        return Failed(NO_DOCUMENT);
      }
      if remote.Failed? {
        return remote;
      }
      store := store[user := docs[item.id := docs[item.id].(location := location)]];
      r := Ok;
    }

    /** deleteItem(item): failures are swallowed. */
    method DeleteItem(item: InventoryItem, remote: Outcome)
      requires Valid()
      modifies this
      ensures Valid() && currentUser == old(currentUser)
      ensures store == DeleteStep(old(store), currentUser, item.id, remote)
    {
      if currentUser.None? || remote.Failed? {
        return;
      }
      var user := currentUser.value;
      store := store[user := Docs(store, user) - {item.id}];
    }

    /**
     * clearAllItems(): fetch the user's documents, put one delete per
     * document into a batch, commit the batch; failures are rethrown.
     */
    method ClearAllItems(fetch: Outcome, commit: Outcome) returns (r: Outcome)
      requires Valid()
      modifies this
      ensures Valid() && currentUser == old(currentUser)
      ensures Step(store, r) == ClearAllStep(old(store), currentUser, fetch, commit)
    {
      if currentUser.None? {
        return Failed(NOT_AUTHENTICATED);
      }
      var user := currentUser.value;
      if fetch.Failed? {
        return fetch;
      }
      var docs := Docs(store, user);
      var pending := docs.Keys;
      var batch: set<string> := {};
      while pending != {}
        invariant batch + pending == docs.Keys
        invariant batch !! pending
        decreases pending
      {
        var key :| key in pending;
        batch := batch + {key};
        pending := pending - {key};
      }
      if commit.Failed? {
        return commit;
      }
      assert docs - batch == map[];
      store := store[user := docs - batch];
      r := Ok;
    }
  }
}
