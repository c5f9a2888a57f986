/**
 * The client-side ordering of fetched items: `sortItems`, a stable
 * `sortedBy` on one of five keys. Strings compare as String.compareTo does,
 * numbers numerically.
 */
module Sorting {
  import opened Common
  import opened Items

  /** The five orders the inventory screen offers. */
  datatype SortOrder = ByName | ByExpiration | ByQuantity | ByDaysRemaining | Alphabetical

  /** A sort key: a string or a number. One order never mixes the two. */
  datatype SortKey = Text(s: string) | Number(n: int)

  /** `compareTo(a, b) <= 0` on keys (text before numbers, a case no order reaches). */
  predicate KeyLe(a: SortKey, b: SortKey) {
    match a
    case Text(x) => b.Text? ==> LexLe(x, b.s)
    case Number(x) => b.Number? && x <= b.n
  }

  lemma KeyLeReflexive(a: SortKey)
    ensures KeyLe(a, a)
  {
    if a.Text? {
      LexLeReflexive(a.s);
    }
  }

  lemma KeyLeTransitive(a: SortKey, b: SortKey, c: SortKey)
    requires KeyLe(a, b) && KeyLe(b, c)
    ensures KeyLe(a, c)
  {
    if a.Text? && b.Text? && c.Text? {
      LexLeTransitive(a.s, b.s, c.s);
    }
  }

  /** KeyLe is a total order on keys. */
  lemma KeyLeTotalOrder(a: SortKey, b: SortKey, c: SortKey)
    ensures KeyLe(a, a)
    ensures KeyLe(a, b) || KeyLe(b, a)
    ensures KeyLe(a, b) && KeyLe(b, a) ==> a == b
    ensures KeyLe(a, b) && KeyLe(b, c) ==> KeyLe(a, c)
  {
    KeyLeReflexive(a);
    if a.Text? && b.Text? {
      LexLeTotal(a.s, b.s);
      if LexLe(a.s, b.s) && LexLe(b.s, a.s) {
        LexLeAntisymmetric(a.s, b.s);
      }
    }
    if KeyLe(a, b) && KeyLe(b, c) {
      KeyLeTransitive(a, b, c);
    }
  }

  /** Of two keys, when the first is not <= the second, the second is <= the first and they differ. */
  lemma KeyLeFlip(a: SortKey, b: SortKey)
    requires !KeyLe(a, b)
    ensures KeyLe(b, a) && a != b
  {
    KeyLeReflexive(a);
    if a.Text? && b.Text? {
      LexLeTotal(a.s, b.s);
    }
  }

  /** The key `sortItems` reads from an item under each order. */
  function Key(item: InventoryItem, order: SortOrder, parseDate: string -> Option<int>, nowMillis: int): (k: SortKey)
    ensures k.Text? <==> order in {ByName, ByExpiration, Alphabetical}
    ensures order in {ByName, Alphabetical} ==> k == Text(item.name)
  {
    match order
    case ByName => Text(item.name)
    case ByExpiration => Text(item.expirationDate)
    case ByQuantity => Number(item.quantity)
    case ByDaysRemaining => Number(ItemDaysRemaining(item, parseDate, nowMillis))
    case Alphabetical => Text(item.name)
  }

  predicate SortedBy(s: seq<InventoryItem>, key: InventoryItem -> SortKey) {
    forall i, j :: 0 <= i < j < |s| ==> KeyLe(key(s[i]), key(s[j]))
  }

  /** The items of `s` whose key is `k`, in their order in `s`. */
  function WithKey(s: seq<InventoryItem>, key: InventoryItem -> SortKey, k: SortKey): seq<InventoryItem> {
    if s == [] then [] else (if key(s[0]) == k then [s[0]] else []) + WithKey(s[1..], key, k)
  }

  /** Inserts `x` before the first element whose key is not smaller than its own. */
  function Insert(x: InventoryItem, s: seq<InventoryItem>, key: InventoryItem -> SortKey): seq<InventoryItem> {
    if s == [] then [x]
    else if KeyLe(key(x), key(s[0])) then [x] + s
    else [s[0]] + Insert(x, s[1..], key)
  }

  /** Insertion adds exactly `x`. */
  lemma {:induction false} InsertMultiset(x: InventoryItem, s: seq<InventoryItem>, key: InventoryItem -> SortKey)
    ensures multiset(Insert(x, s, key)) == multiset(s) + multiset{x}
  {
    if s != [] && !KeyLe(key(x), key(s[0])) {
      InsertMultiset(x, s[1..], key);
      assert s == [s[0]] + s[1..];
    }
  }

  /** Insertion keeps a sorted sequence sorted and adds exactly `x`. */
  lemma {:induction false} InsertSorted(x: InventoryItem, s: seq<InventoryItem>, key: InventoryItem -> SortKey)
    requires SortedBy(s, key)
    ensures SortedBy(Insert(x, s, key), key)
    ensures multiset(Insert(x, s, key)) == multiset(s) + multiset{x}
  {
    InsertMultiset(x, s, key);
    if s != [] {
      if KeyLe(key(x), key(s[0])) {
        SortedInFront(x, s, key);
      } else {
        InsertSorted(x, s[1..], key);
        KeyLeFlip(key(x), key(s[0]));
        SortedAfterHead(x, s, Insert(x, s[1..], key), key);
      }
    }
  }

  /** An element no greater than the head of a sorted sequence can go in front of it. */
  lemma SortedInFront(x: InventoryItem, s: seq<InventoryItem>, key: InventoryItem -> SortKey)
    requires SortedBy(s, key) && s != [] && KeyLe(key(x), key(s[0]))
    ensures SortedBy([x] + s, key)
  {
    var r := [x] + s;
    forall i, j | 0 <= i < j < |r| ensures KeyLe(key(r[i]), key(r[j])) {
      assert r[j] == s[j - 1];
      if i == 0 {
        if j > 1 {
          KeyLeTransitive(key(x), key(s[0]), key(s[j - 1]));
        }
      } else {
        assert r[i] == s[i - 1];
      }
    }
  }

  /**
   * The head of a sorted sequence can stay in front of a sorted `rest` made
   * of its tail and one more element no smaller than the head.
   */
  lemma SortedAfterHead(x: InventoryItem, s: seq<InventoryItem>, rest: seq<InventoryItem>, key: InventoryItem -> SortKey)
    requires SortedBy(s, key) && s != [] && KeyLe(key(s[0]), key(x))
    requires SortedBy(rest, key) && multiset(rest) == multiset(s[1..]) + multiset{x}
    ensures SortedBy([s[0]] + rest, key)
  {
    forall y | y in rest ensures KeyLe(key(s[0]), key(y)) {
      assert y in multiset(rest);
      if y != x {
        assert y in multiset(s[1..]);
        var j :| 0 <= j < |s[1..]| && s[1..][j] == y;
        assert s[j + 1] == y;
      }
    }
    var r := [s[0]] + rest;
    forall i, j | 0 <= i < j < |r| ensures KeyLe(key(r[i]), key(r[j])) {
      assert r[j] == rest[j - 1] && r[j] in rest;
      if i > 0 {
        assert r[i] == rest[i - 1];
      }
    }
  }

  /** `items.sortedBy(key)`: a stable insertion sort. */
  function SortBy(s: seq<InventoryItem>, key: InventoryItem -> SortKey): (r: seq<InventoryItem>)
    ensures SortedBy(r, key)
    ensures multiset(r) == multiset(s)
  {
    if s == [] then []
    else
      var sortedTail := SortBy(s[1..], key);
      InsertSorted(s[0], sortedTail, key);
      assert multiset(s) == multiset(s[1..]) + multiset{s[0]} by {
        assert s == [s[0]] + s[1..];
      }
      Insert(s[0], sortedTail, key)
  }

  /** `sortItems(items, order)`. */
  function SortItems(items: seq<InventoryItem>, order: SortOrder, parseDate: string -> Option<int>, nowMillis: int): (r: seq<InventoryItem>)
    ensures multiset(r) == multiset(items)
    ensures forall i, j :: 0 <= i < j < |r| ==>
              KeyLe(Key(r[i], order, parseDate, nowMillis), Key(r[j], order, parseDate, nowMillis))
  {
    SortBy(items, x => Key(x, order, parseDate, nowMillis))
  }

  // ---------------------------------------------------------------------------
  // Stability

  /** Inserting `x` adds it to the items with its own key, in front, and leaves the others' order alone. */
  lemma {:induction false} InsertStable(x: InventoryItem, s: seq<InventoryItem>, key: InventoryItem -> SortKey, k: SortKey)
    ensures WithKey(Insert(x, s, key), key, k) == (if key(x) == k then [x] else []) + WithKey(s, key, k)
    decreases |s|, 1
  {
    if s == [] {
      assert Insert(x, s, key) == [x];
      assert WithKey([x], key, k) == (if key(x) == k then [x] else []) + WithKey([], key, k);
    } else if KeyLe(key(x), key(s[0])) {
      assert Insert(x, s, key) == [x] + s;
      assert ([x] + s)[1..] == s;
    } else {
      InsertStableStep(x, s, key, k);
    }
  }

  lemma {:induction false} InsertStableStep(x: InventoryItem, s: seq<InventoryItem>, key: InventoryItem -> SortKey, k: SortKey)
    requires s != [] && !KeyLe(key(x), key(s[0]))
    ensures WithKey(Insert(x, s, key), key, k) == (if key(x) == k then [x] else []) + WithKey(s, key, k)
    decreases |s|, 0
  {
    var rest := Insert(x, s[1..], key);
    assert Insert(x, s, key) == [s[0]] + rest;
    var head := if key(s[0]) == k then [s[0]] else [];
    assert WithKey([s[0]] + rest, key, k) == head + WithKey(rest, key, k) by {
      assert ([s[0]] + rest)[1..] == rest;
    }
    assert WithKey(s, key, k) == head + WithKey(s[1..], key, k);
    InsertStable(x, s[1..], key, k);
    KeyLeFlip(key(x), key(s[0]));
    var own := if key(x) == k then [x] else [];
    assert head == [] || own == [];
    assert head + (own + WithKey(s[1..], key, k)) == own + (head + WithKey(s[1..], key, k));
  }

  /** Items with equal keys keep their relative order: the sort is stable. */
  lemma {:induction false} SortByStable(s: seq<InventoryItem>, key: InventoryItem -> SortKey, k: SortKey)
    ensures WithKey(SortBy(s, key), key, k) == WithKey(s, key, k)
  {
    if s != [] {
      SortByStable(s[1..], key, k);
      InsertStable(s[0], SortBy(s[1..], key), key, k);
    }
  }

  lemma SortItemsStable(items: seq<InventoryItem>, order: SortOrder, parseDate: string -> Option<int>, nowMillis: int, k: SortKey)
    ensures var key := x => Key(x, order, parseDate, nowMillis);
            WithKey(SortItems(items, order, parseDate, nowMillis), key, k) == WithKey(items, key, k)
  {
    SortByStable(items, x => Key(x, order, parseDate, nowMillis), k);
  }

  // ---------------------------------------------------------------------------
  // Facts about particular orders

  lemma {:induction false} InsertCongruent(x: InventoryItem, s: seq<InventoryItem>, k1: InventoryItem -> SortKey, k2: InventoryItem -> SortKey)
    requires forall y :: k1(y) == k2(y)
    ensures Insert(x, s, k1) == Insert(x, s, k2)
  {
    if s != [] {
      InsertCongruent(x, s[1..], k1, k2);
    }
  }

  lemma {:induction false} SortByCongruent(s: seq<InventoryItem>, k1: InventoryItem -> SortKey, k2: InventoryItem -> SortKey)
    requires forall y :: k1(y) == k2(y)
    ensures SortBy(s, k1) == SortBy(s, k2)
  {
    if s != [] {
      SortByCongruent(s[1..], k1, k2);
      InsertCongruent(s[0], SortBy(s[1..], k1), k1, k2);
    }
  }

  /** BY_NAME and ALPHABETICAL are the same order. */
  lemma ByNameIsAlphabetical(items: seq<InventoryItem>, parseDate: string -> Option<int>, nowMillis: int)
    ensures SortItems(items, ByName, parseDate, nowMillis) == SortItems(items, Alphabetical, parseDate, nowMillis)
  {
    SortByCongruent(items, x => Key(x, ByName, parseDate, nowMillis), x => Key(x, Alphabetical, parseDate, nowMillis));
  }

  /** BY_EXPIRATION compares the raw date strings, not parsed dates. */
  lemma ByExpirationComparesRawStrings(items: seq<InventoryItem>, parseDate: string -> Option<int>, nowMillis: int)
    ensures var r := SortItems(items, ByExpiration, parseDate, nowMillis);
            forall i, j :: 0 <= i < j < |r| ==> LexLe(r[i].expirationDate, r[j].expirationDate)
  {
  }

  /** DAYS_REMAINING puts the soonest-expiring items first. */
  lemma ByDaysRemainingSoonestFirst(items: seq<InventoryItem>, parseDate: string -> Option<int>, nowMillis: int)
    ensures var r := SortItems(items, ByDaysRemaining, parseDate, nowMillis);
            forall i, j :: 0 <= i < j < |r| ==>
              ItemDaysRemaining(r[i], parseDate, nowMillis) <= ItemDaysRemaining(r[j], parseDate, nowMillis)
  {
  }

  /** Eggs in ten days and milk tomorrow come out milk first. */
  lemma MilkBeforeEggs(nowMillis: int)
    ensures
      var parse := (d: string) => if d == "tomorrow" then Some(nowMillis + MILLIS_PER_DAY)
                                  else Some(nowMillis + 10 * MILLIS_PER_DAY);
      var milk := InventoryItem("m", "Milk", "Fridge", 1, "tomorrow", None);
      var eggs := InventoryItem("e", "Eggs", "Fridge", 12, "in ten days", None);
      SortItems([eggs, milk], ByDaysRemaining, parse, nowMillis) == [milk, eggs]
  {
    var parse := (d: string) => if d == "tomorrow" then Some(nowMillis + MILLIS_PER_DAY)
                                else Some(nowMillis + 10 * MILLIS_PER_DAY);
    var milk := InventoryItem("m", "Milk", "Fridge", 1, "tomorrow", None);
    var eggs := InventoryItem("e", "Eggs", "Fridge", 12, "in ten days", None);
    var key := x => Key(x, ByDaysRemaining, parse, nowMillis);
    assert key(milk) == Number(1);
    assert key(eggs) == Number(10);
    assert SortBy([milk], key) == [milk];
    assert [eggs, milk][1..] == [milk];
  }
}
