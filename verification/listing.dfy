/**
 * The displayed inventory list: one row per stored item, the order the two
 * sort modes put rows in, and the case-insensitive lookup the search runs
 * over the list.
 */
module Listing {

  import opened Wrappers
  import opened Names

  /** One row of the list: the document key and its stored quantity. */
  datatype Item = Item(name: string, quantity: int)

  // ---- Rows of the stored table ----

  /** The rows a table of quantities gives, one per key. */
  ghost function Rows(table: map<string, int>): set<Item> {
    set k | k in table :: Item(k, table[k])
  }

  /** `items` lists exactly the rows of `table`, each once, in some order. */
  ghost predicate Lists(items: seq<Item>, table: map<string, int>) {
    multiset(items) == multiset(Rows(table))
  }

  predicate DistinctNames(items: seq<Item>) {
    forall i, j :: 0 <= i < j < |items| ==> items[i].name != items[j].name
  }

  lemma RowsAdd(table: map<string, int>, k: string, v: int)
    requires k !in table
    ensures Rows(table[k := v]) == Rows(table) + {Item(k, v)}
    ensures Item(k, v) !in Rows(table)
  {
    var grown := table[k := v];
    forall r | r in Rows(grown) ensures r in Rows(table) + {Item(k, v)} {
      var j :| j in grown && r == Item(j, grown[j]);
    }
    forall r | r in Rows(table) + {Item(k, v)} ensures r in Rows(grown) {
      if r != Item(k, v) {
        var j :| j in table && r == Item(j, table[j]);
        assert r == Item(j, grown[j]);
      } else {
        assert r == Item(k, grown[k]);
      }
    }
  }

  /** Appending the row of a key not yet listed lists the table grown by that key. */
  lemma ListsAppend(items: seq<Item>, table: map<string, int>, k: string, v: int)
    requires Lists(items, table) && k !in table
    ensures Lists(items + [Item(k, v)], table[k := v])
  {
    RowsAdd(table, k, v);
    assert multiset(items + [Item(k, v)]) == multiset(items) + multiset{Item(k, v)};
  }

  lemma {:induction false} RowsCount(table: map<string, int>)
    ensures |Rows(table)| == |table|
    decreases |table|
  {
    if table != map[] {
      var k :| k in table;
      var rest := table - {k};
      RowsCount(rest);
      assert table == rest[k := table[k]];
      RowsAdd(rest, k, table[k]);
    }
  }

  lemma SameElementTwice(items: seq<Item>, i: nat, j: nat)
    requires i < j < |items| && items[i] == items[j]
    ensures multiset(items)[items[i]] >= 2
  {
    assert items == items[..j] + items[j..];
    assert items[i] in items[..j];
    assert items[j] in items[j..];
  }

  /**
   * A list of a table has one row per key: as many rows as keys, no name twice,
   * every row carries its key's stored quantity and every key has a row.
   */
  lemma ListsOneRowPerKey(items: seq<Item>, table: map<string, int>)
    requires Lists(items, table)
    ensures |items| == |table|
    ensures DistinctNames(items)
    ensures forall i :: 0 <= i < |items| ==> items[i].name in table && table[items[i].name] == items[i].quantity
    ensures forall k :: k in table ==> Item(k, table[k]) in items
  {
    RowsCount(table);
    assert |multiset(items)| == |items|;
    forall i | 0 <= i < |items|
      ensures items[i].name in table && table[items[i].name] == items[i].quantity
    {
      assert items[i] in multiset(items);
    }
    forall i, j | 0 <= i < j < |items|
      ensures items[i].name != items[j].name
    {
      if items[i].name == items[j].name {
        assert items[i] in multiset(items) && items[j] in multiset(items);
        SameElementTwice(items, i, j);
        assert false;
      }
    }
    forall k | k in table
      ensures Item(k, table[k]) in items
    {
      assert Item(k, table[k]) in multiset(items);
    }
  }

  // ---- Sort order ----

  /**
   * Whether the sort may leave `a` before `b`: the comparator returns a value
   * that is not positive. Alphabetical mode compares names; quantity mode
   * computes `b.quantity - a.quantity`, so larger quantities come first.
   */
  predicate Before(a: Item, b: Item, alphabetical: bool)
    ensures !alphabetical ==> (Before(a, b, alphabetical) <==> a.quantity >= b.quantity)
    ensures alphabetical && a.name == b.name ==> Before(a, b, alphabetical)
  {
    if alphabetical then NameLe(a.name, b.name) else b.quantity - a.quantity <= 0
  }

  lemma BeforeTotal(a: Item, b: Item, alphabetical: bool)
    ensures Before(a, b, alphabetical) || Before(b, a, alphabetical)
  {
    NameLeTotal(a.name, b.name);
  }

  lemma BeforeTransitive(a: Item, b: Item, c: Item, alphabetical: bool)
    requires Before(a, b, alphabetical) && Before(b, c, alphabetical)
    ensures Before(a, c, alphabetical)
  {
    if alphabetical {
      NameLeTransitive(a.name, b.name, c.name);
    }
  }

  ghost predicate Sorted(items: seq<Item>, alphabetical: bool) {
    forall i, j :: 0 <= i < j < |items| ==> Before(items[i], items[j], alphabetical)
  }

  /** A row that precedes the head of a sorted list precedes all of it. */
  lemma PrependSorted(x: Item, items: seq<Item>, alphabetical: bool)
    requires Sorted(items, alphabetical) && items != [] && Before(x, items[0], alphabetical)
    ensures Sorted([x] + items, alphabetical)
  {
    forall j | 0 < j < |items| ensures Before(x, items[j], alphabetical) {
      BeforeTransitive(x, items[0], items[j], alphabetical);
    }
  }

  /** A sorted list's first row may precede every row of its tail with one more row inserted. */
  lemma HeadPrecedesInserted(y: Item, x: Item, s: seq<Item>, r: seq<Item>, alphabetical: bool)
    requires Sorted([y] + s, alphabetical) && Before(y, x, alphabetical)
    requires multiset(r) == multiset(s) + multiset{x}
    ensures forall j :: 0 <= j < |r| ==> Before(y, r[j], alphabetical)
  {
    forall j | 0 <= j < |r| ensures Before(y, r[j], alphabetical) {
      assert r[j] in multiset(r);
      if r[j] != x {
        assert r[j] in multiset(s);
        var k :| 0 <= k < |s| && s[k] == r[j];
        var ys := [y] + s;
        assert ys[0] == y && ys[k + 1] == s[k];
        assert Before(ys[0], ys[k + 1], alphabetical);
      }
    }
  }

  /** Places `x` before the first row it may precede, keeping earlier rows first on ties. */
  function Insert(x: Item, items: seq<Item>, alphabetical: bool): (r: seq<Item>)
    requires Sorted(items, alphabetical)
    ensures Sorted(r, alphabetical)
    ensures multiset(r) == multiset(items) + multiset{x}
  {
    if items == [] then [x]
    else if Before(x, items[0], alphabetical) then
      PrependSorted(x, items, alphabetical);
      [x] + items
    else
      var rest := Insert(x, items[1..], alphabetical);
      assert items == [items[0]] + items[1..];
      assert Before(items[0], x, alphabetical) by { BeforeTotal(x, items[0], alphabetical); }
      HeadPrecedesInserted(items[0], x, items[1..], rest, alphabetical);
      [items[0]] + rest
  }

  /**
   * `Array.prototype.sort` with the comparator of the current mode, modelled
   * as a stable insertion sort: the result is ordered and a permutation.
   */
  function SortRows(items: seq<Item>, alphabetical: bool): (r: seq<Item>)
    ensures Sorted(r, alphabetical)
    ensures multiset(r) == multiset(items)
  {
    if items == [] then []
    else
      assert items == [items[0]] + items[1..];
      Insert(items[0], SortRows(items[1..], alphabetical), alphabetical)
  }

  lemma {:induction false} SortedTail(items: seq<Item>, alphabetical: bool)
    requires Sorted(items, alphabetical) && items != []
    ensures Sorted(items[1..], alphabetical)
  {
  }

  /** Two alphabetical arrangements of the same rows with distinct names start with the same row. */
  lemma AlphabeticalHeadsAgree(a: seq<Item>, b: seq<Item>)
    requires Sorted(a, true) && Sorted(b, true) && a != [] && b != []
    requires multiset(a) == multiset(b) && DistinctNames(a)
    ensures a[0] == b[0]
  {
    assert a[0] in multiset(b) && b[0] in multiset(a);
    var j :| 0 <= j < |b| && b[j] == a[0];
    var i :| 0 <= i < |a| && a[i] == b[0];
    if i != 0 && j != 0 {
      assert NameLe(a[0].name, b[0].name) && NameLe(b[0].name, a[0].name);
      NameLeAntisymmetric(a[0].name, b[0].name);
      assert false;
    }
  }

  /** Taking off a shared first row leaves multisets that still agree. */
  lemma MultisetTails(a: seq<Item>, b: seq<Item>)
    requires a != [] && b != [] && a[0] == b[0] && multiset(a) == multiset(b)
    ensures multiset(a[1..]) == multiset(b[1..])
  {
    assert a == [a[0]] + a[1..] && b == [b[0]] + b[1..];
    assert multiset(a[1..]) == multiset(a) - multiset{a[0]};
    assert multiset(b[1..]) == multiset(b) - multiset{b[0]};
  }

  /**
   * In alphabetical mode the list is determined by its rows: two sorted
   * arrangements of the same rows with distinct names are the same list.
   */
  lemma {:induction false} AlphabeticalOrderIsUnique(a: seq<Item>, b: seq<Item>)
    requires Sorted(a, true) && Sorted(b, true)
    requires multiset(a) == multiset(b) && DistinctNames(a)
    ensures a == b
    decreases |a|
  {
    assert |a| == |multiset(a)| == |multiset(b)| == |b|;
    if a != [] {
      AlphabeticalHeadsAgree(a, b);
      MultisetTails(a, b);
      SortedTail(a, true);
      SortedTail(b, true);
      AlphabeticalOrderIsUnique(a[1..], b[1..]);
      assert a == [a[0]] + a[1..] && b == [b[0]] + b[1..];
    }
  }

  /** Dropping one row from a sorted list leaves it sorted. */
  lemma SortedWithout(items: seq<Item>, i: nat, alphabetical: bool)
    requires Sorted(items, alphabetical) && i < |items|
    ensures Sorted(items[..i] + items[i + 1..], alphabetical)
  {
    var rest := items[..i] + items[i + 1..];
    forall p, q | 0 <= p < q < |rest| ensures Before(rest[p], rest[q], alphabetical) {
      var p' := if p < i then p else p + 1;
      var q' := if q < i then q else q + 1;
      assert rest[p] == items[p'] && rest[q] == items[q'];
    }
  }

  /** The heads of two sorted quantity lists, each found in the other, carry the same quantity. */
  lemma HeadsShareQuantity(a: seq<Item>, b: seq<Item>, i: nat, m: nat)
    requires Sorted(a, false) && Sorted(b, false)
    requires i < |b| && m < |a| && b[i] == a[0] && a[m] == b[0]
    ensures b[i].quantity == b[0].quantity
  {
    assert m > 0 ==> Before(a[0], a[m], false);
    assert i > 0 ==> Before(b[0], b[i], false);
  }

  /** Rows from the front of a sorted quantity list up to one with the top quantity all share it. */
  lemma SortedTopRun(b: seq<Item>, i: nat)
    requires Sorted(b, false) && i < |b| && b[i].quantity == b[0].quantity
    ensures forall k :: 0 <= k <= i ==> b[k].quantity == b[0].quantity
  {
    forall k | 0 < k <= i ensures b[k].quantity == b[0].quantity {
      assert Before(b[0], b[k], false);
      assert k < i ==> Before(b[k], b[i], false);
    }
  }

  /** Taking out the row at `i` removes one occurrence of it from the multiset. */
  lemma MultisetWithout(b: seq<Item>, i: nat)
    requires i < |b|
    ensures multiset(b[..i] + b[i + 1..]) == multiset(b) - multiset{b[i]}
  {
    assert b == b[..i] + [b[i]] + b[i + 1..];
  }

  /**
   * In quantity mode the list is determined up to ties: two sorted
   * arrangements of the same rows show the same quantity at every position.
   */
  lemma {:induction false} QuantityOrderIsUnique(a: seq<Item>, b: seq<Item>)
    requires Sorted(a, false) && Sorted(b, false)
    requires multiset(a) == multiset(b)
    ensures |a| == |b|
    ensures forall n :: 0 <= n < |a| ==> a[n].quantity == b[n].quantity
    decreases |a|
  {
    assert |a| == |multiset(a)| == |multiset(b)| == |b|;
    if a != [] {
      assert a[0] in multiset(b) && b[0] in multiset(a);
      var i :| 0 <= i < |b| && b[i] == a[0];
      var m :| 0 <= m < |a| && a[m] == b[0];
      HeadsShareQuantity(a, b, i, m);
      SortedTopRun(b, i);
      var rest := b[..i] + b[i + 1..];
      MultisetWithout(b, i);
      assert multiset(a) == multiset{a[0]} + multiset(a[1..]) by {
        assert a == [a[0]] + a[1..];
      }
      SortedTail(a, false);
      SortedWithout(b, i, false);
      QuantityOrderIsUnique(a[1..], rest);
      ShiftedQuantities(a, b, i);
    }
  }

  /**
   * The step of the induction above: when the tail of `a` agrees with `b`
   * without its row `i`, and `b` holds the top quantity up to `i`, then `a`
   * agrees with `b` at every position.
   */
  lemma ShiftedQuantities(a: seq<Item>, b: seq<Item>, i: nat)
    requires |a| == |b| && i < |b| && a != []
    requires forall k :: 0 <= k <= i ==> b[k].quantity == a[0].quantity
    requires forall n :: 0 <= n < |a| - 1 ==> a[1..][n].quantity == (b[..i] + b[i + 1..])[n].quantity
    ensures forall n :: 0 <= n < |a| ==> a[n].quantity == b[n].quantity
  {
    var rest := b[..i] + b[i + 1..];
    forall n | 0 < n < |a| ensures a[n].quantity == b[n].quantity {
      assert a[n] == a[1..][n - 1];
      if n - 1 < i {
        assert rest[n - 1] == b[n - 1];
      } else {
        assert rest[n - 1] == b[n];
      }
    }
  }

  // ---- Search ----

  /** The search predicate: the row's name and the term agree after lower-casing. */
  predicate Matches(item: Item, term: string)
    ensures Matches(item, term) <==>
      |item.name| == |term| && forall i :: 0 <= i < |term| ==> LowerChar(item.name[i]) == LowerChar(term[i])
  {
    SameIgnoringCase(item.name, term)
  }

  /** `items.find(...)`: the position of the first row the term matches, if any. */
  function FirstMatch(items: seq<Item>, term: string): (r: Option<nat>)
    ensures r.Some? ==> r.value < |items| && Matches(items[r.value], term)
    ensures r.Some? ==> forall j :: 0 <= j < r.value ==> !Matches(items[j], term)
    ensures r.None? ==> forall j :: 0 <= j < |items| ==> !Matches(items[j], term)
  {
    if items == [] then None
    else if Matches(items[0], term) then Some(0)
    else match FirstMatch(items[1..], term)
      case None => None
      case Some(i) => Some(i + 1)
  }

  /**
   * Searching a list of a table finds a row exactly when some stored key
   * equals the term up to case, and the row found carries that key's quantity.
   */
  lemma SearchAgreesWithTable(items: seq<Item>, table: map<string, int>, term: string)
    requires Lists(items, table)
    ensures FirstMatch(items, term).Some? <==> exists k :: k in table && SameIgnoringCase(k, term)
    ensures FirstMatch(items, term).Some? ==>
      var found := items[FirstMatch(items, term).value];
      found.name in table && table[found.name] == found.quantity
  {
    ListsOneRowPerKey(items, table);
    if k :| k in table && SameIgnoringCase(k, term) {
      assert Item(k, table[k]) in items;
      var j :| 0 <= j < |items| && items[j] == Item(k, table[k]);
      assert Matches(items[j], term);
    }
  }

  /** In alphabetical mode the row found is the least matching name. */
  lemma SearchFindsLeastName(items: seq<Item>, term: string)
    requires Sorted(items, true) && FirstMatch(items, term).Some?
    ensures forall j :: 0 <= j < |items| && Matches(items[j], term) ==>
      NameLe(items[FirstMatch(items, term).value].name, items[j].name)
  {
    var i := FirstMatch(items, term).value;
    NameLeReflexive(items[i].name);
  }

  /** The search ignores ASCII case: "Apple" finds the row "apple". */
  lemma SearchIgnoresCase()
    ensures FirstMatch([Item("apple", 5)], "Apple") == Some(0)
  {
    assert LowerCase("Apple") == "apple";
    assert LowerCase("apple") == "apple";
  }
}
