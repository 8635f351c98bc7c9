/**
 * The inventory page: the state the component keeps, the `inventory`
 * collection it reads and writes, and its event handlers, each run to its
 * settled state (the write, then the refresh of the displayed list).
 */
module Page {

  import opened Wrappers
  import opened Listing
  import Stock
  import QuantityInput

  class Home {
    /** The `inventory` collection of the store: document key to quantity. */
    var collection: map<string, int>
    /** The displayed list, rebuilt by every refresh. */
    var inventory: seq<Item>
    /** Whether the add dialog is open. */
    var open: bool
    var itemName: string
    var itemQuantity: int
    var sortAlphabetically: bool
    var openSearch: bool
    var searchTerm: string
    var searchResult: Option<Item>
    var openNoResult: bool
    var highlightedItem: Option<string>

    /** The displayed list shows every stored document once, in the order of the current mode. */
    ghost predicate Shows()
      reads this
    {
      Lists(inventory, collection) && Sorted(inventory, sortAlphabetically)
    }

    /** The page's initial state, over a collection that already holds `stored`, after the mount-time refresh. */
    constructor (stored: map<string, int>)
      ensures collection == stored && Shows()
      ensures !open && itemName == "" && itemQuantity == 1 && sortAlphabetically
      ensures !openSearch && searchTerm == "" && searchResult == None
      ensures !openNoResult && highlightedItem == None
    {
      collection := stored;
      inventory := [];
      open := false;
      itemName := "";
      itemQuantity := 1;
      sortAlphabetically := true;
      openSearch := false;
      searchTerm := "";
      searchResult := None;
      openNoResult := false;
      highlightedItem := None;
      new;
      UpdateInventory();
    }

    /**
     * `updateInventory`: push one row per document, then sort by name in
     * alphabetical mode, by quantity (largest first) otherwise.
     */
    method UpdateInventory()
      modifies this`inventory
      ensures Shows()
    {
      var inventoryList: seq<Item> := [];
      var pending := collection.Keys;
      while pending != {}
        invariant pending <= collection.Keys
        invariant Lists(inventoryList, collection - pending)
        decreases pending
      {
        var id :| id in pending;
        ListsAppend(inventoryList, collection - pending, id, collection[id]);
        assert (collection - pending)[id := collection[id]] == collection - (pending - {id});
        inventoryList := inventoryList + [Item(id, collection[id])];
        pending := pending - {id};
      }
      assert collection - pending == collection;
      inventory := SortRows(inventoryList, sortAlphabetically);
    }

    /** `toggleSortMethod`: flip the mode; the list settles in the new mode's order. */
    method ToggleSortMethod()
      modifies this`sortAlphabetically, this`inventory
      ensures sortAlphabetically == !old(sortAlphabetically)
      ensures Shows()
    {
      sortAlphabetically := !sortAlphabetically;
      UpdateInventory();
    }

    /** `removeItem`: delete the document at quantity 1, decrement it otherwise, skip it when absent. */
    method RemoveItem(item: string)
      modifies this`collection, this`inventory
      ensures collection == Stock.RemoveOne(old(collection), item)
      ensures Shows()
    {
      if item in collection {
        var quantity := collection[item];
        if quantity == 1 {
          collection := collection - {item};
        } else {
          collection := collection[item := quantity - 1];
        }
      }
      UpdateInventory();
    }

    /** `removeEntireItem`: delete the document whatever its quantity. */
    method RemoveEntireItem(item: string)
      modifies this`collection, this`inventory
      ensures collection == Stock.Delete(old(collection), item)
      ensures Shows()
    {
      collection := collection - {item};
      UpdateInventory();
    }

    /** `addItem`: add the amount to an existing document, or create the document with it. */
    method AddItem(item: string, quantity: int)
      modifies this`collection, this`inventory
      ensures collection == Stock.Add(old(collection), item, quantity)
      ensures Shows()
    {
      if item in collection {
        var existingQuantity := collection[item];
        collection := collection[item := existingQuantity + quantity];
      } else {
        collection := collection[item := quantity];
      }
      UpdateInventory();
    }

    /** `handleOpen`: open the add dialog with the quantity reset to 1. */
    method HandleOpen()
      modifies this`open, this`itemQuantity
      ensures open && itemQuantity == 1
    {
      open := true;
      itemQuantity := 1;
    }

    /** `handleClose`. */
    method HandleClose()
      modifies this`open
      ensures !open
    {
      open := false;
    }

    /** `handleOpenSearch`: open the search dialog with an empty term and no result. */
    method HandleOpenSearch()
      modifies this`openSearch, this`searchTerm, this`searchResult
      ensures openSearch && searchTerm == "" && searchResult == None
    {
      openSearch := true;
      searchTerm := "";
      searchResult := None;
    }

    /** `handleCloseSearch`: close the search dialog, clearing the term and the result. */
    method HandleCloseSearch()
      modifies this`openSearch, this`searchTerm, this`searchResult
      ensures !openSearch && searchTerm == "" && searchResult == None
    {
      openSearch := false;
      searchTerm := "";
      searchResult := None;
    }

    /**
     * `handleSearch`: on a hit, record the first row whose name matches the
     * term up to case, close the search dialog and highlight that name; on a
     * miss, open the not-found notice and change nothing else.
     */
    method HandleSearch()
      modifies this`searchResult, this`openSearch, this`highlightedItem, this`openNoResult
      ensures FirstMatch(inventory, searchTerm).Some? ==>
        var found := inventory[FirstMatch(inventory, searchTerm).value];
        && searchResult == Some(found)
        && !openSearch
        && highlightedItem == Some(found.name)
        && openNoResult == old(openNoResult)
      ensures FirstMatch(inventory, searchTerm).None? ==>
        && openNoResult
        && searchResult == old(searchResult)
        && openSearch == old(openSearch)
        && highlightedItem == old(highlightedItem)
    {
      var result := FirstMatch(inventory, searchTerm);
      if result.Some? {
        var found := inventory[result.value];
        searchResult := Some(found);
        openSearch := false;
        highlightedItem := Some(found.name);
      } else {
        openNoResult := true;
      }
    }

    /** `handleNoResultClose`. */
    method HandleNoResultClose()
      modifies this`openNoResult
      ensures !openNoResult
    {
      openNoResult := false;
    }

    /** The item-name field's change handler. */
    method ChangeItemName(value: string)
      modifies this`itemName
      ensures itemName == value
    {
      itemName := value;
    }

    /** The quantity field's change handler: `parseInt(value) || 1`, never 0. */
    method ChangeItemQuantity(value: string)
      modifies this`itemQuantity
      ensures itemQuantity == QuantityInput.CoerceQuantity(value)
      ensures itemQuantity != 0
    {
      itemQuantity := QuantityInput.CoerceQuantity(value);
    }

    /** The search field's change handler. */
    method ChangeSearchTerm(value: string)
      modifies this`searchTerm
      ensures searchTerm == value
    {
      searchTerm := value;
    }

    /**
     * The add dialog's Add button: disabled while the name is empty; otherwise
     * add the entered amount under the entered name, reset both fields and
     * close the dialog.
     */
    method SubmitAdd()
      modifies this`collection, this`inventory, this`itemName, this`itemQuantity, this`open
      ensures old(itemName) == "" ==>
        && collection == old(collection) && inventory == old(inventory)
        && itemName == old(itemName) && itemQuantity == old(itemQuantity) && open == old(open)
      ensures old(itemName) != "" ==>
        && collection == Stock.Add(old(collection), old(itemName), old(itemQuantity))
        && Shows()
        && itemName == "" && itemQuantity == 1 && !open
    {
      if itemName != "" {
        AddItem(itemName, itemQuantity);
        itemName := "";
        itemQuantity := 1;
        HandleClose();
      }
    }
  }

  /**
   * Toggling the sort mode twice, with no write in between, shows the same
   * alphabetical list again, and in quantity mode the same quantity at every
   * position: two lists that show one collection in one mode agree.
   */
  lemma ShownListIsDetermined(a: seq<Item>, b: seq<Item>, collection: map<string, int>, alphabetical: bool)
    requires Lists(a, collection) && Lists(b, collection)
    requires Sorted(a, alphabetical) && Sorted(b, alphabetical)
    ensures alphabetical ==> a == b
    ensures |a| == |b| && forall n :: 0 <= n < |a| ==> a[n].quantity == b[n].quantity
  {
    ListsOneRowPerKey(a, collection);
    if alphabetical {
      AlphabeticalOrderIsUnique(a, b);
    } else {
      QuantityOrderIsUnique(a, b);
    }
  }

  /** Adding 3 of "Widget" to an empty collection shows exactly one row, "Widget" with 3. */
  lemma SingleAddShowsOneRow(shown: seq<Item>)
    requires Lists(shown, Stock.Add(map[], "Widget", 3))
    ensures shown == [Item("Widget", 3)]
  {
    var table := Stock.Add(map[], "Widget", 3);
    assert table == map["Widget" := 3];
    ListsOneRowPerKey(shown, table);
    assert |shown| == 1;
  }
}
