# Inventory page model

A Dafny model of the inventory tracker's single page component (`Home` in
`app/page.js`). The page keeps a list of items (a name and a quantity) in the
`inventory` collection of a document store. The document key is the item name
(for names that are valid document IDs; see "Left out") and the record is
`{ quantity }`. The page lets the user add an amount, remove
one unit, delete an item, sort the displayed list by name or by quantity, and
search for a name ignoring case.

The model has six modules:

- `Stock` (`stock.dfy`): the collection as a table `map<string, int>`, and
  the three writes the page makes as pure transitions `Add`, `RemoveOne` and
  `Delete`. Lemmas cover sequences of writes: the quantity invariant, repeated
  adds, and add/remove as inverses.
- `Listing` (`listing.dfy`): the `Item` row, what it means for a list to show
  a table (`Lists`: the list's multiset equals the table's set of rows), the
  two sort orders, the sort (`SortRows`) and the search (`FirstMatch`).
- `Names` (`names.dfy`): ASCII lower-casing, and the lexicographic name order
  used in alphabetical mode.
- `QuantityInput` (`quantity_input.dfy`): `parseInt(value) || 1` for the
  quantity field, with JavaScript's `parseInt` written out.
- `Page` (`page.dfy`): the class `Home`. Its fields are the component's state
  plus the collection. Its methods are the page's handlers, each taken to its
  settled state (the write, then the refresh).
- `Wrappers` (`wrappers.dfy`): `Option`, for the page's "null or a value"
  fields.

Each handler that writes the collection (`AddItem`, `RemoveItem`,
`RemoveEntireItem`, `SubmitAdd`) is proved against the matching `Stock`
function. For example, `AddItem` ensures `collection == Stock.Add(old(collection),
item, quantity)`. The dialog and field handlers state the new field values
directly. Field-level `modifies` clauses (such as ``this`inventory``) say which
fields a handler may change. Every handler that writes or re-sorts ends with
`Shows()`: the displayed list holds exactly the stored documents, each once,
in the current mode's order.

Two points about the code itself:

- The code's `parseInt(v) || 1` maps only NaN and 0 to 1, so a negative entry
  such as `-2` reaches `addItem` unchanged (`QuantityInput.CoerceKeepsNegative`,
  `Stock.NegativeAddBreaksPositive`). Every quantity stays at least 1 only
  when every add brings at least one unit (`Stock.RunKeepsPositive`).
- Names are ordered with `localeCompare`; the model uses a fixed total order
  instead (see "Left out").

## Model

| member | source | states |
|---|---|---|
| `Stock.Add` | app/page.js:79-91 | the added name is present with its old quantity (0 if absent) plus the amount; every other key and quantity is unchanged |
| `Stock.RemoveOne` | app/page.js:49-63 | a name at exactly 1 is deleted; any other present name drops by one; an absent name leaves the table as it was; other keys are unchanged |
| `Stock.Delete` | app/page.js:66-76 | the name is absent afterwards whatever its quantity; every other key and quantity is unchanged |
| `Stock.RunKeepsPositive` | app/page.js:53-88 | under any sequence of adds, removals and deletions, all quantities stay at least 1 if they were and every add brings at least 1 |
| `Stock.NegativeAddBreaksPositive` | app/page.js:83-88 | with an amount below 1 the invariant fails: adding -2 to an empty table stores -2 |
| `Stock.RepeatedAddsSum` | app/page.js:83-88 | repeated adds to one name store the old quantity plus the sum of the amounts, create the name if there was at least one add, and leave other names alone |
| `Stock.AddOneUndoesRemoveOne` | app/page.js:53-88 | for any stored name, the row's Add button undoes its Remove button |
| `Stock.RemoveOneUndoesAddOne` | app/page.js:53-88 | on a table of positive quantities, the row's Remove button undoes its Add button, including the create-then-delete case |
| `Stock.DeleteIdempotentAndUndoesCreate` | app/page.js:66-70 | deleting twice equals deleting once; deleting a freshly created name restores the table |
| `Stock.AppleLifecycle` | app/page.js:49-91 | empty, add 2 and 3 apples gives 5; removing one gives 4; deleting gives the empty table |
| `Listing.ListsAppend` | app/page.js:26-31 | pushing the row of a not-yet-listed document lists the table grown by that document |
| `Listing.ListsOneRowPerKey` | app/page.js:24-31 | a list of a table has as many rows as keys, no name twice, each row with its key's stored quantity, and a row for every key |
| `Listing.Before` | app/page.js:34-38 | the two comparators as "may precede": in quantity mode exactly when the first quantity is at least the second (`b.quantity - a.quantity` is not positive); in alphabetical mode rows with equal names may precede each other; `BeforeTotal` and `BeforeTransitive` complete it |
| `Listing.BeforeTotal` | app/page.js:34-38 | under either comparator, one of any two rows may precede the other |
| `Listing.BeforeTransitive` | app/page.js:34-38 | under either comparator, the may-precede relation is transitive |
| `Listing.Insert` | app/page.js:34-38 | inserting a row into a sorted list keeps it sorted and adds exactly that row |
| `Listing.SortRows` | app/page.js:34-38 | the sorted list is ordered by the mode's comparator (names ascending, or quantities non-increasing) and is a permutation of its input |
| `Listing.AlphabeticalOrderIsUnique` | app/page.js:34-35 | two alphabetically sorted permutations of rows with distinct names are the same list |
| `Listing.QuantityOrderIsUnique` | app/page.js:36-37 | two quantity-sorted permutations of the same rows have equal length and show the same quantity at every position |
| `Listing.Matches` | app/page.js:119 | the `find` callback holds exactly when the name and the term have equal length and agree character by character after lower-casing |
| `Listing.FirstMatch` | app/page.js:118-120 | `find`: on a hit, the index of a row whose lower-cased name equals the lower-cased term, with no match before it; on a miss, no row matches |
| `Listing.SearchAgreesWithTable` | app/page.js:117-122 | over a list of the table, search hits exactly when some stored key equals the term up to case, and the row found carries that key's stored quantity |
| `Listing.SearchFindsLeastName` | app/page.js:117-120 | in alphabetical mode, the row found has the least name among all matching rows |
| `Listing.SearchIgnoresCase` | app/page.js:119 | searching "Apple" in a list holding "apple" finds it |
| `Names.LowerChar` | app/page.js:119 | the result is never an ASCII capital; a capital is moved to its small letter, anything else is kept |
| `Names.LowerCase` | app/page.js:119 | `toLowerCase` keeps the length and lower-cases each character |
| `Names.NameLe` | app/page.js:35 | the stand-in for `localeCompare`: a prefix comes no later than its extensions, and a non-empty name precedes only names whose first character is no smaller; `NameLeReflexive`, `NameLeAntisymmetric`, `NameLeTransitive` and `NameLeTotal` make it a total order |
| `Names.NameLeReflexive` | app/page.js:35 | every name is ordered with itself |
| `Names.NameLeAntisymmetric` | app/page.js:35 | names ordered both ways are equal |
| `Names.NameLeTransitive` | app/page.js:35 | the name order is transitive |
| `Names.NameLeTotal` | app/page.js:35 | any two names are ordered one way or the other |
| `QuantityInput.TrimStart` | app/page.js:176 | `parseInt` skips exactly the leading white space: what remains is no longer than the input and does not start with white space, and all dropped characters are white space |
| `QuantityInput.TrimStartIsSuffix` | app/page.js:176 | what remains after skipping white space is a suffix of the input |
| `QuantityInput.DigitRun` | app/page.js:176 | `parseInt` reads the longest run of digits: all within the run are digits, and the next character is not |
| `QuantityInput.ParseInt` | app/page.js:176 | `parseInt`: text that is empty after white space is NaN; a negative result needs a leading minus, and a leading minus gives a result of at most 0; `ParseIntRoundTrip`, `ParseIntReadsPrefix` and `NoLeadingNumberIsNaN` state its values on written numbers, on digits followed by other text, and on text that cannot start a number |
| `QuantityInput.ParseIntReadsPrefix` | app/page.js:176 | `parseInt` reads the leading decimal digits and ignores what follows ("2.5" gives 2, "1e3" gives 1), except that "0" followed by `x` or `X` starts a hex number |
| `QuantityInput.CoerceQuantity` | app/page.js:176 | `parseInt(v)`, or 1 when that is falsy, is never 0; NaN gives 1; a parsed 0 gives 1; any non-zero parsed number is kept |
| `QuantityInput.ParseIntRoundTrip` | app/page.js:176 | `parseInt` reads back every whole number from its decimal text |
| `QuantityInput.CoerceRoundTrip` | app/page.js:176 | typing any non-zero whole number into the quantity field gives exactly that amount |
| `QuantityInput.NoLeadingNumberIsNaN` | app/page.js:176 | `parseInt` gives NaN for text whose first character is not white space, a sign or a digit |
| `QuantityInput.CoerceNotANumber` | app/page.js:176 | an empty field and non-numeric text give 1 |
| `QuantityInput.CoerceZero` | app/page.js:176 | a field holding 0 gives 1 |
| `QuantityInput.CoerceKeepsNegative` | app/page.js:176 | a negative entry is not corrected: "-2" gives -2 |
| `Page.Home.constructor` | app/page.js:8-18 | the initial state: dialogs closed, empty name and term, quantity 1, alphabetical mode, no result, no highlight; the list shows the existing collection after the mount-time refresh (lines 93-95) |
| `Page.Home.UpdateInventory` | app/page.js:21-41 | the rebuilt list shows every stored document once, with its quantity, ordered by the current mode; only the list changes |
| `Page.Home.ToggleSortMethod` | app/page.js:43-46 | the mode flips (so two toggles restore it), the collection is untouched, and the list settles in the new mode's order |
| `Page.Home.RemoveItem` | app/page.js:49-63 | the collection becomes `Stock.RemoveOne` of the old one, and the list shows it |
| `Page.Home.RemoveEntireItem` | app/page.js:66-76 | the collection becomes `Stock.Delete` of the old one, and the list shows it |
| `Page.Home.AddItem` | app/page.js:79-91 | the collection becomes `Stock.Add` of the old one, and the list shows it |
| `Page.Home.HandleOpen` | app/page.js:98-101 | the add dialog is open and the quantity is reset to 1; nothing else changes |
| `Page.Home.HandleClose` | app/page.js:103 | the add dialog is closed; nothing else changes |
| `Page.Home.HandleOpenSearch` | app/page.js:105-109 | the search dialog is open with an empty term and no result; nothing else changes |
| `Page.Home.HandleCloseSearch` | app/page.js:111-115 | the search dialog is closed with an empty term and no result; nothing else changes |
| `Page.Home.HandleSearch` | app/page.js:117-133 | on a hit: the result is the first matching row, the search dialog closes, and that row's name is highlighted. On a miss: only the not-found notice opens. The collection and the list never change |
| `Page.Home.HandleNoResultClose` | app/page.js:135 | the not-found notice closes; nothing else changes |
| `Page.Home.ChangeItemName` | app/page.js:168 | the name field holds the typed text |
| `Page.Home.ChangeItemQuantity` | app/page.js:176 | the quantity field holds `parseInt(value)`, or 1 when that is falsy, which is never 0 |
| `Page.Home.ChangeSearchTerm` | app/page.js:204 | the search field holds the typed text |
| `Page.Home.SubmitAdd` | app/page.js:179-190 | with an empty name the disabled button changes nothing. Otherwise the entered amount is added under the entered name, the list shows the new collection, and the name resets to "", the quantity to 1, and the dialog closes |
| `Page.ShownListIsDetermined` | app/page.js:33-38 | two lists showing one collection in one mode agree: identical in alphabetical mode, equal quantity at every position in quantity mode. So toggling twice with no write in between shows the same list again (up to ties in quantity mode) |
| `Page.SingleAddShowsOneRow` | app/page.js:79-91 | after adding 3 of "Widget" to an empty collection, the list is exactly one row, "Widget" with 3 |

## Left out

- The document store is an in-memory map field of `Home`. The network calls
  `getDocs`, `getDoc`, `setDoc` and `deleteDoc` are not modelled.
- Store failures are not modelled. This covers the try/catch and `console`
  logging in `removeEntireItem` (app/page.js:69-75), and the uncaught
  rejections of the other handlers. Every write is modelled as succeeding.
- The order in which `getDocs` lists documents is not modelled. The refresh
  loop takes the keys in an unspecified order. In quantity mode this leaves
  the order among rows with equal quantities open.
- `Page.ShownListIsDetermined`: in quantity mode it states only equal
  quantities at every position, not equal rows, because the listing order of
  the store is not modelled.
- `Array.prototype.sort` is modelled as a stable insertion sort
  (`Listing.SortRows`) that returns a new sequence. The source sorts a local
  array in place and then stores it, so the update in place is not visible.
- `localeCompare` is replaced by lexicographic order on character codes
  (`Names.NameLe`). The locale's collation, and its treatment of case and
  accents, is not modelled.
- `toLowerCase` is modelled for ASCII letters only.
- Dafny characters are Unicode scalar values, whereas JavaScript strings are
  UTF-16 code units. The two differ for characters outside the Basic
  Multilingual Plane.
- JavaScript numbers are modelled as unbounded integers. Not modelled:
  floating point, loss of precision above 2^53, `parseInt` results too large
  to represent, and stored quantities that are not whole numbers.
- `parseInt` skips the ASCII white space characters, no-break space, the byte
  order mark and the two Unicode line separators. Other Unicode space
  separators are not modelled.
- Names that are not valid document IDs are not modelled: names containing
  `/`, and the names `.` and `..`. `doc(firestore, "inventory", item)`
  (app/page.js:50, 67, 80) reads a `/` as a path separator. A name such as
  "a/b" makes `doc` throw inside `addItem`, and nothing is written, but the
  Add button's handler (app/page.js:182-185) still resets the name and closes
  the dialog. A name such as "a/b/c" writes to a sub-collection that the
  refresh at app/page.js:23 never lists. The model stores and shows every
  name as its own key.
- The 3-second `setTimeout` that clears the highlight (app/page.js:127-129)
  is not modelled.
- Concurrency is not modelled: overlapping clicks racing on one document,
  refreshes arriving out of order, and the Add button's `addItem` call not
  being awaited (app/page.js:182). Each handler runs to completion before the
  next one starts.
- `toggleSortMethod`'s immediate refresh uses the old mode, through a stale
  closure (app/page.js:45). The `useEffect` at app/page.js:93-95 then
  refreshes in the new mode. The model keeps only that final, settled state.
- The row buttons (app/page.js:251-253) are the calls `AddItem(name, 1)`,
  `RemoveItem(name)` and `RemoveEntireItem(name)`. They have no members of
  their own.
- Rendering, styles, `useRef` and the display-only capitalisation of names
  (app/page.js:137-260) are not modelled.
