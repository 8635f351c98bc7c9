/**
 * The `inventory` collection of the document store as a table from item name
 * (the document key) to quantity, and the three writes the page makes to it.
 */
module Stock {

  /** The stored quantity of `name`, 0 when there is no document for it. */
  function Stored(table: map<string, int>, name: string): int {
    if name in table then table[name] else 0
  }

  /** Every key other than `name` is present in both tables with the same quantity, or in neither. */
  ghost predicate SameElsewhere(t: map<string, int>, u: map<string, int>, name: string) {
    forall k :: k != name ==> (k in t <==> k in u) && (k in t ==> t[k] == u[k])
  }

  /**
   * `addItem(name, quantity)`: an existing document gets its quantity plus
   * the amount, an absent one is created with the amount.
   */
  function Add(table: map<string, int>, name: string, quantity: int): (r: map<string, int>)
    ensures name in r && r[name] == Stored(table, name) + quantity
    ensures SameElsewhere(table, r, name)
  {
    if name in table then table[name := table[name] + quantity] else table[name := quantity]
  }

  /**
   * `removeItem(name)`: a document holding exactly 1 is deleted, any other
   * present document loses one unit, and an absent one is left alone.
   */
  function RemoveOne(table: map<string, int>, name: string): (r: map<string, int>)
    ensures name in table && table[name] == 1 ==> name !in r
    ensures name in table && table[name] != 1 ==> name in r && r[name] == table[name] - 1
    ensures name !in table ==> r == table
    ensures SameElsewhere(table, r, name)
  {
    if name in table then
      if table[name] == 1 then table - {name} else table[name := table[name] - 1]
    else table
  }

  /** `removeEntireItem(name)`: the document goes whatever its quantity. */
  function Delete(table: map<string, int>, name: string): (r: map<string, int>)
    ensures name !in r
    ensures SameElsewhere(table, r, name)
  {
    table - {name}
  }

  /** A write the page makes, with its argument. */
  datatype Op = AddOp(name: string, amount: int) | RemoveOneOp(name: string) | DeleteOp(name: string)

  function Apply(table: map<string, int>, op: Op): map<string, int> {
    match op
    case AddOp(name, amount) => Add(table, name, amount)
    case RemoveOneOp(name) => RemoveOne(table, name)
    case DeleteOp(name) => Delete(table, name)
  }

  /** The table after the writes in order. */
  function Run(table: map<string, int>, ops: seq<Op>): map<string, int>
    decreases |ops|
  {
    if ops == [] then table else Run(Apply(table, ops[0]), ops[1..])
  }

  /** Every stored quantity is at least 1. */
  ghost predicate AllPositive(table: map<string, int>) {
    forall k :: k in table ==> table[k] >= 1
  }

  /** Every add in the sequence adds at least one unit. */
  predicate AddsPositive(ops: seq<Op>) {
    forall i :: 0 <= i < |ops| && ops[i].AddOp? ==> ops[i].amount >= 1
  }

  /** One write keeps every quantity at least 1 when an add brings at least one unit. */
  lemma ApplyKeepsPositive(table: map<string, int>, op: Op)
    requires AllPositive(table)
    requires op.AddOp? ==> op.amount >= 1
    ensures AllPositive(Apply(table, op))
  {
  }

  /**
   * Quantities stay at least 1 under any sequence of adds, removals and
   * deletions, as long as every add brings at least one unit.
   */
  lemma {:induction false} RunKeepsPositive(table: map<string, int>, ops: seq<Op>)
    requires AllPositive(table) && AddsPositive(ops)
    ensures AllPositive(Run(table, ops))
    decreases |ops|
  {
    if ops != [] {
      ApplyKeepsPositive(table, ops[0]);
      assert AddsPositive(ops[1..]) by {
        forall i | 0 <= i < |ops[1..]| && ops[1..][i].AddOp? ensures ops[1..][i].amount >= 1 {
          assert ops[1..][i] == ops[i + 1];
        }
      }
      RunKeepsPositive(Apply(table, ops[0]), ops[1..]);
    }
  }

  /** A non-positive amount breaks the invariant: adding -2 to an empty table stores -2. */
  lemma NegativeAddBreaksPositive()
    ensures !AllPositive(Add(map[], "x", -2))
  {
    assert Add(map[], "x", -2)["x"] == -2;
  }

  function SumAmounts(amounts: seq<int>): int {
    if amounts == [] then 0 else amounts[0] + SumAmounts(amounts[1..])
  }

  /** Adds of the listed amounts, all to one name. */
  function AddsTo(name: string, amounts: seq<int>): (ops: seq<Op>)
    ensures |ops| == |amounts|
    ensures forall i :: 0 <= i < |ops| ==> ops[i] == AddOp(name, amounts[i])
  {
    if amounts == [] then [] else [AddOp(name, amounts[0])] + AddsTo(name, amounts[1..])
  }

  /**
   * Repeated adds to one name store the sum of the amounts on top of what was
   * there, and leave every other name alone.
   */
  lemma {:induction false} RepeatedAddsSum(table: map<string, int>, name: string, amounts: seq<int>)
    ensures Stored(Run(table, AddsTo(name, amounts)), name) == Stored(table, name) + SumAmounts(amounts)
    ensures amounts != [] ==> name in Run(table, AddsTo(name, amounts))
    ensures SameElsewhere(table, Run(table, AddsTo(name, amounts)), name)
    decreases |amounts|
  {
    if amounts != [] {
      var ops := AddsTo(name, amounts);
      assert ops[1..] == AddsTo(name, amounts[1..]);
      var next := Add(table, name, amounts[0]);
      RepeatedAddsSum(next, name, amounts[1..]);
      assert Run(table, ops) == Run(next, ops[1..]);
    }
  }

  /** Adding one unit undoes removing one, for any stored name. */
  lemma AddOneUndoesRemoveOne(table: map<string, int>, name: string)
    requires name in table
    ensures Add(RemoveOne(table, name), name, 1) == table
  {
    var after := Add(RemoveOne(table, name), name, 1);
    assert forall k :: k in after <==> k in table;
  }

  /** Removing one unit undoes adding one, on a table whose quantities are all at least 1. */
  lemma RemoveOneUndoesAddOne(table: map<string, int>, name: string)
    requires AllPositive(table)
    ensures RemoveOne(Add(table, name, 1), name) == table
  {
    var after := RemoveOne(Add(table, name, 1), name);
    assert forall k :: k in after <==> k in table;
  }

  /** Deleting twice is deleting once, and deleting undoes creating a new name. */
  lemma DeleteIdempotentAndUndoesCreate(table: map<string, int>, name: string, quantity: int)
    ensures Delete(Delete(table, name), name) == Delete(table, name)
    ensures name !in table ==> Delete(Add(table, name, quantity), name) == table
  {
  }

  /**
   * Start empty, add 2 apples, add 3 more, remove one, delete: the table
   * holds 5, then 4, then nothing.
   */
  lemma AppleLifecycle()
    ensures Run(map[], [AddOp("apple", 2), AddOp("apple", 3)]) == map["apple" := 5]
    ensures RemoveOne(map["apple" := 5], "apple") == map["apple" := 4]
    ensures Delete(map["apple" := 4], "apple") == map[]
  {
    assert Run(map[], [AddOp("apple", 2), AddOp("apple", 3)])
        == Run(map["apple" := 2], [AddOp("apple", 3)]);
  }
}
