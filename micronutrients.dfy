/**
 * Micronutrient totals: the key-wise sum that `createMeal` computes over the
 * submitted food items, and the same key-wise sum it uses to merge those
 * totals into a meal that already exists.
 */
module Micronutrients {
  import opened Wrappers
  import opened MealSchema

  /** The amount stored under `key`, with an absent key read as 0. */
  function AmountOf(m: Micros, key: string): real {
    if key in m then m[key] else 0.0
  }

  /**
   * Key-wise sum: every key of either map is present; a key of `add` gets
   * its amount added to the existing one (0 when absent); a key only in `acc`
   * keeps its amount.
   */
  function Merged(acc: Micros, add: Micros): (r: Micros)
    ensures r.Keys == acc.Keys + add.Keys
    ensures forall k :: k in add ==> r[k] == AmountOf(acc, k) + add[k]
    ensures forall k :: k in acc && k !in add ==> r[k] == acc[k]
  {
    map k | k in acc.Keys + add.Keys :: AmountOf(acc, k) + AmountOf(add, k)
  }

  /** The map an item contributes; an item without one contributes nothing. */
  function Carried(item: FoodItem): Micros {
    match item.micronutrients
    case Some(m) => m
    case None => map[]
  }

  predicate Carries(item: FoodItem, key: string) {
    key in Carried(item)
  }

  /** The per-call totals, accumulated item after item as the `forEach` does. */
  function Totals(items: seq<FoodItem>): Micros
    decreases |items|
  {
    if items == [] then map[]
    else Merged(Totals(items[..|items| - 1]), Carried(items[|items| - 1]))
  }

  /** Reference definition: the amount of one nutrient, summed over the items from the front. */
  function SumOf(items: seq<FoodItem>, key: string): real
    decreases |items|
  {
    if items == [] then 0.0
    else AmountOf(Carried(items[0]), key) + SumOf(items[1..], key)
  }

  lemma AmountOfMerged(acc: Micros, add: Micros, key: string)
    ensures AmountOf(Merged(acc, add), key) == AmountOf(acc, key) + AmountOf(add, key)
  {
  }

  lemma MergedEmpty(acc: Micros)
    ensures Merged(acc, map[]) == acc
  {
    assert Merged(acc, map[]).Keys == acc.Keys;
  }

  lemma MergedAssociative(x: Micros, y: Micros, z: Micros)
    ensures Merged(Merged(x, y), z) == Merged(x, Merged(y, z))
  {
    var l, r := Merged(Merged(x, y), z), Merged(x, Merged(y, z));
    assert l.Keys == r.Keys;
    forall k | k in l
      ensures l[k] == r[k]
    {
      AmountOfMerged(x, y, k);
      AmountOfMerged(y, z, k);
    }
  }

  lemma {:induction false} SumOfAppend(a: seq<FoodItem>, b: seq<FoodItem>, key: string)
    ensures SumOf(a + b, key) == SumOf(a, key) + SumOf(b, key)
    decreases |a|
  {
    if a == [] {
      assert a + b == b;
    } else {
      assert (a + b)[1..] == a[1..] + b;
      SumOfAppend(a[1..], b, key);
    }
  }

  /**
   * The per-call totals hold exactly the keys some item carries, and each
   * key's total is that key's amount summed over all the items.
   */
  lemma {:induction false} TotalsPerKey(items: seq<FoodItem>, key: string)
    ensures key in Totals(items) <==> exists i :: 0 <= i < |items| && Carries(items[i], key)
    ensures AmountOf(Totals(items), key) == SumOf(items, key)
    decreases |items|
  {
    if items != [] {
      var n := |items| - 1;
      var front, last := items[..n], items[n];
      TotalsPerKey(front, key);
      AmountOfMerged(Totals(front), Carried(last), key);
      assert items == front + [last];
      SumOfAppend(front, [last], key);
      assert SumOf([last], key) == AmountOf(Carried(last), key);
      if key in Totals(items) {
        if Carries(last, key) {
          assert Carries(items[n], key);
        } else {
          var i :| 0 <= i < |front| && Carries(front[i], key);
          assert Carries(items[i], key);
        }
      }
      if exists i :: 0 <= i < |items| && Carries(items[i], key) {
        var i :| 0 <= i < |items| && Carries(items[i], key);
        if i < n {
          assert Carries(front[i], key);
        }
      }
    }
  }

  /** Totals over a concatenation are the key-wise sum of the totals over each part. */
  lemma {:induction false} TotalsAppend(a: seq<FoodItem>, b: seq<FoodItem>)
    ensures Totals(a + b) == Merged(Totals(a), Totals(b))
    decreases |b|
  {
    if b == [] {
      assert a + b == a;
      MergedEmpty(Totals(a));
    } else {
      var n := |b| - 1;
      assert (a + b)[..|a + b| - 1] == a + b[..n];
      assert (a + b)[|a + b| - 1] == b[n];
      TotalsAppend(a, b[..n]);
      MergedAssociative(Totals(a), Totals(b[..n]), Carried(b[n]));
    }
  }

  /** An item built from its required fields alone adds nothing to the per-call totals. */
  lemma NewFoodItemAddsNothing(items: seq<FoodItem>, name: string, quantity: string, unit: string)
    ensures Totals(items + [NewFoodItem(name, quantity, unit)]) == Totals(items)
  {
    var all := items + [NewFoodItem(name, quantity, unit)];
    assert all[..|all| - 1] == items;
    MergedEmpty(Totals(items));
  }

  /**
   * Adds each entry of `entries` into `acc`, one key at a time in whatever
   * order the keys come, resetting a missing or zero amount to 0 first.
   */
  method AccumulateEntries(acc: Micros, entries: Micros) returns (r: Micros)
    ensures r == Merged(acc, entries)
  {
    r := acc;
    var pending := entries.Keys;
    while pending != {}
      invariant pending <= entries.Keys
      invariant r == Merged(acc, entries - pending)
      decreases pending
    {
      var key :| key in pending;
      if key !in r || r[key] == 0.0 {
        r := r[key := 0.0];
      }
      r := r[key := r[key] + entries[key]];
      pending := pending - {key};
    }
    assert entries - pending == entries;
  }
}
