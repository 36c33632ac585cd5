/**
 * The `FoodItem` and `Meal` records of the meals schema: which fields every
 * record carries, which are optional, the defaults a fresh record gets, and
 * the `required: true` check the document store applies when a meal is saved.
 */
module MealSchema {
  import opened Wrappers

  /** The store-assigned `_id` of a meal. */
  type MealId = nat

  /** A JavaScript `Date`, as milliseconds since the epoch. */
  type Timestamp = int

  /** A `Record<string, number>` of micronutrient amounts, keyed by nutrient name. */
  type Micros = map<string, real>

  /**
   * One food entry. `name`, `quantity` and `unit` are always present
   * (`quantity` is free text such as "2", not a number); `id` and the
   * micronutrient map may be absent.
   */
  datatype FoodItem = FoodItem(
    name: string,
    quantity: string,
    unit: string,
    id: Option<string>,
    micronutrients: Option<Micros>)

  /** One meal aggregate; `userId`, `name` and `date` are always present. */
  datatype Meal = Meal(
    id: MealId,
    userId: string,
    name: string,
    items: seq<FoodItem>,
    calories: int,
    micronutrients: Option<Micros>,
    date: Timestamp)

  /** A food item built from its required fields only: no id, an empty micronutrient map. */
  function NewFoodItem(name: string, quantity: string, unit: string): (f: FoodItem)
    ensures f.name == name && f.quantity == quantity && f.unit == unit
    ensures f.id.None?
    ensures f.micronutrients == Some(map[])
  {
    FoodItem(name, quantity, unit, None, Some(map[]))
  }

  /** A meal built from its required fields only: no items, 0 calories, an empty micronutrient map. */
  function NewMeal(id: MealId, userId: string, name: string, date: Timestamp): (m: Meal)
    ensures m.id == id && m.userId == userId && m.name == name && m.date == date
    ensures m.items == [] && m.calories == 0 && m.micronutrients == Some(map[])
  {
    Meal(id, userId, name, [], 0, Some(map[]), date)
  }

  /** The `required: true` validator on a string path rejects the empty string. */
  predicate Present(s: string) {
    |s| > 0
  }

  predicate FoodItemValid(f: FoodItem) {
    Present(f.name) && Present(f.quantity) && Present(f.unit)
  }

  predicate ItemsValid(items: seq<FoodItem>) {
    forall i :: 0 <= i < |items| ==> FoodItemValid(items[i])
  }

  /** Whether saving `m` passes schema validation. */
  predicate MealValid(m: Meal) {
    Present(m.userId) && Present(m.name) && ItemsValid(m.items)
  }

  /** Appending items to a valid meal leaves it valid exactly when every new item is valid. */
  lemma AppendValid(m: Meal, items: seq<FoodItem>)
    requires MealValid(m)
    ensures MealValid(m.(items := m.items + items)) <==> ItemsValid(items)
  {
    var all := m.items + items;
    assert forall i :: 0 <= i < |items| ==> all[|m.items| + i] == items[i];
  }
}
