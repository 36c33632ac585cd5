/**
 * The meal aggregation service: one running aggregate per user, meal name
 * and calendar day. The document store is an in-memory sequence of meals in
 * store order; each service call is one atomic step on it.
 *
 * The pure functions `AfterCreate` and `AfterRemove` give the effect of a
 * call on a `Snapshot` of the store; the methods of `MealStore` are proved
 * to have exactly that effect, and the lemmas state what it means.
 */
module MealsService {
  import opened Wrappers
  import opened Query
  import opened MealSchema
  import opened Micronutrients

  /** The placeholder calorie count charged per food item, added and removed alike. */
  const CaloriesPerItem: int := 150

  /** `24 * 60 * 60 * 1000`: the width of the window `createMeal` searches. */
  const DayMs: int := 24 * 60 * 60 * 1000

  /**
   * Server-local calendar arithmetic, left abstract: `startOfDay` is
   * `setHours(0, 0, 0, 0)` and `nextCalendarDay` is `setDate(getDate() + 1)`.
   * Nothing ties the second to `+ DayMs`.
   */
  datatype LocalCalendar = LocalCalendar(
    startOfDay: Timestamp -> Timestamp,
    nextCalendarDay: Timestamp -> Timestamp)

  /** A half-open interval of time `[lo, hi)`. */
  datatype Window = Window(lo: Timestamp, hi: Timestamp) {
    predicate Contains(t: Timestamp) {
      lo <= t < hi
    }
  }

  /** The window `createMeal` searches: midnight today plus 24 hours. */
  function CreateWindow(today: Timestamp): Window {
    Window(today, today + DayMs)
  }

  /** The window `getMealsByDate` lists: the day's start up to the next calendar day's. */
  function ListWindow(calendar: LocalCalendar, date: Timestamp): Window {
    var start := calendar.startOfDay(date);
    Window(start, calendar.nextCalendarDay(start))
  }

  datatype ServiceError =
    | MealNotFound      // `throw new Error('Meal not found')`
    | ValidationFailed  // the store refuses to save a meal missing a required field

  /** The contents of the store. */
  datatype Snapshot = Snapshot(meals: seq<Meal>, nextId: MealId)

  /** A successful call: the new contents of the store and the meal it saved. */
  datatype Saved = Saved(state: Snapshot, meal: Meal)

  /** The calorie total of a batch of items: the constant per item, whatever the item. */
  function AddedCalories(foodItems: seq<FoodItem>): int {
    CaloriesPerItem * |foodItems|
  }

  /**
   * The first half of `createMeal`: 150 calories per item, and each item's
   * micronutrient map added in key by key.
   */
  method SumBatch(foodItems: seq<FoodItem>) returns (totalCalories: int, totalMicronutrients: Micros)
    ensures totalCalories == AddedCalories(foodItems)
    ensures totalMicronutrients == Totals(foodItems)
  {
    totalCalories := 0;
    totalMicronutrients := map[];
    var i := 0;
    while i < |foodItems|
      invariant 0 <= i <= |foodItems|
      invariant totalCalories == CaloriesPerItem * i
      invariant totalMicronutrients == Totals(foodItems[..i])
    {
      totalCalories := totalCalories + CaloriesPerItem;
      var item := foodItems[i];
      assert foodItems[..i + 1][..i] == foodItems[..i];
      if item.micronutrients.Some? {
        totalMicronutrients := AccumulateEntries(totalMicronutrients, item.micronutrients.value);
      } else {
        MergedEmpty(totalMicronutrients);
      }
      i := i + 1;
    }
    assert foodItems[..i] == foodItems;
  }

  /** The query `createMeal` runs: same user, same meal name, dated in today's window. */
  function SameMealToday(userId: string, mealName: string, today: Timestamp): Meal -> bool {
    (m: Meal) => m.userId == userId && m.name == mealName && CreateWindow(today).Contains(m.date)
  }

  /** The query `getMealById` and `removeFoodFromMeal` run: this id, owned by this user. */
  function OwnedMeal(userId: string, mealId: MealId): Meal -> bool {
    (m: Meal) => m.id == mealId && m.userId == userId
  }

  /** The query `getMealsByDate` runs: owned by this user and dated in the window. */
  function OwnedIn(userId: string, w: Window): Meal -> bool {
    (m: Meal) => m.userId == userId && w.Contains(m.date)
  }

  /** The filter `removeFoodFromMeal` applies: `item.id !== foodId`, so items without an id stay. */
  function KeepsFood(foodId: string): FoodItem -> bool {
    (item: FoodItem) => item.id != Some(foodId)
  }

  /** An existing meal after `createMeal` appends `foodItems` to it. */
  function Appended(m: Meal, foodItems: seq<FoodItem>): Meal {
    m.(items := m.items + foodItems,
       calories := m.calories + AddedCalories(foodItems),
       micronutrients := Some(Merged(m.micronutrients.GetOr(map[]), Totals(foodItems))))
  }

  /** The meal `createMeal` inserts when none exists today. */
  function Inserted(id: MealId, userId: string, mealName: string, foodItems: seq<FoodItem>, today: Timestamp): Meal {
    Meal(id, userId, mealName, foodItems, AddedCalories(foodItems), Some(Totals(foodItems)), today)
  }

  /** A meal after `removeFoodFromMeal`: matching items dropped, a flat 150 calories off. */
  function WithoutFood(m: Meal, foodId: string): Meal {
    m.(items := Filter(m.items, KeepsFood(foodId)), calories := m.calories - CaloriesPerItem)
  }

  /** The effect of `createMeal(userId, mealName, foodItems)` on a day whose midnight is `today`. */
  function AfterCreate(s: Snapshot, userId: string, mealName: string, foodItems: seq<FoodItem>,
                       today: Timestamp): Result<Saved, ServiceError>
  {
    match FirstWhere(s.meals, SameMealToday(userId, mealName, today))
    case Some(i) =>
      var saved := Appended(s.meals[i], foodItems);
      if MealValid(saved) then Success(Saved(Snapshot(s.meals[i := saved], s.nextId), saved))
      else Failure(ValidationFailed)
    case None =>
      var saved := Inserted(s.nextId, userId, mealName, foodItems, today);
      if MealValid(saved) then Success(Saved(Snapshot(s.meals + [saved], s.nextId + 1), saved))
      else Failure(ValidationFailed)
  }

  /** The effect of `removeFoodFromMeal(userId, mealId, foodId)`. */
  function AfterRemove(s: Snapshot, userId: string, mealId: MealId, foodId: string): Result<Saved, ServiceError> {
    match FirstWhere(s.meals, OwnedMeal(userId, mealId))
    case None => Failure(MealNotFound)
    case Some(i) =>
      var saved := WithoutFood(s.meals[i], foodId);
      if MealValid(saved) then Success(Saved(Snapshot(s.meals[i := saved], s.nextId), saved))
      else Failure(ValidationFailed)
  }

  /** The result of `getMealsByDate`: the user's meals dated in the window, in store order. */
  function MealsIn(meals: seq<Meal>, userId: string, w: Window): (r: seq<Meal>)
    ensures forall m :: m in r <==> m in meals && m.userId == userId && w.Contains(m.date)
  {
    Filter(meals, OwnedIn(userId, w))
  }

  /** The result of `getMealById`: the meal with this id if this user owns it, otherwise none. */
  function MealById(meals: seq<Meal>, userId: string, mealId: MealId): (r: Option<Meal>)
    ensures r.Some? ==> r.value in meals && r.value.id == mealId && r.value.userId == userId
    ensures r.None? <==> forall m :: m in meals ==> !(m.id == mealId && m.userId == userId)
  {
    match FirstWhere(meals, OwnedMeal(userId, mealId))
    case Some(i) => Some(meals[i])
    case None => None
  }

  /** The (user, meal name, date) triple under which meals are aggregated. */
  function Bucket(m: Meal): (string, string, Timestamp) {
    (m.userId, m.name, m.date)
  }

  /**
   * What every reachable store satisfies: ids are distinct and below the
   * next id to hand out, every meal passes validation, calories are a whole
   * multiple of the per-item constant, and no two meals share a bucket.
   */
  ghost predicate WellFormed(s: Snapshot) {
    && (forall i :: 0 <= i < |s.meals| ==> s.meals[i].id < s.nextId)
    && (forall i :: 0 <= i < |s.meals| ==> MealValid(s.meals[i]))
    && (forall i :: 0 <= i < |s.meals| ==> s.meals[i].calories % CaloriesPerItem == 0)
    && (forall i, j :: 0 <= i < j < |s.meals| ==> s.meals[i].id != s.meals[j].id)
    && (forall i, j :: 0 <= i < j < |s.meals| ==> Bucket(s.meals[i]) != Bucket(s.meals[j]))
  }

  class MealStore {
    const calendar: LocalCalendar
    var meals: seq<Meal>
    var nextId: MealId

    ghost predicate Valid()
      reads this
    {
      WellFormed(State())
    }

    function State(): Snapshot
      reads this
    {
      Snapshot(meals, nextId)
    }

    constructor (calendar: LocalCalendar)
      ensures Valid()
      ensures this.calendar == calendar && meals == [] && nextId == 0
    {
      this.calendar := calendar;
      meals := [];
      nextId := 0;
    }

    /** `createMeal`: add `foodItems` to today's meal of that name, creating it if needed. */
    method CreateMeal(userId: string, mealName: string, foodItems: seq<FoodItem>, now: Timestamp)
      returns (r: Result<Meal, ServiceError>)
      requires Valid()
      modifies this
      ensures Valid()
      ensures match AfterCreate(old(State()), userId, mealName, foodItems, calendar.startOfDay(now))
        case Success(saved) => r == Success(saved.meal) && State() == saved.state
        case Failure(e) => r == Failure(e) && State() == old(State())
    {
      var today := calendar.startOfDay(now);

      var totalCalories, totalMicronutrients := SumBatch(foodItems);

      CreatePreservesWellFormed(State(), userId, mealName, foodItems, today);
      var found := FirstWhere(meals, SameMealToday(userId, mealName, today));
      var saved: Meal;
      if found.Some? {
        var existing := meals[found.value];
        var micronutrients := existing.micronutrients.GetOr(map[]);
        micronutrients := AccumulateEntries(micronutrients, totalMicronutrients);
        saved := existing.(items := existing.items + foodItems,
                           calories := existing.calories + totalCalories,
                           micronutrients := Some(micronutrients));
        if !MealValid(saved) {
          return Failure(ValidationFailed);
        }
        meals := meals[found.value := saved];
      } else {
        saved := Meal(nextId, userId, mealName, foodItems, totalCalories, Some(totalMicronutrients), today);
        if !MealValid(saved) {
          return Failure(ValidationFailed);
        }
        meals := meals + [saved];
        nextId := nextId + 1;
      }
      r := Success(saved);
    }

    /** `addFoodToMeal`: exactly `createMeal` with a one-item batch. */
    method AddFoodToMeal(userId: string, mealName: string, foodItem: FoodItem, now: Timestamp)
      returns (r: Result<Meal, ServiceError>)
      requires Valid()
      modifies this
      ensures Valid()
      ensures match AfterCreate(old(State()), userId, mealName, [foodItem], calendar.startOfDay(now))
        case Success(saved) => r == Success(saved.meal) && State() == saved.state
        case Failure(e) => r == Failure(e) && State() == old(State())
    {
      r := CreateMeal(userId, mealName, [foodItem], now);
    }

    /** `removeFoodFromMeal`: drop the items with this id from the user's meal and take 150 calories off. */
    method RemoveFoodFromMeal(userId: string, mealId: MealId, foodId: string)
      returns (r: Result<Meal, ServiceError>)
      requires Valid()
      modifies this
      ensures Valid()
      ensures match AfterRemove(old(State()), userId, mealId, foodId)
        case Success(saved) => r == Success(saved.meal) && State() == saved.state
        case Failure(e) => r == Failure(e) && State() == old(State())
    {
      RemovePreservesWellFormed(State(), userId, mealId, foodId);
      var found := FirstWhere(meals, OwnedMeal(userId, mealId));
      if found.None? {
        return Failure(MealNotFound);
      }
      var meal := meals[found.value];
      var saved := meal.(items := Filter(meal.items, KeepsFood(foodId)),
                         calories := meal.calories - CaloriesPerItem);
      if !MealValid(saved) {
        return Failure(ValidationFailed);
      }
      meals := meals[found.value := saved];
      r := Success(saved);
    }

    /** `getMealsByDate`: the user's meals dated from the day's start to the next calendar day's. */
    function GetMealsByDate(userId: string, date: Timestamp): (r: seq<Meal>)
      reads this
      ensures forall m :: m in r <==> m in meals && m.userId == userId && ListWindow(calendar, date).Contains(m.date)
    {
      MealsIn(meals, userId, ListWindow(calendar, date))
    }

    /** `getMealById`: the meal with this id, only if this user owns it. */
    function GetMealById(userId: string, mealId: MealId): (r: Option<Meal>)
      reads this
      ensures r.Some? ==> r.value in meals && r.value.id == mealId && r.value.userId == userId
      ensures r.None? <==> forall m :: m in meals ==> !(m.id == mealId && m.userId == userId)
    {
      MealById(meals, userId, mealId)
    }
  }

  lemma CreatePreservesWellFormed(s: Snapshot, userId: string, mealName: string,
                                  foodItems: seq<FoodItem>, today: Timestamp)
    requires WellFormed(s)
    ensures AfterCreate(s, userId, mealName, foodItems, today).Success? ==>
              WellFormed(AfterCreate(s, userId, mealName, foodItems, today).value.state)
  {
    if AfterCreate(s, userId, mealName, foodItems, today).Success? {
      match FirstWhere(s.meals, SameMealToday(userId, mealName, today))
      case Some(i) =>
        var saved := Appended(s.meals[i], foodItems);
        MultipleOfPerItem(s.meals[i].calories, |foodItems|);
        ReplacePreservesWellFormed(s, i, saved);
      case None =>
        var saved := Inserted(s.nextId, userId, mealName, foodItems, today);
        assert SameMealToday(userId, mealName, today)(saved);
        MultipleOfPerItem(0, |foodItems|);
        InsertPreservesWellFormed(s, saved);
    }
  }

  /** Writing back a valid meal that keeps its id and bucket keeps the store well formed. */
  lemma ReplacePreservesWellFormed(s: Snapshot, i: nat, saved: Meal)
    requires WellFormed(s) && i < |s.meals|
    requires saved.id == s.meals[i].id && Bucket(saved) == Bucket(s.meals[i])
    requires MealValid(saved) && saved.calories % CaloriesPerItem == 0
    ensures WellFormed(Snapshot(s.meals[i := saved], s.nextId))
  {
  }

  /** Appending a valid meal with the next id, in a bucket no stored meal occupies, keeps the store well formed. */
  lemma InsertPreservesWellFormed(s: Snapshot, saved: Meal)
    requires WellFormed(s)
    requires saved.id == s.nextId && forall m :: m in s.meals ==> Bucket(m) != Bucket(saved)
    requires MealValid(saved) && saved.calories % CaloriesPerItem == 0
    ensures WellFormed(Snapshot(s.meals + [saved], s.nextId + 1))
  {
    var t := s.meals + [saved];
    assert forall i :: 0 <= i < |s.meals| ==> t[i] == s.meals[i];
  }

  lemma MultipleOfPerItem(c: int, n: nat)
    requires c % CaloriesPerItem == 0
    ensures (c + CaloriesPerItem * n) % CaloriesPerItem == 0
    ensures (c - CaloriesPerItem) % CaloriesPerItem == 0
  {
    var q := c / CaloriesPerItem;
    assert c == CaloriesPerItem * q;
    assert c + CaloriesPerItem * n == CaloriesPerItem * (q + n);
    assert c - CaloriesPerItem == CaloriesPerItem * (q - 1);
  }

  lemma RemovePreservesWellFormed(s: Snapshot, userId: string, mealId: MealId, foodId: string)
    requires WellFormed(s)
    ensures AfterRemove(s, userId, mealId, foodId).Success? ==>
              WellFormed(AfterRemove(s, userId, mealId, foodId).value.state)
  {
    var r := AfterRemove(s, userId, mealId, foodId);
    if r.Success? {
      var i := FirstWhere(s.meals, OwnedMeal(userId, mealId)).value;
      MultipleOfPerItem(s.meals[i].calories, 0);
    }
  }

  /** `findOne` picks index `k` exactly when `k` matches and nothing before it does. */
  lemma FirstWhereAt<T>(s: seq<T>, p: T -> bool, k: nat)
    requires k < |s| && p(s[k]) && forall j :: 0 <= j < k ==> !p(s[j])
    ensures FirstWhere(s, p) == Some(k)
  {
  }

  /**
   * `createMeal` when today's meal of that name exists: it is saved in place
   * with the new items after the old ones, exactly 150 more calories per new
   * item, and the batch's micronutrient totals merged in key by key; no
   * other meal changes and no meal is added. It fails only on an invalid item.
   */
  lemma CreateOnExisting(s: Snapshot, userId: string, mealName: string, foodItems: seq<FoodItem>,
                         today: Timestamp, i: nat)
    requires WellFormed(s)
    requires FirstWhere(s.meals, SameMealToday(userId, mealName, today)) == Some(i)
    ensures var r := AfterCreate(s, userId, mealName, foodItems, today);
      && (r.Success? <==> ItemsValid(foodItems))
      && (r.Failure? ==> r.error == ValidationFailed)
      && (r.Success? ==>
            var before, saved := s.meals[i], r.value.meal;
            && r.value.state == Snapshot(s.meals[i := saved], s.nextId)
            && saved.id == before.id && Bucket(saved) == Bucket(before)
            && saved.items == before.items + foodItems
            && saved.calories == before.calories + CaloriesPerItem * |foodItems|
            && saved.micronutrients == Some(Merged(before.micronutrients.GetOr(map[]), Totals(foodItems))))
  {
    AppendValid(s.meals[i], foodItems);
  }

  /**
   * `createMeal` when no meal of that name lies in today's window: exactly
   * one meal is added at the end, with a fresh id, the given items, 150
   * calories per item, the batch's micronutrient totals and today's
   * midnight as its date; every stored meal is unchanged. It fails when the
   * user id, the meal name or an item's required field is empty.
   */
  lemma CreateOnInsert(s: Snapshot, userId: string, mealName: string, foodItems: seq<FoodItem>,
                       today: Timestamp)
    requires WellFormed(s)
    requires FirstWhere(s.meals, SameMealToday(userId, mealName, today)).None?
    ensures var r := AfterCreate(s, userId, mealName, foodItems, today);
      && (r.Success? <==> Present(userId) && Present(mealName) && ItemsValid(foodItems))
      && (r.Failure? ==> r.error == ValidationFailed)
      && (r.Success? ==>
            var saved := r.value.meal;
            && r.value.state == Snapshot(s.meals + [saved], s.nextId + 1)
            && (forall m :: m in s.meals ==> m.id != saved.id)
            && saved.userId == userId && saved.name == mealName && saved.date == today
            && saved.items == foodItems
            && saved.calories == CaloriesPerItem * |foodItems|
            && saved.micronutrients == Some(Totals(foodItems)))
  {
  }

  /** With no items and no meal yet today, `createMeal` stores the schema's default meal. */
  lemma CreateEmptyIsDefault(s: Snapshot, userId: string, mealName: string, today: Timestamp)
    requires FirstWhere(s.meals, SameMealToday(userId, mealName, today)).None?
    requires Present(userId) && Present(mealName)
    ensures AfterCreate(s, userId, mealName, [], today)
         == Success(Saved(Snapshot(s.meals + [NewMeal(s.nextId, userId, mealName, today)], s.nextId + 1),
                          NewMeal(s.nextId, userId, mealName, today)))
  {
    assert Totals([]) == map[];
  }

  /**
   * Two `createMeal` calls for the same user and meal name on the same day
   * land in one meal: the second call finds the meal the first one saved,
   * appends its items after the first call's, adds 150 calories per item,
   * and adds no meal.
   */
  lemma SameDayTwice(s: Snapshot, userId: string, mealName: string, first: seq<FoodItem>,
                     second: seq<FoodItem>, today: Timestamp)
    requires WellFormed(s)
    requires AfterCreate(s, userId, mealName, first, today).Success?
    ensures var r1 := AfterCreate(s, userId, mealName, first, today).value;
            var r2 := AfterCreate(r1.state, userId, mealName, second, today);
      && (r2.Success? <==> ItemsValid(second))
      && (r2.Success? ==>
            && r2.value.meal.id == r1.meal.id
            && r2.value.meal.items == r1.meal.items + second
            && r2.value.meal.calories == r1.meal.calories + CaloriesPerItem * |second|
            && |r2.value.state.meals| == |r1.state.meals|)
  {
    var r1 := AfterCreate(s, userId, mealName, first, today).value;
    var p := SameMealToday(userId, mealName, today);
    CreatePreservesWellFormed(s, userId, mealName, first, today);
    match FirstWhere(s.meals, p)
    case Some(i) =>
      assert r1.state.meals == s.meals[i := r1.meal];
      FirstWhereAt(r1.state.meals, p, i);
      CreateOnExisting(r1.state, userId, mealName, second, today, i);
    case None =>
      var n := |s.meals|;
      assert r1.state.meals == s.meals + [r1.meal];
      assert p(r1.meal);
      FirstWhereAt(r1.state.meals, p, n);
      CreateOnExisting(r1.state, userId, mealName, second, today, n);
  }

  /**
   * The meal `createMeal` saves is listed by `getMealsByDate` for the same
   * moment exactly when its date falls before the next calendar day's
   * start; the two windows differ on days that are not 24 hours long.
   */
  lemma CreatedMealListed(calendar: LocalCalendar, s: Snapshot, userId: string, mealName: string,
                          foodItems: seq<FoodItem>, now: Timestamp)
    requires AfterCreate(s, userId, mealName, foodItems, calendar.startOfDay(now)).Success?
    ensures var saved := AfterCreate(s, userId, mealName, foodItems, calendar.startOfDay(now)).value;
      var listed := saved.meal in MealsIn(saved.state.meals, userId, ListWindow(calendar, now));
      listed <==> saved.meal.date < calendar.nextCalendarDay(calendar.startOfDay(now))
  {
    var today := calendar.startOfDay(now);
    var saved := AfterCreate(s, userId, mealName, foodItems, today).value;
    match FirstWhere(s.meals, SameMealToday(userId, mealName, today))
    case Some(i) =>
      assert saved.state.meals[i] == saved.meal;
    case None =>
      assert saved.state.meals[|s.meals|] == saved.meal;
  }

  /** On a 24-hour day, the meal `createMeal` saves is always listed for that day. */
  lemma CreatedMealListedOnFullDay(calendar: LocalCalendar, s: Snapshot, userId: string, mealName: string,
                                   foodItems: seq<FoodItem>, now: Timestamp)
    requires AfterCreate(s, userId, mealName, foodItems, calendar.startOfDay(now)).Success?
    requires calendar.nextCalendarDay(calendar.startOfDay(now)) == calendar.startOfDay(now) + DayMs
    ensures var saved := AfterCreate(s, userId, mealName, foodItems, calendar.startOfDay(now)).value;
      saved.meal in MealsIn(saved.state.meals, userId, ListWindow(calendar, now))
  {
    CreatedMealListed(calendar, s, userId, mealName, foodItems, now);
    var today := calendar.startOfDay(now);
    match FirstWhere(s.meals, SameMealToday(userId, mealName, today))
    case Some(i) =>
    case None =>
  }

  /**
   * `removeFoodFromMeal` fails with "Meal not found" exactly when the user
   * owns no meal with that id, and on a well-formed store it fails for no
   * other reason. Otherwise it keeps, in order, exactly the items whose id
   * differs from `foodId`, takes exactly 150 calories off whatever was
   * removed, and leaves the micronutrients, name, date, id and every other
   * meal as they were.
   */
  lemma RemoveEffect(s: Snapshot, userId: string, mealId: MealId, foodId: string)
    requires WellFormed(s)
    ensures var r := AfterRemove(s, userId, mealId, foodId);
      && (r.Failure? <==> MealById(s.meals, userId, mealId).None?)
      && (r.Failure? ==> r.error == MealNotFound)
      && (r.Success? ==>
            var before, saved := MealById(s.meals, userId, mealId).value, r.value.meal;
            && (exists i :: 0 <= i < |s.meals| && s.meals[i] == before
                            && r.value.state == Snapshot(s.meals[i := saved], s.nextId))
            && saved.items == Filter(before.items, KeepsFood(foodId))
            && (forall x :: x in saved.items <==> x in before.items && x.id != Some(foodId))
            && saved.calories == before.calories - CaloriesPerItem
            && saved.micronutrients == before.micronutrients
            && saved.id == before.id && Bucket(saved) == Bucket(before))
  {
    var r := AfterRemove(s, userId, mealId, foodId);
    match FirstWhere(s.meals, OwnedMeal(userId, mealId))
    case None =>
    case Some(i) =>
      var m := s.meals[i];
      var kept := Filter(m.items, KeepsFood(foodId));
      forall j | 0 <= j < |kept|
        ensures FoodItemValid(kept[j])
      {
        assert kept[j] in m.items;
      }
      assert MealValid(WithoutFood(m, foodId));
  }

  /** Removing an id that no item carries leaves the items as they were and still takes 150 calories off. */
  lemma RemoveMissingFood(m: Meal, foodId: string)
    requires forall j :: 0 <= j < |m.items| ==> m.items[j].id != Some(foodId)
    ensures WithoutFood(m, foodId).items == m.items
    ensures WithoutFood(m, foodId).calories == m.calories - CaloriesPerItem
  {
    FilterKeepsAll(m.items, KeepsFood(foodId));
  }

  /** Removing an id that exactly one item carries removes that item and nothing else. */
  lemma RemoveSingleFood(m: Meal, foodId: string, i: nat)
    requires i < |m.items| && m.items[i].id == Some(foodId)
    requires forall j :: 0 <= j < |m.items| && j != i ==> m.items[j].id != Some(foodId)
    ensures WithoutFood(m, foodId).items == m.items[..i] + m.items[i + 1..]
    ensures |WithoutFood(m, foodId).items| == |m.items| - 1
  {
    var p := KeepsFood(foodId);
    var before, x, after := m.items[..i], m.items[i], m.items[i + 1..];
    assert m.items == before + ([x] + after);
    assert !p(x);
    assert Filter([x], p) == [] + Filter([x][1..], p) == [];
    FilterConcat([x], after, p);
    FilterKeepsAll(after, p);
    assert Filter([x] + after, p) == after;
    FilterConcat(before, [x] + after, p);
    FilterKeepsAll(before, p);
  }

  /** A meal whose calories and micronutrients are what its items add up to. */
  ghost predicate InSync(m: Meal) {
    m.calories == AddedCalories(m.items) && m.micronutrients == Some(Totals(m.items))
  }

  /** Additions keep a meal in sync: a new meal is, and appending keeps it so. */
  lemma CreateKeepsSync(m: Meal, id: MealId, userId: string, mealName: string,
                        foodItems: seq<FoodItem>, today: Timestamp)
    ensures InSync(Inserted(id, userId, mealName, foodItems, today))
    ensures InSync(m) ==> InSync(Appended(m, foodItems))
  {
    TotalsAppend(m.items, foodItems);
  }

  /**
   * Removal is not the inverse of addition: starting in sync, the calorie
   * total is still 150 per item afterwards exactly when one item was
   * removed, and the micronutrient totals are never lowered.
   */
  lemma RemoveBreaksSync(m: Meal, foodId: string)
    requires InSync(m)
    ensures var after := WithoutFood(m, foodId);
      && (after.calories == AddedCalories(after.items) <==> |after.items| == |m.items| - 1)
      && after.micronutrients == Some(Totals(m.items))
  {
  }

  /**
   * What the database holds after the existing-meal save as written. The
   * micronutrient field is untyped, so changes made inside an existing map
   * are not detected and not written; only a map assigned whole (the
   * missing-map case) is saved with its merged amounts. Items and calories
   * are assigned whole and are saved.
   */
  function PersistedAppend(m: Meal, foodItems: seq<FoodItem>): Meal {
    m.(items := m.items + foodItems,
       calories := m.calories + AddedCalories(foodItems),
       micronutrients := if m.micronutrients.Some? then m.micronutrients
                         else Some(Merged(map[], Totals(foodItems))))
  }

  /**
   * As written, a meal that already has a micronutrient map keeps its old
   * amounts in the database, while the meal returned to the caller (and the
   * corrected `Appended`) carries the merged ones: adding 5 of a nutrient to
   * a stored 10 returns 15 but stores 10.
   */
  lemma LostMicronutrientUpdate(m: Meal, foodItems: seq<FoodItem>, key: string)
    requires m.micronutrients.Some? && key in Totals(foodItems) && Totals(foodItems)[key] != 0.0
    ensures PersistedAppend(m, foodItems).micronutrients == m.micronutrients
    ensures Appended(m, foodItems).micronutrients.value[key]
         == AmountOf(m.micronutrients.value, key) + Totals(foodItems)[key]
    ensures PersistedAppend(m, foodItems) != Appended(m, foodItems)
  {
    var merged := Appended(m, foodItems).micronutrients.value;
    assert merged[key] != AmountOf(m.micronutrients.value, key);
  }

  /** The example of two one-egg breakfasts on one day: one meal, two items, 300 calories. */
  lemma TwoEggBreakfasts(userId: string, today: Timestamp)
    requires Present(userId)
    ensures var egg := FoodItem("Egg", "2", "pcs", None, None);
            var r1 := AfterCreate(Snapshot([], 0), userId, "Breakfast", [egg], today);
      && r1.Success?
      && var r2 := AfterCreate(r1.value.state, userId, "Breakfast", [egg], today);
      && r2.Success?
      && |r2.value.state.meals| == 1
      && r2.value.meal.items == [egg, egg]
      && r2.value.meal.calories == 300
  {
    var egg := FoodItem("Egg", "2", "pcs", None, None);
    var s := Snapshot([], 0);
    assert FirstWhere(s.meals, SameMealToday(userId, "Breakfast", today)).None?;
    CreateOnInsert(s, userId, "Breakfast", [egg], today);
    SameDayTwice(s, userId, "Breakfast", [egg], [egg], today);
  }
}
