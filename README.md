# Meal aggregation and navigation redirect — a Dafny model

This project models two pieces of a nutrition-tracking app.

**The meal aggregation service** (`MealsService`) keeps one running meal per
user, meal name and calendar day.
- `createMeal` charges a flat 150 calories per food item and sums each item's
  micronutrient map key by key.
- It then looks in the store for a meal of that user and name dated in today's
  window `[midnight, midnight + 24h)`.
- If it finds one, it appends the items and adds the calories and
  micronutrients. Otherwise it inserts a new meal dated at midnight.
- `addFoodToMeal` is `createMeal` with one item.
- `removeFoodFromMeal` drops the items with a given id and takes a flat 150
  calories off, whether or not anything matched. It never touches micronutrients.
- `getMealsByDate` and `getMealById` are filtered look-ups.

The document store is a class, `MealStore`, holding a sequence of meals in
store order and the next id to hand out. `findOne` is "the first match in store
order" (`Query.FirstWhere`); `find` and `Array.prototype.filter` are
`Query.Filter`. Each call's effect is also given as a pure function on a
`Snapshot` (`AfterCreate`, `AfterRemove`). The methods are proved to have
exactly that effect, and the lemmas state what the effect means.

Server-local time is a `LocalCalendar`, which holds two functions:
- `startOfDay` is `setHours(0, 0, 0, 0)`;
- `nextCalendarDay` is `setDate(getDate() + 1)`.

The current time is a parameter of `CreateMeal`. The create path's window ends
at `+ 24 * 60 * 60 * 1000` ms. The list path's window ends at the next calendar
day. These are two distinct functions, and the model does not assume they agree.

Saving a meal runs the schema's `required: true` checks: an empty `userId`,
`name`, or item `name`/`quantity`/`unit` makes the save fail and leaves the
store unchanged (`ServiceError.ValidationFailed`). The records themselves
(`MealSchema.FoodItem`, `MealSchema.Meal`) follow the schema: required fields
are plain, `id` and the micronutrient maps are `Option`, `quantity` is a string.

**The navigation redirect rule** (`RootLayout.Redirect`) is the effect in the
mobile root layout. It is a total function from the loading, signed-in and
welcome-seen flags and the route segments to the route to replace the current
one with, if any.

Two points about what the code does and does not guarantee:
- The code does not check that micronutrient amounts are non-negative, so neither does the model.
- What the code guarantees, and `WellFormed` states, is at most one meal per
  (user, name, date). The date of every meal the code inserts is a start of day.

## Model

| member | source | states |
|---|---|---|
| MealSchema.NewFoodItem | backend/api-server/src/meals/schemas/meal.schema.ts:7-22 | a food item carries name, quantity and unit as given; its id is absent and its micronutrient map defaults to empty |
| MealSchema.NewMeal | backend/api-server/src/meals/schemas/meal.schema.ts:25-43 | a fresh meal has its required user, name and date, no items, 0 calories and an empty micronutrient map |
| MealSchema.AppendValid | backend/api-server/src/meals/schemas/meal.schema.ts:8-15 | a valid meal with items appended passes validation exactly when every new item has non-empty name, quantity and unit |
| Micronutrients.Merged | backend/api-server/src/meals/meals.service.ts:48-57 | merging keeps every key of both maps; a new key's amount is added to the existing one (0 when absent); keys only in the existing map keep their amount |
| Micronutrients.AccumulateEntries | backend/api-server/src/meals/meals.service.ts:23-28 | the key-by-key loop, in any key order, yields the key-wise merge of the entries into the accumulator |
| Micronutrients.TotalsPerKey | backend/api-server/src/meals/meals.service.ts:16-30 | the batch totals hold exactly the keys some item carries, and each key's total is the sum of that key's amounts over the items; items without a map add nothing |
| Micronutrients.TotalsAppend | backend/api-server/src/meals/meals.service.ts:44-57 | the totals of old items followed by new items are the key-wise merge of the two totals |
| MealsService.SumBatch | backend/api-server/src/meals/meals.service.ts:15-30 | the per-call loop yields 150 calories per item whatever its content, and the batch micronutrient totals |
| MealsService.MealStore.constructor | backend/api-server/src/meals/meals.service.ts:8 | an empty store with the given calendar satisfies the store invariant |
| MealsService.MealStore.CreateMeal | backend/api-server/src/meals/meals.service.ts:10-73 | the result and the new store are exactly those of AfterCreate for today's midnight; a failure leaves the store unchanged; the store invariant is kept |
| MealsService.MealStore.AddFoodToMeal | backend/api-server/src/meals/meals.service.ts:98-100 | has exactly the effect of CreateMeal with the one-item batch |
| MealsService.MealStore.RemoveFoodFromMeal | backend/api-server/src/meals/meals.service.ts:102-115 | the result and the new store are exactly those of AfterRemove; a failure leaves the store unchanged; the store invariant is kept |
| MealsService.MealStore.GetMealsByDate | backend/api-server/src/meals/meals.service.ts:75-89 | returns exactly the stored meals of that user dated from the day's start up to the next calendar day's start, and reads the store without changing it |
| MealsService.MealStore.GetMealById | backend/api-server/src/meals/meals.service.ts:91-96 | returns a stored meal only when both its id and its owner match; returns none exactly when no stored meal matches both, so another user's meal is never returned |
| MealsService.MealsIn | backend/api-server/src/meals/meals.service.ts:82-88 | the listing holds exactly the meals of that user dated in the window |
| MealsService.MealById | backend/api-server/src/meals/meals.service.ts:92-95 | the look-up yields a meal with that id and owner, and nothing exactly when none exists |
| MealsService.CreatePreservesWellFormed | backend/api-server/src/meals/meals.service.ts:33-72 | createMeal keeps ids distinct, every meal valid, calories a multiple of 150, and at most one meal per user, name and date |
| MealsService.RemovePreservesWellFormed | backend/api-server/src/meals/meals.service.ts:102-114 | removeFoodFromMeal keeps the same store invariant |
| MealsService.CreateOnExisting | backend/api-server/src/meals/meals.service.ts:42-60 | with today's meal present, it is saved in place with the old items followed by the new ones, calories up by exactly 150 per new item, micronutrients the key-wise merge (`Micronutrients.Merged`) of the batch totals into the existing map, a missing map read as empty; no meal added and no other meal changed; it fails only on an invalid item |
| MealsService.CreateOnInsert | backend/api-server/src/meals/meals.service.ts:62-72 | with no meal of that name in today's window, exactly one meal is appended: a fresh id, the given items, 150 calories per item, the batch totals and today's midnight; stored meals are unchanged; it fails exactly on a missing required field |
| MealsService.CreateEmptyIsDefault | backend/api-server/src/meals/meals.service.ts:63-70 | an empty batch with no meal yet today stores the schema's default meal |
| MealsService.SameDayTwice | backend/api-server/src/meals/meals.service.ts:33-45 | a second same-day call for the same user and name finds the meal the first call saved, appends after its items, adds 150 per item and adds no meal |
| Micronutrients.NewFoodItemAddsNothing | backend/api-server/src/meals/meals.service.ts:22-29 | an item built from its required fields alone, with the schema's empty map, leaves the per-call totals unchanged |
| MealsService.LostMicronutrientUpdate | backend/api-server/src/meals/meals.service.ts:48-59 | as written, a meal that already has a micronutrient map keeps its old amounts in the database, while the meal returned carries the merged amounts |
| MealsService.TwoEggBreakfasts | backend/api-server/src/meals/meals.service.ts:33-72 | two one-egg breakfasts on one day give one meal with two items and 300 calories |
| MealsService.CreatedMealListed | backend/api-server/src/meals/meals.service.ts:76-87 | the meal createMeal saves is listed by getMealsByDate for the same moment exactly when its date falls before the next calendar day's start |
| MealsService.CreatedMealListedOnFullDay | backend/api-server/src/meals/meals.service.ts:36-39 | when the next calendar day starts 24 hours after midnight, the saved meal is always listed for that day |
| MealsService.RemoveEffect | backend/api-server/src/meals/meals.service.ts:102-114 | fails with Meal not found exactly when the user owns no meal with that id; otherwise keeps, in order, exactly the items whose id differs (items with no id stay), takes exactly 150 calories off, and leaves micronutrients, id, user, name, date and every other meal unchanged |
| MealsService.RemoveMissingFood | backend/api-server/src/meals/meals.service.ts:112-113 | removing an id no item carries leaves the items unchanged and still takes 150 calories off |
| MealsService.RemoveSingleFood | backend/api-server/src/meals/meals.service.ts:112 | removing an id exactly one item carries removes that item only, keeping the others in order |
| MealsService.CreateKeepsSync | backend/api-server/src/meals/meals.service.ts:44-69 | a new meal's calories and micronutrients are what its items add up to, and appending keeps them so |
| MealsService.RemoveBreaksSync | backend/api-server/src/meals/meals.service.ts:112-113 | after a removal the calories still equal 150 per item exactly when one item was removed, and the micronutrient totals are never lowered |
| Query.FirstWhere | backend/api-server/src/meals/meals.service.ts:33-40 | findOne yields the first matching meal in store order, and nothing exactly when no meal matches |
| Query.Filter | backend/api-server/src/meals/meals.service.ts:112 | the filter keeps exactly the elements that pass, never more than there were |
| Query.FilterCount | backend/api-server/src/meals/meals.service.ts:82-88 | each passing element keeps its multiplicity, each failing one is gone |
| Query.FilterConcat | backend/api-server/src/meals/meals.service.ts:112 | filtering distributes over concatenation, so the kept elements stay in order |
| Query.FilterKeepsAll | backend/api-server/src/meals/meals.service.ts:112 | when every element passes, filtering changes nothing |
| RootLayout.Redirect | mobile/app/_layout.tsx:20-46 | no redirect while loading; the target is `/(tabs)` for a signed-in user and under `/(auth)/` for a signed-out one; signed out before welcome: to welcome unless on the welcome or onboarding screen, whatever the group; signed out after welcome: to login unless on login or signup inside the auth group; signed in: to the tabs exactly when inside the auth group; a signed-in user is never sent to an auth route and a signed-out user never to the tabs |
| RootLayout.RedirectSettles | mobile/app/_layout.tsx:20-46 | once the router lands on the route it was sent to, with the same flags, no further redirect happens |
| RootLayout.WelcomeIgnoresGroup | mobile/app/_layout.tsx:25-30 | before the welcome screen is seen, only the second route segment affects the decision |

## Left out

- Saving is modelled as writing the whole meal back, which is what `createMeal` evidently intends. The micronutrient field is untyped (`type: Object`), so the store does not detect the in-place updates at `meals.service.ts:52-57` when the meal already had a map. There the database keeps the old amounts. `MealsService.PersistedAppend` and `MealsService.LostMicronutrientUpdate` state that behaviour, and the Findings section below records it.

- Persistence: Mongoose queries, saves and the model constructor are the in-memory `MealStore`. Each service call is one atomic step, so the race between the find and the save in `createMeal` is not modelled.
- The server's time zone and daylight-saving rules: `LocalCalendar` leaves `setHours(0, 0, 0, 0)` and `setDate(getDate() + 1)` abstract.
- The current time is a parameter of `CreateMeal` and `AddFoodToMeal`, not a clock read.
- Number representation: micronutrient amounts are exact `real`s and calories are unbounded integers. Floating-point rounding, `NaN` and `Infinity` are not modelled.
- JavaScript objects as maps: micronutrient keys are assumed not to collide with `Object.prototype` property names such as `constructor`.
- Document ids are natural numbers handed out in order. A malformed id string, which the store would reject with a cast error, is not modelled.
- Store behaviour outside validation is not modelled: filling schema defaults into saved items, dropping empty objects on save, and the `timestamps` fields.
- MealsService.MealStore.GetMealsByDate: the contract states which meals are returned, not their order. Store order comes from `Query.Filter`, and `Query.FilterConcat` states that it is kept.
- The rest of the repository is not part of this model: controllers, authentication, user management, the AI proxy and nutrient-generation service, and the mobile UI. The JSX and theme of `mobile/app/_layout.tsx` are left out too.

## Findings

| source | as written | input that shows it | evidently intended | confidence | as-written member | corrected member |
|---|---|---|---|---|---|---|
| backend/api-server/src/meals/meals.service.ts:52-57 | on an existing meal that already has a micronutrient map, the amounts are added inside the map without telling the store, and the untyped field's in-place change is not saved | a meal saved with `{vitC: 10}`, then a same-day call adding an item with `{vitC: 5}`: 15 is returned, 10 stays stored | the merged amounts are stored, as `MealsService.Appended` does; the stored meal stays in sync with its items | medium, not executed (depends on the store's documented change tracking of untyped fields) | MealsService.LostMicronutrientUpdate | MealsService.CreateKeepsSync |
