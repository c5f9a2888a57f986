# FoodFlow pantry app, modelled in Dafny

FoodFlow (Fridgic) is an Android app for tracking the food in a household's fridge, freezer and
pantry. This project models the logic under its screens and proves what that logic promises:

- **Items** (`inventory_item.dfy`): the inventory item record. It also covers the values derived
  from the expiration date: whole days remaining (truncated toward zero, with `Long.MAX_VALUE` for
  an unparsable date), the four colour tiers of the progress bar and the piecewise progress value.
- **Sorting** (`sort_items.dfy`): `sortItems`, a stable `sortedBy` on one of five keys. It is
  specified as a sorted permutation that keeps ties in input order.
- **Repository** (`inventory_repository.dfy`): the signed-in user's item collection in the remote
  document store, modelled as a map from user id to document id to item.
  - Each mutation is a function of the store: add with an optional image, move, delete, clear all.
  - The repository class performs them, one method per operation, including the fetch loop and
    the clear-all batch loop.
- **Inventory** (`inventory_view_model.dfy`): the view-model shared by the inventory and grocery
  screens, as a class whose methods update its fields.
  - It covers the two displayed lists and the search, category and order that shape them.
  - It covers the duplicate-name check with its warning dialog (shown exactly when an item is
    held), the toggle selection (never holding duplicates), and bulk transfer and delete.
- **NewItem** (`add_new_item.dfy`): the add-item form, covering its fields, when Add is enabled,
  the item it submits, the date picker and the warning dialog's buttons.
- **Meals** (`meals.dfy`): three backup meals, narrowed by category or name search and looked up by
  id.
- **Login** (`login.dfy`) and **Account** (`account.dfy`): the login state machine, and the
  account-creation chain with its fallback messages, the user name, password reset and logout.
- **Onboarding** (`onboarding.dfy`): the three-page tutorial pager and its finish step.
- **Navigation** (`navigation.dfy`): the route constants, the meal-detail route, the start
  destination and bottom-bar visibility.
- **Common** (`common.dfy`): the Kotlin library behaviour the app relies on.
  - This covers `isBlank`, comparison ignoring case, `compareTo` on strings and `toIntOrNull`.
  - It also covers `filter`, `find`, and `list - x`, which removes the first occurrence.

The outcome of every remote call is a parameter of the operation that makes it. This covers the
query, the upload, the write, the batch commit, sign-in, sign-up and the password-reset mail. The
current time and the date parser are parameters too. A callback such as `onSuccess` or
`onSuccessNavigate` becomes a returned boolean, or an event in a trace, saying whether and when it
runs. Each coroutine body runs to completion before the next call.

The model follows the code in every case, even where a prose description of the app reads
differently:

- Progress is not monotone. It is 0.01 at 99 days and 0.1 from 100 days on
  (`Items.ProgressNotMonotone`).
- A date less than a whole day past gives 0 days, not a negative count (`Items.PastDates`).
- Transferring the selection stops at the first failed update, and then the selection is not
  cleared (`Inventory.InventoryViewModel.TransferSelectedItems`). Deleting the selection always
  clears it.
- A negative quantity is accepted as typed (`NewItem.SubmittedQuantityOfNumber`).

## Model

| member | source | states |
|---|---|---|
| Common.ToIntOrNull | app/src/main/java/com/company/foodflow/presentation/new_item/AddNewItem.kt:212 | String.toIntOrNull: any value read lies in the 32-bit Int range; empty text reads as null |
| Common.ToIntOrNullRoundTrip | app/src/main/java/com/company/foodflow/presentation/new_item/AddNewItem.kt:212 | the decimal text of every Int, negative ones included, reads back as that Int |
| Common.IsBlank | app/src/main/java/com/company/foodflow/presentation/inventory/InventoryViewModel.kt:203 | isBlank: a string of spaces (the empty one included) is blank; one holding a letter or digit is not |
| Common.EqualsIgnoreCase | app/src/main/java/com/company/foodflow/presentation/inventory/InventoryViewModel.kt:161 | equality ignoring case implies equal lengths and holds for equal strings |
| Common.ContainsIgnoreCase | app/src/main/java/com/company/foodflow/presentation/inventory/InventoryViewModel.kt:204 | every string contains the empty query; a match needs a query no longer than the name |
| Common.LexLe | app/src/main/java/com/company/foodflow/data/InventoryRepositoryImpl.kt:63-64 | String.compareTo(a, b) <= 0 only when a is empty or its first character is at most b's |
| Common.LexLePrefix | app/src/main/java/com/company/foodflow/data/InventoryRepositoryImpl.kt:63-64 | a prefix compares <= its extension |
| Common.LexLeReflexive | app/src/main/java/com/company/foodflow/data/InventoryRepositoryImpl.kt:63-64 | every string compares <= itself |
| Common.LexLeTotal | app/src/main/java/com/company/foodflow/data/InventoryRepositoryImpl.kt:63-64 | any two strings compare one way or the other |
| Common.LexLeAntisymmetric | app/src/main/java/com/company/foodflow/data/InventoryRepositoryImpl.kt:63-64 | strings comparing <= both ways are equal |
| Common.LexLeTransitive | app/src/main/java/com/company/foodflow/data/InventoryRepositoryImpl.kt:63-64 | the string order is transitive |
| Common.EqualsIgnoreCaseIsEquivalence | app/src/main/java/com/company/foodflow/presentation/inventory/InventoryViewModel.kt:161 | equality ignoring case is reflexive, symmetric and transitive |
| Common.EqualsIgnoreCaseImpliesContains | app/src/main/java/com/company/foodflow/presentation/inventory/InventoryViewModel.kt:161 | a name equal to the query ignoring case also contains it ignoring case |
| Common.Filter | app/src/main/java/com/company/foodflow/presentation/meal/MealsViewModel.kt:89 | List.filter keeps each element satisfying the predicate with its multiplicity, drops the rest, and keeps their order |
| Common.RemoveFirst | app/src/main/java/com/company/foodflow/presentation/inventory/InventoryViewModel.kt:102 | `list - item` removes only the first occurrence of the item, and is the identity when the item is absent |
| Common.FindFirst | app/src/main/java/com/company/foodflow/presentation/meal/MealsViewModel.kt:75 | List.find returns an element satisfying the predicate with none before it, or null exactly when no element satisfies it |
| Items.DefaultItemAndEquality | app/src/main/java/com/company/foodflow/data/model/InventoryItem.kt:9-16 | the default item has empty id, name, location and date, quantity 0 and no image; equality is over all six fields |
| Items.MillisToDays | app/src/main/java/com/company/foodflow/data/model/InventoryItem.kt:26-27 | whole days of a millisecond difference, truncated toward zero: never more days than elapsed, less than one day short |
| Items.DaysRemaining | app/src/main/java/com/company/foodflow/data/model/InventoryItem.kt:20-31 | an expiration date that does not parse gives Long.MAX_VALUE |
| Items.ItemDaysRemaining | app/src/main/java/com/company/foodflow/data/model/InventoryItem.kt:20-31 | an item's days remaining: Long.MAX_VALUE for an unparsable date, else within one day of the parsed difference |
| Items.LessThanADayIsZero | app/src/main/java/com/company/foodflow/data/model/InventoryItem.kt:23-27 | an expiration less than one day away, in either direction, gives 0 days, never -1 |
| Items.PastDates | app/src/main/java/com/company/foodflow/data/model/InventoryItem.kt:23-27 | a past date gives at most 0 days, and a negative count exactly when a whole day has passed |
| Items.DaysRemainingMonotone | app/src/main/java/com/company/foodflow/data/model/InventoryItem.kt:23-27 | a later expiration never gives fewer days |
| Items.ColorTier | app/src/main/java/com/company/foodflow/data/model/InventoryItem.kt:43-49 | the colour's urgency counts the thresholds 2, 7 and 14 days that the days remaining have not passed |
| Items.ColorTierBands | app/src/main/java/com/company/foodflow/data/model/InventoryItem.kt:43-49 | Red for at most 2 days, Orange for 3-7, Turquoise for 8-14, Green from 15 |
| Items.ColorTierMonotone | app/src/main/java/com/company/foodflow/data/model/InventoryItem.kt:43-49 | the tier never becomes more urgent as the days remaining grow |
| Items.Progress | app/src/main/java/com/company/foodflow/data/model/InventoryItem.kt:34-39 | the progress value lies within [0.01, 1.0] and is full exactly at or below 0 days |
| Items.ProgressSaturates | app/src/main/java/com/company/foodflow/data/model/InventoryItem.kt:34-39 | progress is 1.0 at or below 0 days, 0.1 from 100 days, and always within [0.01, 1.0] |
| Items.ProgressScales | app/src/main/java/com/company/foodflow/data/model/InventoryItem.kt:38 | between 1 and 99 days progress is 1 - d/100, within [0.01, 0.99] |
| Items.ProgressMonotoneBelowThreshold | app/src/main/java/com/company/foodflow/data/model/InventoryItem.kt:38 | up to 99 days progress never increases with the days remaining |
| Items.ProgressNotMonotone | app/src/main/java/com/company/foodflow/data/model/InventoryItem.kt:37-38 | progress rises from 0.01 at 99 days to 0.1 at 100 days |
| Items.UnparsableDate | app/src/main/java/com/company/foodflow/data/model/InventoryItem.kt:28-29 | an unparsable date gives Long.MAX_VALUE days, the Green tier and progress 0.1 |
| Sorting.KeyLeTotalOrder | app/src/main/java/com/company/foodflow/data/InventoryRepositoryImpl.kt:61-69 | the comparison sortedBy uses on each key is reflexive, total, antisymmetric and transitive |
| Sorting.Key | app/src/main/java/com/company/foodflow/data/InventoryRepositoryImpl.kt:62-68 | name, expiration and alphabetical orders compare text (BY_NAME and ALPHABETICAL the name); quantity and days remaining compare numbers |
| Sorting.InsertSorted | app/src/main/java/com/company/foodflow/data/InventoryRepositoryImpl.kt:61-69 | inserting into a sorted list keeps it sorted and adds exactly that item |
| Sorting.SortBy | app/src/main/java/com/company/foodflow/data/InventoryRepositoryImpl.kt:61-69 | sortedBy returns a permutation of its input, non-decreasing in the key |
| Sorting.SortItems | app/src/main/java/com/company/foodflow/data/InventoryRepositoryImpl.kt:61-69 | sortItems returns a permutation of the items, non-decreasing in the key the order selects |
| Sorting.SortByStable | app/src/main/java/com/company/foodflow/data/InventoryRepositoryImpl.kt:61-69 | items with equal keys keep their relative order |
| Sorting.SortItemsStable | app/src/main/java/com/company/foodflow/data/InventoryRepositoryImpl.kt:61-69 | sortItems is stable for every one of the five orders |
| Sorting.ByNameIsAlphabetical | app/src/main/java/com/company/foodflow/data/InventoryRepositoryImpl.kt:62-67 | BY_NAME and ALPHABETICAL give identical results |
| Sorting.ByExpirationComparesRawStrings | app/src/main/java/com/company/foodflow/data/InventoryRepositoryImpl.kt:64 | BY_EXPIRATION orders by the raw date strings, not by parsed dates |
| Sorting.ByDaysRemainingSoonestFirst | app/src/main/java/com/company/foodflow/data/InventoryRepositoryImpl.kt:66 | DAYS_REMAINING puts items with fewer days remaining first |
| Sorting.MilkBeforeEggs | app/src/main/java/com/company/foodflow/data/InventoryRepositoryImpl.kt:66 | milk expiring tomorrow sorts before eggs expiring in ten days |
| Repository.Unauthenticated | app/src/main/java/com/company/foodflow/data/InventoryRepositoryImpl.kt:29-143 | without a signed-in user, add, move and clear fail with "User not authenticated", delete fails silently, and the store is unchanged |
| Repository.AddStep | app/src/main/java/com/company/foodflow/data/InventoryRepositoryImpl.kt:100-126 | a failed add changes nothing; other users are untouched; a successful add adds exactly the new id to the user's documents |
| Repository.LocationStep | app/src/main/java/com/company/foodflow/data/InventoryRepositoryImpl.kt:87-97 | a failed move changes nothing; other users are untouched; the user's document ids never change |
| Repository.DeleteStep | app/src/main/java/com/company/foodflow/data/InventoryRepositoryImpl.kt:70-85 | other users are untouched, the user gains no document, and a successful delete removes the id |
| Repository.ClearAllStep | app/src/main/java/com/company/foodflow/data/InventoryRepositoryImpl.kt:140-165 | a failed clear changes nothing; other users are untouched; a successful clear leaves the user with no documents |
| Repository.AddStepSpec | app/src/main/java/com/company/foodflow/data/InventoryRepositoryImpl.kt:100-126 | an add succeeds iff the upload (if any) and the write succeed; then exactly the new document appears, and it is the given item with the uploaded URL or null as imageUrl; a failed upload writes nothing |
| Repository.LocationStepSpec | app/src/main/java/com/company/foodflow/data/InventoryRepositoryImpl.kt:87-97 | a move succeeds iff the document exists and the update succeeds; only that document's location changes; a failure changes nothing |
| Repository.DeleteStepSpec | app/src/main/java/com/company/foodflow/data/InventoryRepositoryImpl.kt:70-85 | a delete removes exactly that document, or nothing when it fails; other users are untouched |
| Repository.ClearAllStepSpec | app/src/main/java/com/company/foodflow/data/InventoryRepositoryImpl.kt:140-165 | clearing removes every document of the user at once, or none when the read or the commit fails |
| Repository.StepsKeepWellFormed | app/src/main/java/com/company/foodflow/data/InventoryRepositoryImpl.kt:116-120 | no mutation stores a document under the empty id |
| Repository.InventoryRepository.constructor | app/src/main/java/com/company/foodflow/data/InventoryRepositoryImpl.kt:17-21 | the repository over a given store, user and date parser |
| Repository.InventoryRepository.GetInventoryItems | app/src/main/java/com/company/foodflow/data/InventoryRepositoryImpl.kt:23-57 | no user or a failed query gives the error; otherwise every document in the category exactly once, each carrying its document id as id, sorted by the order |
| Repository.InventoryRepository.AddInventoryItem | app/src/main/java/com/company/foodflow/data/InventoryRepositoryImpl.kt:100-126 | the store changes as AddStep says, under a fresh non-empty document id |
| Repository.InventoryRepository.UpdateItemLocation | app/src/main/java/com/company/foodflow/data/InventoryRepositoryImpl.kt:87-97 | the store and the result are LocationStep's; the failure is returned to the caller |
| Repository.InventoryRepository.DeleteItem | app/src/main/java/com/company/foodflow/data/InventoryRepositoryImpl.kt:70-85 | the store changes as DeleteStep says; nothing is reported |
| Repository.InventoryRepository.ClearAllItems | app/src/main/java/com/company/foodflow/data/InventoryRepositoryImpl.kt:140-165 | the batch over the fetched documents leaves the store ClearAllStep gives |
| Inventory.FilterItemsByQuery | app/src/main/java/com/company/foodflow/presentation/inventory/InventoryViewModel.kt:202-205 | a blank query keeps the list; otherwise exactly the items whose name contains the query ignoring case, each as often as in the input, in their order |
| Inventory.SubsequenceKeepsOrder | app/src/main/java/com/company/foodflow/presentation/inventory/InventoryViewModel.kt:202-205 | filtering a sorted list leaves it sorted |
| Inventory.DisplayedList | app/src/main/java/com/company/foodflow/presentation/inventory/InventoryViewModel.kt:187-200 | a fetched list is sorted by the chosen order and holds exactly the stored items in the category whose name matches the query, each once |
| Inventory.Toggle | app/src/main/java/com/company/foodflow/presentation/inventory/InventoryViewModel.kt:100-106 | deselecting shortens the selection by one; selecting appends the item last and keeps the rest |
| Inventory.ToggleSpec | app/src/main/java/com/company/foodflow/presentation/inventory/InventoryViewModel.kt:100-106 | toggling flips the membership of that item only and never creates duplicates |
| Inventory.ToggleTwice | app/src/main/java/com/company/foodflow/presentation/inventory/InventoryViewModel.kt:100-106 | toggling twice restores the selection as a set, and exactly when the item was not selected |
| Inventory.TransferFrom | app/src/main/java/com/company/foodflow/presentation/inventory/InventoryViewModel.kt:120-134 | updating the selection one by one never touches other users and never adds or removes a document |
| Inventory.TransferFromSpec | app/src/main/java/com/company/foodflow/presentation/inventory/InventoryViewModel.kt:120-134 | a transfer succeeds iff every selected item is stored and every update succeeds; each document is untouched or relocated; on success exactly the selected ones are relocated |
| Inventory.DeleteFrom | app/src/main/java/com/company/foodflow/presentation/inventory/InventoryViewModel.kt:228-236 | deleting the selection one by one never touches other users and never adds a document |
| Inventory.DeleteFromSpec | app/src/main/java/com/company/foodflow/presentation/inventory/InventoryViewModel.kt:228-236 | deleting the selection removes exactly the documents whose delete succeeded |
| Inventory.AnyNameMatches | app/src/main/java/com/company/foodflow/presentation/inventory/InventoryViewModel.kt:160-161 | a list holding an item with exactly that name always counts as a duplicate; an empty list never does |
| Inventory.DuplicateIffStoredName | app/src/main/java/com/company/foodflow/presentation/inventory/InventoryViewModel.kt:159-161 | the name check over the list fetched with All and BY_NAME holds iff some stored item has that name ignoring case |
| Inventory.InventoryViewModel.constructor | app/src/main/java/com/company/foodflow/presentation/inventory/InventoryViewModel.kt:181-185 | the user name (display name or "User") and both lists fetched with an empty query, category All and BY_NAME |
| Inventory.InventoryViewModel.FetchUserName | app/src/main/java/com/company/foodflow/presentation/inventory/InventoryViewModel.kt:207-210 | the user name is the display name, or "User" |
| Inventory.InventoryViewModel.FetchInventoryItems | app/src/main/java/com/company/foodflow/presentation/inventory/InventoryViewModel.kt:187-200 | the inventory list is the filtered, sorted query result, or empty when the query fails |
| Inventory.InventoryViewModel.FetchGroceryItems | app/src/main/java/com/company/foodflow/presentation/inventory/InventoryViewModel.kt:86-98 | the grocery list is the filtered, sorted query result, or empty when the query fails |
| Inventory.InventoryViewModel.OnSearchQueryChanged | app/src/main/java/com/company/foodflow/presentation/inventory/InventoryViewModel.kt:136-140 | stores the query and refetches the inventory list with it; the other settings, the grocery list, the selection and the duplicate warning are unchanged |
| Inventory.InventoryViewModel.OnSearchQueryChangedGrocery | app/src/main/java/com/company/foodflow/presentation/inventory/InventoryViewModel.kt:142-146 | stores the query and refetches the grocery list with it; the other settings, the inventory list, the selection and the duplicate warning are unchanged |
| Inventory.InventoryViewModel.OnCategorySelected | app/src/main/java/com/company/foodflow/presentation/inventory/InventoryViewModel.kt:213-216 | stores the category and refetches the inventory list with it; the other settings, the grocery list, the selection and the duplicate warning are unchanged |
| Inventory.InventoryViewModel.OnCategoryCategorySelected | app/src/main/java/com/company/foodflow/presentation/inventory/InventoryViewModel.kt:218-221 | stores the category and refetches the grocery list with it; the other settings, the inventory list, the selection and the duplicate warning are unchanged |
| Inventory.InventoryViewModel.ChangeSortOrder | app/src/main/java/com/company/foodflow/presentation/inventory/InventoryViewModel.kt:223-226 | stores the order and refetches the inventory list with it; the other settings, the grocery list, the selection and the duplicate warning are unchanged |
| Inventory.InventoryViewModel.AddInventoryItem | app/src/main/java/com/company/foodflow/presentation/inventory/InventoryViewModel.kt:149-178 | a failed check writes nothing; a duplicate name holds the item behind the warning without writing or onSuccess; otherwise the item is added and onSuccess runs iff the add succeeds; loading is off on every exit |
| Inventory.InventoryViewModel.HasDuplicate | app/src/main/java/com/company/foodflow/presentation/inventory/InventoryViewModel.kt:159-161 | the check fails iff there is no user or the fetch fails, and otherwise finds a duplicate iff a stored name matches ignoring case |
| Inventory.InventoryViewModel.ConfirmAddDuplicateItem | app/src/main/java/com/company/foodflow/presentation/inventory/InventoryViewModel.kt:57-76 | nothing without a held item; otherwise the held item is added without an image, onSuccess iff the add succeeds, and the warning and held item are cleared either way |
| Inventory.InventoryViewModel.CancelAddDuplicateItem | app/src/main/java/com/company/foodflow/presentation/inventory/InventoryViewModel.kt:79-82 | hides the warning and drops the held item without touching the store |
| Inventory.InventoryViewModel.ToggleItemSelected | app/src/main/java/com/company/foodflow/presentation/inventory/InventoryViewModel.kt:100-106 | the selection becomes Toggle of the old selection, which keeps it free of duplicates |
| Inventory.InventoryViewModel.ClearSelectedItems | app/src/main/java/com/company/foodflow/presentation/inventory/InventoryViewModel.kt:48-53 | empties the selection and refetches the grocery list |
| Inventory.InventoryViewModel.ClearAllItems | app/src/main/java/com/company/foodflow/presentation/inventory/InventoryViewModel.kt:108-118 | the store is ClearAllStep's; on success the grocery list empties and onSuccess runs |
| Inventory.InventoryViewModel.TransferSelectedItems | app/src/main/java/com/company/foodflow/presentation/inventory/InventoryViewModel.kt:120-134 | updates the selection in order and stops at the first failure; only full success clears the selection, refetches and runs onSuccess |
| Inventory.InventoryViewModel.DeleteSelectedItems | app/src/main/java/com/company/foodflow/presentation/inventory/InventoryViewModel.kt:228-237 | attempts every delete, then clears the selection and refetches the grocery list |
| NewItem.LocationName | app/src/main/java/com/company/foodflow/presentation/new_item/AddNewItem.kt:146-156 | each location button sets one of "Freezer", "Pantry", "Fridge" |
| NewItem.LocationNamesDistinct | app/src/main/java/com/company/foodflow/presentation/new_item/AddNewItem.kt:146-156 | the three buttons set three different locations |
| NewItem.AddEnabled | app/src/main/java/com/company/foodflow/presentation/new_item/AddNewItem.kt:226 | Add is enabled only with a non-empty name, quantity and date, and is enabled for a non-blank name and date with a digits-only quantity |
| NewItem.SubmittedItem | app/src/main/java/com/company/foodflow/presentation/new_item/AddNewItem.kt:209-214 | the submitted item has the typed name, location and date, id "", no image URL and an Int quantity |
| NewItem.SubmittedQuantityOfNumber | app/src/main/java/com/company/foodflow/presentation/new_item/AddNewItem.kt:212 | typing any Int, negative ones included, submits that quantity |
| NewItem.SubmittedQuantityOfText | app/src/main/java/com/company/foodflow/presentation/new_item/AddNewItem.kt:212 | text that is not an Int submits quantity 0 |
| NewItem.QuantityExamples | app/src/main/java/com/company/foodflow/presentation/new_item/AddNewItem.kt:212 | "12" reads 12 and "-3" reads -3 |
| NewItem.QuantityBeyondInt | app/src/main/java/com/company/foodflow/presentation/new_item/AddNewItem.kt:212 | "2147483648", one past Int.MAX_VALUE, does not read |
| NewItem.WarningItemName | app/src/main/java/com/company/foodflow/presentation/new_item/AddNewItem.kt:257 | the dialog shows the held item's name, or "" |
| NewItem.AddItemForm.constructor | app/src/main/java/com/company/foodflow/presentation/new_item/AddNewItem.kt:48-66 | empty name and quantity, location Fridge, no image, the default date |
| NewItem.AddItemForm.OnNameChanged | app/src/main/java/com/company/foodflow/presentation/new_item/AddNewItem.kt:163 | the name becomes the typed text |
| NewItem.AddItemForm.OnQuantityChanged | app/src/main/java/com/company/foodflow/presentation/new_item/AddNewItem.kt:193 | the quantity text becomes the typed text |
| NewItem.AddItemForm.OnLocationSelected | app/src/main/java/com/company/foodflow/presentation/new_item/AddNewItem.kt:146-156 | the location is only ever one of the three names |
| NewItem.AddItemForm.OnImagePicked | app/src/main/java/com/company/foodflow/presentation/new_item/AddNewItem.kt:80-84 | a picked image replaces the previous one; no pick keeps it |
| NewItem.AddItemForm.OnDateConfirmed | app/src/main/java/com/company/foodflow/presentation/new_item/AddNewItem.kt:314-327 | the picker only offers instants at or after now; OK sets the date to the formatted selection, or "" when none is selected, which disables Add |
| NewItem.AddItemForm.OnAddClicked | app/src/main/java/com/company/foodflow/presentation/new_item/AddNewItem.kt:207-226 | only when Add is enabled: hands the submitted item and the picked image to the view-model's add, with its outcomes |
| NewItem.AddItemForm.WarningText | app/src/main/java/com/company/foodflow/presentation/new_item/AddNewItem.kt:257 | the name the warning dialog shows |
| NewItem.AddItemForm.OnProceed | app/src/main/java/com/company/foodflow/presentation/new_item/AddNewItem.kt:258-262 | Proceed confirms the held duplicate |
| NewItem.AddItemForm.OnCancel | app/src/main/java/com/company/foodflow/presentation/new_item/AddNewItem.kt:263 | Cancel drops the held duplicate without touching the store |
| Meals.BackupIdsDistinct | app/src/main/java/com/company/foodflow/presentation/meal/MealsViewModel.kt:19-55 | the backup meal ids are pairwise different |
| Meals.CategoryMeals | app/src/main/java/com/company/foodflow/presentation/meal/MealsViewModel.kt:84-91 | "All" gives the backup list; any other category gives exactly the backup meals of that category, in order |
| Meals.SearchedMeals | app/src/main/java/com/company/foodflow/presentation/meal/MealsViewModel.kt:93-100 | a blank query gives the backup list; otherwise exactly the backup meals whose name contains the query ignoring case, in order |
| Meals.MealById | app/src/main/java/com/company/foodflow/presentation/meal/MealsViewModel.kt:74-76 | the first meal in the list with the id, none before it having it; null iff no meal has it |
| Meals.VeganCategory | app/src/main/java/com/company/foodflow/presentation/meal/MealsViewModel.kt:84-91 | "Vegan" keeps Pasta alone |
| Meals.HalalCategory | app/src/main/java/com/company/foodflow/presentation/meal/MealsViewModel.kt:84-91 | "Halal" keeps Chicken Biryani alone |
| Meals.UnknownCategory | app/src/main/java/com/company/foodflow/presentation/meal/MealsViewModel.kt:89 | a category no backup meal has keeps nothing |
| Meals.SearchIgnoresCase | app/src/main/java/com/company/foodflow/presentation/meal/MealsViewModel.kt:98 | "PIZ" finds Pizza |
| Meals.FindInBackup | app/src/main/java/com/company/foodflow/presentation/meal/MealsViewModel.kt:74-76 | among the backup meals an id finds exactly its meal |
| Meals.FilteredOutNotFound | app/src/main/java/com/company/foodflow/presentation/meal/MealsViewModel.kt:74-91 | a meal the category filter dropped cannot be looked up |
| Meals.MealsViewModel.constructor | app/src/main/java/com/company/foodflow/presentation/meal/MealsViewModel.kt:78-82 | the backup meals and an empty query |
| Meals.MealsViewModel.GetMealById | app/src/main/java/com/company/foodflow/presentation/meal/MealsViewModel.kt:74-76 | the first displayed meal with the id, none before it having it; null iff no displayed meal has it |
| Meals.MealsViewModel.FilterMealsByCategory | app/src/main/java/com/company/foodflow/presentation/meal/MealsViewModel.kt:84-91 | the displayed meals depend on the category alone, not on earlier calls |
| Meals.MealsViewModel.SearchMeals | app/src/main/java/com/company/foodflow/presentation/meal/MealsViewModel.kt:93-100 | records the query; the displayed meals depend on it alone |
| Login.LoginEventsSpec | app/src/main/java/com/company/foodflow/presentation/login/LoginViewModel.kt:21-45 | blank fields give the empty-fields error with no call and no Loading; otherwise Loading, then the call, then navigation and Success, or the failure's message or "Login failed" |
| Login.LoginViewModel.constructor | app/src/main/java/com/company/foodflow/presentation/login/LoginViewModel.kt:18 | the state starts Idle |
| Login.LoginViewModel.OnLoginClick | app/src/main/java/com/company/foodflow/presentation/login/LoginViewModel.kt:21-45 | performs the events of LoginEvents in order and navigates iff the login succeeds |
| Login.LoginViewModel.OnGoogleSignInClick | app/src/main/java/com/company/foodflow/presentation/login/LoginViewModel.kt:47-49 | changes nothing |
| Account.CreationStatesSpec | app/src/main/java/com/company/foodflow/presentation/signup/AccountViewModel.kt:59-105 | Loading first; Success iff sign-up, profile update and save all succeed; each failing step reports its message or its own fallback; no user leaves Loading |
| Account.EarlierFailureWins | app/src/main/java/com/company/foodflow/presentation/signup/AccountViewModel.kt:62-86 | after a failed sign-up or with no user the later steps never run |
| Account.UserNameOf | app/src/main/java/com/company/foodflow/presentation/signup/AccountViewModel.kt:54-57 | the display name, else the email, else "User" |
| Account.AccountViewModel.constructor | app/src/main/java/com/company/foodflow/presentation/signup/AccountViewModel.kt:33-35 | state Idle and the fetched user name |
| Account.AccountViewModel.CreateAccount | app/src/main/java/com/company/foodflow/presentation/signup/AccountViewModel.kt:59-87 | passes through CreationStates; the user record is saved only when every step succeeds |
| Account.AccountViewModel.SaveUserData | app/src/main/java/com/company/foodflow/presentation/signup/AccountViewModel.kt:89-105 | a successful save stores {name, email} under the uid and gives Success; a failure gives its message or "Failed to save user data" |
| Account.AccountViewModel.FetchUserName | app/src/main/java/com/company/foodflow/presentation/signup/AccountViewModel.kt:54-57 | the user name is UserNameOf the current user |
| Account.AccountViewModel.ChangePassword | app/src/main/java/com/company/foodflow/presentation/signup/AccountViewModel.kt:37-52 | emits whether the reset mail went out, only for a user with an email |
| Account.AccountViewModel.Logout | app/src/main/java/com/company/foodflow/presentation/signup/AccountViewModel.kt:107-110 | signs out, then runs the callback |
| Navigation.RoutesDistinct | app/src/main/java/com/company/foodflow/presentation/main/Graph.kt:4-16 | the twelve route constants are pairwise different |
| Navigation.MealDetailRoute | app/src/main/java/com/company/foodflow/presentation/main/Graph.kt:18 | "meals_detail/" followed by the id |
| Navigation.MealIdOf | app/src/main/java/com/company/foodflow/presentation/main/Graph.kt:18 | a route carries an id iff it starts with "meals_detail/" |
| Navigation.MealIdRoundTrip | app/src/main/java/com/company/foodflow/presentation/main/Graph.kt:18 | the id read back from a detail route is the id it was built from, and every detail route is built from its id |
| Navigation.MealDetailRouteInjective | app/src/main/java/com/company/foodflow/presentation/main/Graph.kt:18 | different meals get different routes |
| Navigation.DetailRoutesShareTemplatePrefix | app/src/main/java/com/company/foodflow/presentation/main/Graph.kt:10-18 | every detail route starts like the MEALS_DETAIL template |
| Navigation.DetailRouteCollisions | app/src/main/java/com/company/foodflow/presentation/main/Graph.kt:4-18 | a detail route equals a route constant iff the id is "{mealId}", and then it is the template |
| Navigation.StartDestination | app/src/main/java/com/company/foodflow/presentation/main/RootNavGraph.kt:58-62 | the start destination is TUTORIAL, INVENTORY or LOGIN |
| Navigation.StartDestinationSpec | app/src/main/java/com/company/foodflow/presentation/main/RootNavGraph.kt:58-62 | TUTORIAL iff the tutorial was not shown; INVENTORY iff shown and logged in; LOGIN iff shown and logged out |
| Navigation.BottomBarVisible | app/src/main/java/com/company/foodflow/presentation/main/RootNavGraph.kt:70-74 | the bottom bar shows only on a registered route, and never on a meal-detail route |
| Navigation.BottomBarHidden | app/src/main/java/com/company/foodflow/presentation/main/RootNavGraph.kt:70-74 | no bottom bar without a route, on a meal-detail route, on login, sign-up, tutorial or add-item |
| Onboarding.DisplayedPage | app/src/main/java/com/company/foodflow/presentation/onboarding/OnboardingScreen.kt:80-92 | pages 1-3 show themselves; any other index shows page 1 |
| Onboarding.SkipVisible | app/src/main/java/com/company/foodflow/presentation/onboarding/OnboardingScreen.kt:157 | on pages 1-3, Skip shows exactly when Next would not finish |
| Onboarding.PressNext | app/src/main/java/com/company/foodflow/presentation/onboarding/OnboardingScreen.kt:187-190 | Next finishes exactly on page 3 and otherwise moves one page on |
| Onboarding.AfterNexts | app/src/main/java/com/company/foodflow/presentation/onboarding/OnboardingScreen.kt:187-190 | after n presses of Next the page is the start page plus n; finishing needs enough presses to pass page 3 |
| Onboarding.NextWalksToFinish | app/src/main/java/com/company/foodflow/presentation/onboarding/OnboardingScreen.kt:187-190 | from any page Next visits each following page in turn, and the press after page 3 finishes |
| Onboarding.FinishedTutorialIsNotStart | app/src/main/java/com/company/foodflow/presentation/onboarding/OnboardingScreen.kt:57-60 | once the tutorial is marked shown, the start destination is INVENTORY or LOGIN |
| Onboarding.OnboardingScreen.constructor | app/src/main/java/com/company/foodflow/presentation/onboarding/OnboardingScreen.kt:34 | the pager starts on page 1 |
| Onboarding.OnboardingScreen.OnDotClick | app/src/main/java/com/company/foodflow/presentation/onboarding/OnboardingScreen.kt:52-54 | a dot sets the index to its page, within 1..3 |
| Onboarding.OnboardingScreen.Finish | app/src/main/java/com/company/foodflow/presentation/onboarding/OnboardingScreen.kt:57-60 | marks the tutorial shown, then opens the inventory |
| Onboarding.OnboardingScreen.OnNext | app/src/main/java/com/company/foodflow/presentation/onboarding/OnboardingScreen.kt:187-190 | on page 3 finishes and keeps the index; otherwise moves one page on; the index stays within 1..3 |
| Onboarding.OnboardingScreen.OnSkip | app/src/main/java/com/company/foodflow/presentation/onboarding/OnboardingScreen.kt:157-161 | Skip, offered below page 3, finishes at once |

## Left out

- Case folding and whitespace are ASCII-only. Kotlin's `ignoreCase` and `isWhitespace` also cover the rest of Unicode.
- Common.ToIntOrNull: only ASCII digits are read; Kotlin also reads other Unicode decimal digits.
- Common.LexLe: compares characters by code point. Kotlin's `compareTo` compares UTF-16 code units, so the two orders differ only outside the Basic Multilingual Plane.
- Items.DaysRemaining: the subtraction of two epoch instants is unbounded here. The `Long` overflow it could have for extreme dates is not modelled.
- Items.Progress: computed over reals. Float rounding and the colour values themselves are not modelled; colours are four tiers.
- Date parsing and formatting are not modelled.
  - The parser is an abstract function from a string to epoch milliseconds, with None where it throws.
  - `SimpleDateFormat` leniency and time zones are not modelled.
  - The default date of today plus seven days, and `convertMillisToDate`, are not modelled; the default date is a constructor parameter.
- Sorting.SortItems: one current time is used for the whole sort. The source reads the clock again each time it evaluates `daysRemaining`.
- Repository.InventoryRepository.GetInventoryItems: the query returns the documents in no particular order, and a failed query is an error result rather than a closed flow.
  - Documents that fail to deserialize, which `mapNotNull` drops, are not modelled.
- Backend error texts are not modelled. A move of a missing document fails with a fixed message, and other failures carry whatever message the outcome parameter gives.
- The upload path under `inventory_images/` is not modelled, and download URLs are opaque strings.
- Coroutines, flows and their interleavings are not modelled; each launched body is one atomic method. `isLoading` being true while a body runs is therefore not observable.
- Account.AccountViewModel.CreateAccount: the display name set on the auth user is not reflected in `currentUser`. Only the saved user record is state.
- The auth repository's sign-in, Google sign-in, the tutorial and login flags in shared preferences, and the navigation controller are not part of this model. Their results are parameters, traces or fields.
- Compose rendering is not modelled. This covers Toasts, logging, images, the loader and the identical onboarding images.
