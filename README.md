# Recipe store and recipe service

A Dafny model of the recipe back end:

- `src/models/Recipe.js` is the `Recipe` store over two SQLite tables, `recipes` and `recipe_ingredients`.
- `src/services/recipeService.js` is the service that checks requests before handing them to the store.

Files:

- `values.dfy` (module `Values`) holds the values that cross the JavaScript/SQL boundary:
  - `Option` and `Result`;
  - `Js<T>`, which separates `undefined`, `null` and a value;
  - JavaScript truthiness;
  - the `x || null` binding;
  - the `x !== undefined` assignment used by `update`.
- `tables.dfy` (module `Tables`) holds a table as a sequence of rows:
  - `Filter` stands for `SELECT ... WHERE` and `DELETE ... WHERE`;
  - `Pairwise` states key order and uniqueness;
  - it also holds the generic lemmas about the two.
- `recipe_model.dfy` (module `RecipeModel`) holds:
  - the row types;
  - the table constraints as the predicate `Consistent`;
  - the specification functions for each SQL statement;
  - the class `RecipeStore`. Its fields are the two tables and their two AUTOINCREMENT counters. Its methods are the static methods of `Recipe`.
- `recipe_service.dfy` (module `RecipeService`) holds:
  - the service's checks, as pure functions;
  - the service operations, as methods that call the store;
  - the two findings below.

How the store is modelled:

- Rows are kept in ascending id order:
  - a new row always gets the current counter value, which is larger than every id in the table;
  - a delete only filters rows out.
  So `ORDER BY id` is the order of the sequence.
- Constraints:
  - `recipes.name` is NOT NULL and UNIQUE.
  - `recipe_ingredients.product_name` is NOT NULL.
  - `recipe_id` is a foreign key. Foreign keys are on, and deletes cascade.
- A statement that breaks a constraint writes nothing and returns a `StoreError`.
- For an ingredient insert, NOT NULL is checked before the foreign key.
- A binding of `undefined` is treated like `null`.
- `create` and `update` insert ingredients with `forEach`, and there is no transaction around it. When an item is rejected, the rows inserted before it stay. The model states exactly which prefix stays.
- `created_at` and `updated_at` are not modelled as times. The `touched` flag on a recipe row records that an `UPDATE ... SET updated_at = CURRENT_TIMESTAMP` ran on that row.

Where a reader might expect otherwise, the model follows the code:

- `update` refreshes `updated_at` only when a field of the recipe itself is not `undefined` (lines 104-118). Replacing only the ingredient list leaves the `touched` flag as it was.
- The store takes any product name, `""` included. The only constraint is NOT NULL. It is the service that rejects falsy names.
- The `forEach` ingredient loops do not run inside a transaction, so an item that is rejected partway leaves the rows inserted before it. The cascade of a recipe delete is part of the one DELETE statement and happens together with it.

## Model

| member | source | states |
|---|---|---|
| RecipeModel.IndexOf | src/models/Recipe.js:57-59 | `WHERE id = ?` finds an in-bounds row with that id exactly when some recipe has it |
| RecipeModel.Lookup | src/models/Recipe.js:56-65 | no view for an absent id. For a present id: the stored row with that id, plus exactly its ingredient rows |
| RecipeModel.InsertRecipeFailure | src/models/Recipe.js:10 | the recipe insert succeeds exactly when the name is a value that no row has. Otherwise the error is UNIQUE for a taken name and NOT NULL for a missing name |
| RecipeModel.FirstUnbindable | src/models/Recipe.js:26 | the length of the longest prefix of items whose product_name can go into the NOT NULL column. The item after it, if there is one, cannot |
| RecipeModel.AddFailure | src/models/Recipe.js:152-158 | an ingredient insert succeeds exactly when the recipe exists and product_name is neither undefined nor null |
| RecipeModel.InsertedCount | src/models/Recipe.js:77-81 | a `forEach(addIngredient)` loop inserts exactly the items before the first rejected one |
| RecipeModel.InsertFailure | src/models/Recipe.js:77-81 | the loop ends with an error exactly when it does not insert every item |
| RecipeModel.UpdateFields | src/models/Recipe.js:86-118 | if every field is undefined, or the id is absent, the table is unchanged. The statement fails exactly on a NULL name or a name held by another row. On success: the other rows are unchanged, defined fields are overwritten (null included), undefined fields are kept, and the row is touched |
| RecipeModel.ConsistentInsertRecipe | src/models/Recipe.js:8-15 | inserting a row with the next id and an unused name keeps ids ascending, names unique and every foreign key resolved |
| RecipeModel.ConsistentInsertIngredient | src/models/Recipe.js:23-32 | inserting an ingredient with the next id for an existing recipe keeps the table constraints |
| RecipeModel.ConsistentFilterIngredients | src/models/Recipe.js:161-172 | deleting any set of ingredient rows keeps the table constraints |
| RecipeModel.ConsistentDelete | src/models/Recipe.js:31 | deleting a recipe together with its ingredient rows (the cascade) keeps the table constraints |
| RecipeModel.ConsistentPatch | src/models/Recipe.js:110-118 | a successful UPDATE keeps ids, order, unique names and foreign keys |
| RecipeModel.FreshIdOwnsNothing | src/models/Recipe.js:9 | no ingredient row refers to the id the next recipe insert will get |
| RecipeModel.ReadBackAfterCreate | src/models/Recipe.js:74-83 | after a new recipe's items are inserted, reading back that recipe's ingredients returns exactly the new rows, in input order |
| RecipeModel.ReplaceIngredientList | src/models/Recipe.js:121-126 | clearing a recipe's ingredients and inserting a list leaves exactly the new rows for it. Every other recipe's ingredients are unchanged |
| RecipeModel.ReplacedOwnList | src/models/Recipe.js:121-126 | once a recipe's rows are cleared, its ingredients are exactly the rows added afterwards |
| RecipeModel.CascadeDelete | src/models/Recipe.js:31 | after the cascade, no ingredient row refers to the deleted recipe. Every other recipe keeps its ingredient list |
| RecipeModel.AppendIngredient | src/models/Recipe.js:152-158 | an added ingredient goes at the end of its recipe's list. Every other list is unchanged |
| RecipeModel.RemoveIngredientEffect | src/models/Recipe.js:161-167 | removing an ingredient by (ingredient id, recipe id) deletes one row if a row matches both ids and none otherwise. Every other recipe's list is unchanged |
| RecipeModel.DeleteRemovesOne | src/models/Recipe.js:131-135 | deleting by id removes exactly one row when the id exists and none otherwise |
| RecipeModel.DistinctIds | src/models/Recipe.js:9 | ids in ascending order are distinct, so the number of rows equals the number of ids |
| RecipeModel.LookupFindsOnlyRow | src/models/Recipe.js:56-59 | with ids in ascending order, `WHERE id = ?` reads back the only row with that id: any stored row with the id is the one returned, with its ingredients |
| RecipeModel.RecipeStore.constructor | src/models/Recipe.js:6-36 | the tables start empty and both AUTOINCREMENT counters start at 1 |
| RecipeModel.RecipeStore.GetRecipeIngredients | src/models/Recipe.js:142-150 | returns exactly the rows of that recipe, in ascending id order |
| RecipeModel.RecipeStore.FindById | src/models/Recipe.js:56-65 | null exactly when no recipe has that id. Otherwise the stored row with that id and exactly its ingredients |
| RecipeModel.RecipeStore.FindAll | src/models/Recipe.js:38-54 | one view per recipe row, in ascending id order, each with exactly that recipe's ingredients |
| RecipeModel.RecipeStore.Count | src/models/Recipe.js:137-140 | the number of recipe rows, which is also the number of distinct ids |
| RecipeModel.RecipeStore.AddIngredient | src/models/Recipe.js:152-159 | on a constraint error, nothing changes. Otherwise one row with the next ingredient id is appended, with falsy quantity, unit and prep_time stored as NULL |
| RecipeModel.RecipeStore.RemoveIngredient | src/models/Recipe.js:161-167 | deletes the row matching both ids. Reports 1 change if one matched and 0 otherwise, and nothing changes when none matched |
| RecipeModel.RecipeStore.ClearRecipeIngredients | src/models/Recipe.js:169-172 | deletes exactly that recipe's ingredient rows and reports how many |
| RecipeModel.RecipeStore.InsertEach | src/models/Recipe.js:77-81 | inserts the items in order up to the first rejected one, with consecutive ids. Reports that item's error |
| RecipeModel.RecipeStore.Create | src/models/Recipe.js:67-84 | a rejected name changes nothing. Otherwise: the row gets the next id, falsy description and instructions become NULL, and the items up to the first rejected one are inserted. Returns the new recipe with exactly those ingredients, or the ingredient error |
| RecipeModel.RecipeStore.Update | src/models/Recipe.js:86-129 | a rejected UPDATE changes nothing. Defined fields are written as `UpdateFields` says. An array replaces the ingredient list (partially, up to a rejected item). Anything else leaves it alone. The recipe is read back |
| RecipeModel.RecipeStore.Delete | src/models/Recipe.js:131-135 | returns true exactly when the id existed. Removes that row and, by cascade, its ingredients. Nothing changes otherwise |
| RecipeService.FindByName | src/services/recipeService.js:13 | finds a recipe exactly when one has the given name. What it returns has that name |
| RecipeService.FirstMissingProductName | src/services/recipeService.js:24-29 | the index of the first item with a falsy product_name, or none when every item has one |
| RecipeService.IngredientsRejection | src/services/recipeService.js:19-31 | an array is rejected when it is empty, or at the 1-based position of its first item without a product name. A value that is not an array is never rejected |
| RecipeService.CreateRejection | src/services/recipeService.js:11-31 | a taken name is rejected as a duplicate, before the ingredients are looked at. A free name gets the ingredient checks |
| RecipeService.UpdateRejection | src/services/recipeService.js:44-61 | a duplicate exactly when the new name is truthy, differs from the current name and is taken. In every other case, a rename to a free name included, the result is the ingredient checks' result |
| RecipeService.NameTakenInTable | src/services/recipeService.js:13 | searching the views `findAll` returns is the same as searching the recipe rows |
| RecipeService.GetAllRecipes | src/services/recipeService.js:3-5 | every recipe in ascending id order, each with its ingredients |
| RecipeService.GetRecipeById | src/services/recipeService.js:7-9 | null exactly when the id is absent. Otherwise the recipe with that id |
| RecipeService.CreateRecipe | src/services/recipeService.js:11-35 | a rejected request changes nothing. A missing name fails on NOT NULL. Otherwise the recipe row with the next id and all its ingredients, with consecutive ids, are inserted and returned. Both counters advance by what was inserted |
| RecipeService.UpdateRecipe | src/services/recipeService.js:37-64 | an absent id returns null and changes nothing. A rejected request changes nothing. Otherwise the fields are written as `UpdateFields` says, an array replaces the ingredient list, and the result is exactly what `findById` reads back: the stored row with exactly its ingredients. The recipe counter stays; the ingredient counter advances by the rows inserted |
| RecipeService.DeleteRecipe | src/services/recipeService.js:67-69 | true exactly when the recipe existed. Afterwards neither it nor its ingredients remain, every other row is kept, and neither counter moves |
| RecipeService.AddRecipeIngredient | src/services/recipeService.js:72-84 | an unknown recipe, or an item with a falsy product_name, is rejected and nothing changes. Otherwise one row with the next ingredient id is appended, and the result is exactly what `findById` reads back: the stored recipe row with its list ending in the new row |
| RecipeService.RemoveRecipeIngredient | src/services/recipeService.js:87-95 | an unknown recipe is rejected. The row matching both ids is removed and the result is exactly what `findById` reads back. An ingredient id of another recipe changes nothing and returns the recipe as it was. Neither counter moves |
| RecipeService.CreateRejectionAsWritten | src/services/recipeService.js:13-15 | as written, the duplicate check always throws a ReferenceError |
| RecipeService.UpdateRejectionAsWritten | src/services/recipeService.js:38 | as written, the destructuring always throws a ReferenceError |
| RecipeService.CreateAsWrittenRejectsFirstRecipe | src/services/recipeService.js:13-15 | on an empty store, a valid first recipe is rejected as written and accepted by the intended check |
| RecipeService.UpdateAsWrittenRejectsRename | src/services/recipeService.js:37-38 | renaming an existing recipe to a free name is rejected as written and accepted by the intended check |

## Left out

- Database I/O is not modelled: the connection, `createTable`, `createRecipeIngredientsTable` and their console output. The schema is modelled as the predicate `Consistent` and the store's constructor.
- `seed` is not modelled. It only calls `count` and `create` on fixed sample data.
- HTTP routes, controllers and the server are not part of this model.
- Timestamps are not modelled as times. `created_at` is dropped. `updated_at` is reduced to the `touched` flag.
- Message strings are not modelled. Each thrown message is a `ServiceError` constructor, so the two spellings of the empty-ingredients message in create and update are not kept apart.
- A JavaScript value of another type in a field is not modelled, for example a number as a name or an object as a product name. `quantity` is a real; NaN and floating-point rounding are left out.
- Ids are natural numbers. The coercion of string ids coming from HTTP is left out.
- RecipeModel.RecipeStore.GetRecipeIngredients: the view keeps `recipe_id` on each ingredient row, while the SELECT lists only id, product_name, quantity, unit and prep_time. The extra column equals the requested id.
- The store's `RunResult` objects are reduced to the new row id (`AddIngredient`) or the number of changed rows (`RemoveIngredient`, `ClearRecipeIngredients`).
- Concurrent requests are not modelled. Every operation runs to completion on its own.
- RecipeService.FindByName: does not state that the match is the first one in id order. Only whether a match exists is used, and names are unique.

## Findings

| source | as written | input that shows it | evidently intended | confidence | as-written member | corrected member |
|---|---|---|---|---|---|---|
| src/services/recipeService.js:13-15 | line 13 binds `exisingRecipe` and line 15 tests the undeclared `existingRecipe`, so every call throws a ReferenceError | `createRecipe({ name: "Soup", ingredients: [{ product_name: "Water", quantity: 1, unit: "L" }] })` on an empty store | reject only a name that another recipe already has | high; not executed | RecipeService.CreateRejectionAsWritten, shown by RecipeService.CreateAsWrittenRejectsFirstRecipe | RecipeService.CreateRejection, used by RecipeService.CreateRecipe |
| src/services/recipeService.js:38 | destructures the undeclared `recipeDAta` instead of the parameter `recipeData`, so every call throws a ReferenceError | `updateRecipe(1, { name: "Broth" })` where recipe 1 is "Soup" | read the fields of the `recipeData` argument | high; not executed | RecipeService.UpdateRejectionAsWritten, shown by RecipeService.UpdateAsWrittenRejectsRename | RecipeService.UpdateRejection, used by RecipeService.UpdateRecipe |
