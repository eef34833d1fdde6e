/** The validation layer of src/services/recipeService.js: pure checks on the
    request (name collision, non-empty ingredient array, a product name on every
    ingredient) and the service calls, which run every check before the first
    write to the store. */
module RecipeService {
  import opened Values
  import opened Tables
  import opened RecipeModel

  /** The service's failures, by the message each throws. */
  datatype ServiceError =
    | DuplicateName                      // "Recipe with this name already exists"
    | NoIngredients                      // "Recipe must have at least one ingredient"
    | MissingProductName(position: nat)  // "Ingredient {position} must have a product name", 1-based
    | IngredientWithoutName              // "Ingredient must have a product name"
    | RecipeNotFound                     // "Recipe not found"
    | ReferenceError(identifier: string) // an undeclared variable is read
    | Persistence(cause: StoreError)     // the store rejected the statement

  /** Some recipe's name is exactly (`===`) the given value. */
  predicate NameTaken(all: seq<RecipeView>, name: Js<string>) {
    exists v :: v in all && name == Of(v.recipe.name)
  }

  /** `findAll().find(r => r.name === name)`: the first recipe with that name. */
  function FindByName(all: seq<RecipeView>, name: Js<string>): (r: Option<RecipeView>)
    ensures r.Some? <==> NameTaken(all, name)
    ensures r.Some? ==> r.value in all && name == Of(r.value.recipe.name)
  {
    if all == [] then None
    else if name == Of(all[0].recipe.name) then Some(all[0])
    else
      var rest := FindByName(all[1..], name);
      assert forall v :: v in all ==> v == all[0] || v in all[1..];
      rest
  }

  /** The index at which `forEach` first meets a falsy product_name, if any. */
  function FirstMissingProductName(xs: seq<IngredientInput>): (k: Option<nat>)
    ensures k.None? <==> forall i :: 0 <= i < |xs| ==> TextTruthy(xs[i].productName)
    ensures k.Some? ==> && k.value < |xs| && !TextTruthy(xs[k.value].productName)
                        && forall i :: 0 <= i < k.value ==> TextTruthy(xs[i].productName)
  {
    if xs == [] then None
    else if !TextTruthy(xs[0].productName) then Some(0)
    else match FirstMissingProductName(xs[1..])
      case None => None
      case Some(k) => Some(k + 1)
  }

  /** The ingredient checks shared by `createRecipe` and `updateRecipe`: an
      array must be non-empty and every item needs a truthy product_name; the
      first offender is reported with its 1-based position. A value that is not
      an array is not checked. */
  function IngredientsRejection(arg: IngredientsArg): (e: Option<ServiceError>)
    ensures e.None? <==> (arg.List? ==> arg.items != [] && forall i :: 0 <= i < |arg.items| ==> TextTruthy(arg.items[i].productName))
    ensures e.Some? ==> arg.List? && (e.value == NoIngredients <==> arg.items == [])
    ensures e.Some? ==> e.value.NoIngredients? || e.value.MissingProductName?
    ensures e.Some? && e.value.MissingProductName? ==>
              var p := e.value.position;
              && 1 <= p <= |arg.items|
              && !TextTruthy(arg.items[p - 1].productName)
              && forall i :: 0 <= i < p - 1 ==> TextTruthy(arg.items[i].productName)
  {
    if !arg.List? then None
    else if |arg.items| == 0 then Some(NoIngredients)
    else match FirstMissingProductName(arg.items)
      case None => None
      case Some(k) => Some(MissingProductName(k + 1))
  }

  /** The checks of `createRecipe`, name collision first. */
  function CreateRejection(all: seq<RecipeView>, data: RecipeData): (e: Option<ServiceError>)
    ensures e == Some(DuplicateName) <==> NameTaken(all, data.name)
    ensures !NameTaken(all, data.name) ==> e == IngredientsRejection(data.ingredients)
  {
    if FindByName(all, data.name).Some? then Some(DuplicateName)
    else IngredientsRejection(data.ingredients)
  }

  /** The checks of `updateRecipe` on an existing recipe: the name is checked
      only when it is truthy and differs from the current one. */
  function UpdateRejection(current: RecipeRow, all: seq<RecipeView>, data: RecipeData): (e: Option<ServiceError>)
    ensures e == Some(DuplicateName) <==>
              TextTruthy(data.name) && data.name.v != current.name && NameTaken(all, data.name)
    ensures !(TextTruthy(data.name) && data.name.v != current.name && NameTaken(all, data.name)) ==>
              e == IngredientsRejection(data.ingredients)
    ensures e.None? ==> IngredientsRejection(data.ingredients).None?
  {
    if TextTruthy(data.name) && data.name.v != current.name && FindByName(all, data.name).Some? then Some(DuplicateName)
    else IngredientsRejection(data.ingredients)
  }

  /** The names the service sees through `findAll` are the names in the table. */
  lemma NameTakenInTable(rs: seq<RecipeRow>, ings: seq<IngredientRow>, name: Js<string>)
    ensures NameTaken(AllViews(rs, ings), name) <==> exists r :: r in rs && name == Of(r.name)
  {
    var all := AllViews(rs, ings);
    if NameTaken(all, name) {
      var v :| v in all && name == Of(v.recipe.name);
      var i :| 0 <= i < |all| && all[i] == v;
      assert rs[i] in rs;
    }
    if exists r :: r in rs && name == Of(r.name) {
      var r :| r in rs && name == Of(r.name);
      var i :| 0 <= i < |rs| && rs[i] == r;
      assert all[i] in all;
    }
  }

  /** The row of an existing recipe. */
  function CurrentRow(rs: seq<RecipeRow>, id: nat): RecipeRow
    requires HasId(rs, id)
  {
    rs[IndexOf(rs, id).value]
  }

  /** `getAllrecipes`. */
  method GetAllRecipes(store: RecipeStore) returns (r: seq<RecipeView>)
    requires store.Valid()
    ensures |r| == |store.recipes|
    ensures forall i :: 0 <= i < |r| ==> r[i].recipe == store.recipes[i] && r[i].ingredients == IngredientsOf(store.ingredients, store.recipes[i].id)
    ensures forall i, j :: 0 <= i < j < |r| ==> r[i].recipe.id < r[j].recipe.id
  {
    r := store.FindAll();
  }

  /** `getRecipeById`. */
  method GetRecipeById(store: RecipeStore, id: nat) returns (r: Option<RecipeView>)
    requires store.Valid()
    ensures r.None? <==> !HasId(store.recipes, id)
    ensures r.Some? ==> && r.value.recipe in store.recipes && r.value.recipe.id == id
                        && r.value.ingredients == IngredientsOf(store.ingredients, id)
  {
    r := store.FindById(id);
  }

  /** `createRecipe` with the collision check it evidently intends (the code
      as written reads an undeclared variable; see CreateRejectionAsWritten).
      A rejected request leaves the store unchanged; an accepted one creates
      the recipe with exactly the supplied ingredients. */
  method CreateRecipe(store: RecipeStore, data: RecipeData) returns (r: Result<RecipeView, ServiceError>)
    requires store.Valid()
    modifies store
    ensures store.Valid()
    ensures CreateRejection(AllViews(old(store.recipes), old(store.ingredients)), data).Some? ==>
              r == Err(CreateRejection(AllViews(old(store.recipes), old(store.ingredients)), data).value)
              && unchanged(store)
    ensures CreateRejection(AllViews(old(store.recipes), old(store.ingredients)), data).None? && !data.name.Of? ==>
              r == Err(Persistence(NotNull(RecipeNameColumn))) && unchanged(store)
    ensures CreateRejection(AllViews(old(store.recipes), old(store.ingredients)), data).None? && data.name.Of? ==>
              var id := old(store.nextRecipeId);
              var added := NewRows(id, ItemsOf(data.ingredients), old(store.nextIngredientId));
              && r == Ok(RecipeView(NewRecipe(id, data), added))
              && store.recipes == old(store.recipes) + [NewRecipe(id, data)]
              && store.ingredients == old(store.ingredients) + added
              && store.nextRecipeId == id + 1
              && store.nextIngredientId == old(store.nextIngredientId) + |ItemsOf(data.ingredients)|
  {
    var all := store.FindAll();
    var rejection := CreateRejection(all, data);
    if rejection.Some? {
      return Err(rejection.value);
    }
    NameTakenInTable(store.recipes, store.ingredients, data.name);
    ghost var xs := ItemsOf(data.ingredients);
    assert FirstUnbindable(xs) == |xs|;
    assert xs[..|xs|] == xs;
    var created := store.Create(data);
    match created
    case Ok(view) => r := Ok(view);
    case Err(e) => r := Err(Persistence(e));
  }

  /** `updateRecipe` as it evidently intends to read its argument (the code as
      written reads an undeclared variable; see UpdateRejectionAsWritten).
      A missing recipe yields `null`, a rejected request leaves the store
      unchanged, and a supplied ingredient array replaces the list. */
  method UpdateRecipe(store: RecipeStore, id: nat, data: RecipeData) returns (r: Result<Option<RecipeView>, ServiceError>)
    requires store.Valid()
    modifies store
    ensures store.Valid()
    ensures !HasId(old(store.recipes), id) ==> r == Ok(None) && unchanged(store)
    ensures HasId(old(store.recipes), id) ==>
              var rejection := UpdateRejection(CurrentRow(old(store.recipes), id), AllViews(old(store.recipes), old(store.ingredients)), data);
              rejection.Some? ==> r == Err(rejection.value) && unchanged(store)
    ensures HasId(old(store.recipes), id)
            && UpdateRejection(CurrentRow(old(store.recipes), id), AllViews(old(store.recipes), old(store.ingredients)), data).None? ==>
              var f := UpdateFields(old(store.recipes), id, data);
              && (f.Err? ==> r == Err(Persistence(f.error)) && unchanged(store))
              && (f.Ok? ==> && store.recipes == f.value
                            && store.nextRecipeId == old(store.nextRecipeId)
                            && r == Ok(Lookup(store.recipes, store.ingredients, id))
                            && r.value.Some?
                            && (data.ingredients.List? ==>
                                  var added := NewRows(id, data.ingredients.items, old(store.nextIngredientId));
                                  && store.ingredients == Filter(old(store.ingredients), NotOwnedBy(id)) + added
                                  && store.nextIngredientId == old(store.nextIngredientId) + |data.ingredients.items|
                                  && r.value.value.ingredients == added)
                            && (!data.ingredients.List? ==>
                                  && store.ingredients == old(store.ingredients)
                                  && store.nextIngredientId == old(store.nextIngredientId)
                                  && r.value.value.ingredients == IngredientsOf(old(store.ingredients), id)))
  {
    var existing := store.FindById(id);
    if existing.None? {
      return Ok(None);
    }
    if TextTruthy(data.name) && data.name.v != existing.value.recipe.name {
      var all := store.FindAll();
      if FindByName(all, data.name).Some? {
        return Err(DuplicateName);
      }
    }
    var rejection := IngredientsRejection(data.ingredients);
    if rejection.Some? {
      return Err(rejection.value);
    }
    if data.ingredients.List? {
      ghost var xs := data.ingredients.items;
      assert FirstUnbindable(xs) == |xs|;
      assert xs[..|xs|] == xs;
    }
    var updated := store.Update(id, data);
    match updated
    case Ok(view) => r := Ok(view);
    case Err(e) => r := Err(Persistence(e));
  }

  /** `deleteRecipe`: true exactly when the recipe existed; its ingredients go with it. */
  method DeleteRecipe(store: RecipeStore, id: nat) returns (deleted: bool)
    requires store.Valid()
    modifies store
    ensures store.Valid()
    ensures deleted == HasId(old(store.recipes), id)
    ensures !HasId(store.recipes, id)
    ensures forall x :: x in store.ingredients ==> x.recipeId != id
    ensures store.recipes == Filter(old(store.recipes), NotId(id))
    ensures store.ingredients == Filter(old(store.ingredients), NotOwnedBy(id))
    ensures store.nextRecipeId == old(store.nextRecipeId) && store.nextIngredientId == old(store.nextIngredientId)
  {
    deleted := store.Delete(id);
  }

  /** `addRecipeIngredient`: the recipe must exist and the ingredient needs a
      truthy product_name; then exactly one ingredient is appended. */
  method AddRecipeIngredient(store: RecipeStore, rid: nat, x: IngredientInput) returns (r: Result<RecipeView, ServiceError>)
    requires store.Valid()
    modifies store
    ensures store.Valid()
    ensures !HasId(old(store.recipes), rid) ==> r == Err(RecipeNotFound) && unchanged(store)
    ensures HasId(old(store.recipes), rid) && !TextTruthy(x.productName) ==> r == Err(IngredientWithoutName) && unchanged(store)
    ensures HasId(old(store.recipes), rid) && TextTruthy(x.productName) ==>
              var row := NewIngredient(old(store.nextIngredientId), rid, x);
              && store.recipes == old(store.recipes)
              && store.ingredients == old(store.ingredients) + [row]
              && store.nextRecipeId == old(store.nextRecipeId)
              && store.nextIngredientId == old(store.nextIngredientId) + 1
              && r == Ok(Lookup(store.recipes, store.ingredients, rid).value)
              && r.value.ingredients == IngredientsOf(old(store.ingredients), rid) + [row]
  {
    var recipe := store.FindById(rid);
    if recipe.None? {
      return Err(RecipeNotFound);
    }
    if !TextTruthy(x.productName) {
      return Err(IngredientWithoutName);
    }
    ghost var ings0, ni0 := store.ingredients, store.nextIngredientId;
    var _ := store.AddIngredient(rid, x);
    AppendIngredient(ings0, NewIngredient(ni0, rid, x), rid);
    var found := store.FindById(rid);
    r := Ok(found.value);
  }

  /** `removeRecipeIngredient`: the recipe must exist; the ingredient is
      removed only when it belongs to that recipe, otherwise nothing changes. */
  method RemoveRecipeIngredient(store: RecipeStore, rid: nat, iid: nat) returns (r: Result<RecipeView, ServiceError>)
    requires store.Valid()
    modifies store
    ensures store.Valid()
    ensures !HasId(old(store.recipes), rid) ==> r == Err(RecipeNotFound) && unchanged(store)
    ensures HasId(old(store.recipes), rid) ==>
              && store.recipes == old(store.recipes)
              && store.ingredients == Filter(old(store.ingredients), NotRow(iid, rid))
              && store.nextRecipeId == old(store.nextRecipeId)
              && store.nextIngredientId == old(store.nextIngredientId)
              && r == Ok(Lookup(store.recipes, store.ingredients, rid).value)
              && r.value.ingredients == IngredientsOf(store.ingredients, rid)
    ensures HasId(old(store.recipes), rid) && !(exists x :: x in old(store.ingredients) && x.id == iid && x.recipeId == rid) ==>
              unchanged(store)
    ensures HasId(old(store.recipes), rid) && !(exists x :: x in old(store.ingredients) && x.id == iid && x.recipeId == rid) ==>
              r == Ok(Lookup(old(store.recipes), old(store.ingredients), rid).value)
  {
    var recipe := store.FindById(rid);
    if recipe.None? {
      return Err(RecipeNotFound);
    }
    var _ := store.RemoveIngredient(rid, iid);
    var found := store.FindById(rid);
    r := Ok(found.value);
  }

  // The code as written.

  /** `createRecipe` as written: line 13 binds `exisingRecipe`, line 15 tests
      `existingRecipe`, which is declared nowhere, so every call throws a
      ReferenceError after the read-only `findAll` and before any write. */
  function CreateRejectionAsWritten(all: seq<RecipeView>, data: RecipeData): (e: Option<ServiceError>)
    ensures e.Some? && e.value.ReferenceError?
  {
    Some(ReferenceError("existingRecipe"))
  }

  /** `updateRecipe` as written: line 38 destructures `recipeDAta`, which is
      declared nowhere, so every call throws a ReferenceError before it even
      looks the recipe up. */
  function UpdateRejectionAsWritten(current: RecipeRow, all: seq<RecipeView>, data: RecipeData): (e: Option<ServiceError>)
    ensures e.Some? && e.value.ReferenceError?
  {
    Some(ReferenceError("recipeDAta"))
  }

  function Soup(): RecipeData {
    RecipeData(Of("Soup"), Undefined, Undefined,
               List([IngredientInput(Of("Water"), Of(1.0), Of("L"), Undefined)]))
  }

  /** A first recipe "Soup" on an empty store passes every intended check of
      `createRecipe`, yet the code as written rejects it. */
  lemma CreateAsWrittenRejectsFirstRecipe()
    ensures CreateRejection([], Soup()) == None
    ensures CreateRejectionAsWritten([], Soup()) != CreateRejection([], Soup())
  {
    assert TextTruthy(Soup().ingredients.items[0].productName);
  }

  /** Renaming the one recipe "Soup" to "Broth" passes every intended check of
      `updateRecipe`, yet the code as written rejects it. */
  lemma UpdateAsWrittenRejectsRename()
    ensures var soup := NewRecipe(1, Soup());
            var broth := RecipeData(Of("Broth"), Undefined, Undefined, Omitted);
            && UpdateRejection(soup, [RecipeView(soup, [])], broth) == None
            && UpdateRejectionAsWritten(soup, [RecipeView(soup, [])], broth) != UpdateRejection(soup, [RecipeView(soup, [])], broth)
  {
    var soup := NewRecipe(1, Soup());
    assert !NameTaken([RecipeView(soup, [])], Of("Broth")) by {
      assert "Soup" != "Broth";
    }
  }

  /** Two request sequences, as consequences of the contracts above: a second
      "Soup" is a duplicate and changes nothing, and an update of the store
      with an empty array empties the ingredient list. */
  method SoupScenario() {
    var store := new RecipeStore();
    var first := CreateRecipe(store, Soup());
    assert first.Ok? && |first.value.ingredients| == 1;
    var id := first.value.recipe.id;
    var second := CreateRecipe(store, Soup());
    assert NameTaken(AllViews(store.recipes, store.ingredients), Soup().name) by {
      NameTakenInTable(store.recipes, store.ingredients, Soup().name);
      assert store.recipes[0] in store.recipes;
    }
    assert second == Err(DuplicateName);
    assert |store.recipes| == 1;
    var emptied := store.Update(id, RecipeData(Undefined, Undefined, Undefined, List([])));
    assert emptied.Ok? && emptied.value.Some? && emptied.value.value.ingredients == [];
  }
}
