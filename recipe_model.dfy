/** The recipe store: the `recipes` and `recipe_ingredients` tables and the
    data-access operations of src/models/Recipe.js. Each SQL statement is one
    table operation: an insert with a fresh AUTOINCREMENT id, a filtering
    DELETE, a field-overwriting UPDATE, or a SELECT ordered by id. Rows are kept
    in ascending id order, so `ORDER BY id` is the order of the sequence. */
module RecipeModel {
  import opened Values
  import opened Tables

  const RecipeNameColumn := "recipes.name"
  const ProductNameColumn := "recipe_ingredients.product_name"

  /** A row of `recipes`; `touched` stands for `updated_at` having been
      rewritten by an UPDATE since the row was inserted. */
  datatype RecipeRow = RecipeRow(
    id: nat,
    name: string,
    description: Option<string>,
    instructions: Option<string>,
    touched: bool)

  /** A row of `recipe_ingredients`. */
  datatype IngredientRow = IngredientRow(
    id: nat,
    recipeId: nat,
    productName: string,
    quantity: Option<real>,
    unit: Option<string>,
    prepTime: Option<int>)

  /** An ingredient object as the caller passes it. */
  datatype IngredientInput = IngredientInput(
    productName: Js<string>,
    quantity: Js<real>,
    unit: Js<string>,
    prepTime: Js<int>)

  /** The `ingredients` argument: any falsy value, a truthy value that is not an
      array, or an array (always truthy, even when empty). */
  datatype IngredientsArg = Omitted | NotArray | List(items: seq<IngredientInput>)

  /** The `recipeData` object taken by `create` and `update`. */
  datatype RecipeData = RecipeData(
    name: Js<string>,
    description: Js<string>,
    instructions: Js<string>,
    ingredients: IngredientsArg)

  /** A recipe row with its `ingredients` attached, as the reads return it. */
  datatype RecipeView = RecipeView(recipe: RecipeRow, ingredients: seq<IngredientRow>)

  /** A statement rejected by SQLite: a NOT NULL or UNIQUE constraint on the
      named column, or the foreign key from `recipe_ingredients` to `recipes`. */
  datatype StoreError = NotNull(column: string) | Unique(column: string) | ForeignKey

  // Key order, uniqueness and the WHERE clauses of the statements.

  function RecipeIdBefore(a: RecipeRow, b: RecipeRow): bool { a.id < b.id }
  function NamesDiffer(a: RecipeRow, b: RecipeRow): bool { a.name != b.name }
  function IngredientIdBefore(a: IngredientRow, b: IngredientRow): bool { a.id < b.id }

  function OwnedBy(rid: nat): IngredientRow -> bool { (x: IngredientRow) => x.recipeId == rid }
  function NotOwnedBy(rid: nat): IngredientRow -> bool { (x: IngredientRow) => x.recipeId != rid }
  function NotRow(iid: nat, rid: nat): IngredientRow -> bool { (x: IngredientRow) => !(x.id == iid && x.recipeId == rid) }
  function NotId(id: nat): RecipeRow -> bool { (r: RecipeRow) => r.id != id }

  predicate HasId(rs: seq<RecipeRow>, id: nat) {
    exists r :: r in rs && r.id == id
  }

  function IdsOf(rs: seq<RecipeRow>): set<nat> {
    set r | r in rs :: r.id
  }

  /** The schema constraints of both tables, with foreign keys enforced:
      ids are positive, strictly increasing and below the next AUTOINCREMENT
      value; recipe names are unique; every ingredient's owner exists. */
  ghost predicate Consistent(rs: seq<RecipeRow>, ings: seq<IngredientRow>, nextRecipeId: nat, nextIngredientId: nat) {
    && 0 < nextRecipeId && 0 < nextIngredientId
    && Pairwise(rs, RecipeIdBefore)
    && Pairwise(rs, NamesDiffer)
    && Pairwise(ings, IngredientIdBefore)
    && (forall r :: r in rs ==> 0 < r.id < nextRecipeId)
    && (forall x :: x in ings ==> 0 < x.id < nextIngredientId && HasId(rs, x.recipeId))
  }

  // Reads.

  /** `SELECT ... FROM recipe_ingredients WHERE recipe_id = ? ORDER BY id`. */
  function IngredientsOf(ings: seq<IngredientRow>, rid: nat): seq<IngredientRow> {
    Filter(ings, OwnedBy(rid))
  }

  /** Position of the row `WHERE id = ?`, if there is one. */
  function IndexOf(rs: seq<RecipeRow>, id: nat): (k: Option<nat>)
    ensures k.Some? ==> k.value < |rs| && rs[k.value].id == id
    ensures k.None? <==> !HasId(rs, id)
  {
    if rs == [] then None
    else if rs[0].id == id then Some(0)
    else match IndexOf(rs[1..], id)
      case None =>
        assert forall r :: r in rs ==> r == rs[0] || r in rs[1..];
        None
      case Some(k) => Some(k + 1)
  }

  function ViewOf(row: RecipeRow, ings: seq<IngredientRow>): RecipeView {
    RecipeView(row, IngredientsOf(ings, row.id))
  }

  /** What `findById` returns: `null`, or the row with its ingredients. */
  function Lookup(rs: seq<RecipeRow>, ings: seq<IngredientRow>, id: nat): (r: Option<RecipeView>)
    ensures r.None? <==> !HasId(rs, id)
    ensures r.Some? ==> r.value.recipe in rs && r.value.recipe.id == id
                        && r.value.ingredients == IngredientsOf(ings, id)
  {
    match IndexOf(rs, id)
    case None => None
    case Some(k) => Some(ViewOf(rs[k], ings))
  }

  /** What `findAll` returns. */
  function AllViews(rs: seq<RecipeRow>, ings: seq<IngredientRow>): seq<RecipeView> {
    seq(|rs|, i requires 0 <= i < |rs| => ViewOf(rs[i], ings))
  }

  // Inserts.

  /** Why `INSERT INTO recipes` rejects a name, if it does. */
  function InsertRecipeFailure(rs: seq<RecipeRow>, name: Js<string>): (e: Option<StoreError>)
    ensures e.None? <==> name.Of? && forall r :: r in rs ==> r.name != name.v
    ensures e.Some? ==> e.value == if name.Of? then Unique(RecipeNameColumn) else NotNull(RecipeNameColumn)
  {
    if !name.Of? then Some(NotNull(RecipeNameColumn))
    else if exists r :: r in rs && r.name == name.v then Some(Unique(RecipeNameColumn))
    else None
  }

  /** The row `create` inserts: falsy description and instructions become NULL. */
  function NewRecipe(id: nat, data: RecipeData): RecipeRow
    requires data.name.Of?
  {
    RecipeRow(id, data.name.v, TextOrNull(data.description), TextOrNull(data.instructions), false)
  }

  /** The ingredients `create` inserts: the array's items, or none at all. */
  function ItemsOf(arg: IngredientsArg): seq<IngredientInput> {
    if arg.List? then arg.items else []
  }

  /** An ingredient whose product_name can go into a NOT NULL column (even `""`). */
  predicate Bindable(x: IngredientInput) {
    x.productName.Of?
  }

  /** Number of leading items whose product_name is neither undefined nor null. */
  function FirstUnbindable(xs: seq<IngredientInput>): (k: nat)
    ensures k <= |xs|
    ensures forall i :: 0 <= i < k ==> Bindable(xs[i])
    ensures k < |xs| ==> !Bindable(xs[k])
  {
    if xs == [] || !Bindable(xs[0]) then 0 else 1 + FirstUnbindable(xs[1..])
  }

  /** The row `addIngredient` inserts: falsy quantity, unit and prep_time become NULL. */
  function NewIngredient(id: nat, rid: nat, x: IngredientInput): IngredientRow
    requires Bindable(x)
  {
    IngredientRow(id, rid, x.productName.v, RealOrNull(x.quantity), TextOrNull(x.unit), IntOrNull(x.prepTime))
  }

  /** The rows that inserting `xs` one by one adds, with ids from `first` on. */
  function NewRows(rid: nat, xs: seq<IngredientInput>, first: nat): (rows: seq<IngredientRow>)
    requires forall i :: 0 <= i < |xs| ==> Bindable(xs[i])
  {
    seq(|xs|, i requires 0 <= i < |xs| => NewIngredient(first + i, rid, xs[i]))
  }

  /** Why `INSERT INTO recipe_ingredients` rejects an item, if it does: the
      NOT NULL column is checked before the foreign key. */
  function AddFailure(hasRecipe: bool, x: IngredientInput): (e: Option<StoreError>)
    ensures e.None? <==> hasRecipe && Bindable(x)
  {
    if !Bindable(x) then Some(NotNull(ProductNameColumn))
    else if !hasRecipe then Some(ForeignKey)
    else None
  }

  /** How many items a `forEach(addIngredient)` loop inserts before one throws. */
  function InsertedCount(hasRecipe: bool, xs: seq<IngredientInput>): (k: nat)
    ensures k <= |xs|
    ensures forall i :: 0 <= i < k ==> AddFailure(hasRecipe, xs[i]).None?
    ensures k < |xs| ==> AddFailure(hasRecipe, xs[k]).Some?
  {
    if hasRecipe then FirstUnbindable(xs) else 0
  }

  /** The error that ends such a loop early, if one does. */
  function InsertFailure(hasRecipe: bool, xs: seq<IngredientInput>): (e: Option<StoreError>)
    ensures e.None? <==> InsertedCount(hasRecipe, xs) == |xs|
  {
    var k := InsertedCount(hasRecipe, xs);
    if k == |xs| then None else AddFailure(hasRecipe, xs[k])
  }

  // The UPDATE statement of `update`.

  /** Some field is not `undefined`, so `update` runs an UPDATE statement. */
  predicate FieldsGiven(data: RecipeData) {
    !data.name.Undefined? || !data.description.Undefined? || !data.instructions.Undefined?
  }

  /** A row after `SET name = ?, description = ?, instructions = ?,
      updated_at = CURRENT_TIMESTAMP` with only the defined fields set. */
  function Patch(row: RecipeRow, data: RecipeData): RecipeRow
    requires !data.name.Null?
  {
    RecipeRow(row.id,
              if data.name.Of? then data.name.v else row.name,
              Assign(data.description, row.description),
              Assign(data.instructions, row.instructions),
              true)
  }

  /** Why the UPDATE statement is rejected, if it is. It touches no row when
      the id is absent, and then no constraint can fail. */
  function PatchFailure(rs: seq<RecipeRow>, id: nat, name: Js<string>): Option<StoreError> {
    if !HasId(rs, id) then None
    else if name.Null? then Some(NotNull(RecipeNameColumn))
    else if name.Of? && exists r :: r in rs && r.id != id && r.name == name.v then Some(Unique(RecipeNameColumn))
    else None
  }

  /** `UPDATE recipes SET ... WHERE id = ?` applied to every matching row. */
  function PatchWhere(rs: seq<RecipeRow>, id: nat, data: RecipeData): seq<RecipeRow>
    requires PatchFailure(rs, id, data.name).None?
  {
    seq(|rs|, i requires 0 <= i < |rs| =>
      if rs[i].id == id then
        assert rs[i] in rs;
        Patch(rs[i], data)
      else rs[i])
  }

  /** The recipes table after the field part of `update`, or the constraint
      that rejects it. */
  function UpdateFields(rs: seq<RecipeRow>, id: nat, data: RecipeData): (f: Result<seq<RecipeRow>, StoreError>)
    ensures !FieldsGiven(data) || !HasId(rs, id) ==> f == Ok(rs)
    ensures f.Err? <==> FieldsGiven(data) && HasId(rs, id)
                        && (data.name.Null? || (data.name.Of? && exists r :: r in rs && r.id != id && r.name == data.name.v))
    ensures f.Ok? ==> |f.value| == |rs|
    ensures f.Ok? ==> forall i :: 0 <= i < |rs| ==> f.value[i].id == rs[i].id && (rs[i].id != id ==> f.value[i] == rs[i])
    ensures f.Ok? && FieldsGiven(data) ==> forall i :: 0 <= i < |rs| && rs[i].id == id ==>
              && f.value[i].name == (if data.name.Of? then data.name.v else rs[i].name)
              && f.value[i].description == Assign(data.description, rs[i].description)
              && f.value[i].instructions == Assign(data.instructions, rs[i].instructions)
              && f.value[i].touched
  {
    if !FieldsGiven(data) then Ok(rs)
    else match PatchFailure(rs, id, data.name)
      case Some(e) => Err(e)
      case None =>
        var patched := PatchWhere(rs, id, data);
        assert !HasId(rs, id) ==> patched == rs;
        Ok(patched)
  }

  // Lemmas: the constraints hold after each kind of write.

  lemma ConsistentInsertRecipe(rs: seq<RecipeRow>, ings: seq<IngredientRow>, nr: nat, ni: nat, row: RecipeRow)
    requires Consistent(rs, ings, nr, ni)
    requires row.id == nr
    requires forall r :: r in rs ==> r.name != row.name
    ensures Consistent(rs + [row], ings, nr + 1, ni)
  {
    PairwiseSnoc(rs, row, RecipeIdBefore);
    PairwiseSnoc(rs, row, NamesDiffer);
    forall x | x in ings ensures HasId(rs + [row], x.recipeId) {
      var r :| r in rs && r.id == x.recipeId;
      assert r in rs + [row];
    }
  }

  lemma ConsistentInsertIngredient(rs: seq<RecipeRow>, ings: seq<IngredientRow>, nr: nat, ni: nat, x: IngredientRow)
    requires Consistent(rs, ings, nr, ni)
    requires x.id == ni && HasId(rs, x.recipeId)
    ensures Consistent(rs, ings + [x], nr, ni + 1)
  {
    PairwiseSnoc(ings, x, IngredientIdBefore);
  }

  lemma ConsistentFilterIngredients(rs: seq<RecipeRow>, ings: seq<IngredientRow>, nr: nat, ni: nat, keep: IngredientRow -> bool)
    requires Consistent(rs, ings, nr, ni)
    ensures Consistent(rs, Filter(ings, keep), nr, ni)
  {
    FilterPairwise(ings, keep, IngredientIdBefore);
  }

  lemma ConsistentDelete(rs: seq<RecipeRow>, ings: seq<IngredientRow>, nr: nat, ni: nat, id: nat)
    requires Consistent(rs, ings, nr, ni)
    ensures Consistent(Filter(rs, NotId(id)), Filter(ings, NotOwnedBy(id)), nr, ni)
  {
    var rs', ings' := Filter(rs, NotId(id)), Filter(ings, NotOwnedBy(id));
    FilterPairwise(rs, NotId(id), RecipeIdBefore);
    FilterPairwise(rs, NotId(id), NamesDiffer);
    FilterPairwise(ings, NotOwnedBy(id), IngredientIdBefore);
    forall x | x in ings' ensures HasId(rs', x.recipeId) {
      var r :| r in rs && r.id == x.recipeId;
      assert r in rs';
    }
  }

  lemma ConsistentPatch(rs: seq<RecipeRow>, ings: seq<IngredientRow>, nr: nat, ni: nat, id: nat, data: RecipeData)
    requires Consistent(rs, ings, nr, ni)
    requires UpdateFields(rs, id, data).Ok?
    ensures Consistent(UpdateFields(rs, id, data).value, ings, nr, ni)
  {
    var rs' := UpdateFields(rs, id, data).value;
    forall i, j | 0 <= i < j < |rs'| ensures RecipeIdBefore(rs'[i], rs'[j]) && NamesDiffer(rs'[i], rs'[j]) {
      assert RecipeIdBefore(rs[i], rs[j]) && NamesDiffer(rs[i], rs[j]);
      if FieldsGiven(data) && data.name.Of? {
        if rs[i].id == id {
          assert rs[j] in rs;
        } else if rs[j].id == id {
          assert rs[i] in rs;
        }
      }
    }
    forall r | r in rs' ensures 0 < r.id < nr {
      var i :| 0 <= i < |rs'| && rs'[i] == r;
      assert rs[i] in rs;
    }
    forall x | x in ings ensures HasId(rs', x.recipeId) {
      var r :| r in rs && r.id == x.recipeId;
      var i :| 0 <= i < |rs| && rs[i] == r;
      assert rs'[i] in rs';
    }
  }

  // Lemmas: what the reads see after each kind of write.

  /** A recipe id that is not yet used owns no ingredient. */
  lemma FreshIdOwnsNothing(rs: seq<RecipeRow>, ings: seq<IngredientRow>, nr: nat, ni: nat)
    requires Consistent(rs, ings, nr, ni)
    ensures IngredientsOf(ings, nr) == []
  {
    forall x | x in ings ensures !OwnedBy(nr)(x) {
      var r :| r in rs && r.id == x.recipeId;
    }
    FilterDropsAll(ings, OwnedBy(nr));
  }

  /** Creating a recipe and reading it back yields the supplied ingredients,
      in input order, with consecutive fresh ids. */
  lemma ReadBackAfterCreate(rs: seq<RecipeRow>, ings: seq<IngredientRow>, nr: nat, ni: nat, xs: seq<IngredientInput>)
    requires Consistent(rs, ings, nr, ni)
    requires forall i :: 0 <= i < |xs| ==> Bindable(xs[i])
    ensures IngredientsOf(ings + NewRows(nr, xs, ni), nr) == NewRows(nr, xs, ni)
  {
    FilterAppend(ings, NewRows(nr, xs, ni), OwnedBy(nr));
    FreshIdOwnsNothing(rs, ings, nr, ni);
    FilterKeepsAll(NewRows(nr, xs, ni), OwnedBy(nr));
  }

  /** Replacing a recipe's ingredient list (clear, then insert) leaves exactly
      the new items on that recipe and every other recipe's list as it was. */
  lemma ReplaceIngredientList(ings: seq<IngredientRow>, id: nat, xs: seq<IngredientInput>, first: nat, other: nat)
    requires forall i :: 0 <= i < |xs| ==> Bindable(xs[i])
    ensures IngredientsOf(Filter(ings, NotOwnedBy(id)) + NewRows(id, xs, first), id) == NewRows(id, xs, first)
    ensures other != id ==>
      IngredientsOf(Filter(ings, NotOwnedBy(id)) + NewRows(id, xs, first), other) == IngredientsOf(ings, other)
  {
    var cleared, added := Filter(ings, NotOwnedBy(id)), NewRows(id, xs, first);
    ReplacedOwnList(cleared, added, id);
    if other != id {
      FilterAppend(cleared, added, OwnedBy(other));
      assert forall x :: x in added ==> x.recipeId == id;
      FilterDropsAll(added, OwnedBy(other));
      FilterOfFilter(ings, NotOwnedBy(id), OwnedBy(other));
    }
  }

  lemma ReplacedOwnList(cleared: seq<IngredientRow>, added: seq<IngredientRow>, id: nat)
    requires forall x :: x in cleared ==> x.recipeId != id
    requires forall x :: x in added ==> x.recipeId == id
    ensures IngredientsOf(cleared + added, id) == added
  {
    FilterAppend(cleared, added, OwnedBy(id));
    FilterDropsAll(cleared, OwnedBy(id));
    FilterKeepsAll(added, OwnedBy(id));
  }

  /** After a cascading delete no ingredient row refers to the deleted recipe,
      and every other recipe keeps its ingredient list. */
  lemma CascadeDelete(ings: seq<IngredientRow>, id: nat, other: nat)
    ensures forall x :: x in Filter(ings, NotOwnedBy(id)) ==> x.recipeId != id
    ensures IngredientsOf(Filter(ings, NotOwnedBy(id)), id) == []
    ensures other != id ==> IngredientsOf(Filter(ings, NotOwnedBy(id)), other) == IngredientsOf(ings, other)
  {
    FilterDropsAll(Filter(ings, NotOwnedBy(id)), OwnedBy(id));
    if other != id {
      FilterOfFilter(ings, NotOwnedBy(id), OwnedBy(other));
    }
  }

  /** Adding one ingredient appends it to its recipe's list and to no other. */
  lemma AppendIngredient(ings: seq<IngredientRow>, x: IngredientRow, other: nat)
    ensures IngredientsOf(ings + [x], x.recipeId) == IngredientsOf(ings, x.recipeId) + [x]
    ensures other != x.recipeId ==> IngredientsOf(ings + [x], other) == IngredientsOf(ings, other)
  {
    FilterAppend(ings, [x], OwnedBy(x.recipeId));
    FilterAppend(ings, [x], OwnedBy(other));
  }

  /** `DELETE FROM recipe_ingredients WHERE id = ? AND recipe_id = ?` removes
      the one matching row if there is one and nothing otherwise; no recipe
      other than `rid` sees a change. */
  lemma RemoveIngredientEffect(rs: seq<RecipeRow>, ings: seq<IngredientRow>, nr: nat, ni: nat, iid: nat, rid: nat, other: nat)
    requires Consistent(rs, ings, nr, ni)
    ensures |Filter(ings, NotRow(iid, rid))| ==
            |ings| - if exists x :: x in ings && x.id == iid && x.recipeId == rid then 1 else 0
    ensures other != rid ==> IngredientsOf(Filter(ings, NotRow(iid, rid)), other) == IngredientsOf(ings, other)
  {
    var keep := NotRow(iid, rid);
    FilterLength(ings, keep);
    forall i, j | 0 <= i < j < |ings| ensures keep(ings[i]) || keep(ings[j]) {
      assert IngredientIdBefore(ings[i], ings[j]);
    }
    FilterRemovesAtMostOne(ings, keep);
    if other != rid {
      FilterOfFilter(ings, keep, OwnedBy(other));
    }
  }

  /** `DELETE FROM recipes WHERE id = ?` removes one row exactly when the id exists. */
  lemma DeleteRemovesOne(rs: seq<RecipeRow>, id: nat)
    requires Pairwise(rs, RecipeIdBefore)
    ensures |Filter(rs, NotId(id))| == |rs| - if HasId(rs, id) then 1 else 0
  {
    var keep := NotId(id);
    FilterLength(rs, keep);
    forall i, j | 0 <= i < j < |rs| ensures keep(rs[i]) || keep(rs[j]) {
      assert RecipeIdBefore(rs[i], rs[j]);
    }
    FilterRemovesAtMostOne(rs, keep);
  }

  /** Ids are a key: there are as many distinct ids as rows. */
  /** With ids in ascending order, the row `findById` returns is the only
      row with that id. */
  lemma LookupFindsOnlyRow(rs: seq<RecipeRow>, ings: seq<IngredientRow>, id: nat)
    requires Pairwise(rs, RecipeIdBefore)
    ensures forall r :: r in rs && r.id == id ==> Lookup(rs, ings, id) == Some(ViewOf(r, ings))
  {
    forall r | r in rs && r.id == id ensures Lookup(rs, ings, id) == Some(ViewOf(r, ings)) {
      var k := IndexOf(rs, id).value;
      var j :| 0 <= j < |rs| && rs[j] == r;
      assert forall a, b :: 0 <= a < b < |rs| ==> rs[a].id < rs[b].id by {
        forall a, b | 0 <= a < b < |rs| ensures rs[a].id < rs[b].id {
          assert RecipeIdBefore(rs[a], rs[b]);
        }
      }
      assert rs[j].id == rs[k].id;
      assert j == k;
    }
  }

  lemma {:induction false} DistinctIds(rs: seq<RecipeRow>)
    requires Pairwise(rs, RecipeIdBefore)
    ensures |IdsOf(rs)| == |rs|
    decreases |rs|
  {
    if rs != [] {
      var tail := rs[1..];
      assert Pairwise(tail, RecipeIdBefore) by {
        forall i, j | 0 <= i < j < |tail| ensures RecipeIdBefore(tail[i], tail[j]) {
          assert RecipeIdBefore(rs[i + 1], rs[j + 1]);
        }
      }
      DistinctIds(tail);
      assert IdsOf(rs) == {rs[0].id} + IdsOf(tail) by {
        forall r | r in rs ensures r == rs[0] || r in tail {
          var i :| 0 <= i < |rs| && rs[i] == r;
          if i > 0 { assert tail[i - 1] == r; }
        }
      }
      assert rs[0].id !in IdsOf(tail) by {
        forall r | r in tail ensures r.id != rs[0].id {
          var i :| 0 <= i < |tail| && tail[i] == r;
          assert RecipeIdBefore(rs[0], rs[i + 1]);
        }
      }
    }
  }

  /** The two tables, mutated in place by the statements of Recipe.js. */
  class RecipeStore {
    var recipes: seq<RecipeRow>
    var ingredients: seq<IngredientRow>
    var nextRecipeId: nat
    var nextIngredientId: nat

    ghost predicate Valid()
      reads this
    {
      Consistent(recipes, ingredients, nextRecipeId, nextIngredientId)
    }

    /** Both tables freshly created and empty. */
    constructor ()
      ensures Valid()
      ensures recipes == [] && ingredients == []
      ensures nextRecipeId == 1 && nextIngredientId == 1
    {
      recipes, ingredients := [], [];
      nextRecipeId, nextIngredientId := 1, 1;
    }

    /** `getRecipeIngredients`: exactly the rows owned by `rid`, in ascending id order. */
    method GetRecipeIngredients(rid: nat) returns (r: seq<IngredientRow>)
      requires Valid()
      ensures r == IngredientsOf(ingredients, rid)
      ensures forall x :: x in r <==> x in ingredients && x.recipeId == rid
      ensures Pairwise(r, IngredientIdBefore)
    {
      r := Filter(ingredients, OwnedBy(rid));
      FilterPairwise(ingredients, OwnedBy(rid), IngredientIdBefore);
    }

    /** `findById`: `null` exactly when no row has the id; otherwise that row
        with its ingredients. */
    method FindById(id: nat) returns (r: Option<RecipeView>)
      requires Valid()
      ensures r == Lookup(recipes, ingredients, id)
      ensures r.None? <==> !HasId(recipes, id)
      ensures r.Some? ==> && r.value.recipe in recipes && r.value.recipe.id == id
                          && (forall x :: x in r.value.ingredients <==> x in ingredients && x.recipeId == id)
                          && Pairwise(r.value.ingredients, IngredientIdBefore)
    {
      var k := IndexOf(recipes, id);
      if k.None? {
        return None;
      }
      var items := GetRecipeIngredients(id);
      r := Some(RecipeView(recipes[k.value], items));
    }

    /** `findAll`: every recipe in ascending id order, each with its ingredients. */
    method FindAll() returns (r: seq<RecipeView>)
      requires Valid()
      ensures r == AllViews(recipes, ingredients)
      ensures |r| == |recipes|
      ensures forall i :: 0 <= i < |r| ==> r[i].recipe == recipes[i] && r[i].ingredients == IngredientsOf(ingredients, recipes[i].id)
      ensures forall i, j :: 0 <= i < j < |r| ==> r[i].recipe.id < r[j].recipe.id
    {
      r := [];
      for i := 0 to |recipes|
        invariant |r| == i
        invariant forall k :: 0 <= k < i ==> r[k] == ViewOf(recipes[k], ingredients)
      {
        var items := GetRecipeIngredients(recipes[i].id);
        r := r + [RecipeView(recipes[i], items)];
      }
      forall i, j | 0 <= i < j < |r| ensures r[i].recipe.id < r[j].recipe.id {
        assert RecipeIdBefore(recipes[i], recipes[j]);
      }
    }

    /** `count`: the number of recipes, one per distinct id. */
    method Count() returns (n: nat)
      requires Valid()
      ensures n == |recipes|
      ensures n == |IdsOf(recipes)|
    {
      n := |recipes|;
      DistinctIds(recipes);
    }

    /** `addIngredient`: inserts one row with a fresh id, or fails without
        writing when product_name is undefined/null or the recipe is absent. */
    method AddIngredient(rid: nat, x: IngredientInput) returns (r: Result<nat, StoreError>)
      requires Valid()
      modifies this
      ensures Valid()
      ensures recipes == old(recipes) && nextRecipeId == old(nextRecipeId)
      ensures AddFailure(HasId(old(recipes), rid), x).Some? ==>
                && r == Err(AddFailure(HasId(old(recipes), rid), x).value)
                && ingredients == old(ingredients) && nextIngredientId == old(nextIngredientId)
      ensures AddFailure(HasId(old(recipes), rid), x).None? ==>
                && r == Ok(old(nextIngredientId))
                && ingredients == old(ingredients) + [NewIngredient(old(nextIngredientId), rid, x)]
                && nextIngredientId == old(nextIngredientId) + 1
    {
      var failure := AddFailure(HasId(recipes, rid), x);
      if failure.Some? {
        return Err(failure.value);
      }
      var row := NewIngredient(nextIngredientId, rid, x);
      ConsistentInsertIngredient(recipes, ingredients, nextRecipeId, nextIngredientId, row);
      ingredients := ingredients + [row];
      r := Ok(nextIngredientId);
      nextIngredientId := nextIngredientId + 1;
    }

    /** `removeIngredient`: deletes the row matching both ids, if any, and
        returns the number of rows deleted. */
    method RemoveIngredient(rid: nat, iid: nat) returns (changes: nat)
      requires Valid()
      modifies this
      ensures Valid()
      ensures recipes == old(recipes) && nextRecipeId == old(nextRecipeId) && nextIngredientId == old(nextIngredientId)
      ensures ingredients == Filter(old(ingredients), NotRow(iid, rid))
      ensures changes == if exists x :: x in old(ingredients) && x.id == iid && x.recipeId == rid then 1 else 0
      ensures changes == 0 ==> unchanged(this)
    {
      var before := |ingredients|;
      if !exists x :: x in ingredients && x.id == iid && x.recipeId == rid {
        FilterKeepsAll(ingredients, NotRow(iid, rid));
      }
      RemoveIngredientEffect(recipes, ingredients, nextRecipeId, nextIngredientId, iid, rid, rid);
      ConsistentFilterIngredients(recipes, ingredients, nextRecipeId, nextIngredientId, NotRow(iid, rid));
      ingredients := Filter(ingredients, NotRow(iid, rid));
      changes := before - |ingredients|;
    }

    /** `clearRecipeIngredients`: deletes every row owned by `rid`. */
    method ClearRecipeIngredients(rid: nat) returns (changes: nat)
      requires Valid()
      modifies this
      ensures Valid()
      ensures recipes == old(recipes) && nextRecipeId == old(nextRecipeId) && nextIngredientId == old(nextIngredientId)
      ensures ingredients == Filter(old(ingredients), NotOwnedBy(rid))
      ensures changes == |IngredientsOf(old(ingredients), rid)|
    {
      var before := |ingredients|;
      FilterComplement(ingredients, OwnedBy(rid), NotOwnedBy(rid));
      ConsistentFilterIngredients(recipes, ingredients, nextRecipeId, nextIngredientId, NotOwnedBy(rid));
      ingredients := Filter(ingredients, NotOwnedBy(rid));
      changes := before - |ingredients|;
    }

    /** The `forEach(addIngredient)` loop of `create` and `update`: inserts the
        items in order and stops at the first one the table rejects, keeping
        the rows already inserted. */
    method InsertEach(rid: nat, xs: seq<IngredientInput>) returns (failure: Option<StoreError>)
      requires Valid()
      modifies this
      ensures Valid()
      ensures recipes == old(recipes) && nextRecipeId == old(nextRecipeId)
      ensures var k := InsertedCount(HasId(recipes, rid), xs);
              && ingredients == old(ingredients) + NewRows(rid, xs[..k], old(nextIngredientId))
              && nextIngredientId == old(nextIngredientId) + k
              && failure == InsertFailure(HasId(recipes, rid), xs)
    {
      ghost var k := InsertedCount(HasId(recipes, rid), xs);
      var i := 0;
      while i < |xs|
        invariant 0 <= i <= k
        invariant Valid() && recipes == old(recipes) && nextRecipeId == old(nextRecipeId)
        invariant ingredients == old(ingredients) + NewRows(rid, xs[..i], old(nextIngredientId))
        invariant nextIngredientId == old(nextIngredientId) + i
      {
        var added := AddIngredient(rid, xs[i]);
        if added.Err? {
          return Some(added.error);
        }
        assert NewRows(rid, xs[..i + 1], old(nextIngredientId))
            == NewRows(rid, xs[..i], old(nextIngredientId)) + [NewIngredient(old(nextIngredientId) + i, rid, xs[i])];
        i := i + 1;
      }
      return None;
    }

    /** `create`: inserts the recipe row with a fresh id, then its ingredients
        in input order, and reads the recipe back. */
    method Create(data: RecipeData) returns (r: Result<RecipeView, StoreError>)
      requires Valid()
      modifies this
      ensures Valid()
      ensures InsertRecipeFailure(old(recipes), data.name).Some? ==>
                r == Err(InsertRecipeFailure(old(recipes), data.name).value) && unchanged(this)
      ensures InsertRecipeFailure(old(recipes), data.name).None? ==>
                var id := old(nextRecipeId);
                var xs := ItemsOf(data.ingredients);
                var k := FirstUnbindable(xs);
                && recipes == old(recipes) + [NewRecipe(id, data)]
                && nextRecipeId == id + 1
                && ingredients == old(ingredients) + NewRows(id, xs[..k], old(nextIngredientId))
                && nextIngredientId == old(nextIngredientId) + k
                && r == if k == |xs| then Ok(RecipeView(NewRecipe(id, data), NewRows(id, xs, old(nextIngredientId))))
                        else Err(NotNull(ProductNameColumn))
    {
      var failure := InsertRecipeFailure(recipes, data.name);
      if failure.Some? {
        return Err(failure.value);
      }
      ghost var rs0, ings0, ni0 := recipes, ingredients, nextIngredientId;
      var id := nextRecipeId;
      var row := NewRecipe(id, data);
      ConsistentInsertRecipe(recipes, ingredients, nextRecipeId, nextIngredientId, row);
      recipes := recipes + [row];
      nextRecipeId := nextRecipeId + 1;
      assert row in recipes;
      ghost var xs := ItemsOf(data.ingredients);
      if data.ingredients.List? {
        var e := InsertEach(id, data.ingredients.items);
        if e.Some? {
          return Err(e.value);
        }
      }
      assert xs[..|xs|] == xs;
      ReadBackAfterCreate(rs0, ings0, id, ni0, xs);
      var found := FindById(id);
      r := Ok(found.value);
    }

    /** `update`: overwrites the fields that are not `undefined`, replaces the
        ingredient list when an array is supplied, and reads the recipe back. */
    method Update(id: nat, data: RecipeData) returns (r: Result<Option<RecipeView>, StoreError>)
      requires Valid()
      modifies this
      ensures Valid()
      ensures nextRecipeId == old(nextRecipeId)
      ensures UpdateFields(old(recipes), id, data).Err? ==>
                r == Err(UpdateFields(old(recipes), id, data).error) && unchanged(this)
      ensures UpdateFields(old(recipes), id, data).Ok? && !data.ingredients.List? ==>
                && recipes == UpdateFields(old(recipes), id, data).value
                && ingredients == old(ingredients) && nextIngredientId == old(nextIngredientId)
                && r == Ok(Lookup(recipes, ingredients, id))
      ensures UpdateFields(old(recipes), id, data).Ok? && data.ingredients.List? ==>
                var xs := data.ingredients.items;
                var k := InsertedCount(HasId(old(recipes), id), xs);
                && recipes == UpdateFields(old(recipes), id, data).value
                && ingredients == Filter(old(ingredients), NotOwnedBy(id)) + NewRows(id, xs[..k], old(nextIngredientId))
                && nextIngredientId == old(nextIngredientId) + k
                && r == (if k == |xs| then Ok(Lookup(recipes, ingredients, id))
                         else Err(InsertFailure(HasId(old(recipes), id), xs).value))
                && (k == |xs| && HasId(old(recipes), id) ==>
                      r.value.Some? && r.value.value.ingredients == NewRows(id, xs, old(nextIngredientId)))
    {
      if !FieldsGiven(data) && data.ingredients.Omitted? {
        var found := FindById(id);
        return Ok(found);
      }
      ghost var rs0, ings0, ni0 := recipes, ingredients, nextIngredientId;
      if FieldsGiven(data) {
        var failure := PatchFailure(recipes, id, data.name);
        if failure.Some? {
          return Err(failure.value);
        }
        ConsistentPatch(recipes, ingredients, nextRecipeId, nextIngredientId, id, data);
        recipes := PatchWhere(recipes, id, data);
      }
      assert recipes == UpdateFields(rs0, id, data).value;
      assert HasId(recipes, id) == HasId(rs0, id) by {
        if HasId(rs0, id) {
          var k := IndexOf(rs0, id).value;
          assert recipes[k] in recipes;
        }
        if HasId(recipes, id) {
          var k := IndexOf(recipes, id).value;
          assert rs0[k] in rs0;
        }
      }
      if data.ingredients.List? {
        var _ := ClearRecipeIngredients(id);
        var e := InsertEach(id, data.ingredients.items);
        if e.Some? {
          return Err(e.value);
        }
        ghost var xs := data.ingredients.items;
        assert xs[..|xs|] == xs;
        ReplaceIngredientList(ings0, id, xs, ni0, id);
      }
      var found := FindById(id);
      r := Ok(found);
    }

    /** `delete`: removes the recipe row and, by ON DELETE CASCADE, its
        ingredient rows; reports whether a row was removed. */
    method Delete(id: nat) returns (deleted: bool)
      requires Valid()
      modifies this
      ensures Valid()
      ensures deleted == HasId(old(recipes), id)
      ensures recipes == Filter(old(recipes), NotId(id))
      ensures ingredients == Filter(old(ingredients), NotOwnedBy(id))
      ensures nextRecipeId == old(nextRecipeId) && nextIngredientId == old(nextIngredientId)
      ensures !deleted ==> unchanged(this)
    {
      var before := |recipes|;
      DeleteRemovesOne(recipes, id);
      ConsistentDelete(recipes, ingredients, nextRecipeId, nextIngredientId, id);
      if !HasId(recipes, id) {
        FilterKeepsAll(recipes, NotId(id));
        forall x | x in ingredients ensures NotOwnedBy(id)(x) {
          var r :| r in recipes && r.id == x.recipeId;
        }
        FilterKeepsAll(ingredients, NotOwnedBy(id));
      }
      recipes := Filter(recipes, NotId(id));
      ingredients := Filter(ingredients, NotOwnedBy(id));
      deleted := |recipes| < before;
    }
  }
}
