/**
 * The inventory window: its list of rows, the three form actions that call
 * the store, and the recipe button with its worker. Widgets are reduced to
 * the state the handlers read and write; what the user types, selects or
 * confirms, and the current date, are parameters.
 */
module RecipeApp {
  import opened Wrappers
  import opened Calendar
  import opened Database
  import opened Freshness
  import opened Advice

  /** One line of the inventory list: the stored row and the name of its freshness tag. */
  datatype ListRow = ListRow(item: Ingredient, tag: string)

  /** How a form action ended: it reached the store, it stopped at a warning, or the user declined. */
  datatype FormOutcome = Applied | Warned(title: string, message: string) | Declined

  const InputWarning: FormOutcome := Warned("輸入錯誤", "請至少輸入食材名稱！")
  const SelectionWarning: FormOutcome := Warned("選取錯誤", "請先在列表中選取一個食材！")

  /** The list shows each stored row once, in the store's order, tagged by the given clock readings. */
  ghost predicate Lists(list: seq<ListRow>, rows: seq<Ingredient>, clock: Clock)
    requires ValidClock(clock)
  {
    |list| == |rows| && forall i :: 0 <= i < |rows| ==> list[i] == ListRow(rows[i], TagName(Classify(rows[i].expiryDate, clock)))
  }

  class App {
    /** The database the window works on. */
    const store: IngredientTable
    /** The retrieval chain, or None when it could not be set up. */
    const rag: Option<Chain>
    /** The lines of the inventory list. */
    var list: seq<ListRow>
    /** Whether the generate button accepts clicks. */
    var generateEnabled: bool
    /** The text of the recipe area. */
    var recipeText: string

    /** The table exists, and the list holds exactly the stored rows in order. */
    ghost predicate Valid()
      reads this, store
    {
      store.Valid() && store.hasTable
      && |list| == |store.rows| && forall i :: 0 <= i < |list| ==> list[i].item == store.rows[i]
    }

    /** Opening the window: create the table if needed, keep the chain, fill the list. */
    constructor (db: IngredientTable, rag: Option<Chain>, clock: Clock)
      requires db.Valid() && ValidClock(clock)
      modifies db
      ensures Valid() && store == db && this.rag == rag
      ensures store.rows == old(db.rows)
      ensures Lists(list, store.rows, clock)
      ensures generateEnabled && recipeText == PlaceholderText
    {
      store := db;
      this.rag := rag;
      generateEnabled := true;
      recipeText := PlaceholderText;
      new;
      db.Initialize();
      PopulateList(clock);
    }

    /** `populate_treeview`: empty the list and refill it from the store, tagging each row by the two clock readings. */
    method PopulateList(clock: Clock)
      requires store.Valid() && store.hasTable && ValidClock(clock)
      modifies this`list
      ensures Valid()
      ensures Lists(list, store.rows, clock)
    {
      list := [];
      var all := store.GetAll();
      assert all.Ok?;
      var items := all.value;
      var i := 0;
      while i < |items|
        invariant 0 <= i <= |items| && items == store.rows
        invariant |list| == i
        invariant forall j :: 0 <= j < i ==> list[j] == ListRow(items[j], TagName(Classify(items[j].expiryDate, clock)))
      {
        list := list + [ListRow(items[i], TagName(Classify(items[i].expiryDate, clock)))];
        i := i + 1;
      }
    }

    /** `add_new_ingredient`: an empty name stops at a warning; otherwise the row is inserted and the list refreshed. */
    method AddNewIngredient(name: string, quantity: string, purchaseDate: string, expiryDate: string, clock: Clock)
      returns (outcome: FormOutcome)
      requires Valid() && ValidClock(clock)
      modifies this`list, store
      ensures Valid()
      ensures name == "" ==> outcome == InputWarning && store.rows == old(store.rows) && list == old(list)
      ensures name != "" ==>
        && outcome == Applied
        && store.rows == Inserted(old(store.rows), name, quantity, purchaseDate, expiryDate)
        && Lists(list, store.rows, clock)
    {
      if name == "" {
        return InputWarning;
      }
      var status := store.Add(Some(name), quantity, purchaseDate, expiryDate);
      PopulateList(clock);
      outcome := Applied;
    }

    /**
     * `update_selected_ingredient`: with no selection, a warning; otherwise the
     * selected row gets the four entered values (the name is not checked) and
     * the list is refreshed.
     */
    method UpdateSelectedIngredient(selected: Option<nat>, name: string, quantity: string, purchaseDate: string, expiryDate: string, clock: Clock)
      returns (outcome: FormOutcome)
      requires Valid() && ValidClock(clock)
      requires selected.Some? ==> selected.value < |list|
      modifies this`list, store
      ensures Valid()
      ensures selected.None? ==> outcome == SelectionWarning && store.rows == old(store.rows) && list == old(list)
      ensures selected.Some? ==>
        var k := selected.value;
        && outcome == Applied
        && |store.rows| == |old(store.rows)|
        && store.rows[k] == Ingredient(old(store.rows[k].id), name, quantity, purchaseDate, expiryDate)
        && (forall j :: 0 <= j < |store.rows| && j != k ==> store.rows[j] == old(store.rows[j]))
        && Lists(list, store.rows, clock)
    {
      if selected.None? {
        return SelectionWarning;
      }
      var k := selected.value;
      var id := list[k].item.id;
      UpdateAt(store.rows, k, name, quantity, purchaseDate, expiryDate);
      var status := store.Update(id, Some(name), quantity, purchaseDate, expiryDate);
      PopulateList(clock);
      outcome := Applied;
    }

    /**
     * `delete_selected_ingredient`: with no selection, a warning; if the user
     * does not confirm, nothing happens; otherwise the selected row is deleted
     * and the list refreshed.
     */
    method DeleteSelectedIngredient(selected: Option<nat>, confirmed: bool, clock: Clock)
      returns (outcome: FormOutcome)
      requires Valid() && ValidClock(clock)
      requires selected.Some? ==> selected.value < |list|
      modifies this`list, store
      ensures Valid()
      ensures selected.None? ==> outcome == SelectionWarning
      ensures selected.Some? && !confirmed ==> outcome == Declined
      ensures selected.None? || !confirmed ==> store.rows == old(store.rows) && list == old(list)
      ensures selected.Some? && confirmed ==>
        var k := selected.value;
        && outcome == Applied
        && store.rows == old(store.rows[..k] + store.rows[k + 1..])
        && !HasId(store.rows, old(store.rows[k].id))
        && Lists(list, store.rows, clock)
    {
      if selected.None? {
        return SelectionWarning;
      }
      if !confirmed {
        return Declined;
      }
      var k := selected.value;
      var id := list[k].item.id;
      DeleteAt(store.rows, k);
      DeleteRemovesId(store.rows, id);
      var status := store.Delete(id);
      PopulateList(clock);
      outcome := Applied;
    }

    /**
     * `generate_recipe`, run to completion: without a chain it reports that and
     * returns before the `try`, leaving the button as it was; otherwise it reads
     * the store, reports an empty inventory or asks the chain the joined names,
     * shows the reply or the failure, and re-enables the button. `asked` is the
     * question the chain received, if any.
     */
    method GenerateRecipe() returns (asked: Option<string>)
      requires Valid()
      modifies this`generateEnabled, this`recipeText
      ensures Valid()
      ensures rag.None? ==> asked == None && recipeText == NotInitialisedText && generateEnabled == old(generateEnabled)
      ensures rag.Some? ==> generateEnabled
      ensures rag.Some? && store.rows == [] ==> asked == None && recipeText == EmptyInventoryText
      ensures rag.Some? && store.rows != [] ==>
        asked == Some(Question(store.rows)) && recipeText == Shown(rag.value.invoke(Question(store.rows)))
    {
      if rag.None? {
        recipeText := NotInitialisedText;
        return None;
      }
      var all := store.GetAll();
      assert all.Ok?;
      var items := all.value;
      if items == [] {
        recipeText := EmptyInventoryText;
        asked := None;
      } else {
        var question := Join(Names(items));
        var reply := rag.value.invoke(question);
        recipeText := Shown(reply);
        asked := Some(question);
      }
      generateEnabled := true;
    }

    /**
     * `start_recipe_generation_thread` followed by its worker: the button is
     * disabled and a waiting notice shown, then the worker runs. Afterwards the
     * button is enabled again exactly when a chain exists.
     */
    method StartRecipeGeneration() returns (asked: Option<string>)
      requires Valid()
      modifies this`generateEnabled, this`recipeText
      ensures Valid()
      ensures generateEnabled == rag.Some?
      ensures asked == if rag.Some? && store.rows != [] then Some(Question(store.rows)) else None
      ensures recipeText == if rag.None? then NotInitialisedText
                            else if store.rows == [] then EmptyInventoryText
                            else Shown(rag.value.invoke(Question(store.rows)))
    {
      generateEnabled := false;
      recipeText := SearchingText;
      asked := GenerateRecipe();
    }
  }
}
