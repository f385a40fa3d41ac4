/**
 * The ingredient store: one SQLite table
 *   ingredients(id INTEGER PRIMARY KEY, name TEXT NOT NULL, quantity TEXT,
 *               purchase_date TEXT, expiry_date TEXT)
 * kept as an in-memory sequence of rows in ascending `id` order (the order
 * of a rowid table), with the five statements the application issues.
 *
 * The pure functions below give the table each statement leaves behind;
 * the class `IngredientTable` holds the table and its methods apply them.
 */
module Database {
  import opened Wrappers

  /** One row of the table. */
  datatype Ingredient = Ingredient(id: int, name: string, quantity: string, purchaseDate: string, expiryDate: string)

  /** The errors a statement can raise here. */
  datatype DbError =
    | NoSuchTable     // the table has not been created yet
    | NameIsNull      // the NOT NULL constraint on `name`

  /** What a data-changing statement ends with: it completes, or raises. */
  datatype Status = Done | Failed(error: DbError)

  /** Ids are positive and strictly ascending, hence unique. */
  predicate Keyed(rows: seq<Ingredient>) {
    (forall i :: 0 <= i < |rows| ==> 1 <= rows[i].id)
    && (forall i, j :: 0 <= i < j < |rows| ==> rows[i].id < rows[j].id)
  }

  predicate HasId(rows: seq<Ingredient>, id: int) {
    exists i :: 0 <= i < |rows| && rows[i].id == id
  }

  // ---------------------------------------------------------------------------
  // INSERT: id assignment of an INTEGER PRIMARY KEY without AUTOINCREMENT
  // ---------------------------------------------------------------------------

  /** The largest id in a non-empty table. */
  function MaxId(rows: seq<Ingredient>): (m: int)
    requires rows != []
    ensures forall i :: 0 <= i < |rows| ==> rows[i].id <= m
    ensures exists i :: 0 <= i < |rows| && rows[i].id == m
  {
    if |rows| == 1 then rows[0].id
    else
      var rest := MaxId(rows[..|rows| - 1]);
      if rest < rows[|rows| - 1].id then rows[|rows| - 1].id else rest
  }

  /** SQLite's choice of rowid for an insert that gives none: one more than the largest, or 1 for an empty table. */
  function NewId(rows: seq<Ingredient>): int {
    if rows == [] then 1 else MaxId(rows) + 1
  }

  /** The table after `INSERT INTO ingredients (name, ...) VALUES (...)`. */
  function Inserted(rows: seq<Ingredient>, name: string, quantity: string, purchaseDate: string, expiryDate: string): seq<Ingredient> {
    rows + [Ingredient(NewId(rows), name, quantity, purchaseDate, expiryDate)]
  }

  /** The new id is larger than every id already present, so it is unused. */
  lemma NewIdIsFresh(rows: seq<Ingredient>)
    ensures forall i :: 0 <= i < |rows| ==> rows[i].id < NewId(rows)
    ensures !HasId(rows, NewId(rows))
  {
  }

  /** In a keyed table the largest id is that of the last row. */
  lemma NewIdOfKeyed(rows: seq<Ingredient>)
    requires Keyed(rows) && rows != []
    ensures NewId(rows) == rows[|rows| - 1].id + 1
  {
  }

  /** Inserting keeps the table keyed and adds exactly the one new row at the end. */
  lemma InsertKeepsKeyed(rows: seq<Ingredient>, name: string, quantity: string, purchaseDate: string, expiryDate: string)
    requires Keyed(rows)
    ensures var t := Inserted(rows, name, quantity, purchaseDate, expiryDate);
      Keyed(t) && |t| == |rows| + 1 && t[..|rows|] == rows
      && t[|rows|] == Ingredient(NewId(rows), name, quantity, purchaseDate, expiryDate)
  {
    NewIdIsFresh(rows);
    if rows != [] {
      assert 1 <= rows[0].id <= MaxId(rows);
    }
  }

  // ---------------------------------------------------------------------------
  // UPDATE ... WHERE id = ?
  // ---------------------------------------------------------------------------

  /** The table after `UPDATE ingredients SET name=?, quantity=?, purchase_date=?, expiry_date=? WHERE id=?`. */
  function Updated(rows: seq<Ingredient>, id: int, name: string, quantity: string, purchaseDate: string, expiryDate: string): seq<Ingredient> {
    if rows == [] then []
    else
      var head := if rows[0].id == id then Ingredient(id, name, quantity, purchaseDate, expiryDate) else rows[0];
      [head] + Updated(rows[1..], id, name, quantity, purchaseDate, expiryDate)
  }

  /** The rows with that id get the four new values; every other row, and every id, is untouched. */
  lemma {:induction false} UpdatedRows(rows: seq<Ingredient>, id: int, name: string, quantity: string, purchaseDate: string, expiryDate: string)
    ensures var t := Updated(rows, id, name, quantity, purchaseDate, expiryDate);
      |t| == |rows|
      && forall i :: 0 <= i < |rows| ==>
           t[i] == if rows[i].id == id then Ingredient(id, name, quantity, purchaseDate, expiryDate) else rows[i]
  {
    if rows != [] {
      UpdatedRows(rows[1..], id, name, quantity, purchaseDate, expiryDate);
    }
  }

  /** Updating keeps the table keyed. */
  lemma UpdateKeepsKeyed(rows: seq<Ingredient>, id: int, name: string, quantity: string, purchaseDate: string, expiryDate: string)
    requires Keyed(rows)
    ensures Keyed(Updated(rows, id, name, quantity, purchaseDate, expiryDate))
  {
    UpdatedRows(rows, id, name, quantity, purchaseDate, expiryDate);
  }

  /** Updating an id that no row has leaves the table as it was. */
  lemma UpdateAbsentIsNoOp(rows: seq<Ingredient>, id: int, name: string, quantity: string, purchaseDate: string, expiryDate: string)
    requires !HasId(rows, id)
    ensures Updated(rows, id, name, quantity, purchaseDate, expiryDate) == rows
  {
    UpdatedRows(rows, id, name, quantity, purchaseDate, expiryDate);
  }

  /** In a keyed table, updating the id of row `k` rewrites row `k` alone. */
  lemma UpdateAt(rows: seq<Ingredient>, k: nat, name: string, quantity: string, purchaseDate: string, expiryDate: string)
    requires Keyed(rows) && k < |rows|
    ensures var t := Updated(rows, rows[k].id, name, quantity, purchaseDate, expiryDate);
      |t| == |rows|
      && t[k] == Ingredient(rows[k].id, name, quantity, purchaseDate, expiryDate)
      && forall j :: 0 <= j < |rows| && j != k ==> t[j] == rows[j]
  {
    UpdatedRows(rows, rows[k].id, name, quantity, purchaseDate, expiryDate);
  }

  // ---------------------------------------------------------------------------
  // DELETE ... WHERE id = ?
  // ---------------------------------------------------------------------------

  /** The table after `DELETE FROM ingredients WHERE id=?`. */
  function Deleted(rows: seq<Ingredient>, id: int): seq<Ingredient> {
    if rows == [] then []
    else (if rows[0].id == id then [] else [rows[0]]) + Deleted(rows[1..], id)
  }

  /** A row survives the delete exactly when it was there and has another id. */
  lemma {:induction false} DeletedMembers(rows: seq<Ingredient>, id: int)
    ensures forall r :: r in Deleted(rows, id) <==> r in rows && r.id != id
  {
    if rows != [] {
      DeletedMembers(rows[1..], id);
      assert rows == [rows[0]] + rows[1..];
    }
  }

  /** After the delete no row has that id. */
  lemma DeleteRemovesId(rows: seq<Ingredient>, id: int)
    ensures !HasId(Deleted(rows, id), id)
  {
    DeletedMembers(rows, id);
    var t := Deleted(rows, id);
    forall i | 0 <= i < |t| ensures t[i].id != id {
      assert t[i] in t;
    }
  }

  /** Deleting an id that no row has leaves the table as it was. */
  lemma {:induction false} DeleteAbsentIsNoOp(rows: seq<Ingredient>, id: int)
    requires !HasId(rows, id)
    ensures Deleted(rows, id) == rows
  {
    if rows != [] {
      assert !HasId(rows[1..], id) by {
        forall i | 0 <= i < |rows| - 1 ensures rows[1..][i].id != id {
          assert rows[1..][i] == rows[i + 1];
        }
      }
      DeleteAbsentIsNoOp(rows[1..], id);
    }
  }

  /** In a keyed table, deleting the id of row `k` removes row `k` and keeps the rest in order. */
  lemma {:induction false} DeleteAt(rows: seq<Ingredient>, k: nat)
    requires Keyed(rows) && k < |rows|
    ensures Deleted(rows, rows[k].id) == rows[..k] + rows[k + 1..]
  {
    var id := rows[k].id;
    if k == 0 {
      assert !HasId(rows[1..], id) by {
        forall i | 0 <= i < |rows| - 1 ensures rows[1..][i].id != id {
          assert rows[1..][i] == rows[i + 1];
        }
      }
      DeleteAbsentIsNoOp(rows[1..], id);
    } else {
      var tail := rows[1..];
      assert Keyed(tail);
      assert tail[k - 1] == rows[k];
      DeleteAt(tail, k - 1);
      assert rows[..k] == [rows[0]] + tail[..k - 1];
      assert rows[k + 1..] == tail[k..];
    }
  }

  /** Removing one row from a keyed table leaves it keyed. */
  lemma KeyedWithout(rows: seq<Ingredient>, k: nat)
    requires Keyed(rows) && k < |rows|
    ensures Keyed(rows[..k] + rows[k + 1..])
  {
    var t := rows[..k] + rows[k + 1..];
    assert forall i :: 0 <= i < |t| ==> t[i] == rows[if i < k then i else i + 1];
  }

  /** Deleting keeps the table keyed, and removes one row when the id is present. */
  lemma DeleteKeepsKeyed(rows: seq<Ingredient>, id: int)
    requires Keyed(rows)
    ensures Keyed(Deleted(rows, id))
    ensures |Deleted(rows, id)| == if HasId(rows, id) then |rows| - 1 else |rows|
  {
    if HasId(rows, id) {
      var k :| 0 <= k < |rows| && rows[k].id == id;
      DeleteAt(rows, k);
      KeyedWithout(rows, k);
    } else {
      DeleteAbsentIsNoOp(rows, id);
    }
  }

  /**
   * Ids are not reserved: once the row with the largest id is deleted, the
   * next insert is given an id no larger than the one just freed.
   */
  lemma DeletedTopIdIsReused(rows: seq<Ingredient>)
    requires Keyed(rows) && rows != []
    ensures NewId(Deleted(rows, rows[|rows| - 1].id)) <= rows[|rows| - 1].id
  {
    var n := |rows| - 1;
    DeleteAt(rows, n);
    assert rows[n + 1..] == [];
    var t := rows[..n];
    assert Deleted(rows, rows[n].id) == t;
    if t != [] {
      assert Keyed(t);
      NewIdOfKeyed(t);
    }
  }

  // ---------------------------------------------------------------------------
  // The table itself
  // ---------------------------------------------------------------------------

  /** The `ingredients` table of the database file. */
  class IngredientTable {
    /** Whether `CREATE TABLE` has run on this database file. */
    var hasTable: bool
    /** The rows, in ascending id order. */
    var rows: seq<Ingredient>

    ghost predicate Valid()
      reads this
    {
      Keyed(rows) && (!hasTable ==> rows == [])
    }

    /** A database file in which the table has not been created yet. */
    constructor ()
      ensures Valid() && !hasTable && rows == []
    {
      hasTable := false;
      rows := [];
    }

    /** `initialize_db`: CREATE TABLE IF NOT EXISTS; rows already stored are kept. */
    method Initialize()
      requires Valid()
      modifies this
      ensures Valid() && hasTable
      ensures rows == old(rows)
    {
      hasTable := true;
    }

    /** `add_ingredient`: inserts one row under a fresh id; a NULL name is refused. */
    method Add(name: Option<string>, quantity: string, purchaseDate: string, expiryDate: string) returns (status: Status)
      requires Valid()
      modifies this
      ensures Valid() && hasTable == old(hasTable)
      ensures status == if !hasTable then Failed(NoSuchTable) else if name.None? then Failed(NameIsNull) else Done
      ensures status.Done? ==> rows == Inserted(old(rows), name.value, quantity, purchaseDate, expiryDate)
      ensures status.Done? ==> forall i :: 0 <= i < |old(rows)| ==> old(rows)[i].id < rows[|rows| - 1].id
      ensures status.Failed? ==> rows == old(rows)
    {
      if !hasTable {
        return Failed(NoSuchTable);
      }
      if name.None? {
        return Failed(NameIsNull);
      }
      var id := if rows == [] then 1 else rows[|rows| - 1].id + 1;
      if rows != [] {
        NewIdOfKeyed(rows);
      }
      InsertKeepsKeyed(rows, name.value, quantity, purchaseDate, expiryDate);
      NewIdIsFresh(rows);
      rows := rows + [Ingredient(id, name.value, quantity, purchaseDate, expiryDate)];
      status := Done;
    }

    /** `get_all_ingredients`: SELECT * ... ORDER BY id. */
    method GetAll() returns (r: Result<seq<Ingredient>, DbError>)
      requires Valid()
      ensures r.Ok? <==> hasTable
      ensures r.Ok? ==> r.value == rows
      ensures r.Ok? ==> forall i, j :: 0 <= i < j < |r.value| ==> r.value[i].id < r.value[j].id
      ensures r.Err? ==> r.error == NoSuchTable
    {
      if !hasTable {
        return Err(NoSuchTable);
      }
      return Ok(rows);
    }

    /** `update_ingredient`: overwrites the four data columns of the row with that id, if there is one. */
    method Update(id: int, name: Option<string>, quantity: string, purchaseDate: string, expiryDate: string) returns (status: Status)
      requires Valid()
      modifies this
      ensures Valid() && hasTable == old(hasTable)
      ensures status == if !hasTable then Failed(NoSuchTable)
                        else if name.None? && HasId(old(rows), id) then Failed(NameIsNull)
                        else Done
      ensures status.Done? && name.Some? ==> rows == Updated(old(rows), id, name.value, quantity, purchaseDate, expiryDate)
      ensures status.Failed? || name.None? ==> rows == old(rows)
    {
      if !hasTable {
        return Failed(NoSuchTable);
      }
      if name.None? {
        status := if HasId(rows, id) then Failed(NameIsNull) else Done;
        return;
      }
      UpdateKeepsKeyed(rows, id, name.value, quantity, purchaseDate, expiryDate);
      rows := Updated(rows, id, name.value, quantity, purchaseDate, expiryDate);
      status := Done;
    }

    /** `delete_ingredient`: removes the row with that id, if there is one. */
    method Delete(id: int) returns (status: Status)
      requires Valid()
      modifies this
      ensures Valid() && hasTable == old(hasTable)
      ensures status == if hasTable then Done else Failed(NoSuchTable)
      ensures rows == if status.Done? then Deleted(old(rows), id) else old(rows)
    {
      if !hasTable {
        return Failed(NoSuchTable);
      }
      DeleteKeepsKeyed(rows, id);
      rows := Deleted(rows, id);
      status := Done;
    }
  }
}
