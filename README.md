# Ingredient inventory and recipe advisor — a Dafny model

This project models the core of a desktop app that keeps perishable ingredients in a
SQLite table, tags each one by how close it is to expiry, and asks a retrieval-augmented
language-model chain for a recipe built from the ingredient names.

Six modules, one per concern:

- `Wrappers` (`wrappers.dfy`): `Option` and `Result`.
- `Calendar` (`calendar.dfy`): dates as Python's `datetime.date` treats them.
  - `Parse` reads `%Y-%m-%d` text. `Format` writes it back.
  - `NextDay` and `AddDays` model `date + timedelta(days = n)`.
  - `Less` is date comparison.
  - `Ordinal` is `date.toordinal()`. It is the independent reference the calendar is proved against.
- `Database` (`database.dfy`, modelling `database.py`): the `ingredients` table as a sequence of rows in ascending id order.
  - Pure functions give the table after each SQL statement: `Inserted`, `Updated`, `Deleted`.
  - Class `IngredientTable` holds the table; its methods are `initialize_db`, `add_ingredient`,
    `get_all_ingredients`, `update_ingredient` and `delete_ingredient`.
- `Freshness` (`freshness.dfy`, from `main.py`): the tag `populate_treeview` gives a row, via `Classify`.
- `Advice` (`advice.dfy`, from `main.py`): the question joined with `、`, its inverse `Split`, the chain's reply,
  and the texts of the recipe area.
- `RecipeApp` (`app.dfy`, from `main.py`): class `App` with the inventory list, the add/update/delete form
  actions and their guards, and the generate button with its worker.

Four consequences of the code that a reader might not expect:

- Ids can be reused. The id column is `INTEGER PRIMARY KEY` without `AUTOINCREMENT`
  (database.py:19), so a new row gets the largest id plus one (1 in an empty table), and
  deleting the top row frees its id for the next insert (`DeletedTopIdIsReused`).
- Fresh and unreadable expiry dates both get the empty tag (main.py:166-171).
- The window of "expiring soon" dates is counted from a second reading of the clock
  (main.py:164). When midnight passes between the two readings it is nine days wide instead
  of eight (`MidnightWidensWindow`).
- Only the add action refuses an empty name. Update writes whatever name was typed, and the
  table only refuses a NULL name.

## Model

| member | source | states |
|---|---|---|
| Calendar.Parse | main.py:168 | an accepted text is exactly `DDDD-DD-DD` and names a real day in years 1..9999; month 13, Feb 30 and year 0 are refused |
| Calendar.NumberOfDigits | main.py:168 | a number written zero-padded in w digits reads back as the same number when it fits |
| Calendar.DigitsOfNumber | main.py:168 | a digit string read as a number and written back in as many digits is the same string |
| Calendar.ParseFormat | main.py:168 | every date in years 1..9999 reads back from its own `YYYY-MM-DD` text |
| Calendar.FormatParse | main.py:168 | every accepted text is the canonical text of the date it yields, so parsing loses nothing |
| Calendar.DaysInMonth | main.py:168 | month lengths are 28..31, and 29 exactly for February of a leap year |
| Calendar.NextDay | main.py:164 | no contract of its own; its meaning is stated by `NextDayIsSuccessor` |
| Calendar.AddDays | main.py:164 | no contract of its own; its meaning is stated by `AddDaysOrdinal` |
| Calendar.Less | main.py:169 | no contract of its own; its meaning is stated by `LessIsOrdinalOrder` |
| Calendar.LessOrEqual | main.py:170 | no contract of its own; `Less` or equal, related to the day numbers in `ClassifyByDaysLeft` |
| Calendar.LessIsOrdinalOrder | main.py:169-170 | comparing dates field by field agrees with comparing their day numbers |
| Calendar.OrdinalIsInjective | main.py:169-170 | two valid dates with the same day number are the same date |
| Calendar.NextDayIsSuccessor | main.py:164 | the next day is later than `d`, and no valid date lies strictly between them |
| Calendar.AddDaysOrdinal | main.py:164 | adding n days gives a valid date whose day number is exactly n more, across month, year and leap-day boundaries |
| Calendar.AddDaysYearBound | main.py:164 | adding up to 365 days crosses at most one year end |
| Calendar.AddWeekExamples | main.py:164 | adding seven days rolls over correctly across a leap February, a common February and a year end |
| Freshness.Classify | main.py:164-171 | no contract of its own; its meaning is stated by `ClassifyByDaysLeft` |
| Freshness.ClassifyByDaysLeft | main.py:164-171 | an unparsable expiry is untagged; otherwise Expired iff fewer than 0 days from the first clock reading, ExpiringSoon iff not expired and at most 7 days from the second reading, untagged iff more than 7; the tag function is total, so no error escapes |
| Freshness.ClassifyDate | main.py:164-171 | the tag of any written-out date follows its distance in days from the two clock readings |
| Freshness.DayBeforeIsExpired | main.py:169 | yesterday's date is Expired, whatever the second reading |
| Freshness.DaysAheadTag | main.py:164-170 | with both readings on one day, a date n days ahead (n up to 365) is ExpiringSoon for n = 0..7 and untagged from n = 8 on: today and today+7 are inclusive, today+8 is not |
| Freshness.MidnightWidensWindow | main.py:164-170 | when midnight passes between the two readings, a date n days after the first is ExpiringSoon for n = 0..8 and untagged from n = 9 on |
| Freshness.ClassifyExamples | main.py:164-171 | on 2024-01-15 (both readings): 2024-01-01 is Expired, 2024-01-20 and 2024-01-22 are ExpiringSoon, 2024-01-23 and 2024-02-01 are untagged |
| Database.MaxId | database.py:19 | the result is an id present in the table and no row has a larger one |
| Database.NewId | database.py:19 | no contract of its own; its meaning is stated by `NewIdIsFresh` and `NewIdOfKeyed` |
| Database.Inserted | database.py:36-37 | no contract of its own; its meaning is stated by `InsertKeepsKeyed` |
| Database.NewIdIsFresh | database.py:19 | the id given to a new row is larger than every id present, so no row has it |
| Database.NewIdOfKeyed | database.py:19 | in a table kept in ascending id order the new id is the last row's id plus one |
| Database.InsertKeepsKeyed | database.py:36-37 | an insert keeps ids positive and ascending, adds exactly one row holding the four given values, and leaves every earlier row as it was |
| Database.Updated | database.py:55-56 | no contract of its own; its meaning is stated by `UpdatedRows` |
| Database.UpdatedRows | database.py:55-56 | an update keeps the row count; rows with that id get the four new values and keep their id; every other row is unchanged |
| Database.UpdateKeepsKeyed | database.py:55-56 | an update keeps the ids ascending |
| Database.UpdateAbsentIsNoOp | database.py:55 | updating an id no row has leaves the table unchanged |
| Database.UpdateAt | database.py:55-56 | updating the id of row k rewrites row k alone |
| Database.Deleted | database.py:64 | no contract of its own; its meaning is stated by `DeletedMembers` and `DeleteAt` |
| Database.DeletedMembers | database.py:64 | a row survives a delete iff it was present and has a different id |
| Database.DeleteRemovesId | database.py:64 | after a delete no row has that id |
| Database.DeleteAbsentIsNoOp | database.py:64 | deleting an id no row has leaves the table unchanged |
| Database.DeleteAt | database.py:64 | deleting the id of row k removes row k and keeps the others in order |
| Database.DeleteKeepsKeyed | database.py:64 | a delete keeps ids ascending and removes one row if the id was present, none otherwise |
| Database.DeletedTopIdIsReused | database.py:19 | after the top row is deleted the next new id is no larger than the freed one: ids are reused |
| Database.IngredientTable.constructor | database.py:9-10 | a database file whose table has not been created yet: no table and no rows |
| Database.IngredientTable.Initialize | database.py:17-25 | afterwards the table exists and its rows are exactly as before, so a repeated call changes nothing |
| Database.IngredientTable.Add | database.py:31-39 | with no table: no-such-table error; NULL name: NOT NULL error, rows unchanged; otherwise (an empty name included) the table becomes `Inserted`, one new row whose id exceeds every earlier id |
| Database.IngredientTable.GetAll | database.py:41-49 | returns every row, in strictly ascending id order; raises no-such-table before initialisation |
| Database.IngredientTable.Update | database.py:51-58 | the table becomes `Updated` for that id; NULL name on an existing row raises NOT NULL and changes nothing; absent id changes nothing |
| Database.IngredientTable.Delete | database.py:60-66 | the table becomes `Deleted` for that id; absent id changes nothing |
| Advice.Join | main.py:136 | no contract of its own; `"、".join`, whose inverse is stated by `JoinSplit` and `SplitJoin` |
| Advice.Question | main.py:136 | no contract of its own; the `name` column of each row in row order, joined by `、` |
| Advice.FailureText | main.py:142 | no contract of its own; its meaning is stated by `FailureNamesReason` |
| Advice.Shown | main.py:137-143 | no contract of its own; an answer is shown as it is, a raised exception as `FailureText` of its text |
| Advice.JoinSplit | main.py:136 | splitting the question at `、` and joining again gives back the same text |
| Advice.SplitJoin | main.py:136 | when no name contains `、`, the question splits back into exactly the names, in order |
| Advice.FailureNamesReason | main.py:142 | the failure diagnostic contains the exception text verbatim and differs from the empty-inventory and no-chain notices |
| RecipeApp.App.constructor | main.py:21-85 | opening the window creates the table if needed, keeps its rows, keeps the chain or its absence, enables the button, shows the placeholder, and lists every row tagged |
| RecipeApp.App.PopulateList | main.py:161-172 | the list has one line per stored row, in the store's id order, each with the name of its `Classify` tag for the two clock readings |
| RecipeApp.App.AddNewIngredient | main.py:173-177 | an empty name gives the input warning and changes neither store nor list; otherwise the store gains the one new row and the list is rebuilt |
| RecipeApp.App.UpdateSelectedIngredient | main.py:178-183 | no selection gives the selection warning and changes nothing; otherwise the selected row, under its id, gets the four entered values (empty name included), all other rows are unchanged, and the list is rebuilt |
| RecipeApp.App.DeleteSelectedIngredient | main.py:184-189 | no selection gives the warning; a declined confirmation changes nothing; otherwise the selected row is removed, no row keeps its id, the others stay in order, and the list is rebuilt |
| RecipeApp.App.GenerateRecipe | main.py:125-145 | no chain: the not-initialised notice, no question asked, button state untouched; empty inventory: the empty notice, no question asked, button enabled; otherwise the question is the names in id order joined by `、`, the area shows the reply or the failure diagnostic, button enabled; store and list unchanged |
| RecipeApp.App.StartRecipeGeneration | main.py:148-155 | after disabling the button and running the worker, the button is enabled again iff a chain exists, and the area shows the notice, the reply or the diagnostic the worker chose |

## Left out

- Tk widgets, layout, styles, message boxes and the recipe text widget. Entry texts, the
  selected list line and the yes/no answer are parameters. A warning is the returned
  `FormOutcome`. `clear_entries` and `on_item_select` only move text between widgets and are
  not modelled.
- Threading and `self.after`. The worker runs to completion inside `StartRecipeGeneration`.
  The moment between disabling the button and the worker's hand-back is not modelled.
- The LangChain, Ollama and Chroma setup (`setup_rag_chain`), the prompt template and the
  retriever's top-5 search. The chain is present or absent (`Option<Chain>`). Its answer to a
  question is an uninterpreted total function giving text or an exception text.
- SQLite connections, commits, the database file path, and errors other than a missing
  table and the NOT NULL constraint (locked or unreadable file). The list passes the id as
  text; SQLite's type conversion of it is not modelled, and the id is an integer.
- The largest rowid, 2^63-1. At that point SQLite picks a random unused id or fails. The
  model's ids are unbounded integers.
- NULL in the quantity and date columns. The model stores them as text because the only
  caller passes entry texts.
- `datetime.now()`: its two readings in main.py:164 are a parameter (`Clock`). Any two valid
  dates are allowed; a clock set back between them is not excluded.
- Calendar.Parse: accepts only the strict ten-character `YYYY-MM-DD` form with ASCII digits.
  CPython's `strptime` also accepts one-digit months and days (`2024-1-5`), a space before a
  one-digit day (`2024-01- 5`), and non-ASCII decimal digits such as full-width ones (`２０２４-01-05`).
  Such texts are tagged by the application and left untagged by the model. That library code is
  not part of this model.
- Calendar.AddDays: has no upper year bound. Python raises `OverflowError` for a date past
  9999-12-31, i.e. when today is after 9999-12-24; that case is not modelled.
- RecipeApp.App.GenerateRecipe: shows that no question reaches the chain on the no-chain and
  empty-inventory paths. That the no-chain path does not read the store is visible in the
  method body, but no contract states it.
- build_vector_db.py and prepare_recipes.py (corpus download and index building, pure I/O)
  are not part of this model.
