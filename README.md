# Solo Leveling task controller — a Dafny model

Solo Leveling is a weekly to-do desktop application. Tasks are filed under one category per
weekday. Each task carries points. A scoreboard shows the total points of the completed tasks.

This project models the application's task-state controller, `SoloLevelingApp`, and the
records it works on, and proves what each controller operation does to the store and to the
two views it pushes to the screen:

- a category's task list, shown as a list of rows;
- the scoreboard total.

The files are:

- `wrappers.dfy`: `Option`.
- `text.dfy`: the parts of Python's `str` and `int` the controller uses: `strip()`, `lower()`,
  `capitalize()` and `int(text)`. It also has `str(n)`, which states the parse round trip.
- `models.dfy`: the three records `Category`, `Task` and `QuickNote` with their column
  defaults, and the schema's constraints as predicates:
  - unique category names;
  - primary keys;
  - the non-null foreign key.

  It also holds the cascade on category deletion and the row list of a category.
- `scoring.dfy`: the scoreboard total as a sum over the task table, and how insertions,
  deletions and completion toggles change it.
- `storage.dfy`: class `Store`, the relational store held in memory.
  - The `categories` table is a sequence in id order.
  - The `tasks` table is a map from primary key to row.
  - One counter per table hands out fresh ids.
  - `Valid()` carries the schema constraints.
  - `CompletedPoints` computes the scoreboard total with a loop, proved equal to `Score`.
- `app.dfy`: class `SoloLevelingApp`, the controller. It has seeding, adding, deleting and
  toggling, and the list and scoreboard refreshes. The view's state is two fields:
  - `taskLists`: the data of each `<name>_task_list` widget, keyed by lower-case category name;
  - `scoreboard`: the total the scoreboard label shows.

The application keeps one invariant beyond the schema: every category name is in capitalized
form (`capitalize(lower(name)) == name`).
- A list refresh for category `c` is called with `c.name.lower()` and looks the category up
  again by `capitalize` of that key. For a name not in that form the refresh would not
  reach its own category: it would fail when no category has the capitalized name, and
  it would show another category's rows when one does (a stored "monday" beside
  "Monday" would show Monday's rows).
- Seeding only creates capitalized weekday names, so the invariant holds from start-up on.

Facts about the code that the model keeps:
- The code sorts lists by task id, not by `priority`.
- `add_task` never sets `priority`, so a new task keeps the column default 0.
- The code has no reorder operation and no quick-note load or save.

## Model

| member | source | states |
|---|---|---|
| Models.TaskDefaults | solo-level/models.py:47-55 | A task built from its required columns has points 0, completed false and priority 0. |
| Models.QuickNoteDefaults | solo-level/models.py:68-70 | A quick note built without content holds the empty text. |
| Models.FindCategory | solo-level/main.py:82 | The first-match lookup by name finds a category exactly when one has that name, and what it finds is a stored category with that name. |
| Models.FindCategoryById | solo-level/models.py:54-55 | Resolving a task's `category` finds a category exactly when one has that id, and it is a stored category with that id. |
| Models.FindCategoryUnique | solo-level/models.py:27 | Under unique names, the lookup by a category's name returns that very category, which is what `.one()` relies on. |
| Models.NamesCount | solo-level/models.py:27 | Under unique names there are exactly as many categories as distinct names. |
| Models.RemoveCategory | solo-level/models.py:32-34 | Deleting category `id` keeps exactly the other categories; the id set loses `id` only. |
| Models.RemoveCategoryKeepsOrder | solo-level/models.py:26-27 | Deleting a category preserves ascending primary keys and unique names. |
| Models.RemoveKeepsAscending | solo-level/models.py:26 | Deleting a category preserves ascending primary keys. |
| Models.RemoveKeepsUnique | solo-level/models.py:27 | Deleting a category preserves unique names. |
| Models.HeadAndTail | solo-level/models.py:26-27 | The first category's id is below, and its name differs from, every later category's. |
| Models.AscendingCons | solo-level/models.py:26 | A category with an id below all of an ascending list's ids can go in front of it. |
| Models.UniqueCons | solo-level/models.py:27 | A category whose name no category of a uniquely named list has can go in front of it. |
| Models.Cascade | solo-level/models.py:32-34 | Deleting a category under "all, delete-orphan" keeps exactly the tasks whose category survives, unchanged, and leaves no task referencing a missing category. |
| Models.DeleteWithoutCascadeOrphans | solo-level/models.py:54-55 | Without the cascade, deleting the category of a stored task leaves that task orphaned. |
| Models.RowsBetween | solo-level/main.py:172 | The rows built from an id range have ids in that range, in strictly ascending order. |
| Models.RowsBetweenExact | solo-level/main.py:172-183 | The rows are exactly the category's tasks in the id range. Each row copies its task's id, title, points and completed; every such task has its row. |
| Scoring.Earned | solo-level/main.py:187-188 | What one task adds to the total: its points when completed, else nothing. No contract: its effect on the total is stated by the Score lemmas below. |
| Scoring.Score | solo-level/main.py:187-189 | The sum of `points` over the completed tasks, taken in any order. No contract: `ScoreSplit` states order independence, `ScoreNoneCompleted` the empty sum. |
| Scoring.ScoreSplit | solo-level/main.py:187-189 | The total over completed tasks does not depend on summation order: any one task can be split off. |
| Scoring.ScoreNoneCompleted | solo-level/main.py:187-189 | With no completed task the total is 0. |
| Scoring.ScoreInsert | solo-level/main.py:125-126 | Inserting a task under a new key raises the total by what that task earns. |
| Scoring.ScoreRemove | solo-level/main.py:138-139 | Deleting a task lowers the total by what it earned. |
| Scoring.ScoreReplace | solo-level/main.py:146-147 | Rewriting a task changes the total by the difference of what its two versions earn. |
| Scoring.ScoreToggle | solo-level/main.py:145-148 | Completing a task raises the total by its points; un-completing it lowers the total by its points. |
| Storage.Store.constructor | solo-level/models.py:19-70 | A store over freshly created tables is empty and satisfies the schema constraints. |
| Storage.Store.CategoryNamed | solo-level/main.py:82 | `query(Category).filter(name == ...).first()`: present exactly when a category has that name, and the result has that name. |
| Storage.Store.Valid | solo-level/models.py:19-55 | The schema's constraints: ascending primary keys below the counters, unique category names (models.py:27), tasks stored under their own id, and every task's `category_id` naming a stored category (models.py:54-55). No contract: it is the invariant every store method keeps. |
| Storage.Store.TaskWithId | solo-level/main.py:135 | `query(Task).filter(Task.id == id).first()`: present exactly when some stored row has that id column, and then it is a stored row with that id. |
| Storage.Store.TaskWithIdIsKey | solo-level/models.py:47 | Because tasks are stored under their primary key, the id-column lookup finds exactly the task stored under that key. |
| Storage.Store.TaskRows | solo-level/main.py:167-183 | A category's rows are strictly ascending by id, each copies the id, title, points and completed of a task of that category, and every task of the category has a row. |
| Storage.Store.InsertCategory | solo-level/main.py:85-86 | Inserts the name under a fresh id at the end, and only when the name is new (the unique constraint); the tasks are untouched. |
| Storage.Store.InsertTask | solo-level/main.py:119-126 | Inserts exactly one task under a fresh id, with completed and priority at their defaults; other tasks and the categories are untouched. |
| Storage.Store.DeleteTask | solo-level/main.py:138-139 | Removes exactly that task; all else unchanged; constraints kept. |
| Storage.Store.SetCompleted | solo-level/main.py:146-147 | Changes only that task's completed field; constraints kept. |
| Storage.Store.DeleteCategory | solo-level/models.py:32-34 | Removes the category and, by the cascade, exactly its tasks, keeping every schema constraint. |
| Storage.Store.CompletedPoints | solo-level/main.py:187-189 | The loop's result is the sum of points over completed tasks (`Score`). |
| Text.Strip | solo-level/main.py:106 | `strip()` gives the infix left once whitespace is cut from both ends: empty exactly when the text is all whitespace, else starting and ending in non-whitespace. |
| Text.StripNoOuterSpace | solo-level/main.py:106 | Stripping text without outer whitespace changes nothing. |
| Text.StripIdempotent | solo-level/main.py:106 | Stripping twice equals stripping once. |
| Text.Lower | solo-level/main.py:128 | `lower()` keeps the length, turns each upper-case letter into the lower-case letter at the same place in the alphabet ('A' to 'a'), and keeps every other character. |
| Text.Capitalize | solo-level/main.py:80 | `capitalize()` keeps the length, turns a lower-case first letter into its upper-case letter ('m' to 'M'), turns each later upper-case letter into its lower-case letter, and keeps every other character. |
| Text.LowerIdempotent | solo-level/main.py:128 | Lower-casing twice equals lower-casing once. |
| Text.CapitalizeOfLower | solo-level/main.py:162-167 | Capitalizing a lower-cased name equals capitalizing the name. |
| Text.CapitalizeIdempotent | solo-level/main.py:80 | A capitalized name is its own capitalized form. |
| Text.CapitalizeWord | solo-level/main.py:80 | A word continuing in lower-case letters capitalizes to itself with the first letter upper-cased. |
| Text.ParseInt | solo-level/main.py:111 | `int(text)` succeeds only on text that is not blank and holds none of the information separators U+001C..U+001F, which `strip()` cuts but `int()` refuses. |
| Text.ShowNatValue | solo-level/main.py:111 | The digits of a natural number read back as that number. |
| Text.ParseShowInt | solo-level/main.py:111 | `int(str(n)) == n` for every integer. |
| Text.ParsePoints | solo-level/main.py:110-113 | Points are the parsed integer when `int` succeeds and 0 when it raises `ValueError`; the empty-text shortcut `text or 0` falls in the latter case. |
| Text.ParsePointsOfShowInt | solo-level/main.py:110-113 | Points text holding a number's decimal form gives that number. |
| Text.ParsePointsSpaced | solo-level/main.py:110-113 | Whitespace that `int()` skips, on either side of a number's decimal text, leaves that number (`" 5 "` gives 5). |
| Text.StripPadded | solo-level/main.py:106 | `strip()` of whitespace padded around text without outer whitespace gives exactly that text. |
| Text.ParsePointsSeparator | solo-level/main.py:110-113 | Points text holding an information separator U+001C..U+001F anywhere gives 0, since `int()` raises `ValueError` on it. |
| Text.ParsePointsBlank | solo-level/main.py:110-113 | Empty or all-whitespace points text gives 0. |
| Text.StripBounds | solo-level/main.py:106 | A non-whitespace character survives `strip()`: the stripped text is an infix `text[i..j]` with `i <= k < j`. |
| Text.ParseLiteralJunk | solo-level/main.py:111-113 | A literal holding a character that is neither sign nor digit does not parse. |
| Text.ParsePointsJunk | solo-level/main.py:110-113 | Points text holding a character that is neither whitespace, sign nor digit gives 0. |
| App.WeekdayNames | solo-level/main.py:76-80 | Capitalizing each listed day gives "Monday".."Sunday", each its own capitalized form. |
| App.DayNamesPrefix | solo-level/main.py:79-80 | Seeding one more day adds exactly that day's capitalized name. |
| App.DayNamesAreWeekdays | solo-level/main.py:76-80 | The capitalized names of the listed days are exactly the seven weekday names. |
| App.WeekdayCount | solo-level/main.py:76-77 | The seven weekday names are distinct. |
| App.SoloLevelingApp.constructor | solo-level/main.py:52-59 | A fresh controller over a valid store has no list data and a zero scoreboard. |
| App.SoloLevelingApp.ListFor | solo-level/main.py:167-183 | The list data for `key` are the rows of the stored category named `capitalize(key)`: one per task of that category, ascending by id, each copying its task. |
| App.SoloLevelingApp.LoadDataFromDb | solo-level/main.py:74-89 | Adds only categories, and afterwards the names are the old names plus "Monday".."Sunday". A store that already holds them is left unchanged. An empty store ends with seven. Tasks untouched. |
| App.SoloLevelingApp.SeedDays | solo-level/main.py:79-89 | For days that capitalize to distinct names, the loop adds exactly the capitalized names that were missing, keeps the existing categories first, and changes nothing when none was missing. |
| App.SoloLevelingApp.SeedCategory | solo-level/main.py:80-86 | One day: query first, insert only if absent. Afterwards the name is present and nothing else changed. |
| App.SoloLevelingApp.AddTask | solo-level/main.py:97-128 | A blank stripped title changes nothing. Otherwise exactly one task is added: fresh id, stripped title, parsed points, completed false, the tab's category. Other tasks are unchanged, that category's list is refreshed and the score is unchanged. |
| App.SoloLevelingApp.DeleteTask | solo-level/main.py:133-140 | An unknown id changes nothing. Otherwise exactly that task is removed, its category's list is refreshed, and the score drops by what the task earned. |
| App.SoloLevelingApp.ToggleTaskCompletion | solo-level/main.py:142-148 | An absent task or an equal flag changes nothing. Otherwise only that task's completed field changes, the lists are untouched, and the score moves by ± the task's points. |
| App.SoloLevelingApp.RefreshUiForCategory | solo-level/main.py:153-156 | The one list gets its category's rows and the scoreboard shows the total. |
| App.SoloLevelingApp.CategoryHasList | solo-level/main.py:162-167 | The refresh key `c.name.lower()` of a stored category `c` leads back to a stored category. |
| App.SoloLevelingApp.AllListed | solo-level/main.py:160-162 | Every category's lower-cased name leads the list refresh back to a stored category. |
| App.ListKeysPrefix | solo-level/main.py:161-162 | Walking one more category adds exactly its lower-cased name to the refreshed keys. |
| App.SoloLevelingApp.ListsForAdd | solo-level/main.py:161-162 | Refreshing one more list adds exactly that key's rows to the refreshed data. |
| App.SoloLevelingApp.RefreshAllTaskLists | solo-level/main.py:158-163 | Each category's list holds that category's rows, other lists keep their data, and the scoreboard shows the total. |
| App.SoloLevelingApp.RefreshTaskList | solo-level/main.py:165-183 | Only the list for the key changes, to the rows of category `capitalize(key)`. |
| App.SoloLevelingApp.RefreshScoreboard | solo-level/main.py:185-189 | The scoreboard shows the sum of points over completed tasks. |
| App.SoloLevelingApp.OnStart | solo-level/main.py:61-64 | After start-up the weekday categories exist, every category's list holds its rows, and the scoreboard shows the total. |

## Left out

- solo-level/database.py (engine, session factory, table creation) is not part of this model. The store starts from empty tables (`Store` constructor) or from any valid state.
- Sessions, `commit`, `close` and query building are not modelled. Each store method is one committed change.
- SeedDays: each insert is visible to the next day's query at once. The code instead stages the inserts (autoflush is off) and commits once at main.py:89, so a list naming one category twice would fail on the unique constraint at commit. The model requires the days to capitalize to distinct names, which the seven weekdays do, and then the two agree. `.first()` is an `Option` lookup. `.one()` is a precondition: `AddTask` requires that a category with the tab's name exists, and the refreshes require `HasList`.
- The Kivy layer is not modelled:
  - the widgets `TaskItem`, `TaskList` and `MainLayout`, and `refresh_view_attrs`;
  - `Clock.schedule_once`, which defers the first refresh; `OnStart` runs it directly;
  - the tab fallback (solo-level/main.py:102-103): the current tab's text is a parameter;
  - clearing the input fields.
- RefreshTaskList: the `self.root.ids.get(...)` widget check is not modelled; the list data is always written. The callback lambdas in each row are not modelled either; a row is id, title, points and completed.
- The scoreboard label text `"Total Points: ..."` is not modelled; the field holds the integer.
- `__repr__` methods and `print` calls are left out, being display only.
- Reordering, priority assignment and quick-note saving or loading do not exist in the code. A `QuickNote` has only its record and default.
- ParseInt: models `int()` on an optional sign and ASCII decimal digits, after skipping the whitespace `int()` skips: what `strip()` cuts except the information separators U+001C..U+001F, which make `int()` fail. It does not accept the digit-group underscores or non-ASCII decimal digits that Python allows. It also has no limit on the number of digits. CPython refuses to convert text of more than 4300 digits by default, since version 3.11 (`ValueError`, so the code stores 0 points), while the model returns the value.
- Lower: ASCII only; Python's full Unicode case mapping is not modelled. Capitalize builds on it and is ASCII only too.
- Integers are unbounded. SQLite's 64-bit integer column limit is not modelled.
- Ids come from a per-table counter, so a deleted task's id is never reused. SQLite may reuse the largest rowid after a deletion. The model relies only on fresh ids being distinct from the ids stored at that moment.
- ToggleTaskCompletion: like the source, it does not refresh the task lists. The stored list data keeps the task's old `completed` value until the next list refresh.
