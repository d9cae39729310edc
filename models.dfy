/**
 * The three persisted records (tables `categories`, `tasks`, `quick_notes`), the row the
 * task list shows, and the invariants and derived views the store and the controller use.
 */
module Models {
  import opened Wrappers

  /** A row of `categories`: a day of the week that owns tasks. */
  datatype Category = Category(id: int, name: string)

  /**
   * A row of `tasks`. `points`, `completed` and `priority` take the column defaults when a
   * task is built without them; `categoryId` is the non-null foreign key to `categories`.
   */
  datatype Task = Task(
    id: int,
    title: string,
    categoryId: int,
    points: int := 0,
    completed: bool := false,
    priority: int := 0)

  /** A row of `quick_notes`. */
  datatype QuickNote = QuickNote(id: int, content: string := "")

  /** What one line of a category's task list shows. */
  datatype Row = Row(taskId: int, title: string, points: int, completed: bool)

  /** A task built from only its required columns carries the column defaults. */
  lemma TaskDefaults(id: int, title: string, categoryId: int)
    ensures var t := Task(id, title, categoryId);
            t.points == 0 && !t.completed && t.priority == 0
  {
  }

  /** A quick note built without content holds the empty text. */
  lemma QuickNoteDefaults(id: int)
    ensures QuickNote(id).content == ""
  {
  }

  function RowOf(t: Task): Row {
    Row(t.id, t.title, t.points, t.completed)
  }

  function Names(cats: seq<Category>): set<string> {
    set c | c in cats :: c.name
  }

  function CategoryIds(cats: seq<Category>): set<int> {
    set c | c in cats :: c.id
  }

  /** `name` is declared `unique=True`: no two categories share a name. */
  predicate UniqueNames(cats: seq<Category>) {
    forall i, j :: 0 <= i < j < |cats| ==> cats[i].name != cats[j].name
  }

  /** Category ids are primary keys handed out in insertion order. */
  predicate AscendingIds(cats: seq<Category>) {
    forall i, j :: 0 <= i < j < |cats| ==> cats[i].id < cats[j].id
  }

  /** Every task is stored under its own primary key. */
  predicate KeyedById(tasks: map<int, Task>) {
    forall k :: k in tasks ==> tasks[k].id == k
  }

  /** `category_id` is a non-null foreign key: every task references an existing category. */
  predicate NoOrphans(cats: seq<Category>, tasks: map<int, Task>) {
    forall k :: k in tasks ==> tasks[k].categoryId in CategoryIds(cats)
  }

  /** The first category called `name`, as `query(Category).filter(name == ...).first()`. */
  function FindCategory(cats: seq<Category>, name: string): (r: Option<Category>)
    ensures r.Some? <==> name in Names(cats)
    ensures r.Some? ==> r.value in cats && r.value.name == name
  {
    if cats == [] then None
    else if cats[0].name == name then Some(cats[0])
    else FindCategory(cats[1..], name)
  }

  /** The category with primary key `id` (what `task.category` resolves to). */
  function FindCategoryById(cats: seq<Category>, id: int): (r: Option<Category>)
    ensures r.Some? <==> id in CategoryIds(cats)
    ensures r.Some? ==> r.value in cats && r.value.id == id
  {
    if cats == [] then None
    else if cats[0].id == id then Some(cats[0])
    else FindCategoryById(cats[1..], id)
  }

  /**
   * Under the uniqueness constraint a lookup by name finds exactly the one category with
   * that name, which is what `.one()` relies on.
   */
  lemma {:induction false} FindCategoryUnique(cats: seq<Category>, i: nat)
    requires UniqueNames(cats) && i < |cats|
    ensures FindCategory(cats, cats[i].name) == Some(cats[i])
  {
    if i > 0 {
      assert cats[0].name != cats[i].name;
      FindCategoryUnique(cats[1..], i - 1);
    }
  }

  /** With unique names there are exactly as many categories as category names. */
  lemma {:induction false} NamesCount(cats: seq<Category>)
    requires UniqueNames(cats)
    ensures |Names(cats)| == |cats|
  {
    if cats != [] {
      NamesCount(cats[1..]);
      assert Names(cats) == {cats[0].name} + Names(cats[1..]);
      assert cats[0].name !in Names(cats[1..]) by {
        forall j | 0 <= j < |cats[1..]| ensures cats[1..][j].name != cats[0].name {
          assert cats[1..][j] == cats[j + 1];
        }
      }
    }
  }

  /** The categories left after deleting the one with primary key `id`. */
  function RemoveCategory(cats: seq<Category>, id: int): (r: seq<Category>)
    ensures CategoryIds(r) == CategoryIds(cats) - {id}
    ensures forall c :: c in r <==> c in cats && c.id != id
    ensures |r| <= |cats|
  {
    if cats == [] then []
    else if cats[0].id == id then RemoveCategory(cats[1..], id)
    else [cats[0]] + RemoveCategory(cats[1..], id)
  }

  /** Deleting a category keeps the others in order, with their unique names. */
  lemma RemoveCategoryKeepsOrder(cats: seq<Category>, id: int)
    requires AscendingIds(cats) && UniqueNames(cats)
    ensures AscendingIds(RemoveCategory(cats, id)) && UniqueNames(RemoveCategory(cats, id))
  {
    RemoveKeepsAscending(cats, id);
    RemoveKeepsUnique(cats, id);
  }

  lemma {:induction false} RemoveKeepsAscending(cats: seq<Category>, id: int)
    requires AscendingIds(cats)
    ensures AscendingIds(RemoveCategory(cats, id))
  {
    if cats != [] {
      HeadAndTail(cats);
      RemoveKeepsAscending(cats[1..], id);
      if cats[0].id != id {
        AscendingCons(cats[0], RemoveCategory(cats[1..], id));
      }
    }
  }

  lemma {:induction false} RemoveKeepsUnique(cats: seq<Category>, id: int)
    requires UniqueNames(cats)
    ensures UniqueNames(RemoveCategory(cats, id))
  {
    if cats != [] {
      HeadAndTail(cats);
      RemoveKeepsUnique(cats[1..], id);
      if cats[0].id != id {
        UniqueCons(cats[0], RemoveCategory(cats[1..], id));
      }
    }
  }

  /** How the two pairwise orders of a list relate its head to its tail. */
  lemma HeadAndTail(cats: seq<Category>)
    requires cats != []
    ensures AscendingIds(cats) ==> AscendingIds(cats[1..]) && forall c :: c in cats[1..] ==> cats[0].id < c.id
    ensures UniqueNames(cats) ==> UniqueNames(cats[1..]) && forall c :: c in cats[1..] ==> cats[0].name != c.name
  {
    var tail := cats[1..];
    forall i | 0 <= i < |tail| ensures tail[i] == cats[i + 1] {
    }
  }

  lemma AscendingCons(c: Category, rest: seq<Category>)
    requires AscendingIds(rest) && forall d :: d in rest ==> c.id < d.id
    ensures AscendingIds([c] + rest)
  {
    var r := [c] + rest;
    forall i, j | 0 <= i < j < |r| ensures r[i].id < r[j].id {
      assert r[j] == rest[j - 1];
      if i > 0 { assert r[i] == rest[i - 1]; }
    }
  }

  lemma UniqueCons(c: Category, rest: seq<Category>)
    requires UniqueNames(rest) && forall d :: d in rest ==> c.name != d.name
    ensures UniqueNames([c] + rest)
  {
    var r := [c] + rest;
    forall i, j | 0 <= i < j < |r| ensures r[i].name != r[j].name {
      assert r[j] == rest[j - 1];
      if i > 0 { assert r[i] == rest[i - 1]; }
    }
  }

  /**
   * The tasks that survive deleting category `id` under cascade "all, delete-orphan": exactly
   * the tasks whose category survives, unchanged, so that no task is left orphaned.
   */
  function Cascade(cats: seq<Category>, tasks: map<int, Task>, id: int): (r: map<int, Task>)
    requires NoOrphans(cats, tasks)
    ensures NoOrphans(RemoveCategory(cats, id), r)
    ensures forall k :: k in r <==> k in tasks && tasks[k].categoryId in CategoryIds(RemoveCategory(cats, id))
    ensures forall k :: k in r ==> r[k] == tasks[k]
  {
    map k | k in tasks && tasks[k].categoryId != id :: tasks[k]
  }

  /** Without the cascade, deleting a category that still owns a task leaves that task orphaned. */
  lemma DeleteWithoutCascadeOrphans(cats: seq<Category>, tasks: map<int, Task>, k: int)
    requires k in tasks
    ensures !NoOrphans(RemoveCategory(cats, tasks[k].categoryId), tasks)
  {
  }

  // ---------------------------------------------------------------------------
  // A category's task list
  // ---------------------------------------------------------------------------

  /** Rows with strictly ascending task ids. */
  predicate SortedById(rows: seq<Row>) {
    forall i, j :: 0 <= i < j < |rows| ==> rows[i].taskId < rows[j].taskId
  }

  /**
   * `rows` is the list of category `categoryId`: strictly ascending ids, a row for every
   * task of the category copying its id, title, points and completed flag, and no other row.
   */
  predicate ListsCategory(rows: seq<Row>, tasks: map<int, Task>, categoryId: int) {
    && SortedById(rows)
    && (forall r :: r in rows ==>
          r.taskId in tasks && tasks[r.taskId].categoryId == categoryId && r == RowOf(tasks[r.taskId]))
    && (forall k :: k in tasks && tasks[k].categoryId == categoryId ==> RowOf(tasks[k]) in rows)
  }

  /** The rows of the tasks of category `categoryId` whose ids lie in `[lo, hi)`, by ascending id. */
  function RowsBetween(tasks: map<int, Task>, categoryId: int, lo: int, hi: int): (rows: seq<Row>)
    requires KeyedById(tasks)
    ensures forall i :: 0 <= i < |rows| ==> lo <= rows[i].taskId < hi
    ensures SortedById(rows)
    decreases hi - lo
  {
    if lo >= hi then []
    else
      var rest := RowsBetween(tasks, categoryId, lo + 1, hi);
      if lo in tasks && tasks[lo].categoryId == categoryId then [RowOf(tasks[lo])] + rest else rest
  }

  /**
   * The rows are exactly the tasks of the category with ids in `[lo, hi)`, each row copying
   * its task's id, title, points and completed flag.
   */
  lemma {:induction false} RowsBetweenExact(tasks: map<int, Task>, categoryId: int, lo: int, hi: int)
    requires KeyedById(tasks)
    ensures forall r :: r in RowsBetween(tasks, categoryId, lo, hi) ==>
              r.taskId in tasks && tasks[r.taskId].categoryId == categoryId && r == RowOf(tasks[r.taskId])
    ensures forall k :: k in tasks && tasks[k].categoryId == categoryId && lo <= k < hi ==>
              RowOf(tasks[k]) in RowsBetween(tasks, categoryId, lo, hi)
    decreases hi - lo
  {
    if lo < hi {
      RowsBetweenExact(tasks, categoryId, lo + 1, hi);
    }
  }
}
