/**
 * The relational store behind the controller, held in memory: the `categories` table as
 * a sequence in insertion (= id) order, the `tasks` table as a map from primary key to
 * row, and one id counter per table. Its invariant carries the schema's constraints.
 */
module Storage {
  import opened Wrappers
  import opened Models
  import opened Scoring

  class Store {
    var categories: seq<Category>
    var tasks: map<int, Task>
    /** The primary key the next inserted category gets. */
    var nextCategoryId: int
    /** The primary key the next inserted task gets. */
    var nextTaskId: int

    /** The schema's constraints: primary keys, unique names, the non-null foreign key. */
    ghost predicate Valid()
      reads this
    {
      && 1 <= nextCategoryId && 1 <= nextTaskId
      && AscendingIds(categories)
      && (forall i :: 0 <= i < |categories| ==> 1 <= categories[i].id < nextCategoryId)
      && UniqueNames(categories)
      && KeyedById(tasks)
      && (forall k :: k in tasks ==> 1 <= k < nextTaskId)
      && NoOrphans(categories, tasks)
    }

    /** A store over freshly created, empty tables. */
    constructor ()
      ensures Valid()
      ensures categories == [] && tasks == map[]
    {
      categories := [];
      tasks := map[];
      nextCategoryId := 1;
      nextTaskId := 1;
    }

    /** `query(Category).filter(Category.name == name).first()`. */
    function CategoryNamed(name: string): (r: Option<Category>)
      reads this
      ensures r.Some? <==> name in Names(categories)
      ensures r.Some? ==> r.value in categories && r.value.name == name
    {
      FindCategory(categories, name)
    }

    /** `query(Task).filter(Task.id == id).first()`: a stored task whose id is `id`, if any. */
    function TaskWithId(id: int): (r: Option<Task>)
      reads this
      requires Valid()
      ensures r.Some? <==> exists k :: k in tasks && tasks[k].id == id
      ensures r.Some? ==> r.value in tasks.Values && r.value.id == id
    {
      if id in tasks then Some(tasks[id]) else None
    }

    /** Since tasks are keyed by id, the id-column lookup is the lookup of the key. */
    lemma TaskWithIdIsKey(id: int)
      requires Valid()
      ensures TaskWithId(id).Some? <==> id in tasks
      ensures TaskWithId(id).Some? ==> TaskWithId(id).value == tasks[id]
    {
      if TaskWithId(id).Some? {
        var t := TaskWithId(id).value;
        var k :| k in tasks && tasks[k] == t;
      }
    }

    /**
     * The rows of the tasks of category `categoryId`, sorted by task id: one row per task
     * of that category and no other row.
     */
    function TaskRows(categoryId: int): (rows: seq<Row>)
      reads this
      requires Valid()
      ensures ListsCategory(rows, tasks, categoryId)
    {
      RowsBetweenExact(tasks, categoryId, 1, nextTaskId);
      RowsBetween(tasks, categoryId, 1, nextTaskId)
    }

    /**
     * Inserts a category called `name` under a fresh id. A name already present violates
     * the unique constraint: the insert is refused and nothing changes.
     */
    method InsertCategory(name: string) returns (ok: bool)
      requires Valid()
      modifies this
      ensures Valid()
      ensures ok <==> name !in old(Names(categories))
      ensures ok ==> categories == old(categories) + [Category(old(nextCategoryId), name)]
                     && nextCategoryId == old(nextCategoryId) + 1
      ensures !ok ==> categories == old(categories) && nextCategoryId == old(nextCategoryId)
      ensures tasks == old(tasks) && nextTaskId == old(nextTaskId)
    {
      ok := CategoryNamed(name).None?;
      if ok {
        categories := categories + [Category(nextCategoryId, name)];
        nextCategoryId := nextCategoryId + 1;
      }
    }

    /**
     * Inserts a task of category `categoryId` under a fresh id; `completed` and `priority`
     * take their column defaults.
     */
    method InsertTask(title: string, points: int, categoryId: int) returns (id: int)
      requires Valid() && categoryId in CategoryIds(categories)
      modifies this
      ensures Valid()
      ensures id == old(nextTaskId) && id !in old(tasks)
      ensures tasks == old(tasks)[id := Task(id, title, categoryId, points := points)]
      ensures nextTaskId == old(nextTaskId) + 1
      ensures categories == old(categories) && nextCategoryId == old(nextCategoryId)
    {
      id := nextTaskId;
      tasks := tasks[id := Task(id, title, categoryId, points := points)];
      nextTaskId := nextTaskId + 1;
    }

    /** Deletes the task with primary key `id`. */
    method DeleteTask(id: int)
      requires Valid() && id in tasks
      modifies this
      ensures Valid()
      ensures tasks == old(tasks) - {id}
      ensures categories == old(categories)
      ensures nextCategoryId == old(nextCategoryId) && nextTaskId == old(nextTaskId)
    {
      tasks := tasks - {id};
    }

    /** Writes `value` into the `completed` column of task `id`. */
    method SetCompleted(id: int, value: bool)
      requires Valid() && id in tasks
      modifies this
      ensures Valid()
      ensures tasks == old(tasks)[id := old(tasks)[id].(completed := value)]
      ensures categories == old(categories)
      ensures nextCategoryId == old(nextCategoryId) && nextTaskId == old(nextTaskId)
    {
      tasks := tasks[id := tasks[id].(completed := value)];
    }

    /** Deletes category `id` and, by the cascade "all, delete-orphan", every task it owns. */
    method DeleteCategory(id: int)
      requires Valid()
      modifies this
      ensures Valid()
      ensures categories == RemoveCategory(old(categories), id)
      ensures tasks == Cascade(old(categories), old(tasks), id)
      ensures nextCategoryId == old(nextCategoryId) && nextTaskId == old(nextTaskId)
    {
      RemoveCategoryKeepsOrder(categories, id);
      tasks := Cascade(categories, tasks, id);
      categories := RemoveCategory(categories, id);
    }

    /**
     * `sum(task.points for task in query(Task).filter(Task.completed == True).all())`:
     * the scoreboard total.
     */
    method CompletedPoints() returns (total: int)
      requires Valid()
      ensures total == Score(tasks)
    {
      total := 0;
      var pending := tasks;
      while exists k :: k in pending
        invariant forall k :: k in pending ==> k in tasks && pending[k] == tasks[k]
        invariant total + Score(pending) == Score(tasks)
        decreases |pending|
      {
        var k :| k in pending;
        ScoreRemove(pending, k);
        total := total + Earned(pending[k]);
        pending := pending - {k};
      }
      ScoreNoneCompleted(pending);
    }
  }
}
