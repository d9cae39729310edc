/**
 * The task-state controller of the application (`SoloLevelingApp`): it seeds the weekday
 * categories, adds, deletes and completes tasks, and after each change recomputes the two
 * views it pushes to the screen — a category's task list and the scoreboard total.
 */
module App {
  import opened Wrappers
  import opened Text
  import opened Models
  import opened Scoring
  import opened Storage

  /** The weekday list seeding walks, in lower case as written. */
  const Days: seq<string> := ["monday", "tuesday", "wednesday", "thursday", "friday", "saturday", "sunday"]

  /** The category names seeding creates. */
  const Weekdays: seq<string> := ["Monday", "Tuesday", "Wednesday", "Thursday", "Friday", "Saturday", "Sunday"]

  function WeekdaySet(): set<string> {
    set w | w in Weekdays
  }

  /** Capitalizing each lower-case day gives the weekday name, which is its own capitalized form. */
  lemma WeekdayNames()
    ensures |Days| == |Weekdays| == 7
    ensures forall i :: 0 <= i < 7 ==> Capitalize(Days[i]) == Weekdays[i]
    ensures forall i :: 0 <= i < 7 ==> Capitalize(Lower(Weekdays[i])) == Weekdays[i]
  {
    forall i | 0 <= i < 7
      ensures Capitalize(Days[i]) == Weekdays[i]
      ensures Capitalize(Lower(Weekdays[i])) == Weekdays[i]
    {
      CapitalizeWord(Days[i], Weekdays[i]);
      CapitalizeOfLower(Weekdays[i]);
      CapitalizeIdempotent(Days[i]);
    }
  }

  /** The names seeding gives a list of days. */
  function DayNames(days: seq<string>): set<string> {
    set d | d in days :: Capitalize(d)
  }

  lemma DayNamesPrefix(days: seq<string>, i: nat)
    requires i < |days|
    ensures DayNames(days[..i + 1]) == DayNames(days[..i]) + {Capitalize(days[i])}
  {
    assert days[..i + 1] == days[..i] + [days[i]];
  }

  lemma DayNamesAreWeekdays()
    ensures DayNames(Days) == WeekdaySet()
  {
    WeekdayNames();
    forall w | w in WeekdaySet()
      ensures w in DayNames(Days)
    {
      var i :| 0 <= i < 7 && Weekdays[i] == w;
      assert Days[i] in Days;
    }
  }

  /** The keys of the list widgets of `cats`: the lower-cased category names. */
  function ListKeys(cats: seq<Category>): set<string> {
    set c | c in cats :: Lower(c.name)
  }

  lemma ListKeysPrefix(cats: seq<Category>, i: nat)
    requires i < |cats|
    ensures ListKeys(cats[..i + 1]) == ListKeys(cats[..i]) + {Lower(cats[i].name)}
    ensures ListKeys(cats[..i + 1]) <= ListKeys(cats)
  {
    assert cats[..i + 1] == cats[..i] + [cats[i]];
  }

  /** Updating a merged map is merging the updated map. */
  lemma MergeUpdate<K, V>(m: map<K, V>, n: map<K, V>, k: K, v: V)
    ensures (m + n)[k := v] == m + n[k := v]
  {
  }

  /** The seven weekday names are distinct. */
  lemma WeekdayCount()
    ensures |WeekdaySet()| == 7
  {
    assert WeekdaySet() == {"Monday", "Tuesday", "Wednesday", "Thursday", "Friday", "Saturday", "Sunday"};
  }

  /**
   * Every category name is in capitalized form. Refreshing a category's list looks it up
   * again by `capitalize(name.lower())`, which then finds the same category.
   */
  predicate CapitalizedNames(cats: seq<Category>) {
    forall i :: 0 <= i < |cats| ==> Capitalize(Lower(cats[i].name)) == cats[i].name
  }

  class SoloLevelingApp {
    /** The session's store, handed in when the application is built. */
    const db: Store
    /** The data of each `<name>_task_list` widget, keyed by lower-case category name. */
    var taskLists: map<string, seq<Row>>
    /** The total the scoreboard label shows. */
    var scoreboard: int

    ghost predicate Valid()
      reads db
    {
      db.Valid() && CapitalizedNames(db.categories)
    }

    constructor (db: Store)
      requires db.Valid() && CapitalizedNames(db.categories)
      ensures Valid() && this.db == db
      ensures taskLists == map[] && scoreboard == 0
    {
      this.db := db;
      taskLists := map[];
      scoreboard := 0;
    }

    /** The list refresh for `key` finds its category: `capitalize(key)` names one. */
    predicate HasList(key: string)
      reads db
    {
      Capitalize(key) in Names(db.categories)
    }

    /**
     * The data of the list for `key`: the rows of the category named `capitalize(key)`,
     * one per task of that category, sorted by task id.
     */
    function ListFor(key: string): (rows: seq<Row>)
      reads db
      requires db.Valid() && HasList(key)
      ensures exists c :: c in db.categories && c.name == Capitalize(key) && ListsCategory(rows, db.tasks, c.id)
    {
      var c := db.CategoryNamed(Capitalize(key)).value;
      db.TaskRows(c.id)
    }

    /** Seeds one category per weekday, inserting only the names not yet present. */
    method LoadDataFromDb()
      requires Valid()
      modifies db
      ensures Valid()
      ensures db.tasks == old(db.tasks) && db.nextTaskId == old(db.nextTaskId)
      ensures old(db.categories) <= db.categories
      ensures Names(db.categories) == old(Names(db.categories)) + WeekdaySet()
      ensures WeekdaySet() <= old(Names(db.categories)) ==> unchanged(db)
      ensures old(db.categories) == [] ==> |db.categories| == 7
    {
      DayNamesAreWeekdays();
      WeekdayCount();
      SeedDays(Days);
      if old(db.categories) == [] {
        NamesCount(db.categories);
      }
    }

    /**
     * The seeding loop: for each day, the category `capitalize(day)` is made to exist. The
     * days capitalize to as many distinct names as there are days, as the weekdays do, so
     * no name is inserted twice before the single commit.
     */
    method SeedDays(days: seq<string>)
      requires Valid()
      requires |DayNames(days)| == |days|
      modifies db
      ensures Valid()
      ensures db.tasks == old(db.tasks) && db.nextTaskId == old(db.nextTaskId)
      ensures old(db.categories) <= db.categories
      ensures Names(db.categories) == old(Names(db.categories)) + DayNames(days)
      ensures DayNames(days) <= old(Names(db.categories)) ==> unchanged(db)
    {
      ghost var before := Names(db.categories);
      for i := 0 to |days|
        invariant Valid()
        invariant db.tasks == old(db.tasks) && db.nextTaskId == old(db.nextTaskId)
        invariant old(db.categories) <= db.categories
        invariant Names(db.categories) == before + DayNames(days[..i])
        invariant DayNames(days) <= before ==> unchanged(db)
      {
        DayNamesPrefix(days, i);
        CapitalizeOfLower(Capitalize(days[i]));
        CapitalizeIdempotent(days[i]);
        SeedCategory(Capitalize(days[i]));
      }
      assert days[..|days|] == days;
    }

    /** One step of seeding: look the category `name` up and insert it when it is missing. */
    method SeedCategory(name: string)
      requires Valid() && Capitalize(Lower(name)) == name
      modifies db
      ensures Valid()
      ensures db.tasks == old(db.tasks) && db.nextTaskId == old(db.nextTaskId)
      ensures old(db.categories) <= db.categories
      ensures Names(db.categories) == old(Names(db.categories)) + {name}
      ensures name in old(Names(db.categories)) ==> unchanged(db)
    {
      var category := db.CategoryNamed(name);
      if category.None? {
        var _ := db.InsertCategory(name);
      }
    }

    /**
     * Adds a task to the category named `tab` (the current tab's text). A title that is
     * blank after stripping is ignored. Otherwise the points text is parsed (0 when empty
     * or not an integer), the category is resolved by exact name, the task is inserted
     * with the stripped title and `completed` false, and the list and scoreboard refresh.
     */
    method AddTask(tab: string, titleText: string, pointsText: string)
      requires Valid()
      requires Strip(titleText) != [] ==> tab in Names(db.categories)
      modifies this, db
      ensures Valid()
      ensures Strip(titleText) == [] ==> unchanged(this) && unchanged(db)
      ensures Strip(titleText) != [] ==>
                var id := old(db.nextTaskId);
                var category := FindCategory(old(db.categories), tab).value;
                && id !in old(db.tasks)
                && db.tasks == old(db.tasks)[id := Task(id, Strip(titleText), category.id, points := ParsePoints(pointsText))]
                && db.categories == old(db.categories)
                && db.nextTaskId == old(db.nextTaskId) + 1 && db.nextCategoryId == old(db.nextCategoryId)
                && HasList(Lower(tab))
                && taskLists == old(taskLists)[Lower(tab) := ListFor(Lower(tab))]
                && scoreboard == Score(db.tasks) == Score(old(db.tasks))
    {
      var title := Strip(titleText);
      if title == [] {
        return;
      }
      var points := ParsePoints(pointsText);
      var category := db.CategoryNamed(tab).value;
      ghost var before := db.tasks;
      var id := db.InsertTask(title, points, category.id);
      ScoreInsert(before, id, db.tasks[id]);
      CategoryHasList(category);
      RefreshUiForCategory(Lower(tab));
    }

    /**
     * Deletes the task with id `taskId` and refreshes its category's list and the
     * scoreboard; an id with no task is ignored.
     */
    method DeleteTask(taskId: int)
      requires Valid()
      modifies this, db
      ensures Valid()
      ensures taskId !in old(db.tasks) ==> unchanged(this) && unchanged(db)
      ensures taskId in old(db.tasks) ==>
                var task := old(db.tasks)[taskId];
                var key := Lower(FindCategoryById(old(db.categories), task.categoryId).value.name);
                && db.tasks == old(db.tasks) - {taskId}
                && db.categories == old(db.categories)
                && db.nextTaskId == old(db.nextTaskId) && db.nextCategoryId == old(db.nextCategoryId)
                && HasList(key)
                && taskLists == old(taskLists)[key := ListFor(key)]
                && scoreboard == Score(db.tasks) == Score(old(db.tasks)) - Earned(task)
    {
      var found := db.TaskWithId(taskId);
      db.TaskWithIdIsKey(taskId);
      if found.Some? {
        var categoryName := FindCategoryById(db.categories, found.value.categoryId).value.name;
        ScoreRemove(db.tasks, taskId);
        db.DeleteTask(taskId);
        CategoryHasList(FindCategoryById(db.categories, found.value.categoryId).value);
        RefreshUiForCategory(Lower(categoryName));
      }
    }

    /**
     * Sets task `taskId`'s `completed` flag to `isCompleted` and refreshes the scoreboard;
     * nothing happens when there is no such task or the flag already has that value.
     * The task lists are not refreshed.
     */
    method ToggleTaskCompletion(taskId: int, isCompleted: bool)
      requires Valid()
      modifies this, db
      ensures Valid()
      ensures taskId !in old(db.tasks) || old(db.tasks)[taskId].completed == isCompleted ==>
                unchanged(this) && unchanged(db)
      ensures taskId in old(db.tasks) && old(db.tasks)[taskId].completed != isCompleted ==>
                var task := old(db.tasks)[taskId];
                && db.tasks == old(db.tasks)[taskId := task.(completed := isCompleted)]
                && db.categories == old(db.categories)
                && db.nextTaskId == old(db.nextTaskId) && db.nextCategoryId == old(db.nextCategoryId)
                && taskLists == old(taskLists)
                && scoreboard == Score(db.tasks)
                && Score(db.tasks) == Score(old(db.tasks)) + (if isCompleted then task.points else -task.points)
    {
      var found := db.TaskWithId(taskId);
      db.TaskWithIdIsKey(taskId);
      if found.Some? && found.value.completed != isCompleted {
        ScoreToggle(db.tasks, taskId, isCompleted);
        db.SetCompleted(taskId, isCompleted);
        RefreshScoreboard();
      }
    }

    /** Refreshes the list of category `capitalize(key)` and then the scoreboard. */
    method RefreshUiForCategory(key: string)
      requires Valid() && HasList(key)
      modifies this
      ensures taskLists == old(taskLists)[key := ListFor(key)]
      ensures scoreboard == Score(db.tasks)
    {
      RefreshTaskList(key);
      RefreshScoreboard();
    }

    /** Every category's list key leads back to that category. */
    lemma AllListed()
      requires Valid()
      ensures forall key :: key in ListKeys(db.categories) ==> HasList(key)
    {
      forall key | key in ListKeys(db.categories)
        ensures HasList(key)
      {
        var c :| c in db.categories && key == Lower(c.name);
        CategoryHasList(c);
      }
    }

    /** A stored category's lower-cased name leads the list refresh back to it. */
    lemma CategoryHasList(c: Category)
      requires Valid() && c in db.categories
      ensures HasList(Lower(c.name))
    {
      var i :| 0 <= i < |db.categories| && db.categories[i] == c;
    }

    /** The data every list of `keys` shows once it is refreshed. */
    ghost function ListsFor(keys: set<string>): map<string, seq<Row>>
      reads db
      requires db.Valid() && forall key :: key in keys ==> HasList(key)
    {
      map key | key in keys :: ListFor(key)
    }

    lemma ListsForAdd(keys: set<string>, key: string)
      requires db.Valid() && (forall k :: k in keys ==> HasList(k)) && HasList(key)
      ensures ListsFor(keys + {key}) == ListsFor(keys)[key := ListFor(key)]
    {
    }

    /**
     * Refreshes every category's list, then the scoreboard. The lists of the categories
     * hold their rows; any other list keeps its data.
     */
    method RefreshAllTaskLists()
      requires Valid()
      modifies this
      ensures forall key :: key in ListKeys(db.categories) ==> HasList(key)
      ensures taskLists == old(taskLists) + ListsFor(ListKeys(db.categories))
      ensures scoreboard == Score(db.tasks)
    {
      var categories := db.categories;
      AllListed();
      for i := 0 to |categories|
        invariant ListKeys(categories[..i]) <= ListKeys(categories)
        invariant taskLists == old(taskLists) + ListsFor(ListKeys(categories[..i]))
      {
        var key := Lower(categories[i].name);
        ListKeysPrefix(categories, i);
        ListsForAdd(ListKeys(categories[..i]), key);
        MergeUpdate(old(taskLists), ListsFor(ListKeys(categories[..i])), key, ListFor(key));
        RefreshTaskList(key);
      }
      assert categories[..|categories|] == categories;
      RefreshScoreboard();
    }

    /** Replaces the data of the list widget for `key` by the rows of category `capitalize(key)`. */
    method RefreshTaskList(key: string)
      requires Valid() && HasList(key)
      modifies this`taskLists
      ensures taskLists == old(taskLists)[key := ListFor(key)]
    {
      taskLists := taskLists[key := ListFor(key)];
    }

    /** Sets the scoreboard to the total points of the completed tasks. */
    method RefreshScoreboard()
      requires Valid()
      modifies this`scoreboard
      ensures scoreboard == Score(db.tasks)
    {
      scoreboard := db.CompletedPoints();
    }

    /** Start-up: seed the categories, then refresh every list and the scoreboard. */
    method OnStart()
      requires Valid()
      modifies this, db
      ensures Valid()
      ensures Names(db.categories) == old(Names(db.categories)) + WeekdaySet()
      ensures db.tasks == old(db.tasks)
      ensures forall key :: key in ListKeys(db.categories) ==> HasList(key)
      ensures taskLists == old(taskLists) + ListsFor(ListKeys(db.categories))
      ensures scoreboard == Score(db.tasks)
    {
      LoadDataFromDb();
      RefreshAllTaskLists();
    }
  }
}
