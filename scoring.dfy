/** The scoreboard: the total of the points of the completed tasks. */
module Scoring {
  import opened Models

  /** What a task adds to the scoreboard: its points when completed, nothing otherwise. */
  function Earned(t: Task): int {
    if t.completed then t.points else 0
  }

  /** The sum of `points` over the completed tasks of `tasks`, 0 when there are none. */
  ghost function Score(tasks: map<int, Task>): int
    decreases |tasks|
  {
    if exists k :: k in tasks then
      var k :| k in tasks;
      Earned(tasks[k]) + Score(tasks - {k})
    else 0
  }

  /** The sum does not depend on the order the tasks are taken in: any one task can be split off. */
  lemma {:induction false} ScoreSplit(tasks: map<int, Task>, k: int)
    requires k in tasks
    ensures Score(tasks) == Earned(tasks[k]) + Score(tasks - {k})
    decreases |tasks|
  {
    var j :| j in tasks && Score(tasks) == Earned(tasks[j]) + Score(tasks - {j});
    if j != k {
      assert tasks - {k} - {j} == tasks - {j} - {k};
      ScoreSplit(tasks - {j}, k);
      ScoreSplit(tasks - {k}, j);
    }
  }

  /** With no completed task the scoreboard reads 0. */
  lemma {:induction false} ScoreNoneCompleted(tasks: map<int, Task>)
    requires forall k :: k in tasks ==> !tasks[k].completed
    ensures Score(tasks) == 0
    decreases |tasks|
  {
    if exists k :: k in tasks {
      var k :| k in tasks && Score(tasks) == Earned(tasks[k]) + Score(tasks - {k});
      ScoreNoneCompleted(tasks - {k});
      assert Earned(tasks[k]) == 0;
    }
  }

  /** Adding a task under a new key raises the score by what that task earns. */
  lemma ScoreInsert(tasks: map<int, Task>, k: int, t: Task)
    requires k !in tasks
    ensures Score(tasks[k := t]) == Score(tasks) + Earned(t)
  {
    ScoreSplit(tasks[k := t], k);
    assert tasks[k := t] - {k} == tasks;
  }

  /** Removing a task lowers the score by what that task earned. */
  lemma ScoreRemove(tasks: map<int, Task>, k: int)
    requires k in tasks
    ensures Score(tasks - {k}) == Score(tasks) - Earned(tasks[k])
  {
    ScoreSplit(tasks, k);
  }

  /** Replacing a task changes the score by the difference of what the two versions earn. */
  lemma ScoreReplace(tasks: map<int, Task>, k: int, t: Task)
    requires k in tasks
    ensures Score(tasks[k := t]) == Score(tasks) - Earned(tasks[k]) + Earned(t)
  {
    ScoreSplit(tasks, k);
    ScoreSplit(tasks[k := t], k);
    assert tasks[k := t] - {k} == tasks - {k};
  }

  /**
   * Marking a task completed raises the score by its points; marking it not completed
   * lowers the score by its points.
   */
  lemma ScoreToggle(tasks: map<int, Task>, k: int, done: bool)
    requires k in tasks && tasks[k].completed != done
    ensures Score(tasks[k := tasks[k].(completed := done)])
            == Score(tasks) + (if done then tasks[k].points else -tasks[k].points)
  {
    ScoreReplace(tasks, k, tasks[k].(completed := done));
  }
}
