/**
  The seed collection installed when storage holds no tasks or cannot be
  written. Dates are milliseconds since the Unix epoch of the UTC instants
  the seed names.
 */
module MockData {
  import opened Types
  import opened Text
  import opened TaskList
  import TaskForm

  const MockTasks: seq<Task> := [
    Task("1", "Complete project documentation",
         "Write comprehensive README.md and update API documentation for the mobile app project.",
         Pending, 1705312800000, 1705312800000),      // 2024-01-15T10:00:00Z
    Task("2", "Review code quality",
         "Conduct code review for the task management components and ensure TypeScript best practices.",
         Completed, 1705242600000, 1705396500000),    // 2024-01-14T14:30:00Z, 2024-01-16T09:15:00Z
    Task("3", "Implement user authentication",
         "Add login and registration functionality with secure token management.",
         Pending, 1705164300000, 1705164300000),      // 2024-01-13T16:45:00Z
    Task("4", "Design mobile UI components",
         "Create reusable UI components with consistent styling and responsive design.",
         Completed, 1705058400000, 1705325400000),    // 2024-01-12T11:20:00Z, 2024-01-15T13:30:00Z
    Task("5", "Setup testing framework",
         "Configure Jest and React Native Testing Library for unit and integration tests.",
         Pending, 1704963600000, 1704963600000),      // 2024-01-11T09:00:00Z
    Task("6", "Optimize app performance",
         "Implement lazy loading, memoization, and other performance optimizations.",
         Pending, 1704900600000, 1704900600000)       // 2024-01-10T15:30:00Z
  ]

  /** Six records with the distinct ids "1" to "6". */
  lemma MockTasksIds()
    ensures |MockTasks| == 6
    ensures forall i :: 0 <= i < 6 ==> MockTasks[i].id == [('1' as int + i) as char]
    ensures UniqueIds(MockTasks)
  {
  }

  /** Strictly newest first, as `addTask` orders records. */
  lemma MockTasksNewestFirst()
    ensures forall i, j :: 0 <= i < j < |MockTasks| ==> MockTasks[i].createdAt > MockTasks[j].createdAt
    ensures NewestFirst(MockTasks)
  {
  }

  /** Pending records were never updated after creation; the completed
      ones (ids 2 and 4) were. So every record is well timed. */
  lemma MockTasksTiming()
    ensures forall i :: 0 <= i < |MockTasks| && MockTasks[i].status == Pending ==>
              MockTasks[i].updatedAt == MockTasks[i].createdAt
    ensures forall i :: 0 <= i < |MockTasks| && MockTasks[i].status == Completed ==>
              MockTasks[i].updatedAt > MockTasks[i].createdAt
    ensures WellTimed(MockTasks)
  {
  }

  /** Every seed record would pass the task form's check. */
  lemma MockTasksAcceptedByForm()
    ensures forall i :: 0 <= i < |MockTasks| ==>
              var t := MockTasks[i];
              TaskForm.Submission(TaskFormData(t.title, t.description)).Submitted?
  {
    forall i | 0 <= i < |MockTasks|
      ensures !IsBlank(MockTasks[i].title) && !IsBlank(MockTasks[i].description)
    {
      var t := MockTasks[i];
      // Every title and description ends in a letter or a full stop.
      assert !IsWhitespace(t.title[|t.title| - 1]) && !IsWhitespace(t.description[|t.description| - 1]);
      BlankIffAllWhitespace(t.title);
      BlankIffAllWhitespace(t.description);
    }
  }
}
