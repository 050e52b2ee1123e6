/**
 * The project service's statistics producer (`ProjectStatisticsServiceImpl`): a project with at
 * least one task counts as in progress, any other project as completed. A project's tasks are the
 * stored tasks that reference it.
 */
module ProjectStatistics {
  import opened Wrappers
  import opened Sequences
  import opened Tables
  import opened ProjectModel
  import opened ProjectStore
  import opened StatisticsMessages

  /**
   * A project counted as in progress: its task list is non-empty, that is some stored task
   * references it.
   */
  function HasTasks(tasks: Table<Task>): (h: Project -> bool)
    requires tasks.Valid()
    ensures forall p :: h(p) <==>
      p.id.Some? && exists k | k in tasks.rows :: tasks.rows[k].projectId == p.id.value
  {
    var h := (p: Project) => |TasksOf(tasks, p)| > 0;
    assert forall p :: h(p) <==>
      p.id.Some? && exists k | k in tasks.rows :: tasks.rows[k].projectId == p.id.value by {
      forall p ensures h(p) <==>
        p.id.Some? && exists k | k in tasks.rows :: tasks.rows[k].projectId == p.id.value {
        var ts := TasksOf(tasks, p);
        if h(p) {
          tasks.SelectedStored(InProject(p.id.value), 0);
          var k :| k in tasks.rows && tasks.rows[k] == ts[0];
          assert tasks.rows[k].projectId == p.id.value;
        }
      }
    }
    h
  }

  /** A project counted as completed: its task list is empty. */
  function HasNoTasks(tasks: Table<Task>): (h: Project -> bool)
    requires tasks.Valid()
    ensures forall p :: h(p) <==> !HasTasks(tasks)(p)
  {
    (p: Project) => |TasksOf(tasks, p)| == 0
  }

  /**
   * `getProjectCount`: the number of stored projects and of those in progress. The completed
   * figure is never set, so the receiver reads 0.
   */
  function GetProjectCount(projects: Table<Project>, tasks: Table<Task>): (r: ProjectCountResponse)
    requires projects.Valid() && tasks.Valid()
    ensures r.totalProjects == |projects.rows|
    ensures r.inProgressProjects == |projects.Matching(HasTasks(tasks))|
    ensures r.completedProjects == 0
  {
    projects.CountIsMatching(HasTasks(tasks));
    ProjectCountResponse(projects.Count(), 0, Count(projects.FindAll(), HasTasks(tasks)))
  }

  /** `getCompletedProjects`: the number of stored projects without tasks. */
  function GetCompletedProjects(projects: Table<Project>, tasks: Table<Task>): (r: CompletedProjectsResponse)
    requires projects.Valid() && tasks.Valid()
    ensures r.completedProjects == |projects.Matching(HasNoTasks(tasks))|
  {
    projects.CountIsMatching(HasNoTasks(tasks));
    CompletedProjectsResponse(Count(projects.FindAll(), HasNoTasks(tasks)))
  }

  /**
   * Over the same stored projects and tasks, the in-progress count of `getProjectCount` and the
   * count of `getCompletedProjects` add up to the total, so neither exceeds it.
   */
  lemma InProgressAndCompletedPartition(projects: Table<Project>, tasks: Table<Task>)
    requires projects.Valid() && tasks.Valid()
    ensures GetProjectCount(projects, tasks).inProgressProjects
          + GetCompletedProjects(projects, tasks).completedProjects
         == GetProjectCount(projects, tasks).totalProjects
    ensures GetProjectCount(projects, tasks).inProgressProjects <= GetProjectCount(projects, tasks).totalProjects
    ensures GetCompletedProjects(projects, tasks).completedProjects <= GetProjectCount(projects, tasks).totalProjects
  {
    CountPartition(projects.FindAll(), HasTasks(tasks), HasNoTasks(tasks));
  }
}
