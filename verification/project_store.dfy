/**
 * The project service's database as its two JPA repositories share it. Every task references the
 * project it was created in. A project's task list (`getTasks`) is the inverse side of that
 * reference: the stored tasks that reference it.
 */
module ProjectStore {
  import opened Wrappers
  import opened Tables
  import opened ProjectModel

  /** `findByProjectId`: the tasks that reference the project with that id. */
  function InProject(projectId: int): (p: Task -> bool)
    ensures forall t :: p(t) <==> t.projectId == projectId
  {
    (t: Task) => t.projectId == projectId
  }

  /**
   * `getTasks` of a project: the stored tasks that reference it, in listing order. A project not
   * yet saved has no id, so no task can reference it.
   */
  function TasksOf(tasks: Table<Task>, project: Project): (ts: seq<Task>)
    requires tasks.Valid()
    ensures project.id.None? ==> ts == []
    ensures project.id.Some? ==> |ts| == |tasks.Matching(InProject(project.id.value))|
    ensures forall i | 0 <= i < |ts| :: ts[i] in tasks.rows.Values && Some(ts[i].projectId) == project.id
    ensures forall k | k in tasks.rows && Some(tasks.rows[k].projectId) == project.id :: tasks.rows[k] in ts
  {
    if project.id.None? then []
    else
      tasks.CountIsMatching(InProject(project.id.value));
      tasks.Select(InProject(project.id.value))
  }

  /** Every stored project carries the key it is stored under as its id. */
  ghost predicate ProjectsUnderOwnId(projects: Table<Project>)
  {
    forall k | k in projects.rows :: projects.rows[k].id == Some(k)
  }

  /** Every stored task carries the key it is stored under as its id. */
  ghost predicate TasksUnderOwnId(tasks: Table<Task>)
  {
    forall k | k in tasks.rows :: tasks.rows[k].id == Some(k)
  }

  /** The foreign key from task to project: every stored task references a stored project. */
  ghost predicate TasksLinked(projects: Table<Project>, tasks: Table<Task>)
  {
    forall t | t in tasks.rows.Values :: t.projectId in projects.rows
  }

  /** The invariant both services keep over the shared database. */
  ghost predicate Consistent(projects: Table<Project>, tasks: Table<Task>)
  {
    && projects.Valid() && tasks.Valid()
    && ProjectsUnderOwnId(projects) && TasksUnderOwnId(tasks)
    && TasksLinked(projects, tasks)
  }

  /** A key under which no project is stored is referenced by no task, so a new project has no tasks. */
  lemma UnstoredProjectHasNoTasks(projects: Table<Project>, tasks: Table<Task>, project: Project)
    requires Consistent(projects, tasks)
    requires project.id.None? || project.id.value !in projects.rows
    ensures TasksOf(tasks, project) == []
  {
  }

  /**
   * Deleting a project together with the tasks that reference it (the cascade from the project to
   * its tasks) keeps the database consistent.
   */
  lemma CascadeKeepsConsistent(projects: Table<Project>, tasks: Table<Task>, id: int)
    requires Consistent(projects, tasks)
    ensures Consistent(projects.Delete(id), tasks.DeleteWhere(InProject(id)))
  {
    var ps := projects.Delete(id);
    var ts := tasks.DeleteWhere(InProject(id));
    forall k | k in ts.rows ensures ts.rows[k].projectId in ps.rows {
      assert ts.rows[k] == tasks.rows[k] && tasks.rows[k] in tasks.rows.Values;
    }
  }

  /**
   * Deleting only the project while a task still references it would break the foreign key: the
   * project's tasks must go with it.
   */
  lemma DeleteWithoutCascadeBreaksLink(projects: Table<Project>, tasks: Table<Task>, id: int, k: int)
    requires Consistent(projects, tasks)
    requires k in tasks.rows && tasks.rows[k].projectId == id
    ensures !TasksLinked(projects.Delete(id), tasks)
  {
    assert tasks.rows[k] in tasks.rows.Values;
  }
}
