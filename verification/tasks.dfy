/**
 * `TaskServiceImpl`: tasks are created inside an existing project, read, listed by project,
 * status or developer, updated, re-assigned, moved to another status and deleted; every task it
 * returns is enriched with its developers' names from one batch call to the user service.
 */
module Tasks {
  import opened Wrappers
  import opened Sequences
  import opened Tables
  import opened ProjectModel
  import opened ProjectStore
  import opened ProjectClients
  import TaskMapper
  import ProjectMapper

  /** A developer list the service treats as present: non-null and non-empty. */
  predicate HasIds(ids: Option<seq<int>>)
  {
    ids.Some? && |ids.value| > 0
  }

  /**
   * `enrichTaskDto`: when a task has developers, their names are the full names of the users the
   * batch call returns, in the order returned; when it has none, or the call throws, the DTO is
   * returned as it was.
   */
  function EnrichedTask(dto: TaskDto, users: UsersLookup): (r: TaskDto)
    ensures !HasIds(dto.developerIds) ==> r == dto
    ensures HasIds(dto.developerIds) && users(dto.developerIds.value).None? ==> r == dto
    ensures HasIds(dto.developerIds) && users(dto.developerIds.value).Some? ==>
      var found := users(dto.developerIds.value).value;
      && r.developerNames.Some?
      && |r.developerNames.value| == |found|
      && forall i | 0 <= i < |found| :: r.developerNames.value[i] == found[i].FullName()
    ensures r.(developerNames := dto.developerNames) == dto
  {
    if HasIds(dto.developerIds) then
      match users(dto.developerIds.value)
      case None => dto
      case Some(found) =>
        dto.(developerNames := Some(seq(|found|, i requires 0 <= i < |found| => found[i].FullName())))
    else dto
  }

  /**
   * With the batch client's fallback in place, an unreachable user service still yields one name
   * per developer id, each the placeholder's "Unknown User".
   */
  lemma FallbackNamesEveryDeveloper(dto: TaskDto, remote: UsersLookup)
    requires HasIds(dto.developerIds) && remote(dto.developerIds.value).None?
    ensures var r := EnrichedTask(dto, UsersWithFallback(remote));
            && r.developerNames.Some?
            && |r.developerNames.value| == |dto.developerIds.value|
            && forall i | 0 <= i < |dto.developerIds.value| :: r.developerNames.value[i] == "Unknown User"
  {
    var ids := dto.developerIds.value;
    var found := UsersWithFallback(remote)(ids).value;
    assert forall i | 0 <= i < |ids| :: found[i] == PlaceholderUser(ids[i]);
  }

  /**
   * `toDto` of a stored task: its project is the one stored under the key that task references,
   * so the DTO shows that project's current id and name.
   */
  function DtoOf(task: Task, projects: Table<Project>): (d: TaskDto)
    requires task.projectId in projects.rows
    ensures d == TaskMapper.ToDto(task, projects.rows[task.projectId])
    ensures ProjectsUnderOwnId(projects) ==> d.projectId == Some(task.projectId)
  {
    TaskMapper.ToDto(task, projects.rows[task.projectId])
  }

  /**
   * Renaming a project (`updateEntity` on it, then saving it under its key) shows in the DTO of
   * every task that references it, while no task is touched.
   */
  lemma RenameShowsInTasks(projects: Table<Project>, tasks: Table<Task>, request: ProjectRequest, k: int)
    requires Consistent(projects, tasks)
    requires k in tasks.rows
    ensures var pid := tasks.rows[k].projectId;
            var renamed := projects.Save(pid, ProjectMapper.UpdateEntity(projects.rows[pid], request));
            && Consistent(renamed, tasks)
            && DtoOf(tasks.rows[k], renamed).projectName == request.name
            && DtoOf(tasks.rows[k], renamed) == DtoOf(tasks.rows[k], projects).(projectName := request.name)
  {
    assert tasks.rows[k] in tasks.rows.Values;
  }

  /** The DTOs a list query returns for the tasks it found: one enriched DTO per task, in order. */
  function Listing(found: seq<Task>, projects: Table<Project>, users: UsersLookup): (r: seq<TaskDto>)
    requires forall i | 0 <= i < |found| :: found[i].projectId in projects.rows
    ensures |r| == |found|
    ensures forall i | 0 <= i < |found| :: r[i] == EnrichedTask(DtoOf(found[i], projects), users)
    ensures forall i | 0 <= i < |found| :: r[i].id == found[i].id && r[i].status == found[i].status
  {
    seq(|found|, i requires 0 <= i < |found| => EnrichedTask(DtoOf(found[i], projects), users))
  }

  /** Every task a query found has its DTO in the listing. */
  lemma ListingContains(found: seq<Task>, projects: Table<Project>, t: Task, users: UsersLookup)
    requires forall i | 0 <= i < |found| :: found[i].projectId in projects.rows
    requires t in found
    ensures t.projectId in projects.rows
    ensures EnrichedTask(DtoOf(t, projects), users) in Listing(found, projects, users)
  {
    var i :| 0 <= i < |found| && found[i] == t;
    assert Listing(found, projects, users)[i] == EnrichedTask(DtoOf(t, projects), users);
  }

  /** Every stored task references a stored project, so any list of stored tasks can be listed. */
  lemma StoredTasksLinked(projects: Table<Project>, tasks: Table<Task>, found: seq<Task>)
    requires Consistent(projects, tasks)
    requires forall i | 0 <= i < |found| :: found[i] in tasks.rows.Values
    ensures forall i | 0 <= i < |found| :: found[i].projectId in projects.rows
  {
  }

  /** The fallback of every task list query: no tasks. */
  function ListFallback(): (r: seq<TaskDto>)
    ensures |r| == 0
  {
    []
  }

  /** Does a task list developer `developerId`? */
  predicate AssignedTo(t: Task, developerId: int)
  {
    t.developerIds.Some? && developerId in t.developerIds.value
  }

  /** `findByStatus`. */
  function WithStatus(status: TaskStatus): (p: Task -> bool)
    ensures forall t :: p(t) <==> t.status == status
  {
    (t: Task) => t.status == status
  }

  /** The tasks listing that developer. */
  function ByDeveloper(developerId: int): (p: Task -> bool)
    ensures forall t :: p(t) <==> AssignedTo(t, developerId)
  {
    (t: Task) => AssignedTo(t, developerId)
  }

  // ----- the developer join -----

  /** How many entries of a task's developer list are `developerId`; a null list has none. */
  function Occurrences(t: Task, developerId: int): (n: nat)
    ensures n > 0 <==> AssignedTo(t, developerId)
  {
    if t.developerIds.None? then 0 else multiset(t.developerIds.value)[developerId]
  }

  /**
   * `findByDeveloperId`, as its query is written: the inner join of the tasks with their developer
   * list, filtered on the developer and with no `DISTINCT`, so a task comes back once for every
   * entry of its list that is that developer. The rows come task by task in listing order.
   */
  function Join(ts: seq<Task>, developerId: int): (r: seq<Task>)
    ensures forall i | 0 <= i < |r| :: r[i] in ts && AssignedTo(r[i], developerId)
  {
    if ts == [] then []
    else
      var init := ts[..|ts| - 1];
      var last := ts[|ts| - 1];
      var r := Join(init, developerId) + Copies(last, Occurrences(last, developerId));
      assert forall i | 0 <= i < |r| :: r[i] in ts by {
        forall i | 0 <= i < |r| ensures r[i] in ts {
          if i < |Join(init, developerId)| {
            assert r[i] in init;
          }
        }
      }
      r
  }

  /** The tasks whose id is `id`. */
  function HasTaskId(id: Option<int>): (p: Task -> bool)
    ensures forall t :: p(t) <==> t.id == id
  {
    (t: Task) => t.id == id
  }

  /** The DTOs whose id is `id`. */
  function HasDtoId(id: Option<int>): (p: TaskDto -> bool)
    ensures forall d :: p(d) <==> d.id == id
  {
    (d: TaskDto) => d.id == id
  }

  /** Every task listing the developer is in the join. */
  lemma {:induction false} JoinContains(ts: seq<Task>, developerId: int, t: Task)
    requires t in ts && AssignedTo(t, developerId)
    ensures t in Join(ts, developerId)
  {
    var init := ts[..|ts| - 1];
    var last := ts[|ts| - 1];
    if t == last {
      assert Join(ts, developerId)[|Join(init, developerId)|] == t;
    } else {
      assert t in init;
      JoinContains(init, developerId, t);
      assert Join(ts, developerId)[..|Join(init, developerId)|] == Join(init, developerId);
    }
  }

  /** A task whose id no listed task carries has no rows in the join. */
  lemma {:induction false} JoinMissesId(ts: seq<Task>, developerId: int, id: Option<int>)
    requires forall i | 0 <= i < |ts| :: ts[i].id != id
    ensures Count(Join(ts, developerId), HasTaskId(id)) == 0
  {
    if ts != [] {
      var init := ts[..|ts| - 1];
      var last := ts[|ts| - 1];
      JoinMissesId(init, developerId, id);
      CountConcat(Join(init, developerId), Copies(last, Occurrences(last, developerId)), HasTaskId(id));
      CountCopies(last, Occurrences(last, developerId), HasTaskId(id));
    }
  }

  /**
   * When the listed tasks have distinct ids, the join holds each of them exactly as many times as
   * the developer occurs in its developer list.
   */
  lemma {:induction false} JoinCountsOccurrences(ts: seq<Task>, developerId: int, t: Task)
    requires forall i, j | 0 <= i < j < |ts| :: ts[i].id != ts[j].id
    requires t in ts
    ensures Count(Join(ts, developerId), HasTaskId(t.id)) == Occurrences(t, developerId)
  {
    var n := |ts| - 1;
    var init := ts[..n];
    var last := ts[n];
    CountConcat(Join(init, developerId), Copies(last, Occurrences(last, developerId)), HasTaskId(t.id));
    CountCopies(last, Occurrences(last, developerId), HasTaskId(t.id));
    if t == last {
      JoinMissesId(init, developerId, t.id);
    } else {
      var j :| 0 <= j < n && ts[j] == t;
      assert last.id != t.id;
      JoinCountsOccurrences(init, developerId, t);
    }
  }

  /** A stored task is found again under its own id. */
  lemma StoredUnderItsId(tasks: Table<Task>, t: Task)
    requires tasks.Valid() && TasksUnderOwnId(tasks) && t in tasks.FindAll()
    ensures t.id.Some? && t.id.value in tasks.rows && tasks.rows[t.id.value] == t
  {
    var j :| 0 <= j < |tasks.FindAll()| && tasks.FindAll()[j] == t;
    tasks.ListedAt(j);
    var k := tasks.order[j];
    assert tasks.rows[k] == t && t.id == Some(k);
  }

  /** The listing of a task store holds each task once: the ids of `findAll` are distinct. */
  lemma ListedIdsDistinct(tasks: Table<Task>)
    requires tasks.Valid() && TasksUnderOwnId(tasks)
    ensures forall i, j | 0 <= i < j < |tasks.FindAll()| :: tasks.FindAll()[i].id != tasks.FindAll()[j].id
  {
    var all := tasks.FindAll();
    forall i, j | 0 <= i < j < |all| ensures all[i].id != all[j].id {
      tasks.ListedAt(i);
      tasks.ListedAt(j);
      var ki, kj := tasks.order[i], tasks.order[j];
      assert all[i].id == Some(ki) && all[j].id == Some(kj);
      assert ki != kj;
    }
  }

  class TaskService {
    const tasks: Repository<Task>
    const projects: Repository<Project>

    ghost predicate Valid()
      reads this, tasks, projects
    {
      Consistent(projects.table, tasks.table)
    }

    constructor (taskRepository: Repository<Task>, projectRepository: Repository<Project>)
      requires Consistent(projectRepository.table, taskRepository.table)
      ensures tasks == taskRepository && projects == projectRepository && Valid()
    {
      tasks := taskRepository;
      projects := projectRepository;
    }

    /**
     * `createTask`: an unknown project fails and stores nothing; otherwise the request's task,
     * referencing that project, is stored under the fresh id `newId`.
     */
    method CreateTask(request: TaskRequest, users: UsersLookup, newId: int) returns (r: Result<TaskDto>)
      requires Valid() && newId !in tasks.table.rows
      modifies tasks
      ensures Valid() && projects.table == old(projects.table)
      ensures request.projectId !in projects.table.rows ==>
        r == Failure(NotFound) && tasks.table == old(tasks.table)
      ensures request.projectId in projects.table.rows ==>
        var saved := TaskMapper.ToEntity(request, request.projectId).(id := Some(newId));
        && tasks.table == old(tasks.table).Save(newId, saved)
        && r == Success(EnrichedTask(DtoOf(saved, projects.table), users))
        && r.value.id == Some(newId) && r.value.projectId == Some(request.projectId)
    {
      var project := projects.table.FindById(request.projectId);
      if project.None? {
        return Failure(NotFound);
      }
      var saved := TaskMapper.ToEntity(request, request.projectId).(id := Some(newId));
      tasks.Save(newId, saved);
      return Success(EnrichedTask(DtoOf(saved, projects.table), users));
    }

    /** `getTaskById`: the stored task, enriched, or not-found. */
    method GetTaskById(id: int, users: UsersLookup) returns (r: Result<TaskDto>)
      requires Valid()
      ensures r.Success? <==> id in tasks.table.rows
      ensures r.Failure? ==> r.error == NotFound
      ensures r.Success? ==>
        && tasks.table.rows[id].projectId in projects.table.rows
        && r.value == EnrichedTask(DtoOf(tasks.table.rows[id], projects.table), users)
        && r.value.id == Some(id)
    {
      var task := tasks.table.FindById(id);
      if task.None? {
        return Failure(NotFound);
      }
      assert task.value in tasks.table.rows.Values;
      return Success(EnrichedTask(DtoOf(task.value, projects.table), users));
    }

    /** `getAllTasks`: one DTO per stored task, in listing order. */
    function GetAllTasks(users: UsersLookup): (r: seq<TaskDto>)
      reads this, tasks, projects
      requires Valid()
      ensures |r| == |tasks.table.rows|
      ensures forall k | k in tasks.table.rows ::
        tasks.table.rows[k].projectId in projects.table.rows
        && EnrichedTask(DtoOf(tasks.table.rows[k], projects.table), users) in r
      ensures |r| == |tasks.table.FindAll()| && forall i | 0 <= i < |r| ::
        && tasks.table.FindAll()[i].projectId in projects.table.rows
        && r[i] == EnrichedTask(DtoOf(tasks.table.FindAll()[i], projects.table), users)
    {
      var all := tasks.table.FindAll();
      StoredTasksLinked(projects.table, tasks.table, all);
      var r := Listing(all, projects.table, users);
      assert forall k | k in tasks.table.rows ::
        tasks.table.rows[k].projectId in projects.table.rows
        && EnrichedTask(DtoOf(tasks.table.rows[k], projects.table), users) in r by {
        forall k | k in tasks.table.rows
          ensures tasks.table.rows[k].projectId in projects.table.rows
          ensures EnrichedTask(DtoOf(tasks.table.rows[k], projects.table), users) in r {
          ListingContains(all, projects.table, tasks.table.rows[k], users);
        }
      }
      r
    }

    /** `getTasksByProject`: the DTOs of exactly the stored tasks of that project, in listing order. */
    function GetTasksByProject(projectId: int, users: UsersLookup): (r: seq<TaskDto>)
      reads this, tasks, projects
      requires Valid()
      ensures |r| == |tasks.table.Matching(InProject(projectId))| <= |tasks.table.rows|
      ensures forall i | 0 <= i < |r| :: r[i].projectId == Some(projectId)
      ensures projectId !in projects.table.rows ==> r == []
      ensures forall k | k in tasks.table.rows && tasks.table.rows[k].projectId == projectId ::
        projectId in projects.table.rows
        && EnrichedTask(DtoOf(tasks.table.rows[k], projects.table), users) in r
    {
      var found := tasks.table.Select(InProject(projectId));
      tasks.table.CountIsMatching(InProject(projectId));
      StoredTasksLinked(projects.table, tasks.table, found);
      var r := Listing(found, projects.table, users);
      assert forall k | k in tasks.table.rows && tasks.table.rows[k].projectId == projectId ::
        projectId in projects.table.rows
        && EnrichedTask(DtoOf(tasks.table.rows[k], projects.table), users) in r by {
        forall k | k in tasks.table.rows && tasks.table.rows[k].projectId == projectId
          ensures projectId in projects.table.rows
          ensures EnrichedTask(DtoOf(tasks.table.rows[k], projects.table), users) in r {
          ListingContains(found, projects.table, tasks.table.rows[k], users);
        }
      }
      r
    }

    /** `getTasksByStatus`: the DTOs of exactly the stored tasks with that status, in listing order. */
    function GetTasksByStatus(status: TaskStatus, users: UsersLookup): (r: seq<TaskDto>)
      reads this, tasks, projects
      requires Valid()
      ensures |r| == |tasks.table.Matching(WithStatus(status))| <= |tasks.table.rows|
      ensures forall i | 0 <= i < |r| :: r[i].status == status
      ensures forall k | k in tasks.table.rows && tasks.table.rows[k].status == status ::
        tasks.table.rows[k].projectId in projects.table.rows
        && EnrichedTask(DtoOf(tasks.table.rows[k], projects.table), users) in r
    {
      var found := tasks.table.Select(WithStatus(status));
      tasks.table.CountIsMatching(WithStatus(status));
      StoredTasksLinked(projects.table, tasks.table, found);
      var r := Listing(found, projects.table, users);
      assert forall k | k in tasks.table.rows && tasks.table.rows[k].status == status ::
        tasks.table.rows[k].projectId in projects.table.rows
        && EnrichedTask(DtoOf(tasks.table.rows[k], projects.table), users) in r by {
        forall k | k in tasks.table.rows && tasks.table.rows[k].status == status
          ensures tasks.table.rows[k].projectId in projects.table.rows
          ensures EnrichedTask(DtoOf(tasks.table.rows[k], projects.table), users) in r {
          ListingContains(found, projects.table, tasks.table.rows[k], users);
        }
      }
      r
    }

    /**
     * `getTasksByDeveloper`: the DTOs of the join rows. Every DTO is that of a stored task listing
     * the developer, every such task is there, and each comes back exactly as many times as the
     * developer occurs in its developer list.
     */
    function GetTasksByDeveloper(developerId: int, users: UsersLookup): (r: seq<TaskDto>)
      reads this, tasks, projects
      requires Valid()
      ensures forall i | 0 <= i < |r| ::
        && r[i].id.Some? && r[i].id.value in tasks.table.rows
        && AssignedTo(tasks.table.rows[r[i].id.value], developerId)
        && r[i].developerIds.Some? && developerId in r[i].developerIds.value
        && tasks.table.rows[r[i].id.value].projectId in projects.table.rows
        && r[i] == EnrichedTask(DtoOf(tasks.table.rows[r[i].id.value], projects.table), users)
      ensures forall k | k in tasks.table.rows ::
        Count(r, HasDtoId(Some(k))) == Occurrences(tasks.table.rows[k], developerId)
      ensures forall k | k in tasks.table.rows && AssignedTo(tasks.table.rows[k], developerId) ::
        tasks.table.rows[k].projectId in projects.table.rows
        && EnrichedTask(DtoOf(tasks.table.rows[k], projects.table), users) in r
    {
      var all := tasks.table.FindAll();
      var joined := Join(all, developerId);
      StoredTasksLinked(projects.table, tasks.table, joined);
      var r := Listing(joined, projects.table, users);
      assert forall i | 0 <= i < |r| :: r[i].id == joined[i].id;
      forall i | 0 <= i < |r|
        ensures r[i].id.Some? && r[i].id.value in tasks.table.rows && tasks.table.rows[r[i].id.value] == joined[i]
      {
        StoredUnderItsId(tasks.table, joined[i]);
      }
      JoinCounted(all, developerId, r);
      assert forall k | k in tasks.table.rows && AssignedTo(tasks.table.rows[k], developerId) ::
        tasks.table.rows[k].projectId in projects.table.rows
        && EnrichedTask(DtoOf(tasks.table.rows[k], projects.table), users) in r by {
        forall k | k in tasks.table.rows && AssignedTo(tasks.table.rows[k], developerId)
          ensures tasks.table.rows[k].projectId in projects.table.rows
          ensures EnrichedTask(DtoOf(tasks.table.rows[k], projects.table), users) in r {
          JoinContains(all, developerId, tasks.table.rows[k]);
          ListingContains(joined, projects.table, tasks.table.rows[k], users);
        }
      }
      r
    }

    /** Over the whole store, the join rows of each stored task are as many as its occurrences of the developer. */
    lemma JoinCounted(all: seq<Task>, developerId: int, r: seq<TaskDto>)
      requires Valid() && all == tasks.table.FindAll()
      requires |r| == |Join(all, developerId)|
      requires forall i | 0 <= i < |r| :: r[i].id == Join(all, developerId)[i].id
      ensures forall k | k in tasks.table.rows ::
        Count(r, HasDtoId(Some(k))) == Occurrences(tasks.table.rows[k], developerId)
    {
      ListedIdsDistinct(tasks.table);
      forall k | k in tasks.table.rows
        ensures Count(r, HasDtoId(Some(k))) == Occurrences(tasks.table.rows[k], developerId)
      {
        var joined := Join(all, developerId);
        CountAlong(joined, r, HasTaskId(Some(k)), HasDtoId(Some(k)));
        JoinCountsOccurrences(all, developerId, tasks.table.rows[k]);
      }
    }

    /**
     * Shared by `updateTask`, `assignDevelopers` and `updateTaskStatus`: an unknown id fails and
     * changes nothing; otherwise the stored task is replaced by `change` of it, in place. No
     * change touches a task's id or its project.
     */
    method UpdateStored(id: int, change: Task -> Task, users: UsersLookup) returns (r: Result<TaskDto>)
      requires Valid()
      requires forall t :: change(t).id == t.id && change(t).projectId == t.projectId
      modifies tasks
      ensures Valid() && projects.table == old(projects.table)
      ensures id !in old(tasks.table.rows) ==> r == Failure(NotFound) && tasks.table == old(tasks.table)
      ensures id in old(tasks.table.rows) ==>
        var updated := change(old(tasks.table.rows[id]));
        && updated.projectId in projects.table.rows
        && tasks.table == old(tasks.table).Save(id, updated)
        && r == Success(EnrichedTask(DtoOf(updated, projects.table), users))
    {
      var task := tasks.table.FindById(id);
      if task.None? {
        return Failure(NotFound);
      }
      assert task.value in tasks.table.rows.Values;
      var updated := change(task.value);
      tasks.Save(id, updated);
      return Success(EnrichedTask(DtoOf(updated, projects.table), users));
    }

    /** `updateTask`: `updateEntity` on the stored task; its project and id are kept. */
    method UpdateTask(id: int, request: TaskRequest, users: UsersLookup) returns (r: Result<TaskDto>)
      requires Valid()
      modifies tasks
      ensures Valid() && projects.table == old(projects.table)
      ensures id !in old(tasks.table.rows) ==> r == Failure(NotFound) && tasks.table == old(tasks.table)
      ensures id in old(tasks.table.rows) ==>
        && tasks.table == old(tasks.table).Save(id, TaskMapper.UpdateEntity(old(tasks.table.rows[id]), request))
        && tasks.table.rows[id].projectId == old(tasks.table.rows[id]).projectId
        && r == Success(EnrichedTask(DtoOf(tasks.table.rows[id], projects.table), users))
    {
      r := UpdateStored(id, (t: Task) => TaskMapper.UpdateEntity(t, request), users);
    }

    /** `assignDevelopers`: the developer list becomes exactly the given one; nothing else changes. */
    method AssignDevelopers(id: int, developerIds: Option<seq<int>>, users: UsersLookup) returns (r: Result<TaskDto>)
      requires Valid()
      modifies tasks
      ensures Valid() && projects.table == old(projects.table)
      ensures id !in old(tasks.table.rows) ==> r == Failure(NotFound) && tasks.table == old(tasks.table)
      ensures id in old(tasks.table.rows) ==>
        && tasks.table.order == old(tasks.table.order)
        && tasks.table.rows == old(tasks.table.rows)[id := old(tasks.table.rows[id]).(developerIds := developerIds)]
        && r == Success(EnrichedTask(DtoOf(tasks.table.rows[id], projects.table), users))
    {
      r := UpdateStored(id, (t: Task) => t.(developerIds := developerIds), users);
    }

    /** `updateTaskStatus`: only the status of that task changes. */
    method UpdateTaskStatus(id: int, status: TaskStatus, users: UsersLookup) returns (r: Result<TaskDto>)
      requires Valid()
      modifies tasks
      ensures Valid() && projects.table == old(projects.table)
      ensures id !in old(tasks.table.rows) ==> r == Failure(NotFound) && tasks.table == old(tasks.table)
      ensures id in old(tasks.table.rows) ==>
        && tasks.table.order == old(tasks.table.order)
        && tasks.table.rows == old(tasks.table.rows)[id := old(tasks.table.rows[id]).(status := status)]
        && r == Success(EnrichedTask(DtoOf(tasks.table.rows[id], projects.table), users))
    {
      r := UpdateStored(id, (t: Task) => t.(status := status), users);
    }

    /** `deleteTask`: an unknown id fails and changes nothing; otherwise exactly that task goes. */
    method DeleteTask(id: int) returns (o: Outcome)
      requires Valid()
      modifies tasks
      ensures Valid() && projects.table == old(projects.table)
      ensures id !in old(tasks.table.rows) ==> o == Failed(NotFound) && tasks.table == old(tasks.table)
      ensures id in old(tasks.table.rows) ==> o == Done && tasks.table == old(tasks.table).Delete(id)
    {
      if id !in tasks.table.rows {
        return Failed(NotFound);
      }
      tasks.DeleteById(id);
      return Done;
    }
  }
}
