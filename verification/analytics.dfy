/**
 * The analytics service: it asks the four statistics producers for their counts, one after
 * another, turns a failed call into that producer's all-zero record, and derives a completion
 * rate, projects per team, inactive users and pending projects from the counts.
 *
 * A producer's reply is an `Option`: `None` is a call that threw. Java `double`s are `real`s.
 */
module Analytics {
  import opened Wrappers
  import opened StatisticsMessages

  datatype DashboardAnalytics = DashboardAnalytics(
    totalUsers: int, activeUsers: int,
    totalProjects: int, completedProjects: int, inProgressProjects: int,
    totalTeams: int, averageTeamSize: int,
    totalActivities: int, todayActivities: int, weekActivities: int,
    projectCompletionRate: real, averageProjectsPerTeam: real)

  datatype UserAnalytics = UserAnalytics(totalUsers: int, activeUsers: int, inactiveUsers: int)

  datatype ProjectAnalytics = ProjectAnalytics(
    totalProjects: int, completedProjects: int, inProgressProjects: int,
    pendingProjects: int, completionRate: real)

  datatype TeamAnalytics = TeamAnalytics(totalTeams: int, averageTeamSize: int, teamsPerManager: real)

  // ----- the four guarded calls -----

  /** `getUserStatistics`: the user service's reply, or zero counts when the call throws. */
  function UserStatistics(reply: Option<UserCountResponse>): (r: UserCountResponse)
    ensures reply.Some? ==> r == reply.value
    ensures reply.None? ==> r.totalUsers == 0 && r.activeUsers == 0
  {
    match reply
    case Some(v) => v
    case None => UserCountResponse(0, 0)
  }

  /** `getProjectStatistics`: the project service's reply, or zero counts when the call throws. */
  function ProjectStatistics(reply: Option<ProjectCountResponse>): (r: ProjectCountResponse)
    ensures reply.Some? ==> r == reply.value
    ensures reply.None? ==> r.totalProjects == 0 && r.completedProjects == 0 && r.inProgressProjects == 0
  {
    match reply
    case Some(v) => v
    case None => ProjectCountResponse(0, 0, 0)
  }

  /** `getTeamStatistics`: the team service's reply, or zero counts when the call throws. */
  function TeamStatistics(reply: Option<TeamCountResponse>): (r: TeamCountResponse)
    ensures reply.Some? ==> r == reply.value
    ensures reply.None? ==> r.totalTeams == 0 && r.averageTeamSize == 0
  {
    match reply
    case Some(v) => v
    case None => TeamCountResponse(0, 0)
  }

  /** `getActivityStatistics`: the logs service's reply, or zero counts when the call throws. */
  function ActivityStatistics(reply: Option<ActivityCountResponse>): (r: ActivityCountResponse)
    ensures reply.Some? ==> r == reply.value
    ensures reply.None? ==> r.totalActivities == 0 && r.todayActivities == 0 && r.weekActivities == 0
  {
    match reply
    case Some(v) => v
    case None => ActivityCountResponse(0, 0, 0)
  }

  // ----- derived metrics -----

  /** Completed projects as a percentage of all projects, guarded against a zero total. */
  function CompletionRate(completed: int, total: int): (rate: real)
    ensures total > 0 ==> rate * total as real == completed as real * 100.0
    ensures total <= 0 ==> rate == 0.0
  {
    if total > 0 then completed as real / total as real * 100.0 else 0.0
  }

  /** Projects per team, guarded against a zero team count. */
  function ProjectsPerTeam(projects: int, teams: int): (avg: real)
    ensures teams > 0 ==> avg * teams as real == projects as real
    ensures teams <= 0 ==> avg == 0.0
  {
    if teams > 0 then projects as real / teams as real else 0.0
  }

  /** A completion rate over a consistent count lies between 0 and 100 percent. */
  lemma CompletionRateIsPercentage(completed: int, total: int)
    requires 0 <= completed <= total
    ensures 0.0 <= CompletionRate(completed, total) <= 100.0
  {
    if total > 0 {
      var rate := CompletionRate(completed, total);
      var t := total as real;
      assert rate * t <= 100.0 * t;
      assert rate * t >= 0.0;
    }
  }

  /** With nothing completed the completion rate is 0, whatever the total. */
  lemma NothingCompletedRateIsZero(total: int)
    ensures CompletionRate(0, total) == 0.0
  {
  }

  // ----- the four views -----

  /** `getDashboardAnalytics`. */
  function Dashboard(
    users: Option<UserCountResponse>, projects: Option<ProjectCountResponse>,
    teams: Option<TeamCountResponse>, activities: Option<ActivityCountResponse>): (d: DashboardAnalytics)
    // each raw count comes unchanged from its own source, or is 0 when that source failed
    ensures users.Some? ==> d.totalUsers == users.value.totalUsers && d.activeUsers == users.value.activeUsers
    ensures users.None? ==> d.totalUsers == 0 && d.activeUsers == 0
    ensures projects.Some? ==>
      && d.totalProjects == projects.value.totalProjects
      && d.completedProjects == projects.value.completedProjects
      && d.inProgressProjects == projects.value.inProgressProjects
    ensures projects.None? ==> d.totalProjects == 0 && d.completedProjects == 0 && d.inProgressProjects == 0
    ensures teams.Some? ==>
      d.totalTeams == teams.value.totalTeams && d.averageTeamSize == teams.value.averageTeamSize
    ensures teams.None? ==> d.totalTeams == 0 && d.averageTeamSize == 0
    ensures activities.Some? ==>
      && d.totalActivities == activities.value.totalActivities
      && d.todayActivities == activities.value.todayActivities
      && d.weekActivities == activities.value.weekActivities
    ensures activities.None? ==> d.totalActivities == 0 && d.todayActivities == 0 && d.weekActivities == 0
    // the two rates are computed from the copied counts, with their zero guards
    ensures d.totalProjects > 0 ==> d.projectCompletionRate * d.totalProjects as real == d.completedProjects as real * 100.0
    ensures d.totalProjects <= 0 ==> d.projectCompletionRate == 0.0
    ensures d.totalTeams > 0 ==> d.averageProjectsPerTeam * d.totalTeams as real == d.totalProjects as real
    ensures d.totalTeams <= 0 ==> d.averageProjectsPerTeam == 0.0
  {
    var u := UserStatistics(users);
    var p := ProjectStatistics(projects);
    var t := TeamStatistics(teams);
    var a := ActivityStatistics(activities);
    DashboardAnalytics(
      u.totalUsers, u.activeUsers,
      p.totalProjects, p.completedProjects, p.inProgressProjects,
      t.totalTeams, t.averageTeamSize,
      a.totalActivities, a.todayActivities, a.weekActivities,
      CompletionRate(p.completedProjects, p.totalProjects),
      ProjectsPerTeam(p.totalProjects, t.totalTeams))
  }

  /** `getUserAnalytics`. */
  function Users(reply: Option<UserCountResponse>): (r: UserAnalytics)
    ensures r.totalUsers == r.activeUsers + r.inactiveUsers
    ensures reply.Some? ==> r.totalUsers == reply.value.totalUsers && r.activeUsers == reply.value.activeUsers
    ensures reply.None? ==> r == UsersFallback()
  {
    var u := UserStatistics(reply);
    UserAnalytics(u.totalUsers, u.activeUsers, u.totalUsers - u.activeUsers)
  }

  /** `getProjectAnalytics`. */
  function Projects(reply: Option<ProjectCountResponse>): (r: ProjectAnalytics)
    ensures r.totalProjects == r.completedProjects + r.inProgressProjects + r.pendingProjects
    ensures reply.Some? ==>
      && r.totalProjects == reply.value.totalProjects
      && r.completedProjects == reply.value.completedProjects
      && r.inProgressProjects == reply.value.inProgressProjects
    ensures r.totalProjects > 0 ==> r.completionRate * r.totalProjects as real == r.completedProjects as real * 100.0
    ensures r.totalProjects <= 0 ==> r.completionRate == 0.0
    ensures reply.None? ==> r == ProjectsFallback()
  {
    var p := ProjectStatistics(reply);
    ProjectAnalytics(
      p.totalProjects, p.completedProjects, p.inProgressProjects,
      p.totalProjects - p.completedProjects - p.inProgressProjects,
      CompletionRate(p.completedProjects, p.totalProjects))
  }

  /** `getTeamAnalytics`: one manager per team, so teams per manager is the constant 1. */
  function Teams(reply: Option<TeamCountResponse>): (r: TeamAnalytics)
    ensures r.teamsPerManager == 1.0
    ensures reply.Some? ==> r.totalTeams == reply.value.totalTeams && r.averageTeamSize == reply.value.averageTeamSize
    ensures reply.None? ==> r.totalTeams == 0 && r.averageTeamSize == 0
  {
    var t := TeamStatistics(reply);
    TeamAnalytics(t.totalTeams, t.averageTeamSize, 1.0)
  }

  // ----- the four fallbacks, used when a whole view fails -----

  /** `getDashboardFallback`: every count and rate is zero. */
  function DashboardFallback(): (d: DashboardAnalytics)
    ensures d.totalUsers == 0 && d.activeUsers == 0
    ensures d.totalProjects == 0 && d.completedProjects == 0 && d.inProgressProjects == 0
    ensures d.totalTeams == 0 && d.averageTeamSize == 0
    ensures d.totalActivities == 0 && d.todayActivities == 0 && d.weekActivities == 0
    ensures d.projectCompletionRate == 0.0 && d.averageProjectsPerTeam == 0.0
  {
    DashboardAnalytics(0, 0, 0, 0, 0, 0, 0, 0, 0, 0, 0.0, 0.0)
  }

  /** `getUserAnalyticsFallback`. */
  function UsersFallback(): (r: UserAnalytics)
    ensures r.totalUsers == 0 && r.activeUsers == 0 && r.inactiveUsers == 0
  {
    UserAnalytics(0, 0, 0)
  }

  /** `getProjectAnalyticsFallback`. */
  function ProjectsFallback(): (r: ProjectAnalytics)
    ensures r.totalProjects == 0 && r.completedProjects == 0 && r.inProgressProjects == 0
    ensures r.pendingProjects == 0 && r.completionRate == 0.0
  {
    ProjectAnalytics(0, 0, 0, 0, 0.0)
  }

  /** `getTeamAnalyticsFallback`: unlike a successful view, teams per manager is 0 here. */
  function TeamsFallback(): (r: TeamAnalytics)
    ensures r.totalTeams == 0 && r.averageTeamSize == 0 && r.teamsPerManager == 0.0
  {
    TeamAnalytics(0, 0, 0.0)
  }

  // ----- properties across the views -----

  /** When all four producers fail, the dashboard is indistinguishable from its fallback. */
  lemma AllSourcesDownIsFallback()
    ensures Dashboard(None, None, None, None) == DashboardFallback()
  {
    var d := Dashboard(None, None, None, None);
    assert d.projectCompletionRate == 0.0 && d.averageProjectsPerTeam == 0.0;
  }

  /**
   * One failing producer affects only its own counts: the user, team and activity counts of the
   * dashboard are the same whether or not the project service answered.
   */
  lemma ProjectFailureIsIsolated(
    users: Option<UserCountResponse>, projects: ProjectCountResponse,
    teams: Option<TeamCountResponse>, activities: Option<ActivityCountResponse>)
    ensures var up := Dashboard(users, Some(projects), teams, activities);
            var down := Dashboard(users, None, teams, activities);
            && up.totalUsers == down.totalUsers && up.activeUsers == down.activeUsers
            && up.totalTeams == down.totalTeams && up.averageTeamSize == down.averageTeamSize
            && up.totalActivities == down.totalActivities
            && up.todayActivities == down.todayActivities
            && up.weekActivities == down.weekActivities
            && down.projectCompletionRate == 0.0 && down.averageProjectsPerTeam == 0.0
  {
  }

  /** The dashboard and the project view derive the same completion rate from the same reply. */
  lemma DashboardAgreesWithProjectView(
    users: Option<UserCountResponse>, projects: Option<ProjectCountResponse>,
    teams: Option<TeamCountResponse>, activities: Option<ActivityCountResponse>)
    ensures Dashboard(users, projects, teams, activities).projectCompletionRate == Projects(projects).completionRate
    ensures Dashboard(users, projects, teams, activities).totalProjects == Projects(projects).totalProjects
  {
  }
}
