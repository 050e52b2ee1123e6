/**
 * The analytics views over the figures the statistics producers actually send: what a reader of
 * the dashboard sees when every producer answers from its store.
 */
module Pipeline {
  import opened Wrappers
  import opened Tables
  import opened StatisticsMessages
  import opened UserModel
  import opened ProjectModel
  import opened TeamModel
  import Analytics
  import UserStatistics
  import ProjectStatistics
  import TeamStatistics

  /**
   * The project view over the project producer's count: nothing is ever reported completed, so the
   * completion rate is 0, and the pending figure is exactly the number of projects without tasks.
   */
  lemma ProjectViewOverStore(projects: Table<Project>, tasks: Table<Task>)
    requires projects.Valid() && tasks.Valid()
    ensures var v := Analytics.Projects(Some(ProjectStatistics.GetProjectCount(projects, tasks)));
            && v.totalProjects == |projects.rows|
            && v.completedProjects == 0
            && v.completionRate == 0.0
            && v.inProgressProjects == |projects.Matching(ProjectStatistics.HasTasks(tasks))|
            && v.pendingProjects == ProjectStatistics.GetCompletedProjects(projects, tasks).completedProjects
            && 0 <= v.pendingProjects <= v.totalProjects
  {
    ProjectStatistics.InProgressAndCompletedPartition(projects, tasks);
    Analytics.NothingCompletedRateIsZero(|projects.rows|);
  }

  /** The user view over the user producer's count: every user is active, so none is inactive. */
  lemma UserViewOverStore(users: Table<User>)
    requires users.Valid()
    ensures var v := Analytics.Users(Some(UserStatistics.GetUserCount(users)));
            v.totalUsers == |users.rows| && v.activeUsers == |users.rows| && v.inactiveUsers == 0
  {
  }

  /** The team view over the team producer's count: the count carries no average, so it reads 0. */
  lemma TeamViewOverStore(teams: Table<Team>)
    requires teams.Valid()
    ensures var v := Analytics.Teams(Some(TeamStatistics.GetTeamCount(teams)));
            v.totalTeams == |teams.rows| && v.averageTeamSize == 0 && v.teamsPerManager == 1.0
  {
  }

  /**
   * The dashboard over the project and team producers' counts: the totals are the store sizes, but
   * the completion rate and the average team size are always 0.
   */
  lemma DashboardOverStores(
    users: Option<UserCountResponse>, projects: Table<Project>, tasks: Table<Task>, teams: Table<Team>,
    activities: Option<ActivityCountResponse>)
    requires projects.Valid() && tasks.Valid() && teams.Valid()
    ensures var d := Analytics.Dashboard(
              users, Some(ProjectStatistics.GetProjectCount(projects, tasks)),
              Some(TeamStatistics.GetTeamCount(teams)), activities);
            && d.completedProjects == 0
            && d.projectCompletionRate == 0.0
            && d.averageTeamSize == 0
            && d.totalProjects == |projects.rows| && d.totalTeams == |teams.rows|
  {
    Analytics.NothingCompletedRateIsZero(|projects.rows|);
  }
}
