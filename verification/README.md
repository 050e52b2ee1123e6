# WorkHive service logic in Dafny

WorkHive is a set of Java microservices for running projects, teams and tasks. They are:

- a user service (registration, login, lookups);
- a team service (teams with one manager and several developers);
- a project service (projects and their tasks);
- a logs service (activity logs);
- a notification service;
- an analytics service, which builds dashboards from counts that the other services send over gRPC.

This project models the deterministic business logic of those services and proves properties of it. It covers:

- **Analytics.** The four statistics calls, each with its all-zero replacement when the call throws. The dashboard and the user, project and team views, with their derived rates and zero guards. The per-view fallbacks.
- **Statistics producers.** The user, project, team and logs services each count their own store: users and one user message; projects with and without tasks; teams and the average team size; logs and the logs of the last day.
- **Enrichment.** Team, task, project and activity-log responses are decorated with names fetched from other services, each with its own failure rule. The Feign fallback placeholders are modelled as part of the lookups.
- **Store operations.** Team creation with its role checks. User registration with unique usernames and emails. Notifications with a default type, marked read singly or all at once. Creates, updates and deletes that fail on unknown ids and change nothing then.
- **Mappers.** The field copies between requests, entities and DTOs, and the in-place updates that keep the creator and the project.

How the model is built:

- **Repositories.** Each JPA repository is a `Tables.Table`: a map from primary key to record, plus the order in which `findAll` lists the keys. A service holds its repositories as `Tables.Repository` objects, and its state-changing operations are methods that modify them.
- **Remote calls.** A call to another service is a function parameter returning `Option`. `None` stands for a call that threw. A fallback that returns a value is an ordinary function. A fallback that throws is modelled as a `Failure` carrying the original cause.
- **Other parameters.** The clock (`now`), newly generated ids (`newId`), the password encoder and the token issuer are also parameters.
- **Proofs.** Pure builders and queries are functions with contracts. Loops in the source are methods with invariants, proved against those functions. Lemmas relate operations to each other: round trips, partitions, idempotence, count changes, and the effect of fallbacks.

Files: `wrappers.dfy` and `sequences.dfy` hold the shared shapes and the stream operations. `tables.dfy` holds the repository model. Then there is one file per service area:

- analytics: `analytics.dfy`, `statistics_messages.dfy`;
- users: `users.dfy`;
- teams: `team_model.dfy`, `team_mapper.dfy`, `teams.dfy`, `team_statistics.dfy`;
- projects and tasks: `project_model.dfy`, `project_store.dfy`, `project_clients.dfy`, `project_mappers.dfy`, `projects.dfy`, `tasks.dfy`, `project_statistics.dfy`;
- logs: `logs_model.dfy`, `activity_logs.dfy`, `logs_statistics.dfy`;
- notifications: `notifications.dfy`.

`pipeline.dfy` connects each producer to the analytics view that reads its counts.

The composition shows how the system behaves end to end as written:

- The project producer never fills the completed figure, so the dashboard's completed count and completion rate are always 0.
- "Pending" projects are exactly the projects without tasks.
- The team producer's count never carries the average size, so the dashboard's average team size is always 0.

## Model

| member | source | states |
|---|---|---|
| Analytics.UserStatistics | ANALYTICS-SERVICE/src/main/java/com/workhive/analyticsservice/service/AnalyticsService.java:116-123 | the user service's reply unchanged when the call succeeds; zero total and active users when it throws |
| Analytics.ProjectStatistics | ANALYTICS-SERVICE/src/main/java/com/workhive/analyticsservice/service/AnalyticsService.java:125-136 | the project service's reply unchanged on success; zero total, completed and in-progress projects when the call throws |
| Analytics.TeamStatistics | ANALYTICS-SERVICE/src/main/java/com/workhive/analyticsservice/service/AnalyticsService.java:138-145 | the team service's reply unchanged on success; zero teams and zero average size when the call throws |
| Analytics.ActivityStatistics | ANALYTICS-SERVICE/src/main/java/com/workhive/analyticsservice/service/AnalyticsService.java:147-158 | the logs service's reply unchanged on success; zero total, today and week activities when the call throws |
| Analytics.CompletionRate | ANALYTICS-SERVICE/src/main/java/com/workhive/analyticsservice/service/AnalyticsService.java:44-46 | with a positive total, rate × total = completed × 100 (completed / total × 100); with a total of 0 or less the rate is exactly 0 |
| Analytics.ProjectsPerTeam | ANALYTICS-SERVICE/src/main/java/com/workhive/analyticsservice/service/AnalyticsService.java:48-50 | with a positive team count, average × teams = projects; otherwise exactly 0 |
| Analytics.CompletionRateIsPercentage | ANALYTICS-SERVICE/src/main/java/com/workhive/analyticsservice/service/AnalyticsService.java:87-89 | when 0 ≤ completed ≤ total the completion rate lies between 0 and 100 |
| Analytics.Dashboard | ANALYTICS-SERVICE/src/main/java/com/workhive/analyticsservice/service/AnalyticsService.java:34-66 | every raw count is copied from the reply of its producer, or is 0 when that producer failed; the completion rate and projects per team obey the two zero guards over the copied counts |
| Analytics.Users | ANALYTICS-SERVICE/src/main/java/com/workhive/analyticsservice/service/AnalyticsService.java:70-79 | total and active users copied from the reply, inactive = total − active; the fallback view when the call failed |
| Analytics.Projects | ANALYTICS-SERVICE/src/main/java/com/workhive/analyticsservice/service/AnalyticsService.java:83-100 | counts copied from the reply, pending = total − completed − in progress, the completion rate under the zero guard; the fallback view when the call failed |
| Analytics.Teams | ANALYTICS-SERVICE/src/main/java/com/workhive/analyticsservice/service/AnalyticsService.java:104-113 | total teams and average size copied from the reply (0 on failure); teams per manager is the constant 1.0 |
| Analytics.DashboardFallback | ANALYTICS-SERVICE/src/main/java/com/workhive/analyticsservice/service/AnalyticsService.java:161-170 | every count, the completion rate and projects per team are 0 |
| Analytics.UsersFallback | ANALYTICS-SERVICE/src/main/java/com/workhive/analyticsservice/service/AnalyticsService.java:172-177 | total, active and inactive users are 0 |
| Analytics.ProjectsFallback | ANALYTICS-SERVICE/src/main/java/com/workhive/analyticsservice/service/AnalyticsService.java:179-186 | all four project counts and the completion rate are 0 |
| Analytics.TeamsFallback | ANALYTICS-SERVICE/src/main/java/com/workhive/analyticsservice/service/AnalyticsService.java:188-193 | teams and average size are 0, and teams per manager is 0.0 (unlike the 1.0 of a successful view) |
| Analytics.AllSourcesDownIsFallback | ANALYTICS-SERVICE/src/main/java/com/workhive/analyticsservice/service/AnalyticsService.java:38-50 | when all four producers fail, the dashboard equals the dashboard fallback record |
| Analytics.ProjectFailureIsIsolated | ANALYTICS-SERVICE/src/main/java/com/workhive/analyticsservice/service/AnalyticsService.java:38-41 | a failing project producer changes none of the user, team and activity figures of the dashboard, and zeroes both derived ratios |
| Analytics.DashboardAgreesWithProjectView | ANALYTICS-SERVICE/src/main/java/com/workhive/analyticsservice/service/AnalyticsService.java:87-89 | the project view and the dashboard derive the same completion rate and total from the same project reply |
| Pipeline.ProjectViewOverStore | ANALYTICS-SERVICE/src/main/java/com/workhive/analyticsservice/service/AnalyticsService.java:83-100 | over the counts the project producer sends from its projects and tasks, the project view reports 0 completed and a rate of 0, in-progress = stored projects some stored task references, and pending = the producer's own count of projects without tasks |
| Pipeline.UserViewOverStore | ANALYTICS-SERVICE/src/main/java/com/workhive/analyticsservice/service/AnalyticsService.java:70-79 | over the counts the user producer sends, total and active are the number of stored users and inactive is 0 |
| Pipeline.TeamViewOverStore | ANALYTICS-SERVICE/src/main/java/com/workhive/analyticsservice/service/AnalyticsService.java:104-113 | over the team producer's count, total is the number of stored teams and the average size reads 0 |
| Pipeline.DashboardOverStores | ANALYTICS-SERVICE/src/main/java/com/workhive/analyticsservice/service/AnalyticsService.java:52-65 | over the project and team producers' counts, the dashboard's totals are the store sizes while completed projects, completion rate and average team size are always 0 |
| ProjectStatistics.HasTasks | PROJECT-SERVICE/src/main/java/com/workhive/projectservice/grpc/ProjectStatisticsServiceImpl.java:24 | a project counts as in progress exactly when it has an id and some stored task references it |
| ProjectStatistics.HasNoTasks | PROJECT-SERVICE/src/main/java/com/workhive/projectservice/grpc/ProjectStatisticsServiceImpl.java:44 | a project counts as completed exactly when it does not count as in progress |
| ProjectStatistics.GetProjectCount | PROJECT-SERVICE/src/main/java/com/workhive/projectservice/grpc/ProjectStatisticsServiceImpl.java:18-36 | total = number of stored projects, in progress = number of stored projects with a non-empty task list, completed never set (0) |
| ProjectStatistics.GetCompletedProjects | PROJECT-SERVICE/src/main/java/com/workhive/projectservice/grpc/ProjectStatisticsServiceImpl.java:39-55 | completed = number of stored projects with an empty task list |
| ProjectStatistics.InProgressAndCompletedPartition | PROJECT-SERVICE/src/main/java/com/workhive/projectservice/grpc/ProjectStatisticsServiceImpl.java:23-45 | over the same projects and tasks, in progress + completed = total, so each is at most the total |
| TeamStatistics.TeamSize | TEAM-SERVICE/src/main/java/com/workhive/teamservice/grpc/TeamStatisticsServiceImpl.java:38 | a team's size is the length of its developer list, 0 when the list is null |
| TeamStatistics.SumAtMostLargest | TEAM-SERVICE/src/main/java/com/workhive/teamservice/grpc/TeamStatisticsServiceImpl.java:37-40 | the sizes of n teams add up to at most n × the largest size |
| TeamStatistics.Mean | TEAM-SERVICE/src/main/java/com/workhive/teamservice/grpc/TeamStatisticsServiceImpl.java:37-40 | the average of count values adding up to sum is sum / count, and 0 for no values (orElse(0.0)); never negative |
| TeamStatistics.MeanAtMost | TEAM-SERVICE/src/main/java/com/workhive/teamservice/grpc/TeamStatisticsServiceImpl.java:37-40 | a mean of values each at most a bound is at most that bound |
| TeamStatistics.GetTeamCount | TEAM-SERVICE/src/main/java/com/workhive/teamservice/grpc/TeamStatisticsServiceImpl.java:18-31 | total = number of stored teams; the average size is never set (0) |
| TeamStatistics.GetAverageTeamSize | TEAM-SERVICE/src/main/java/com/workhive/teamservice/grpc/TeamStatisticsServiceImpl.java:34-50 | sum of the listed teams' sizes divided by their number, exactly 0 for no teams, and between 0 and the largest team size |
| LogsStatistics.Cutoff | Logs-service/src/main/java/com/workhive/logsservice/grpc/LogsStatisticsServiceImpl.java:25 | the cutoff lies exactly one day before now |
| LogsStatistics.StampedAfter | Logs-service/src/main/java/com/workhive/logsservice/grpc/LogsStatisticsServiceImpl.java:27 | a log is recent iff its timestamp is non-null and strictly after the cutoff |
| LogsStatistics.GetActivityCount | Logs-service/src/main/java/com/workhive/logsservice/grpc/LogsStatisticsServiceImpl.java:19-39 | total = number of stored logs, recent = number of stored logs stamped strictly after now − 1 day, and recent ≤ total |
| LogsStatistics.StaleLogNotCounted | Logs-service/src/main/java/com/workhive/logsservice/grpc/LogsStatisticsServiceImpl.java:25-28 | storing a new log that is unstamped or stamped at or before the cutoff raises the total by one and leaves the recent count unchanged |
| LogsStatistics.FreshLogCounted | Logs-service/src/main/java/com/workhive/logsservice/grpc/LogsStatisticsServiceImpl.java:25-28 | storing a new log stamped after the cutoff raises both counts by one |
| UserStatistics.GetUserCount | USER-SERVICE/src/main/java/com/workhive/userservice/grpc/UserStatisticsServiceImpl.java:20-36 | total = number of stored users and active = total |
| UserStatistics.GetUserById | USER-SERVICE/src/main/java/com/workhive/userservice/grpc/UserStatisticsServiceImpl.java:39-62 | not-found exactly for an unknown id; otherwise id, username and email copied, a null first or last name sent as "", and active always true |
| UserStatistics.SavedUserFound | USER-SERVICE/src/main/java/com/workhive/userservice/grpc/UserStatisticsServiceImpl.java:44-53 | after a user is stored under its id, the message for that id carries exactly that user's fields |
| UserModel.Role.Name | USER-SERVICE/src/main/java/com/workhive/userservice/domain/entity/Manager.java:11-13 | a manager reports "MANAGER" and a developer "DEVELOPER" (Developer.java, same lines) |
| UserModel.RoleFor | USER-SERVICE/src/main/java/com/workhive/userservice/service/UserServiceImpl.java:50-54 | a manager exactly for the role "MANAGER", a developer for any other role string |
| Users.ByUsername | USER-SERVICE/src/main/java/com/workhive/userservice/service/UserServiceImpl.java:41 | the derived query `findByUsername` selects exactly the users with that username |
| Users.ByEmail | USER-SERVICE/src/main/java/com/workhive/userservice/service/UserServiceImpl.java:46 | the derived query `findByEmail` selects exactly the users with that email |
| Users.IdIn | USER-SERVICE/src/main/java/com/workhive/userservice/service/UserServiceImpl.java:117 | `findAllById` selects exactly the users whose id is in the list |
| Users.NewUser | USER-SERVICE/src/main/java/com/workhive/userservice/service/UserServiceImpl.java:56-62 | the registered user has the new id, the request's username, email, first and last name, the encoded password, and the manager role iff the role is "MANAGER" |
| Users.UserService.FindByUsername | USER-SERVICE/src/main/java/com/workhive/userservice/service/UserServiceImpl.java:41 | a user is found iff some stored user has that username; the one found has it and is stored under its own id |
| Users.UserService.FindByEmail | USER-SERVICE/src/main/java/com/workhive/userservice/service/UserServiceImpl.java:46 | a user is found iff some stored user has that email; the one found has it and is stored |
| Users.UserService.Register | USER-SERVICE/src/main/java/com/workhive/userservice/service/UserServiceImpl.java:37-64 | a taken username fails first, then a taken email, then a null role, each with the store unchanged; it succeeds iff none applies, adding exactly the user NewUser builds, which is then found by its username; usernames and emails stay unique |
| Users.UserService.Login | USER-SERVICE/src/main/java/com/workhive/userservice/service/UserServiceImpl.java:68-78 | not-found iff no stored user has the username; success iff the stored user with that username has a password the encoder matches, and then the token issued for the username |
| Users.UserService.GetById | USER-SERVICE/src/main/java/com/workhive/userservice/service/UserServiceImpl.java:84-89 | not-found iff the id is unknown; otherwise the user stored under it |
| Users.UserService.GetByUsername | USER-SERVICE/src/main/java/com/workhive/userservice/service/UserServiceImpl.java:95-100 | not-found iff no user has the username; otherwise that user, the same one GetById returns for its id |
| Users.UserService.GetAllUsers | USER-SERVICE/src/main/java/com/workhive/userservice/service/UserServiceImpl.java:105-110 | every stored user exactly once in number, each one the user GetById returns for its id |
| Users.UserService.GetUsersByIds | USER-SERVICE/src/main/java/com/workhive/userservice/service/UserServiceImpl.java:115-120 | only stored users whose id is listed, every stored listed id represented, unknown ids skipped; as many users as stored ids match |
| Users.UserService.DeleteUser | USER-SERVICE/src/main/java/com/workhive/userservice/service/UserServiceImpl.java:124-130 | an unknown id fails with the store unchanged; otherwise exactly that user is removed and can no longer be found |
| Users.NewLoginsStayUnique | USER-SERVICE/src/main/java/com/workhive/userservice/service/UserServiceImpl.java:41-62 | storing a user whose username and email are both new keeps usernames and emails unique |
| Users.OnlyOwner | USER-SERVICE/src/main/java/com/workhive/userservice/service/UserServiceImpl.java:71-75 | with unique usernames, the stored user with a username is the only one, so login checks that user's password |
| Users.StoredIdListed | USER-SERVICE/src/main/java/com/workhive/userservice/service/UserServiceImpl.java:117 | a user stored under a listed id satisfies the `findAllById` test |
| TeamModel.UserDTO.FullName | TEAM-SERVICE/src/main/java/com/workhive/teamservice/service/TeamServiceImpl.java:111 | the full name is first name, one space, last name, with a null part printed as "null" |
| TeamModel.PlaceholderUser | TEAM-SERVICE/src/main/java/com/workhive/teamservice/client/UserClientFallback.java:12-22 | the placeholder keeps the requested id, has role "UNKNOWN" (neither manager nor developer) and full name "Unknown User" |
| TeamModel.WithFallback | TEAM-SERVICE/src/main/java/com/workhive/teamservice/client/UserClientFallback.java:12-22 | with the fallback the user lookup never fails: a successful call is passed through, a failed one yields the placeholder |
| TeamMapper.ToEntity | TEAM-SERVICE/src/main/java/com/workhive/teamservice/mapper/TeamMapper.java:11-18 | name, description, manager id and developer ids copied; no id or timestamps yet |
| TeamMapper.ToResponse | TEAM-SERVICE/src/main/java/com/workhive/teamservice/mapper/TeamMapper.java:20-30 | id, name, description, manager id, developer ids and both timestamps copied; manager and developer names unset |
| TeamMapper.RequestRoundTrip | TEAM-SERVICE/src/main/java/com/workhive/teamservice/mapper/TeamMapper.java:11-30 | ToResponse(ToEntity(r)) keeps r's name, description, manager id and developer ids |
| TeamMapper.ToResponseInjective | TEAM-SERVICE/src/main/java/com/workhive/teamservice/mapper/TeamMapper.java:20-30 | different teams give different responses |
| Teams.DeveloperCheck | TEAM-SERVICE/src/main/java/com/workhive/teamservice/service/TeamServiceImpl.java:43-49 | the developer check fails only with a failed lookup or a non-developer |
| Teams.DeveloperCheckPasses | TEAM-SERVICE/src/main/java/com/workhive/teamservice/service/TeamServiceImpl.java:43-49 | the check passes iff every listed id is found with the role "DEVELOPER" |
| Teams.DeveloperCheckReportsFirst | TEAM-SERVICE/src/main/java/com/workhive/teamservice/service/TeamServiceImpl.java:44-47 | the check reports the first id in list order that is not found or is not a developer, whatever follows it |
| Teams.CheckDevelopers | TEAM-SERVICE/src/main/java/com/workhive/teamservice/service/TeamServiceImpl.java:44-48 | the loop over the developer ids returns what DeveloperCheck specifies |
| Teams.TeamValidation | TEAM-SERVICE/src/main/java/com/workhive/teamservice/service/TeamServiceImpl.java:38-49 | a failed manager lookup fails, a manager without the exact role "MANAGER" is rejected, and developers are checked only when the list is non-null and non-empty |
| Teams.PlaceholderManagerRejected | TEAM-SERVICE/src/main/java/com/workhive/teamservice/service/TeamServiceImpl.java:38-40 | through the fallback, an unreachable manager becomes the "UNKNOWN" placeholder and is rejected as not a manager |
| Teams.PlaceholderDeveloperRejected | TEAM-SERVICE/src/main/java/com/workhive/teamservice/service/TeamServiceImpl.java:44-47 | through the fallback, any unreachable developer makes the check fail |
| Teams.DeveloperName | TEAM-SERVICE/src/main/java/com/workhive/teamservice/service/TeamServiceImpl.java:117-122 | a developer's name is its full name, or "Unknown Developer" when its lookup threw |
| Teams.Enriched | TEAM-SERVICE/src/main/java/com/workhive/teamservice/service/TeamServiceImpl.java:107-131 | a failed manager lookup leaves the response as it was; otherwise the manager name is set and, for a non-empty developer list, one name per developer id in the same order; nothing else changes |
| Teams.FallbackAlwaysNamesManager | TEAM-SERVICE/src/main/java/com/workhive/teamservice/service/TeamServiceImpl.java:110-111 | through the fallback, a manager name is always set |
| Teams.EnrichTeamResponse | TEAM-SERVICE/src/main/java/com/workhive/teamservice/service/TeamServiceImpl.java:107-131 | the step-by-step enrichment builds exactly the response Enriched specifies |
| Teams.UpdatedTeam | TEAM-SERVICE/src/main/java/com/workhive/teamservice/service/TeamServiceImpl.java:89-91 | name, description and developer ids overwritten; id, manager and timestamps kept |
| Teams.GetAllTeamsFallback | TEAM-SERVICE/src/main/java/com/workhive/teamservice/service/TeamServiceImpl.java:144-147 | the fallback lists no teams |
| Teams.TeamService.CreateTeam | TEAM-SERVICE/src/main/java/com/workhive/teamservice/service/TeamServiceImpl.java:34-55 | fails, storing nothing, exactly when TeamValidation fails and with its error; otherwise stores the request's team under the new id and returns it enriched |
| Teams.TeamService.GetById | TEAM-SERVICE/src/main/java/com/workhive/teamservice/service/TeamServiceImpl.java:61-67 | not-found iff the id is unknown; otherwise the stored team, enriched |
| Teams.TeamService.GetAllTeams | TEAM-SERVICE/src/main/java/com/workhive/teamservice/service/TeamServiceImpl.java:72-78 | one enriched response per stored team, in listing order |
| Teams.TeamService.UpdateTeam | TEAM-SERVICE/src/main/java/com/workhive/teamservice/service/TeamServiceImpl.java:84-95 | an unknown id fails with the store unchanged; otherwise the team is replaced by UpdatedTeam of it and returned enriched |
| Teams.TeamService.DeleteTeam | TEAM-SERVICE/src/main/java/com/workhive/teamservice/service/TeamServiceImpl.java:99-105 | an unknown id fails with the store unchanged; otherwise exactly that team is removed |
| ProjectModel.UserDto.FullName | PROJECT-SERVICE/src/main/java/com/workhive/projectservice/client/dto/UserDto.java:20-22 | first name, one space, last name, with a null part printed as "null" |
| ProjectClients.PlaceholderUser | PROJECT-SERVICE/src/main/java/com/workhive/projectservice/client/UserServiceClientFallback.java:15-25 | keeps the requested id; username "Unknown", email "unknown@workhive.com", role "UNKNOWN", full name "Unknown User" |
| ProjectClients.PlaceholderList | PROJECT-SERVICE/src/main/java/com/workhive/projectservice/client/UserServiceClientFallback.java:28-35 | one placeholder per requested id, as many as ids and in the same order |
| ProjectClients.PlaceholderUsers | PROJECT-SERVICE/src/main/java/com/workhive/projectservice/client/UserServiceClientFallback.java:28-35 | the loop builds exactly PlaceholderList: each entry keeps its id and is named "Unknown User" |
| ProjectClients.PlaceholderTeam | PROJECT-SERVICE/src/main/java/com/workhive/projectservice/client/TeamServiceClientFallback.java:12-19 | keeps the requested id; name "Unknown Team", description "Team service unavailable" |
| ProjectClients.UserWithFallback | PROJECT-SERVICE/src/main/java/com/workhive/projectservice/client/UserServiceClientFallback.java:15-25 | the user lookup never fails: success passed through, failure yields the placeholder |
| ProjectClients.UsersWithFallback | PROJECT-SERVICE/src/main/java/com/workhive/projectservice/client/UserServiceClientFallback.java:28-35 | the batch lookup never fails: a failed call yields one placeholder per id, in order |
| ProjectClients.TeamWithFallback | PROJECT-SERVICE/src/main/java/com/workhive/projectservice/client/TeamServiceClientFallback.java:12-19 | the team lookup never fails: success passed through, failure yields the placeholder team |
| TaskMapper.ToEntity | PROJECT-SERVICE/src/main/java/com/workhive/projectservice/mapper/TaskMapper.java:12-20 | title, description, status and developer ids copied, referencing the given project; no id or timestamps yet |
| TaskMapper.ToDto | PROJECT-SERVICE/src/main/java/com/workhive/projectservice/mapper/TaskMapper.java:22-34 | a task's fields copied, project id and name read from the project it references, developer names unset |
| TaskMapper.UpdateEntity | PROJECT-SERVICE/src/main/java/com/workhive/projectservice/mapper/TaskMapper.java:36-42 | title, description, status and developer ids overwritten; id, project reference and timestamps kept |
| TaskMapper.RequestRoundTrip | PROJECT-SERVICE/src/main/java/com/workhive/projectservice/mapper/TaskMapper.java:12-34 | the entity built from r for project p references p, and its DTO has r's title, description, status and developer ids and p's id and name |
| TaskMapper.UpdateAgreesWithCreate | PROJECT-SERVICE/src/main/java/com/workhive/projectservice/mapper/TaskMapper.java:12-42 | updating with a request gives the entity creating from it for the same project would, except for id and timestamps |
| TaskMapper.UpdateIdempotent | PROJECT-SERVICE/src/main/java/com/workhive/projectservice/mapper/TaskMapper.java:36-42 | updating twice with the same request is updating once |
| ProjectMapper.ToEntity | PROJECT-SERVICE/src/main/java/com/workhive/projectservice/mapper/ProjectMapper.java:19-26 | name, description, creator and team copied; no id or timestamps |
| ProjectMapper.ToDto | PROJECT-SERVICE/src/main/java/com/workhive/projectservice/mapper/ProjectMapper.java:28-41 | id, name, description, creator, team and timestamps copied, the project's tasks mapped one to one and in order by TaskMapper.ToDto with this project, manager and team names unset |
| ProjectMapper.UpdateEntity | PROJECT-SERVICE/src/main/java/com/workhive/projectservice/mapper/ProjectMapper.java:43-48 | name, description and team overwritten; creator, id and timestamps kept |
| ProjectMapper.RequestRoundTrip | PROJECT-SERVICE/src/main/java/com/workhive/projectservice/mapper/ProjectMapper.java:19-41 | the DTO of a new entity built from r has r's name, description, creator and team, no id and no tasks |
| ProjectMapper.UpdateRenamesTasks | PROJECT-SERVICE/src/main/java/com/workhive/projectservice/mapper/ProjectMapper.java:28-48 | after an update the DTO lists the same tasks, each as before except that it shows the project's new name |
| ProjectStore.InProject | PROJECT-SERVICE/src/main/java/com/workhive/projectservice/repository/TaskRepository.java:14 | `findByProjectId` selects exactly the tasks referencing that project |
| ProjectStore.TasksOf | PROJECT-SERVICE/src/main/java/com/workhive/projectservice/mapper/ProjectMapper.java:35-37 | a project's `getTasks`: only and all the stored tasks referencing it, as many as reference it; none for a project without an id |
| ProjectStore.UnstoredProjectHasNoTasks | PROJECT-SERVICE/src/main/java/com/workhive/projectservice/service/impl/ProjectServiceImpl.java:38-43 | a project not yet stored has an empty task list, so a created project's DTO lists no tasks |
| ProjectStore.CascadeKeepsConsistent | PROJECT-SERVICE/src/main/java/com/workhive/projectservice/service/impl/ProjectServiceImpl.java:104-110 | deleting a project together with the tasks referencing it keeps every stored task referencing a stored project |
| ProjectStore.DeleteWithoutCascadeBreaksLink | PROJECT-SERVICE/src/main/java/com/workhive/projectservice/service/impl/ProjectServiceImpl.java:104-110 | deleting only the project while a task references it leaves a task referencing no stored project |
| Projects.EnrichedProject | PROJECT-SERVICE/src/main/java/com/workhive/projectservice/service/impl/ProjectServiceImpl.java:123-138 | a failed manager lookup leaves the DTO as it was; otherwise the manager name is set, and the team name only when the project has a team and its lookup succeeded; nothing else changes |
| Projects.FallbacksNameManagerAndTeam | PROJECT-SERVICE/src/main/java/com/workhive/projectservice/service/impl/ProjectServiceImpl.java:126-133 | through both fallbacks the manager name is always set, and an unreachable team shows "Unknown Team" |
| Projects.Upper | PROJECT-SERVICE/src/main/java/com/workhive/projectservice/repository/ProjectRepository.java:13 | ASCII lower-case letters are upper-cased and every other character kept |
| Projects.UpperCase | PROJECT-SERVICE/src/main/java/com/workhive/projectservice/repository/ProjectRepository.java:13 | upper-casing keeps the length and works character by character |
| Projects.UpperCaseIdempotent | PROJECT-SERVICE/src/main/java/com/workhive/projectservice/repository/ProjectRepository.java:13 | upper-casing twice is upper-casing once |
| Projects.SearchIgnoresCase | PROJECT-SERVICE/src/main/java/com/workhive/projectservice/repository/ProjectRepository.java:13 | upper-casing the name or the fragment does not change whether the name contains the fragment |
| Projects.SearchFindsWholeAndEmpty | PROJECT-SERVICE/src/main/java/com/workhive/projectservice/repository/ProjectRepository.java:13 | every name contains itself and the empty fragment |
| Projects.CreatedBy | PROJECT-SERVICE/src/main/java/com/workhive/projectservice/repository/ProjectRepository.java:11 | `findByCreatedBy` selects exactly the projects of that creator |
| Projects.OfTeam | PROJECT-SERVICE/src/main/java/com/workhive/projectservice/repository/ProjectRepository.java:12 | `findByTeamId` selects exactly the projects of that team |
| Projects.NameContains | PROJECT-SERVICE/src/main/java/com/workhive/projectservice/repository/ProjectRepository.java:13 | `findByNameContainingIgnoreCase` selects exactly the projects whose name contains the fragment, ignoring case |
| Projects.DtoOf | PROJECT-SERVICE/src/main/java/com/workhive/projectservice/mapper/ProjectMapper.java:28-41 | a project's DTO lists exactly its stored tasks, each showing this project's id and name |
| Projects.Listing | PROJECT-SERVICE/src/main/java/com/workhive/projectservice/service/impl/ProjectServiceImpl.java:61-64 | one enriched DTO per project found, in the same order, keeping id, creator and team |
| Projects.SelectionListed | PROJECT-SERVICE/src/main/java/com/workhive/projectservice/service/impl/ProjectServiceImpl.java:67-121 | a derived query lists the enriched DTO of every stored project it selects |
| Projects.ListingContains | PROJECT-SERVICE/src/main/java/com/workhive/projectservice/service/impl/ProjectServiceImpl.java:61-64 | every project found has its enriched DTO in the listing |
| Projects.ListFallback | PROJECT-SERVICE/src/main/java/com/workhive/projectservice/service/impl/ProjectServiceImpl.java:151-174 | every list and search fallback returns no projects |
| Projects.ProjectService.CreateProject | PROJECT-SERVICE/src/main/java/com/workhive/projectservice/service/impl/ProjectServiceImpl.java:38-43 | exactly one new project, built from the request, is stored under the new id, tasks untouched; it is returned enriched, with that id and no tasks |
| Projects.ProjectService.GetProjectById | PROJECT-SERVICE/src/main/java/com/workhive/projectservice/service/impl/ProjectServiceImpl.java:49-54 | not-found iff the id is unknown; otherwise the stored project, enriched, listing as many tasks as reference it |
| Projects.ProjectService.GetAllProjects | PROJECT-SERVICE/src/main/java/com/workhive/projectservice/service/impl/ProjectServiceImpl.java:59-65 | one DTO per stored project: the i-th is the enriched DTO of the i-th project findAll lists, so every stored project appears |
| Projects.ProjectService.GetProjectsByManager | PROJECT-SERVICE/src/main/java/com/workhive/projectservice/service/impl/ProjectServiceImpl.java:70-76 | only and all the projects of that creator, one DTO per matching project |
| Projects.ProjectService.GetProjectsByTeam | PROJECT-SERVICE/src/main/java/com/workhive/projectservice/service/impl/ProjectServiceImpl.java:81-87 | only and all the projects of that team, one DTO per matching project |
| Projects.ProjectService.SearchProjectsByName | PROJECT-SERVICE/src/main/java/com/workhive/projectservice/service/impl/ProjectServiceImpl.java:115-121 | only and all the projects whose name contains the fragment ignoring case, one DTO per matching project |
| Projects.ProjectService.UpdateProject | PROJECT-SERVICE/src/main/java/com/workhive/projectservice/service/impl/ProjectServiceImpl.java:93-100 | an unknown id fails with the store unchanged; otherwise updateEntity is applied to the stored project, which keeps its creator and its tasks, and every task in the returned DTO shows the new name |
| Projects.ProjectService.DeleteProject | PROJECT-SERVICE/src/main/java/com/workhive/projectservice/service/impl/ProjectServiceImpl.java:104-110 | an unknown id fails with both stores unchanged; otherwise that project is removed together with exactly the tasks referencing it |
| Tasks.EnrichedTask | PROJECT-SERVICE/src/main/java/com/workhive/projectservice/service/impl/TaskServiceImpl.java:153-167 | for a non-empty developer list and a successful batch call, developer names are the returned users' full names in the order returned; otherwise the DTO is unchanged; nothing else ever changes |
| Tasks.FallbackNamesEveryDeveloper | PROJECT-SERVICE/src/main/java/com/workhive/projectservice/service/impl/TaskServiceImpl.java:156-161 | through the batch fallback, an unreachable user service yields one "Unknown User" name per developer id |
| Tasks.WithStatus | PROJECT-SERVICE/src/main/java/com/workhive/projectservice/repository/TaskRepository.java:15 | `findByStatus` selects exactly the tasks with that status |
| Tasks.ByDeveloper | PROJECT-SERVICE/src/main/java/com/workhive/projectservice/repository/TaskRepository.java:17-18 | the tasks whose developer list holds that developer |
| Tasks.Occurrences | PROJECT-SERVICE/src/main/java/com/workhive/projectservice/repository/TaskRepository.java:17 | a task has join rows for a developer exactly when its developer list holds that developer |
| Tasks.Join | PROJECT-SERVICE/src/main/java/com/workhive/projectservice/repository/TaskRepository.java:17-18 | `findByDeveloperId` as written: every row is a listed task holding that developer |
| Tasks.JoinContains | PROJECT-SERVICE/src/main/java/com/workhive/projectservice/repository/TaskRepository.java:17-18 | every listed task holding the developer is in the join |
| Tasks.JoinMissesId | PROJECT-SERVICE/src/main/java/com/workhive/projectservice/repository/TaskRepository.java:17-18 | a task id no listed task carries has no join rows |
| Tasks.JoinCountsOccurrences | PROJECT-SERVICE/src/main/java/com/workhive/projectservice/repository/TaskRepository.java:17-18 | over listed tasks with distinct ids, each task comes back as many times as the developer occurs in its list |
| Tasks.ListedIdsDistinct | PROJECT-SERVICE/src/main/java/com/workhive/projectservice/repository/TaskRepository.java:17-18 | the tasks `findAll` lists have distinct ids, so the join rows of different tasks never mix |
| Tasks.DtoOf | PROJECT-SERVICE/src/main/java/com/workhive/projectservice/mapper/TaskMapper.java:22-34 | a stored task's DTO shows the id and current name of the stored project it references |
| Tasks.RenameShowsInTasks | PROJECT-SERVICE/src/main/java/com/workhive/projectservice/mapper/TaskMapper.java:28-29 | after its project is renamed, a task's DTO shows the new name and is otherwise unchanged, and the store stays consistent |
| Tasks.StoredTasksLinked | PROJECT-SERVICE/src/main/java/com/workhive/projectservice/service/impl/TaskServiceImpl.java:63-102 | every stored task references a stored project, so every task found can be mapped |
| Tasks.Listing | PROJECT-SERVICE/src/main/java/com/workhive/projectservice/service/impl/TaskServiceImpl.java:65-68 | one enriched DTO per task found, in the same order, keeping id and status |
| Tasks.ListingContains | PROJECT-SERVICE/src/main/java/com/workhive/projectservice/service/impl/TaskServiceImpl.java:65-68 | every task found has its enriched DTO in the listing |
| Tasks.ListFallback | PROJECT-SERVICE/src/main/java/com/workhive/projectservice/service/impl/TaskServiceImpl.java:180-198 | every list fallback returns no tasks |
| Tasks.TaskService.CreateTask | PROJECT-SERVICE/src/main/java/com/workhive/projectservice/service/impl/TaskServiceImpl.java:39-47 | an unknown project fails and stores nothing; otherwise the request's task, referencing that project, is stored under the new id and returned enriched with that id and project |
| Tasks.TaskService.GetTaskById | PROJECT-SERVICE/src/main/java/com/workhive/projectservice/service/impl/TaskServiceImpl.java:53-58 | not-found iff the id is unknown; otherwise the stored task, enriched |
| Tasks.TaskService.GetAllTasks | PROJECT-SERVICE/src/main/java/com/workhive/projectservice/service/impl/TaskServiceImpl.java:63-69 | one DTO per stored task: the i-th is the enriched DTO of the i-th task findAll lists, read from its stored project, so every stored task appears |
| Tasks.TaskService.GetTasksByProject | PROJECT-SERVICE/src/main/java/com/workhive/projectservice/service/impl/TaskServiceImpl.java:74-80 | only and all the tasks of that project, one DTO per matching task; none for an unknown project |
| Tasks.TaskService.GetTasksByStatus | PROJECT-SERVICE/src/main/java/com/workhive/projectservice/service/impl/TaskServiceImpl.java:85-91 | only and all the tasks with that status, one DTO per matching task |
| Tasks.TaskService.GetTasksByDeveloper | PROJECT-SERVICE/src/main/java/com/workhive/projectservice/service/impl/TaskServiceImpl.java:96-102 | every DTO is the enriched DTO of a stored task listing that developer, read from its stored project; every such task is listed, and each comes back exactly as many times as the developer occurs in its list |
| Tasks.TaskService.JoinCounted | PROJECT-SERVICE/src/main/java/com/workhive/projectservice/service/impl/TaskServiceImpl.java:96-102 | over the whole store, each stored task has as many join rows as it has occurrences of the developer |
| Tasks.TaskService.UpdateStored | PROJECT-SERVICE/src/main/java/com/workhive/projectservice/service/impl/TaskServiceImpl.java:110-114 | shared find-change-save step: an unknown id fails with the store unchanged, otherwise only that task is replaced by the change of it, which keeps its id and project |
| Tasks.TaskService.UpdateTask | PROJECT-SERVICE/src/main/java/com/workhive/projectservice/service/impl/TaskServiceImpl.java:108-115 | an unknown id fails with the store unchanged; otherwise updateEntity is applied and a task keeps its project |
| Tasks.TaskService.AssignDevelopers | PROJECT-SERVICE/src/main/java/com/workhive/projectservice/service/impl/TaskServiceImpl.java:131-138 | an unknown id fails with the store unchanged; otherwise that task's developer list becomes exactly the given one and nothing else changes |
| Tasks.TaskService.UpdateTaskStatus | PROJECT-SERVICE/src/main/java/com/workhive/projectservice/service/impl/TaskServiceImpl.java:144-151 | an unknown id fails with the store unchanged; otherwise only that task's status changes |
| Tasks.TaskService.DeleteTask | PROJECT-SERVICE/src/main/java/com/workhive/projectservice/service/impl/TaskServiceImpl.java:119-125 | an unknown id fails with the store unchanged; otherwise exactly that task is removed |
| LogsModel.UserDto.FullName | Logs-service/src/main/java/com/workhive/logsservice/dto/UserDto.java:17-22 | first and last name joined by one space when both are set, otherwise the username |
| LogsModel.PlaceholderUser | Logs-service/src/main/java/com/workhive/logsservice/client/UserServiceClientFallback.java:12-18 | keeps the requested id, username "Unknown User", no names, so its full name is "Unknown User" |
| LogsModel.UserWithFallback | Logs-service/src/main/java/com/workhive/logsservice/client/UserServiceClientFallback.java:12-18 | a successful call is passed through, a failed one yields the placeholder |
| ActivityLogs.EnrichWithUserData | Logs-service/src/main/java/com/workhive/logsservice/service/ActivityLogService.java:150-166 | every log field copied; display name = the user's full name when a user came back, else the log's own username |
| ActivityLogs.EnrichAll | Logs-service/src/main/java/com/workhive/logsservice/service/ActivityLogService.java:69-71 | each listed log enriched with its own user, in the same order |
| ActivityLogs.EnrichedListed | Logs-service/src/main/java/com/workhive/logsservice/service/ActivityLogService.java:69-71 | every listed log appears enriched in the result |
| ActivityLogs.EnrichFallback | Logs-service/src/main/java/com/workhive/logsservice/service/ActivityLogService.java:174-189 | every log field copied, display name = the log's own username |
| ActivityLogs.FallbackAgreesWithNullUser | Logs-service/src/main/java/com/workhive/logsservice/service/ActivityLogService.java:153-189 | the fallback builds exactly the DTO the enrichment builds when the client returns null |
| ActivityLogs.DisplayNameCases | Logs-service/src/main/java/com/workhive/logsservice/dto/UserDto.java:17-22 | a returned user with both names is shown as first + " " + last, one missing either as its username |
| ActivityLogs.FailedCallNamesUnknownUser | Logs-service/src/main/java/com/workhive/logsservice/client/UserServiceClientFallback.java:12-18 | through the client fallback, a failed user call shows "Unknown User" |
| ActivityLogs.ByUserId | Logs-service/src/main/java/com/workhive/logsservice/repository/ActivityLogRepository.java:15 | `findByUserId` selects exactly the logs of that user |
| ActivityLogs.ByUsername | Logs-service/src/main/java/com/workhive/logsservice/repository/ActivityLogRepository.java:17 | `findByUsername` selects exactly the logs recorded under that username |
| ActivityLogs.ByAction | Logs-service/src/main/java/com/workhive/logsservice/repository/ActivityLogRepository.java:19 | `findByAction` selects exactly the logs of that action |
| ActivityLogs.ByEntityType | Logs-service/src/main/java/com/workhive/logsservice/repository/ActivityLogRepository.java:21 | `findByEntityType` selects exactly the logs of that entity type |
| ActivityLogs.ByEntity | Logs-service/src/main/java/com/workhive/logsservice/repository/ActivityLogRepository.java:23 | `findByEntityTypeAndEntityId` selects exactly the logs of that type and id |
| ActivityLogs.InRange | Logs-service/src/main/java/com/workhive/logsservice/repository/ActivityLogRepository.java:25 | `BETWEEN` includes both ends and never matches an unstamped log |
| ActivityLogs.ByUserInRange | Logs-service/src/main/java/com/workhive/logsservice/repository/ActivityLogRepository.java:27-32 | the user-and-range query selects exactly that user's logs within the range |
| ActivityLogs.EmptyRangeMatchesNothing | Logs-service/src/main/java/com/workhive/logsservice/repository/ActivityLogRepository.java:25 | a range that ends before it starts selects no log |
| ActivityLogs.UserRangeNarrowsRange | Logs-service/src/main/java/com/workhive/logsservice/repository/ActivityLogRepository.java:27-32 | the user-and-range query selects the intersection of the user query and the range query |
| ActivityLogs.ActivityLogService.CreateActivityLog | Logs-service/src/main/java/com/workhive/logsservice/service/ActivityLogService.java:31-48 | exactly one new log is stored, carrying the input's eight fields and stamped now, and returned enriched |
| ActivityLogs.ActivityLogService.GetById | Logs-service/src/main/java/com/workhive/logsservice/service/ActivityLogService.java:51-56 | not-found iff the id is unknown; otherwise the stored log, enriched |
| ActivityLogs.ActivityLogService.Query | Logs-service/src/main/java/com/workhive/logsservice/service/ActivityLogService.java:66-120 | a derived query returns one enriched DTO per stored log satisfying its test, only such logs, and every such log |
| ActivityLogs.ActivityLogService.GetByUserId | Logs-service/src/main/java/com/workhive/logsservice/service/ActivityLogService.java:67-72 | as many DTOs as logs of that user, each of a stored log of that user |
| ActivityLogs.ActivityLogService.GetByUsername | Logs-service/src/main/java/com/workhive/logsservice/service/ActivityLogService.java:75-80 | as many DTOs as logs under that username, each of such a stored log |
| ActivityLogs.ActivityLogService.GetByAction | Logs-service/src/main/java/com/workhive/logsservice/service/ActivityLogService.java:83-88 | as many DTOs as logs of that action, each of such a stored log |
| ActivityLogs.ActivityLogService.GetByEntityType | Logs-service/src/main/java/com/workhive/logsservice/service/ActivityLogService.java:91-96 | as many DTOs as logs of that entity type, each of such a stored log |
| ActivityLogs.ActivityLogService.GetByEntity | Logs-service/src/main/java/com/workhive/logsservice/service/ActivityLogService.java:99-104 | as many DTOs as logs about that entity, each of such a stored log |
| ActivityLogs.ActivityLogService.GetByDateRange | Logs-service/src/main/java/com/workhive/logsservice/service/ActivityLogService.java:107-112 | as many DTOs as logs stamped within the range, ends included, each of such a stored log |
| ActivityLogs.ActivityLogService.GetByUserAndDateRange | Logs-service/src/main/java/com/workhive/logsservice/service/ActivityLogService.java:115-120 | as many DTOs as that user's logs within the range, each of a stored log of that user within the range |
| ActivityLogs.ActivityLogService.DeleteActivityLog | Logs-service/src/main/java/com/workhive/logsservice/service/ActivityLogService.java:131-138 | answers true iff the log existed; then exactly it is removed, otherwise the store is unchanged |
| ActivityLogs.ActivityLogService.DeleteUserActivityLogs | Logs-service/src/main/java/com/workhive/logsservice/service/ActivityLogService.java:141-146 | always answers true; exactly the logs of that user are removed and all others kept unchanged |
| Notifications.PlaceholderUser | NOTIFICATION-SERVICE/src/main/java/com/workhive/notificationservice/client/UserServiceClientFallback.java:12-19 | keeps the requested id, username "Unknown User", email "unknown@workhive.com" |
| Notifications.UserWithFallback | NOTIFICATION-SERVICE/src/main/java/com/workhive/notificationservice/client/UserServiceClientFallback.java:12-19 | the user lookup never fails: success passed through, failure yields the placeholder |
| Notifications.NewNotification | NOTIFICATION-SERVICE/src/main/java/com/workhive/notificationservice/service/NotificationService.java:35-41 | the given user and message, unread, stamped now, of the given type or "INFO" when none is given |
| Notifications.UnreadOf | NOTIFICATION-SERVICE/src/main/java/com/workhive/notificationservice/service/NotificationService.java:57 | `findByUserIdAndIsRead(userId, false)` selects exactly that user's unread notifications |
| Notifications.MarkedRead | NOTIFICATION-SERVICE/src/main/java/com/workhive/notificationservice/service/NotificationService.java:66-67 | only that notification's read flag is set; the listing is unchanged |
| Notifications.MarkedReadIdempotent | NOTIFICATION-SERVICE/src/main/java/com/workhive/notificationservice/service/NotificationService.java:66-67 | marking a notification read twice is marking it once |
| Notifications.AllMarkedRead | NOTIFICATION-SERVICE/src/main/java/com/workhive/notificationservice/service/NotificationService.java:71-76 | exactly that user's unread notifications become read; every other notification and the listing are unchanged |
| Notifications.AllMarkedReadEffect | NOTIFICATION-SERVICE/src/main/java/com/workhive/notificationservice/service/NotificationService.java:73-75 | afterwards the user has no unread notification, and other users' notifications are untouched |
| Notifications.AllMarkedReadIdempotent | NOTIFICATION-SERVICE/src/main/java/com/workhive/notificationservice/service/NotificationService.java:71-76 | marking all of a user's notifications read twice is doing it once |
| Notifications.ReadInStep | NOTIFICATION-SERVICE/src/main/java/com/workhive/notificationservice/service/NotificationService.java:74-75 | saving one more stored notification back read extends the set of notifications marked read by its key |
| Notifications.ReadInMatching | NOTIFICATION-SERVICE/src/main/java/com/workhive/notificationservice/service/NotificationService.java:73-75 | marking read the keys of a user's unread notifications is what AllMarkedRead specifies |
| Notifications.UnreadKeys | NOTIFICATION-SERVICE/src/main/java/com/workhive/notificationservice/service/NotificationService.java:73 | each listed unread notification is stored under its own id, and these ids are exactly the keys of the user's unread notifications |
| Notifications.NotificationService.SendNotification | NOTIFICATION-SERVICE/src/main/java/com/workhive/notificationservice/service/NotificationService.java:28-46 | whether or not the user lookup succeeds, exactly one new notification (NewNotification with the new id) is stored and returned |
| Notifications.NotificationService.SendNotificationFallback | NOTIFICATION-SERVICE/src/main/java/com/workhive/notificationservice/service/NotificationService.java:84-95 | stores and returns the same notification as a successful send |
| Notifications.NotificationService.GetUnreadNotifications | NOTIFICATION-SERVICE/src/main/java/com/workhive/notificationservice/service/NotificationService.java:55-58 | only and all of the user's unread stored notifications |
| Notifications.NotificationService.GetUnreadCount | NOTIFICATION-SERVICE/src/main/java/com/workhive/notificationservice/service/NotificationService.java:79-81 | the number of the user's unread notifications, the length of GetUnreadNotifications |
| Notifications.NotificationService.MarkAsRead | NOTIFICATION-SERVICE/src/main/java/com/workhive/notificationservice/service/NotificationService.java:61-68 | an unknown id fails with the store unchanged; otherwise the store becomes MarkedRead and the notification is returned read |
| Notifications.NotificationService.MarkAllAsRead | NOTIFICATION-SERVICE/src/main/java/com/workhive/notificationservice/service/NotificationService.java:71-76 | the store becomes AllMarkedRead of the old store |
| Notifications.NotificationService.SaveAllRead | NOTIFICATION-SERVICE/src/main/java/com/workhive/notificationservice/service/NotificationService.java:74-75 | saving each listed notification back read, one after another, marks read exactly the listed keys |

## Left out

**Not modelled at all**
- Circuit breaker and retry: the Resilience4j machinery is not in the repository. The interception itself, retry counts and breaker state are not modelled. The fallbacks that return a value are modelled as ordinary functions: the Feign client placeholders (`ProjectClients`, `TeamModel`, the logs and notification services' user clients), the analytics fallbacks, `enrichWithUserDataFallback` and `sendNotificationFallback`. The empty lists that the list queries fall back to are modelled as standalone constants (`Projects.ListFallback`, `Tasks.ListFallback`, `Teams.GetAllTeamsFallback`). They are not wired into the queries, because the modelled queries cannot fail.
- Transport: REST controllers, the GraphQL resolver, the SOAP endpoint and its XML types, Feign interfaces, gRPC stubs and `StreamObserver` calls. These only carry the modelled operations to and from the network.
- Persistence internals: JPA query generation, transactions and rollback, `@PrePersist`/`@PreUpdate` timestamp hooks, and id generation. Ids and timestamps are parameters or stay as stored.
- Logging.
- Concurrency: the source has none; the four analytics calls are sequential.
- `PasswordEncoder` and `JwtService`: they are uninterpreted function parameters (`encode`, `matches`, `token`), so the model says nothing about hashing or tokens.
- `getAllActivityLogs` and `getRecentUserActivities` (`findTop50...OrderByTimestampDesc`): the newest-first ordering and the limit of 50 belong to the database query and are not modelled.
- `getNotificationsByUser`: it is only `findByUserIdOrderByTimestampDesc`, a database ordering, and is not modelled.
- The user service's unmodelled fallbacks:
  - `getAllUsers` and `getUsersByIds` fall back to empty lists; these are not modelled.
  - `registerFallback` throws a generic exception, and `getByIdFallback` and `getByUsernameFallback` throw `UserNotFoundException`; these replace the cause, as described under the breaker fallbacks below.
- The duplicate team-service sources kept under its src/test tree differ from the main sources and are not modelled.

**Modelled differently from the code**
- Updates in place: entity setters become record updates written back into the repository map, and DTO enrichment becomes a new DTO value. Aliasing between an entity and its DTO is not modelled.
- Floating point: rates and averages are Dafny `real`, not IEEE `double`. The `(int)` casts of `long` counts are not modelled, so counts are unbounded integers.
- The completion rate is stated as rate × total = completed × 100 rather than as a double division.
- Lookup order: derived queries and `findAll` list rows in the repository's listing order (insertion order, kept on update). `findAllById` in `getUsersByIds` is likewise modelled as a filter over that listing, not in the order of the requested ids.
- `@CircuitBreaker` on the private, self-invoked `enrichWithUserData` is not applied by Spring's proxies. A null user and the fallback produce identical DTOs (`ActivityLogs.FallbackAgreesWithNullUser`), so both are modelled without deciding which happens.
- Case folding in `findByNameContainingIgnoreCase` is ASCII upper-casing; database collations beyond ASCII are not modelled.
- The user service's response mapper is not part of this model. `getById` and the other queries return the stored `User` record.
- `User.java` in the user service declares only id, username, email and password. The first and last name that `register` sets are modelled as optional fields of the user record.
- The team service's main `UserDTO` class is not part of this model. Its `getFullName` is assumed to be built like the project service's (first name, space, last name).
- `Project.java` and `Task.java` are not part of this model. A task's project is modelled as the key of the stored project it references, read at the time of use. A project's task list is modelled as the inverse side of that reference (`ProjectStore.TasksOf`): the stored tasks referencing it, in listing order. Deleting a project is assumed to cascade to its tasks.
- The logs producer sends total and recent activities, while the analytics service reads total, today and week activities. Those message definitions are not part of this model, so the analytics side takes its activity reply as a parameter and `pipeline.dfy` does not connect the two.
- `register` with a null role throws before saving. This is modelled as the `NullRole` failure with the store unchanged.
- Breaker fallbacks that throw: `createTask`, `updateTask`, `assignDevelopers`, `updateTaskStatus`, `createProject`, `updateProject`, `createTeam`, `updateTeam`, `register` and `createActivityLog` each have a fallback that throws one generic `RuntimeException` ("Service temporarily unavailable"), whatever went wrong. The model reports why the call failed instead (`NotFound`, `NotAManager`, `NotADeveloper`, `UsernameTaken`, `EmailTaken`, `NullRole`, `RemoteCallFailed`). The read fallbacks of `getTaskById`, `getProjectById`, the team service's `getById` and the user service's `getById` and `getByUsername` throw a not-found exception with a "service unavailable" message; the model reports `NotFound` or `RemoteCallFailed`.

**Contracts weaker than the source**
- TeamStatistics.GetAverageTeamSize: it takes the `findAll` listing rather than the store. It is connected to the store by `Tables.Table.FindAll`, whose listing holds every stored team once.
- Users.UserService.FindByEmail: states that the user found is a stored user with that email, not the key it is stored under.
- ActivityLogs.ActivityLogService.GetByUserId: states the count and that each DTO is of a stored matching log. Completeness (every matching log listed) is stated once, on `ActivityLogs.ActivityLogService.Query`, which every query calls. The same holds for the other six `GetBy...` queries.
- Projects.ProjectService.GetProjectsByManager: states which projects are listed and how many, not their order; the same holds for `GetProjectsByTeam`, `SearchProjectsByName` and the three task list queries.
- ProjectModel.Project: has no stored task list. `getTasks` is `ProjectStore.TasksOf` over the stored tasks, so it is never null, it cannot be out of step with the tasks' references, and the producer's null branch is not reached.
- Tasks.TaskService.GetTasksByDeveloper: states which tasks come back and how many times each, not the order of the join rows.
- Pipeline.DashboardOverStores: does not restate projects per team, which `Analytics.Dashboard` already states for every reply.
