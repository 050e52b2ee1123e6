/**
 * The gRPC count messages the statistics producers send and the analytics service reads.
 * A proto3 integer that a producer never sets reads as 0 on the receiving side.
 */
module StatisticsMessages {

  /** `UserCountResponse`. */
  datatype UserCountResponse = UserCountResponse(totalUsers: int, activeUsers: int)

  /** `ProjectCountResponse`. */
  datatype ProjectCountResponse =
    ProjectCountResponse(totalProjects: int, completedProjects: int, inProgressProjects: int)

  /** `TeamCountResponse`. */
  datatype TeamCountResponse = TeamCountResponse(totalTeams: int, averageTeamSize: int)

  /** `ActivityCountResponse` as the analytics service reads it. */
  datatype ActivityCountResponse =
    ActivityCountResponse(totalActivities: int, todayActivities: int, weekActivities: int)

  /** `CompletedProjectsResponse`. */
  datatype CompletedProjectsResponse = CompletedProjectsResponse(completedProjects: int)

  /** `AverageTeamSizeResponse`. */
  datatype AverageTeamSizeResponse = AverageTeamSizeResponse(averageSize: real)
}
