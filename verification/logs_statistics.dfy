/**
 * The logs service's statistics producer (`LogsStatisticsServiceImpl`): the number of stored
 * activity logs, and of those stamped within the last day.
 */
module LogsStatistics {
  import opened Wrappers
  import opened Sequences
  import opened Tables
  import opened LogsModel

  /** The reply `getActivityCount` builds: the two figures it sets. */
  datatype ActivityCountReply = ActivityCountReply(totalActivities: int, recentActivities: int)

  /** The instant one day before `now` (`LocalDateTime.now().minusDays(1)`). */
  function Cutoff(now: int): (c: int)
    ensures c < now && now - c == NanosPerDay
  {
    now - NanosPerDay
  }

  /** The test the recent count applies: a timestamp is set and lies strictly after `cutoff`. */
  function StampedAfter(cutoff: int): (p: ActivityLog -> bool)
    ensures forall l :: p(l) <==> l.timestamp.Some? && l.timestamp.value > cutoff
  {
    (l: ActivityLog) => l.timestamp.Some? && l.timestamp.value > cutoff
  }

  /** `getActivityCount`: every stored log, and the stored logs stamped after the cutoff. */
  function GetActivityCount(logs: Table<ActivityLog>, now: int): (r: ActivityCountReply)
    requires logs.Valid()
    ensures r.totalActivities == |logs.rows|
    ensures r.recentActivities == |logs.Matching(StampedAfter(Cutoff(now)))|
    ensures 0 <= r.recentActivities <= r.totalActivities
  {
    var recent := StampedAfter(Cutoff(now));
    logs.CountIsMatching(recent);
    ActivityCountReply(logs.Count(), Count(logs.FindAll(), recent))
  }

  /**
   * Storing a new log that is unstamped, or stamped at or before the cutoff, adds one to the total
   * and leaves the recent count as it was.
   */
  lemma StaleLogNotCounted(logs: Table<ActivityLog>, now: int, id: int, log: ActivityLog)
    requires logs.Valid() && id !in logs.rows
    requires log.timestamp.None? || log.timestamp.value <= Cutoff(now)
    ensures GetActivityCount(logs.Save(id, log), now).totalActivities == GetActivityCount(logs, now).totalActivities + 1
    ensures GetActivityCount(logs.Save(id, log), now).recentActivities == GetActivityCount(logs, now).recentActivities
  {
    logs.SaveNewMatching(id, log, StampedAfter(Cutoff(now)));
  }

  /** Storing a new log stamped strictly after the cutoff adds one to both counts. */
  lemma FreshLogCounted(logs: Table<ActivityLog>, now: int, id: int, log: ActivityLog)
    requires logs.Valid() && id !in logs.rows
    requires log.timestamp.Some? && log.timestamp.value > Cutoff(now)
    ensures GetActivityCount(logs.Save(id, log), now).totalActivities == GetActivityCount(logs, now).totalActivities + 1
    ensures GetActivityCount(logs.Save(id, log), now).recentActivities == GetActivityCount(logs, now).recentActivities + 1
  {
    logs.SaveNewMatching(id, log, StampedAfter(Cutoff(now)));
  }
}
