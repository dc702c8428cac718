/** The records of the three application tables (monitors, uptimeChecks,
    monitorStats), the argument records of the recording mutation and of a
    scheduled probe, and the check status. */
module Schema {
  import opened Wrappers

  type UserId = nat
  /** Monitor ids are issued in increasing order, so id order is creation order. */
  type MonitorId = nat

  datatype Status = UP | DOWN | ERROR

  /** A row of the monitors table. `checkInterval` is stored but never read by
      the round scheduler. */
  datatype Monitor = Monitor(
    id: MonitorId,
    name: string,
    url: string,
    userId: UserId,
    isActive: bool,
    checkInterval: int,
    createdAt: int)

  /** The arguments of `recordUptimeCheck` other than the monitor id. */
  datatype CheckReport = CheckReport(
    status: Status,
    responseTime: Option<int>,
    statusCode: Option<int>,
    errorMessage: Option<string>)

  /** A row of the append-only uptimeChecks table. */
  datatype UptimeCheck = UptimeCheck(
    monitorId: MonitorId,
    status: Status,
    responseTime: Option<int>,
    statusCode: Option<int>,
    errorMessage: Option<string>,
    timestamp: int)

  /** A row of the monitorStats table (one per monitor). */
  datatype MonitorStats = MonitorStats(
    uptimePercentage: real,
    avgResponseTime: real,
    totalChecks: nat,
    successfulChecks: nat,
    lastStatus: Status,
    lastCheckTime: int,
    lastResponseTime: Option<int>)

  /** The arguments of a `performUptimeCheck` action, as the round and the
      instant-check scheduler pass them. */
  datatype CheckJob = CheckJob(monitorId: MonitorId, url: string, name: string)
}
