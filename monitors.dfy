/** The monitors, uptimeChecks and monitorStats tables and the scheduler queue,
    with the mutations and queries that read and write them. */
module Monitors {
  import opened Wrappers
  import opened Schema
  import opened Stats

  /** The errors the mutations throw, one per distinct message. */
  datatype Error =
    | MustBeLoggedInToAdd
    | MustBeLoggedIn
    | InvalidUrlFormat
    | NotFoundOrAccessDenied
    | CannotCheckPausedMonitor

  function Message(e: Error): string
  {
    match e
    case MustBeLoggedInToAdd => "Must be logged in to add monitors"
    case MustBeLoggedIn => "Must be logged in"
    case InvalidUrlFormat => "Invalid URL format"
    case NotFoundOrAccessDenied => "Monitor not found or access denied"
    case CannotCheckPausedMonitor => "Cannot check paused monitor"
  }

  /** `checkInterval || 60`: an absent or zero interval becomes 60 seconds. */
  function IntervalOrDefault(checkInterval: Option<int>): (r: int)
    ensures checkInterval.None? || checkInterval.value == 0 ==> r == 60
    ensures checkInterval.Some? && checkInterval.value != 0 ==> r == checkInterval.value
  {
    if checkInterval.None? || checkInterval.value == 0 then 60 else checkInterval.value
  }

  /** The row `recordUptimeCheck` inserts. */
  function CheckRow(id: MonitorId, report: CheckReport, timestamp: int): UptimeCheck
  {
    UptimeCheck(id, report.status, report.responseTime, report.statusCode, report.errorMessage, timestamp)
  }

  /** The placeholder stats `getUserMonitors` shows for a monitor without a
      stats row; unlike the zeroed row it carries a last response time of 0. */
  const DisplayDefaultStats := MonitorStats(0.0, 0.0, 0, 0, DOWN, 0, Some(0))

  /** How many recent checks `getUserMonitors` returns per monitor. */
  const RecentCheckCount: nat := 10

  ghost predicate WellKeyed(ms: map<MonitorId, Monitor>)
  {
    forall id :: id in ms ==> ms[id].id == id
  }

  /** The monitors with id below `n` that satisfy `keep`, in id (creation)
      order: what a query on an index over `keep`'s field returns. */
  function Select(ms: map<MonitorId, Monitor>, n: nat, keep: Monitor -> bool): (r: seq<Monitor>)
    requires WellKeyed(ms)
    ensures forall i :: 0 <= i < |r| ==>
      keep(r[i]) && r[i].id < n && r[i].id in ms && ms[r[i].id] == r[i]
    ensures forall i, j :: 0 <= i < j < |r| ==> r[i].id < r[j].id
  {
    if n == 0 then []
    else
      var init := Select(ms, n - 1, keep);
      if n - 1 in ms && keep(ms[n - 1]) then init + [ms[n - 1]] else init
  }

  /** Nothing that qualifies is left out of a selection. */
  lemma {:induction false} SelectComplete(ms: map<MonitorId, Monitor>, n: nat, keep: Monitor -> bool, id: MonitorId)
    requires WellKeyed(ms)
    requires id < n && id in ms && keep(ms[id])
    ensures ms[id] in Select(ms, n, keep)
  {
    if id < n - 1 {
      SelectComplete(ms, n - 1, keep, id);
    }
  }

  /** The `k` newest rows of monitor `id`, newest first: a descending scan
      of the monitor's part of the log that stops after `k` rows. */
  function Newest(log: seq<UptimeCheck>, id: MonitorId, k: nat): (r: seq<UptimeCheck>)
    ensures |r| == if k < |ChecksFor(log, id)| then k else |ChecksFor(log, id)|
    ensures forall i :: 0 <= i < |r| ==>
      r[i] == ChecksFor(log, id)[|ChecksFor(log, id)| - 1 - i]
  {
    if k == 0 || log == [] then []
    else
      var last := log[|log| - 1];
      if last.monitorId == id then [last] + Newest(log[..|log| - 1], id, k - 1)
      else Newest(log[..|log| - 1], id, k)
  }

  /** One entry of the `getUserMonitors` answer. */
  datatype MonitorView = MonitorView(monitor: Monitor, stats: MonitorStats, recentChecks: seq<UptimeCheck>)

  function Views(ms: seq<Monitor>, stats: map<MonitorId, MonitorStats>, log: seq<UptimeCheck>)
    : (r: seq<MonitorView>)
    ensures |r| == |ms|
    ensures forall i :: 0 <= i < |r| ==>
      && r[i].monitor == ms[i]
      && r[i].stats == Get(stats, ms[i].id).GetOr(DisplayDefaultStats)
      && r[i].recentChecks == Newest(log, ms[i].id, RecentCheckCount)
  {
    if ms == [] then []
    else
      [MonitorView(ms[0], Get(stats, ms[0].id).GetOr(DisplayDefaultStats), Newest(log, ms[0].id, RecentCheckCount))]
      + Views(ms[1..], stats, log)
  }

  class Database {
    var monitors: map<MonitorId, Monitor>
    var stats: map<MonitorId, MonitorStats>
    /** The uptimeChecks table, in insertion order; rows are only ever appended. */
    var checks: seq<UptimeCheck>
    /** Actions handed to the scheduler, oldest first. */
    var scheduled: seq<CheckJob>
    /** The id the next inserted monitor receives. */
    var nextId: MonitorId

    /** Every monitor has a stats row, and that row is what replaying the
        monitor's checks from the zeroed row gives; every stats row is
        consistent; ids are issued below `nextId`. */
    ghost predicate Valid()
      reads this
    {
      && WellKeyed(monitors)
      && (forall id :: id in monitors ==> id < nextId && id in stats)
      && (forall id {:trigger History(checks, id)} :: id in monitors ==> stats[id] == History(checks, id))
      && (forall id :: id in stats ==> id < nextId && Consistent(stats[id]))
      && (forall i :: 0 <= i < |checks| ==> checks[i].monitorId < nextId)
    }

    constructor ()
      ensures Valid()
      ensures monitors == map[] && stats == map[] && checks == [] && scheduled == [] && nextId == 0
    {
      monitors, stats, checks, scheduled, nextId := map[], map[], [], [], 0;
    }

    /** `getActiveMonitors`: exactly the active monitors, in creation order. */
    function ActiveMonitors(): (r: seq<Monitor>)
      reads this
      requires Valid()
      ensures forall i :: 0 <= i < |r| ==> r[i].isActive && r[i].id in monitors && monitors[r[i].id] == r[i]
      ensures forall i, j :: 0 <= i < j < |r| ==> r[i].id < r[j].id
    {
      Select(monitors, nextId, (m: Monitor) => m.isActive)
    }

    /** `getUserMonitors`: the caller's monitors in creation order, each with
        its stats row (or the placeholder) and its ten newest checks. */
    function UserMonitors(auth: Option<UserId>): (r: seq<MonitorView>)
      reads this
      requires Valid()
      ensures auth.None? ==> r == []
      ensures auth.Some? ==>
        forall i :: 0 <= i < |r| ==> r[i].monitor.userId == auth.value && r[i].monitor.id in monitors
                                     && monitors[r[i].monitor.id] == r[i].monitor
    {
      if auth.None? then []
      else Views(Select(monitors, nextId, (m: Monitor) => m.userId == auth.value), stats, checks)
    }

    /** The ownership test shared by delete, toggle and instant check. */
    function Owned(auth: Option<UserId>, id: MonitorId): (r: Result<Monitor, Error>)
      reads this
      ensures r.Ok? <==> auth.Some? && id in monitors && monitors[id].userId == auth.value
      ensures r.Ok? ==> r.value == monitors[id]
      ensures r.Err? ==> r.error == if auth.None? then MustBeLoggedIn else NotFoundOrAccessDenied
    {
      if auth.None? then Err(MustBeLoggedIn)
      else if id !in monitors || monitors[id].userId != auth.value then Err(NotFoundOrAccessDenied)
      else Ok(monitors[id])
    }

    /** `addMonitor`: a new active monitor with a zeroed stats row. */
    method AddMonitor(auth: Option<UserId>, name: string, url: string, checkInterval: Option<int>,
                      urlParses: bool, now: int) returns (r: Result<MonitorId, Error>)
      requires Valid()
      modifies this
      ensures Valid()
      ensures auth.None? ==> r == Err(MustBeLoggedInToAdd)
      ensures auth.Some? && !urlParses ==> r == Err(InvalidUrlFormat)
      ensures r.Err? ==> unchanged(this)
      ensures auth.Some? && urlParses ==>
        && r == Ok(old(nextId))
        && r.value !in old(monitors) && r.value !in old(stats)
        && nextId == old(nextId) + 1
        && monitors == old(monitors)[r.value := Monitor(r.value, name, url, auth.value, true,
                                                        IntervalOrDefault(checkInterval), now)]
        && stats == old(stats)[r.value := ZeroStats]
        && checks == old(checks) && scheduled == old(scheduled)
    {
      if auth.None? {
        return Err(MustBeLoggedInToAdd);
      }
      if !urlParses {
        return Err(InvalidUrlFormat);
      }
      var id := nextId;
      HistoryOfUnseen(checks, id);
      monitors := monitors[id := Monitor(id, name, url, auth.value, true, IntervalOrDefault(checkInterval), now)];
      stats := stats[id := ZeroStats];
      nextId := nextId + 1;
      r := Ok(id);
    }

    /** `deleteMonitor`: the monitor and its stats row go, its checks stay. */
    method DeleteMonitor(auth: Option<UserId>, id: MonitorId) returns (r: Result<bool, Error>)
      requires Valid()
      modifies this
      ensures Valid()
      ensures r.Ok? <==> auth.Some? && id in old(monitors) && old(monitors)[id].userId == auth.value
      ensures r.Err? ==> unchanged(this) && r.error == old(Owned(auth, id)).error
      ensures r.Ok? ==>
        && r.value
        && monitors == old(monitors) - {id} && stats == old(stats) - {id}
        && checks == old(checks) && scheduled == old(scheduled) && nextId == old(nextId)
    {
      var owner := Owned(auth, id);
      if owner.Err? {
        return Err(owner.error);
      }
      monitors := monitors - {id};
      stats := stats - {id};
      r := Ok(true);
    }

    /** `toggleMonitor`: negates the active flag and nothing else. */
    method ToggleMonitor(auth: Option<UserId>, id: MonitorId) returns (r: Result<bool, Error>)
      requires Valid()
      modifies this
      ensures Valid()
      ensures r.Ok? <==> auth.Some? && id in old(monitors) && old(monitors)[id].userId == auth.value
      ensures r.Err? ==> unchanged(this) && r.error == old(Owned(auth, id)).error
      ensures r.Ok? ==>
        && r.value == !old(monitors)[id].isActive
        && monitors == old(monitors)[id := old(monitors)[id].(isActive := r.value)]
        && stats == old(stats) && checks == old(checks) && scheduled == old(scheduled)
        && nextId == old(nextId)
    {
      var owner := Owned(auth, id);
      if owner.Err? {
        return Err(owner.error);
      }
      var m := owner.value;
      monitors := monitors[id := m.(isActive := !m.isActive)];
      r := Ok(!m.isActive);
    }

    /** `recordUptimeCheck`: appends one check row stamped `now`, then
        upserts the monitor's stats row with it. `monitorId` is an id the
        monitors table has issued, possibly of a monitor deleted since. */
    method RecordUptimeCheck(monitorId: MonitorId, report: CheckReport, now: int)
      requires Valid()
      requires monitorId < nextId
      modifies this
      ensures Valid()
      ensures checks == old(checks) + [CheckRow(monitorId, report, now)]
      ensures stats == old(stats)[monitorId := Advance(Get(old(stats), monitorId), CheckRow(monitorId, report, now))]
      ensures monitors == old(monitors) && scheduled == old(scheduled) && nextId == old(nextId)
    {
      var row := CheckRow(monitorId, report, now);
      forall id ensures History(checks + [row], id)
                     == if row.monitorId == id then UpdateStats(History(checks, id), row) else History(checks, id)
      {
        HistoryAppend(checks, row, id);
      }
      if monitorId in stats {
        UpdateKeepsConsistent(stats[monitorId], row);
      }
      checks := checks + [row];
      stats := stats[monitorId := Advance(Get(stats, monitorId), row)];
    }

    /** `triggerInstantCheck`: schedules one probe of an owned, active
        monitor; rejects without scheduling anything otherwise. */
    method TriggerInstantCheck(auth: Option<UserId>, id: MonitorId) returns (r: Result<bool, Error>)
      requires Valid()
      modifies this
      ensures Valid()
      ensures r.Ok? <==>
        auth.Some? && id in old(monitors) && old(monitors)[id].userId == auth.value && old(monitors)[id].isActive
      ensures r.Err? ==> unchanged(this)
      ensures r.Err? && old(Owned(auth, id)).Err? ==> r.error == old(Owned(auth, id)).error
      ensures r.Err? && old(Owned(auth, id)).Ok? ==> r.error == CannotCheckPausedMonitor
      ensures r.Ok? ==>
        && r.value
        && scheduled == old(scheduled) + [CheckJob(id, old(monitors)[id].url, old(monitors)[id].name)]
        && monitors == old(monitors) && stats == old(stats) && checks == old(checks)
        && nextId == old(nextId)
    {
      var owner := Owned(auth, id);
      if owner.Err? {
        return Err(owner.error);
      }
      var m := owner.value;
      if !m.isActive {
        return Err(CannotCheckPausedMonitor);
      }
      scheduled := scheduled + [CheckJob(m.id, m.url, m.name)];
      r := Ok(true);
    }
  }

  /** On a valid database the dashboard never falls back to the placeholder:
      each monitor shows the snapshot its own check history determines, and
      its recent checks are its newest rows, newest first. */
  lemma UserMonitorsShowHistory(db: Database, u: UserId)
    requires db.Valid()
    ensures forall v :: v in db.UserMonitors(Some(u)) ==>
      && v.stats == History(db.checks, v.monitor.id)
      && |v.recentChecks| <= RecentCheckCount
      && (forall j :: 0 <= j < |v.recentChecks| ==> v.recentChecks[j].monitorId == v.monitor.id)
  {
    var owned := Select(db.monitors, db.nextId, (m: Monitor) => m.userId == u);
    var r := Views(owned, db.stats, db.checks);
    assert db.UserMonitors(Some(u)) == r;
    forall v | v in r
      ensures v.stats == History(db.checks, v.monitor.id)
      ensures forall j :: 0 <= j < |v.recentChecks| ==> v.recentChecks[j].monitorId == v.monitor.id
    {
      var i :| 0 <= i < |r| && r[i] == v;
      assert owned[i].id in db.monitors;
      NewestBelongs(db.checks, owned[i].id, RecentCheckCount);
    }
  }

  /** The recent checks shown for a monitor are all its own. */
  lemma NewestBelongs(log: seq<UptimeCheck>, id: MonitorId, k: nat)
    ensures forall j :: 0 <= j < |Newest(log, id, k)| ==> Newest(log, id, k)[j].monitorId == id
  {
    var cf := ChecksFor(log, id);
    var r := Newest(log, id, k);
    forall j | 0 <= j < |r| ensures r[j].monitorId == id {
      assert r[j] == cf[|cf| - 1 - j];
    }
  }

  /** `getActiveMonitors` leaves no active monitor out. */
  lemma ActiveMonitorsComplete(db: Database, id: MonitorId)
    requires db.Valid()
    requires id in db.monitors && db.monitors[id].isActive
    ensures db.monitors[id] in db.ActiveMonitors()
  {
    SelectComplete(db.monitors, db.nextId, (m: Monitor) => m.isActive, id);
  }

  /** `getUserMonitors` shows every monitor the caller owns. */
  lemma UserMonitorsComplete(db: Database, u: UserId, id: MonitorId)
    requires db.Valid()
    requires id in db.monitors && db.monitors[id].userId == u
    ensures exists i :: 0 <= i < |db.UserMonitors(Some(u))| && db.UserMonitors(Some(u))[i].monitor == db.monitors[id]
  {
    var owned := Select(db.monitors, db.nextId, (m: Monitor) => m.userId == u);
    SelectComplete(db.monitors, db.nextId, (m: Monitor) => m.userId == u, id);
    var r := Views(owned, db.stats, db.checks);
    assert db.UserMonitors(Some(u)) == r;
    assert r[IndexOf(owned, db.monitors[id])].monitor == db.monitors[id];
  }

  function IndexOf(s: seq<Monitor>, m: Monitor): (i: nat)
    requires m in s
    ensures i < |s| && s[i] == m
  {
    if s[0] == m then 0 else 1 + IndexOf(s[1..], m)
  }
}
