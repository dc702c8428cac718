/** The stats arithmetic of `recordUptimeCheck`: the snapshot created for a
    monitor's first check, the read-modify-write applied to an existing
    snapshot, and the replay of a check history from the zeroed row. */
module Stats {
  import opened Wrappers
  import opened Schema

  /** What one check adds to `successfulChecks`: only UP counts; DOWN and
      ERROR are both failures. */
  function SuccessCount(status: Status): nat
  {
    if status == UP then 1 else 0
  }

  /** `successful / total * 100`, and 0 for a monitor never checked. */
  function Percentage(successful: nat, total: nat): real
  {
    if total == 0 then 0.0 else (successful as real / total as real) * 100.0
  }

  /** The row `addMonitor` inserts beside a new monitor. */
  const ZeroStats := MonitorStats(0.0, 0.0, 0, 0, DOWN, 0, None)

  /** The counters agree with each other and with the stored percentage. */
  ghost predicate Consistent(s: MonitorStats)
  {
    && s.successfulChecks <= s.totalChecks
    && s.uptimePercentage == Percentage(s.successfulChecks, s.totalChecks)
  }

  /** The create branch: the snapshot written when no stats row exists. */
  function InitialStats(c: UptimeCheck): (s: MonitorStats)
    ensures s.totalChecks == 1 && s.successfulChecks == SuccessCount(c.status)
    ensures s.uptimePercentage == (if c.status == UP then 100.0 else 0.0)
    ensures Consistent(s)
    ensures s.avgResponseTime == (if c.responseTime.Some? then c.responseTime.value as real else 0.0)
    ensures s.lastStatus == c.status && s.lastCheckTime == c.timestamp
    ensures s.lastResponseTime == c.responseTime
  {
    MonitorStats(
      if c.status == UP then 100.0 else 0.0,
      c.responseTime.GetOr(0) as real,
      1,
      SuccessCount(c.status),
      c.status,
      c.timestamp,
      c.responseTime)
  }

  /** The update branch: the existing snapshot advanced by one check. */
  function UpdateStats(prev: MonitorStats, c: UptimeCheck): (s: MonitorStats)
    ensures s.totalChecks == prev.totalChecks + 1
    ensures s.successfulChecks == prev.successfulChecks + SuccessCount(c.status)
    ensures s.uptimePercentage == Percentage(s.successfulChecks, s.totalChecks)
    ensures c.responseTime.None? ==> s.avgResponseTime == prev.avgResponseTime
    ensures s.lastStatus == c.status && s.lastCheckTime == c.timestamp
    ensures s.lastResponseTime == c.responseTime
  {
    var total := prev.totalChecks + 1;
    var successful := prev.successfulChecks + SuccessCount(c.status);
    MonitorStats(
      (successful as real / total as real) * 100.0,
      if c.responseTime.Some?
      then (prev.avgResponseTime * prev.totalChecks as real + c.responseTime.value as real) / total as real
      else prev.avgResponseTime,
      total,
      successful,
      c.status,
      c.timestamp,
      c.responseTime)
  }

  /** The update branch keeps `successfulChecks <= totalChecks` and the
      percentage in step with the counters. */
  lemma UpdateKeepsConsistent(prev: MonitorStats, c: UptimeCheck)
    requires Consistent(prev)
    ensures Consistent(UpdateStats(prev, c))
  {
  }

  /** `avg * total`: the sum of the response times the average stands for. */
  function WeightedSum(s: MonitorStats): real
  {
    s.avgResponseTime * s.totalChecks as real
  }

  /** With a response time, the weighted sum grows by exactly that response
      time. */
  lemma UpdateWeightedSum(prev: MonitorStats, c: UptimeCheck)
    requires c.responseTime.Some?
    ensures WeightedSum(UpdateStats(prev, c)) == WeightedSum(prev) + c.responseTime.value as real
  {
    var total := (prev.totalChecks + 1) as real;
    var sum := WeightedSum(prev) + c.responseTime.value as real;
    assert UpdateStats(prev, c).avgResponseTime == sum / total;
  }

  /** The upsert: update the existing row, or create one. */
  function Advance(prev: Option<MonitorStats>, c: UptimeCheck): (s: MonitorStats)
    ensures prev.None? ==> s.totalChecks == 1
    ensures prev.Some? ==> s.totalChecks == prev.value.totalChecks + 1
    ensures s.lastStatus == c.status && s.lastCheckTime == c.timestamp
    ensures s.lastResponseTime == c.responseTime
    ensures s == UpdateStats(prev.GetOr(ZeroStats), c)
    ensures (prev.Some? ==> Consistent(prev.value)) ==> Consistent(s)
  {
    match prev
    case None => InitialStats(c)
    case Some(p) => UpdateStats(p, c)
  }

  /** Both branches agree: creating a row gives what updating the zeroed row
      `addMonitor` inserts would give. */
  lemma InitialIsUpdateOfZero(c: UptimeCheck)
    ensures InitialStats(c) == UpdateStats(ZeroStats, c)
  {
  }

  // ---- replaying a history ----

  /** The rows of `log` that belong to monitor `id`, in log order. */
  function ChecksFor(log: seq<UptimeCheck>, id: MonitorId): (r: seq<UptimeCheck>)
    ensures |r| <= |log|
    ensures forall i :: 0 <= i < |r| ==> r[i].monitorId == id
    ensures forall c :: c in r <==> c in log && c.monitorId == id
  {
    if log == [] then []
    else
      var init := ChecksFor(log[..|log| - 1], id);
      var last := log[|log| - 1];
      assert log == log[..|log| - 1] + [last];
      if last.monitorId == id then init + [last] else init
  }

  /** Selecting a monitor's rows distributes over concatenation of logs, so
      the selected rows keep their log order. */
  lemma {:induction false} ChecksForConcat(a: seq<UptimeCheck>, b: seq<UptimeCheck>, id: MonitorId)
    ensures ChecksFor(a + b, id) == ChecksFor(a, id) + ChecksFor(b, id)
  {
    if b == [] {
      assert a + b == a;
    } else {
      var init := b[..|b| - 1];
      assert (a + b)[..|a + b| - 1] == a + init;
      ChecksForConcat(a, init, id);
    }
  }

  /** The rows of a single-row log: the row itself if it is the monitor's,
      otherwise nothing. */
  lemma ChecksForSingle(c: UptimeCheck, id: MonitorId)
    ensures ChecksFor([c], id) == if c.monitorId == id then [c] else []
  {
    assert [c][..0] == [];
  }

  /** The snapshot reached by feeding `rows` to the update branch, in order. */
  function Replay(s: MonitorStats, rows: seq<UptimeCheck>): MonitorStats
  {
    if rows == [] then s else UpdateStats(Replay(s, rows[..|rows| - 1]), rows[|rows| - 1])
  }

  /** The snapshot a monitor's log determines: its rows replayed from the
      zeroed row. */
  function History(log: seq<UptimeCheck>, id: MonitorId): MonitorStats
  {
    Replay(ZeroStats, ChecksFor(log, id))
  }

  function CountUp(rows: seq<UptimeCheck>): nat
  {
    if rows == [] then 0 else CountUp(rows[..|rows| - 1]) + SuccessCount(rows[|rows| - 1].status)
  }

  ghost predicate AllTimed(rows: seq<UptimeCheck>)
  {
    forall i :: 0 <= i < |rows| ==> rows[i].responseTime.Some?
  }

  function SumResponseTimes(rows: seq<UptimeCheck>): real
    requires AllTimed(rows)
  {
    if rows == [] then 0.0
    else SumResponseTimes(rows[..|rows| - 1]) + rows[|rows| - 1].responseTime.value as real
  }

  lemma HistoryAppend(log: seq<UptimeCheck>, c: UptimeCheck, id: MonitorId)
    ensures History(log + [c], id)
         == if c.monitorId == id then UpdateStats(History(log, id), c) else History(log, id)
  {
    assert (log + [c])[..|log|] == log;
    var rows := ChecksFor(log + [c], id);
    if c.monitorId == id {
      assert rows[..|rows| - 1] == ChecksFor(log, id);
    }
  }

  /** A monitor with no rows in the log has the zeroed snapshot. */
  lemma {:induction false} HistoryOfUnseen(log: seq<UptimeCheck>, id: MonitorId)
    requires forall i :: 0 <= i < |log| ==> log[i].monitorId != id
    ensures ChecksFor(log, id) == []
    ensures History(log, id) == ZeroStats
  {
    if log != [] {
      HistoryOfUnseen(log[..|log| - 1], id);
    }
  }

  /** Replaying counts every row and the UP rows, and keeps the counters
      consistent. */
  lemma {:induction false} ReplayCounts(s: MonitorStats, rows: seq<UptimeCheck>)
    requires Consistent(s)
    ensures Replay(s, rows).totalChecks == s.totalChecks + |rows|
    ensures Replay(s, rows).successfulChecks == s.successfulChecks + CountUp(rows)
    ensures Consistent(Replay(s, rows))
  {
    if rows != [] {
      ReplayCounts(s, rows[..|rows| - 1]);
      UpdateKeepsConsistent(Replay(s, rows[..|rows| - 1]), rows[|rows| - 1]);
    }
  }

  /** When every row carries a response time, the weighted sum grows by
      exactly the sum of those response times. */
  lemma {:induction false} ReplayWeightedSum(s: MonitorStats, rows: seq<UptimeCheck>)
    requires AllTimed(rows)
    ensures WeightedSum(Replay(s, rows)) == WeightedSum(s) + SumResponseTimes(rows)
  {
    if rows != [] {
      var init, last := rows[..|rows| - 1], rows[|rows| - 1];
      ReplayWeightedSum(s, init);
      UpdateWeightedSum(Replay(s, init), last);
    }
  }

  /** The stats row of a monitor, as its log determines it: the total is the
      number of its checks, the successes are its UP checks, the percentage
      is their ratio, and the last-* fields are those of its newest check. */
  lemma HistoryCounts(log: seq<UptimeCheck>, id: MonitorId)
    ensures History(log, id).totalChecks == |ChecksFor(log, id)|
    ensures History(log, id).successfulChecks == CountUp(ChecksFor(log, id))
    ensures History(log, id).successfulChecks <= History(log, id).totalChecks
    ensures History(log, id).uptimePercentage
         == Percentage(CountUp(ChecksFor(log, id)), |ChecksFor(log, id)|)
    ensures ChecksFor(log, id) != [] ==>
      var newest := ChecksFor(log, id)[|ChecksFor(log, id)| - 1];
      History(log, id).lastStatus == newest.status
      && History(log, id).lastCheckTime == newest.timestamp
      && History(log, id).lastResponseTime == newest.responseTime
  {
    ReplayCounts(ZeroStats, ChecksFor(log, id));
  }

  /** From the zeroed row, if every check carries a response time, the stored
      average is the arithmetic mean of all of them. */
  lemma HistoryMean(log: seq<UptimeCheck>, id: MonitorId)
    requires ChecksFor(log, id) != []
    requires AllTimed(ChecksFor(log, id))
    ensures History(log, id).avgResponseTime
         == SumResponseTimes(ChecksFor(log, id)) / |ChecksFor(log, id)| as real
  {
    ReplayMean(ChecksFor(log, id));
  }

  lemma ReplayMean(rows: seq<UptimeCheck>)
    requires rows != [] && AllTimed(rows)
    ensures Replay(ZeroStats, rows).avgResponseTime == SumResponseTimes(rows) / |rows| as real
  {
    var h := Replay(ZeroStats, rows);
    ReplayCounts(ZeroStats, rows);
    ReplayWeightedSum(ZeroStats, rows);
    var x, n, sum := h.avgResponseTime, h.totalChecks as real, SumResponseTimes(rows);
    assert x * n == sum;
    assert n == |rows| as real;
    QuotientOfProduct(x, n, sum);
  }

  lemma QuotientOfProduct(x: real, n: real, p: real)
    requires n > 0.0 && x * n == p
    ensures x == p / n
  {
  }

  // ---- the division policy, pinned down on small histories ----

  /** Nine UP checks averaging 100ms, then an UP check of 50ms: ten checks,
      all successful, mean 95ms. */
  lemma NinetyFiveExample(c: UptimeCheck)
    requires c.status == UP && c.responseTime == Some(50)
    ensures var s := UpdateStats(MonitorStats(100.0, 100.0, 9, 9, UP, 0, Some(100)), c);
      s.totalChecks == 10 && s.successfulChecks == 10
      && s.uptimePercentage == 100.0 && s.avgResponseTime == 95.0
  {
  }

  /** A DOWN check without a response time leaves the average where it was
      while the percentage drops: 2 of 5 is 40%. */
  lemma UntimedDownExample(c: UptimeCheck)
    requires c.status == DOWN && c.responseTime == None
    ensures var s := UpdateStats(MonitorStats(50.0, 200.0, 4, 2, UP, 0, Some(200)), c);
      s.totalChecks == 5 && s.successfulChecks == 2
      && s.uptimePercentage == 40.0 && s.avgResponseTime == 200.0
  {
  }

  /** The average divides by all checks, timed or not: an untimed check
      followed by one of 100ms leaves an average of 50ms, not 100ms. */
  lemma UntimedCheckDilutesLaterAverage(a: UptimeCheck, b: UptimeCheck)
    requires a.responseTime == None && b.responseTime == Some(100)
    ensures UpdateStats(UpdateStats(ZeroStats, a), b).avgResponseTime == 50.0
  {
  }

  // ---- a round of checks over distinct monitors ----

  /** The stats table after upserting every row of `rows` in turn. */
  function AdvanceAll(table: map<MonitorId, MonitorStats>, rows: seq<UptimeCheck>)
    : (r: map<MonitorId, MonitorStats>)
    ensures r.Keys == table.Keys + set i | 0 <= i < |rows| :: rows[i].monitorId
  {
    if rows == [] then table
    else
      var t := AdvanceAll(table, rows[..|rows| - 1]);
      var last := rows[|rows| - 1];
      t[last.monitorId := Advance(Get(t, last.monitorId), last)]
  }

  lemma AdvanceAllAppend(table: map<MonitorId, MonitorStats>, rows: seq<UptimeCheck>, row: UptimeCheck)
    ensures AdvanceAll(table, rows + [row])
         == AdvanceAll(table, rows)[row.monitorId := Advance(Get(AdvanceAll(table, rows), row.monitorId), row)]
  {
    assert (rows + [row])[..|rows|] == rows;
  }

  ghost predicate DistinctMonitors(rows: seq<UptimeCheck>)
  {
    forall i, j :: 0 <= i < j < |rows| ==> rows[i].monitorId != rows[j].monitorId
  }

  /** Upserting rows of other monitors leaves a monitor's row as it was,
      present or absent. */
  lemma {:induction false} AdvanceAllUntouched(table: map<MonitorId, MonitorStats>, rows: seq<UptimeCheck>, k: MonitorId)
    requires forall i :: 0 <= i < |rows| ==> rows[i].monitorId != k
    ensures Get(AdvanceAll(table, rows), k) == Get(table, k)
  {
    if rows != [] {
      AdvanceAllUntouched(table, rows[..|rows| - 1], k);
    }
  }

  /** When the rows of a round are for distinct monitors, each monitor's new
      row is its old one advanced by its own check alone. */
  lemma {:induction false} AdvanceAllPointwise(table: map<MonitorId, MonitorStats>, rows: seq<UptimeCheck>, i: nat)
    requires DistinctMonitors(rows) && i < |rows|
    ensures AdvanceAll(table, rows)[rows[i].monitorId] == Advance(Get(table, rows[i].monitorId), rows[i])
  {
    var init := rows[..|rows| - 1];
    if i == |rows| - 1 {
      AdvanceAllUntouched(table, init, rows[i].monitorId);
    } else {
      assert init[i] == rows[i];
      AdvanceAllPointwise(table, init, i);
    }
  }
}
