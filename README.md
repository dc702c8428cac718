# Uptime monitor core, modelled in Dafny

This project models the core of a small uptime monitor built on Convex. Users
register HTTP monitors. A cron round probes every active monitor once. Each
probe is classified as UP or DOWN and recorded as a row of the append-only
`uptimeChecks` table. The monitor's `monitorStats` row is updated
incrementally: counters, uptime percentage and a running average of response
times. Each probe's three metrics can also be forwarded to a Graphite
collector, and a `/metrics` endpoint lists the active monitors in the
Prometheus text format.

Files, one module each:

- `wrappers.dfy` — `Option` (a field that may be `undefined`) and `Result`
  (a mutation that may throw).
- `schema.dfy` — the rows of the three tables, the arguments of
  `recordUptimeCheck`, and a scheduled probe.
- `stats.dfy` — the stats arithmetic of `recordUptimeCheck`: the create branch
  and the update branch. It also defines the replay of a monitor's whole
  check history from the zeroed row, and the upserts of one round.
- `text.dfy` — `join`/`split` on a separator and decimal rendering of
  integers, used to read the produced text back.
- `monitors.dfy` — class `Database`, which holds the tables as fields and
  has the mutations as methods: `addMonitor`, `deleteMonitor`,
  `toggleMonitor`, `recordUptimeCheck` and `triggerInstantCheck`. The queries
  `getActiveMonitors` and `getUserMonitors` are functions of that state.
- `monitoring.ts` is modelled in `monitoring.dfy`:
  - outcome classification;
  - `performUptimeCheck`;
  - the Graphite sanitiser, line formatter and no-op guard;
  - `checkAllMonitors` as a loop over the active monitors.
- `router.dfy` — the `/metrics` builder as a loop that appends one line at a
  time, plus its Prometheus sanitiser and its 500 fallback.

The database invariant `Database.Valid` ties the two tables together. Every
existing monitor has a stats row. That row is exactly what replaying the
monitor's rows of `uptimeChecks` through the update branch gives, starting
from the zeroed row that `addMonitor` inserts (`Stats.History`). Every stats
row keeps `successfulChecks <= totalChecks` and stores the matching
percentage. All mutations preserve this invariant.

From outside the program:

- The clock (`Date.now()`) is a parameter.
- Authentication (`getAuthUserId`) is an `Option<UserId>`.
- Whether `new URL(url)` accepts the url is a boolean parameter (`urlParses`).
- The outcome of `fetch` is a `FetchOutcome`.
- The Graphite environment variables are a `GraphiteConfig`.

The Graphite request is returned as a value rather than sent.

A check without a response time leaves the average unchanged
(`convex/monitors.ts:191-194`). The next timed check multiplies the average
by a total that counts the untimed check, so the untimed check weighs in at
the current average. From the zeroed row, an untimed check followed by a
100 ms check gives an average of 50 rather than 100
(`Stats.UntimedCheckDilutesLaterAverage`).

## Model

| member | source | states |
|---|---|---|
| Stats.InitialStats | convex/monitors.ts:205-216 | The first stats row has one check, one success iff UP, 100% or 0%, an average equal to the response time or 0, and the last-* fields of this check. It is consistent. |
| Stats.UpdateStats | convex/monitors.ts:185-204 | The update adds one to the total, adds one success iff UP, and stores successes/total*100. An untimed check leaves the average unchanged. The last-* fields become those of this check. |
| Stats.UpdateKeepsConsistent | convex/monitors.ts:186-188 | An update keeps `successfulChecks <= totalChecks` and the stored percentage in step with the counters. |
| Stats.UpdateWeightedSum | convex/monitors.ts:191-194 | After a timed check, `avg * total` grows by exactly that response time. |
| Stats.Advance | convex/monitors.ts:180-217 | The upsert: with no row the new total is 1; with a row it is the old total plus 1. Either way the last-* fields are those of the check. Both branches give the update of the existing row, or of the zeroed row when there is none, so successes, percentage and average follow the update branch. A consistent row, or none, leads to a consistent row. |
| Stats.InitialIsUpdateOfZero | convex/monitors.ts:205-216 | The create branch gives the same row as the update branch applied to the zeroed row that `addMonitor` inserts. |
| Stats.ChecksFor | convex/monitors.ts:28-32 | A monitor's part of the check log has only that monitor's rows, no more rows than the log, and every row of the log that belongs to the monitor. |
| Stats.ChecksForConcat | convex/monitors.ts:28-32 | Selecting a monitor's rows from two logs in sequence is selecting from each and concatenating, so the rows keep their log order. |
| Stats.ChecksForSingle | convex/monitors.ts:28-32 | A one-row log yields that row exactly when it belongs to the monitor. |
| Stats.HistoryAppend | convex/monitors.ts:170-177 | Appending one check row changes only its own monitor's history, by exactly one update. |
| Stats.HistoryOfUnseen | convex/monitors.ts:86-94 | A monitor without checks has the zeroed row. |
| Stats.ReplayCounts | convex/monitors.ts:186-188 | Replaying rows adds their number to the total and their UP rows to the successes, and keeps the row consistent. |
| Stats.ReplayWeightedSum | convex/monitors.ts:191-194 | When every replayed row is timed, `avg * total` grows by the sum of their response times. |
| Stats.HistoryCounts | convex/monitors.ts:185-204 | In a monitor's stats row, the total is its number of checks and the successes are its UP checks. The percentage is their ratio. The last-* fields are those of its newest check. |
| Stats.HistoryMean | convex/monitors.ts:191-194 | When all of a monitor's checks are timed, the stored average is their arithmetic mean. |
| Stats.NinetyFiveExample | convex/monitors.ts:186-194 | Nine UP checks averaging 100ms, then an UP check of 50ms, give 10 checks at 100% with an average of 95ms. |
| Stats.UntimedDownExample | convex/monitors.ts:186-194 | An untimed DOWN check after 2 successes out of 4 gives 40% and leaves the average unchanged. |
| Stats.UntimedCheckDilutesLaterAverage | convex/monitors.ts:191-194 | An untimed check followed by a 100ms check leaves an average of 50, not 100. |
| Stats.AdvanceAllPointwise | convex/monitors.ts:180-217 | After upserting rows of distinct monitors, each monitor's row is its old row advanced by its own check alone. |
| Stats.AdvanceAllUntouched | convex/monitors.ts:180-217 | Upserting rows of other monitors leaves a monitor's stats row as it was, present or absent. |
| Monitors.IntervalOrDefault | convex/monitors.ts:81 | A missing or zero interval becomes 60. Any other interval is kept. |
| Monitors.Select | convex/monitors.ts:254-257 | An index query returns stored monitors that satisfy the filter, in strictly increasing id (creation) order. |
| Monitors.SelectComplete | convex/monitors.ts:254-257 | No stored monitor that satisfies the filter is left out of the query's answer. |
| Monitors.Newest | convex/monitors.ts:28-34 | The recent checks are min(10, n) of the monitor's rows, newest first. |
| Monitors.Views | convex/monitors.ts:21-50 | There is one entry per monitor, in order. Each carries the monitor's stats row, or the placeholder when it has none, and its newest checks. |
| Monitors.Database.ActiveMonitors | convex/monitors.ts:251-259 | `getActiveMonitors` returns only stored, active monitors, in creation order. |
| Monitors.Database.UserMonitors | convex/monitors.ts:7-54 | Without a login the answer is empty. Otherwise it holds only the caller's own stored monitors. |
| Monitors.Database.Owned | convex/monitors.ts:106-114 | The ownership test succeeds iff the caller is logged in and owns the monitor. Otherwise it fails with "Must be logged in" or "Monitor not found or access denied". |
| Monitors.Database.AddMonitor | convex/monitors.ts:57-98 | Without a login, or with a url that does not parse, the call is rejected and nothing changes. Otherwise it inserts a fresh active monitor under a new id, using the default interval, and a zeroed stats row. The invariant is kept. |
| Monitors.Database.DeleteMonitor | convex/monitors.ts:101-131 | The call succeeds iff the caller owns the monitor. The monitor and its stats row are removed and its checks are kept. On an error nothing changes. |
| Monitors.Database.ToggleMonitor | convex/monitors.ts:134-155 | The call succeeds iff the caller owns the monitor. It negates only `isActive` and returns the new value. On an error nothing changes. |
| Monitors.Database.RecordUptimeCheck | convex/monitors.ts:158-219 | One row stamped `now` is appended, and the monitor's stats row is upserted with it. The invariant is kept. |
| Monitors.Database.TriggerInstantCheck | convex/monitors.ts:222-250 | The call succeeds iff the caller owns an active monitor. Then exactly one probe job is queued. A paused monitor gives "Cannot check paused monitor". On an error nothing changes. |
| Monitors.UserMonitorsShowHistory | convex/monitors.ts:20-47 | On a valid database, every dashboard entry shows the stats its own check history determines, never the placeholder. It shows at most 10 recent checks, all of them its own. |
| Monitors.NewestBelongs | convex/monitors.ts:28-34 | The recent checks shown for a monitor are all its own. |
| Monitors.ActiveMonitorsComplete | convex/monitors.ts:251-259 | Every stored active monitor is in `getActiveMonitors`. |
| Monitors.UserMonitorsComplete | convex/monitors.ts:15-18 | Every monitor the caller owns appears on the dashboard. |
| Monitoring.Classify | convex/monitoring.ts:29-57 | The status is UP iff the fetch answered with a 2xx status, and is never ERROR. An answer records its status code. A throw records DOWN with the error's message or "Unknown error". The response time is always recorded. |
| Monitoring.GraphiteSanitize | convex/monitoring.ts:105 | The Graphite name keeps its length, holds only `[A-Za-z0-9_-]`, keeps every such character in place, and turns every other character into `_`. |
| Monitoring.GraphiteSanitizeIdempotent | convex/monitoring.ts:105 | Sanitising twice is sanitising once. |
| Monitoring.ProbeMetrics | convex/monitoring.ts:40-64 | The metrics are status (1 iff 2xx), responseTime, then statusCode on an answer or error=1 on a throw, in that order. |
| Monitoring.ProbeMetricKeysPlain | convex/monitoring.ts:40-64 | No metric key holds a dot, space or newline. |
| Monitoring.UnixSeconds | convex/monitoring.ts:104 | The timestamp is the floor of milliseconds / 1000. |
| Monitoring.MetricLines | convex/monitoring.ts:107-109 | There is one `uptime.<name>.<key> <value> <timestamp>` line per metric, in insertion order. |
| Monitoring.MetricLineFields | convex/monitoring.ts:108 | A metric line splits on spaces into path, value and timestamp, and its path splits on dots into `uptime`, name and key. Both numbers parse back to their values. |
| Monitoring.MetricLinePlain | convex/monitoring.ts:108 | A metric line whose sanitised name and key hold no dot, space or newline holds no newline; every probe's lines meet this through `Monitoring.SanitizedIsPlain` and `Monitoring.ProbeMetricKeysPlain`. |
| Monitoring.GraphiteBodyLines | convex/monitoring.ts:107-117 | The request body splits on newlines into exactly the metric lines, plus the empty piece after the final newline. |
| Monitoring.ProbeBodyReadsBack | convex/monitoring.ts:104-110 | The body a probe forwards splits into three metric lines and the final empty piece. Each line reads back as `uptime.<sanitised name>.<key>`, the metric's value and the timestamp in seconds, and its path splits into those three parts. |
| Monitoring.GraphiteForwarding | convex/monitoring.ts:94-118 | No request is sent iff the host is unset or empty. Otherwise one POST goes to `http://host:port`, with port 2003 by default, labelled `text/plain` and carrying the formatted body. |
| Monitoring.PerformUptimeCheck | convex/monitoring.ts:14-68 | One probe appends its classified row, upserts its monitor's stats, and issues the Graphite request for its metrics. The invariant is kept. |
| Monitoring.RoundRows | convex/monitoring.ts:80-86 | A round records one row per monitor, each built from that monitor's own probe. |
| Monitoring.RoundPosts | convex/monitoring.ts:80-86 | A round issues one Graphite request per monitor, each built from that monitor's own probe. |
| Monitoring.RoundIsolation | convex/monitoring.ts:80-88 | In a round over monitors with distinct ids, each stats row advances by its own monitor's check, whatever the other probes did. |
| Monitoring.CheckEach | convex/monitoring.ts:80-88 | Probing a list of monitors appends their rows in order and upserts the stats with them. It yields their requests and keeps the invariant. |
| Monitoring.CheckAllMonitors | convex/monitoring.ts:72-91 | A round probes every active monitor once, in `getActiveMonitors` order. Each active monitor's stats row advances by its own check alone. Monitors and the job queue are unchanged. |
| Router.PromSanitize | convex/router.ts:37 | The Prometheus name keeps its length, holds only `[A-Za-z0-9_]`, keeps every such character in place, and turns every other character, the dash included, into `_`. |
| Router.SanitizersDifferOnlyOnDash | convex/router.ts:37 | The two sanitisers differ only on '-'. Sanitising for Prometheus after sanitising for Graphite is the same as sanitising for Prometheus directly. |
| Router.GaugeLines | convex/router.ts:36-40 | There is one gauge line per monitor, in order. |
| Router.BuildMetrics | convex/router.ts:33-40 | The body built by `metrics +=` is the HELP line, the TYPE line and then one gauge line per monitor, each ending in a newline. |
| Router.ExpositionStartsWithHeader | convex/router.ts:33-34 | The body starts with exactly the two header lines. With no active monitors they are the whole body. |
| Router.HeaderLinesSingle | convex/router.ts:33-34 | The header lines hold no newline of their own. |
| Router.GaugeLineSingle | convex/router.ts:39 | A gauge line holds a newline only if its url does. |
| Router.ExpositionLines | convex/router.ts:33-40 | When no url holds a newline, the body splits into the two header lines, one gauge line per monitor in order, and the final empty piece. |
| Router.GaugeLineLabels | convex/router.ts:37-39 | When the url holds no quote, a gauge line splits on quotes into its fixed parts, the sanitised name and the url. |
| Router.ServeMetrics | convex/router.ts:29-50 | A failing query gives status 500 with the string body "Error generating metrics", which the `Response` constructor labels `text/plain;charset=UTF-8`. Otherwise the answer is status 200, `text/plain`, with the exposition of the active monitors. |
| Router.ScrapeCoversActiveMonitors | convex/router.ts:31-40 | On a valid database whose stored urls hold no newline, the scrape has exactly the gauge lines of the active monitors between the header and the end, and each active monitor's line is among them. |
| Text.IntToString | convex/monitoring.ts:108 | `${value}` renders an integer as an optional minus sign and decimal digits without leading zeros, the minus sign exactly for a negative number. |
| Text.ParseIntToString | convex/monitoring.ts:108 | The decimal rendering of an integer parses back to that integer. |

## Left out

- Network I/O: `fetch`, its 30-second timeout and the Graphite POST are not executed. A probe's outcome and clock readings are inputs, and the POST is returned as a value.
- Whatever the Graphite collector answers, including a failure to reach it, affects only logging. The model has no logging.
- Concurrency: `Promise.all`/`allSettled` run the probes in parallel. The round is modelled as a sequential loop in `getActiveMonitors` order. Overlapping rounds can race on a stats row's read-modify-write, and a sequential model cannot express that race.
- Floating point: the percentage and the average are exact reals, not IEEE doubles. Response times and timestamps are unbounded integers.
- `checkInterval || 60` also maps NaN to 60. NaN is not modelled.
- `Monitors.IntervalOrDefault`: `v.optional(v.number())` accepts fractional intervals; the model's interval is an integer.
- `Monitors.Newest`: recent checks are ordered by log position, not by the timestamp index. The two agree only while timestamps grow with insertion order, which the clock input does not enforce.
- `Monitors.Database.RecordUptimeCheck`: requires an id that has been issued, modelling the `v.id("monitors")` argument validator. It may belong to a monitor deleted since; the source then creates a fresh stats row, and so does the model.
- `Monitors.Database.AddMonitor`: `new URL(url)` is not modelled. Whether the url parses is the input `urlParses`.
- `Router.ExpositionLines` and `Router.ScrapeCoversActiveMonitors`: the line-by-line reading holds only for urls without a newline. The url is embedded without escaping, and a newline in it splits its gauge line. `addMonitor` does not exclude such urls: the URL parser drops tabs and newlines before parsing, so `new URL` accepts them, and the url is stored as given.
- `Monitoring.PerformUptimeCheck`: the try block at `convex/monitoring.ts:17-47` also wraps `recordUptimeCheck`. If that mutation fails, its writes roll back and the catch branch records a DOWN row for a probe that received a 2xx. Mutation failures are not modelled, so the model always records the classified outcome.
- Every probe records a response time (`Monitoring.Classify`), so the untimed path of the stats update is not reached from `performUptimeCheck`; the model keeps it because `recordUptimeCheck` accepts an optional response time.
- Storage failures inside a mutation, and the transactional rollback that would follow, are not modelled. The only failure modelled is the one `/metrics` reports as 500.
- The scheduler running a queued job: `triggerInstantCheck` only appends a job to `scheduled`. Running the job is `Monitoring.PerformUptimeCheck`.
- `performUptimeCheck` on a monitor paused or deleted after it was scheduled behaves like any other probe. The model does not check for that either.
- The `/health` and `/webhook/status-change` routes, the cron table, console logging and the React client are not part of this model.
- Strings are sequences of characters. JavaScript's UTF-16 code units are not modelled, so the sanitisers treat a surrogate pair as one character rather than two.
