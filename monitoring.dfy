/** One probe of one monitor (classification of the fetch outcome, recording,
    best-effort forwarding to a Graphite collector) and the round that probes
    every active monitor. */
module Monitoring {
  import opened Wrappers
  import opened Schema
  import opened Stats
  import opened Text
  import opened Monitors

  /** What the `fetch` call did: it answered with an HTTP status, or it threw.
      A thrown `Error` carries its message; any other thrown value none. */
  datatype FetchOutcome = Responded(status: int) | Threw(message: Option<string>)

  /** Everything a probe learns from the outside world: the fetch outcome and
      the clock readings at dispatch, at completion or failure, inside the
      recording mutation, and when forwarding to Graphite. */
  datatype Probe = Probe(
    outcome: FetchOutcome,
    startedAt: int,
    finishedAt: int,
    recordedAt: int,
    forwardedAt: int)

  /** `response.ok`: the status is in the range 200-299. */
  predicate IsOkStatus(status: int)
  {
    200 <= status <= 299
  }

  const UnknownError := "Unknown error"

  /** The arguments `performUptimeCheck` passes to `recordUptimeCheck`. */
  function Classify(outcome: FetchOutcome, responseTime: int): (r: CheckReport)
    ensures r.status == UP <==> outcome.Responded? && IsOkStatus(outcome.status)
    ensures r.status != ERROR
    ensures r.responseTime == Some(responseTime)
    ensures outcome.Responded? ==> r.statusCode == Some(outcome.status) && r.errorMessage == None
    ensures outcome.Threw? ==>
      r.status == DOWN && r.statusCode == None
      && r.errorMessage == Some(outcome.message.GetOr(UnknownError))
  {
    match outcome
    case Responded(status) =>
      CheckReport(if IsOkStatus(status) then UP else DOWN, Some(responseTime), Some(status), None)
    case Threw(message) =>
      CheckReport(DOWN, Some(responseTime), None, Some(message.GetOr(UnknownError)))
  }

  // ---- Graphite plaintext protocol ----

  /** The characters the Graphite sanitiser keeps: `[A-Za-z0-9_-]`. */
  predicate GraphiteSafe(c: char)
  {
    ('a' <= c <= 'z') || ('A' <= c <= 'Z') || ('0' <= c <= '9') || c == '_' || c == '-'
  }

  /** `name.replace(/[^a-zA-Z0-9_-]/g, '_')`: every character outside the
      safe set becomes an underscore. */
  function GraphiteSanitize(name: string): (r: string)
    ensures |r| == |name|
    ensures forall i :: 0 <= i < |r| ==> GraphiteSafe(r[i])
    ensures forall i :: 0 <= i < |r| ==> r[i] == if GraphiteSafe(name[i]) then name[i] else '_'
  {
    if name == [] then []
    else [if GraphiteSafe(name[0]) then name[0] else '_'] + GraphiteSanitize(name[1..])
  }

  /** Sanitising twice is sanitising once. */
  lemma GraphiteSanitizeIdempotent(name: string)
    ensures GraphiteSanitize(GraphiteSanitize(name)) == GraphiteSanitize(name)
  {
    var once := GraphiteSanitize(name);
    var twice := GraphiteSanitize(once);
    assert forall i :: 0 <= i < |once| ==> twice[i] == once[i];
  }

  /** One entry of the metrics record handed to the forwarder. */
  datatype Metric = Metric(key: string, value: int)

  /** The metrics record of one probe, in its insertion order. */
  function ProbeMetrics(outcome: FetchOutcome, responseTime: int): (r: seq<Metric>)
    ensures |r| == 3
    ensures r[0] == Metric("status", if outcome.Responded? && IsOkStatus(outcome.status) then 1 else 0)
    ensures r[1] == Metric("responseTime", responseTime)
    ensures outcome.Responded? ==> r[2] == Metric("statusCode", outcome.status)
    ensures outcome.Threw? ==> r[2] == Metric("error", 1)
  {
    match outcome
    case Responded(status) =>
      [Metric("status", if IsOkStatus(status) then 1 else 0),
       Metric("responseTime", responseTime),
       Metric("statusCode", status)]
    case Threw(_) =>
      [Metric("status", 0), Metric("responseTime", responseTime), Metric("error", 1)]
  }

  /** `Math.floor(now / 1000)`: whole seconds of a millisecond clock. */
  function UnixSeconds(nowMillis: int): (ts: int)
    ensures ts * 1000 <= nowMillis < ts * 1000 + 1000
  {
    nowMillis / 1000
  }

  /** `uptime.<name>.<key> <value> <timestamp>`. */
  function MetricLine(sanitizedName: string, m: Metric, timestamp: int): string
  {
    "uptime." + sanitizedName + "." + m.key + " " + IntToString(m.value) + " " + IntToString(timestamp)
  }

  function MetricLines(sanitizedName: string, metrics: seq<Metric>, timestamp: int): (r: seq<string>)
    ensures |r| == |metrics|
    ensures forall i :: 0 <= i < |r| ==> r[i] == MetricLine(sanitizedName, metrics[i], timestamp)
  {
    if metrics == [] then []
    else [MetricLine(sanitizedName, metrics[0], timestamp)] + MetricLines(sanitizedName, metrics[1..], timestamp)
  }

  /** The POST body: the lines joined by newlines, plus a final newline. */
  function GraphiteBody(name: string, metrics: seq<Metric>, nowMillis: int): string
  {
    Join(MetricLines(GraphiteSanitize(name), metrics, UnixSeconds(nowMillis)), '\n') + "\n"
  }

  /** A character that cannot be confused with the line's separators. */
  predicate PlainChar(c: char)
  {
    c != '.' && c != ' ' && c != '\n'
  }

  /** A metric key, name or number free of the line's separators. */
  predicate PlainKey(key: string)
  {
    forall i :: 0 <= i < |key| ==> PlainChar(key[i])
  }

  lemma ProbeMetricKeysPlain(outcome: FetchOutcome, responseTime: int)
    ensures forall i :: 0 <= i < |ProbeMetrics(outcome, responseTime)| ==>
      PlainKey(ProbeMetrics(outcome, responseTime)[i].key)
  {
    assert PlainKey("status") && PlainKey("responseTime") && PlainKey("statusCode") && PlainKey("error");
  }

  lemma NumberIsPlain(n: int)
    ensures PlainKey(IntToString(n))
  {
  }

  lemma SanitizedIsPlain(name: string)
    ensures PlainKey(GraphiteSanitize(name))
  {
  }

  /** A metric line reads back as its three fields, its path as the
      namespace, the sanitised name and the key, and its numbers as the
      metric value and the timestamp. */
  lemma MetricLineFields(sanitizedName: string, m: Metric, timestamp: int)
    requires PlainKey(sanitizedName) && PlainKey(m.key)
    ensures var path := "uptime." + sanitizedName + "." + m.key;
      && Split(MetricLine(sanitizedName, m, timestamp), ' ')
         == [path, IntToString(m.value), IntToString(timestamp)]
      && Split(path, '.') == ["uptime", sanitizedName, m.key]
      && ParseInt(IntToString(m.value)) == m.value
      && ParseInt(IntToString(timestamp)) == timestamp
  {
    var path := "uptime." + sanitizedName + "." + m.key;
    var v, t := IntToString(m.value), IntToString(timestamp);
    assert PlainKey("uptime");
    JoinThree("uptime", sanitizedName, m.key, '.');
    assert path == Join(["uptime", sanitizedName, m.key], '.');
    SplitJoin(["uptime", sanitizedName, m.key], '.');
    assert ' ' !in path by {
      assert ' ' !in "uptime." && ' ' !in ".";
      assert ' ' !in sanitizedName && ' ' !in m.key;
    }
    JoinThree(path, v, t, ' ');
    assert MetricLine(sanitizedName, m, timestamp) == Join([path, v, t], ' ');
    SplitJoin([path, v, t], ' ');
    ParseIntToString(m.value);
    ParseIntToString(timestamp);
  }

  lemma JoinThree(a: string, b: string, c: string, sep: char)
    ensures Join([a, b, c], sep) == a + [sep] + b + [sep] + c
  {
    assert [a, b, c][1..] == [b, c];
    assert [b, c][1..] == [c];
    assert Join([c], sep) == c;
    assert Join([b, c], sep) == b + [sep] + c;
  }

  /** No metric line holds a newline. */
  lemma MetricLinePlain(sanitizedName: string, m: Metric, timestamp: int)
    requires PlainKey(sanitizedName) && PlainKey(m.key)
    ensures '\n' !in MetricLine(sanitizedName, m, timestamp)
  {
    assert '\n' !in "uptime." && '\n' !in "." && '\n' !in " ";
    assert '\n' !in sanitizedName && '\n' !in m.key;
    NumberIsPlain(m.value);
    NumberIsPlain(timestamp);
    assert '\n' !in IntToString(m.value) && '\n' !in IntToString(timestamp);
  }

  /** The POST body splits on newlines into exactly one line per metric, in
      insertion order, followed by the empty piece after the final newline. */
  lemma GraphiteBodyLines(name: string, metrics: seq<Metric>, nowMillis: int)
    requires |metrics| >= 1
    requires forall i :: 0 <= i < |metrics| ==> PlainKey(metrics[i].key)
    ensures Split(GraphiteBody(name, metrics, nowMillis), '\n')
         == MetricLines(GraphiteSanitize(name), metrics, UnixSeconds(nowMillis)) + [""]
  {
    var s := GraphiteSanitize(name);
    var lines := MetricLines(s, metrics, UnixSeconds(nowMillis));
    forall i | 0 <= i < |lines| ensures '\n' !in lines[i] {
      MetricLinePlain(s, metrics[i], UnixSeconds(nowMillis));
    }
    JoinThenSeparator(lines, '\n');
    SplitTerminated(lines, '\n');
  }

  /** The collector's address, from GRAPHITE_HOST and GRAPHITE_PORT. */
  datatype GraphiteConfig = GraphiteConfig(host: Option<string>, port: Option<string>)

  /** The POST request the forwarder sends: its url, Content-Type header
      and body. */
  datatype GraphitePost = GraphitePost(url: string, contentType: string, body: string)

  const GraphiteContentType := "text/plain"

  const DefaultGraphitePort := "2003"

  /** `sendMetricsToGraphite`: no request at all when no host is configured
      (unset or empty); otherwise one POST of the formatted body to
      `http://<host>:<port>`, the port defaulting to 2003. Whatever the
      collector answers, or if it cannot be reached, nothing is thrown. */
  function SendMetricsToGraphite(config: GraphiteConfig, name: string, metrics: seq<Metric>, nowMillis: int)
    : Option<GraphitePost>
  {
    if config.host.None? || config.host.value == "" then None
    else
      var port := if config.port.None? || config.port.value == "" then DefaultGraphitePort else config.port.value;
      Some(GraphitePost("http://" + config.host.value + ":" + port, GraphiteContentType, GraphiteBody(name, metrics, nowMillis)))
  }

  /** Forwarding is a no-op exactly when no host is configured; otherwise the
      one request goes to the configured host, on the configured port or
      2003, and carries the formatted metric lines. */
  lemma GraphiteForwarding(config: GraphiteConfig, name: string, metrics: seq<Metric>, nowMillis: int)
    ensures var r := SendMetricsToGraphite(config, name, metrics, nowMillis);
      && (r.None? <==> config.host.None? || config.host.value == "")
      && (r.Some? ==> r.value.body == GraphiteBody(name, metrics, nowMillis))
      && (r.Some? ==> r.value.contentType == "text/plain")
      && (r.Some? ==>
            r.value.url == "http://" + config.host.value + ":"
                           + (if config.port.None? || config.port.value == "" then DefaultGraphitePort else config.port.value))
  {
  }

  /** What a probe forwards reads back as its metrics: the body splits into
      one line per metric and the final empty piece, and every line into
      `uptime.<sanitised name>.<key>`, the metric value and the timestamp in
      seconds. */
  lemma ProbeBodyReadsBack(name: string, outcome: FetchOutcome, responseTime: int, nowMillis: int)
    ensures var ms := ProbeMetrics(outcome, responseTime);
      var lines := Split(GraphiteBody(name, ms, nowMillis), '\n');
      && |lines| == 4 && lines[3] == ""
      && forall i :: 0 <= i < 3 ==>
           && Split(lines[i], ' ') == ["uptime." + GraphiteSanitize(name) + "." + ms[i].key,
                                       IntToString(ms[i].value), IntToString(UnixSeconds(nowMillis))]
           && Split("uptime." + GraphiteSanitize(name) + "." + ms[i].key, '.')
              == ["uptime", GraphiteSanitize(name), ms[i].key]
  {
    var ms := ProbeMetrics(outcome, responseTime);
    var s, ts := GraphiteSanitize(name), UnixSeconds(nowMillis);
    ProbeMetricKeysPlain(outcome, responseTime);
    SanitizedIsPlain(name);
    GraphiteBodyLines(name, ms, nowMillis);
    forall i | 0 <= i < 3
      ensures Split(MetricLine(s, ms[i], ts), ' ') == ["uptime." + s + "." + ms[i].key, IntToString(ms[i].value), IntToString(ts)]
      ensures Split("uptime." + s + "." + ms[i].key, '.') == ["uptime", s, ms[i].key]
    {
      MetricLineFields(s, ms[i], ts);
    }
  }

  // ---- one probe and one round ----

  /** The uptimeChecks row a probe records. */
  function ProbeRow(job: CheckJob, probe: Probe): UptimeCheck
  {
    CheckRow(job.monitorId, Classify(probe.outcome, probe.finishedAt - probe.startedAt), probe.recordedAt)
  }

  /** The Graphite request a probe issues, if any. */
  function ProbePost(job: CheckJob, probe: Probe, config: GraphiteConfig): Option<GraphitePost>
  {
    SendMetricsToGraphite(config, job.name,
      ProbeMetrics(probe.outcome, probe.finishedAt - probe.startedAt), probe.forwardedAt)
  }

  /** `performUptimeCheck`: records the classified outcome (check row and
      stats upsert) and then forwards its metrics. The database after the
      call does not depend on the Graphite configuration. */
  method PerformUptimeCheck(db: Database, job: CheckJob, probe: Probe, config: GraphiteConfig)
    returns (post: Option<GraphitePost>)
    requires db.Valid()
    requires job.monitorId < db.nextId
    modifies db
    ensures db.Valid()
    ensures db.checks == old(db.checks) + [ProbeRow(job, probe)]
    ensures db.stats == old(db.stats)[job.monitorId := Advance(Get(old(db.stats), job.monitorId), ProbeRow(job, probe))]
    ensures db.monitors == old(db.monitors) && db.scheduled == old(db.scheduled) && db.nextId == old(db.nextId)
    ensures post == ProbePost(job, probe, config)
  {
    var responseTime := probe.finishedAt - probe.startedAt;
    var report := Classify(probe.outcome, responseTime);
    db.RecordUptimeCheck(job.monitorId, report, probe.recordedAt);
    post := SendMetricsToGraphite(config, job.name, ProbeMetrics(probe.outcome, responseTime), probe.forwardedAt);
  }

  function JobFor(m: Monitor): CheckJob
  {
    CheckJob(m.id, m.url, m.name)
  }

  /** The rows a round over `ms` records: one per monitor, each determined
      by that monitor's own probe alone. */
  function RoundRows(ms: seq<Monitor>, probes: MonitorId -> Probe): (r: seq<UptimeCheck>)
    ensures |r| == |ms|
    ensures forall i :: 0 <= i < |r| ==>
      r[i] == ProbeRow(JobFor(ms[i]), probes(ms[i].id)) && r[i].monitorId == ms[i].id
  {
    if ms == [] then []
    else RoundRows(ms[..|ms| - 1], probes) + [ProbeRow(JobFor(ms[|ms| - 1]), probes(ms[|ms| - 1].id))]
  }

  /** `xs.map(f)`. */
  function MapSeq<A, B>(xs: seq<A>, f: A -> B): (r: seq<B>)
    ensures |r| == |xs|
    ensures forall i :: 0 <= i < |xs| ==> r[i] == f(xs[i])
  {
    if xs == [] then [] else MapSeq(xs[..|xs| - 1], f) + [f(xs[|xs| - 1])]
  }

  /** The Graphite requests a round over `ms` issues: one per monitor in
      order, each determined by that monitor's own probe alone. */
  function RoundPosts(ms: seq<Monitor>, probes: MonitorId -> Probe, config: GraphiteConfig)
    : (r: seq<Option<GraphitePost>>)
    ensures |r| == |ms|
    ensures forall i :: 0 <= i < |ms| ==> r[i] == ProbePost(JobFor(ms[i]), probes(ms[i].id), config)
  {
    MapSeq(ms, (m: Monitor) => ProbePost(JobFor(m), probes(m.id), config))
  }

  lemma RoundAppend(ms: seq<Monitor>, m: Monitor, probes: MonitorId -> Probe, config: GraphiteConfig)
    ensures RoundRows(ms + [m], probes) == RoundRows(ms, probes) + [ProbeRow(JobFor(m), probes(m.id))]
    ensures RoundPosts(ms + [m], probes, config) == RoundPosts(ms, probes, config) + [ProbePost(JobFor(m), probes(m.id), config)]
  {
    assert (ms + [m])[..|ms|] == ms;
  }

  lemma PrefixGrows<T>(s: seq<T>, i: nat)
    requires i < |s|
    ensures s[..i + 1] == s[..i] + [s[i]]
  {
  }

  lemma AppendAssociates<T>(a: seq<T>, b: seq<T>, x: T)
    ensures (a + b) + [x] == a + (b + [x])
  {
  }

  /** In a round over monitors with distinct ids, each monitor's stats row is
      its old row advanced by its own check, whatever the other probes did. */
  lemma RoundIsolation(table: map<MonitorId, MonitorStats>, ms: seq<Monitor>, probes: MonitorId -> Probe)
    requires forall i, j :: 0 <= i < j < |ms| ==> ms[i].id != ms[j].id
    ensures forall i :: 0 <= i < |ms| ==>
      AdvanceAll(table, RoundRows(ms, probes))[ms[i].id]
      == Advance(Get(table, ms[i].id), ProbeRow(JobFor(ms[i]), probes(ms[i].id)))
  {
    var rows := RoundRows(ms, probes);
    assert DistinctMonitors(rows);
    forall i | 0 <= i < |ms|
      ensures AdvanceAll(table, rows)[ms[i].id]
           == Advance(Get(table, ms[i].id), ProbeRow(JobFor(ms[i]), probes(ms[i].id)))
    {
      AdvanceAllPointwise(table, rows, i);
    }
  }

  /** `checkAllMonitors`: probes every active monitor once, in the order
      `getActiveMonitors` returns them; one check row per active monitor is
      appended, and each stats row advances by that monitor's check alone. */
  method CheckAllMonitors(db: Database, probes: MonitorId -> Probe, config: GraphiteConfig)
    returns (posts: seq<Option<GraphitePost>>)
    requires db.Valid()
    modifies db
    ensures db.Valid()
    ensures db.checks == old(db.checks) + RoundRows(old(db.ActiveMonitors()), probes)
    ensures db.stats == AdvanceAll(old(db.stats), RoundRows(old(db.ActiveMonitors()), probes))
    ensures forall i :: 0 <= i < |old(db.ActiveMonitors())| ==>
      var m := old(db.ActiveMonitors())[i];
      db.stats[m.id] == Advance(Get(old(db.stats), m.id), ProbeRow(JobFor(m), probes(m.id)))
    ensures db.monitors == old(db.monitors) && db.scheduled == old(db.scheduled) && db.nextId == old(db.nextId)
    ensures posts == RoundPosts(old(db.ActiveMonitors()), probes, config)
  {
    var active := db.ActiveMonitors();
    posts := CheckEach(db, active, probes, config);
    RoundIsolation(old(db.stats), active, probes);
  }

  method CheckEach(db: Database, active: seq<Monitor>, probes: MonitorId -> Probe, config: GraphiteConfig)
    returns (posts: seq<Option<GraphitePost>>)
    requires db.Valid()
    requires forall k :: 0 <= k < |active| ==> active[k].id < db.nextId
    modifies db
    ensures db.Valid()
    ensures db.checks == old(db.checks) + RoundRows(active, probes)
    ensures db.stats == AdvanceAll(old(db.stats), RoundRows(active, probes))
    ensures db.monitors == old(db.monitors) && db.scheduled == old(db.scheduled) && db.nextId == old(db.nextId)
    ensures posts == RoundPosts(active, probes, config)
  {
    ghost var table := db.stats;
    ghost var log := db.checks;
    ghost var done: seq<Monitor> := [];
    posts := [];
    var i := 0;
    while i < |active|
      invariant 0 <= i <= |active| && done == active[..i]
      invariant db.Valid()
      invariant db.monitors == old(db.monitors) && db.scheduled == old(db.scheduled) && db.nextId == old(db.nextId)
      invariant db.checks == log + RoundRows(done, probes)
      invariant db.stats == AdvanceAll(table, RoundRows(done, probes))
      invariant posts == RoundPosts(done, probes, config)
    {
      var m := active[i];
      ghost var row := ProbeRow(JobFor(m), probes(m.id));
      RoundAppend(done, m, probes, config);
      AdvanceAllAppend(table, RoundRows(done, probes), row);
      AppendAssociates(log, RoundRows(done, probes), row);
      var post := PerformUptimeCheck(db, JobFor(m), probes(m.id), config);
      posts := posts + [post];
      PrefixGrows(active, i);
      done := done + [m];
      i := i + 1;
    }
    assert done == active;
  }


}
