/** The `/metrics` HTTP endpoint: a Prometheus text exposition with one
    gauge line per active monitor, or a plain 500 when the query fails. */
module Router {
  import opened Wrappers
  import opened Schema
  import opened Text
  import opened Monitors
  import opened Monitoring

  /** The characters the Prometheus label sanitiser keeps: `[A-Za-z0-9_]`. */
  predicate PromSafe(c: char)
  {
    ('a' <= c <= 'z') || ('A' <= c <= 'Z') || ('0' <= c <= '9') || c == '_'
  }

  /** `name.replace(/[^a-zA-Z0-9_]/g, '_')`: every other character, the dash
      included, becomes an underscore. */
  function PromSanitize(name: string): (r: string)
    ensures |r| == |name|
    ensures forall i :: 0 <= i < |r| ==> PromSafe(r[i])
    ensures forall i :: 0 <= i < |r| ==> r[i] == if PromSafe(name[i]) then name[i] else '_'
  {
    if name == [] then []
    else [if PromSafe(name[0]) then name[0] else '_'] + PromSanitize(name[1..])
  }

  /** The two sanitisers differ only on the dash, which Graphite keeps and
      Prometheus replaces; so Prometheus-sanitising a Graphite-sanitised name
      is Prometheus-sanitising the name itself. */
  lemma SanitizersDifferOnlyOnDash(name: string)
    ensures forall i :: 0 <= i < |name| ==>
      PromSanitize(name)[i] == (if name[i] == '-' then '_' else GraphiteSanitize(name)[i])
    ensures PromSanitize(GraphiteSanitize(name)) == PromSanitize(name)
  {
    var p, g := PromSanitize(name), GraphiteSanitize(name);
    forall i | 0 <= i < |name|
      ensures p[i] == (if name[i] == '-' then '_' else g[i])
      ensures PromSanitize(g)[i] == p[i]
    {
      assert PromSafe(name[i]) ==> GraphiteSafe(name[i]);
      assert GraphiteSafe(g[i]);
    }
  }

  const MetricName := "uptime_monitor_status"
  const HelpLine := "# HELP " + MetricName + " Monitor status" + " (1=UP, 0=DOWN)"
  const TypeLine := "# TYPE " + MetricName + " gauge"

  /** The two comment lines every exposition starts with. */
  const Header := HelpLine + "\n" + TypeLine + "\n"

  lemma HeaderLinesSingle()
    ensures '\n' !in HelpLine && '\n' !in TypeLine
  {
    assert '\n' !in "# HELP " && '\n' !in MetricName && '\n' !in " Monitor status" && '\n' !in " (1=UP, 0=DOWN)";
    assert '\n' !in "# TYPE " && '\n' !in " gauge";
  }

  /** The fixed pieces of a gauge line, around the sanitised name and the url. */
  const GaugeOpen := MetricName + "{name="
  const GaugeMiddle := ",url="
  const GaugeClose := "} 1"

  /** `uptime_monitor_status{name="<sanitised name>",url="<url>"} 1`; the
      url is embedded as it is, without escaping. */
  function GaugeLine(m: Monitor): string
  {
    GaugeOpen + "\"" + PromSanitize(m.name) + "\"" + GaugeMiddle + "\"" + m.url + "\"" + GaugeClose
  }

  /** The gauge lines of `ms`, in order. */
  function GaugeLines(ms: seq<Monitor>): (r: seq<string>)
    ensures |r| == |ms|
    ensures forall i :: 0 <= i < |r| ==> r[i] == GaugeLine(ms[i])
  {
    if ms == [] then [] else GaugeLines(ms[..|ms| - 1]) + [GaugeLine(ms[|ms| - 1])]
  }

  /** The exposition of `ms`: the HELP line, the TYPE line and one gauge line
      per monitor, each ended by a newline. */
  function Exposition(ms: seq<Monitor>): string
  {
    Terminated([HelpLine, TypeLine] + GaugeLines(ms), '\n')
  }

  /** The body built line by line, as the endpoint does with `metrics +=`. */
  method BuildMetrics(monitors: seq<Monitor>) returns (metrics: string)
    ensures metrics == Exposition(monitors)
  {
    metrics := HelpLine + "\n";
    metrics := metrics + TypeLine + "\n";
    assert metrics == Terminated([HelpLine, TypeLine], '\n') by {
      TwoLines(HelpLine, TypeLine, [], '\n');
      assert [HelpLine, TypeLine] + [] == [HelpLine, TypeLine];
    }
    assert monitors[..0] == [] && GaugeLines(monitors[..0]) == [];
    assert [HelpLine, TypeLine] + GaugeLines(monitors[..0]) == [HelpLine, TypeLine];
    var i := 0;
    while i < |monitors|
      invariant 0 <= i <= |monitors|
      invariant metrics == Terminated([HelpLine, TypeLine] + GaugeLines(monitors[..i]), '\n')
    {
      var line := GaugeLine(monitors[i]);
      TerminatedAppend([HelpLine, TypeLine] + GaugeLines(monitors[..i]), line, '\n');
      assert monitors[..i + 1][..i] == monitors[..i];
      assert ([HelpLine, TypeLine] + GaugeLines(monitors[..i])) + [line]
          == [HelpLine, TypeLine] + GaugeLines(monitors[..i + 1]);
      metrics := metrics + line + "\n";
      i := i + 1;
    }
    assert monitors[..i] == monitors;
  }

  lemma TwoLines(a: string, b: string, rest: seq<string>, sep: char)
    ensures Terminated([a, b] + rest, sep) == a + [sep] + b + [sep] + Terminated(rest, sep)
  {
    var lines := [a, b] + rest;
    assert lines[1..] == [b] + rest;
    assert lines[1..][1..] == rest;
  }

  /** Every exposition begins with exactly the two header lines, and with no
      monitors they are the whole body. */
  lemma ExpositionStartsWithHeader(ms: seq<Monitor>)
    ensures Exposition(ms) == Header + Terminated(GaugeLines(ms), '\n')
    ensures |Header| <= |Exposition(ms)| && Exposition(ms)[..|Header|] == Header
    ensures ms == [] ==> Exposition(ms) == Header
  {
    TwoLines(HelpLine, TypeLine, GaugeLines(ms), '\n');
  }

  /** No newline can come from the fixed parts or the sanitised name of a
      gauge line, only from its url. */
  lemma GaugeLineSingle(m: Monitor)
    requires '\n' !in m.url
    ensures '\n' !in GaugeLine(m)
  {
    var s := PromSanitize(m.name);
    assert '\n' !in s by {
      forall i | 0 <= i < |s| ensures s[i] != '\n' {
        assert PromSafe(s[i]);
      }
    }
    assert '\n' !in GaugeOpen && '\n' !in GaugeMiddle && '\n' !in GaugeClose && '\n' !in "\"";
  }

  /** When no url holds a newline, the body reads back, line by line, as the
      HELP line, the TYPE line, then exactly one gauge line per monitor in
      the given order, and the empty piece after the final newline. */
  lemma ExpositionLines(ms: seq<Monitor>)
    requires forall i :: 0 <= i < |ms| ==> '\n' !in ms[i].url
    ensures Split(Exposition(ms), '\n') == [HelpLine, TypeLine] + GaugeLines(ms) + [""]
    ensures |Split(Exposition(ms), '\n')| == |ms| + 3
  {
    var lines := [HelpLine, TypeLine] + GaugeLines(ms);
    forall i | 0 <= i < |lines| ensures '\n' !in lines[i] {
      if i >= 2 {
        GaugeLineSingle(ms[i - 2]);
      } else {
        HeaderLinesSingle();
      }
    }
    SplitTerminated(lines, '\n');
  }

  /** When the url holds no quote, splitting a gauge line on quotes gives back
      the sanitised name and the url as its second and fourth fields. */
  lemma GaugeLineLabels(m: Monitor)
    requires '"' !in m.url
    ensures Split(GaugeLine(m), '"') == [GaugeOpen, PromSanitize(m.name), GaugeMiddle, m.url, GaugeClose]
  {
    var s := PromSanitize(m.name);
    var parts := [GaugeOpen, s, GaugeMiddle, m.url, GaugeClose];
    assert '"' !in s by {
      forall i | 0 <= i < |s| ensures s[i] != '"' {
        assert PromSafe(s[i]);
      }
    }
    assert '"' !in GaugeOpen && '"' !in GaugeMiddle && '"' !in GaugeClose;
    assert parts[1..] == [s, GaugeMiddle, m.url, GaugeClose];
    assert parts[1..][1..] == [GaugeMiddle, m.url, GaugeClose];
    assert parts[1..][1..][1..] == [m.url, GaugeClose];
    assert parts[1..][1..][1..][1..] == [GaugeClose];
    assert Join([GaugeClose], '"') == GaugeClose;
    assert Join([m.url, GaugeClose], '"') == m.url + "\"" + GaugeClose;
    assert Join(parts[2..], '"') == GaugeMiddle + "\"" + m.url + "\"" + GaugeClose;
    assert Join(parts, '"') == GaugeLine(m);
    SplitJoin(parts, '"');
  }

  /** An HTTP response: status, Content-Type header (if any) and body. */
  datatype Response = Response(status: int, contentType: Option<string>, body: string)

  const MetricsError := "Error generating metrics"

  /** The Content-Type a Fetch `Response` gets when its body is a string and
      no header names one. */
  const DefaultTextType := "text/plain;charset=UTF-8"

  /** `GET /metrics`: the exposition of the active monitors, in the order
      `getActiveMonitors` returns them, as `text/plain` with status 200; if
      the query fails, status 500 with a fixed string body, which the
      `Response` constructor labels with its default text type. */
  method ServeMetrics(db: Database, queryFails: bool) returns (r: Response)
    requires db.Valid()
    ensures queryFails ==> r == Response(500, Some(DefaultTextType), MetricsError)
    ensures !queryFails ==> r == Response(200, Some("text/plain"), Exposition(db.ActiveMonitors()))
  {
    if queryFails {
      return Response(500, Some(DefaultTextType), MetricsError);
    }
    var monitors := db.ActiveMonitors();
    var metrics := BuildMetrics(monitors);
    r := Response(200, Some("text/plain"), metrics);
  }

  /** A successful scrape of a consistent database has, between the header
      and the final empty piece, exactly the gauge lines of the active
      monitors in `getActiveMonitors` order, and every active monitor's line
      is among them. */
  lemma ScrapeCoversActiveMonitors(db: Database)
    requires db.Valid()
    requires forall id :: id in db.monitors ==> '\n' !in db.monitors[id].url
    ensures var ms := db.ActiveMonitors();
      var lines := Split(Exposition(ms), '\n');
      && |lines| == |ms| + 3
      && lines[2..|ms| + 2] == GaugeLines(ms)
      && (forall id :: id in db.monitors && db.monitors[id].isActive ==> GaugeLine(db.monitors[id]) in GaugeLines(ms))
  {
    var ms := db.ActiveMonitors();
    forall i | 0 <= i < |ms| ensures '\n' !in ms[i].url {
      assert ms[i].id in db.monitors;
    }
    ExpositionLines(ms);
    assert ([HelpLine, TypeLine] + GaugeLines(ms) + [""])[2..|ms| + 2] == GaugeLines(ms);
    forall id | id in db.monitors && db.monitors[id].isActive
      ensures GaugeLine(db.monitors[id]) in GaugeLines(ms)
    {
      ActiveMonitorsComplete(db, id);
      var i :| 0 <= i < |ms| && ms[i] == db.monitors[id];
      assert GaugeLines(ms)[i] == GaugeLine(db.monitors[id]);
    }
  }
}
