/** The exporter that writes client metrics to Cloud Monitoring
    (google/cloud/bigtable/data/_metrics/handlers/gcp_exporter.py): data
    points are turned into time series, grouped by the project they are
    about, and written in batches of at most 200 per request. The
    conversion of a point's value is left out; a series carries the
    point's value as given. */
module MetricsExporter {
  import opened Wrappers
  import opened Sequences

  /** `MAX_BATCH_WRITE`. */
  const MaxBatchWrite: nat := 200

  const Prefix: string := "bigtable.googleapis.com/internal/client"

  /** An attribute value: a string, or some other value. */
  datatype Attr = StrAttr(s: string) | OtherAttr(n: int)

  type Attributes = map<string, Attr>

  datatype DataPoint = DataPoint(attributes: Attributes, value: int)

  datatype Metric = Metric(name: string, unit: string, points: seq<DataPoint>)

  /** `MetricsData`: resource metrics, each holding scope metrics, each
      holding metrics. */
  datatype MetricsData = MetricsData(resourceMetrics: seq<seq<seq<Metric>>>)

  /** The monitored resource's labels, in the order `project_id`,
      `instance`, `cluster`, `table`, `zone`; like the metric labels,
      they are protobuf string maps. */
  datatype Resource = Resource(projectId: string, instance: string, cluster: string, table: string, zone: string)

  datatype Series = Series(resource: Resource, metricType: string, labels: map<string, string>, unit: string, value: int)

  /** One point with the metric it belongs to. */
  datatype Entry = Entry(metric: Metric, point: DataPoint)

  /** The entries of one metric, in order. */
  function MetricEntries(m: Metric): (es: seq<Entry>)
    ensures |es| == |m.points|
    ensures forall k :: 0 <= k < |es| ==> es[k] == Entry(m, m.points[k])
  {
    seq(|m.points|, k requires 0 <= k < |m.points| => Entry(m, m.points[k]))
  }

  function EntriesOfMetrics(ms: seq<Metric>): seq<Entry> {
    if |ms| == 0 then [] else MetricEntries(ms[0]) + EntriesOfMetrics(ms[1..])
  }

  function EntriesOfScopes(scopes: seq<seq<Metric>>): seq<Entry> {
    if |scopes| == 0 then [] else EntriesOfMetrics(scopes[0]) + EntriesOfScopes(scopes[1..])
  }

  /** Every point of every metric, in the order the nested loops visit
      them. */
  function Entries(data: MetricsData): seq<Entry> {
    Flatten(seq(|data.resourceMetrics|, k requires 0 <= k < |data.resourceMetrics| => EntriesOfScopes(data.resourceMetrics[k])))
  }

  /** Does `s` start with `p`? */
  predicate StartsWith(s: string, p: string) {
    |p| <= |s| && s[..|p|] == p
  }

  /** The metric labels: the point's attributes without the `resource_`
      ones. */
  function MetricLabels(attrs: Attributes): (labels: Attributes)
    ensures forall k :: k in labels <==> k in attrs && !StartsWith(k, "resource_")
    ensures forall k :: k in labels ==> labels[k] == attrs[k]
  {
    map k | k in attrs && !StartsWith(k, "resource_") :: attrs[k]
  }


  /** Are all the values strings? */
  predicate AllStrings(attrs: Attributes) {
    forall k :: k in attrs ==> attrs[k].StrAttr?
  }

  /** The string values of attributes that hold only strings. */
  function Strings(attrs: Attributes): (m: map<string, string>)
    requires AllStrings(attrs)
    ensures forall k :: k in m <==> k in attrs
    ensures forall k :: k in m ==> attrs[k] == StrAttr(m[k])
  {
    map k | k in attrs :: attrs[k].s
  }

  const ResourceKeys: seq<string> := ["resource_instance", "resource_cluster", "resource_table", "resource_zone"]

  /** A string project and every other resource attribute present: the
      point gets past the skips and the `KeyError`s. */
  predicate HasResource(attrs: Attributes) {
    && "resource_project" in attrs && attrs["resource_project"].StrAttr?
    && forall k :: k in ResourceKeys ==> k in attrs
  }

  /** Every value that goes into a protobuf string map is a string. */
  predicate LabelsAreStrings(attrs: Attributes)
    requires HasResource(attrs)
  {
    && (forall k :: k in ResourceKeys ==> attrs[k].StrAttr?)
    && AllStrings(MetricLabels(attrs))
  }

  /** What one point becomes: skipped (no attributes, or a project that is
      not a string), a series for a project, a `KeyError` for a missing
      resource attribute, or a `TypeError` when a value that goes into a
      protobuf string map (a resource label, then a metric label) is not a
      string. Both errors escape `export`. */
  datatype Converted = Skipped | ForProject(project: string, series: Series) | KeyError(key: string) | TypeError(field: string)

  function Convert(e: Entry): (c: Converted)
    ensures c.Skipped? <==> (|e.point.attributes| == 0
      || ("resource_project" in e.point.attributes && !e.point.attributes["resource_project"].StrAttr?))
    ensures c.KeyError? ==> c.key !in e.point.attributes && (c.key == "resource_project" || c.key in ResourceKeys)
    ensures c.KeyError? <==> (|e.point.attributes| > 0
      && !("resource_project" in e.point.attributes && !e.point.attributes["resource_project"].StrAttr?)
      && !HasResource(e.point.attributes))
    ensures HasResource(e.point.attributes) && LabelsAreStrings(e.point.attributes) ==> c.ForProject?
    ensures c.TypeError? <==> HasResource(e.point.attributes) && !LabelsAreStrings(e.point.attributes)
    ensures c.ForProject? ==>
      && HasResource(e.point.attributes) && LabelsAreStrings(e.point.attributes)
      && ProjectSeries(e, c.project, c.series)
  {
    var attrs := e.point.attributes;
    if |attrs| == 0 then Skipped
    else if "resource_project" !in attrs then KeyError("resource_project")
    else if !attrs["resource_project"].StrAttr? then Skipped
    else if "resource_instance" !in attrs then KeyError("resource_instance")
    else if "resource_cluster" !in attrs then KeyError("resource_cluster")
    else if "resource_table" !in attrs then KeyError("resource_table")
    else if "resource_zone" !in attrs then KeyError("resource_zone")
    else if !(attrs["resource_instance"].StrAttr? && attrs["resource_cluster"].StrAttr?
              && attrs["resource_table"].StrAttr? && attrs["resource_zone"].StrAttr?) then
      TypeError("MonitoredResource.labels")
    else if !AllStrings(MetricLabels(attrs)) then TypeError("Metric.labels")
    else
      var project := attrs["resource_project"].s;
      var resource := Resource(project, attrs["resource_instance"].s, attrs["resource_cluster"].s, attrs["resource_table"].s, attrs["resource_zone"].s);
      ForProject(project, Series(resource, Prefix + "/" + e.metric.name, Strings(MetricLabels(attrs)), e.metric.unit, e.point.value))
  }

  /** `series` is the time series of point `e` for `project`: the resource
      labels and metric labels carry the point's string attributes, the
      type is the prefixed metric name, and the value is the point's. */
  ghost predicate ProjectSeries(e: Entry, project: string, series: Series)
    requires HasResource(e.point.attributes)
  {
    var attrs := e.point.attributes;
    && attrs["resource_project"] == StrAttr(project)
    && series.resource.projectId == project
    && attrs["resource_instance"] == StrAttr(series.resource.instance)
    && attrs["resource_cluster"] == StrAttr(series.resource.cluster)
    && attrs["resource_table"] == StrAttr(series.resource.table)
    && attrs["resource_zone"] == StrAttr(series.resource.zone)
    && (forall k :: k in series.labels <==> k in MetricLabels(attrs))
    && (forall k :: k in series.labels ==> attrs[k] == StrAttr(series.labels[k]))
    && series.metricType == Prefix + "/" + e.metric.name
    && series.value == e.point.value
  }

  /** The series of one project, in arrival order. */
  datatype Bucket = Bucket(project: string, series: seq<Series>)

  datatype Tagged = Tagged(project: string, series: Series)

  /** `all_series` as an insertion-ordered dictionary: its keys. */
  function Projects(buckets: seq<Bucket>): (ps: seq<string>)
    ensures |ps| == |buckets|
    ensures forall k :: 0 <= k < |ps| ==> ps[k] == buckets[k].project
  {
    seq(|buckets|, k requires 0 <= k < |buckets| => buckets[k].project)
  }

  /** Dictionary keys are distinct. */
  predicate DistinctProjects(buckets: seq<Bucket>) {
    forall i, j :: 0 <= i < j < |buckets| ==> buckets[i].project != buckets[j].project
  }

  /** `all_series.get(project_id)`: the position of the project's bucket,
      or -1. */
  function Find(buckets: seq<Bucket>, p: string): (i: int)
    ensures -1 <= i < |buckets|
    ensures i >= 0 ==> buckets[i].project == p
    ensures i < 0 <==> p !in Projects(buckets)
    decreases |buckets|
  {
    if |buckets| == 0 then -1
    else if buckets[|buckets| - 1].project == p then |buckets| - 1
    else
      assert Projects(buckets[..|buckets| - 1]) == Projects(buckets)[..|buckets| - 1];
      Find(buckets[..|buckets| - 1], p)
  }

  /** Appending a series to its project's bucket, or to a new bucket at the
      end. */
  function Insert(buckets: seq<Bucket>, t: Tagged): (r: seq<Bucket>)
    requires DistinctProjects(buckets)
    ensures DistinctProjects(r)
    ensures t.project in Projects(buckets) ==> |r| == |buckets|
    ensures t.project !in Projects(buckets) ==> r == buckets + [Bucket(t.project, [t.series])]
    ensures forall k :: 0 <= k < |buckets| ==> r[k].project == buckets[k].project
    ensures forall k :: 0 <= k < |buckets| ==>
      r[k].series == buckets[k].series + (if buckets[k].project == t.project then [t.series] else [])
  {
    var i := Find(buckets, t.project);
    if i >= 0 then buckets[i := buckets[i].(series := buckets[i].series + [t.series])]
    else buckets + [Bucket(t.project, [t.series])]
  }

  /** The grouping loop of `export`. */
  function Group(ts: seq<Tagged>): (buckets: seq<Bucket>)
    ensures DistinctProjects(buckets)
    decreases |ts|
  {
    if |ts| == 0 then [] else Insert(Group(ts[..|ts| - 1]), ts[|ts| - 1])
  }

  /** The series tagged with project `p`, in order. */
  function SeriesOf(ts: seq<Tagged>, p: string): seq<Series>
    decreases |ts|
  {
    if |ts| == 0 then []
    else SeriesOf(ts[..|ts| - 1], p) + (if ts[|ts| - 1].project == p then [ts[|ts| - 1].series] else [])
  }

  /** The projects in order of first arrival. */
  function FirstArrivals(ts: seq<Tagged>): seq<string>
    decreases |ts|
  {
    if |ts| == 0 then []
    else
      var earlier := FirstArrivals(ts[..|ts| - 1]);
      if ts[|ts| - 1].project in earlier then earlier else earlier + [ts[|ts| - 1].project]
  }

  /** The grouping: one bucket per project, in order of first arrival,
      holding exactly that project's series in arrival order. */
  lemma {:induction false} GroupSpec(ts: seq<Tagged>)
    ensures Projects(Group(ts)) == FirstArrivals(ts)
    ensures forall k :: 0 <= k < |Group(ts)| ==> Group(ts)[k].series == SeriesOf(ts, Group(ts)[k].project)
    ensures forall p :: p !in Projects(Group(ts)) ==> SeriesOf(ts, p) == []
    decreases |ts|
  {
    if |ts| > 0 {
      var init := ts[..|ts| - 1];
      GroupSpec(init);
      GroupProjects(ts, init, ts[|ts| - 1]);
      GroupSeries(ts, init, ts[|ts| - 1]);
      GroupAbsent(ts, init, ts[|ts| - 1]);
    }
  }

  /** `ts` is `init` followed by `t`. */
  predicate Snoc(ts: seq<Tagged>, init: seq<Tagged>, t: Tagged) {
    |ts| > 0 && init == ts[..|ts| - 1] && t == ts[|ts| - 1]
  }

  /** One more tagged series: the project list grows exactly as the
      first-arrival list does. */
  lemma GroupProjects(ts: seq<Tagged>, init: seq<Tagged>, t: Tagged)
    requires Snoc(ts, init, t) && Projects(Group(init)) == FirstArrivals(init)
    ensures Projects(Group(ts)) == FirstArrivals(ts)
  {
    var before := Group(init);
    assert Group(ts) == Insert(before, t);
    if t.project in Projects(before) {
      assert Projects(Group(ts)) == Projects(before);
    } else {
      assert Projects(Group(ts)) == Projects(before) + [t.project];
    }
  }

  /** One more tagged series: each bucket still holds its project's
      series. */
  lemma GroupSeries(ts: seq<Tagged>, init: seq<Tagged>, t: Tagged)
    requires Snoc(ts, init, t)
    requires forall k :: 0 <= k < |Group(init)| ==> Group(init)[k].series == SeriesOf(init, Group(init)[k].project)
    requires forall p :: p !in Projects(Group(init)) ==> SeriesOf(init, p) == []
    ensures forall k :: 0 <= k < |Group(ts)| ==> Group(ts)[k].series == SeriesOf(ts, Group(ts)[k].project)
  {
    var before := Group(init);
    var after := Group(ts);
    assert after == Insert(before, t);
    forall k | 0 <= k < |after| ensures after[k].series == SeriesOf(ts, after[k].project) {
      SeriesOfSnoc(ts, init, t, after[k].project);
      if k >= |before| {
        assert after[k].project == t.project && t.project !in Projects(before);
      }
    }
  }

  /** One more tagged series: a project without a bucket still has no
      series. */
  lemma GroupAbsent(ts: seq<Tagged>, init: seq<Tagged>, t: Tagged)
    requires Snoc(ts, init, t)
    requires forall p :: p !in Projects(Group(init)) ==> SeriesOf(init, p) == []
    ensures forall p :: p !in Projects(Group(ts)) ==> SeriesOf(ts, p) == []
  {
    var before := Group(init);
    assert Group(ts) == Insert(before, t);
    InsertKeepsProjects(before, t);
    forall p | p !in Projects(Group(ts)) ensures SeriesOf(ts, p) == [] {
      SeriesOfSnoc(ts, init, t, p);
    }
  }

  /** Inserting keeps every project and adds the inserted one. */
  lemma InsertKeepsProjects(buckets: seq<Bucket>, t: Tagged)
    requires DistinctProjects(buckets)
    ensures forall p :: p in Projects(buckets) ==> p in Projects(Insert(buckets, t))
    ensures t.project in Projects(Insert(buckets, t))
  {
    var r := Insert(buckets, t);
    forall p | p in Projects(buckets) ensures p in Projects(r) {
      var k :| 0 <= k < |buckets| && Projects(buckets)[k] == p;
      assert Projects(r)[k] == p;
    }
    if t.project !in Projects(buckets) {
      assert Projects(r)[|buckets|] == t.project;
    }
  }

  lemma SeriesOfSnoc(ts: seq<Tagged>, init: seq<Tagged>, t: Tagged, p: string)
    requires Snoc(ts, init, t)
    ensures SeriesOf(ts, p) == SeriesOf(init, p) + (if t.project == p then [t.series] else [])
  {
  }

  /** A write request for one batch. */
  datatype Request = Request(name: string, series: seq<Series>)

  /** The batches `_batch_write` sends: consecutive slices of 200. */
  function Chunks(series: seq<Series>): (cs: seq<seq<Series>>)
    decreases |series|
  {
    if |series| <= MaxBatchWrite then (if |series| == 0 then [] else [series])
    else [series[..MaxBatchWrite]] + Chunks(series[MaxBatchWrite..])
  }

  /** The batches are `ceil(n / 200)` non-empty slices of at most 200
      series that put back together give the series; no series, no
      batch. */
  lemma {:induction false} ChunksSpec(series: seq<Series>)
    ensures var cs := Chunks(series);
      |cs| == (|series| + MaxBatchWrite - 1) / MaxBatchWrite
      && Flatten(cs) == series
      && (forall k :: 0 <= k < |cs| ==> 0 < |cs[k]| <= MaxBatchWrite)
    decreases |series|
  {
    if |series| == 0 {
    } else if |series| <= MaxBatchWrite {
      assert Flatten([series]) == series + Flatten([]);
    } else {
      var rest := Chunks(series[MaxBatchWrite..]);
      ChunksSpec(series[MaxBatchWrite..]);
      var cs := [series[..MaxBatchWrite]] + rest;
      assert cs[1..] == rest;
      assert Flatten(cs) == series[..MaxBatchWrite] + Flatten(rest);
      assert series[..MaxBatchWrite] + series[MaxBatchWrite..] == series;
    }
  }

  /** `_batch_write`: the requests sent, in order, until one fails
      (`accepts` says which requests the service takes); a failure stops
      the loop. */
  method BatchWrite(project: string, series: seq<Series>, accepts: Request -> bool) returns (sent: seq<Request>, ok: bool)
    ensures |sent| <= |Chunks(series)|
    ensures forall k :: 0 <= k < |sent| ==> sent[k] == Request("projects/" + project, Chunks(series)[k])
    ensures ok <==> |sent| == |Chunks(series)| && forall k :: 0 <= k < |sent| ==> accepts(sent[k])
    ensures !ok ==> |sent| > 0 && !accepts(sent[|sent| - 1])
  {
    var writeInd := 0;
    sent := [];
    ok := true;
    assert series[0..] == series;
    while writeInd < |series|
      invariant 0 <= writeInd
      invariant |sent| <= |Chunks(series)|
      invariant writeInd < |series| ==> Chunks(series[writeInd..]) == Chunks(series)[|sent|..]
      invariant writeInd >= |series| ==> |sent| == |Chunks(series)|
      invariant forall k :: 0 <= k < |sent| ==> sent[k] == Request("projects/" + project, Chunks(series)[k])
      invariant forall k :: 0 <= k < |sent| ==> accepts(sent[k])
      decreases |series| - writeInd
    {
      var end := if writeInd + MaxBatchWrite <= |series| then writeInd + MaxBatchWrite else |series|;
      var request := Request("projects/" + project, series[writeInd..end]);
      BatchStep(series, writeInd, |sent|);
      sent := sent + [request];
      if !accepts(request) {
        ok := false;
        return;
      }
      writeInd := writeInd + MaxBatchWrite;
    }
  }

  /** The next batch is the next chunk, and the rest of the series makes
      the remaining chunks. */
  lemma BatchStep(series: seq<Series>, i: nat, done: nat)
    requires i < |series| && done <= |Chunks(series)|
    requires Chunks(series[i..]) == Chunks(series)[done..]
    ensures var end := if i + MaxBatchWrite <= |series| then i + MaxBatchWrite else |series|;
      done < |Chunks(series)| && Chunks(series)[done] == series[i..end]
      && (end < |series| ==> Chunks(series[end..]) == Chunks(series)[done + 1..])
      && (end == |series| ==> done + 1 == |Chunks(series)|)
  {
    var end := if i + MaxBatchWrite <= |series| then i + MaxBatchWrite else |series|;
    var cs := Chunks(series)[done..];
    assert |Chunks(series[i..])| > 0;
    if end < |series| {
      assert series[i..][MaxBatchWrite..] == series[end..];
      assert series[i..][..MaxBatchWrite] == series[i..end];
      assert Chunks(series[end..]) == cs[1..];
    } else {
      assert series[i..] == series[i..end];
    }
  }

  /** What `export` returns. */
  datatype ExportResult = Success | Failure

  datatype Exported = Exported(sent: seq<Request>, result: ExportResult)

  /** The tagged series of the entries, or the error of the first point
      that misses a resource attribute or holds a non-string label. */
  function TagAll(es: seq<Entry>): (r: Result<seq<Tagged>, string>)
    decreases |es|
  {
    if |es| == 0 then Ok([])
    else
      var rest := TagAll(es[1..]);
      match Convert(es[0])
      case KeyError(key) => Err("KeyError: " + key)
      case TypeError(field) => Err("TypeError: " + field)
      case Skipped => rest
      case ForProject(p, s) => if rest.Err? then rest else Ok([Tagged(p, s)] + rest.value)
  }

  /** The requests one bucket's batches make. */
  function BucketRequests(b: Bucket): (rs: seq<Request>)
    ensures |rs| == |Chunks(b.series)|
    ensures forall k :: 0 <= k < |rs| ==> rs[k] == Request("projects/" + b.project, Chunks(b.series)[k])
  {
    var cs := Chunks(b.series);
    seq(|cs|, k requires 0 <= k < |cs| => Request("projects/" + b.project, cs[k]))
  }

  /** Every request of a successful export, bucket after bucket. */
  function AllRequests(buckets: seq<Bucket>): seq<Request>
    decreases |buckets|
  {
    if |buckets| == 0 then [] else AllRequests(buckets[..|buckets| - 1]) + BucketRequests(buckets[|buckets| - 1])
  }

  lemma AllRequestsStep(buckets: seq<Bucket>, i: nat)
    requires i < |buckets|
    ensures AllRequests(buckets[..i + 1]) == AllRequests(buckets[..i]) + BucketRequests(buckets[i])
  {
    assert buckets[..i + 1][..i] == buckets[..i];
  }

  /** The requests of the first buckets begin the requests of all. */
  lemma {:induction false} AllRequestsPrefix(buckets: seq<Bucket>, i: nat)
    requires i <= |buckets|
    ensures AllRequests(buckets[..i]) <= AllRequests(buckets)
    decreases |buckets| - i
  {
    if i == |buckets| {
      assert buckets[..i] == buckets;
    } else {
      AllRequestsPrefix(buckets, i + 1);
      AllRequestsStep(buckets, i);
    }
  }

  /** Writing every bucket, in order, until a write fails. */
  method WriteAll(buckets: seq<Bucket>, accepts: Request -> bool) returns (sent: seq<Request>, ok: bool)
    ensures ok <==> forall k :: 0 <= k < |sent| ==> accepts(sent[k])
    ensures ok ==> sent == AllRequests(buckets)
    ensures sent <= AllRequests(buckets)
  {
    sent := [];
    ok := true;
    var i := 0;
    while i < |buckets|
      invariant 0 <= i <= |buckets|
      invariant sent == AllRequests(buckets[..i])
      invariant forall k :: 0 <= k < |sent| ==> accepts(sent[k])
    {
      var batchSent, batchOk := BatchWrite(buckets[i].project, buckets[i].series, accepts);
      AllRequestsStep(buckets, i);
      AllRequestsPrefix(buckets, i + 1);
      BatchPrefix(buckets[i], batchSent, batchOk);
      PrefixThrough(sent, batchSent, BucketRequests(buckets[i]), AllRequests(buckets));
      var last := |sent + batchSent| - 1;
      sent := sent + batchSent;
      if !batchOk {
        assert sent[last] == batchSent[|batchSent| - 1];
        ok := false;
        return;
      }
      i := i + 1;
    }
    assert buckets[..i] == buckets;
  }

  /** What one bucket's batch write sent begins that bucket's requests,
      and is all of them when the write succeeded. */
  lemma BatchPrefix(b: Bucket, sent: seq<Request>, ok: bool)
    requires |sent| <= |Chunks(b.series)|
    requires forall k :: 0 <= k < |sent| ==> sent[k] == Request("projects/" + b.project, Chunks(b.series)[k])
    requires ok ==> |sent| == |Chunks(b.series)|
    ensures sent <= BucketRequests(b)
    ensures ok ==> sent == BucketRequests(b)
  {
  }

  lemma PrefixThrough<T>(sent: seq<T>, part: seq<T>, whole: seq<T>, all: seq<T>)
    requires part <= whole && sent + whole <= all
    ensures sent + part <= all
  {
    assert (sent + part) == (sent + whole)[..|sent + part|];
  }

  /** `export`: convert and group every point, then write each project's
      series in batches; `SUCCESS` exactly when every write succeeds. A
      missing resource attribute or a non-string label raises out of
      `export` (`Err`). */
  method Export(data: MetricsData, accepts: Request -> bool) returns (r: Result<Exported, string>)
    ensures TagAll(Entries(data)).Err? <==> r.Err?
    ensures r.Ok? ==> (r.value.result == Success <==> forall k :: 0 <= k < |r.value.sent| ==> accepts(r.value.sent[k]))
    ensures r.Ok? ==> (var all := AllRequests(Group(TagAll(Entries(data)).value));
      r.value.sent <= all
      && (r.value.result == Success ==> r.value.sent == all))
  {
    var tagged := TagAll(Entries(data));
    if tagged.Err? {
      return Err(tagged.error);
    }
    var buckets := Group(tagged.value);
    var sent, ok := WriteAll(buckets, accepts);
    return Ok(Exported(sent, if ok then Success else Failure));
  }
}
