/**
 The alert engine: thresholds, one violation counter per metric key, and the alerts table. The table's row
 identifiers are fresh and never reused, so a row is named by its position; `resolved` stands for
 "resolved_at IS NOT NULL".
 */
module Alerts {
  import opened Common
  import opened Runs

  datatype Severity = Warning | Critical
  datatype Threshold = Threshold(kind: string, warning: real, critical: real, enabled: bool)
  datatype Alert = Alert(kind: string, resource: string, severity: Severity, threshold: real, value: real,
      resolved: bool)
  datatype Disk = Disk(mount: string, usage: real)
  datatype Snapshot = Snapshot(cpu: real, ram: real, disks: seq<Disk>)
  datatype Grade = Grade(severity: Severity, threshold: real)

  /** One measured value, in the order the service looks at it. */
  datatype Sample = Sample(kind: string, resource: string, value: real)

  datatype State = State(thresholds: seq<Threshold>, counts: map<string, int>, last: map<string, real>,
      alerts: seq<Alert>)

  const DEFAULT_THRESHOLDS := [
    Threshold("cpu", 80.0, 90.0, true),
    Threshold("ram", 85.0, 95.0, true),
    Threshold("disk", 80.0, 90.0, true)
  ]

  function Fresh(thresholds: seq<Threshold>): State {
    State(thresholds, map[], map[], [])
  }

  // ---- One measurement -------------------------------------------------------------------------------

  function Key(kind: string, resource: string): string {
    if resource == "" then kind else kind + ":" + resource
  }

  function CountOf(counts: map<string, int>, key: string): int {
    if key in counts then counts[key] else 0
  }

  function ForKind(kind: string): Threshold -> bool {
    (t: Threshold) => t.kind == kind
  }

  function ThresholdFor(thresholds: seq<Threshold>, kind: string): Option<Threshold> {
    match First(thresholds, ForKind(kind))
    case None => None
    case Some(i) => Some(thresholds[i])
  }

  /** Critical is tested first, so a value is graded even where a configuration has Critical below Warning. */
  function GradeOf(t: Threshold, value: real): Option<Grade> {
    if value >= t.critical then Some(Grade(Critical, t.critical))
    else if value >= t.warning then Some(Grade(Warning, t.warning))
    else None
  }

  predicate Over(t: Threshold, value: real) {
    value >= t.warning || value >= t.critical
  }

  predicate Active(a: Alert, kind: string) {
    a.kind == kind && !a.resolved
  }

  predicate HasActive(alerts: seq<Alert>, kind: string) {
    exists i :: 0 <= i < |alerts| && Active(alerts[i], kind)
  }

  /** The table once every open alert of the kind carries a resolution time. */
  function Resolved(alerts: seq<Alert>, kind: string): (r: seq<Alert>)
    ensures |r| == |alerts|
  {
    seq(|alerts|, i requires 0 <= i < |alerts| =>
      if alerts[i].kind == kind then alerts[i].(resolved := true) else alerts[i])
  }

  ghost predicate OneActivePerKind(alerts: seq<Alert>) {
    forall i, j :: 0 <= i < j < |alerts| && alerts[i].kind == alerts[j].kind ==>
      alerts[i].resolved || alerts[j].resolved
  }

  function Measured(s: State, m: Sample): State {
    var key := Key(m.kind, m.resource);
    match ThresholdFor(s.thresholds, m.kind)
    case None => s
    case Some(t) =>
      if !t.enabled then s
      else
        match GradeOf(t, m.value)
        case Some(g) =>
          var count := CountOf(s.counts, key) + 1;
          var alerts :=
            if count < 2 || HasActive(s.alerts, m.kind) then s.alerts
            else s.alerts + [Alert(m.kind, m.resource, g.severity, g.threshold, m.value, false)];
          s.(counts := s.counts[key := count], last := s.last[key := m.value], alerts := alerts)
        case None =>
          s.(counts := s.counts[key := 0], last := s.last[key := m.value], alerts := Resolved(s.alerts, m.kind))
  }

  function MeasuredAll(s: State, samples: seq<Sample>): State {
    if samples == [] then s
    else Measured(MeasuredAll(s, samples[..|samples| - 1]), samples[|samples| - 1])
  }

  function DiskSamples(disks: seq<Disk>): (r: seq<Sample>)
    ensures |r| == |disks|
  {
    seq(|disks|, i requires 0 <= i < |disks| => Sample("disk", disks[i].mount, disks[i].usage))
  }

  function Samples(snap: Snapshot): seq<Sample> {
    [Sample("cpu", "", snap.cpu), Sample("ram", "", snap.ram)] + DiskSamples(snap.disks)
  }

  function Flatten(snaps: seq<Snapshot>): seq<Sample> {
    if snaps == [] then [] else Flatten(snaps[..|snaps| - 1]) + Samples(snaps[|snaps| - 1])
  }

  lemma MeasuredAllSnoc(s: State, samples: seq<Sample>, m: Sample)
    ensures MeasuredAll(s, samples + [m]) == Measured(MeasuredAll(s, samples), m)
  {
    assert (samples + [m])[..|samples|] == samples;
  }

  lemma MeasuredNext(s: State, samples: seq<Sample>, i: nat)
    requires i < |samples|
    ensures MeasuredAll(s, samples[..i + 1]) == Measured(MeasuredAll(s, samples[..i]), samples[i])
    ensures i == 0 ==> MeasuredAll(s, samples[..0]) == s
  {
    assert samples[..i + 1][..i] == samples[..i];
  }

  lemma OpenedAlone(alerts: seq<Alert>, a: Alert)
    requires OneActivePerKind(alerts) && !HasActive(alerts, a.kind)
    ensures OneActivePerKind(alerts + [a])
  {
    assert forall i :: 0 <= i < |alerts| ==> !Active(alerts[i], a.kind);
  }

  lemma NothingToResolve(alerts: seq<Alert>, kind: string)
    requires !HasActive(alerts, kind)
    ensures Resolved(alerts, kind) == alerts
  {
    forall i | 0 <= i < |alerts| ensures Resolved(alerts, kind)[i] == alerts[i] {
      assert !Active(alerts[i], kind);
    }
  }

  // ---- The service ------------------------------------------------------------------------------------

  class Service {
    var thresholds: seq<Threshold>
    var consecutiveViolations: map<string, int>
    var lastValues: map<string, real>
    var alerts: seq<Alert>

    ghost function View(): State
      reads this
    {
      State(thresholds, consecutiveViolations, lastValues, alerts)
    }

    ghost predicate Valid()
      reads this
    {
      OneActivePerKind(alerts)
    }

    constructor ()
      ensures Valid() && View() == Fresh(DEFAULT_THRESHOLDS)
    {
      thresholds, consecutiveViolations, lastValues, alerts := DEFAULT_THRESHOLDS, map[], map[], [];
    }

    method UpdateThresholds(newThresholds: seq<Threshold>)
      requires Valid()
      modifies this`thresholds
      ensures Valid() && View() == old(View()).(thresholds := newThresholds)
    {
      thresholds := newThresholds;
    }

    method FindThreshold(kind: string) returns (t: Option<Threshold>)
      ensures t == ThresholdFor(thresholds, kind)
    {
      for i := 0 to |thresholds|
        invariant forall j :: 0 <= j < i ==> !ForKind(kind)(thresholds[j])
      {
        if thresholds[i].kind == kind {
          FirstSome(thresholds, ForKind(kind), i);
          return Some(thresholds[i]);
        }
      }
      FirstNone(thresholds, ForKind(kind));
      return None;
    }

    /** LIMIT 1 without an order: any open row of the kind may be returned. */
    method FindActiveAlert(kind: string) returns (id: Option<nat>)
      ensures id.Some? ==> id.value < |alerts| && Active(alerts[id.value], kind)
      ensures id.Some? <==> HasActive(alerts, kind)
    {
      if i: nat :| i < |alerts| && Active(alerts[i], kind) {
        return Some(i);
      }
      return None;
    }

    method TriggerAlert(kind: string, resource: string, severity: Severity, threshold: real, value: real)
      modifies this`alerts
      ensures alerts == old(alerts) + [Alert(kind, resource, severity, threshold, value, false)]
    {
      alerts := alerts + [Alert(kind, resource, severity, threshold, value, false)];
    }

    method ResolveAlert(id: nat)
      requires Valid() && id < |alerts| && !alerts[id].resolved
      modifies this`alerts
      ensures Valid() && alerts == Resolved(old(alerts), old(alerts)[id].kind)
    {
      ghost var before := alerts;
      alerts := alerts[id := alerts[id].(resolved := true)];
      forall i | 0 <= i < |alerts| ensures alerts[i] == Resolved(before, before[id].kind)[i] {
      }
    }

    method EvaluateMetric(kind: string, value: real, resource: string)
      requires Valid()
      modifies this
      ensures Valid() && View() == Measured(old(View()), Sample(kind, resource, value))
    {
      hide HasActive, Resolved, OneActivePerKind;
      var key := if resource != "" then kind + ":" + resource else kind;
      var found := FindThreshold(kind);
      if found.None? || !found.value.enabled {
        return;
      }
      var t := found.value;
      var severity: Option<Severity> := None;
      var alertThreshold := 0.0;
      if value >= t.critical {
        severity, alertThreshold := Some(Critical), t.critical;
      } else if value >= t.warning {
        severity, alertThreshold := Some(Warning), t.warning;
      }
      if severity.Some? {
        var violations := if key in consecutiveViolations then consecutiveViolations[key] else 0;
        consecutiveViolations := consecutiveViolations[key := violations + 1];
        if consecutiveViolations[key] < 2 {
          lastValues := lastValues[key := value];
          return;
        }
        var existing := FindActiveAlert(kind);
        if existing.None? {
          OpenedAlone(alerts, Alert(kind, resource, severity.value, alertThreshold, value, false));
          TriggerAlert(kind, resource, severity.value, alertThreshold, value);
        }
      } else {
        consecutiveViolations := consecutiveViolations[key := 0];
        var active := FindActiveAlert(kind);
        if active.Some? {
          ResolveAlert(active.value);
        } else {
          NothingToResolve(alerts, kind);
        }
      }
      lastValues := lastValues[key := value];
    }

    method Evaluate(snap: Snapshot)
      requires Valid()
      modifies this
      ensures Valid() && View() == MeasuredAll(old(View()), Samples(snap))
    {
      ghost var before := View();
      ghost var samples := Samples(snap);
      EvaluateMetric("cpu", snap.cpu, "");
      MeasuredNext(before, samples, 0);
      EvaluateMetric("ram", snap.ram, "");
      MeasuredNext(before, samples, 1);
      for i := 0 to |snap.disks|
        invariant Valid() && View() == MeasuredAll(before, samples[..i + 2])
      {
        EvaluateMetric("disk", snap.disks[i].usage, snap.disks[i].mount);
        MeasuredNext(before, samples, i + 2);
      }
      assert samples[..|samples|] == samples;
    }
  }

  // ---- At most one open alert of each kind, whatever the thresholds do ---------------------------------

  datatype Op = Look(m: Sample) | Retune(thresholds: seq<Threshold>)

  function Apply(s: State, op: Op): State {
    match op
    case Look(m) => Measured(s, m)
    case Retune(ts) => s.(thresholds := ts)
  }

  function Run(s: State, ops: seq<Op>): State {
    if ops == [] then s else Apply(Run(s, ops[..|ops| - 1]), ops[|ops| - 1])
  }

  lemma {:induction false} NeverTwoActive(thresholds: seq<Threshold>, ops: seq<Op>)
    ensures OneActivePerKind(Run(Fresh(thresholds), ops).alerts)
  {
    if ops != [] {
      NeverTwoActive(thresholds, ops[..|ops| - 1]);
      var s := Run(Fresh(thresholds), ops[..|ops| - 1]);
      var s' := Run(Fresh(thresholds), ops);
      forall i, j | 0 <= i < j < |s'.alerts| && s'.alerts[i].kind == s'.alerts[j].kind
        ensures s'.alerts[i].resolved || s'.alerts[j].resolved
      {
        if j == |s.alerts| {
          assert !Active(s.alerts[i], s'.alerts[j].kind);
        }
      }
    }
  }

  // ---- What one kind sees -------------------------------------------------------------------------------

  function OfKind(kind: string): Alert -> bool {
    (a: Alert) => a.kind == kind
  }

  ghost predicate Known(samples: seq<Sample>) {
    forall i :: 0 <= i < |samples| ==>
      samples[i].kind == "cpu" || samples[i].kind == "ram" || samples[i].kind == "disk"
  }

  /** No two different metrics share a counter. */
  lemma KeysAreDistinct(a: Sample, b: Sample)
    requires Known([a, b]) && Key(a.kind, a.resource) == Key(b.kind, b.resource)
    ensures a.kind == b.kind && a.resource == b.resource
  {
    assert [a, b][0] == a && [a, b][1] == b;
    assert Key(a.kind, a.resource)[0] == a.kind[0] && Key(b.kind, b.resource)[0] == b.kind[0];
    assert a.kind == b.kind;
    if a.resource != "" && b.resource != "" {
      assert a.resource == Key(a.kind, a.resource)[|a.kind| + 1..];
      assert b.resource == Key(b.kind, b.resource)[|b.kind| + 1..];
    } else {
      assert |Key(a.kind, a.resource)| == |Key(b.kind, b.resource)|;
    }
  }

  lemma ResolvedSnoc(alerts: seq<Alert>, a: Alert, kind: string)
    ensures Resolved(alerts + [a], kind) == Resolved(alerts, kind)
      + [if a.kind == kind then a.(resolved := true) else a]
  {
  }

  lemma {:induction false} ResolvedCommutes(alerts: seq<Alert>, kind: string, resolved: string)
    ensures Filter(Resolved(alerts, resolved), OfKind(kind)) == Resolved(Filter(alerts, OfKind(kind)), resolved)
  {
    if alerts != [] {
      var init, a := alerts[..|alerts| - 1], alerts[|alerts| - 1];
      ResolvedCommutes(init, kind, resolved);
      assert alerts == init + [a];
      ResolvedSnoc(init, a, resolved);
      FilterSnoc(Resolved(init, resolved), if a.kind == resolved then a.(resolved := true) else a, OfKind(kind));
      FilterSnoc(init, a, OfKind(kind));
      if a.kind == kind {
        ResolvedSnoc(Filter(init, OfKind(kind)), a, resolved);
      }
    }
  }

  lemma {:induction false} ResolvedOther(alerts: seq<Alert>, kind: string, resolved: string)
    requires kind != resolved
    ensures Filter(Resolved(alerts, resolved), OfKind(kind)) == Filter(alerts, OfKind(kind))
  {
    ResolvedCommutes(alerts, kind, resolved);
    var kept := Filter(alerts, OfKind(kind));
    forall i | 0 <= i < |kept| ensures Resolved(kept, resolved)[i] == kept[i] {
      assert kept[i] in kept;
    }
  }

  lemma {:induction false} HasActiveOfKind(alerts: seq<Alert>, kind: string)
    ensures HasActive(alerts, kind) <==> HasActive(Filter(alerts, OfKind(kind)), kind)
  {
    if alerts != [] {
      var init := alerts[..|alerts| - 1];
      var a := alerts[|alerts| - 1];
      HasActiveOfKind(init, kind);
      var kept := Filter(init, OfKind(kind));
      HasActiveSnoc(init, a, kind);
      HasActiveSnoc(kept, a, kind);
      assert alerts == init + [a];
    }
  }

  lemma HasActiveSnoc(alerts: seq<Alert>, a: Alert, kind: string)
    ensures HasActive(alerts + [a], kind) <==> HasActive(alerts, kind) || Active(a, kind)
  {
    if HasActive(alerts, kind) {
      var i :| 0 <= i < |alerts| && Active(alerts[i], kind);
      assert Active((alerts + [a])[i], kind);
    }
    if Active(a, kind) {
      assert Active((alerts + [a])[|alerts|], kind);
    }
    if HasActive(alerts + [a], kind) {
      var i :| 0 <= i < |alerts| + 1 && Active((alerts + [a])[i], kind);
      assert i < |alerts| ==> Active(alerts[i], kind);
    }
  }

  /** The counter of one key and the alerts of one kind. */
  datatype Track = Track(count: int, alerts: seq<Alert>)

  function TrackOf(s: State, kind: string, resource: string): Track {
    Track(CountOf(s.counts, Key(kind, resource)), Filter(s.alerts, OfKind(kind)))
  }

  function Advance(t: Threshold, track: Track, m: Sample): Track {
    match GradeOf(t, m.value)
    case Some(g) =>
      Track(track.count + 1,
            if track.count + 1 < 2 || HasActive(track.alerts, m.kind) then track.alerts
            else track.alerts + [Alert(m.kind, m.resource, g.severity, g.threshold, m.value, false)])
    case None => Track(0, Resolved(track.alerts, m.kind))
  }

  predicate Configured(thresholds: seq<Threshold>, kind: string, t: Threshold) {
    ThresholdFor(thresholds, kind) == Some(t) && t.enabled
  }

  lemma MeasuredSameKind(s: State, m: Sample, t: Threshold)
    requires Configured(s.thresholds, m.kind, t)
    ensures TrackOf(Measured(s, m), m.kind, m.resource) == Advance(t, TrackOf(s, m.kind, m.resource), m)
  {
    HasActiveOfKind(s.alerts, m.kind);
    ResolvedCommutes(s.alerts, m.kind, m.kind);
    var g := GradeOf(t, m.value);
    if g.Some? {
      FilterSnoc(s.alerts, Alert(m.kind, m.resource, g.value.severity, g.value.threshold, m.value, false),
        OfKind(m.kind));
    }
  }

  lemma MeasuredOtherKey(s: State, m: Sample, other: Sample)
    requires Known([m, other]) && (m.kind != other.kind || m.resource != other.resource)
    ensures CountOf(Measured(s, m).counts, Key(other.kind, other.resource))
      == CountOf(s.counts, Key(other.kind, other.resource))
  {
    if Key(m.kind, m.resource) == Key(other.kind, other.resource) {
      KeysAreDistinct(m, other);
    }
  }

  lemma MeasuredOtherKind(s: State, m: Sample, kind: string)
    requires m.kind != kind
    ensures Filter(Measured(s, m).alerts, OfKind(kind)) == Filter(s.alerts, OfKind(kind))
  {
    ResolvedOther(s.alerts, kind, m.kind);
    var s' := Measured(s, m);
    if |s'.alerts| > |s.alerts| {
      FilterSnoc(s.alerts, s'.alerts[|s.alerts|], OfKind(kind));
    }
  }

  lemma {:induction false} ThresholdsKept(s: State, samples: seq<Sample>)
    ensures MeasuredAll(s, samples).thresholds == s.thresholds
  {
    if samples != [] {
      ThresholdsKept(s, samples[..|samples| - 1]);
    }
  }

  // ---- cpu and ram: the table is the run decomposition of the samples -----------------------------------

  function Flags(t: Threshold, vs: seq<real>): (r: seq<bool>)
    ensures |r| == |vs|
  {
    seq(|vs|, i requires 0 <= i < |vs| => Over(t, vs[i]))
  }

  /** Critical from the critical level on, and a warning below it; the level that was reached is on record. */
  ghost predicate GradedBy(t: Threshold, v: real, a: Alert) {
    && Over(t, v)
    && (a.severity == Critical <==> v >= t.critical)
    && a.threshold == (if v >= t.critical then t.critical else t.warning)
  }

  /** The alert a run must have left: about its second sample, open exactly while the run goes on. */
  ghost predicate RecordsRun(t: Threshold, kind: string, vs: seq<real>, r: Interval, a: Alert) {
    && r.start + 1 < |vs|
    && GradedBy(t, vs[r.start + 1], a)
    && a == Alert(kind, "", a.severity, a.threshold, vs[r.start + 1], r.end < |vs|)
  }

  /** The runs and their alerts correspond row by row, and the counter is the length of the trailing stretch. */
  ghost predicate Explains(t: Threshold, kind: string, vs: seq<real>, track: Track, runs: seq<Interval>) {
    && Decomposition(Flags(t, vs), runs)
    && TrailingRun(Flags(t, vs), track.count)
    && |track.alerts| == |runs|
    && (forall k :: 0 <= k < |runs| ==> RecordsRun(t, kind, vs, runs[k], track.alerts[k]))
  }

  function Values(samples: seq<Sample>, kind: string): seq<real> {
    if samples == [] then []
    else
      var m := samples[|samples| - 1];
      Values(samples[..|samples| - 1], kind) + (if m.kind == kind then [m.value] else [])
  }

  lemma OpenAlert(t: Threshold, kind: string, vs: seq<real>, track: Track, runs: seq<Interval>)
    requires Explains(t, kind, vs, track, runs)
    ensures HasActive(track.alerts, kind) <==> track.count >= 2
  {
    LastIsOpen(Flags(t, vs), track.count, runs);
    if track.count >= 2 {
      assert RecordsRun(t, kind, vs, runs[|runs| - 1], track.alerts[|runs| - 1]);
      assert Active(track.alerts[|runs| - 1], kind);
    }
    if HasActive(track.alerts, kind) {
      var k :| 0 <= k < |track.alerts| && Active(track.alerts[k], kind);
      assert RecordsRun(t, kind, vs, runs[k], track.alerts[k]);
    }
  }

  lemma ExplainsSnoc(t: Threshold, kind: string, vs: seq<real>, v: real, track: Track, runs: seq<Interval>)
    requires Explains(t, kind, vs, track, runs)
    ensures Explains(t, kind, vs + [v], Advance(t, track, Sample(kind, "", v)),
                     RunsAfter(runs, track.count, |vs|, Over(t, v)))
  {
    var n, ws, flags := track.count, vs + [v], Flags(t, vs);
    var runs' := RunsAfter(runs, n, |vs|, Over(t, v));
    var track' := Advance(t, track, Sample(kind, "", v));
    assert Flags(t, ws) == flags + [Over(t, v)];
    LastIsOpen(flags, n, runs);
    DecompositionSnoc(flags, Over(t, v), n, runs);
    TrailingSnoc(flags, Over(t, v), n);
    OpenAlert(t, kind, vs, track, runs);
    forall k | 0 <= k < |runs'| ensures RecordsRun(t, kind, ws, runs'[k], track'.alerts[k]) {
      if k < |runs| {
        assert RecordsRun(t, kind, vs, runs[k], track.alerts[k]);
        assert runs[k] in runs && MaximalRun(flags, runs[k]);
      }
    }
  }

  lemma ValuesSnoc(samples: seq<Sample>, m: Sample, kind: string)
    ensures Values(samples + [m], kind) == Values(samples, kind) + (if m.kind == kind then [m.value] else [])
  {
    assert (samples + [m])[..|samples|] == samples;
  }

  ghost predicate ExplainsSome(t: Threshold, kind: string, vs: seq<real>, track: Track) {
    exists runs :: Explains(t, kind, vs, track, runs)
  }

  lemma SampleExplained(s: State, m: Sample, t: Threshold, kind: string, vs: seq<real>)
    requires PlainMetrics([m]) && kind in ["cpu", "ram"] && Configured(s.thresholds, kind, t)
    requires ExplainsSome(t, kind, vs, TrackOf(s, kind, ""))
    ensures ExplainsSome(t, kind, vs + (if m.kind == kind then [m.value] else []), TrackOf(Measured(s, m), kind, ""))
  {
    assert m in [m];
    if m.kind == kind {
      var runs :| Explains(t, kind, vs, TrackOf(s, kind, ""), runs);
      MeasuredSameKind(s, m, t);
      ExplainsSnoc(t, kind, vs, m.value, TrackOf(s, kind, ""), runs);
    } else {
      MeasuredOtherKey(s, m, Sample(kind, "", 0.0));
      MeasuredOtherKind(s, m, kind);
      assert vs + [] == vs;
    }
  }

  /** The table of a kind without resources is the run decomposition of its samples. */
  lemma {:induction false} TableIsDecomposition(thresholds: seq<Threshold>, t: Threshold, kind: string,
        samples: seq<Sample>)
    requires PlainMetrics(samples) && kind in ["cpu", "ram"] && Configured(thresholds, kind, t)
    ensures ExplainsSome(t, kind, Values(samples, kind), TrackOf(MeasuredAll(Fresh(thresholds), samples), kind, ""))
  {
    if samples == [] {
      assert Explains(t, kind, [], Track(0, []), []);
    } else {
      var init, m := samples[..|samples| - 1], samples[|samples| - 1];
      TableIsDecomposition(thresholds, t, kind, init);
      ThresholdsKept(Fresh(thresholds), init);
      assert m in samples;
      SampleExplained(MeasuredAll(Fresh(thresholds), init), m, t, kind, Values(init, kind));
    }
  }

  // ---- The same, for whole snapshots ---------------------------------------------------------------------

  function CpuOf(snaps: seq<Snapshot>): seq<real> {
    seq(|snaps|, i requires 0 <= i < |snaps| => snaps[i].cpu)
  }

  function RamOf(snaps: seq<Snapshot>): seq<real> {
    seq(|snaps|, i requires 0 <= i < |snaps| => snaps[i].ram)
  }

  /** The samples of the disks end with the last disk's, whatever comes before them. */
  lemma DiskSamplesLast(before: seq<Sample>, disks: seq<Disk>)
    requires disks != []
    ensures var d := disks[|disks| - 1];
            before + DiskSamples(disks) == (before + DiskSamples(disks[..|disks| - 1]))
              + [Sample("disk", d.mount, d.usage)]
  {
    assert DiskSamples(disks)[..|disks| - 1] == DiskSamples(disks[..|disks| - 1]);
    ConcatLast(before, DiskSamples(disks));
  }

  lemma {:induction false} ValuesOfDisks(samples: seq<Sample>, disks: seq<Disk>, kind: string)
    requires kind != "disk"
    ensures Values(samples + DiskSamples(disks), kind) == Values(samples, kind)
  {
    if disks == [] {
      assert samples + DiskSamples(disks) == samples;
    } else {
      var init, d := disks[..|disks| - 1], disks[|disks| - 1];
      ValuesOfDisks(samples, init, kind);
      DiskSamplesLast(samples, disks);
      ValuesSnoc(samples + DiskSamples(init), Sample("disk", d.mount, d.usage), kind);
    }
  }

  ghost predicate PlainMetrics(samples: seq<Sample>) {
    forall m :: m in samples ==> m.kind == "disk" || (m.resource == "" && m.kind in ["cpu", "ram"])
  }

  lemma {:induction false} FlattenedPlain(snaps: seq<Snapshot>)
    ensures PlainMetrics(Flatten(snaps))
  {
    if snaps != [] {
      FlattenedPlain(snaps[..|snaps| - 1]);
    }
  }

  lemma ValuesOfSnapshot(before: seq<Sample>, snap: Snapshot)
    ensures Values(before + Samples(snap), "cpu") == Values(before, "cpu") + [snap.cpu]
    ensures Values(before + Samples(snap), "ram") == Values(before, "ram") + [snap.ram]
  {
    var cpu, ram := Sample("cpu", "", snap.cpu), Sample("ram", "", snap.ram);
    assert before + Samples(snap) == before + [cpu] + [ram] + DiskSamples(snap.disks);
    ValuesOfDisks(before + [cpu] + [ram], snap.disks, "cpu");
    ValuesOfDisks(before + [cpu] + [ram], snap.disks, "ram");
    ValuesSnoc(before + [cpu], ram, "cpu");
    ValuesSnoc(before + [cpu], ram, "ram");
    ValuesSnoc(before, cpu, "cpu");
    ValuesSnoc(before, cpu, "ram");
  }

  lemma SnapshotsSnoc(snaps: seq<Snapshot>)
    requires snaps != []
    ensures CpuOf(snaps) == CpuOf(snaps[..|snaps| - 1]) + [snaps[|snaps| - 1].cpu]
    ensures RamOf(snaps) == RamOf(snaps[..|snaps| - 1]) + [snaps[|snaps| - 1].ram]
  {
  }

  lemma {:induction false} FlattenedValues(snaps: seq<Snapshot>)
    ensures Values(Flatten(snaps), "cpu") == CpuOf(snaps) && Values(Flatten(snaps), "ram") == RamOf(snaps)
  {
    if snaps != [] {
      var init, snap := snaps[..|snaps| - 1], snaps[|snaps| - 1];
      FlattenedValues(init);
      ValuesOfSnapshot(Flatten(init), snap);
      SnapshotsSnoc(snaps);
    }
  }

  lemma {:induction false} MeasuredAllConcat(s: State, a: seq<Sample>, b: seq<Sample>)
    ensures MeasuredAll(s, a + b) == MeasuredAll(MeasuredAll(s, a), b)
  {
    if b == [] {
      assert a + b == a;
    } else {
      MeasuredAllConcat(s, a, b[..|b| - 1]);
      ConcatLast(a, b);
    }
  }

  function EvaluatedAll(s: State, snaps: seq<Snapshot>): State {
    if snaps == [] then s
    else MeasuredAll(EvaluatedAll(s, snaps[..|snaps| - 1]), Samples(snaps[|snaps| - 1]))
  }

  lemma {:induction false} EvaluatedIsFlattened(s: State, snaps: seq<Snapshot>)
    ensures EvaluatedAll(s, snaps) == MeasuredAll(s, Flatten(snaps))
  {
    if snaps != [] {
      EvaluatedIsFlattened(s, snaps[..|snaps| - 1]);
      MeasuredAllConcat(s, Flatten(snaps[..|snaps| - 1]), Samples(snaps[|snaps| - 1]));
    }
  }

  /** Main result for cpu: some list of intervals is the decomposition, and the table records it row by row. */
  lemma CpuTable(thresholds: seq<Threshold>, t: Threshold, snaps: seq<Snapshot>)
    requires Configured(thresholds, "cpu", t)
    ensures ExplainsSome(t, "cpu", CpuOf(snaps), TrackOf(EvaluatedAll(Fresh(thresholds), snaps), "cpu", ""))
  {
    EvaluatedIsFlattened(Fresh(thresholds), snaps);
    FlattenedPlain(snaps);
    FlattenedValues(snaps);
    TableIsDecomposition(thresholds, t, "cpu", Flatten(snaps));
  }

  lemma RamTable(thresholds: seq<Threshold>, t: Threshold, snaps: seq<Snapshot>)
    requires Configured(thresholds, "ram", t)
    ensures ExplainsSome(t, "ram", RamOf(snaps), TrackOf(EvaluatedAll(Fresh(thresholds), snaps), "ram", ""))
  {
    EvaluatedIsFlattened(Fresh(thresholds), snaps);
    FlattenedPlain(snaps);
    FlattenedValues(snaps);
    TableIsDecomposition(thresholds, t, "ram", Flatten(snaps));
  }

  /** A kind without a threshold, or with a disabled one, never gets a row and never loses one. */
  lemma {:induction false} DisabledIsSilent(s: State, samples: seq<Sample>, kind: string)
    requires forall t :: ThresholdFor(s.thresholds, kind) == Some(t) ==> !t.enabled
    ensures Filter(MeasuredAll(s, samples).alerts, OfKind(kind)) == Filter(s.alerts, OfKind(kind))
  {
    if samples != [] {
      var init, m := samples[..|samples| - 1], samples[|samples| - 1];
      DisabledIsSilent(s, init, kind);
      ThresholdsKept(s, init);
      if m.kind != kind {
        MeasuredOtherKind(MeasuredAll(s, init), m, kind);
      }
    }
  }

  /** The latest value of every metric with an enabled threshold is on record. */
  lemma LatestIsOnRecord(s: State, m: Sample, t: Threshold)
    requires Configured(s.thresholds, m.kind, t)
    ensures Measured(s, m).last == s.last[Key(m.kind, m.resource) := m.value]
  {
  }

  /** The default levels at work: two looks at a server whose cpu is critical and whose memory is not quite. */
  lemma DefaultLevels()
    ensures var snap := Snapshot(95.0, 90.0, []);
            EvaluatedAll(Fresh(DEFAULT_THRESHOLDS), [snap, snap]).alerts
            == [Alert("cpu", "", Critical, 90.0, 95.0, false), Alert("ram", "", Warning, 85.0, 90.0, false)]
  {
    var snap, s0 := Snapshot(95.0, 90.0, []), Fresh(DEFAULT_THRESHOLDS);
    var cpu, ram := Sample("cpu", "", 95.0), Sample("ram", "", 90.0);
    FirstSome(DEFAULT_THRESHOLDS, ForKind("cpu"), 0);
    FirstSome(DEFAULT_THRESHOLDS, ForKind("ram"), 1);
    var s1 := Measured(s0, cpu);
    var s2 := Measured(s1, ram);
    var s3 := Measured(s2, cpu);
    assert Samples(snap) == [cpu] + [ram];
    MeasuredAllSnoc(s0, [cpu], ram);
    MeasuredAllSnoc(s2, [cpu], ram);
    assert [snap, snap][..1] == [snap] && [snap][..0] == [];
    assert EvaluatedAll(s0, [snap]) == s2;
    assert EvaluatedAll(s0, [snap, snap]) == Measured(s3, ram);
  }

  // ---- disks: one alert for all mounts --------------------------------------------------------------------

  /** The disk samples in the order they were looked at. */
  function DiskStream(snaps: seq<Snapshot>): seq<Disk> {
    if snaps == [] then [] else DiskStream(snaps[..|snaps| - 1]) + snaps[|snaps| - 1].disks
  }

  /** Sample `i` is over the threshold and so was the sample of the same mount before it. */
  ghost predicate Repeated(t: Threshold, ds: seq<Disk>, i: int) {
    && 0 <= i < |ds| && Over(t, ds[i].usage)
    && exists j :: 0 <= j < i && LastOver(t, ds[..i], ds[i].mount, j)
  }

  /** Sample `j` is the latest of its mount, and over the threshold. */
  ghost predicate LastOver(t: Threshold, ds: seq<Disk>, mount: string, j: int) {
    && 0 <= j < |ds| && ds[j].mount == mount && Over(t, ds[j].usage)
    && forall k :: j < k < |ds| ==> ds[k].mount != mount
  }

  /** A repeated violation, with no mount below its warning level since. */
  ghost predicate ShouldBeOpen(t: Threshold, ds: seq<Disk>) {
    exists i :: Repeated(t, ds, i) && forall k :: i < k < |ds| ==> Over(t, ds[k].usage)
  }

  /** Sample `i` raises an alert: a repeated violation while none is open. */
  ghost predicate Raises(t: Threshold, ds: seq<Disk>, i: nat) {
    i < |ds| && Repeated(t, ds, i) && !ShouldBeOpen(t, ds[..i])
  }

  /** Some sample after `i`, of whatever mount, is below its warning level. */
  ghost predicate Recovered(t: Threshold, ds: seq<Disk>, i: int) {
    exists k :: 0 <= i < k < |ds| && !Over(t, ds[k].usage)
  }

  /** The row carries mount, severity, threshold and value of sample `i`, and is open until any recovery. */
  ghost predicate RecordsDisk(t: Threshold, ds: seq<Disk>, i: nat, a: Alert) {
    && i < |ds| && GradedBy(t, ds[i].usage, a)
    && a == Alert("disk", ds[i].mount, a.severity, a.threshold, ds[i].usage, Recovered(t, ds, i))
  }

  ghost predicate RaisedBy(t: Threshold, ds: seq<Disk>, raised: seq<nat>) {
    && (forall j, k :: 0 <= j < k < |raised| ==> raised[j] < raised[k])
    && (forall i: nat :: i in raised <==> Raises(t, ds, i))
  }

  /** The disk rows record, in order, the samples `raised`, which are exactly those that raise an alert. */
  ghost predicate DiskRows(t: Threshold, ds: seq<Disk>, alerts: seq<Alert>, raised: seq<nat>) {
    && RaisedBy(t, ds, raised)
    && |alerts| == |raised|
    && (forall k :: 0 <= k < |raised| ==> RecordsDisk(t, ds, raised[k], alerts[k]))
  }

  ghost predicate HasDiskRows(t: Threshold, ds: seq<Disk>, alerts: seq<Alert>) {
    exists raised: seq<nat> :: DiskRows(t, ds, alerts, raised)
  }

  ghost predicate DiskInv(t: Threshold, ds: seq<Disk>, s: State) {
    && (HasActive(s.alerts, "disk") <==> ShouldBeOpen(t, ds))
    && HasDiskRows(t, ds, Filter(s.alerts, OfKind("disk")))
    && forall mount :: CountOf(s.counts, Key("disk", mount)) >= 0
                       && (CountOf(s.counts, Key("disk", mount)) >= 1 <==> exists j :: LastOver(t, ds, mount, j))
  }

  lemma LastOverSnoc(t: Threshold, ds: seq<Disk>, d: Disk, mount: string)
    ensures (exists j :: LastOver(t, ds + [d], mount, j)) <==>
            if d.mount == mount then Over(t, d.usage) else exists j :: LastOver(t, ds, mount, j)
  {
    var es := ds + [d];
    if d.mount == mount {
      if Over(t, d.usage) {
        assert LastOver(t, es, mount, |ds|);
      }
      forall j | LastOver(t, es, mount, j) ensures j == |ds| {
        assert es[|ds|].mount == mount;
      }
    } else {
      forall j ensures LastOver(t, es, mount, j) <==> LastOver(t, ds, mount, j) {
        assert es[|ds|] == d && forall k :: 0 <= k < |ds| ==> es[k] == ds[k];
      }
    }
  }

  lemma ShouldBeOpenSnoc(t: Threshold, ds: seq<Disk>, d: Disk)
    ensures ShouldBeOpen(t, ds + [d]) <==>
            Over(t, d.usage) && (ShouldBeOpen(t, ds) || exists j :: LastOver(t, ds, d.mount, j))
  {
    var es := ds + [d];
    assert es[..|ds|] == ds;
    forall i | 0 <= i < |ds| ensures Repeated(t, es, i) <==> Repeated(t, ds, i) {
      assert es[..i] == ds[..i];
    }
    if ShouldBeOpen(t, es) {
      var i :| Repeated(t, es, i) && forall k :: i < k < |es| ==> Over(t, es[k].usage);
      assert i < |ds| ==> Over(t, es[|ds|].usage);
      assert forall k :: 0 <= k < |ds| ==> es[k] == ds[k];
    }
    if Over(t, d.usage) && ShouldBeOpen(t, ds) {
      var i :| Repeated(t, ds, i) && forall k :: i < k < |ds| ==> Over(t, ds[k].usage);
      assert Repeated(t, es, i);
    }
    if Over(t, d.usage) && exists j :: LastOver(t, ds, d.mount, j) {
      assert Repeated(t, es, |ds|);
    }
  }

  lemma RaisesSnoc(t: Threshold, ds: seq<Disk>, d: Disk, i: nat)
    ensures i < |ds| ==> (Raises(t, ds + [d], i) <==> Raises(t, ds, i))
    ensures i == |ds| ==>
              (Raises(t, ds + [d], i) <==>
               Over(t, d.usage) && (exists j :: LastOver(t, ds, d.mount, j)) && !ShouldBeOpen(t, ds))
    ensures i > |ds| ==> !Raises(t, ds + [d], i)
  {
    var es := ds + [d];
    if i < |ds| {
      assert es[..i] == ds[..i] && es[i] == ds[i];
    } else if i == |ds| {
      assert es[..i] == ds && es[i] == d;
    }
  }

  lemma RecoveredSnoc(t: Threshold, ds: seq<Disk>, d: Disk, i: nat)
    requires i < |ds|
    ensures Recovered(t, ds + [d], i) <==> Recovered(t, ds, i) || !Over(t, d.usage)
  {
    var es := ds + [d];
    if Recovered(t, ds, i) {
      var k :| i < k < |ds| && !Over(t, ds[k].usage);
      assert !Over(t, es[k].usage);
    }
    if !Over(t, d.usage) {
      assert !Over(t, es[|ds|].usage);
    }
    if Recovered(t, es, i) {
      var k :| i < k < |es| && !Over(t, es[k].usage);
      assert k < |ds| ==> !Over(t, ds[k].usage);
    }
  }

  lemma RowSnoc(t: Threshold, ds: seq<Disk>, d: Disk, i: nat, a: Alert)
    requires RecordsDisk(t, ds, i, a)
    ensures RecordsDisk(t, ds + [d], i, if Over(t, d.usage) then a else a.(resolved := true))
  {
    RecoveredSnoc(t, ds, d, i);
    assert (ds + [d])[i] == ds[i];
  }

  lemma RaisedSnoc(t: Threshold, ds: seq<Disk>, d: Disk, raised: seq<nat>)
    requires RaisedBy(t, ds, raised)
    ensures RaisedBy(t, ds + [d], if Raises(t, ds + [d], |ds|) then raised + [|ds|] else raised)
  {
    var raised' := if Raises(t, ds + [d], |ds|) then raised + [|ds|] else raised;
    forall i: nat ensures i in raised' <==> Raises(t, ds + [d], i) {
      RaisesSnoc(t, ds, d, i);
      assert i in raised <==> Raises(t, ds, i);
      assert i in raised' <==> i in raised || (i == |ds| && Raises(t, ds + [d], |ds|));
    }
    forall k | 0 <= k < |raised| ensures raised[k] < |ds| {
      assert raised[k] in raised && Raises(t, ds, raised[k]);
    }
  }

  lemma RowsSnoc(t: Threshold, ds: seq<Disk>, d: Disk, alerts: seq<Alert>, raised: seq<nat>)
    requires DiskRows(t, ds, alerts, raised)
    ensures var alerts' := if Over(t, d.usage) then alerts else Resolved(alerts, "disk");
            forall k :: 0 <= k < |raised| ==> RecordsDisk(t, ds + [d], raised[k], alerts'[k])
  {
    var alerts' := if Over(t, d.usage) then alerts else Resolved(alerts, "disk");
    forall k | 0 <= k < |raised| ensures RecordsDisk(t, ds + [d], raised[k], alerts'[k]) {
      RowSnoc(t, ds, d, raised[k], alerts[k]);
    }
  }

  lemma QuietRows(t: Threshold, ds: seq<Disk>, d: Disk, alerts: seq<Alert>)
    requires HasDiskRows(t, ds, alerts) && !Raises(t, ds + [d], |ds|)
    ensures HasDiskRows(t, ds + [d], if Over(t, d.usage) then alerts else Resolved(alerts, "disk"))
  {
    var raised: seq<nat> :| DiskRows(t, ds, alerts, raised);
    RaisedSnoc(t, ds, d, raised);
    RowsSnoc(t, ds, d, alerts, raised);
    assert DiskRows(t, ds + [d], if Over(t, d.usage) then alerts else Resolved(alerts, "disk"), raised);
  }

  lemma RaisingRows(t: Threshold, ds: seq<Disk>, d: Disk, alerts: seq<Alert>, g: Grade)
    requires HasDiskRows(t, ds, alerts) && Raises(t, ds + [d], |ds|) && GradeOf(t, d.usage) == Some(g)
    ensures HasDiskRows(t, ds + [d], alerts + [Alert("disk", d.mount, g.severity, g.threshold, d.usage, false)])
  {
    var raised: seq<nat> :| DiskRows(t, ds, alerts, raised);
    var row := Alert("disk", d.mount, g.severity, g.threshold, d.usage, false);
    RaisedSnoc(t, ds, d, raised);
    RowsSnoc(t, ds, d, alerts, raised);
    assert (ds + [d])[|ds|] == d;
    assert RecordsDisk(t, ds + [d], |ds|, row);
    assert DiskRows(t, ds + [d], alerts + [row], raised + [|ds|]);
  }

  lemma DiskRowsSnoc(t: Threshold, ds: seq<Disk>, d: Disk, track: Track)
    requires HasDiskRows(t, ds, track.alerts)
    requires track.count >= 0 && (track.count >= 1 <==> exists j :: LastOver(t, ds, d.mount, j))
    requires HasActive(track.alerts, "disk") <==> ShouldBeOpen(t, ds)
    ensures HasDiskRows(t, ds + [d], Advance(t, track, Sample("disk", d.mount, d.usage)).alerts)
  {
    RaisesSnoc(t, ds, d, |ds|);
    if Raises(t, ds + [d], |ds|) {
      RaisingRows(t, ds, d, track.alerts, GradeOf(t, d.usage).value);
    } else {
      QuietRows(t, ds, d, track.alerts);
    }
  }

  lemma DiskMeasured(s: State, ds: seq<Disk>, d: Disk, t: Threshold)
    requires DiskInv(t, ds, s) && Configured(s.thresholds, "disk", t)
    ensures DiskInv(t, ds + [d], Measured(s, Sample("disk", d.mount, d.usage)))
  {
    var m := Sample("disk", d.mount, d.usage);
    var s' := Measured(s, m);
    ShouldBeOpenSnoc(t, ds, d);
    HasActiveOfKind(s.alerts, "disk");
    MeasuredSameKind(s, m, t);
    DiskRowsSnoc(t, ds, d, TrackOf(s, "disk", d.mount));
    if Over(t, d.usage) && CountOf(s.counts, Key("disk", d.mount)) >= 1 && !HasActive(s.alerts, "disk") {
      assert Active(s'.alerts[|s.alerts|], "disk");
    } else if Over(t, d.usage) {
      assert s'.alerts == s.alerts;
    }
    forall mount
      ensures CountOf(s'.counts, Key("disk", mount)) >= 0
      ensures CountOf(s'.counts, Key("disk", mount)) >= 1 <==> exists j :: LastOver(t, ds + [d], mount, j)
    {
      LastOverSnoc(t, ds, d, mount);
      if mount != d.mount {
        MeasuredOtherKey(s, m, Sample("disk", mount, 0.0));
      }
    }
  }

  lemma OtherKindMeasured(s: State, ds: seq<Disk>, m: Sample, t: Threshold)
    requires DiskInv(t, ds, s) && m.kind in ["cpu", "ram"]
    ensures DiskInv(t, ds, Measured(s, m))
  {
    var s' := Measured(s, m);
    MeasuredOtherKind(s, m, "disk");
    HasActiveOfKind(s.alerts, "disk");
    HasActiveOfKind(s'.alerts, "disk");
    forall mount ensures CountOf(s'.counts, Key("disk", mount)) == CountOf(s.counts, Key("disk", mount)) {
      MeasuredOtherKey(s, m, Sample("disk", mount, 0.0));
    }
  }

  lemma MeasuredLastDisk(s: State, disks: seq<Disk>)
    requires disks != []
    ensures var d := disks[|disks| - 1];
            MeasuredAll(s, DiskSamples(disks))
            == Measured(MeasuredAll(s, DiskSamples(disks[..|disks| - 1])), Sample("disk", d.mount, d.usage))
  {
    assert DiskSamples(disks)[..|disks| - 1] == DiskSamples(disks[..|disks| - 1]);
  }

  lemma {:induction false} DisksMeasured(s: State, ds: seq<Disk>, disks: seq<Disk>, t: Threshold)
    requires DiskInv(t, ds, s) && Configured(s.thresholds, "disk", t)
    ensures DiskInv(t, ds + disks, MeasuredAll(s, DiskSamples(disks)))
  {
    if disks == [] {
      assert ds + disks == ds;
    } else {
      var init, d := disks[..|disks| - 1], disks[|disks| - 1];
      DisksMeasured(s, ds, init, t);
      MeasuredLastDisk(s, disks);
      ThresholdsKept(s, DiskSamples(init));
      DiskMeasured(MeasuredAll(s, DiskSamples(init)), ds + init, d, t);
      ConcatLast(ds, disks);
    }
  }

  lemma {:induction false} DiskInvHolds(thresholds: seq<Threshold>, t: Threshold, snaps: seq<Snapshot>)
    requires Configured(thresholds, "disk", t)
    ensures DiskInv(t, DiskStream(snaps), EvaluatedAll(Fresh(thresholds), snaps))
    ensures EvaluatedAll(Fresh(thresholds), snaps).thresholds == thresholds
  {
    if snaps == [] {
      assert DiskRows(t, [], [], []);
    } else {
      var init, snap := snaps[..|snaps| - 1], snaps[|snaps| - 1];
      DiskInvHolds(thresholds, t, init);
      var s := EvaluatedAll(Fresh(thresholds), init);
      var cpu, ram := Sample("cpu", "", snap.cpu), Sample("ram", "", snap.ram);
      OtherKindMeasured(s, DiskStream(init), cpu, t);
      OtherKindMeasured(Measured(s, cpu), DiskStream(init), ram, t);
      var s2 := Measured(Measured(s, cpu), ram);
      DisksMeasured(s2, DiskStream(init), snap.disks, t);
      MeasuredAllConcat(s, [cpu, ram], DiskSamples(snap.disks));
      assert [cpu, ram] == [cpu] + [ram];
      MeasuredAllSnoc(s, [cpu], ram);
      ThresholdsKept(s, Samples(snap));
    }
  }

  /** Main result for disks: when an alert is open, and what every row of the table records. */
  lemma DiskTable(thresholds: seq<Threshold>, t: Threshold, snaps: seq<Snapshot>)
    requires Configured(thresholds, "disk", t)
    ensures var s, ds := EvaluatedAll(Fresh(thresholds), snaps), DiskStream(snaps);
            && HasDiskRows(t, ds, Filter(s.alerts, OfKind("disk")))
            && (HasActive(s.alerts, "disk") <==> ShouldBeOpen(t, ds))
  {
    DiskInvHolds(thresholds, t, snaps);
  }

  // ---- Not one alert for each mount --------------------------------------------------------------------------------

  /** Sample `j` is the latest of its mount, and it and the one before it are over the threshold. */
  ghost predicate FullAt(t: Threshold, ds: seq<Disk>, j: int) {
    Repeated(t, ds, j) && LastOver(t, ds, ds[j].mount, j)
  }

  /** Some mount's last two samples are over the threshold. */
  ghost predicate SomeMountFull(t: Threshold, ds: seq<Disk>) {
    exists j :: FullAt(t, ds, j)
  }

  ghost predicate LastOfMount(ds: seq<Disk>, mount: string, i: int, j: int) {
    0 <= i <= j < |ds| && ds[j].mount == mount && forall k :: j < k < |ds| ==> ds[k].mount != mount
  }

  lemma {:induction false} LastExists(ds: seq<Disk>, i: nat)
    requires i < |ds|
    ensures exists j :: LastOfMount(ds, ds[i].mount, i, j)
  {
    var init := ds[..|ds| - 1];
    if i == |ds| - 1 || ds[|ds| - 1].mount == ds[i].mount {
      assert LastOfMount(ds, ds[i].mount, i, |ds| - 1);
    } else {
      LastExists(init, i);
      var j :| LastOfMount(init, ds[i].mount, i, j);
      assert LastOfMount(ds, ds[i].mount, i, j);
    }
  }

  lemma OpenMeansFull(t: Threshold, ds: seq<Disk>)
    requires ShouldBeOpen(t, ds)
    ensures SomeMountFull(t, ds)
  {
    var i :| Repeated(t, ds, i) && forall k :: i < k < |ds| ==> Over(t, ds[k].usage);
    LastExists(ds, i);
    var j :| LastOfMount(ds, ds[i].mount, i, j);
    if j > i {
      LastExists(ds[..j], i);
      var h :| LastOfMount(ds[..j], ds[i].mount, i, h);
      assert LastOver(t, ds[..j], ds[j].mount, h);
    }
    assert FullAt(t, ds, j);
  }

  /**
   An open disk alert means that some mount is full, and a full mount means an open alert, except when every
   repeated violation has been followed by a sample below the warning level, of whatever mount.
   */
  lemma FullMountReading(thresholds: seq<Threshold>, t: Threshold, snaps: seq<Snapshot>)
    requires Configured(thresholds, "disk", t)
    ensures var ds := DiskStream(snaps);
            (HasActive(EvaluatedAll(Fresh(thresholds), snaps).alerts, "disk") <==> SomeMountFull(t, ds))
            <==> !(SomeMountFull(t, ds) && forall i :: Repeated(t, ds, i) ==> Recovered(t, ds, i))
  {
    var ds := DiskStream(snaps);
    DiskInvHolds(thresholds, t, snaps);
    if ShouldBeOpen(t, ds) {
      OpenMeansFull(t, ds);
    }
    forall i | Repeated(t, ds, i)
      ensures Recovered(t, ds, i) <==> !(forall k :: i < k < |ds| ==> Over(t, ds[k].usage))
    {
    }
  }

  /** With a single mount the two go together. */
  lemma OneMountReading(thresholds: seq<Threshold>, t: Threshold, snaps: seq<Snapshot>, mount: string)
    requires Configured(thresholds, "disk", t)
    requires forall i :: 0 <= i < |DiskStream(snaps)| ==> DiskStream(snaps)[i].mount == mount
    ensures HasActive(EvaluatedAll(Fresh(thresholds), snaps).alerts, "disk") <==> SomeMountFull(t, DiskStream(snaps))
  {
    var ds := DiskStream(snaps);
    DiskInvHolds(thresholds, t, snaps);
    if ShouldBeOpen(t, ds) {
      OpenMeansFull(t, ds);
    }
    if SomeMountFull(t, ds) {
      var j :| FullAt(t, ds, j);
      assert ds[j].mount == mount && ds[|ds| - 1].mount == mount;
    }
  }

  /** A full data disk, looked at before a nearly empty root disk. */
  const FLAPPING := Snapshot(0.0, 0.0, [Disk("/data", 95.0), Disk("/", 10.0)])

  function Repeat(snap: Snapshot, n: nat): (snaps: seq<Snapshot>)
    ensures |snaps| == n
  {
    seq(n, _ => snap)
  }

  lemma RepeatSnoc(snap: Snapshot, n: nat)
    ensures Repeat(snap, n + 1)[..n] == Repeat(snap, n)
  {
  }

  lemma FlappingSamples(s: State)
    ensures var s2 := Measured(Measured(s, Sample("cpu", "", 0.0)), Sample("ram", "", 0.0));
            MeasuredAll(s, Samples(FLAPPING))
            == Measured(Measured(s2, Sample("disk", "/data", 95.0)), Sample("disk", "/", 10.0))
  {
    var cpu, ram := Sample("cpu", "", 0.0), Sample("ram", "", 0.0);
    var data, root := Sample("disk", "/data", 95.0), Sample("disk", "/", 10.0);
    assert Samples(FLAPPING) == (([cpu] + [ram]) + [data]) + [root];
    MeasuredAllSnoc(s, ([cpu] + [ram]) + [data], root);
    MeasuredAllSnoc(s, [cpu] + [ram], data);
    MeasuredAllSnoc(s, [cpu], ram);
  }

  lemma FlapOnce(s: State, n: nat)
    requires s.thresholds == DEFAULT_THRESHOLDS && !HasActive(s.alerts, "disk")
    requires CountOf(s.counts, Key("disk", "/data")) == n
    ensures var s' := MeasuredAll(s, Samples(FLAPPING));
            && s'.thresholds == s.thresholds && !HasActive(s'.alerts, "disk")
            && CountOf(s'.counts, Key("disk", "/data")) == n + 1
            && |Filter(s'.alerts, OfKind("disk"))| == |Filter(s.alerts, OfKind("disk"))| + (if n >= 1 then 1 else 0)
  {
    var s1 := Measured(s, Sample("cpu", "", 0.0));
    var s2 := Measured(s1, Sample("ram", "", 0.0));
    FlappingSamples(s);
    PlainLooksAway(s, Sample("cpu", "", 0.0));
    PlainLooksAway(s1, Sample("ram", "", 0.0));
    FlapUp(s2);
    FlapDown(Measured(s2, Sample("disk", "/data", 95.0)));
  }

  lemma PlainLooksAway(s: State, m: Sample)
    requires m.kind in ["cpu", "ram"]
    ensures TrackOf(Measured(s, m), "disk", "/data") == TrackOf(s, "disk", "/data")
    ensures HasActive(Measured(s, m).alerts, "disk") <==> HasActive(s.alerts, "disk")
    ensures Measured(s, m).thresholds == s.thresholds
  {
    MeasuredOtherKey(s, m, Sample("disk", "/data", 0.0));
    MeasuredOtherKind(s, m, "disk");
    HasActiveOfKind(s.alerts, "disk");
    HasActiveOfKind(Measured(s, m).alerts, "disk");
  }

  lemma DiskDefault()
    ensures ThresholdFor(DEFAULT_THRESHOLDS, "disk") == Some(Threshold("disk", 80.0, 90.0, true))
  {
    FirstSome(DEFAULT_THRESHOLDS, ForKind("disk"), 2);
  }

  lemma FlapUp(s: State)
    requires s.thresholds == DEFAULT_THRESHOLDS && !HasActive(s.alerts, "disk")
    requires CountOf(s.counts, Key("disk", "/data")) >= 0
    ensures var s', n := Measured(s, Sample("disk", "/data", 95.0)), CountOf(s.counts, Key("disk", "/data"));
            && s'.thresholds == s.thresholds && CountOf(s'.counts, Key("disk", "/data")) == n + 1
            && |Filter(s'.alerts, OfKind("disk"))| == |Filter(s.alerts, OfKind("disk"))| + (if n >= 1 then 1 else 0)
  {
    DiskDefault();
    HasActiveOfKind(s.alerts, "disk");
    MeasuredSameKind(s, Sample("disk", "/data", 95.0), Threshold("disk", 80.0, 90.0, true));
  }

  lemma FlapDown(s: State)
    requires s.thresholds == DEFAULT_THRESHOLDS
    ensures var s' := Measured(s, Sample("disk", "/", 10.0));
            && s'.thresholds == s.thresholds && !HasActive(s'.alerts, "disk")
            && CountOf(s'.counts, Key("disk", "/data")) == CountOf(s.counts, Key("disk", "/data"))
            && |Filter(s'.alerts, OfKind("disk"))| == |Filter(s.alerts, OfKind("disk"))|
  {
    DiskDefault();
    MeasuredSameKind(s, Sample("disk", "/", 10.0), Threshold("disk", 80.0, 90.0, true));
    MeasuredOtherKey(s, Sample("disk", "/", 10.0), Sample("disk", "/data", 0.0));
  }

  /** Of `n` looks at these disks all but the first raise an alert, and each is resolved before the look is over. */
  lemma {:induction false} DiskAlertFlaps(n: nat)
    ensures var s := EvaluatedAll(Fresh(DEFAULT_THRESHOLDS), Repeat(FLAPPING, n));
            && s.thresholds == DEFAULT_THRESHOLDS && !HasActive(s.alerts, "disk")
            && CountOf(s.counts, Key("disk", "/data")) == n
            && |Filter(s.alerts, OfKind("disk"))| == if n == 0 then 0 else n - 1
  {
    if n > 0 {
      DiskAlertFlaps(n - 1);
      RepeatSnoc(FLAPPING, n - 1);
      FlapOnce(EvaluatedAll(Fresh(DEFAULT_THRESHOLDS), Repeat(FLAPPING, n - 1)), n - 1);
    }
  }

  lemma {:induction false} FlappingStream(n: nat)
    ensures var ds := DiskStream(Repeat(FLAPPING, n));
            |ds| == 2 * n && forall k :: 0 <= k < n ==>
              ds[2 * k] == Disk("/data", 95.0) && ds[2 * k + 1] == Disk("/", 10.0)
  {
    if n > 0 {
      FlappingStream(n - 1);
      RepeatSnoc(FLAPPING, n - 1);
    }
  }

  /** From the second look on the data disk is full all the while. */
  lemma FlappingIsFull(n: nat)
    requires n >= 2
    ensures SomeMountFull(Threshold("disk", 80.0, 90.0, true), DiskStream(Repeat(FLAPPING, n)))
  {
    var t, ds, j := Threshold("disk", 80.0, 90.0, true), DiskStream(Repeat(FLAPPING, n)), 2 * (n - 1);
    FlappingStream(n);
    assert ds[2 * (n - 1)] == Disk("/data", 95.0) && ds[2 * (n - 2)] == Disk("/data", 95.0);
    assert ds[2 * (n - 1) + 1] == Disk("/", 10.0) && ds[2 * (n - 2) + 1] == Disk("/", 10.0);
    assert LastOver(t, ds[..j], "/data", j - 2);
    assert FullAt(t, ds, j);
  }
}
