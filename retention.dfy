/**
 * Memory retention and the overall verdict: each phase's average available
 * memory as a percentage of the baseline's, shown as bars, in the comparison
 * table and on the console, and the verdict on the contended phase.
 */
module Retention {
  import opened Wrappers
  import opened Phases
  import opened Statistics

  /** `stats.get('baseline', {}).get('memory_avg', 0)` */
  function BaselineMem(stats: Stats): real
  {
    match Find(stats, Baseline)
    case Some(s) => s.memoryAvg
    case None => 0.0
  }

  /**
   * The guarded percentage `avg / baseline * 100 if baseline > 0 else 0`:
   * avg as a share of the baseline, or 0 when there is no positive baseline.
   */
  function Retention(avg: real, baseline: real): (r: real)
    ensures baseline > 0.0 ==> r * baseline == avg * 100.0
    ensures baseline <= 0.0 ==> r == 0.0
  {
    if baseline > 0.0 then avg / baseline * 100.0 else 0.0
  }

  /** The baseline retains all of itself. */
  lemma BaselineRetainsAll(stats: Stats)
    requires BaselineMem(stats) > 0.0
    ensures Retention(BaselineMem(stats), BaselineMem(stats)) == 100.0
  {
    var b := BaselineMem(stats);
    var r := Retention(b, b);
    assert r * b == 100.0 * b;
    CancelFactor(r, 100.0, b);
  }

  lemma CancelFactor(x: real, y: real, b: real)
    requires b > 0.0 && x * b == y * b
    ensures x == y
  {
    assert (x - y) * b == 0.0;
  }

  /** Against a fixed positive baseline, more memory never means less retention. */
  lemma RetentionMonotone(a1: real, a2: real, b: real)
    requires a1 <= a2 && b > 0.0
    ensures Retention(a1, b) <= Retention(a2, b)
  {
    var r1, r2 := Retention(a1, b), Retention(a2, b);
    assert (r2 - r1) * b == (a2 - a1) * 100.0;
    if r2 < r1 {
      assert (r1 - r2) * b > 0.0;
    }
  }

  /** A retention of at least t percent means the average is at least t percent of the baseline. */
  lemma RetentionAtLeast(avg: real, b: real, t: real)
    requires b > 0.0
    ensures Retention(avg, b) >= t <==> avg * 100.0 >= t * b
  {
    var r := Retention(avg, b);
    assert r * b - t * b == (r - t) * b;
    if r >= t {
      assert (r - t) * b >= 0.0;
    } else {
      assert (t - r) * b > 0.0;
    }
  }

  /** The canonical phases among `phs` that have an entry, in order. */
  function PresentIn(stats: Stats, phs: seq<Phase>): seq<Phase>
  {
    if phs == [] then []
    else
      PresentIn(stats, phs[..|phs| - 1]) +
        (if Find(stats, phs[|phs| - 1]).Some? then [phs[|phs| - 1]] else [])
  }

  /** The phases the loops over the canonical phases visit with `if phase in stats`. */
  function Present(stats: Stats): seq<Phase>
  {
    PresentIn(stats, Canonical)
  }

  /** A phase is among those kept from `phs` exactly when it is in `phs` and has an entry. */
  lemma {:induction false} PresentInMembers(stats: Stats, phs: seq<Phase>, ph: Phase)
    ensures ph in PresentIn(stats, phs) <==> ph in phs && Find(stats, ph).Some?
  {
    if phs != [] {
      var init, last := phs[..|phs| - 1], phs[|phs| - 1];
      assert phs == init + [last];
      PresentInMembers(stats, init, ph);
    }
  }

  /** Keeping some of the phases keeps their order. */
  lemma {:induction false} PresentInOrdered(stats: Stats, phs: seq<Phase>)
    requires RankOrdered(phs)
    ensures RankOrdered(PresentIn(stats, phs))
  {
    if phs != [] {
      var init, last := phs[..|phs| - 1], phs[|phs| - 1];
      assert phs == init + [last];
      LastRanksHighest(phs);
      PresentInOrdered(stats, init);
      var before := PresentIn(stats, init);
      forall i | 0 <= i < |before|
        ensures Rank(before[i]) < Rank(last)
      {
        PresentInMembers(stats, init, before[i]);
      }
    }
  }

  /** A phase is listed exactly when it has an entry; the list keeps the canonical order. */
  lemma PresentPhases(stats: Stats)
    ensures forall ph :: ph in Present(stats) <==> Find(stats, ph).Some?
    ensures RankOrdered(Present(stats))
  {
    CanonicalOrdered();
    forall ph
      ensures ph in Present(stats) <==> Find(stats, ph).Some?
    {
      PresentInMembers(stats, Canonical, ph);
    }
    PresentInOrdered(stats, Canonical);
  }

  /** One bar of the retention chart: the upper-case phase name and the percentage. */
  datatype Bar = Bar(name: string, retention: real)

  /**
   * The retention chart's lists (the colours are left out): one bar per
   * present phase in canonical order when the baseline exists, none otherwise.
   */
  method RetentionBars(stats: Stats) returns (bars: seq<Bar>)
    ensures BaselineMem(stats) <= 0.0 ==> bars == []
    ensures BaselineMem(stats) > 0.0 ==>
      |bars| == |Present(stats)| &&
      forall i :: 0 <= i < |bars| ==>
        bars[i].name == Upper(Present(stats)[i]) &&
        Find(stats, Present(stats)[i]).Some? &&
        bars[i].retention == Retention(Find(stats, Present(stats)[i]).value.memoryAvg, BaselineMem(stats))
  {
    bars := [];
    if Find(stats, Baseline).Some? {
      var baselineMem := Find(stats, Baseline).value.memoryAvg;
      for n := 0 to |Canonical|
        invariant baselineMem > 0.0 ==>
          |bars| == |PresentIn(stats, Canonical[..n])| &&
          forall i :: 0 <= i < |bars| ==> bars[i] == BarFor(stats, PresentIn(stats, Canonical[..n])[i])
        invariant baselineMem <= 0.0 ==> bars == []
      {
        var phase := Canonical[n];
        assert Canonical[..n + 1][..n] == Canonical[..n];
        if Find(stats, phase).Some? && baselineMem > 0.0 {
          var phaseMem := Find(stats, phase).value.memoryAvg;
          var retention := (phaseMem / baselineMem) * 100.0;
          bars := bars + [Bar(Upper(phase), retention)];
        }
      }
      assert Canonical[..|Canonical|] == Canonical;
      PresentPhases(stats);
    }
  }

  /** The bar of a present phase. */
  function BarFor(stats: Stats, ph: Phase): Bar
  {
    match Find(stats, ph)
    case Some(s) => Bar(Upper(ph), Retention(s.memoryAvg, BaselineMem(stats)))
    case None => Bar(Upper(ph), 0.0)
  }

  /** One phase's line of the comparison table and of the console listing. */
  datatype ReportRow = ReportRow(
    name: string,
    memoryAvg: real,
    memoryMin: real,
    retention: real,
    cpuAvg: real,
    swapAvg: real)

  /** The row of a phase with entry s. */
  function RowFor(stats: Stats, ph: Phase, s: PhaseStats): ReportRow
  {
    ReportRow(Upper(ph), s.memoryAvg, s.memoryMin, Retention(s.memoryAvg, BaselineMem(stats)), s.cpuAvg, s.swapAvg)
  }

  /**
   * The per-phase listing: one row per present phase, in canonical order,
   * with its entry's values and its retention against the baseline.
   */
  method PhaseReport(stats: Stats) returns (rows: seq<ReportRow>)
    ensures |rows| == |Present(stats)|
    ensures forall i :: 0 <= i < |rows| ==>
      Find(stats, Present(stats)[i]).Some? &&
      rows[i] == RowFor(stats, Present(stats)[i], Find(stats, Present(stats)[i]).value)
  {
    var baselineMem := match Find(stats, Baseline) case Some(b) => b.memoryAvg case None => 0.0;
    rows := [];
    for n := 0 to |Canonical|
      invariant |rows| == |PresentIn(stats, Canonical[..n])|
      invariant forall i :: 0 <= i < |rows| ==>
        Find(stats, PresentIn(stats, Canonical[..n])[i]).Some? &&
        rows[i] == RowFor(stats, PresentIn(stats, Canonical[..n])[i], Find(stats, PresentIn(stats, Canonical[..n])[i]).value)
    {
      var phase := Canonical[n];
      assert Canonical[..n + 1][..n] == Canonical[..n];
      if Find(stats, phase).Some? {
        var s := Find(stats, phase).value;
        var retention := if baselineMem > 0.0 then s.memoryAvg / baselineMem * 100.0 else 0.0;
        rows := rows + [ReportRow(Upper(phase), s.memoryAvg, s.memoryMin, retention, s.cpuAvg, s.swapAvg)];
      }
    }
    assert Canonical[..|Canonical|] == Canonical;
  }

  /** The comparison table is drawn only when there are statistics. */
  method SummaryTable(stats: Stats) returns (table: Option<seq<ReportRow>>)
    ensures table.Some? <==> stats != []
    ensures table.Some? ==>
      |table.value| == |Present(stats)| &&
      forall i :: 0 <= i < |table.value| ==>
        Find(stats, Present(stats)[i]).Some? &&
        table.value[i] == RowFor(stats, Present(stats)[i], Find(stats, Present(stats)[i]).value)
  {
    if stats == [] {
      return None;
    }
    var rows := PhaseReport(stats);
    return Some(rows);
  }

  /** Without a positive baseline every row reports a retention of 0. */
  lemma NoBaselineNoRetention(stats: Stats, ph: Phase, s: PhaseStats)
    requires BaselineMem(stats) <= 0.0
    ensures RowFor(stats, ph, s).retention == 0.0
  {
  }

  /** With a positive baseline the baseline's own row reports 100. */
  lemma BaselineRowReportsAll(stats: Stats)
    requires Find(stats, Baseline).Some? && BaselineMem(stats) > 0.0
    ensures RowFor(stats, Baseline, Find(stats, Baseline).value).retention == 100.0
  {
    BaselineRetainsAll(stats);
  }

  /** The overall assessment's three outcomes. */
  datatype Verdict = Excellent | Good | NeedsAttention

  /** How good a verdict is: NeedsAttention 0, Good 1, Excellent 2. */
  function Level(v: Verdict): nat
  {
    match v
    case NeedsAttention => 0
    case Good => 1
    case Excellent => 2
  }

  /** The retention thresholds: 95 and above is excellent, 85 and above good. */
  function Classify(r: real): (v: Verdict)
    ensures v == Excellent <==> r >= 95.0
    ensures v == Good <==> 85.0 <= r < 95.0
    ensures v == NeedsAttention <==> r < 85.0
  {
    if r >= 95.0 then Excellent
    else if r >= 85.0 then Good
    else NeedsAttention
  }

  /** A higher retention never gets a worse verdict. */
  lemma ClassifyMonotone(r1: real, r2: real)
    requires r1 <= r2
    ensures Level(Classify(r1)) <= Level(Classify(r2))
  {
  }

  datatype Assessment = Assessment(retention: real, verdict: Verdict)

  /** `stats.get('contended', {}).get('memory_avg', 0)` */
  function ContendedMem(stats: Stats): real
  {
    match Find(stats, Contended)
    case Some(s) => s.memoryAvg
    case None => 0.0
  }

  /** The overall assessment, printed only when the baseline memory is positive. */
  function Assess(stats: Stats): Option<Assessment>
  {
    var baselineMem := BaselineMem(stats);
    if baselineMem > 0.0 then
      var r := ContendedMem(stats) / baselineMem * 100.0;
      Some(Assessment(r, Classify(r)))
    else None
  }

  /**
   * There is a verdict exactly when the baseline memory is positive; it
   * classifies the contended phase's retention, and it is excellent exactly
   * when the contended average keeps 95 percent of the baseline's and at least
   * good exactly when it keeps 85 percent.
   */
  lemma AssessmentMeaning(stats: Stats)
    ensures Assess(stats).Some? <==> BaselineMem(stats) > 0.0
    ensures Assess(stats).Some? ==>
      Assess(stats).value.retention == Retention(ContendedMem(stats), BaselineMem(stats)) &&
      Assess(stats).value.verdict == Classify(Assess(stats).value.retention) &&
      (Assess(stats).value.verdict == Excellent <==> ContendedMem(stats) * 100.0 >= 95.0 * BaselineMem(stats)) &&
      (Assess(stats).value.verdict != NeedsAttention <==> ContendedMem(stats) * 100.0 >= 85.0 * BaselineMem(stats))
  {
    if BaselineMem(stats) > 0.0 {
      RetentionAtLeast(ContendedMem(stats), BaselineMem(stats), 95.0);
      RetentionAtLeast(ContendedMem(stats), BaselineMem(stats), 85.0);
    }
  }

  /** A missing contended phase still gets a verdict, from a retention of 0, and so needs attention. */
  lemma MissingContendedNeedsAttention(stats: Stats)
    requires BaselineMem(stats) > 0.0 && Find(stats, Contended).None?
    ensures Assess(stats) == Some(Assessment(0.0, NeedsAttention))
  {
  }

  /** The verdict's retention is the one the contended row reports. */
  lemma AssessmentMatchesReport(stats: Stats)
    requires Assess(stats).Some? && Find(stats, Contended).Some?
    ensures Assess(stats).value.retention == RowFor(stats, Contended, Find(stats, Contended).value).retention
  {
  }
}
