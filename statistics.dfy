/**
 * calculate_phase_statistics: for each canonical phase that occurs in the
 * `phase` column, the memory, CPU and swap aggregates over the samples with
 * that label.
 */
module Statistics {
  import opened Wrappers
  import opened Phases
  import opened Aggregates
  import L = Loader

  /** One value of the returned dictionary; the square root of memoryVariance is `memory_std`. */
  datatype PhaseStats = PhaseStats(
    memoryAvg: real,
    memoryMin: real,
    memoryMax: real,
    memoryVariance: real,
    cpuAvg: real,
    swapAvg: real,
    samples: nat)

  /** One key and value of the dictionary; the list keeps insertion order. */
  datatype Entry = Entry(phase: Phase, stats: PhaseStats)

  type Stats = seq<Entry>

  /** The dictionary lookup `stats.get(phase)`. */
  function Find(stats: Stats, ph: Phase): Option<PhaseStats>
  {
    if stats == [] then None
    else if stats[0].phase == ph then Some(stats[0].stats)
    else Find(stats[1..], ph)
  }

  function Labels(m: L.Metrics): seq<string>
  {
    L.Texts(m.phases)
  }

  function Memory(m: L.Metrics): seq<real>
  {
    L.Numbers(m.memoryAvailable)
  }

  function Cpu(m: L.Metrics): seq<real>
  {
    L.Numbers(m.cpuPercent)
  }

  function Swap(m: L.Metrics): seq<real>
  {
    L.Numbers(m.swapPercent)
  }

  /**
   * The indexing of memory_available, cpu_percent and swap_percent stays in
   * range: every sample labelled with a canonical phase has all three values.
   * Otherwise the function raises IndexError.
   */
  predicate StatsDefined(m: L.Metrics)
  {
    forall i :: 0 <= i < |m.phases| && IsCanonicalName(L.TextOf(m.phases[i])) ==>
      i < |m.memoryAvailable| && i < |m.cpuPercent| && i < |m.swapPercent|
  }

  /** The positions a phase selects all have the three values. */
  lemma SelectedInRange(m: L.Metrics, ph: Phase)
    requires StatsDefined(m)
    ensures forall i :: 0 <= i < |IndicesOf(Labels(m), Name(ph))| ==>
      IndicesOf(Labels(m), Name(ph))[i] < |Memory(m)| &&
      IndicesOf(Labels(m), Name(ph))[i] < |Cpu(m)| &&
      IndicesOf(Labels(m), Name(ph))[i] < |Swap(m)|
  {
    var idx := IndicesOf(Labels(m), Name(ph));
    forall i | 0 <= i < |idx|
      ensures idx[i] < |Memory(m)| && idx[i] < |Cpu(m)| && idx[i] < |Swap(m)|
    {
      IndicesOfSound(Labels(m), Name(ph), i);
      assert L.TextOf(m.phases[idx[i]]) == Name(ph);
    }
  }

  /** The dictionary value built from the samples at `indices`. */
  function Summarize(m: L.Metrics, indices: seq<nat>): PhaseStats
    requires forall i :: 0 <= i < |indices| ==>
      indices[i] < |Memory(m)| && indices[i] < |Cpu(m)| && indices[i] < |Swap(m)|
  {
    var mem := Select(Memory(m), indices);
    PhaseStats(Mean(mem), Min(mem), Max(mem), Variance(mem),
      Mean(Select(Cpu(m), indices)), Mean(Select(Swap(m), indices)), |indices|)
  }

  /** The entry the function produces for one phase: None when the phase does not occur. */
  function PhaseSummary(m: L.Metrics, ph: Phase): Option<PhaseStats>
    requires StatsDefined(m)
  {
    var indices := IndicesOf(Labels(m), Name(ph));
    SelectedInRange(m, ph);
    if indices == [] then None else Some(Summarize(m, indices))
  }

  /** The dictionary after the loop has visited the phases `phs`. */
  function Collected(m: L.Metrics, phs: seq<Phase>): Stats
    requires StatsDefined(m)
  {
    if phs == [] then []
    else
      Collected(m, phs[..|phs| - 1]) + EntryFor(m, phs[|phs| - 1])
  }

  /** What the loop adds to the dictionary for one phase. */
  function EntryFor(m: L.Metrics, ph: Phase): Stats
    requires StatsDefined(m)
  {
    match PhaseSummary(m, ph)
    case Some(s) => [Entry(ph, s)]
    case None => []
  }

  lemma FindEntryFor(m: L.Metrics, ph: Phase, key: Phase)
    requires StatsDefined(m)
    ensures Find(EntryFor(m, ph), key) == if ph == key then PhaseSummary(m, key) else None
  {
  }

  /** The loop over the canonical phases, skipping with `continue` the ones that do not occur. */
  method CalculatePhaseStatistics(m: L.Metrics) returns (stats: Stats)
    requires StatsDefined(m)
    ensures forall ph :: Find(stats, ph) == PhaseSummary(m, ph)
    ensures forall i, j :: 0 <= i < j < |stats| ==> Rank(stats[i].phase) < Rank(stats[j].phase)
  {
    stats := [];
    for n := 0 to |Canonical|
      invariant stats == Collected(m, Canonical[..n])
    {
      var phase := Canonical[n];
      var indices := IndicesOf(Labels(m), Name(phase));
      if indices == [] {
        assert Canonical[..n + 1][..n] == Canonical[..n];
        continue;
      }
      SelectedInRange(m, phase);
      stats := stats + [Entry(phase, Summarize(m, indices))];
      assert Canonical[..n + 1][..n] == Canonical[..n];
      assert EntryFor(m, phase) == [Entry(phase, Summarize(m, indices))];
    }
    assert Canonical[..|Canonical|] == Canonical;
    CanonicalOrdered();
    forall ph
      ensures Find(stats, ph) == PhaseSummary(m, ph)
    {
      CollectedFind(m, Canonical, ph);
    }
    CollectedOrdered(m, Canonical);
  }

  /** Looking up a key in an appended dictionary. */
  lemma {:induction false} FindAppend(a: Stats, b: Stats, ph: Phase)
    ensures Find(a + b, ph) == if Find(a, ph).Some? then Find(a, ph) else Find(b, ph)
  {
    if a == [] {
      assert a + b == b;
    } else {
      assert (a + b)[0] == a[0];
      assert (a + b)[1..] == a[1..] + b;
      FindAppend(a[1..], b, ph);
    }
  }

  /** After the phases `phs`, exactly those of them that occur have entries. */
  lemma {:induction false} CollectedFind(m: L.Metrics, phs: seq<Phase>, ph: Phase)
    requires StatsDefined(m)
    ensures Find(Collected(m, phs), ph) == if ph in phs then PhaseSummary(m, ph) else None
  {
    if phs != [] {
      var init, last := phs[..|phs| - 1], phs[|phs| - 1];
      assert phs == init + [last];
      CollectedFind(m, init, ph);
      FindAppend(Collected(m, init), EntryFor(m, last), ph);
      FindEntryFor(m, last, ph);
    }
  }

  /** The entries follow the order of the phases visited. */
  lemma {:induction false} CollectedOrdered(m: L.Metrics, phs: seq<Phase>)
    requires StatsDefined(m) && RankOrdered(phs)
    ensures forall i :: 0 <= i < |Collected(m, phs)| ==> Collected(m, phs)[i].phase in phs
    ensures forall i, j :: 0 <= i < j < |Collected(m, phs)| ==>
      Rank(Collected(m, phs)[i].phase) < Rank(Collected(m, phs)[j].phase)
  {
    if phs != [] {
      var init, last := phs[..|phs| - 1], phs[|phs| - 1];
      assert phs == init + [last];
      CollectedOrdered(m, init);
      LastRanksHighest(phs);
      EntryForPhase(m, last);
      SnocOrdered(Collected(m, init), EntryFor(m, last), init, last);
    }
  }

  /** The entry added for a phase, if any, is for that phase. */
  lemma EntryForPhase(m: L.Metrics, ph: Phase)
    requires StatsDefined(m)
    ensures |EntryFor(m, ph)| <= 1
    ensures forall i :: 0 <= i < |EntryFor(m, ph)| ==> EntryFor(m, ph)[i].phase == ph
  {
  }

  /** Appending at most one entry for a phase ranked above all earlier ones keeps the order. */
  lemma SnocOrdered(before: Stats, extra: Stats, init: seq<Phase>, last: Phase)
    requires forall i :: 0 <= i < |before| ==> before[i].phase in init
    requires forall i, j :: 0 <= i < j < |before| ==> Rank(before[i].phase) < Rank(before[j].phase)
    requires forall ph :: ph in init ==> Rank(ph) < Rank(last)
    requires |extra| <= 1 && forall i :: 0 <= i < |extra| ==> extra[i].phase == last
    ensures forall i :: 0 <= i < |before + extra| ==> (before + extra)[i].phase in init + [last]
    ensures forall i, j :: 0 <= i < j < |before + extra| ==>
      Rank((before + extra)[i].phase) < Rank((before + extra)[j].phase)
  {
  }

  /**
   * A phase has an entry exactly when some sample carries its label, and the
   * entry counts those samples, so it counts at least one.
   */
  lemma PresenceAndSamples(m: L.Metrics, ph: Phase)
    requires StatsDefined(m)
    ensures PhaseSummary(m, ph).Some? <==> Name(ph) in Labels(m)
    ensures PhaseSummary(m, ph).Some? ==>
      PhaseSummary(m, ph).value.samples == Occurrences(Labels(m), Name(ph)) >= 1
  {
    var labels := Labels(m);
    IndicesOfCount(labels, Name(ph));
    if Name(ph) in labels {
      var j :| 0 <= j < |labels| && labels[j] == Name(ph);
      IndicesOfComplete(labels, Name(ph), j);
    }
  }

  /** Every entry has min <= avg <= max and a non-negative variance. */
  lemma EntryBounds(m: L.Metrics, ph: Phase)
    requires StatsDefined(m) && PhaseSummary(m, ph).Some?
    ensures PhaseSummary(m, ph).value.memoryMin <= PhaseSummary(m, ph).value.memoryAvg
    ensures PhaseSummary(m, ph).value.memoryAvg <= PhaseSummary(m, ph).value.memoryMax
    ensures PhaseSummary(m, ph).value.memoryVariance >= 0.0
  {
    var indices := IndicesOf(Labels(m), Name(ph));
    SelectedInRange(m, ph);
    var mem := Select(Memory(m), indices);
    MeanBounds(mem);
    VarianceNonNegative(mem);
  }

  /**
   * The averages are sums over exactly the samples with the phase's label,
   * divided by their number.
   */
  lemma EntryAverages(m: L.Metrics, ph: Phase)
    requires StatsDefined(m) && PhaseSummary(m, ph).Some?
    ensures
      var indices := IndicesOf(Labels(m), Name(ph));
      var s := PhaseSummary(m, ph).value;
      (forall i :: 0 <= i < |indices| ==>
        indices[i] < |Memory(m)| && indices[i] < |Cpu(m)| && indices[i] < |Swap(m)|) &&
      s.samples == |indices| > 0 &&
      s.memoryAvg == Sum(Select(Memory(m), indices)) / (s.samples as real) &&
      s.cpuAvg == Sum(Select(Cpu(m), indices)) / (s.samples as real) &&
      s.swapAvg == Sum(Select(Swap(m), indices)) / (s.samples as real)
  {
    var indices := IndicesOf(Labels(m), Name(ph));
    SelectedInRange(m, ph);
  }

  /**
   * Samples labelled otherwise contribute nothing to a phase's entry: two
   * metric sets with the same labels that agree on the samples labelled with
   * the phase give it the same entry.
   */
  lemma OnlyLabelledSamplesCount(m1: L.Metrics, m2: L.Metrics, ph: Phase)
    requires StatsDefined(m1) && StatsDefined(m2) && Labels(m1) == Labels(m2)
    requires forall i :: 0 <= i < |Labels(m1)| && Labels(m1)[i] == Name(ph) ==>
      i < |Memory(m1)| && i < |Memory(m2)| && Memory(m1)[i] == Memory(m2)[i] &&
      i < |Cpu(m1)| && i < |Cpu(m2)| && Cpu(m1)[i] == Cpu(m2)[i] &&
      i < |Swap(m1)| && i < |Swap(m2)| && Swap(m1)[i] == Swap(m2)[i]
    ensures PhaseSummary(m1, ph) == PhaseSummary(m2, ph)
  {
    var labels := Labels(m1);
    var indices := IndicesOf(labels, Name(ph));
    SelectedInRange(m1, ph);
    SelectedInRange(m2, ph);
    forall i | 0 <= i < |indices|
      ensures Memory(m1)[indices[i]] == Memory(m2)[indices[i]]
      ensures Cpu(m1)[indices[i]] == Cpu(m2)[indices[i]]
      ensures Swap(m1)[indices[i]] == Swap(m2)[indices[i]]
    {
      IndicesOfSound(labels, Name(ph), i);
    }
    assert Select(Memory(m1), indices) == Select(Memory(m2), indices);
    assert Select(Cpu(m1), indices) == Select(Cpu(m2), indices);
    assert Select(Swap(m1), indices) == Select(Swap(m2), indices);
  }
}
