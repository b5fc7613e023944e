/**
 * How the loader's columns line up for the statistics and the plots. The
 * statistics pair phases[i] with memory_available[i], cpu_percent[i] and
 * swap_percent[i], which is right only when every column has one entry per
 * record. A record abandoned part-way breaks that: its leading values stay
 * behind, shifting later records' values against their labels.
 */
module Alignment {
  import opened Wrappers
  import opened Phases
  import opened Statistics
  import opened Timeline
  import L = Loader

  /**
   * As written: one record that fails at cpu_percent, labelled baseline,
   * followed by a complete contended record. The phase column then holds both
   * labels but memory_available only the contended record's value, so the
   * baseline's statistics would be computed from the contended record's
   * memory and the contended phase's lookup is out of range (IndexError).
   */
  lemma PartialRecordMisaligns(p: L.Parsers, bad: L.Row, good: L.Row)
    requires L.ReadField(p, bad, L.Timestamps).Some?
    requires L.ReadField(p, bad, L.Phases) == Some(L.Text(Name(Baseline)))
    requires L.ReadField(p, bad, L.CpuPercent).None?
    requires L.Complete(p, good) && L.ReadField(p, good, L.Phases) == Some(L.Text(Name(Contended)))
    ensures
      var m := L.Loaded(p, [bad, good]);
      Labels(m) == [Name(Baseline), Name(Contended)] &&
      m.memoryAvailable == [L.ReadField(p, good, L.MemoryAvailable).value] &&
      IndicesOf(Labels(m), Name(Baseline)) == [0] &&
      !StatsDefined(m)
  {
    var m := L.Loaded(p, [bad, good]);
    MisalignedColumns(p, bad, good);
    TextsOfPair(Name(Baseline), Name(Contended));
    BaselineSelectsFirst();
    ShortMemoryUndefined(m);
  }

  lemma TextsOfPair(a: string, b: string)
    ensures L.Texts([L.Text(a), L.Text(b)]) == [a, b]
  {
  }

  /** A contended label in the second place with a single memory value leaves the statistics undefined. */
  lemma ShortMemoryUndefined(m: L.Metrics)
    requires |m.phases| == 2 && m.phases[1] == L.Text(Name(Contended)) && |m.memoryAvailable| == 1
    ensures !StatsDefined(m)
  {
    assert IsCanonicalName(L.TextOf(m.phases[1])) by {
      assert Name(Contended) == L.TextOf(m.phases[1]);
    }
  }

  lemma BaselineSelectsFirst()
    ensures IndicesOf([Name(Baseline), Name(Contended)], Name(Baseline)) == [0]
  {
    assert [Name(Baseline), Name(Contended)][..1] == [Name(Baseline)];
    assert [Name(Baseline)][..0] == [];
  }

  /** The two columns of the misalignment example, from the loader's column lemma. */
  lemma MisalignedColumns(p: L.Parsers, bad: L.Row, good: L.Row)
    requires L.ReadField(p, bad, L.Timestamps).Some?
    requires L.ReadField(p, bad, L.Phases) == Some(L.Text(Name(Baseline)))
    requires L.ReadField(p, bad, L.CpuPercent).None?
    requires L.Complete(p, good) && L.ReadField(p, good, L.Phases) == Some(L.Text(Name(Contended)))
    ensures
      var m := L.Loaded(p, [bad, good]);
      m.phases == [L.Text(Name(Baseline)), L.Text(Name(Contended))] &&
      L.ReadField(p, good, L.MemoryAvailable).Some? &&
      m.memoryAvailable == [L.ReadField(p, good, L.MemoryAvailable).value]
  {
    var rows := [bad, good];
    MisalignedColumnOf(p, bad, good);
    L.LoadedColumn(p, rows, L.Phases);
    L.LoadedColumn(p, rows, L.MemoryAvailable);
  }

  lemma MisalignedColumnOf(p: L.Parsers, bad: L.Row, good: L.Row)
    requires L.ReadField(p, bad, L.Timestamps).Some?
    requires L.ReadField(p, bad, L.Phases) == Some(L.Text(Name(Baseline)))
    requires L.ReadField(p, bad, L.CpuPercent).None?
    requires L.Complete(p, good) && L.ReadField(p, good, L.Phases) == Some(L.Text(Name(Contended)))
    ensures L.ColumnOf(p, [bad, good], L.Phases) == [L.Text(Name(Baseline)), L.Text(Name(Contended))]
    ensures L.ReadField(p, good, L.MemoryAvailable).Some?
    ensures L.ColumnOf(p, [bad, good], L.MemoryAvailable) == [L.ReadField(p, good, L.MemoryAvailable).value]
  {
    var rows := [bad, good];
    assert rows[..1] == [bad];
    assert [bad][..0] == [];
    StopsAtCpuPercent(p, bad);
    L.DepthFromReads(p, good, 0, L.MemoryAvailable);
    L.DepthFromReads(p, good, 0, L.Phases);
    var badPhase, goodPhase := L.Text(Name(Baseline)), L.Text(Name(Contended));
    PhaseColumnOfOne(p, bad);
    assert L.ColumnOf(p, rows, L.Phases) == L.ColumnOf(p, [bad], L.Phases) + [goodPhase];
    var goodMem := L.ReadField(p, good, L.MemoryAvailable).value;
    MemoryColumnOfOne(p, bad);
    assert L.ColumnOf(p, rows, L.MemoryAvailable) == L.ColumnOf(p, [bad], L.MemoryAvailable) + [goodMem];
  }

  lemma StopsAtCpuPercent(p: L.Parsers, bad: L.Row)
    requires L.ReadField(p, bad, L.Timestamps).Some? && L.ReadField(p, bad, L.Phases).Some?
    requires L.ReadField(p, bad, L.CpuPercent).None?
    ensures L.Depth(p, bad) == L.CpuPercent
  {
    assert L.DepthFrom(p, bad, L.CpuPercent) == L.CpuPercent;
    assert L.DepthFrom(p, bad, L.Phases) == L.CpuPercent;
  }

  lemma PhaseColumnOfOne(p: L.Parsers, bad: L.Row)
    requires L.Depth(p, bad) == L.CpuPercent && L.ReadField(p, bad, L.Phases).Some?
    ensures L.ColumnOf(p, [bad], L.Phases) == [L.ReadField(p, bad, L.Phases).value]
  {
    assert [bad][..0] == [];
  }

  lemma MemoryColumnOfOne(p: L.Parsers, bad: L.Row)
    requires L.Depth(p, bad) == L.CpuPercent
    ensures L.ColumnOf(p, [bad], L.MemoryAvailable) == []
  {
    assert [bad][..0] == [];
  }

  /** The complete records contain no record abandoned part-way. */
  lemma {:induction false} NoPartialAmongComplete(p: L.Parsers, rows: seq<L.Row>)
    ensures L.PartialCount(p, L.CompleteRows(p, rows)) == 0
  {
    if rows != [] {
      var init, last := rows[..|rows| - 1], rows[|rows| - 1];
      var before := L.CompleteRows(p, init);
      NoPartialAmongComplete(p, init);
      if L.Complete(p, last) {
        assert L.CompleteRows(p, rows) == before + [last];
        assert (before + [last])[..|before|] == before;
        assert L.PartialCount(p, before + [last]) == L.PartialCount(p, before);
      } else {
        assert L.CompleteRows(p, rows) == before;
      }
    }
  }

  /** Equal column lengths keep every index the statistics use in range. */
  lemma AlignedStatsDefined(m: L.Metrics)
    requires L.Aligned(m)
    ensures StatsDefined(m)
  {
    assert |L.Column(m, L.Phases)| == |m.timestamps|;
    assert |L.Column(m, L.MemoryAvailable)| == |m.timestamps|;
    assert |L.Column(m, L.CpuPercent)| == |m.timestamps|;
    assert |L.Column(m, L.SwapPercent)| == |m.timestamps|;
  }

  /**
   * Corrected loader: a record's values are appended only once all twenty
   * fields have parsed, so the columns stay aligned and the statistics are
   * always defined.
   */
  function LoadAtomic(p: L.Parsers, rows: seq<L.Row>): (m: L.Metrics)
    ensures L.Aligned(m)
    ensures StatsDefined(m)
    ensures |m.timestamps| == |L.CompleteRows(p, rows)|
    ensures forall k, i :: 0 <= k < L.FieldCount && 0 <= i < |m.timestamps| ==>
      Some(L.Column(m, k)[i]) == L.ReadField(p, L.CompleteRows(p, rows)[i], k)
  {
    AtomicFacts(p, rows);
    AtomicPairs(p, rows);
    L.Loaded(p, L.CompleteRows(p, rows))
  }

  /** Entry i of every column of the corrected loader comes from the i-th complete record. */
  lemma AtomicPairs(p: L.Parsers, rows: seq<L.Row>)
    ensures
      var complete := L.CompleteRows(p, rows);
      forall k, i :: 0 <= k < L.FieldCount && 0 <= i < |L.Loaded(p, complete).timestamps| ==>
        i < |L.Column(L.Loaded(p, complete), k)| && i < |complete| &&
        Some(L.Column(L.Loaded(p, complete), k)[i]) == L.ReadField(p, complete[i], k)
  {
    var complete := L.CompleteRows(p, rows);
    var m := L.Loaded(p, complete);
    AtomicFacts(p, rows);
    L.CompleteRowsComplete(p, rows);
    forall k, i | 0 <= k < L.FieldCount && 0 <= i < |m.timestamps|
      ensures i < |L.Column(m, k)| && i < |complete| && Some(L.Column(m, k)[i]) == L.ReadField(p, complete[i], k)
    {
      AtomicPair(p, complete, k, i);
    }
  }

  /** One column entry of the loader run over complete records only. */
  lemma AtomicPair(p: L.Parsers, complete: seq<L.Row>, k: nat, i: nat)
    requires forall r :: r in complete ==> L.Complete(p, r)
    requires k < L.FieldCount && i < |complete|
    ensures i < |L.Column(L.Loaded(p, complete), k)|
    ensures Some(L.Column(L.Loaded(p, complete), k)[i]) == L.ReadField(p, complete[i], k)
  {
    L.LoadedColumn(p, complete, k);
    L.ColumnOfReached(p, complete, k);
    L.FieldOfReached(p, complete, k, i);
  }

  lemma AtomicFacts(p: L.Parsers, rows: seq<L.Row>)
    ensures
      var m := L.Loaded(p, L.CompleteRows(p, rows));
      L.Aligned(m) && StatsDefined(m) && |m.timestamps| == |L.CompleteRows(p, rows)|
  {
    var complete := L.CompleteRows(p, rows);
    var m := L.Loaded(p, complete);
    NoPartialAmongComplete(p, rows);
    L.AlignedIffNoPartial(p, complete);
    AlignedStatsDefined(m);
    L.LoadedCpuSystem(p, complete);
    CompleteFieldLength(p, rows, L.CpuSystem);
    CompleteRowsIdempotent(p, rows);
    assert |m.timestamps| == |L.Column(m, L.CpuSystem)|;
  }

  /** Filtering the complete records a second time keeps them all. */
  lemma {:induction false} CompleteRowsIdempotent(p: L.Parsers, rows: seq<L.Row>)
    ensures L.CompleteRows(p, L.CompleteRows(p, rows)) == L.CompleteRows(p, rows)
  {
    if rows != [] {
      var init, last := rows[..|rows| - 1], rows[|rows| - 1];
      var before := L.CompleteRows(p, init);
      CompleteRowsIdempotent(p, init);
      if L.Complete(p, last) {
        assert L.CompleteRows(p, rows) == before + [last];
        assert (before + [last])[..|before|] == before;
      } else {
        assert L.CompleteRows(p, rows) == before;
      }
    }
  }

  /** Field k of every complete record is there. */
  lemma {:induction false} CompleteFieldLength(p: L.Parsers, rows: seq<L.Row>, k: nat)
    requires k < L.FieldCount
    ensures |L.FieldOf(p, L.CompleteRows(p, rows), k)| == |L.CompleteRows(p, rows)|
  {
    if rows != [] {
      var init, last := rows[..|rows| - 1], rows[|rows| - 1];
      var before := L.CompleteRows(p, init);
      CompleteFieldLength(p, init, k);
      if L.Complete(p, last) {
        assert L.CompleteRows(p, rows) == before + [last];
        assert (before + [last])[..|before|] == before;
        L.DepthFromReads(p, last, 0, k);
        assert L.FieldOf(p, before + [last], k) == L.FieldOf(p, before, k) + L.Cells(L.ReadField(p, last, k));
      } else {
        assert L.CompleteRows(p, rows) == before;
      }
    }
  }

  /** A record that fails at its timestamp adds nothing to the columns. */
  lemma SkippedAtTimestamp(p: L.Parsers, m: L.Metrics, row: L.Row)
    requires L.Depth(p, row) == 0
    ensures L.AppendRow(p, m, row) == m
  {
  }

  /**
   * Where no record is abandoned part-way, the loader as written and the
   * corrected one produce the same columns.
   */
  lemma {:induction false} AtomicAgreesWithoutPartial(p: L.Parsers, rows: seq<L.Row>)
    requires L.PartialCount(p, rows) == 0
    ensures L.Loaded(p, rows) == LoadAtomic(p, rows)
  {
    if rows != [] {
      var init, last := rows[..|rows| - 1], rows[|rows| - 1];
      var before := L.CompleteRows(p, init);
      assert L.PartialCount(p, init) == 0 && !L.Partial(p, last);
      AtomicAgreesWithoutPartial(p, init);
      assert L.Loaded(p, init) == L.Loaded(p, before);
      if L.Complete(p, last) {
        assert L.CompleteRows(p, rows) == before + [last];
        assert (before + [last])[..|before|] == before;
        assert L.Loaded(p, before + [last]) == L.AppendRow(p, L.Loaded(p, before), last);
      } else {
        assert L.CompleteRows(p, rows) == before;
        SkippedAtTimestamp(p, L.Loaded(p, init), last);
      }
    }
  }

  /** The loader as written always leaves the name placement in range: there are at least as many timestamps as labels. */
  lemma LoadedPositionsDefined(p: L.Parsers, rows: seq<L.Row>)
    ensures
      var m := L.Loaded(p, rows);
      PositionsDefined(L.Instants(m.timestamps), L.Texts(m.phases))
  {
    var m := L.Loaded(p, rows);
    var ts, labels := L.Instants(m.timestamps), L.Texts(m.phases);
    L.LoadedNonIncreasing(p, rows);
    assert |L.Column(m, L.Phases)| <= |L.Column(m, L.Timestamps)|;
    forall ph: Phase
      ensures Midpoint(labels, Name(ph)).Some? ==> Midpoint(labels, Name(ph)).value < |ts|
    {
      MidpointProperties(labels, Name(ph));
    }
  }
}
