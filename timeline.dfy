/**
 * The phase shading of the time-series plots (add_phase_background) and the
 * placement of the phase names over the memory plot. Timestamps are numbers.
 */
module Timeline {
  import opened Wrappers
  import opened Phases

  /** One shaded interval: the phase label and its start and stop times. */
  datatype Span = Span(phase: string, start: int, stop: int)

  /** The positions where a run of equal consecutive labels begins. */
  function RunStarts(s: seq<string>): (r: seq<nat>)
    ensures |r| <= |s|
  {
    if s == [] then []
    else
      RunStarts(s[..|s| - 1]) + (if |s| == 1 || s[|s| - 1] != s[|s| - 2] then [|s| - 1] else [])
  }

  /** A position where a new run begins: the first one, or one whose label differs from its predecessor's. */
  predicate BeginsRun(s: seq<string>, j: nat)
    requires j < |s|
  {
    j == 0 || s[j] != s[j - 1]
  }

  lemma {:induction false} RunStartsSound(s: seq<string>, k: nat)
    requires k < |RunStarts(s)|
    ensures RunStarts(s)[k] < |s| && BeginsRun(s, RunStarts(s)[k])
  {
    var init := s[..|s| - 1];
    if k < |RunStarts(init)| {
      RunStartsSound(init, k);
    }
  }

  lemma {:induction false} RunStartsComplete(s: seq<string>, j: nat)
    requires j < |s| && BeginsRun(s, j)
    ensures j in RunStarts(s)
  {
    var init := s[..|s| - 1];
    if j < |init| {
      RunStartsComplete(init, j);
    }
  }

  lemma {:induction false} RunStartsIncreasing(s: seq<string>, i: nat, j: nat)
    requires i < j < |RunStarts(s)|
    ensures RunStarts(s)[i] < RunStarts(s)[j]
  {
    var init := s[..|s| - 1];
    if j < |RunStarts(init)| {
      RunStartsIncreasing(init, i, j);
    } else {
      RunStartsSound(init, i);
    }
  }

  /** The first run begins at the first sample. */
  lemma {:induction false} RunStartsFirst(s: seq<string>)
    requires s != []
    ensures |RunStarts(s)| > 0 && RunStarts(s)[0] == 0
  {
    if |s| > 1 {
      RunStartsFirst(s[..|s| - 1]);
    }
  }

  /** Where run k ends (exclusive): the next run's start, or the end of the labels. */
  function RunEnd(s: seq<string>, k: nat): nat
    requires k < |RunStarts(s)|
  {
    if k + 1 < |RunStarts(s)| then RunStarts(s)[k + 1] else |s|
  }

  /** Every label of a run equals the label at the run's start. */
  lemma {:induction false} RunConstant(s: seq<string>, k: nat, j: nat)
    requires k < |RunStarts(s)|
    requires RunStarts(s)[k] <= j < RunEnd(s, k) <= |s|
    ensures s[j] == s[RunStarts(s)[k]]
    decreases j
  {
    var st := RunStarts(s);
    if j > st[k] {
      if BeginsRun(s, j) {
        RunStartsComplete(s, j);
        var q :| 0 <= q < |st| && st[q] == j;
        if q <= k {
          if q < k {
            RunStartsIncreasing(s, q, k);
          }
        } else if k + 1 < q {
          RunStartsIncreasing(s, k + 1, q);
        }
      } else {
        RunConstant(s, k, j - 1);
      }
    }
  }

  /** The runs are maximal: consecutive runs carry different labels. */
  lemma AdjacentRunsDiffer(s: seq<string>, k: nat)
    requires k + 1 < |RunStarts(s)|
    ensures RunStarts(s)[k] < RunStarts(s)[k + 1] < |s|
    ensures s[RunStarts(s)[k]] != s[RunStarts(s)[k + 1]]
  {
    var st := RunStarts(s);
    RunStartsSound(s, k + 1);
    RunStartsSound(s, k);
    RunStartsIncreasing(s, k, k + 1);
    RunConstant(s, k, st[k + 1] - 1);
  }

  /** All positions in st fall below n. */
  predicate Below(st: seq<nat>, n: nat)
  {
    forall k :: 0 <= k < |st| ==> st[k] < n
  }

  lemma RunStartsBelow(s: seq<string>)
    ensures Below(RunStarts(s), |s|)
  {
    forall k | 0 <= k < |RunStarts(s)|
      ensures RunStarts(s)[k] < |s|
    {
      RunStartsSound(s, k);
    }
  }

  // Total lookups for the specification functions below, which only ever
  // use positions of visited samples; the fallbacks are never reached there.

  function TimeAt(ts: seq<int>, j: nat): int
  {
    if j < |ts| then ts[j] else 0
  }

  function LabelAt(labels: seq<string>, j: nat): string
  {
    if j < |labels| then labels[j] else ""
  }

  /** The spans of every run but the last, each ending where the next begins. */
  function Closed(ts: seq<int>, labels: seq<string>, st: seq<nat>): seq<Span>
  {
    if |st| <= 1 then []
    else
      var front := st[..|st| - 1];
      var begun := front[|front| - 1];
      Closed(ts, labels, front) + [Span(LabelAt(labels, begun), TimeAt(ts, begun), TimeAt(ts, st[|st| - 1]))]
  }

  /** The number of samples the loop visits: `zip` stops at the shorter list. */
  function Visited(ts: seq<int>, labels: seq<string>): nat
  {
    if |ts| < |labels| then |ts| else |labels|
  }

  /**
   * One span per maximal run of the visited labels: a run ends where the next
   * one begins, and the last one at the last timestamp.
   */
  function AllSpans(ts: seq<int>, labels: seq<string>): seq<Span>
  {
    var st := RunStarts(labels[..Visited(ts, labels)]);
    if st == [] then []
    else
      var begun := st[|st| - 1];
      Closed(ts, labels, st) + [Span(LabelAt(labels, begun), TimeAt(ts, begun), ts[|ts| - 1])]
  }

  /** The spans whose label is not the empty string, in order. */
  function NonEmpty(spans: seq<Span>): seq<Span>
  {
    if spans == [] then []
    else
      var last := spans[|spans| - 1];
      NonEmpty(spans[..|spans| - 1]) + (if last.phase != "" then [last] else [])
  }

  /**
   * The shading loop: a span is closed whenever the label changes, and the
   * last one after the loop; runs labelled with the empty string get none.
   */
  method PhaseBackground(timestamps: seq<int>, labels: seq<string>) returns (spans: seq<Span>)
    ensures spans == NonEmpty(AllSpans(timestamps, labels))
  {
    var current: Option<string> := None;
    var start: Option<int> := None;
    spans := [];
    ghost var st: seq<nat> := [];
    for i := 0 to Visited(timestamps, labels)
      invariant st == RunStarts(labels[..i])
      invariant i == 0 ==> current == None && start == None && st == []
      invariant i > 0 ==>
        |st| > 0 && st[|st| - 1] < i && current == Some(labels[i - 1]) &&
        labels[st[|st| - 1]] == labels[i - 1] && start == Some(timestamps[st[|st| - 1]])
      invariant spans == NonEmpty(Closed(timestamps, labels, st))
    {
      var ts, phase := timestamps[i], labels[i];
      RunStartsStep(labels, i);
      if Some(phase) != current {
        if current.Some? && current.value != "" && start.Some? {
          spans := spans + [Span(current.value, start.value, ts)];
        }
        ClosedStep(timestamps, labels, st, i);
        if st != [] {
          NonEmptySnoc(Closed(timestamps, labels, st),
            Span(labels[st[|st| - 1]], timestamps[st[|st| - 1]], ts));
        }
        current := Some(phase);
        start := Some(ts);
        st := st + [i];
      }
    }
    FinalSpan(timestamps, labels, st, spans, current, start);
    if current.Some? && current.value != "" && start.Some? {
      spans := spans + [Span(current.value, start.value, timestamps[|timestamps| - 1])];
    }
  }

  /** Closing the run begun last, after the loop, completes the spans. */
  lemma FinalSpan(ts: seq<int>, labels: seq<string>, st: seq<nat>, spans: seq<Span>,
                  current: Option<string>, start: Option<int>)
    requires st == RunStarts(labels[..Visited(ts, labels)])
    requires Visited(ts, labels) == 0 ==> current == None
    requires Visited(ts, labels) > 0 ==>
      |st| > 0 && st[|st| - 1] < Visited(ts, labels) &&
      current == Some(labels[st[|st| - 1]]) && start == Some(ts[st[|st| - 1]])
    requires spans == NonEmpty(Closed(ts, labels, st))
    ensures current.Some? ==> |ts| > 0
    ensures NonEmpty(AllSpans(ts, labels)) ==
      if current.Some? && current.value != "" && start.Some?
      then spans + [Span(current.value, start.value, ts[|ts| - 1])]
      else spans
  {
    if Visited(ts, labels) > 0 {
      var begun := st[|st| - 1];
      NonEmptySnoc(Closed(ts, labels, st), Span(labels[begun], ts[begun], ts[|ts| - 1]));
    }
  }

  /** One more label begins a new run exactly when it differs from the one before. */
  lemma RunStartsStep(labels: seq<string>, i: nat)
    requires i < |labels|
    ensures RunStarts(labels[..i + 1]) ==
      RunStarts(labels[..i]) + (if BeginsRun(labels, i) then [i] else [])
  {
    assert labels[..i + 1][..i] == labels[..i];
  }

  /** Beginning run i closes the run begun last. */
  lemma ClosedStep(ts: seq<int>, labels: seq<string>, st: seq<nat>, i: nat)
    ensures st == [] ==> Closed(ts, labels, st + [i]) == []
    ensures st != [] ==>
      Closed(ts, labels, st + [i]) ==
        Closed(ts, labels, st) + [Span(LabelAt(labels, st[|st| - 1]), TimeAt(ts, st[|st| - 1]), TimeAt(ts, i))]
  {
    assert (st + [i])[..|st|] == st;
  }

  lemma NonEmptySnoc(spans: seq<Span>, x: Span)
    ensures NonEmpty(spans + [x]) == NonEmpty(spans) + (if x.phase != "" then [x] else [])
  {
    assert (spans + [x])[..|spans|] == spans;
  }

  /** Span k of the closed ones covers run k, up to the start of run k + 1. */
  lemma {:induction false} ClosedShape(ts: seq<int>, labels: seq<string>, st: seq<nat>, k: nat)
    requires Below(st, |ts|) && Below(st, |labels|) && |st| > 0
    ensures |Closed(ts, labels, st)| == |st| - 1
    ensures k + 1 < |st| ==> Closed(ts, labels, st)[k] == Span(labels[st[k]], ts[st[k]], ts[st[k + 1]])
  {
    if |st| > 1 {
      var front := st[..|st| - 1];
      ClosedShape(ts, labels, front, k);
    }
  }

  /**
   * There is one span per run of the visited labels, in order: span k carries
   * run k's label, starts at its first timestamp and stops at the next run's
   * first timestamp, or at the last timestamp for the final run.
   */
  lemma AllSpansShape(ts: seq<int>, labels: seq<string>, k: nat)
    requires k < |AllSpans(ts, labels)|
    ensures
      var st := RunStarts(labels[..Visited(ts, labels)]);
      |AllSpans(ts, labels)| == |st| &&
      0 < Visited(ts, labels) <= |ts| && Below(st, Visited(ts, labels)) &&
      AllSpans(ts, labels)[k] ==
        Span(labels[st[k]], ts[st[k]], if k + 1 < |st| then ts[st[k + 1]] else ts[|ts| - 1])
  {
    var s := labels[..Visited(ts, labels)];
    var st := RunStarts(s);
    RunStartsBelow(s);
    ClosedShape(ts, labels, st, k);
  }

  /** Some span exists exactly when some sample is visited, and the first starts at the first timestamp. */
  lemma AllSpansCover(ts: seq<int>, labels: seq<string>)
    ensures AllSpans(ts, labels) != [] <==> Visited(ts, labels) > 0
    ensures AllSpans(ts, labels) != [] ==> AllSpans(ts, labels)[0].start == ts[0]
  {
    var s := labels[..Visited(ts, labels)];
    if s != [] {
      RunStartsFirst(s);
      AllSpansShape(ts, labels, 0);
    }
  }

  /** The filter keeps exactly the spans with a non-empty label. */
  lemma {:induction false} NonEmptyMembers(spans: seq<Span>, x: Span)
    ensures x in NonEmpty(spans) <==> x in spans && x.phase != ""
  {
    if spans != [] {
      var init := spans[..|spans| - 1];
      assert spans == init + [spans[|spans| - 1]];
      NonEmptyMembers(init, x);
    }
  }

  /** Where a phase's name is placed on the memory plot. */
  datatype Position = Position(phase: Phase, time: int)

  /** `phase_positions.get(phase)` */
  function PositionOf(positions: seq<Position>, ph: Phase): Option<int>
  {
    if positions == [] then None
    else if positions[0].phase == ph then Some(positions[0].time)
    else PositionOf(positions[1..], ph)
  }

  /** `timestamps[mid_idx]` stays in range for every phase that occurs. */
  predicate PositionsDefined(ts: seq<int>, labels: seq<string>)
  {
    forall ph: Phase :: Midpoint(labels, Name(ph)).Some? ==> Midpoint(labels, Name(ph)).value < |ts|
  }

  /** The time of a phase's middle sample, None when the phase does not occur. */
  function MidTime(ts: seq<int>, labels: seq<string>, ph: Phase): Option<int>
    requires PositionsDefined(ts, labels)
  {
    match Midpoint(labels, Name(ph))
    case None => None
    case Some(i) => Some(ts[i])
  }

  /** The positions after the loop has visited the phases `phs`. */
  function PlacedIn(ts: seq<int>, labels: seq<string>, phs: seq<Phase>): seq<Position>
    requires PositionsDefined(ts, labels)
  {
    if phs == [] then []
    else PlacedIn(ts, labels, phs[..|phs| - 1]) + PlaceFor(ts, labels, phs[|phs| - 1])
  }

  function PlaceFor(ts: seq<int>, labels: seq<string>, ph: Phase): seq<Position>
    requires PositionsDefined(ts, labels)
  {
    match MidTime(ts, labels, ph)
    case Some(t) => [Position(ph, t)]
    case None => []
  }

  /** The loop placing the phase names: one position per occurring phase, in canonical order. */
  method PhasePositions(timestamps: seq<int>, labels: seq<string>) returns (positions: seq<Position>)
    requires PositionsDefined(timestamps, labels)
    ensures forall ph :: PositionOf(positions, ph) == MidTime(timestamps, labels, ph)
    ensures forall i, j :: 0 <= i < j < |positions| ==> Rank(positions[i].phase) < Rank(positions[j].phase)
  {
    positions := [];
    for n := 0 to |Canonical|
      invariant positions == PlacedIn(timestamps, labels, Canonical[..n])
    {
      var phase := Canonical[n];
      assert Canonical[..n + 1][..n] == Canonical[..n];
      var phaseIndices := IndicesOf(labels, Name(phase));
      if phaseIndices != [] {
        var midIdx := phaseIndices[|phaseIndices| / 2];
        assert Midpoint(labels, Name(phase)) == Some(midIdx);
        positions := positions + [Position(phase, timestamps[midIdx])];
      }
    }
    assert Canonical[..|Canonical|] == Canonical;
    CanonicalOrdered();
    forall ph
      ensures PositionOf(positions, ph) == MidTime(timestamps, labels, ph)
    {
      PlacedFind(timestamps, labels, Canonical, ph);
    }
    PlacedOrdered(timestamps, labels, Canonical);
  }

  lemma {:induction false} PositionOfAppend(a: seq<Position>, b: seq<Position>, ph: Phase)
    ensures PositionOf(a + b, ph) == if PositionOf(a, ph).Some? then PositionOf(a, ph) else PositionOf(b, ph)
  {
    if a == [] {
      assert a + b == b;
    } else {
      assert (a + b)[0] == a[0];
      assert (a + b)[1..] == a[1..] + b;
      PositionOfAppend(a[1..], b, ph);
    }
  }

  lemma PlaceForFind(ts: seq<int>, labels: seq<string>, ph: Phase, key: Phase)
    requires PositionsDefined(ts, labels)
    ensures PositionOf(PlaceFor(ts, labels, ph), key) == if ph == key then MidTime(ts, labels, key) else None
  {
  }

  /** After the phases `phs`, exactly those of them that occur are placed. */
  lemma {:induction false} PlacedFind(ts: seq<int>, labels: seq<string>, phs: seq<Phase>, ph: Phase)
    requires PositionsDefined(ts, labels)
    ensures PositionOf(PlacedIn(ts, labels, phs), ph) == if ph in phs then MidTime(ts, labels, ph) else None
  {
    if phs != [] {
      var init, last := phs[..|phs| - 1], phs[|phs| - 1];
      assert phs == init + [last];
      PlacedFind(ts, labels, init, ph);
      PositionOfAppend(PlacedIn(ts, labels, init), PlaceFor(ts, labels, last), ph);
      PlaceForFind(ts, labels, last, ph);
    }
  }

  /** The positions follow the order of the phases visited. */
  lemma {:induction false} PlacedOrdered(ts: seq<int>, labels: seq<string>, phs: seq<Phase>)
    requires PositionsDefined(ts, labels) && RankOrdered(phs)
    ensures forall i :: 0 <= i < |PlacedIn(ts, labels, phs)| ==> PlacedIn(ts, labels, phs)[i].phase in phs
    ensures forall i, j :: 0 <= i < j < |PlacedIn(ts, labels, phs)| ==>
      Rank(PlacedIn(ts, labels, phs)[i].phase) < Rank(PlacedIn(ts, labels, phs)[j].phase)
  {
    if phs != [] {
      var init, last := phs[..|phs| - 1], phs[|phs| - 1];
      assert phs == init + [last];
      PlacedOrdered(ts, labels, init);
      LastRanksHighest(phs);
      PlaceForPhase(ts, labels, last);
      SnocPlaced(PlacedIn(ts, labels, init), PlaceFor(ts, labels, last), init, last);
    }
  }

  /** The position added for a phase, if any, is for that phase. */
  lemma PlaceForPhase(ts: seq<int>, labels: seq<string>, ph: Phase)
    requires PositionsDefined(ts, labels)
    ensures |PlaceFor(ts, labels, ph)| <= 1
    ensures forall i :: 0 <= i < |PlaceFor(ts, labels, ph)| ==> PlaceFor(ts, labels, ph)[i].phase == ph
  {
  }

  /** Appending at most one position for a phase ranked above all earlier ones keeps the order. */
  lemma SnocPlaced(before: seq<Position>, extra: seq<Position>, init: seq<Phase>, last: Phase)
    requires forall i :: 0 <= i < |before| ==> before[i].phase in init
    requires forall i, j :: 0 <= i < j < |before| ==> Rank(before[i].phase) < Rank(before[j].phase)
    requires forall ph :: ph in init ==> Rank(ph) < Rank(last)
    requires |extra| <= 1 && forall i :: 0 <= i < |extra| ==> extra[i].phase == last
    ensures forall i :: 0 <= i < |before + extra| ==> (before + extra)[i].phase in init + [last]
    ensures forall i, j :: 0 <= i < j < |before + extra| ==>
      Rank((before + extra)[i].phase) < Rank((before + extra)[j].phase)
  {
  }

  /** A phase's name is placed at the time of a sample that carries its label. */
  lemma PositionLabelled(ts: seq<int>, labels: seq<string>, ph: Phase)
    requires PositionsDefined(ts, labels)
    ensures MidTime(ts, labels, ph).Some? <==> Name(ph) in labels
    ensures MidTime(ts, labels, ph).Some? ==>
      exists i :: 0 <= i < |labels| && i < |ts| && labels[i] == Name(ph) && ts[i] == MidTime(ts, labels, ph).value
  {
    MidpointProperties(labels, Name(ph));
  }
}
