/**
 * The four canonical test phases and the selection of the samples that carry
 * a given phase label.
 */
module Phases {
  import opened Wrappers

  /** The phases the analysis knows, in the order it always visits them. */
  datatype Phase = Baseline | Transition | Contended | Recovery

  const Canonical: seq<Phase> := [Baseline, Transition, Contended, Recovery]

  /** The label the collector writes into the `phase` column. */
  function Name(ph: Phase): string
  {
    match ph
    case Baseline => "baseline"
    case Transition => "transition"
    case Contended => "contended"
    case Recovery => "recovery"
  }

  /** The label shown on bars, in the table and in the console (`phase.upper()`). */
  function Upper(ph: Phase): string
  {
    match ph
    case Baseline => "BASELINE"
    case Transition => "TRANSITION"
    case Contended => "CONTENDED"
    case Recovery => "RECOVERY"
  }

  /** The position of a phase in the canonical order. */
  function Rank(ph: Phase): (r: nat)
    ensures r < |Canonical| && Canonical[r] == ph
  {
    match ph
    case Baseline => 0
    case Transition => 1
    case Contended => 2
    case Recovery => 3
  }

  /** Phases listed in strictly increasing canonical position. */
  predicate RankOrdered(phs: seq<Phase>)
  {
    forall i, j :: 0 <= i < j < |phs| ==> Rank(phs[i]) < Rank(phs[j])
  }

  /** The canonical list holds every phase once, in canonical order. */
  lemma CanonicalOrdered()
    ensures RankOrdered(Canonical)
    ensures forall ph :: ph in Canonical
  {
    forall ph
      ensures ph in Canonical
    {
      assert Canonical[Rank(ph)] == ph;
    }
  }

  /** The last phase of an ordered list ranks above every earlier one. */
  lemma LastRanksHighest(phs: seq<Phase>)
    requires phs != [] && RankOrdered(phs)
    ensures RankOrdered(phs[..|phs| - 1])
    ensures forall ph :: ph in phs[..|phs| - 1] ==> Rank(ph) < Rank(phs[|phs| - 1])
  {
    var init := phs[..|phs| - 1];
    forall ph | ph in init
      ensures Rank(ph) < Rank(phs[|phs| - 1])
    {
      var a :| 0 <= a < |init| && init[a] == ph;
      assert phs[a] == init[a];
    }
  }

  /** Different phases have different labels. */
  lemma NameInjective(a: Phase, b: Phase)
    ensures Name(a) == Name(b) <==> a == b
  {
  }

  /** A label that names one of the canonical phases. */
  predicate IsCanonicalName(s: string)
  {
    exists ph: Phase :: Name(ph) == s
  }

  /** The number of samples labelled `name`. */
  function Occurrences(labels: seq<string>, name: string): nat
  {
    multiset(labels)[name]
  }

  /**
   * The positions of the samples labelled `name`
   * (the comprehension `[i for i, p in enumerate(labels) if p == name]`).
   */
  function IndicesOf(labels: seq<string>, name: string): (r: seq<nat>)
    ensures |r| <= |labels|
  {
    if labels == [] then []
    else
      IndicesOf(labels[..|labels| - 1], name) + (if labels[|labels| - 1] == name then [|labels| - 1] else [])
  }

  /** Every selected position is a sample labelled `name`. */
  lemma {:induction false} IndicesOfSound(labels: seq<string>, name: string, i: nat)
    requires i < |IndicesOf(labels, name)|
    ensures IndicesOf(labels, name)[i] < |labels| && labels[IndicesOf(labels, name)[i]] == name
  {
    var init := labels[..|labels| - 1];
    if i < |IndicesOf(init, name)| {
      IndicesOfSound(init, name, i);
    }
  }

  /** Every sample labelled `name` is selected. */
  lemma {:induction false} IndicesOfComplete(labels: seq<string>, name: string, j: nat)
    requires j < |labels| && labels[j] == name
    ensures j in IndicesOf(labels, name)
  {
    var init := labels[..|labels| - 1];
    if j < |init| {
      IndicesOfComplete(init, name, j);
    }
  }

  /** The selected positions keep the order of the samples. */
  lemma {:induction false} IndicesOfIncreasing(labels: seq<string>, name: string, i: nat, j: nat)
    requires i < j < |IndicesOf(labels, name)|
    ensures IndicesOf(labels, name)[i] < IndicesOf(labels, name)[j]
  {
    var init := labels[..|labels| - 1];
    if j < |IndicesOf(init, name)| {
      IndicesOfIncreasing(init, name, i, j);
    } else {
      IndicesOfSound(init, name, i);
    }
  }

  /** As many positions are selected as there are samples labelled `name`. */
  lemma {:induction false} IndicesOfCount(labels: seq<string>, name: string)
    ensures |IndicesOf(labels, name)| == Occurrences(labels, name)
  {
    if labels != [] {
      var init := labels[..|labels| - 1];
      assert labels == init + [labels[|labels| - 1]];
      IndicesOfCount(init, name);
    }
  }

  /**
   * The positions selected from the first n samples are the first ones
   * selected from all samples; every later one is at least n.
   */
  lemma {:induction false} IndicesOfPrefix(labels: seq<string>, name: string, n: nat)
    requires n <= |labels|
    ensures IndicesOf(labels[..n], name) <= IndicesOf(labels, name)
    ensures forall i :: |IndicesOf(labels[..n], name)| <= i < |IndicesOf(labels, name)| ==>
      IndicesOf(labels, name)[i] >= n
  {
    if n == |labels| {
      assert labels[..n] == labels;
    } else {
      var init := labels[..|labels| - 1];
      assert init[..n] == labels[..n];
      IndicesOfPrefix(init, name, n);
    }
  }

  /** Exactly m samples labelled `name` come before the m-th one. */
  lemma PrecedingOccurrences(labels: seq<string>, name: string, m: nat)
    requires m < |IndicesOf(labels, name)|
    ensures IndicesOf(labels, name)[m] < |labels|
    ensures Occurrences(labels[..IndicesOf(labels, name)[m]], name) == m
  {
    var r := IndicesOf(labels, name);
    IndicesOfSound(labels, name, m);
    var n := r[m];
    IndicesOfPrefix(labels, name, n);
    var rf := IndicesOf(labels[..n], name);
    IndicesOfCount(labels[..n], name);
    if |rf| > m {
      IndicesOfSound(labels[..n], name, m);
    } else if |rf| < m {
      IndicesOfIncreasing(labels, name, |rf|, m);
    }
  }

  /**
   * The sample whose timestamp labels a phase: the middle occurrence of its
   * label (`phase_indices[len(phase_indices) // 2]`), or None when the label
   * does not occur.
   */
  function Midpoint(labels: seq<string>, name: string): Option<nat>
  {
    var r := IndicesOf(labels, name);
    if r == [] then None else Some(r[|r| / 2])
  }

  /**
   * The midpoint exists exactly when the label occurs; it is a sample with
   * that label, and half of the label's occurrences (rounded down) precede it.
   */
  lemma MidpointProperties(labels: seq<string>, name: string)
    ensures Midpoint(labels, name).Some? <==> name in labels
    ensures Midpoint(labels, name).Some? ==>
      var i := Midpoint(labels, name).value;
      i < |labels| && labels[i] == name &&
      Occurrences(labels[..i], name) == Occurrences(labels, name) / 2
  {
    var r := IndicesOf(labels, name);
    if name in labels {
      var j :| 0 <= j < |labels| && labels[j] == name;
      IndicesOfComplete(labels, name, j);
    }
    if r != [] {
      IndicesOfSound(labels, name, |r| / 2);
      IndicesOfCount(labels, name);
      PrecedingOccurrences(labels, name, |r| / 2);
    }
  }
}
