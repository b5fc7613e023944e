# Memory QoS analysis: a verified model

This project models the analysis logic of `scripts/visualize_memory_qos.py`. That script reads a CSV of system samples
taken while a memory-bandwidth QoS experiment runs through four phases: baseline, transition, contended and
recovery. It turns them into per-phase statistics, a memory-retention percentage per phase and a verdict. The model
covers five pieces of that logic:

- **Loader** (`loader.dfy`): the `load_metrics` row loop. Each record is a map from header to cell text. The
  date-time, `float` and `int` parsers are partial functions supplied as parameters. The try block appends
  field after field to twenty columns. The first field that fails abandons the record with `continue`, and the
  values appended before it stay in place.
- **Phases** (`phases.dfy`): the four canonical phases and their labels. It also holds the index selection
  `[i for i, p in enumerate(phases) if p == phase]` and the middle index `phase_indices[len(phase_indices)//2]`.
- **Aggregates** (`aggregates.dfy`) and **Statistics** (`statistics.dfy`): `calculate_phase_statistics`. It
  computes mean, min, max and population variance of the available memory, plus the CPU and swap means. Each
  canonical phase that occurs gets an entry, and the entries are inserted in canonical order.
- **Retention** (`retention.dfy`): three things built on the retention percentage:
  - the retention bar list;
  - the comparison table and the console listing. They share one row shape and one guard;
  - the overall verdict, with its 95 % and 85 % thresholds.
- **Timeline** (`timeline.dfy`): `add_phase_background`, which splits the label sequence into maximal runs and
  shades one span per run with a non-empty label. It also covers the placement of the phase names at each
  phase's middle sample.
- **Alignment** (`alignment.dfy`): how the loader's columns line up for the statistics. This includes the
  finding below and a corrected loader.

Numbers are `real`. Date-times are integers, because the model only passes them on. The
statistics dictionary is a sequence of entries in insertion order, and `stats.get` is the first entry with the key.

Two places where the code and the design description disagree. The model follows the code in both:

- **Partial records.** The design describes bad records as discarded whole. The loader as written keeps every
  value it appended before the failing field. See the finding below.
- **Missing contended phase.** The design says no verdict is given without a contended phase. The code still
  gives one whenever the baseline average is positive. It computes retention from 0 and prints NEEDS ATTENTION.
  See `Retention.MissingContendedNeedsAttention`.

## Model

| member | source | states |
|---|---|---|
| Loader.ReadAndAppend | scripts/visualize_memory_qos.py:68-87 | One line of the try block: it appends to column k exactly when field k parses. Otherwise it leaves the columns alone and the rest of the record is skipped. |
| Loader.AppendRecord | scripts/visualize_memory_qos.py:67-89 | One record's try block yields the columns of the record-level specification `AppendRow`: fields up to the first failure appended, nothing after it. |
| Loader.LoadMetrics | scripts/visualize_memory_qos.py:41-112 | A record whose lookup or parse fails is abandoned, and the loop goes on with the next one. Column k lists field k of exactly the records that got past field k, in order. Column lengths never grow from `timestamps` to `cpu_system`. `cpu_system` holds the last field of exactly the complete records, in input order. All columns have equal length exactly when no record was abandoned part-way. |
| Loader.DepthFrom | scripts/visualize_memory_qos.py:68-87 | The field at which the try block stops lies between the field it started at and the twentieth. |
| Loader.Depth | scripts/visualize_memory_qos.py:67-89 | A record's try block stops at some field from 0 to 20, where 20 means every field parsed. |
| Loader.PutColumn | scripts/visualize_memory_qos.py:68-87 | An append to column k lengthens that column by the value and changes no other column. |
| Loader.AppendFromColumn | scripts/visualize_memory_qos.py:68-87 | From field k on, the try block appends to column j exactly when it gets past field j. |
| Loader.LoadedColumn | scripts/visualize_memory_qos.py:66-89 | Column k after the loop is field k of every record that reached it, in input order. |
| Loader.DepthFromReads | scripts/visualize_memory_qos.py:68-87 | Every field before the one the try block stops at parsed. |
| Loader.ColumnOfLength | scripts/visualize_memory_qos.py:66-89 | Column k has one entry per record that got past field k. |
| Loader.ReachingMonotone | scripts/visualize_memory_qos.py:68-87 | A record that gets past a later field got past every earlier one. |
| Loader.LoadedNonIncreasing | scripts/visualize_memory_qos.py:66-89 | len(timestamps) ≥ len(phases) ≥ … ≥ len(cpu_system), whatever the input. |
| Loader.ColumnOfLast | scripts/visualize_memory_qos.py:66-89 | The last column is the last field of exactly the complete records, in order. |
| Loader.LoadedCpuSystem | scripts/visualize_memory_qos.py:87 | After the loop, `cpu_system` is the last field of the complete records, in input order. |
| Loader.FieldOfReached | scripts/visualize_memory_qos.py:68-87 | For records that all get past field k, the list of their field-k values has one value per record. The i-th value is record i's parsed field. |
| Loader.ColumnOfReached | scripts/visualize_memory_qos.py:68-87 | For records that all get past field k, column k holds field k of every one of them. |
| Loader.CompleteRowsComplete | scripts/visualize_memory_qos.py:66-89 | Every record kept as complete parsed all twenty fields. |
| Loader.ReachingFirst | scripts/visualize_memory_qos.py:66-89 | The records that append a timestamp are the complete records plus the ones abandoned part-way. |
| Loader.AlignedIffNoPartial | scripts/visualize_memory_qos.py:66-89 | All twenty columns have the same length if and only if no record failed after its timestamp. |
| Loader.ReadFieldKind | scripts/visualize_memory_qos.py:68-87 | A parsed field has its column's kind: timestamp an instant, phase text, the two counters integers, the rest floats. |
| Loader.LoadedKind | scripts/visualize_memory_qos.py:66-89 | Every value the loop leaves in a column has that column's kind. |
| Phases.Rank | scripts/visualize_memory_qos.py:117 | Each phase sits at its own position of the canonical list. |
| Phases.CanonicalOrdered | scripts/visualize_memory_qos.py:117 | The canonical list holds every phase, in strictly increasing order. |
| Phases.NameInjective | scripts/visualize_memory_qos.py:117 | Different phases have different labels. |
| Phases.IndicesOf | scripts/visualize_memory_qos.py:121 | The selection has at most as many indices as there are samples. |
| Phases.IndicesOfSound | scripts/visualize_memory_qos.py:121 | Every selected index is a sample carrying the label. |
| Phases.IndicesOfComplete | scripts/visualize_memory_qos.py:121 | Every sample carrying the label is selected. |
| Phases.IndicesOfIncreasing | scripts/visualize_memory_qos.py:121 | The selected indices are strictly increasing, keeping sample order. |
| Phases.IndicesOfCount | scripts/visualize_memory_qos.py:121 | The number of selected indices is the number of occurrences of the label. |
| Phases.IndicesOfPrefix | scripts/visualize_memory_qos.py:121 | The selection over a prefix of the samples is a prefix of the whole selection. The indices after it lie beyond the prefix. |
| Phases.PrecedingOccurrences | scripts/visualize_memory_qos.py:193 | Exactly m samples with the label come before the m-th selected index. |
| Phases.MidpointProperties | scripts/visualize_memory_qos.py:191-193 | A middle index exists exactly when the label occurs. It holds the label, and half of the occurrences (rounded down) come before it. |
| Aggregates.Min | scripts/visualize_memory_qos.py:131 | On a non-empty list: a member of the list and no larger than any member. |
| Aggregates.Max | scripts/visualize_memory_qos.py:132 | On a non-empty list: a member of the list and no smaller than any member. |
| Aggregates.SquaredDeviation | scripts/visualize_memory_qos.py:133 | The sum of squared deviations is never negative. |
| Aggregates.SumAtLeast | scripts/visualize_memory_qos.py:130 | A sum of values each at least lo is at least the count times lo. |
| Aggregates.SumAtMost | scripts/visualize_memory_qos.py:130 | A sum of values each at most hi is at most the count times hi. |
| Aggregates.MeanBounds | scripts/visualize_memory_qos.py:130-132 | On a non-empty list, min ≤ mean ≤ max. |
| Aggregates.VarianceNonNegative | scripts/visualize_memory_qos.py:133 | The population variance (the quantity under the square root of `memory_std`) is never negative. |
| Statistics.SelectedInRange | scripts/visualize_memory_qos.py:125-127 | When the value columns cover every canonically labelled sample, every index a phase selects is in range of all three columns. |
| Statistics.CalculatePhaseStatistics | scripts/visualize_memory_qos.py:115-139 | Looking up any phase gives the summary over exactly its samples, or nothing when it does not occur. Labels outside the four phases contribute nothing. Keys are inserted in canonical order. |
| Statistics.FindAppend | scripts/visualize_memory_qos.py:129 | Looking up a key after later insertions finds the earlier entry if there is one. |
| Statistics.CollectedFind | scripts/visualize_memory_qos.py:120-137 | After the loop has visited a list of phases, exactly the occurring phases among them have their summary as entry. |
| Statistics.CollectedOrdered | scripts/visualize_memory_qos.py:120-129 | The entries are for visited phases, in the order the phases were visited. |
| Statistics.PresenceAndSamples | scripts/visualize_memory_qos.py:120-136 | A phase has an entry exactly when its label occurs. The entry's `samples` is the number of occurrences, so it is at least 1. |
| Statistics.EntryBounds | scripts/visualize_memory_qos.py:125-133 | Every entry has memory_min ≤ memory_avg ≤ memory_max and a non-negative variance. |
| Statistics.EntryAverages | scripts/visualize_memory_qos.py:125-136 | `samples` is the number of selected indices. Each average is the sum over exactly those indices divided by `samples`. |
| Statistics.OnlyLabelledSamplesCount | scripts/visualize_memory_qos.py:121-135 | Values of samples with other labels do not affect a phase's entry. |
| Retention.Retention | scripts/visualize_memory_qos.py:328 | With a positive baseline, retention × baseline = average × 100. Otherwise retention is 0. |
| Retention.BaselineRetainsAll | scripts/visualize_memory_qos.py:324-328 | With a positive baseline the baseline's own retention is exactly 100. |
| Retention.RetentionMonotone | scripts/visualize_memory_qos.py:328 | Against a fixed positive baseline, more memory never gives less retention. |
| Retention.RetentionAtLeast | scripts/visualize_memory_qos.py:419-427 | Retention reaches t percent exactly when the average is at least t percent of the baseline. |
| Retention.PresentInMembers | scripts/visualize_memory_qos.py:325-326 | The phases kept from a list are exactly those in the list that have an entry. |
| Retention.PresentInOrdered | scripts/visualize_memory_qos.py:325-326 | Keeping some of an ordered list of phases keeps their order. |
| Retention.PresentPhases | scripts/visualize_memory_qos.py:325-326 | The phases visited with `if phase in stats` are exactly those with an entry, in canonical order. |
| Retention.RetentionBars | scripts/visualize_memory_qos.py:289-297 | Without a positive baseline there are no bars. Otherwise there is one bar per phase with an entry, in canonical order, with its upper-case name and its retention. |
| Retention.PhaseReport | scripts/visualize_memory_qos.py:324-336 | One row per phase with an entry, in canonical order, carrying that entry's values and its guarded retention. |
| Retention.SummaryTable | scripts/visualize_memory_qos.py:320-336 | A table exists exactly when there are statistics. Its rows are the per-phase report. |
| Retention.NoBaselineNoRetention | scripts/visualize_memory_qos.py:324-328 | Without a positive baseline every row reports a retention of 0. |
| Retention.BaselineRowReportsAll | scripts/visualize_memory_qos.py:324-328 | With a positive baseline the baseline's row reports 100. |
| Retention.Classify | scripts/visualize_memory_qos.py:422-427 | EXCELLENT if and only if r ≥ 95. GOOD if and only if 85 ≤ r < 95. NEEDS ATTENTION if and only if r < 85. |
| Retention.ClassifyMonotone | scripts/visualize_memory_qos.py:422-427 | A higher retention never gets a worse verdict. |
| Retention.AssessmentMeaning | scripts/visualize_memory_qos.py:418-427 | An assessment is given exactly when the baseline average is positive. Its retention is the contended average (0 if absent) over the baseline, times 100. Its verdict is the classification of that retention. It is EXCELLENT exactly when the contended average keeps 95 % of the baseline's, and better than NEEDS ATTENTION exactly when it keeps 85 %. |
| Retention.MissingContendedNeedsAttention | scripts/visualize_memory_qos.py:419-427 | With a positive baseline and no contended entry, the verdict is still given: retention 0, NEEDS ATTENTION. |
| Retention.AssessmentMatchesReport | scripts/visualize_memory_qos.py:394-419 | The verdict's retention equals the retention the contended row of the listing reports. |
| Timeline.RunStarts | scripts/visualize_memory_qos.py:166-171 | There are no more runs than labels. |
| Timeline.RunStartsSound | scripts/visualize_memory_qos.py:167 | Every run start is the first label or a label that differs from its predecessor. |
| Timeline.RunStartsComplete | scripts/visualize_memory_qos.py:167 | Every label that differs from its predecessor, and the first label, starts a run. |
| Timeline.RunStartsIncreasing | scripts/visualize_memory_qos.py:166-171 | Run starts are strictly increasing. |
| Timeline.RunStartsFirst | scripts/visualize_memory_qos.py:164-171 | A non-empty label sequence has a first run starting at the first sample. |
| Timeline.RunConstant | scripts/visualize_memory_qos.py:167 | Every label inside a run equals the run's first label. |
| Timeline.AdjacentRunsDiffer | scripts/visualize_memory_qos.py:167-171 | Consecutive runs carry different labels, so the runs are maximal. |
| Timeline.RunStartsBelow | scripts/visualize_memory_qos.py:166 | Every run start is a position of the sequence. |
| Timeline.PhaseBackground | scripts/visualize_memory_qos.py:163-173 | The shaded spans are the spans of the maximal runs of the visited labels, in order, minus those whose label is empty. |
| Timeline.FinalSpan | scripts/visualize_memory_qos.py:172-173 | Closing the last run at `timestamps[-1]` after the loop completes the spans. |
| Timeline.ClosedStep | scripts/visualize_memory_qos.py:167-171 | A label change closes the span of the run begun last, ending at the current timestamp. |
| Timeline.NonEmptySnoc | scripts/visualize_memory_qos.py:168 | A span is drawn exactly when its label is not empty. |
| Timeline.ClosedShape | scripts/visualize_memory_qos.py:167-171 | Each closed span covers its run, from its first timestamp to the next run's first timestamp. |
| Timeline.AllSpansShape | scripts/visualize_memory_qos.py:166-173 | There is one span per run, in order. Span k carries run k's label and starts at run k's first timestamp. It stops at the next run's first timestamp, or for the final run at the last timestamp. |
| Timeline.AllSpansCover | scripts/visualize_memory_qos.py:166-173 | Some span exists exactly when some sample is visited. The first span starts at the first timestamp. |
| Timeline.NonEmptyMembers | scripts/visualize_memory_qos.py:168-172 | A span is shaded exactly when it is a run's span with a non-empty label. |
| Timeline.PhasePositions | scripts/visualize_memory_qos.py:189-194 | Any phase's position is the timestamp of its middle sample, or absent when it does not occur. Positions are inserted in canonical order. |
| Timeline.PositionOfAppend | scripts/visualize_memory_qos.py:194 | Looking up a phase after later insertions finds the earlier position if there is one. |
| Timeline.PlacedFind | scripts/visualize_memory_qos.py:190-194 | After the loop has visited a list of phases, exactly the occurring phases among them are placed, at their middle sample. |
| Timeline.PlacedOrdered | scripts/visualize_memory_qos.py:190-194 | The positions are for visited phases, in the order visited. |
| Timeline.PositionLabelled | scripts/visualize_memory_qos.py:191-194 | A phase is placed exactly when its label occurs, at the timestamp of a sample carrying that label. |
| Alignment.PartialRecordMisaligns | scripts/visualize_memory_qos.py:66-89 | As written: a baseline record failing at `cpu_percent`, then a complete contended record. The labels are [baseline, contended] but `memory_available` holds only the contended value. The baseline selects index 0, the contended value, and the statistics' indexing is out of range. |
| Alignment.AlignedStatsDefined | scripts/visualize_memory_qos.py:125-127 | Equal column lengths keep every index the statistics use in range. |
| Alignment.NoPartialAmongComplete | scripts/visualize_memory_qos.py:66-89 | The complete records include no record abandoned part-way. |
| Alignment.CompleteRowsIdempotent | scripts/visualize_memory_qos.py:66-89 | Filtering the complete records again keeps them all. |
| Alignment.CompleteFieldLength | scripts/visualize_memory_qos.py:68-87 | Every complete record contributes each of its fields. |
| Alignment.LoadAtomic | scripts/visualize_memory_qos.py:66-89 | Corrected loader, which appends a record only once all twenty fields parsed. Its columns are aligned, with one entry per complete record, and the statistics are always defined. Entry i of every column is the parsed field of the i-th complete record, so each label is paired with its own record's values. |
| Alignment.AtomicPairs | scripts/visualize_memory_qos.py:66-89 | Loading only the complete records puts the i-th complete record's field k at position i of column k, for every column. |
| Alignment.AtomicPair | scripts/visualize_memory_qos.py:68-87 | For complete records, entry i of column k is record i's parsed field k. |
| Alignment.AtomicFacts | scripts/visualize_memory_qos.py:66-89 | Loading only the complete records gives aligned columns of their number, and defined statistics. |
| Alignment.SkippedAtTimestamp | scripts/visualize_memory_qos.py:68 | A record whose timestamp fails adds nothing to any column. |
| Alignment.AtomicAgreesWithoutPartial | scripts/visualize_memory_qos.py:66-89 | When no record fails after its timestamp, the loader as written and the corrected loader give the same columns. |
| Alignment.LoadedPositionsDefined | scripts/visualize_memory_qos.py:189-194 | For any input the loader as written leaves at least as many timestamps as labels. So `timestamps[mid_idx]` is always in range. |

## Left out

- Plotting: all matplotlib and seaborn axes, colours, the phase-name text boxes and `savefig`. Only the lists the
  chart and table code compute are modelled. The colour lists and the table's row colouring are left out.
- File and CSV I/O, `csv.DictReader`, `datetime.fromisoformat`, `float()` and `int()`. Records are maps from
  header to text. The three parsers are partial functions passed in as parameters. Date-times are integers.
- The square root of `memory_std` and floating-point rounding. Numbers are reals, and the model stops at the
  population variance.
- The command line: `argparse`, the file-existence check, output naming, the "No valid metrics found" exit on an
  empty timestamp list, the virtualenv re-exec and the matplotlib import guard. Also the print formatting.
- The console listing and the comparison table compute the same rows under the same guard. Both are modelled
  once, by `Retention.PhaseReport`.
- The bar chart's y-limit `max(105, max(retention_list) * 1.1)` is left out. With a baseline entry but no positive
  baseline average, that list is empty and `max` raises an error. This is reachable only when the baseline
  phase's average available memory is not positive.
- Loader.LoadMetrics: a line with fewer cells than the header gives `None` for the missing cells. The parsers then raise TypeError, which the `except (ValueError, KeyError)` does not catch, ending `load_metrics` and the whole run. This is not modelled: every cell is text, and a failed lookup or parse is always one of the two caught errors.
- Statistics.CalculatePhaseStatistics: requires that every sample labelled with a canonical phase has memory, CPU
  and swap values (`StatsDefined`). Without that the source raises IndexError, which is not modelled as a result.
  The loader as written does not guarantee it (see the finding). The corrected loader does.
- Timeline.PhasePositions: requires every middle index to be below the number of timestamps. The loader as
  written always guarantees it (`Alignment.LoadedPositionsDefined`).
- Timeline.PhaseBackground: `if current_phase and phase_start` after the loop is read as "a phase and a start
  exist", because a date-time object is always truthy. With integer timestamps a 0 would otherwise be falsy.

## Findings

| source | as written | input that shows it | evidently intended | confidence | as-written member | corrected member |
|---|---|---|---|---|---|---|
| scripts/visualize_memory_qos.py:66-89 | Each field is appended as soon as it parses, so a record failing part-way leaves its earlier values in the columns. The statistics then pair `phases[i]` with another record's memory, CPU and swap values, or index past the end of those columns. | A record with a valid timestamp and phase `baseline` but an unparsable `cpu_percent`, followed by a complete `contended` record. `phases` is [baseline, contended] and `memory_available` has one value, the contended record's. The baseline's statistics use that value, and the contended lookup raises IndexError. | A record is kept only when all its fields parse, so all columns have one entry per kept record. | not executed | Alignment.PartialRecordMisaligns | Alignment.LoadAtomic |
