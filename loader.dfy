/**
 * The CSV loader (load_metrics). Every record is read field by field in a
 * fixed order; each parsed value is appended to its column as soon as it is
 * parsed, and a record whose parse fails part-way is abandoned with
 * `continue`, leaving the values appended before the failure in place.
 */
module Loader {
  import opened Wrappers

  /** One record as the dictionary reader yields it: header name to cell text. */
  type Row = map<string, string>

  /**
   * The library parsers the loop body calls. Each one fails (a ValueError)
   * by returning None; a parsed date-time is represented by a number.
   */
  datatype Parsers = Parsers(
    isoTime: string -> Option<int>,
    float: string -> Option<real>,
    integer: string -> Option<int>)

  // A lookup of a missing key is a KeyError, a rejected cell a ValueError:
  // both end the record's try block, so both are None here.

  function TimeField(p: Parsers, row: Row, key: string): Option<int>
  {
    if key in row then p.isoTime(row[key]) else None
  }

  function TextField(row: Row, key: string): Option<string>
  {
    if key in row then Some(row[key]) else None
  }

  function FloatField(p: Parsers, row: Row, key: string): Option<real>
  {
    if key in row then p.float(row[key]) else None
  }

  function IntField(p: Parsers, row: Row, key: string): Option<int>
  {
    if key in row then p.integer(row[key]) else None
  }

  /** One parsed value, tagged with the kind of its column. */
  datatype Cell = Instant(time: int) | Text(text: string) | Number(number: real) | Count(count: int)

  /** The twenty column lists of the returned dictionary, in declaration order. */
  datatype Metrics = Metrics(
    timestamps: seq<Cell>,
    phases: seq<Cell>,
    cpuPercent: seq<Cell>,
    memoryPercent: seq<Cell>,
    memoryAvailable: seq<Cell>,
    memoryUsed: seq<Cell>,
    memoryCached: seq<Cell>,
    memoryBuffers: seq<Cell>,
    swapUsed: seq<Cell>,
    swapPercent: seq<Cell>,
    ioRead: seq<Cell>,
    ioWrite: seq<Cell>,
    cpuFreq: seq<Cell>,
    loadAvg1m: seq<Cell>,
    loadAvg5m: seq<Cell>,
    loadAvg15m: seq<Cell>,
    contextSwitches: seq<Cell>,
    interrupts: seq<Cell>,
    cpuUser: seq<Cell>,
    cpuSystem: seq<Cell>)

  const NoMetrics := Metrics([], [], [], [], [], [], [], [], [], [], [], [], [], [], [], [], [], [], [], [])

  /** The number of fields the try block reads, and of columns it fills. */
  const FieldCount: nat := 20

  // The position of each field in the try block, which is also the position
  // of the column its value is appended to.
  const Timestamps: nat := 0
  const Phases: nat := 1
  const CpuPercent: nat := 2
  const MemoryPercent: nat := 3
  const MemoryAvailable: nat := 4
  const MemoryUsed: nat := 5
  const MemoryCached: nat := 6
  const MemoryBuffers: nat := 7
  const SwapUsed: nat := 8
  const SwapPercent: nat := 9
  const IoRead: nat := 10
  const IoWrite: nat := 11
  const CpuFreq: nat := 12
  const LoadAvg1m: nat := 13
  const LoadAvg5m: nat := 14
  const LoadAvg15m: nat := 15
  const ContextSwitches: nat := 16
  const Interrupts: nat := 17
  const CpuUser: nat := 18
  const CpuSystem: nat := 19

  /** Column j of the metrics, by position. */
  function Column(m: Metrics, j: nat): seq<Cell>
  {
    match j
    case 0 => m.timestamps
    case 1 => m.phases
    case 2 => m.cpuPercent
    case 3 => m.memoryPercent
    case 4 => m.memoryAvailable
    case 5 => m.memoryUsed
    case 6 => m.memoryCached
    case 7 => m.memoryBuffers
    case 8 => m.swapUsed
    case 9 => m.swapPercent
    case 10 => m.ioRead
    case 11 => m.ioWrite
    case 12 => m.cpuFreq
    case 13 => m.loadAvg1m
    case 14 => m.loadAvg5m
    case 15 => m.loadAvg15m
    case 16 => m.contextSwitches
    case 17 => m.interrupts
    case 18 => m.cpuUser
    case 19 => m.cpuSystem
    case _ => []
  }

  /** The append to column k. */
  function Put(m: Metrics, k: nat, c: Cell): Metrics
  {
    match k
    case 0 => m.(timestamps := m.timestamps + [c])
    case 1 => m.(phases := m.phases + [c])
    case 2 => m.(cpuPercent := m.cpuPercent + [c])
    case 3 => m.(memoryPercent := m.memoryPercent + [c])
    case 4 => m.(memoryAvailable := m.memoryAvailable + [c])
    case 5 => m.(memoryUsed := m.memoryUsed + [c])
    case 6 => m.(memoryCached := m.memoryCached + [c])
    case 7 => m.(memoryBuffers := m.memoryBuffers + [c])
    case 8 => m.(swapUsed := m.swapUsed + [c])
    case 9 => m.(swapPercent := m.swapPercent + [c])
    case 10 => m.(ioRead := m.ioRead + [c])
    case 11 => m.(ioWrite := m.ioWrite + [c])
    case 12 => m.(cpuFreq := m.cpuFreq + [c])
    case 13 => m.(loadAvg1m := m.loadAvg1m + [c])
    case 14 => m.(loadAvg5m := m.loadAvg5m + [c])
    case 15 => m.(loadAvg15m := m.loadAvg15m + [c])
    case 16 => m.(contextSwitches := m.contextSwitches + [c])
    case 17 => m.(interrupts := m.interrupts + [c])
    case 18 => m.(cpuUser := m.cpuUser + [c])
    case 19 => m.(cpuSystem := m.cpuSystem + [c])
    case _ => m
  }

  /** The header of the field the try block reads k-th. */
  function Key(k: nat): string
  {
    match k
    case 0 => "timestamp"
    case 1 => "phase"
    case 2 => "cpu_percent"
    case 3 => "memory_percent"
    case 4 => "memory_available_gb"
    case 5 => "memory_used_gb"
    case 6 => "memory_cached_gb"
    case 7 => "memory_buffers_gb"
    case 8 => "swap_used_gb"
    case 9 => "swap_percent"
    case 10 => "io_read_mb_s"
    case 11 => "io_write_mb_s"
    case 12 => "cpu_freq_mhz"
    case 13 => "load_avg_1m"
    case 14 => "load_avg_5m"
    case 15 => "load_avg_15m"
    case 16 => "context_switches"
    case 17 => "interrupts"
    case 18 => "cpu_user"
    case 19 => "cpu_system"
    case _ => ""
  }

  /** Cell c has the kind of value stored in column k. */
  predicate OfKind(k: nat, c: Cell)
  {
    if k == 0 then c.Instant?
    else if k == 1 then c.Text?
    else if k == 16 || k == 17 then c.Count?
    else c.Number?
  }

  /**
   * Field k of a record, parsed as its column's kind: a date-time, the raw
   * text, an integer or a float; None when the lookup or the parse fails.
   */
  function ReadField(p: Parsers, row: Row, k: nat): Option<Cell>
    requires k < FieldCount
  {
    if k == 0 then
      (match TimeField(p, row, Key(k)) case Some(t) => Some(Instant(t)) case None => None)
    else if k == 1 then
      (match TextField(row, Key(k)) case Some(s) => Some(Text(s)) case None => None)
    else if k == 16 || k == 17 then
      (match IntField(p, row, Key(k)) case Some(n) => Some(Count(n)) case None => None)
    else
      (match FloatField(p, row, Key(k)) case Some(x) => Some(Number(x)) case None => None)
  }

  /** The parsed value as a list: empty when the lookup or the parse fails. */
  function Cells(r: Option<Cell>): seq<Cell>
  {
    match r
    case None => []
    case Some(c) => [c]
  }

  /**
   * Where the try block, entered at field k, stops: the first field from k on
   * that fails, or FieldCount when none does.
   */
  function DepthFrom(p: Parsers, row: Row, k: nat): (d: nat)
    requires k <= FieldCount
    ensures k <= d <= FieldCount
    decreases FieldCount - k
  {
    if k == FieldCount || ReadField(p, row, k).None? then k else DepthFrom(p, row, k + 1)
  }

  /** How far the try block gets in a record. */
  function Depth(p: Parsers, row: Row): (d: nat)
    ensures d <= FieldCount
  {
    DepthFrom(p, row, 0)
  }

  /** A record whose twenty fields all parse. */
  predicate Complete(p: Parsers, row: Row)
  {
    Depth(p, row) == FieldCount
  }

  /** A record abandoned after some but not all of its values were appended. */
  predicate Partial(p: Parsers, row: Row)
  {
    0 < Depth(p, row) < FieldCount
  }

  /** The try block from field k on: append field after field until one fails. */
  function AppendFrom(p: Parsers, m: Metrics, row: Row, k: nat): Metrics
    requires k <= FieldCount
    decreases FieldCount - k
  {
    if k == FieldCount then m
    else match ReadField(p, row, k)
      case None => m
      case Some(c) => AppendFrom(p, Put(m, k, c), row, k + 1)
  }

  /** One pass of the try block over a record. */
  function AppendRow(p: Parsers, m: Metrics, row: Row): Metrics
  {
    AppendFrom(p, m, row, 0)
  }

  /** The columns after the loop has consumed `rows`. */
  function Loaded(p: Parsers, rows: seq<Row>): Metrics
  {
    if rows == [] then NoMetrics
    else AppendRow(p, Loaded(p, rows[..|rows| - 1]), rows[|rows| - 1])
  }

  /**
   * What column k should hold after `rows`: field k of each record, in input
   * order, for the records whose parse got past field k.
   */
  function ColumnOf(p: Parsers, rows: seq<Row>, k: nat): seq<Cell>
    requires k < FieldCount
  {
    if rows == [] then []
    else
      var last := rows[|rows| - 1];
      ColumnOf(p, rows[..|rows| - 1], k) + (if Depth(p, last) > k then Cells(ReadField(p, last, k)) else [])
  }

  /** The number of records whose parse got past field k. */
  function Reaching(p: Parsers, rows: seq<Row>, k: nat): nat
  {
    if rows == [] then 0
    else Reaching(p, rows[..|rows| - 1], k) + (if Depth(p, rows[|rows| - 1]) > k then 1 else 0)
  }

  /** The number of records abandoned part-way. */
  function PartialCount(p: Parsers, rows: seq<Row>): nat
  {
    if rows == [] then 0
    else PartialCount(p, rows[..|rows| - 1]) + (if Partial(p, rows[|rows| - 1]) then 1 else 0)
  }

  /** The complete records, in input order. */
  function CompleteRows(p: Parsers, rows: seq<Row>): seq<Row>
  {
    if rows == [] then []
    else CompleteRows(p, rows[..|rows| - 1]) + (if Complete(p, rows[|rows| - 1]) then [rows[|rows| - 1]] else [])
  }

  /** Field k of each record in `rows`, in order. */
  function FieldOf(p: Parsers, rows: seq<Row>, k: nat): seq<Cell>
    requires k < FieldCount
  {
    if rows == [] then []
    else FieldOf(p, rows[..|rows| - 1], k) + Cells(ReadField(p, rows[|rows| - 1], k))
  }

  /** All columns have the same length. */
  predicate Aligned(m: Metrics)
  {
    forall k :: 0 <= k < FieldCount ==> |Column(m, k)| == |m.timestamps|
  }

  /**
   * One line of the try block: look up field k, parse it and append the value
   * to column k; `parsed` is false when the lookup or the parse raises.
   */
  method ReadAndAppend(p: Parsers, m0: Metrics, row: Row, k: nat) returns (m: Metrics, parsed: bool)
    requires k < FieldCount
    ensures parsed == ReadField(p, row, k).Some?
    ensures m == if parsed then Put(m0, k, ReadField(p, row, k).value) else m0
    ensures AppendFrom(p, m0, row, k) == if parsed then AppendFrom(p, m, row, k + 1) else m
  {
    var cell := ReadField(p, row, k);
    if cell.None? {
      return m0, false;
    }
    m, parsed := Put(m0, k, cell.value), true;
  }

  /** The try block of load_metrics for one record: the first line that raises abandons the rest. */
  method AppendRecord(p: Parsers, m0: Metrics, row: Row) returns (m: Metrics)
    ensures m == AppendRow(p, m0, row)
  {
    var parsed: bool;
    m := m0;
    m, parsed := ReadAndAppend(p, m, row, Timestamps);
    if !parsed { return; }
    m, parsed := ReadAndAppend(p, m, row, Phases);
    if !parsed { return; }
    m, parsed := ReadAndAppend(p, m, row, CpuPercent);
    if !parsed { return; }
    m, parsed := ReadAndAppend(p, m, row, MemoryPercent);
    if !parsed { return; }
    m, parsed := ReadAndAppend(p, m, row, MemoryAvailable);
    if !parsed { return; }
    m, parsed := ReadAndAppend(p, m, row, MemoryUsed);
    if !parsed { return; }
    m, parsed := ReadAndAppend(p, m, row, MemoryCached);
    if !parsed { return; }
    m, parsed := ReadAndAppend(p, m, row, MemoryBuffers);
    if !parsed { return; }
    m, parsed := ReadAndAppend(p, m, row, SwapUsed);
    if !parsed { return; }
    m, parsed := ReadAndAppend(p, m, row, SwapPercent);
    if !parsed { return; }
    m, parsed := ReadAndAppend(p, m, row, IoRead);
    if !parsed { return; }
    m, parsed := ReadAndAppend(p, m, row, IoWrite);
    if !parsed { return; }
    m, parsed := ReadAndAppend(p, m, row, CpuFreq);
    if !parsed { return; }
    m, parsed := ReadAndAppend(p, m, row, LoadAvg1m);
    if !parsed { return; }
    m, parsed := ReadAndAppend(p, m, row, LoadAvg5m);
    if !parsed { return; }
    m, parsed := ReadAndAppend(p, m, row, LoadAvg15m);
    if !parsed { return; }
    m, parsed := ReadAndAppend(p, m, row, ContextSwitches);
    if !parsed { return; }
    m, parsed := ReadAndAppend(p, m, row, Interrupts);
    if !parsed { return; }
    m, parsed := ReadAndAppend(p, m, row, CpuUser);
    if !parsed { return; }
    m, parsed := ReadAndAppend(p, m, row, CpuSystem);
  }

  /**
   * The row loop of load_metrics: a record that fails with a ValueError or
   * KeyError is abandoned and the loop goes on with the next one.
   */
  method LoadMetrics(p: Parsers, rows: seq<Row>) returns (m: Metrics)
    ensures m == Loaded(p, rows)
    ensures forall k :: 0 <= k < FieldCount ==> Column(m, k) == ColumnOf(p, rows, k)
    ensures forall j, k :: 0 <= j <= k < FieldCount ==> |Column(m, k)| <= |Column(m, j)|
    ensures m.cpuSystem == FieldOf(p, CompleteRows(p, rows), CpuSystem)
    ensures Aligned(m) <==> PartialCount(p, rows) == 0
  {
    m := NoMetrics;
    for i := 0 to |rows|
      invariant m == Loaded(p, rows[..i])
    {
      assert rows[..i + 1][..i] == rows[..i];
      m := AppendRecord(p, m, rows[i]);
    }
    assert rows[..|rows|] == rows;
    forall k | 0 <= k < FieldCount
      ensures Column(m, k) == ColumnOf(p, rows, k)
    {
      LoadedColumn(p, rows, k);
    }
    LoadedNonIncreasing(p, rows);
    LoadedCpuSystem(p, rows);
    AlignedIffNoPartial(p, rows);
  }

  /** The append to column k lengthens column k by one cell and leaves the others alone. */
  lemma PutColumn(m: Metrics, k: nat, c: Cell, j: nat)
    requires k < FieldCount && j < FieldCount
    ensures j == k ==> Column(Put(m, k, c), j) == Column(m, j) + [c]
    ensures j != k ==> Column(Put(m, k, c), j) == Column(m, j)
  {
  }

  /** The try block from field k on appends to column j exactly when it gets past field j. */
  lemma {:induction false} AppendFromColumn(p: Parsers, m: Metrics, row: Row, k: nat, j: nat)
    requires k <= FieldCount && j < FieldCount
    ensures k <= j < DepthFrom(p, row, k) ==>
      Column(AppendFrom(p, m, row, k), j) == Column(m, j) + Cells(ReadField(p, row, j))
    ensures !(k <= j < DepthFrom(p, row, k)) ==>
      Column(AppendFrom(p, m, row, k), j) == Column(m, j)
    decreases FieldCount - k
  {
    if k < FieldCount && ReadField(p, row, k).Some? {
      var c := ReadField(p, row, k).value;
      PutColumn(m, k, c, j);
      AppendFromColumn(p, Put(m, k, c), row, k + 1, j);
    }
  }

  /** Column k after the loop is what ColumnOf says it should be. */
  lemma {:induction false} LoadedColumn(p: Parsers, rows: seq<Row>, k: nat)
    requires k < FieldCount
    ensures Column(Loaded(p, rows), k) == ColumnOf(p, rows, k)
  {
    if rows != [] {
      LoadedColumn(p, rows[..|rows| - 1], k);
      AppendFromColumn(p, Loaded(p, rows[..|rows| - 1]), rows[|rows| - 1], 0, k);
    }
  }

  /** Every field before the one the try block stops at parses. */
  lemma {:induction false} DepthFromReads(p: Parsers, row: Row, k: nat, j: nat)
    requires k <= FieldCount && k <= j < DepthFrom(p, row, k)
    ensures ReadField(p, row, j).Some?
    decreases FieldCount - k
  {
    if k < j {
      DepthFromReads(p, row, k + 1, j);
    }
  }

  /** Column k holds one value per record that got past field k. */
  lemma {:induction false} ColumnOfLength(p: Parsers, rows: seq<Row>, k: nat)
    requires k < FieldCount
    ensures |ColumnOf(p, rows, k)| == Reaching(p, rows, k)
  {
    if rows != [] {
      ColumnOfLength(p, rows[..|rows| - 1], k);
      if Depth(p, rows[|rows| - 1]) > k {
        DepthFromReads(p, rows[|rows| - 1], 0, k);
      }
    }
  }

  /** A record that gets past a later field got past every earlier one. */
  lemma {:induction false} ReachingMonotone(p: Parsers, rows: seq<Row>, j: nat, k: nat)
    requires j <= k
    ensures Reaching(p, rows, k) <= Reaching(p, rows, j)
  {
    if rows != [] {
      ReachingMonotone(p, rows[..|rows| - 1], j, k);
    }
  }

  /** Column lengths never grow from one column to the next. */
  lemma LoadedNonIncreasing(p: Parsers, rows: seq<Row>)
    ensures forall j, k :: 0 <= j <= k < FieldCount ==> |Column(Loaded(p, rows), k)| <= |Column(Loaded(p, rows), j)|
  {
    forall j, k | 0 <= j <= k < FieldCount
      ensures |Column(Loaded(p, rows), k)| <= |Column(Loaded(p, rows), j)|
    {
      LoadedColumn(p, rows, j);
      LoadedColumn(p, rows, k);
      ColumnOfLength(p, rows, j);
      ColumnOfLength(p, rows, k);
      ReachingMonotone(p, rows, j, k);
    }
  }

  /** The last column lists the last field of exactly the complete records, in input order. */
  lemma {:induction false} ColumnOfLast(p: Parsers, rows: seq<Row>)
    ensures ColumnOf(p, rows, CpuSystem) == FieldOf(p, CompleteRows(p, rows), CpuSystem)
  {
    if rows != [] {
      var init, last := rows[..|rows| - 1], rows[|rows| - 1];
      ColumnOfLast(p, init);
      var before := CompleteRows(p, init);
      if Complete(p, last) {
        assert CompleteRows(p, rows) == before + [last];
        assert (before + [last])[..|before|] == before;
        assert FieldOf(p, before + [last], CpuSystem) == FieldOf(p, before, CpuSystem) + Cells(ReadField(p, last, CpuSystem));
      } else {
        assert CompleteRows(p, rows) == before;
      }
    }
  }

  lemma LoadedCpuSystem(p: Parsers, rows: seq<Row>)
    ensures Loaded(p, rows).cpuSystem == FieldOf(p, CompleteRows(p, rows), CpuSystem)
  {
    LoadedColumn(p, rows, CpuSystem);
    ColumnOfLast(p, rows);
  }

  /** For records that all get past field k, column k is field k of every record. */
  lemma {:induction false} ColumnOfReached(p: Parsers, rows: seq<Row>, k: nat)
    requires k < FieldCount
    requires forall r :: r in rows ==> Depth(p, r) > k
    ensures ColumnOf(p, rows, k) == FieldOf(p, rows, k)
  {
    if rows != [] {
      var init, last := rows[..|rows| - 1], rows[|rows| - 1];
      assert last in rows;
      forall r | r in init
        ensures Depth(p, r) > k
      {
        var a :| 0 <= a < |init| && init[a] == r;
        assert rows[a] == init[a];
      }
      ColumnOfReached(p, init, k);
    }
  }

  /** Every record kept by CompleteRows is complete. */
  lemma {:induction false} CompleteRowsComplete(p: Parsers, rows: seq<Row>)
    ensures forall r :: r in CompleteRows(p, rows) ==> Complete(p, r)
  {
    if rows != [] {
      var init, last := rows[..|rows| - 1], rows[|rows| - 1];
      CompleteRowsComplete(p, init);
      if Complete(p, last) {
        assert CompleteRows(p, rows) == CompleteRows(p, init) + [last];
      } else {
        assert CompleteRows(p, rows) == CompleteRows(p, init);
      }
    }
  }

  /** Field k of records that all get past field k: one value per record, in order. */
  lemma {:induction false} FieldOfReached(p: Parsers, rows: seq<Row>, k: nat, i: nat)
    requires k < FieldCount
    requires forall r :: r in rows ==> Depth(p, r) > k
    requires i < |rows|
    ensures |FieldOf(p, rows, k)| == |rows|
    ensures Some(FieldOf(p, rows, k)[i]) == ReadField(p, rows[i], k)
  {
    var init, last := rows[..|rows| - 1], rows[|rows| - 1];
    assert last in rows;
    DepthFromReads(p, last, 0, k);
    var c := ReadField(p, last, k).value;
    assert FieldOf(p, rows, k) == FieldOf(p, init, k) + [c];
    if i < |init| {
      assert init[i] == rows[i];
      FieldOfReached(p, init, k, i);
    } else if init != [] {
      FieldOfReached(p, init, k, 0);
    }
  }

  /** The records that get past the first field are the complete and the partial ones. */
  lemma {:induction false} ReachingFirst(p: Parsers, rows: seq<Row>)
    ensures Reaching(p, rows, Timestamps) == Reaching(p, rows, CpuSystem) + PartialCount(p, rows)
  {
    if rows != [] {
      ReachingFirst(p, rows[..|rows| - 1]);
    }
  }

  /** The columns all have the same length exactly when no record was abandoned part-way. */
  lemma AlignedIffNoPartial(p: Parsers, rows: seq<Row>)
    ensures Aligned(Loaded(p, rows)) <==> PartialCount(p, rows) == 0
  {
    var m := Loaded(p, rows);
    ReachingFirst(p, rows);
    LoadedColumn(p, rows, Timestamps);
    ColumnOfLength(p, rows, Timestamps);
    LoadedColumn(p, rows, CpuSystem);
    ColumnOfLength(p, rows, CpuSystem);
    if PartialCount(p, rows) == 0 {
      forall k | 0 <= k < FieldCount
        ensures |Column(m, k)| == |m.timestamps|
      {
        LoadedColumn(p, rows, k);
        ColumnOfLength(p, rows, k);
        ReachingMonotone(p, rows, Timestamps, k);
        ReachingMonotone(p, rows, k, CpuSystem);
      }
    }
  }

  /** A parsed field has its column's kind. */
  lemma ReadFieldKind(p: Parsers, row: Row, k: nat)
    requires k < FieldCount && ReadField(p, row, k).Some?
    ensures OfKind(k, ReadField(p, row, k).value)
  {
  }

  /** Every value the loop appends to column k has that column's kind. */
  lemma {:induction false} LoadedKind(p: Parsers, rows: seq<Row>, k: nat, i: nat)
    requires k < FieldCount && i < |Column(Loaded(p, rows), k)|
    ensures OfKind(k, Column(Loaded(p, rows), k)[i])
  {
    LoadedColumn(p, rows, k);
    var init, last := rows[..|rows| - 1], rows[|rows| - 1];
    LoadedColumn(p, init, k);
    if i < |ColumnOf(p, init, k)| {
      LoadedKind(p, init, k, i);
    } else {
      ReadFieldKind(p, last, k);
    }
  }

  // Typed views of the columns. The fallback values are never used for
  // loaded metrics, by LoadedKind.

  function TextOf(c: Cell): string
  {
    if c.Text? then c.text else ""
  }

  function NumberOf(c: Cell): real
  {
    if c.Number? then c.number else 0.0
  }

  function InstantOf(c: Cell): int
  {
    if c.Instant? then c.time else 0
  }

  function Texts(cs: seq<Cell>): seq<string>
  {
    seq(|cs|, i requires 0 <= i < |cs| => TextOf(cs[i]))
  }

  function Numbers(cs: seq<Cell>): seq<real>
  {
    seq(|cs|, i requires 0 <= i < |cs| => NumberOf(cs[i]))
  }

  function Instants(cs: seq<Cell>): seq<int>
  {
    seq(|cs|, i requires 0 <= i < |cs| => InstantOf(cs[i]))
  }
}
