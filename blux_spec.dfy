/**
 * What a `Blux` session does, as functions of the database oracle and of the
 * session's accumulated state. The class in blux.dfy performs the same steps
 * one request at a time and is proved to end in the state these functions give.
 */
module BluxSpec {
  import opened Text
  import opened Chunks
  import opened Driver

  /** A session's accumulators together with the engine's history. */
  datatype Acc = Acc(
    history: seq<Request>,
    warnings: seq<Row>,
    errors: seq<Row>,
    logons: seq<Row>,
    attempted: seq<int>)    // the counts verbose mode logs as "<n> records attempted.", recorded in either mode

  // ---------------------------------------------------------------------------
  // Statements
  // ---------------------------------------------------------------------------

  const NativeSql := "{fn teradata_nativesql}"
  const AutocommitOff := NativeSql + "{fn teradata_autocommit_off}"
  const Rollback := "ROLLBACK"
  const RangeStepZero := "range() arg 3 must not be zero"
  const IndexOutOfRange := "list index out of range"

  /** `str("?, " * k).rstrip(", ")`: the parameter markers of the insert. */
  function Placeholders(k: int): string
  {
    RStrip(Repeat("?, ", k), {',', ' '})
  }

  /** `k` copies of `"?"`: the markers one would join with `", "`. */
  function Marks(k: nat): (r: seq<string>)
    ensures |r| == k && forall i :: 0 <= i < k ==> r[i] == "?"
  {
    seq(k, _ => "?")
  }

  function InsertStatement(table: string, k: int): string
  {
    "INSERT INTO " + table + " (" + Placeholders(k) + ")"
  }

  function WarningsRequest(errLimit: int, insert: string): string
  {
    NativeSql + "{fn teradata_get_warnings}" + ("ERRLIMIT " + Decimal(errLimit) + ";" + insert)
  }

  function ErrorsRequest(insert: string): string
  {
    NativeSql + "{fn teradata_get_errors}" + insert
  }

  function LogonRequest(insert: string): string
  {
    NativeSql + "{fn teradata_logon_sequence_number}" + insert
  }

  function SearchPath(schema: string): string
  {
    "SET search_path TO " + schema + ";"
  }

  // ---------------------------------------------------------------------------
  // Flattening and the verbose summary
  // ---------------------------------------------------------------------------

  /** `[item for sublist in rows for item in sublist]`. */
  function Flatten(rows: seq<Row>): seq<Value>
  {
    Concat(rows)
  }

  function TypeName(v: Value): string
  {
    match v
    case Str(_) => "str"
    case Int(_) => "int"
    case Null => "NoneType"
  }

  /**
   * `"".join(items)`: the concatenated texts, or the TypeError message naming
   * the first item that is not a string.
   */
  function JoinTexts(items: seq<Value>, i: nat := 0): (r: Result<string>)
    requires i <= |items|
    ensures r.Ok? <==> forall j :: i <= j < |items| ==> items[j].Str?
    decreases |items| - i
  {
    if i == |items| then Ok("")
    else if !items[i].Str? then
      Err("sequence item " + Decimal(i) + ": expected str instance, " + TypeName(items[i]) + " found")
    else match JoinTexts(items, i + 1)
      case Ok(rest) => Ok(items[i].s + rest)
      case Err(m) => Err(m)
  }

  datatype Result<T> = Ok(value: T) | Err(message: string)

  /**
   * The verbose summary test `len("".join(flat_warnings)) > 0 or
   * len("".join(flat_errors)) > 0`: the exception it raises, if any. The error
   * list is joined only when the warnings joined to nothing.
   */
  function SummaryFailure(flatWarnings: seq<Value>, flatErrors: seq<Value>): Option<string>
  {
    match JoinTexts(flatWarnings)
    case Err(m) => Some(m)
    case Ok(w) =>
      if |w| > 0 then None
      else match JoinTexts(flatErrors)
        case Err(m) => Some(m)
        case Ok(_) => None
  }

  // ---------------------------------------------------------------------------
  // Requests and their answers
  // ---------------------------------------------------------------------------

  /** The outcome of `cur.execute(sql)` followed by `cur.fetchall()`. */
  datatype Fetched = Fetched(history: seq<Request>, failure: Option<string>, rows: seq<Row>)

  function ExecuteFetch(db: seq<Request> -> Reply, h: seq<Request>, sql: string): (f: Fetched)
    ensures f.history == h + [Execute(sql)] || f.history == h + [Execute(sql), FetchAll]
    ensures f.failure.Some? ==> f.rows == []
    ensures f.failure.None? ==> f.history == h + [Execute(sql), FetchAll]
    ensures f.history == h + [Execute(sql)] <==> db(h + [Execute(sql)]).Raised?
    ensures f.failure.Some? ==> db(f.history).Raised? && f.failure.value == db(f.history).message
    ensures f.failure.None? ==> db(f.history).Answer? && f.rows == db(f.history).rows
  {
    var h1 := h + [Execute(sql)];
    match db(h1)
    case Raised(m) => Fetched(h1, Some(m), [])
    case Answer(_, _) =>
      var h2 := h1 + [FetchAll];
      match db(h2)
      case Raised(m) => Fetched(h2, Some(m), [])
      case Answer(_, rows) => Fetched(h2, None, rows)
  }

  /**
   * In verbose mode the first item of the first error row is logged up to
   * `" Batched"`: the exception that raises when that row is empty or its
   * first item is not a string.
   */
  function LogFirstError(verbose: bool, first: Row): (r: Option<string>)
    ensures r.None? <==> !verbose || (|first| > 0 && first[0].Str?)
  {
    if !verbose then None
    else if |first| == 0 then Some(IndexOutOfRange)
    else if !first[0].Str? then Some("'" + TypeName(first[0]) + "' object has no attribute 'split'")
    else None
  }

  /** After one chunk: carry on with the new state, or stop on an exception. */
  datatype Step = Continue(acc: Acc) | Stop(acc: Acc, message: string)

  /**
   * One iteration of the chunk loop (blux.py:52-73): insert the chunk, log the
   * attempted count `end`, fetch and keep the warnings and the errors, and,
   * when the first error row ever kept has no empty item, log its first item
   * (in verbose mode) and fetch the logon sequence numbers.
   */
  function ChunkStep(db: seq<Request> -> Reply, acc: Acc, table: string, k: int, errLimit: int, verbose: bool,
                     chunk: seq<Row>, end: int): Step
  {
    var insert := InsertStatement(table, k);
    var h1 := acc.history + [ExecuteMany(insert, chunk)];
    if db(h1).Raised? then Stop(acc.(history := h1), db(h1).message)
    else
      var acc1 := acc.(history := h1, attempted := acc.attempted + [end]);
      var w := ExecuteFetch(db, h1, WarningsRequest(errLimit, insert));
      if w.failure.Some? then Stop(acc1.(history := w.history), w.failure.value)
      else
        var acc2 := acc1.(history := w.history, warnings := acc.warnings + w.rows);
        var e := ExecuteFetch(db, w.history, ErrorsRequest(insert));
        if e.failure.Some? then Stop(acc2.(history := e.history), e.failure.value)
        else
          var acc3 := acc2.(history := e.history, errors := acc.errors + e.rows);
          if |acc3.errors| == 0 then Stop(acc3, IndexOutOfRange)
          else if Str("") in acc3.errors[0] then Continue(acc3)
          else if LogFirstError(verbose, acc3.errors[0]).Some? then
            Stop(acc3, LogFirstError(verbose, acc3.errors[0]).value)
          else
            var l := ExecuteFetch(db, e.history, LogonRequest(insert));
            if l.failure.Some? then Stop(acc3.(history := l.history), l.failure.value)
            else Continue(acc3.(history := l.history, logons := acc.logons + l.rows))
  }

  /** The body of the chunk loop, for one engine, table, column count and error limit. */
  function ChunkBody(db: seq<Request> -> Reply, table: string, k: int, errLimit: int, verbose: bool): (Acc, seq<Row>, int) -> Step
  {
    (a: Acc, chunk: seq<Row>, end: int) => ChunkStep(db, a, table, k, errLimit, verbose, chunk, end)
  }

  /**
   * The chunk loop from offset `i` on, `for i in range(i, len(rows), c)`, with
   * `step` run on `rows[i:i+c]` and `i + len(chunk)`; an exception ends it.
   */
  function RunChunks(step: (Acc, seq<Row>, int) -> Step, acc: Acc, rows: seq<Row>, c: int, i: nat): Step
    requires c > 0
    decreases |rows| - i
  {
    if i >= |rows| then Continue(acc)
    else
      var end := Min(i + c, |rows|);
      match step(acc, rows[i..end], end)
      case Stop(a, m) => Stop(a, m)
      case Continue(a) => RunChunks(step, a, rows, c, i + c)
  }

  /** The chunked load path (blux.py:38-91), taken for the teradata dialect. */
  function ChunkedLoad(db: seq<Request> -> Reply, acc: Acc, frame: Frame, table: string,
                       errLimit: int, c: int, verbose: bool): (Acc, Outcome<Option<Frame>>)
  {
    var h1 := acc.history + [Execute(AutocommitOff)];
    var acc1 := acc.(history := h1);
    if db(h1).Raised? then (acc1, Escaped(db(h1).message))
    else if c == 0 then (acc1, Exited(ExitOnCaught(verbose, RangeStepZero)))
    else if c < 0 then (acc1, AfterChunks(acc1, verbose))
    else match RunChunks(ChunkBody(db, table, |frame.columns|, errLimit, verbose), acc1, frame.rows, c, 0)
      case Stop(a, m) => (a, Exited(ExitOnCaught(verbose, m)))
      case Continue(a) => (a, AfterChunks(a, verbose))
  }

  /** After the loop: only the verbose summary can still raise. */
  function AfterChunks(acc: Acc, verbose: bool): Outcome<Option<Frame>>
  {
    if !verbose then Done(None)
    else match SummaryFailure(Flatten(acc.warnings), Flatten(acc.errors))
      case Some(m) => Exited(ExitOnCaught(verbose, m))
      case None => Done(None)
  }

  /** The `except` branch of the copy and query paths: roll back, then exit. */
  function RollbackThenExit(db: seq<Request> -> Reply, h: seq<Request>, message: string, verbose: bool)
    : (seq<Request>, Outcome<Option<Frame>>)
  {
    var h1 := h + [Execute(Rollback)];
    if db(h1).Raised? then (h1, Escaped(db(h1).message))
    else (h1, Exited(ExitOnCaught(verbose, message)))
  }

  /**
   * The statements of the copy path before its commit: the search path and
   * its commit for a dotted table, then the copy; the first exception stops it.
   */
  function CopySend(db: seq<Request> -> Reply, h: seq<Request>, frame: Frame, table: string)
    : (seq<Request>, Option<string>)
  {
    if '.' in table then
      var segs := Split(table, '.');
      SplitMany(table, '.');
      var h1 := h + [Execute(SearchPath(segs[0]))];
      if db(h1).Raised? then (h1, Some(db(h1).message))
      else
        var h2 := h1 + [Commit];
        if db(h2).Raised? then (h2, Some(db(h2).message))
        else
          var h3 := h2 + [CopyFrom(segs[1], frame.rows)];
          if db(h3).Raised? then (h3, Some(db(h3).message)) else (h3, None)
    else
      var h3 := h + [CopyFrom(table, frame.rows)];
      if db(h3).Raised? then (h3, Some(db(h3).message)) else (h3, None)
  }

  /** The copy path (blux.py:93-120), taken for every other dialect. */
  function CopyLoad(db: seq<Request> -> Reply, h: seq<Request>, frame: Frame, table: string, verbose: bool)
    : (seq<Request>, Outcome<Option<Frame>>)
  {
    var (h3, failure) := CopySend(db, h, frame, table);
    if failure.Some? then RollbackThenExit(db, h3, failure.value, verbose)
    else
      var h4 := h3 + [Commit];
      if db(h4).Raised? then RollbackThenExit(db, h4, db(h4).message, verbose)
      else (h4, Done(None))
  }

  /** `__sql` (blux.py:125-154): run one statement, return a frame when it has a result set. */
  function RunQuery(db: seq<Request> -> Reply, h: seq<Request>, query: string, verbose: bool)
    : (seq<Request>, Outcome<Option<Frame>>)
  {
    var h1 := h + [Execute(query)];
    if db(h1).Raised? then RollbackThenExit(db, h1, db(h1).message, verbose)
    else
      var h2 := h1 + [Commit];
      if db(h2).Raised? then RollbackThenExit(db, h2, db(h2).message, verbose)
      else
        var description := db(h1).description;
        if description.None? || |description.value| == 0 then (h2, Done(None))
        else
          var h3 := h2 + [FetchAll];
          if db(h3).Raised? then RollbackThenExit(db, h3, db(h3).message, verbose)
          else (h3, Done(Some(Frame(Lowered(description.value), db(h3).rows))))
  }

  /** `Blux.sql` (blux.py:31-123): the three-way dispatch. */
  function Sql(db: seq<Request> -> Reply, dialect: string, errLimit: int, acc: Acc,
               query: Option<string>, frame: Frame, table: Option<string>, chunksize: int, verbose: bool)
    : (Acc, Outcome<Option<Frame>>)
  {
    if |frame.rows| > 0 && table.Some? && dialect == "teradata" then
      ChunkedLoad(db, acc, frame, table.value, errLimit, chunksize, verbose)
    else if |frame.rows| > 0 && table.Some? then
      var (h, out) := CopyLoad(db, acc.history, frame, table.value, verbose);
      (acc.(history := h), out)
    else if query.Some? then
      var (h, out) := RunQuery(db, acc.history, query.value, verbose);
      (acc.(history := h), out)
    else (acc, Done(None))
  }
}
