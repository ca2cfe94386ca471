/**
 * The `Blux` session object: an engine, a dialect, an error limit and three
 * accumulators (warnings, errors and logon sequence numbers) that grow with
 * every chunked load and are never reset.
 */
module BluxSession {
  import opened Text
  import opened Chunks
  import opened Driver
  import opened BluxSpec
  import opened BluxProps

  class Blux {
    const engine: Engine
    const dialect: string
    const errLimit: int
    var warnings: seq<Row>
    var errors: seq<Row>
    var logons: seq<Row>
    /** The counts that verbose mode logs as "<n> records attempted.", recorded in either mode. */
    ghost var attempted: seq<int>

    ghost function State(): Acc
      reads this, engine
    {
      Acc(engine.history, warnings, errors, logons, attempted)
    }

    /** A new session: error limit 1, nothing accumulated, the dialect kept as given. */
    constructor (engine: Engine, dialect: string)
      ensures this.engine == engine && this.dialect == dialect
      ensures errLimit == 1
      ensures warnings == [] && errors == [] && logons == [] && attempted == []
    {
      this.engine := engine;
      this.dialect := dialect;
      errLimit := 1;
      warnings, errors, logons := [], [], [];
      attempted := [];
    }

    /**
     * `sql`: load `frame` into `table` (chunked on teradata, by copy
     * elsewhere), or else run `query`.
     */
    method Sql(query: Option<string>, frame: Frame, table: Option<string>, chunksize: int, verbose: bool)
      returns (out: Outcome<Option<Frame>>)
      modifies this, engine
      ensures (State(), out) ==
        BluxSpec.Sql(engine.answer, dialect, errLimit, old(State()), query, frame, table, chunksize, verbose)
      ensures Extends(old(State()), State())
    {
      if |frame.rows| > 0 && table.Some? && dialect == "teradata" {
        out := LoadChunked(frame, table.value, chunksize, verbose);
      } else if |frame.rows| > 0 && table.Some? {
        out := LoadCopy(frame, table.value, verbose);
      } else if query.Some? {
        out := Query(query.value, verbose);
      } else {
        out := Done(None);
      }
      SqlExtends(engine.answer, dialect, errLimit, old(State()), query, frame, table, chunksize, verbose);
    }

    /** The chunked load: autocommit off, then one insert and its diagnostics per chunk. */
    method LoadChunked(frame: Frame, table: string, chunksize: int, verbose: bool)
      returns (out: Outcome<Option<Frame>>)
      modifies this, engine
      ensures (State(), out) ==
        ChunkedLoad(engine.answer, old(State()), frame, table, errLimit, chunksize, verbose)
    {
      var reply := engine.Call(Execute(AutocommitOff));
      if reply.Raised? {
        return Escaped(reply.message);
      }
      if chunksize == 0 {
        return Exited(ExitOnCaught(verbose, RangeStepZero));
      }
      if chunksize > 0 {
        ChunkBodyRuns(engine.answer, table, |frame.columns|, errLimit, verbose);
        var failure := InsertChunks(frame, table, chunksize, verbose, ChunkBody(engine.answer, table, |frame.columns|, errLimit, verbose));
        if failure.Some? {
          return Exited(ExitOnCaught(verbose, failure.value));
        }
      }
      out := Summarize(verbose);
    }

    /** The loop over `range(0, len(df), chunksize)`; returns the message of the exception that ended it. */
    method InsertChunks(frame: Frame, table: string, chunksize: int, verbose: bool, ghost step: (Acc, seq<Row>, int) -> Step)
      returns (failure: Option<string>)
      requires chunksize > 0
      requires RunsChunkStep(step, engine.answer, table, |frame.columns|, errLimit, verbose)
      modifies this, engine
      ensures RunChunks(step, old(State()), frame.rows, chunksize, 0) ==
        if failure.None? then Continue(State()) else Stop(State(), failure.value)
    {
      ghost var start := State();
      var i: nat := 0;
      while i < |frame.rows|
        invariant RunChunks(step, State(), frame.rows, chunksize, i) == RunChunks(step, start, frame.rows, chunksize, 0)
        decreases |frame.rows| - i
      {
        var end := Min(i + chunksize, |frame.rows|);
        var chunk := frame.rows[i..end];
        ghost var before := State();
        failure := InsertChunk(chunk, end, table, |frame.columns|, verbose, step);
        RunChunksAdvance(step, before, State(), failure, frame.rows, chunksize, i);
        if failure.Some? {
          return;
        }
        i := i + chunksize;
      }
      assert RunChunks(step, State(), frame.rows, chunksize, i) == Continue(State());
      return None;
    }

    /** The verbose summary after the loop, the only step left that can raise. */
    method Summarize(verbose: bool) returns (out: Outcome<Option<Frame>>)
      ensures out == AfterChunks(State(), verbose)
    {
      if verbose {
        var failure := SummaryFailure(Flatten(warnings), Flatten(errors));
        if failure.Some? {
          return Exited(ExitOnCaught(verbose, failure.value));
        }
      }
      return Done(None);
    }

    /** One pass of the chunk loop; returns the message of the exception that stopped it. */
    method InsertChunk(chunk: seq<Row>, end: int, table: string, k: int, verbose: bool, ghost step: (Acc, seq<Row>, int) -> Step)
      returns (failure: Option<string>)
      requires RunsChunkStep(step, engine.answer, table, k, errLimit, verbose)
      modifies this, engine
      ensures step(old(State()), chunk, end) == if failure.None? then Continue(State()) else Stop(State(), failure.value)
    {
      ghost var start := State();
      assert step(start, chunk, end) == ChunkStep(engine.answer, start, table, k, errLimit, verbose, chunk, end);
      var insert := InsertStatement(table, k);
      var reply := engine.Call(ExecuteMany(insert, chunk));
      if reply.Raised? {
        return Some(reply.message);
      }
      attempted := attempted + [end];
      var rows;
      failure, rows := Fetch(WarningsRequest(errLimit, insert));
      if failure.Some? {
        return;
      }
      warnings := warnings + rows;
      failure, rows := Fetch(ErrorsRequest(insert));
      if failure.Some? {
        return;
      }
      errors := errors + rows;
      if |errors| == 0 {
        return Some(IndexOutOfRange);
      }
      if Str("") !in errors[0] {
        failure := LogFirstError(verbose, errors[0]);
        if failure.Some? {
          return;
        }
        failure, rows := Fetch(LogonRequest(insert));
        if failure.Some? {
          return;
        }
        logons := logons + rows;
      }
      return None;
    }

    /** `cur.execute(sql)` then `cur.fetchall()`. */
    method Fetch(sql: string) returns (failure: Option<string>, rows: seq<Row>)
      modifies engine
      ensures ExecuteFetch(engine.answer, old(engine.history), sql) == Fetched(engine.history, failure, rows)
    {
      var reply := engine.Call(Execute(sql));
      if reply.Raised? {
        return Some(reply.message), [];
      }
      reply := engine.Call(FetchAll);
      if reply.Raised? {
        return Some(reply.message), [];
      }
      return None, reply.rows;
    }

    /** The copy load: optional search path, one copy of all rows, commit. */
    method LoadCopy(frame: Frame, table: string, verbose: bool) returns (out: Outcome<Option<Frame>>)
      modifies engine
      ensures (engine.history, out) == CopyLoad(engine.answer, old(engine.history), frame, table, verbose)
    {
      var failure: Option<string> := None;
      if '.' in table {
        SplitMany(table, '.');
        var segs := Split(table, '.');
        var reply := engine.Call(Execute(SearchPath(segs[0])));
        if reply.Raised? {
          failure := Some(reply.message);
        } else {
          reply := engine.Call(Commit);
          if reply.Raised? {
            failure := Some(reply.message);
          } else {
            reply := engine.Call(CopyFrom(segs[1], frame.rows));
            if reply.Raised? {
              failure := Some(reply.message);
            }
          }
        }
      } else {
        var reply := engine.Call(CopyFrom(table, frame.rows));
        if reply.Raised? {
          failure := Some(reply.message);
        }
      }
      if failure.None? {
        var reply := engine.Call(Commit);
        if !reply.Raised? {
          return Done(None);
        }
        failure := Some(reply.message);
      }
      out := RollbackAndExit(failure.value, verbose);
    }

    /** `__sql`: run one statement and return its result set as a frame, if it has one. */
    method Query(query: string, verbose: bool) returns (out: Outcome<Option<Frame>>)
      modifies engine
      ensures (engine.history, out) == RunQuery(engine.answer, old(engine.history), query, verbose)
    {
      var executed := engine.Call(Execute(query));
      if executed.Raised? {
        out := RollbackAndExit(executed.message, verbose);
        return;
      }
      var committed := engine.Call(Commit);
      if committed.Raised? {
        out := RollbackAndExit(committed.message, verbose);
        return;
      }
      if executed.description.None? || |executed.description.value| == 0 {
        return Done(None);
      }
      var fetched := engine.Call(FetchAll);
      if fetched.Raised? {
        out := RollbackAndExit(fetched.message, verbose);
        return;
      }
      return Done(Some(Frame(Lowered(executed.description.value), fetched.rows)));
    }

    /** The `except` branch: `ROLLBACK`, then exit with the kept message. */
    method RollbackAndExit(message: string, verbose: bool) returns (out: Outcome<Option<Frame>>)
      modifies engine
      ensures (engine.history, out) == RollbackThenExit(engine.answer, old(engine.history), message, verbose)
    {
      var reply := engine.Call(Execute(Rollback));
      if reply.Raised? {
        return Escaped(reply.message);
      }
      return Exited(ExitOnCaught(verbose, message));
    }
  }
}
