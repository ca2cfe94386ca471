/**
 * The boundary between the library and the database drivers.
 *
 * A driver is not modelled: the database behind an engine is an oracle that,
 * given the whole history of requests sent to it, answers the last one. The
 * `Engine` keeps that history, so every statement the library issues, in
 * order, is observable. Exceptions and `sys.exit` become outcome values.
 */
module Driver {
  import opened Text

  /** A cell of a dataframe or of a fetched row. */
  datatype Value = Str(s: string) | Int(i: int) | Null

  type Row = seq<Value>

  /** A dataframe: its column labels and its rows. */
  datatype Frame = Frame(columns: seq<string>, rows: seq<Row>)

  /** `DataFrame.empty`: true when either axis has length zero. */
  predicate Empty(f: Frame)
  {
    |f.rows| == 0 || |f.columns| == 0
  }

  /** A call made on a cursor or on the connection. */
  datatype Request =
    | Execute(sql: string)
    | ExecuteMany(sql: string, batch: seq<Row>)
    | FetchAll
    | Commit
    | CopyFrom(target: string, data: seq<Row>)

  /**
   * The database's answer: an exception with its message, or success. For
   * `Execute` the answer carries the cursor description (the column names, when
   * the statement produced a result set); for `FetchAll` it carries the rows.
   */
  datatype Reply =
    | Raised(message: string)
    | Answer(description: Option<seq<string>>, rows: seq<Row>)

  /** A connection to a database, with the history of everything sent to it. */
  class Engine {
    const answer: seq<Request> -> Reply
    var history: seq<Request>

    constructor (answer: seq<Request> -> Reply)
      ensures this.answer == answer && history == []
    {
      this.answer := answer;
      history := [];
    }

    /** Sends one request and returns the database's answer to it. */
    method Call(r: Request) returns (reply: Reply)
      modifies this
      ensures history == old(history) + [r]
      ensures reply == answer(history)
    {
      history := history + [r];
      reply := answer(history);
    }
  }

  /** How a call ended: a value, the process exiting, or an exception escaping. */
  datatype Outcome<T> = Done(value: T) | Exited(message: string) | Escaped(message: string)

  /** `str(e).split("\n")[0] + "\n"`: what every handler keeps of an exception. */
  function Caught(message: string): (stdout: string)
    ensures |stdout| > 0 && stdout[|stdout| - 1] == '\n'
    ensures '\n' !in stdout[..|stdout| - 1]
    ensures stdout[..|stdout| - 1] <= message
    ensures |stdout| - 1 == |message| || message[|stdout| - 1] == '\n'
  {
    var segs := Split(message, '\n');
    SplitSegmentsFree(message, '\n');
    JoinSplit(message, '\n');
    FirstSegmentIsPrefix(segs, "\n");
    assert (segs[0] + "\n")[..|segs[0]|] == segs[0];
    segs[0] + "\n"
  }

  lemma {:induction false} FirstSegmentIsPrefix(segs: seq<string>, sep: string)
    requires |segs| >= 1
    ensures segs[0] <= Join(segs, sep)
    ensures |segs| == 1 ==> Join(segs, sep) == segs[0]
    ensures |segs| > 1 ==> segs[0] + sep <= Join(segs, sep)
  {
    if |segs| > 1 {
      assert Join(segs, sep) == (segs[0] + sep) + Join(segs[1..], sep);
    }
  }

  /** The argument of `sys.exit` once an exception was caught: it depends on `verbose`. */
  function ExitMessage(verbose: bool, stdout: string): (m: string)
    ensures verbose ==> m == "### Exception ### \n " + stdout
    ensures !verbose ==> m == "### Exception - hint: verbose=True to have error details###"
  {
    if verbose then "### Exception ### \n " + stdout
    else "### Exception - hint: verbose=True to have error details###"
  }

  /** Every caught exception ends the process: the kept text is never empty. */
  function ExitOnCaught(verbose: bool, message: string): (m: string)
    ensures verbose ==> m == "### Exception ### \n " + Caught(message) && m[|m| - 1] == '\n'
    ensures !verbose ==> m == ExitMessage(false, "")
  {
    var stdout := Caught(message);
    ExitMessage(verbose, stdout)
  }
}
