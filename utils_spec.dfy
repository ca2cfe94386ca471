/**
 * The table helpers of `utils.py` that work through a `Blux` session:
 * `is_exist`, `drop_table` and `create_table_from_dataframe`, as functions of
 * the database oracle and the session's state. Each of them catches every
 * exception and exits; an exit inside a call they make goes on out of them.
 */
module UtilsSpec {
  import opened Text
  import opened Driver
  import opened BluxSpec
  import opened BluxProps
  import opened Catalog
  import opened Ddl

  /** `sql`'s defaults: `dataframe=''` has no rows, and `chunksize=100000`. */
  const NoFrame := Frame([], [])
  const DefaultChunksize := 100000

  /** The error of `df.empty` when `sql` returned nothing. */
  const NoneHasNoEmpty := "'NoneType' object has no attribute 'empty'"

  /** `str()` of the `KeyError` that `query[dialect]` raises for a dialect without a template. */
  function KeyErrorMessage(key: string): string
  {
    "'" + key + "'"
  }

  /**
   * A call inside `try: ... except Exception`: an exception it lets escape
   * ends the process, an exit it makes goes on, and its value is dropped.
   */
  function Settle<T>(out: Outcome<T>, verbose: bool): (r: Outcome<()>)
    ensures !r.Escaped?
    ensures out.Done? <==> r.Done?
    ensures out.Exited? ==> r == Exited(out.message)
    ensures out.Escaped? ==> r == Exited(ExitOnCaught(verbose, out.message))
  {
    match out
    case Done(_) => Done(())
    case Exited(m) => Exited(m)
    case Escaped(m) => Exited(ExitOnCaught(verbose, m))
  }

  /** `is_exist`: run the catalog query; true when it returns a non-empty frame. */
  function IsExist(db: seq<Request> -> Reply, dialect: string, errLimit: int, acc: Acc,
                   table: string, verbose: bool): (Acc, Outcome<bool>)
  {
    match CatalogQuery(dialect, table)
    case None => (acc, Exited(ExitOnCaught(verbose, KeyErrorMessage(dialect))))
    case Some(query) => AskCatalog(db, dialect, errLimit, acc, query, verbose)
  }

  /** The part of `is_exist` after the query is built: run it and test the frame. */
  function AskCatalog(db: seq<Request> -> Reply, dialect: string, errLimit: int, acc: Acc,
                      query: string, verbose: bool): (Acc, Outcome<bool>)
  {
    var (a, out) := Sql(db, dialect, errLimit, acc, Some(query), NoFrame, None, DefaultChunksize, verbose);
    (a, match out
        case Done(None) => Exited(ExitOnCaught(verbose, NoneHasNoEmpty))
        case Done(Some(f)) => Done(!Empty(f))
        case Exited(m) => Exited(m)
        case Escaped(m) => Exited(ExitOnCaught(verbose, m)))
  }

  function DropStatement(table: string): string
  {
    "DROP TABLE " + table + ";"
  }

  /** `drop_table`: drop the table when the existence check says it is there. */
  function DropTable(db: seq<Request> -> Reply, dialect: string, errLimit: int, acc: Acc,
                     table: string, verbose: bool): (Acc, Outcome<()>)
  {
    var (a1, found) := IsExist(db, dialect, errLimit, acc, table, verbose);
    if found == Done(true) then
      var (a2, out) := Sql(db, dialect, errLimit, a1, Some(DropStatement(table)), NoFrame, None, DefaultChunksize, verbose);
      (a2, Settle(out, verbose))
    else (a1, Settle(found, verbose))
  }

  /** `create_table_from_dataframe`: generate the text, drop, create, then load. */
  function CreateTableFromDataframe(db: seq<Request> -> Reply, dialect: string, errLimit: int, acc: Acc,
                                    frame: Frame, table: string, verbose: bool): (Acc, Outcome<()>)
  {
    var (a1, dropped) := DropTable(db, dialect, errLimit, acc, table, verbose);
    if !dropped.Done? then (a1, dropped)
    else CreateAndLoad(db, dialect, errLimit, a1, frame, table, verbose)
  }

  /** The steps of `create_table_from_dataframe` after the drop: create the table, then load the frame. */
  function CreateAndLoad(db: seq<Request> -> Reply, dialect: string, errLimit: int, acc: Acc,
                         frame: Frame, table: string, verbose: bool): (Acc, Outcome<()>)
  {
    var text := CreateTableText(frame.columns, table);
    var (a2, created) := Sql(db, dialect, errLimit, acc, Some(text), NoFrame, None, DefaultChunksize, verbose);
    if !created.Done? then (a2, Settle(created, verbose))
    else
      var (a3, loaded) := Sql(db, dialect, errLimit, a2, None, frame, Some(table), DefaultChunksize, verbose);
      (a3, Settle(loaded, verbose))
  }

  // ---------------------------------------------------------------------------
  // is_exist
  // ---------------------------------------------------------------------------

  /** With a template, `is_exist` asks the catalog with the rendered query. */
  lemma IsExistAsks(db: seq<Request> -> Reply, dialect: string, errLimit: int, acc: Acc,
                    table: string, verbose: bool, q: string)
    requires CatalogQuery(dialect, table) == Some(q)
    ensures IsExist(db, dialect, errLimit, acc, table, verbose) == AskCatalog(db, dialect, errLimit, acc, q, verbose)
  {
  }

  /** A dialect without a template exits with the `KeyError` before anything is sent. */
  lemma IsExistUnknownDialect(db: seq<Request> -> Reply, dialect: string, errLimit: int, acc: Acc,
                              table: string, verbose: bool)
    requires dialect !in Catalog.Dialects
    ensures IsExist(db, dialect, errLimit, acc, table, verbose) ==
      (acc, Exited(ExitOnCaught(verbose, "'" + dialect + "'")))
  {
  }

  /**
   * After asking the catalog with `q`: the query is the first statement sent
   * and only the history changes; no exception escapes; a value comes back
   * exactly when the database answers the query with a result set that has a
   * column, then the commit and the `fetchall`, and it is true exactly when
   * that result set has at least one row. A query answered and committed
   * without a result set exits with the error of testing `None` for emptiness.
   */
  ghost predicate CatalogAnswered(db: seq<Request> -> Reply, acc: Acc, q: string, verbose: bool,
                                  a: Acc, out: Outcome<bool>)
  {
    var r := db(acc.history + [Execute(q)]);
    var fetched := acc.history + [Execute(q), Commit, FetchAll];
    && a.(history := acc.history) == acc
    && |a.history| > |acc.history| && a.history[|acc.history|] == Execute(q)
    && !out.Escaped?
    && (out.Done? ==>
          && r.Answer? && r.description.Some? && |r.description.value| > 0
          && a.history == fetched
          && (out.value <==> db(a.history).Answer? && |db(a.history).rows| > 0))
    && (QueryAnswered(db, acc.history, q) && r.description.Some? && |r.description.value| > 0
        && db(fetched).Answer? ==>
          a.history == fetched && out == Done(|db(fetched).rows| > 0))
    && (QueryAnswered(db, acc.history, q) && (r.description.None? || r.description.value == []) ==>
          a.history == acc.history + [Execute(q), Commit] && out == Exited(ExitOnCaught(verbose, NoneHasNoEmpty)))
  }

  /** For a dialect with a template, `is_exist` asks the catalog with the rendered query. */
  lemma IsExistAnswer(db: seq<Request> -> Reply, dialect: string, errLimit: int, acc: Acc,
                      table: string, verbose: bool)
    requires dialect in Catalog.Dialects
    ensures CatalogQuery(dialect, table).Some?
    ensures var (a, out) := IsExist(db, dialect, errLimit, acc, table, verbose);
      CatalogAnswered(db, acc, CatalogQuery(dialect, table).value, verbose, a, out)
  {
    var q := CatalogQuery(dialect, table).value;
    assert IsExist(db, dialect, errLimit, acc, table, verbose) == AskCatalog(db, dialect, errLimit, acc, q, verbose);
    AskCatalogAnswer(db, dialect, errLimit, acc, q, verbose);
  }

  /** What `IsExistAnswer` states, for any query. */
  lemma AskCatalogAnswer(db: seq<Request> -> Reply, dialect: string, errLimit: int, acc: Acc,
                         q: string, verbose: bool)
    ensures var (a, out) := AskCatalog(db, dialect, errLimit, acc, q, verbose);
      CatalogAnswered(db, acc, q, verbose, a, out)
  {
    SqlQueryPath(db, dialect, errLimit, acc, Some(q), NoFrame, None, DefaultChunksize, verbose);
    RunQueryOutcome(db, acc.history, q, verbose);
  }

  // ---------------------------------------------------------------------------
  // drop_table
  // ---------------------------------------------------------------------------

  /**
   * `DROP TABLE <table>;` is sent right after the existence check when it
   * answered true, and nothing is sent after the check otherwise.
   */
  lemma DropIffExists(db: seq<Request> -> Reply, dialect: string, errLimit: int, acc: Acc,
                      table: string, verbose: bool)
    ensures var (a1, found) := IsExist(db, dialect, errLimit, acc, table, verbose);
      var (a, out) := DropTable(db, dialect, errLimit, acc, table, verbose);
      && Extends(a1, a)
      && (found == Done(true) ==>
            |a.history| > |a1.history| && a.history[|a1.history|] == Execute(DropStatement(table)))
      && (found != Done(true) ==> a == a1 && out == Settle(found, verbose))
      && !out.Escaped?
  {
    var (a1, found) := IsExist(db, dialect, errLimit, acc, table, verbose);
    if found == Done(true) {
      SqlExtends(db, dialect, errLimit, a1, Some(DropStatement(table)), NoFrame, None, DefaultChunksize, verbose);
      SqlQueryPath(db, dialect, errLimit, a1, Some(DropStatement(table)), NoFrame, None, DefaultChunksize, verbose);
    } else {
      ExtendsReflexive(a1);
    }
  }

  /** `is_exist` and `drop_table` only append to the session's state. */
  lemma DropTableExtends(db: seq<Request> -> Reply, dialect: string, errLimit: int, acc: Acc,
                         table: string, verbose: bool)
    ensures Extends(acc, IsExist(db, dialect, errLimit, acc, table, verbose).0)
    ensures Extends(acc, DropTable(db, dialect, errLimit, acc, table, verbose).0)
    ensures !DropTable(db, dialect, errLimit, acc, table, verbose).1.Escaped?
  {
    var q := CatalogQuery(dialect, table);
    if q.Some? {
      SqlExtends(db, dialect, errLimit, acc, q, NoFrame, None, DefaultChunksize, verbose);
    } else {
      ExtendsReflexive(acc);
    }
    var a1 := IsExist(db, dialect, errLimit, acc, table, verbose).0;
    DropIffExists(db, dialect, errLimit, acc, table, verbose);
    ExtendsTransitive(acc, a1, DropTable(db, dialect, errLimit, acc, table, verbose).0);
  }

  // ---------------------------------------------------------------------------
  // create_table_from_dataframe
  // ---------------------------------------------------------------------------

  /**
   * `a, out` are what creating `table` for `frame` and then loading the frame
   * made of `acc`: the `CREATE TABLE` text is the next statement sent, the
   * load's first statement follows it when the frame has rows and the load
   * went through, and no exception escaped.
   */
  ghost predicate CreatedThenLoaded(dialect: string, acc: Acc, frame: Frame, table: string, load: nat,
                                    a: Acc, out: Outcome<()>)
  {
    && Extends(acc, a)
    && |acc.history| < |a.history|
    && a.history[|acc.history|] == Execute(CreateTableText(frame.columns, table))
    && (out.Done? && |frame.rows| > 0 ==>
          && |acc.history| < load < |a.history|
          && a.history[load] == FirstLoadRequest(dialect, table, frame.rows))
    && !out.Escaped?
  }

  /**
   * The drop comes first; the `CREATE TABLE` text is the next statement once
   * the drop went through; and once that succeeded, the load's first
   * statement follows the create, for a frame with rows. An exit in the drop
   * stops everything after it.
   */
  lemma CreateTableOrder(db: seq<Request> -> Reply, dialect: string, errLimit: int, acc: Acc,
                         frame: Frame, table: string, verbose: bool)
    returns (create: nat, load: nat)
    ensures var (a1, dropped) := DropTable(db, dialect, errLimit, acc, table, verbose);
      var (a, out) := CreateTableFromDataframe(db, dialect, errLimit, acc, frame, table, verbose);
      && Extends(acc, a1)
      && (!dropped.Done? ==> a == a1 && out == dropped && !out.Escaped?)
      && (dropped.Done? ==> create == |a1.history| && CreatedThenLoaded(dialect, a1, frame, table, load, a, out))
  {
    DropTableExtends(db, dialect, errLimit, acc, table, verbose);
    var (a1, dropped) := DropTable(db, dialect, errLimit, acc, table, verbose);
    create, load := |a1.history|, 0;
    CreateAfterDrop(db, dialect, errLimit, acc, frame, table, verbose);
    if dropped.Done? {
      load := CreateAndLoadOrder(db, dialect, errLimit, a1, frame, table, verbose);
    }
  }

  /** `create_table_from_dataframe` stops at a failed drop, and creates and loads after a good one. */
  lemma CreateAfterDrop(db: seq<Request> -> Reply, dialect: string, errLimit: int, acc: Acc,
                        frame: Frame, table: string, verbose: bool)
    ensures var (a1, dropped) := DropTable(db, dialect, errLimit, acc, table, verbose);
      CreateTableFromDataframe(db, dialect, errLimit, acc, frame, table, verbose) ==
        if dropped.Done? then CreateAndLoad(db, dialect, errLimit, a1, frame, table, verbose) else (a1, dropped)
  {
  }

  /** After the drop, the `CREATE TABLE` text is sent first, and the load's first statement after it. */
  lemma CreateAndLoadOrder(db: seq<Request> -> Reply, dialect: string, errLimit: int, acc: Acc,
                           frame: Frame, table: string, verbose: bool)
    returns (load: nat)
    ensures var (a, out) := CreateAndLoad(db, dialect, errLimit, acc, frame, table, verbose);
      CreatedThenLoaded(dialect, acc, frame, table, load, a, out)
  {
    var text := CreateTableText(frame.columns, table);
    load := 0;
    SqlQueryPath(db, dialect, errLimit, acc, Some(text), NoFrame, None, DefaultChunksize, verbose);
    SqlExtends(db, dialect, errLimit, acc, Some(text), NoFrame, None, DefaultChunksize, verbose);
    var (a2, created) := Sql(db, dialect, errLimit, acc, Some(text), NoFrame, None, DefaultChunksize, verbose);
    if !created.Done? {
      return;
    }
    SqlExtends(db, dialect, errLimit, a2, None, frame, Some(table), DefaultChunksize, verbose);
    ExtendsTransitive(acc, a2, Sql(db, dialect, errLimit, a2, None, frame, Some(table), DefaultChunksize, verbose).0);
    load := |a2.history|;
    if |frame.rows| > 0 {
      SqlLoadStart(db, dialect, errLimit, a2, None, frame, Some(table), DefaultChunksize, verbose);
    }
  }
}
