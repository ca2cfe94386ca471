/**
 * `is_exist`, `drop_table` and `create_table_from_dataframe` as they run
 * against a `Blux` session, each proved to do what its specification in
 * `UtilsSpec` says.
 */
module Utils {
  import opened Text
  import opened Driver
  import opened BluxSpec
  import opened Catalog
  import opened Ddl
  import opened UtilsSpec
  import opened BluxSession

  /** `is_exist`: whether the catalog query for `table` returns a non-empty frame. */
  method IsExist(blux: Blux, table: string, verbose: bool) returns (out: Outcome<bool>)
    modifies blux, blux.engine
    ensures (blux.State(), out) ==
      UtilsSpec.IsExist(blux.engine.answer, blux.dialect, blux.errLimit, old(blux.State()), table, verbose)
  {
    ghost var before := blux.State();
    var query := CatalogQuery(blux.dialect, table);
    if query.Some? {
      IsExistAsks(blux.engine.answer, blux.dialect, blux.errLimit, before, table, verbose, query.value);
      out := AskCatalog(blux, query.value, verbose);
    } else {
      IsExistUnknownDialect(blux.engine.answer, blux.dialect, blux.errLimit, before, table, verbose);
      out := Exited(ExitOnCaught(verbose, KeyErrorMessage(blux.dialect)));
    }
  }

  /** Run the catalog query and test whether its frame is empty. */
  method AskCatalog(blux: Blux, query: string, verbose: bool) returns (out: Outcome<bool>)
    modifies blux, blux.engine
    ensures (blux.State(), out) ==
      UtilsSpec.AskCatalog(blux.engine.answer, blux.dialect, blux.errLimit, old(blux.State()), query, verbose)
  {
    var df := blux.Sql(Some(query), NoFrame, None, DefaultChunksize, verbose);
    match df
    case Done(None) =>
      out := Exited(ExitOnCaught(verbose, NoneHasNoEmpty));
    case Done(Some(f)) =>
      out := Done(!Empty(f));
    case Exited(m) =>
      out := Exited(m);
    case Escaped(m) =>
      out := Exited(ExitOnCaught(verbose, m));
  }

  /** `drop_table`: `DROP TABLE` when the table exists. */
  method DropTable(blux: Blux, table: string, verbose: bool) returns (out: Outcome<()>)
    modifies blux, blux.engine
    ensures (blux.State(), out) ==
      UtilsSpec.DropTable(blux.engine.answer, blux.dialect, blux.errLimit, old(blux.State()), table, verbose)
  {
    var found := IsExist(blux, table, verbose);
    if found == Done(true) {
      var dropped := blux.Sql(Some(DropStatement(table)), NoFrame, None, DefaultChunksize, verbose);
      out := Settle(dropped, verbose);
    } else {
      out := Settle(found, verbose);
    }
  }

  /** `create_table_from_dataframe`: generate the text, drop, create, load. */
  method CreateTableFromDataframe(blux: Blux, frame: Frame, table: string, verbose: bool) returns (out: Outcome<()>)
    modifies blux, blux.engine
    ensures (blux.State(), out) ==
      UtilsSpec.CreateTableFromDataframe(blux.engine.answer, blux.dialect, blux.errLimit, old(blux.State()),
                                         frame, table, verbose)
  {
    var text := CreateTableText(frame.columns, table);
    var dropped := DropTable(blux, table, verbose);
    if !dropped.Done? {
      return dropped;
    }
    var created := blux.Sql(Some(text), NoFrame, None, DefaultChunksize, verbose);
    if !created.Done? {
      return Settle(created, verbose);
    }
    var loaded := blux.Sql(None, frame, Some(table), DefaultChunksize, verbose);
    out := Settle(loaded, verbose);
  }
}
