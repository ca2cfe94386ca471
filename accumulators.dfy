/**
 * Where the rows a `Blux` session keeps come from: every warnings, errors and
 * logon row kept by the chunked load is a row the database returned to the
 * matching request, and they are kept in the order the requests were sent.
 */
module BluxAccumulators {
  import opened Text
  import opened Chunks
  import opened Driver
  import opened BluxSpec
  import opened BluxProps

  /**
   * The rows the database returned to each `fetchall` that directly follows
   * `execute(sql)` in the history `h`, in the order of the history.
   */
  ghost function Replies(db: seq<Request> -> Reply, h: seq<Request>, sql: string): seq<Row>
    decreases |h|
  {
    if |h| < 2 then []
    else
      Replies(db, h[..|h| - 1], sql)
      + (if h[|h| - 2] == Execute(sql) && h[|h| - 1] == FetchAll && db(h).Answer? then db(h).rows else [])
  }

  /** Sending a request other than `fetchall` adds no reply. */
  lemma RepliesSendOther(db: seq<Request> -> Reply, h: seq<Request>, r: Request, sql: string)
    requires r != FetchAll
    ensures Replies(db, h + [r], sql) == Replies(db, h, sql)
  {
    assert (h + [r])[..|h|] == h;
  }

  /**
   * `execute(q)` then `fetchall()` adds the fetched rows to the replies for
   * `q` and nothing to the replies for any other statement; a failure adds
   * nothing.
   */
  lemma ExecuteFetchReplies(db: seq<Request> -> Reply, h: seq<Request>, q: string, sql: string)
    ensures var f := ExecuteFetch(db, h, q);
      Replies(db, f.history, sql)
        == Replies(db, h, sql) + (if f.failure.None? && q == sql then f.rows else [])
  {
    var h1 := h + [Execute(q)];
    RepliesSendOther(db, h, Execute(q), sql);
    if !db(h1).Raised? {
      var h2 := h1 + [FetchAll];
      assert h2[..|h2| - 1] == h1;
    }
  }

  /** The three statements that fetch rows after an insert are pairwise different. */
  lemma FetchRequestsDiffer(errLimit: int, insert: string)
    ensures WarningsRequest(errLimit, insert) != ErrorsRequest(insert)
    ensures WarningsRequest(errLimit, insert) != LogonRequest(insert)
    ensures ErrorsRequest(insert) != LogonRequest(insert)
  {
    var x := "ERRLIMIT " + Decimal(errLimit) + ";" + insert;
    DifferAt(NativeSql, "{fn teradata_get_warnings}", x, "{fn teradata_get_errors}", insert, 17);
    DifferAt(NativeSql, "{fn teradata_get_warnings}", x, "{fn teradata_logon_sequence_number}", insert, 13);
    DifferAt(NativeSql, "{fn teradata_get_errors}", insert, "{fn teradata_logon_sequence_number}", insert, 13);
  }

  /** Two strings that share a prefix and then differ at some position are different. */
  lemma DifferAt(p: string, a: string, x: string, b: string, y: string, i: nat)
    requires i < |a| && i < |b| && a[i] != b[i]
    ensures p + a + x != p + b + y
  {
    assert (p + a + x)[|p| + i] == a[i];
    assert (p + b + y)[|p| + i] == b[i];
  }

  /**
   * `b` kept, after the rows `a` already held, exactly the rows the database
   * returned to the warnings request `w`, the errors request `e` and the
   * logon request `l` sent between `a` and `b`.
   */
  ghost predicate Tracks(db: seq<Request> -> Reply, a: Acc, b: Acc, w: string, e: string, l: string)
  {
    && a.warnings <= b.warnings && a.errors <= b.errors && a.logons <= b.logons
    && Replies(db, b.history, w) == Replies(db, a.history, w) + b.warnings[|a.warnings|..]
    && Replies(db, b.history, e) == Replies(db, a.history, e) + b.errors[|a.errors|..]
    && Replies(db, b.history, l) == Replies(db, a.history, l) + b.logons[|a.logons|..]
  }

  lemma DeltaTransitive(ra: seq<Row>, rb: seq<Row>, rc: seq<Row>, xa: seq<Row>, xb: seq<Row>, xc: seq<Row>)
    requires xa <= xb <= xc
    requires rb == ra + xb[|xa|..] && rc == rb + xc[|xb|..]
    ensures xa <= xc && rc == ra + xc[|xa|..]
  {
    assert xc[|xa|..] == xb[|xa|..] + xc[|xb|..];
  }

  lemma TracksTransitive(db: seq<Request> -> Reply, a: Acc, b: Acc, d: Acc, w: string, e: string, l: string)
    requires Tracks(db, a, b, w, e, l) && Tracks(db, b, d, w, e, l)
    ensures Tracks(db, a, d, w, e, l)
  {
    DeltaTransitive(Replies(db, a.history, w), Replies(db, b.history, w), Replies(db, d.history, w),
                    a.warnings, b.warnings, d.warnings);
    DeltaTransitive(Replies(db, a.history, e), Replies(db, b.history, e), Replies(db, d.history, e),
                    a.errors, b.errors, d.errors);
    DeltaTransitive(Replies(db, a.history, l), Replies(db, b.history, l), Replies(db, d.history, l),
                    a.logons, b.logons, d.logons);
  }

  /** `Tracks` from the rows each accumulator gained and the replies each request gained. */
  lemma TracksByDelta(db: seq<Request> -> Reply, a: Acc, b: Acc, w: string, e: string, l: string,
                      dw: seq<Row>, de: seq<Row>, dl: seq<Row>)
    requires b.warnings == a.warnings + dw && Replies(db, b.history, w) == Replies(db, a.history, w) + dw
    requires b.errors == a.errors + de && Replies(db, b.history, e) == Replies(db, a.history, e) + de
    requires b.logons == a.logons + dl && Replies(db, b.history, l) == Replies(db, a.history, l) + dl
    ensures Tracks(db, a, b, w, e, l)
  {
    assert b.warnings[|a.warnings|..] == dw;
    assert b.errors[|a.errors|..] == de;
    assert b.logons[|a.logons|..] == dl;
  }

  /**
   * The insert, warnings and errors requests of one chunk: the replies to the
   * warnings request gained the fetched warnings, those to the errors request
   * the fetched errors, and those to the logon request nothing.
   */
  lemma InsertFetchReplies(db: seq<Request> -> Reply, h: seq<Request>, insert: string, chunk: seq<Row>, errLimit: int)
    ensures var w, e, l := WarningsRequest(errLimit, insert), ErrorsRequest(insert), LogonRequest(insert);
      var fw := ExecuteFetch(db, h + [ExecuteMany(insert, chunk)], w);
      var fe := ExecuteFetch(db, fw.history, e);
      fw.failure.None? && fe.failure.None? ==>
        && Replies(db, fe.history, w) == Replies(db, h, w) + fw.rows
        && Replies(db, fe.history, e) == Replies(db, h, e) + fe.rows
        && Replies(db, fe.history, l) == Replies(db, h, l)
  {
    var w, e, l := WarningsRequest(errLimit, insert), ErrorsRequest(insert), LogonRequest(insert);
    FetchRequestsDiffer(errLimit, insert);
    var h1 := h + [ExecuteMany(insert, chunk)];
    RepliesSendOther(db, h, ExecuteMany(insert, chunk), w);
    RepliesSendOther(db, h, ExecuteMany(insert, chunk), e);
    RepliesSendOther(db, h, ExecuteMany(insert, chunk), l);
    var fw := ExecuteFetch(db, h1, w);
    ExecuteFetchReplies(db, h1, w, w);
    ExecuteFetchReplies(db, h1, w, e);
    ExecuteFetchReplies(db, h1, w, l);
    ExecuteFetchReplies(db, fw.history, e, w);
    ExecuteFetchReplies(db, fw.history, e, e);
    ExecuteFetchReplies(db, fw.history, e, l);
  }

  /** The logon request gains the fetched logon rows and the other two requests nothing. */
  lemma LogonFetchReplies(db: seq<Request> -> Reply, h: seq<Request>, insert: string, errLimit: int)
    ensures var w, e, l := WarningsRequest(errLimit, insert), ErrorsRequest(insert), LogonRequest(insert);
      var fl := ExecuteFetch(db, h, l);
      fl.failure.None? ==>
        && Replies(db, fl.history, w) == Replies(db, h, w)
        && Replies(db, fl.history, e) == Replies(db, h, e)
        && Replies(db, fl.history, l) == Replies(db, h, l) + fl.rows
  {
    var w, e, l := WarningsRequest(errLimit, insert), ErrorsRequest(insert), LogonRequest(insert);
    FetchRequestsDiffer(errLimit, insert);
    ExecuteFetchReplies(db, h, l, w);
    ExecuteFetchReplies(db, h, l, e);
    ExecuteFetchReplies(db, h, l, l);
  }

  /**
   * A chunk that completes keeps, after the rows already held, exactly the
   * rows the database returned to this chunk's warnings, errors and logon
   * requests.
   */
  lemma ChunkStepKeepsReplies(db: seq<Request> -> Reply, acc: Acc, table: string, k: int, errLimit: int, verbose: bool,
                              chunk: seq<Row>, end: int)
    ensures var insert := InsertStatement(table, k);
      var s := ChunkStep(db, acc, table, k, errLimit, verbose, chunk, end);
      s.Continue? ==>
        Tracks(db, acc, s.acc, WarningsRequest(errLimit, insert), ErrorsRequest(insert), LogonRequest(insert))
  {
    var insert := InsertStatement(table, k);
    var w, e, l := WarningsRequest(errLimit, insert), ErrorsRequest(insert), LogonRequest(insert);
    var s := ChunkStep(db, acc, table, k, errLimit, verbose, chunk, end);
    var h1 := acc.history + [ExecuteMany(insert, chunk)];
    if !db(h1).Raised? {
      var fw := ExecuteFetch(db, h1, w);
      if fw.failure.None? {
        var fe := ExecuteFetch(db, fw.history, e);
        if fe.failure.None? {
          var acc3 := acc.(history := fe.history, attempted := acc.attempted + [end],
                           warnings := acc.warnings + fw.rows, errors := acc.errors + fe.rows);
          InsertFetchReplies(db, acc.history, insert, chunk, errLimit);
          if |acc3.errors| > 0 && Str("") in acc3.errors[0] {
            assert s == Continue(acc3);
            TracksByDelta(db, acc, acc3, w, e, l, fw.rows, fe.rows, []);
          } else if |acc3.errors| > 0 && LogFirstError(verbose, acc3.errors[0]).None? {
            var fl := ExecuteFetch(db, fe.history, l);
            if fl.failure.None? {
              var b := acc3.(history := fl.history, logons := acc.logons + fl.rows);
              assert s == Continue(b);
              LogonFetchReplies(db, fe.history, insert, errLimit);
              TracksByDelta(db, acc, b, w, e, l, fw.rows, fe.rows, fl.rows);
            }
          }
        }
      }
    }
  }

  /** A loop body whose completed chunks keep exactly the replies to `w`, `e` and `l`. */
  ghost predicate KeepsReplies(db: seq<Request> -> Reply, step: (Acc, seq<Row>, int) -> Step,
                               w: string, e: string, l: string)
  {
    forall a, chunk, end :: step(a, chunk, end).Continue? ==> Tracks(db, a, step(a, chunk, end).acc, w, e, l)
  }

  lemma {:induction false} RunChunksKeepReplies(db: seq<Request> -> Reply, step: (Acc, seq<Row>, int) -> Step,
                                                w: string, e: string, l: string,
                                                acc: Acc, rows: seq<Row>, c: int, i: nat)
    requires c > 0 && KeepsReplies(db, step, w, e, l)
    ensures var s := RunChunks(step, acc, rows, c, i);
      s.Continue? ==> Tracks(db, acc, s.acc, w, e, l)
    decreases |rows| - i
  {
    var s := RunChunks(step, acc, rows, c, i);
    if i >= |rows| {
      assert acc.warnings[|acc.warnings|..] == [] && acc.errors[|acc.errors|..] == [];
      assert acc.logons[|acc.logons|..] == [];
    } else {
      var end := Min(i + c, |rows|);
      var first := step(acc, rows[i..end], end);
      if first.Continue? {
        RunChunksKeepReplies(db, step, w, e, l, first.acc, rows, c, i + c);
        if s.Continue? {
          TracksTransitive(db, acc, first.acc, s.acc, w, e, l);
        }
      }
    }
  }

  /**
   * A chunked load that ends normally kept, after the warnings, errors and
   * logon rows the session already held, exactly the rows the database
   * returned to the load's warnings, errors and logon requests, chunk after
   * chunk; nothing kept before is reset.
   */
  lemma ChunkedLoadKeepsReplies(db: seq<Request> -> Reply, acc: Acc, frame: Frame, table: string,
                                errLimit: int, c: int, verbose: bool)
    ensures var insert := InsertStatement(table, |frame.columns|);
      var r := ChunkedLoad(db, acc, frame, table, errLimit, c, verbose);
      r.1.Done? ==>
        Tracks(db, acc, r.0, WarningsRequest(errLimit, insert), ErrorsRequest(insert), LogonRequest(insert))
  {
    var insert := InsertStatement(table, |frame.columns|);
    var w, e, l := WarningsRequest(errLimit, insert), ErrorsRequest(insert), LogonRequest(insert);
    var r := ChunkedLoad(db, acc, frame, table, errLimit, c, verbose);
    var acc1 := acc.(history := acc.history + [Execute(AutocommitOff)]);
    if r.1.Done? {
      RepliesSendOther(db, acc.history, Execute(AutocommitOff), w);
      RepliesSendOther(db, acc.history, Execute(AutocommitOff), e);
      RepliesSendOther(db, acc.history, Execute(AutocommitOff), l);
      assert acc.warnings[|acc.warnings|..] == [] && acc.errors[|acc.errors|..] == [];
      assert acc.logons[|acc.logons|..] == [];
      assert Tracks(db, acc, acc1, w, e, l);
      if c > 0 {
        var step := ChunkBody(db, table, |frame.columns|, errLimit, verbose);
        forall a, chunk, end | step(a, chunk, end).Continue?
          ensures Tracks(db, a, step(a, chunk, end).acc, w, e, l)
        {
          ChunkStepKeepsReplies(db, a, table, |frame.columns|, errLimit, verbose, chunk, end);
        }
        RunChunksKeepReplies(db, step, w, e, l, acc1, frame.rows, c, 0);
        ChunkedLoadRanLoop(db, acc, frame, table, errLimit, c, verbose);
        TracksTransitive(db, acc, acc1, r.0, w, e, l);
      }
    }
  }

  /** The flattened list of a run of rows is the flattened first part followed by the flattened rest. */
  lemma FlattenAppend(a: seq<Row>, b: seq<Row>)
    ensures Flatten(a + b) == Flatten(a) + Flatten(b)
  {
    ConcatAppend(a, b);
  }

  /** Flattening a single row gives its items in order. */
  lemma FlattenOne(r: Row)
    ensures Flatten([r]) == r
  {
    assert [r][1..] == [];
    assert Concat<Value>([]) == [];
    assert Concat([r]) == r + Concat<Value>([]);
  }

  /** With the error limit a new session starts with, the warnings request asks for `ERRLIMIT 1;`. */
  lemma WarningsRequestLimitOne(insert: string)
    ensures WarningsRequest(1, insert)
      == NativeSql + "{fn teradata_get_warnings}" + "ERRLIMIT 1;" + insert
  {
    assert Decimal(1) == "1";
  }
}
