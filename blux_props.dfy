/**
 * Properties of a `Blux` session: the insert markers, the partition of the
 * rows into chunks as the database sees it, the append-only accumulators, the
 * logon-sequence decision, the rollback before every exit, and the dispatch.
 */
module BluxProps {
  import opened Text
  import opened Chunks
  import opened Driver
  import opened BluxSpec

  // ---------------------------------------------------------------------------
  // Insert markers
  // ---------------------------------------------------------------------------

  /** The markers are `k` question marks separated by `", "`; none when `k == 0`. */
  lemma {:induction false} PlaceholdersAreJoinedMarks(k: nat)
    ensures Placeholders(k) == Join(Marks(k), ", ")
  {
    if k > 0 {
      RepeatIsJoinPlusSeparator(k);
      var x := Join(Marks(k), ", ");
      JoinedMarksEndInMark(k);
      RStripSuffix(x, ", ", {',', ' '});
    }
  }

  lemma {:induction false} RepeatIsJoinPlusSeparator(k: nat)
    requires k > 0
    ensures Repeat("?, ", k) == Join(Marks(k), ", ") + ", "
    decreases k
  {
    if k > 1 {
      RepeatIsJoinPlusSeparator(k - 1);
      assert Marks(k)[1..] == Marks(k - 1);
      assert Join(Marks(k), ", ") == "?" + ", " + Join(Marks(k - 1), ", ");
    }
  }

  lemma {:induction false} JoinedMarksEndInMark(k: nat)
    requires k > 0
    ensures |Join(Marks(k), ", ")| > 0 && Join(Marks(k), ", ")[|Join(Marks(k), ", ")| - 1] == '?'
    decreases k
  {
    if k > 1 {
      JoinedMarksEndInMark(k - 1);
      assert Marks(k)[1..] == Marks(k - 1);
    }
  }

  /** Stripping a suffix made of stripped characters gives back the text before it. */
  lemma {:induction false} RStripSuffix(x: string, t: string, chars: set<char>)
    requires forall i :: 0 <= i < |t| ==> t[i] in chars
    requires x == [] || x[|x| - 1] !in chars
    ensures RStrip(x + t, chars) == x
    decreases |t|
  {
    if t == [] {
      assert x + t == x;
    } else {
      var s := x + t;
      assert s[|s| - 1] == t[|t| - 1];
      assert s[..|s| - 1] == x + t[..|t| - 1];
      RStripSuffix(x, t[..|t| - 1], chars);
    }
  }

  /** The number of markers equals the number of columns. */
  lemma PlaceholderCount(k: nat)
    ensures k > 0 ==> |Placeholders(k)| == 3 * k - 2
    ensures k == 0 ==> Placeholders(k) == ""
  {
    PlaceholdersAreJoinedMarks(k);
    if k > 0 { JoinedMarksLength(k); }
  }

  lemma {:induction false} JoinedMarksLength(k: nat)
    requires k > 0
    ensures |Join(Marks(k), ", ")| == 3 * k - 2
    decreases k
  {
    if k > 1 {
      JoinedMarksLength(k - 1);
      assert Marks(k)[1..] == Marks(k - 1);
    }
  }

  // ---------------------------------------------------------------------------
  // The insert batches the database receives
  // ---------------------------------------------------------------------------

  /** The rows of every `executemany` in a history, in order. */
  function Batches(h: seq<Request>): seq<seq<Row>>
    decreases |h|
  {
    if h == [] then []
    else Batches(h[..|h| - 1]) + (if h[|h| - 1].ExecuteMany? then [h[|h| - 1].batch] else [])
  }

  lemma {:induction false} BatchesAppend(h: seq<Request>, t: seq<Request>)
    ensures Batches(h + t) == Batches(h) + Batches(t)
    decreases |t|
  {
    if t == [] {
      assert h + t == h;
    } else {
      var t' := t[..|t| - 1];
      BatchesAppend(h, t');
      assert (h + t)[..|h + t| - 1] == h + t';
    }
  }

  lemma {:induction false} BatchesWithoutInserts(t: seq<Request>)
    requires forall j :: 0 <= j < |t| ==> !t[j].ExecuteMany?
    ensures Batches(t) == []
    decreases |t|
  {
    if t != [] {
      BatchesWithoutInserts(t[..|t| - 1]);
    }
  }

  /** The statements of one chunk, in the order they are issued. */
  function ChunkRequests(insert: string, chunk: seq<Row>, errLimit: int, logon: bool): seq<Request>
  {
    [ExecuteMany(insert, chunk)] + FetchRequests(insert, errLimit, logon)
  }

  /** The statements after the insert; none of them carries a batch. */
  function FetchRequests(insert: string, errLimit: int, logon: bool): (r: seq<Request>)
    ensures forall j :: 0 <= j < |r| ==> !r[j].ExecuteMany?
  {
    [Execute(WarningsRequest(errLimit, insert)), FetchAll,
     Execute(ErrorsRequest(insert)), FetchAll]
    + (if logon then [Execute(LogonRequest(insert)), FetchAll] else [])
  }

  /**
   * A chunk issues the insert, the warnings request and the errors request in
   * this order, then the logon-sequence request exactly when the first error
   * row ever kept has no empty item; an exception stops it part way through.
   * The accumulators only grow, by the rows fetched for this chunk.
   */
  lemma ChunkStepEffect(db: seq<Request> -> Reply, acc: Acc, table: string, k: int, errLimit: int, verbose: bool,
                        chunk: seq<Row>, end: int)
    ensures var s := ChunkStep(db, acc, table, k, errLimit, verbose, chunk, end);
      && acc.warnings <= s.acc.warnings && acc.errors <= s.acc.errors && acc.logons <= s.acc.logons
      && (s.Continue? ==>
            && |s.acc.errors| > 0
            && s.acc.attempted == acc.attempted + [end]
            && s.acc.history == acc.history + ChunkRequests(InsertStatement(table, k), chunk, errLimit,
                                                            Str("") !in s.acc.errors[0])
            && (Str("") in s.acc.errors[0] ==> s.acc.logons == acc.logons))
      && (s.acc.logons != acc.logons ==> s.Continue? && Str("") !in s.acc.errors[0])
      && acc.history <= s.acc.history && acc.attempted <= s.acc.attempted
      && (s.Stop? ==>
            exists j :: 1 <= j <= 7 && s.acc.history ==
              acc.history + ChunkRequests(InsertStatement(table, k), chunk, errLimit, true)[..j])
  {
    var j := ChunkStepRequests(db, acc, table, k, errLimit, verbose, chunk, end);
    ChunkStepAccumulators(db, acc, table, k, errLimit, verbose, chunk, end);
  }

  /** The accumulators of a chunk: each only grows, and the logons only when the kept first error row allows it. */
  lemma ChunkStepAccumulators(db: seq<Request> -> Reply, acc: Acc, table: string, k: int, errLimit: int, verbose: bool,
                              chunk: seq<Row>, end: int)
    ensures var s := ChunkStep(db, acc, table, k, errLimit, verbose, chunk, end);
      && acc.warnings <= s.acc.warnings && acc.errors <= s.acc.errors && acc.logons <= s.acc.logons
      && (s.Continue? ==>
            && |s.acc.errors| > 0
            && s.acc.attempted == acc.attempted + [end]
            && (Str("") in s.acc.errors[0] ==> s.acc.logons == acc.logons))
      && (s.acc.logons != acc.logons ==> s.Continue? && Str("") !in s.acc.errors[0])
      && acc.attempted <= s.acc.attempted
  {
    var insert := InsertStatement(table, k);
    var s := ChunkStep(db, acc, table, k, errLimit, verbose, chunk, end);
    var h1 := acc.history + [ExecuteMany(insert, chunk)];
    if db(h1).Raised? {
      assert s.acc == acc.(history := h1);
    } else {
      var acc1 := acc.(history := h1, attempted := acc.attempted + [end]);
      var w := ExecuteFetch(db, h1, WarningsRequest(errLimit, insert));
      if w.failure.Some? {
        assert s.acc == acc1.(history := w.history);
      } else {
        var acc2 := acc1.(history := w.history, warnings := acc.warnings + w.rows);
        var e := ExecuteFetch(db, w.history, ErrorsRequest(insert));
        if e.failure.Some? {
          assert s.acc == acc2.(history := e.history);
        } else {
          var acc3 := acc2.(history := e.history, errors := acc.errors + e.rows);
          if |acc3.errors| == 0 {
            assert s == Stop(acc3, IndexOutOfRange);
          } else if Str("") in acc3.errors[0] {
            assert s == Continue(acc3);
          } else if LogFirstError(verbose, acc3.errors[0]).Some? {
            assert s.acc == acc3;
          } else {
            var l := ExecuteFetch(db, e.history, LogonRequest(insert));
            if l.failure.Some? {
              assert s.acc == acc3.(history := l.history);
            } else {
              assert s == Continue(acc3.(history := l.history, logons := acc.logons + l.rows));
            }
          }
        }
      }
    }
  }

  /** The statements of a chunk: all of them when it completes, a non-empty prefix when it stops. */
  lemma ChunkStepRequests(db: seq<Request> -> Reply, acc: Acc, table: string, k: int, errLimit: int, verbose: bool,
                          chunk: seq<Row>, end: int)
    returns (j: nat)
    ensures var s := ChunkStep(db, acc, table, k, errLimit, verbose, chunk, end);
      && 1 <= j <= 7
      && s.acc.history == acc.history + ChunkRequests(InsertStatement(table, k), chunk, errLimit, true)[..j]
      && (s.Continue? ==>
            |s.acc.errors| > 0 &&
            s.acc.history == acc.history + ChunkRequests(InsertStatement(table, k), chunk, errLimit,
                                                         Str("") !in s.acc.errors[0]))
  {
    var insert := InsertStatement(table, k);
    var full := ChunkRequests(insert, chunk, errLimit, true);
    ChunkRequestsPrefixes(insert, chunk, errLimit);
    var s := ChunkStep(db, acc, table, k, errLimit, verbose, chunk, end);
    var h1 := acc.history + [ExecuteMany(insert, chunk)];
    assert h1 == acc.history + full[..1];
    if db(h1).Raised? {
      j := 1;
      assert s.acc.history == h1;
    } else {
      var w := ExecuteFetch(db, h1, WarningsRequest(errLimit, insert));
      j := FetchHistory(acc.history, full, 1, db, WarningsRequest(errLimit, insert));
      if w.failure.Some? {
        assert s.acc.history == w.history;
      } else {
        var e := ExecuteFetch(db, w.history, ErrorsRequest(insert));
        j := FetchHistory(acc.history, full, 3, db, ErrorsRequest(insert));
        if e.failure.Some? {
          assert s.acc.history == e.history;
        } else {
          var errors := acc.errors + e.rows;
          if |errors| == 0 || Str("") in errors[0] || LogFirstError(verbose, errors[0]).Some? {
            assert s.acc.history == e.history;
          } else {
            var l := ExecuteFetch(db, e.history, LogonRequest(insert));
            j := FetchHistory(acc.history, full, 5, db, LogonRequest(insert));
            assert s.acc.history == l.history;
          }
        }
      }
    }
  }

  /**
   * A fetch after the first `j` statements of `full`, when `full` goes on
   * with its execute and the fetch-all, sends the next one or two of them.
   */
  lemma FetchHistory(h: seq<Request>, full: seq<Request>, j: nat, db: seq<Request> -> Reply, sql: string)
    returns (m: nat)
    requires j + 2 <= |full| && full[j] == Execute(sql) && full[j + 1] == FetchAll
    ensures var f := ExecuteFetch(db, h + full[..j], sql);
      && (m == j + 1 || m == j + 2) && f.history == h + full[..m]
      && (f.failure.None? ==> m == j + 2)
  {
    assert full[..j + 1] == full[..j] + [Execute(sql)];
    assert full[..j + 2] == full[..j] + [Execute(sql), FetchAll];
    var f := ExecuteFetch(db, h + full[..j], sql);
    m := if f.history == h + full[..j + 1] then j + 1 else j + 2;
  }


  /** The prefixes of a chunk's statements, one statement at a time. */
  lemma ChunkRequestsPrefixes(insert: string, chunk: seq<Row>, errLimit: int)
    ensures var full := ChunkRequests(insert, chunk, errLimit, true);
      && |full| == 7
      && full[..1] == [ExecuteMany(insert, chunk)]
      && full[1] == Execute(WarningsRequest(errLimit, insert)) && full[2] == FetchAll
      && full[3] == Execute(ErrorsRequest(insert)) && full[4] == FetchAll
      && full[5] == Execute(LogonRequest(insert)) && full[6] == FetchAll
      && full[..5] == ChunkRequests(insert, chunk, errLimit, false)
      && full[..7] == full
  {
  }

  /** A chunk that completes logs its attempted count `end`. */
  lemma ChunkStepAttempted(db: seq<Request> -> Reply, acc: Acc, table: string, k: int, errLimit: int, verbose: bool,
                           chunk: seq<Row>, end: int)
    ensures var s := ChunkStep(db, acc, table, k, errLimit, verbose, chunk, end);
      s.Continue? ==> s.acc.attempted == acc.attempted + [end]
  {
    ChunkStepAccumulators(db, acc, table, k, errLimit, verbose, chunk, end);
  }

  /** A chunk only appends to the accumulators and to the history. */
  lemma ChunkStepGrows(db: seq<Request> -> Reply, acc: Acc, table: string, k: int, errLimit: int, verbose: bool,
                       chunk: seq<Row>, end: int)
    ensures var s := ChunkStep(db, acc, table, k, errLimit, verbose, chunk, end);
      && acc.history <= s.acc.history
      && acc.warnings <= s.acc.warnings && acc.errors <= s.acc.errors && acc.logons <= s.acc.logons
      && acc.attempted <= s.acc.attempted
      && (s.acc.logons != acc.logons ==> |s.acc.errors| > 0 && Str("") !in s.acc.errors[0])
  {
    ChunkStepEffect(db, acc, table, k, errLimit, verbose, chunk, end);
  }

  /** Any non-empty prefix of a chunk's statements carries exactly that chunk as one batch. */
  lemma ChunkPrefixBatches(h: seq<Request>, insert: string, chunk: seq<Row>, errLimit: int, logon: bool, j: int)
    requires 1 <= j <= |ChunkRequests(insert, chunk, errLimit, logon)|
    ensures Batches(h + ChunkRequests(insert, chunk, errLimit, logon)[..j]) == Batches(h) + [chunk]
  {
    var f := FetchRequests(insert, errLimit, logon);
    var t := ChunkRequests(insert, chunk, errLimit, logon)[..j];
    assert t == [ExecuteMany(insert, chunk)] + f[..j - 1];
    BatchesAppend(h, t);
    BatchesAppend([ExecuteMany(insert, chunk)], f[..j - 1]);
    BatchesWithoutInserts(f[..j - 1]);
    assert Batches([ExecuteMany(insert, chunk)]) == [chunk] by {
      assert [ExecuteMany(insert, chunk)][..0] == [];
    }
  }

  /** Whatever happens in a chunk, the database received exactly that chunk as one batch. */
  lemma ChunkStepBatches(db: seq<Request> -> Reply, acc: Acc, table: string, k: int, errLimit: int, verbose: bool,
                         chunk: seq<Row>, end: int)
    ensures Batches(ChunkStep(db, acc, table, k, errLimit, verbose, chunk, end).acc.history) == Batches(acc.history) + [chunk]
  {
    var s := ChunkStep(db, acc, table, k, errLimit, verbose, chunk, end);
    ChunkStepEffect(db, acc, table, k, errLimit, verbose, chunk, end);
    var insert := InsertStatement(table, k);
    if s.Continue? {
      var logon := Str("") !in s.acc.errors[0];
      var full := ChunkRequests(insert, chunk, errLimit, logon);
      assert full[..|full|] == full;
      ChunkPrefixBatches(acc.history, insert, chunk, errLimit, logon, |full|);
    } else {
      var j :| 1 <= j <= 7 && s.acc.history == acc.history + ChunkRequests(insert, chunk, errLimit, true)[..j];
      ChunkPrefixBatches(acc.history, insert, chunk, errLimit, true, j);
    }
  }

  // ---------------------------------------------------------------------------
  // The chunk loop
  // ---------------------------------------------------------------------------

  /** A loop body that sends its chunk as exactly one batch. */
  ghost predicate SendsChunkOnce(step: (Acc, seq<Row>, int) -> Step)
  {
    forall a, chunk, end :: Batches(step(a, chunk, end).acc.history) == Batches(a.history) + [chunk]
  }

  /** A loop body that, when it completes, logs its attempted count. */
  ghost predicate LogsEnd(step: (Acc, seq<Row>, int) -> Step)
  {
    forall a, chunk, end :: step(a, chunk, end).Continue? ==> step(a, chunk, end).acc.attempted == a.attempted + [end]
  }

  /** The accumulators only grow, and logons grow only while the first error row has no empty item. */
  ghost predicate Extends(a: Acc, b: Acc)
  {
    && a.history <= b.history
    && a.warnings <= b.warnings && a.errors <= b.errors && a.logons <= b.logons
    && a.attempted <= b.attempted
    && (b.logons != a.logons ==> |b.errors| > 0 && Str("") !in b.errors[0])
  }

  ghost predicate OnlyExtends(step: (Acc, seq<Row>, int) -> Step)
  {
    forall a, chunk, end :: Extends(a, step(a, chunk, end).acc)
  }

  lemma ChunkBodyFacts(db: seq<Request> -> Reply, table: string, k: int, errLimit: int, verbose: bool)
    ensures SendsChunkOnce(ChunkBody(db, table, k, errLimit, verbose))
    ensures LogsEnd(ChunkBody(db, table, k, errLimit, verbose))
    ensures OnlyExtends(ChunkBody(db, table, k, errLimit, verbose))
  {
    var step := ChunkBody(db, table, k, errLimit, verbose);
    forall a, chunk, end
      ensures Batches(step(a, chunk, end).acc.history) == Batches(a.history) + [chunk]
      ensures step(a, chunk, end).Continue? ==> step(a, chunk, end).acc.attempted == a.attempted + [end]
      ensures Extends(a, step(a, chunk, end).acc)
    {
      ChunkStepBatches(db, a, table, k, errLimit, verbose, chunk, end);
      ChunkStepAttempted(db, a, table, k, errLimit, verbose, chunk, end);
      ChunkStepGrows(db, a, table, k, errLimit, verbose, chunk, end);
    }
  }

  /**
   * `step` does what `ChunkStep` does for this engine, table, column count,
   * error limit and verbosity; its instances are taken only where a
   * `ChunkStep` term is already in view.
   */
  ghost predicate RunsChunkStep(step: (Acc, seq<Row>, int) -> Step, db: seq<Request> -> Reply, table: string,
                                k: int, errLimit: int, verbose: bool)
  {
    forall a: Acc, chunk: seq<Row>, end: int {:trigger ChunkStep(db, a, table, k, errLimit, verbose, chunk, end)} ::
      step(a, chunk, end) == ChunkStep(db, a, table, k, errLimit, verbose, chunk, end)
  }

  lemma ChunkBodyRuns(db: seq<Request> -> Reply, table: string, k: int, errLimit: int, verbose: bool)
    ensures RunsChunkStep(ChunkBody(db, table, k, errLimit, verbose), db, table, k, errLimit, verbose)
  {
  }

  /** One pass of the loop: run the body on the chunk at `i`, then go on from `i + c` unless it stopped. */
  lemma RunChunksNext(step: (Acc, seq<Row>, int) -> Step, acc: Acc, rows: seq<Row>, c: int, i: nat)
    requires c > 0 && i < |rows|
    ensures var end := Min(i + c, |rows|);
      var first := step(acc, rows[i..end], end);
      RunChunks(step, acc, rows, c, i) == if first.Stop? then first else RunChunks(step, first.acc, rows, c, i + c)
  {
  }

  /** One pass of the loop, given what the step made of it, settles the loop or leaves the rest to run. */
  lemma RunChunksAdvance(step: (Acc, seq<Row>, int) -> Step, before: Acc, after: Acc, failure: Option<string>,
                         rows: seq<Row>, c: int, i: nat)
    requires c > 0 && i < |rows|
    requires var end := Min(i + c, |rows|);
      step(before, rows[i..end], end) == if failure.None? then Continue(after) else Stop(after, failure.value)
    ensures RunChunks(step, before, rows, c, i) ==
      if failure.None? then RunChunks(step, after, rows, c, i + c) else Stop(after, failure.value)
  {
  }

  /** A completed loop sent the chunks `rows[i:i+c]`, `rows[i+c:i+2c]`, ... as its batches. */
  lemma {:induction false} RunChunksBatches(step: (Acc, seq<Row>, int) -> Step, acc: Acc, rows: seq<Row>, c: int, i: nat)
    requires c > 0 && SendsChunkOnce(step)
    ensures var s := RunChunks(step, acc, rows, c, i);
      s.Continue? ==> Batches(s.acc.history) == Batches(acc.history) + Slices(rows, c, i)
    decreases |rows| - i
  {
    if i < |rows| {
      var end := Min(i + c, |rows|);
      var chunk := rows[i..end];
      var first := step(acc, chunk, end);
      RunChunksNext(step, acc, rows, c, i);
      if first.Continue? {
        RunChunksBatches(step, first.acc, rows, c, i + c);
        BatchesContinued(step, acc, rows, c, i);
      }
    }
  }

  /** The loop that got past the chunk at `i` and completed sent it, then what the rest of the loop sent. */
  lemma BatchesContinued(step: (Acc, seq<Row>, int) -> Step, acc: Acc, rows: seq<Row>, c: int, i: nat)
    requires c > 0 && i < |rows| && SendsChunkOnce(step)
    requires var end := Min(i + c, |rows|);
      var first := step(acc, rows[i..end], end);
      var rest := RunChunks(step, first.acc, rows, c, i + c);
      && first.Continue?
      && (rest.Continue? ==> Batches(rest.acc.history) == Batches(first.acc.history) + Slices(rows, c, i + c))
    ensures var s := RunChunks(step, acc, rows, c, i);
      s.Continue? ==> Batches(s.acc.history) == Batches(acc.history) + Slices(rows, c, i)
  {
    var end := Min(i + c, |rows|);
    var chunk := rows[i..end];
    var first := step(acc, chunk, end);
    RunChunksNext(step, acc, rows, c, i);
    assert RunChunks(step, acc, rows, c, i) == RunChunks(step, first.acc, rows, c, i + c);
    var before := Batches(acc.history);
    assert Batches(first.acc.history) == before + [chunk];
    var tail := Slices(rows, c, i + c);
    assert Slices(rows, c, i) == [chunk] + tail;
    assert (before + [chunk]) + tail == before + ([chunk] + tail);
  }

  /** A loop stopped by an exception sent a non-empty prefix of those chunks. */
  lemma {:induction false} RunChunksBatchesStopped(step: (Acc, seq<Row>, int) -> Step, acc: Acc, rows: seq<Row>, c: int, i: nat)
    returns (j: nat)
    requires c > 0 && SendsChunkOnce(step)
    requires RunChunks(step, acc, rows, c, i).Stop?
    ensures 1 <= j <= |Slices(rows, c, i)|
    ensures Batches(RunChunks(step, acc, rows, c, i).acc.history) == Batches(acc.history) + Slices(rows, c, i)[..j]
    decreases |rows| - i
  {
    assert i < |rows|;
    var end := Min(i + c, |rows|);
    var first := step(acc, rows[i..end], end);
    RunChunksNext(step, acc, rows, c, i);
    if first.Stop? {
      j := 1;
      BatchesStoppedHere(step, acc, rows, c, i);
    } else {
      var k := RunChunksBatchesStopped(step, first.acc, rows, c, i + c);
      j := k + 1;
      BatchesStoppedLater(step, acc, rows, c, i, k);
    }
  }

  /** The loop stopped by the chunk at `i` sent that chunk alone. */
  lemma BatchesStoppedHere(step: (Acc, seq<Row>, int) -> Step, acc: Acc, rows: seq<Row>, c: int, i: nat)
    requires c > 0 && i < |rows| && SendsChunkOnce(step)
    requires var end := Min(i + c, |rows|); step(acc, rows[i..end], end).Stop?
    ensures 1 <= |Slices(rows, c, i)|
    ensures Batches(RunChunks(step, acc, rows, c, i).acc.history) == Batches(acc.history) + Slices(rows, c, i)[..1]
  {
    var end := Min(i + c, |rows|);
    var chunk := rows[i..end];
    RunChunksNext(step, acc, rows, c, i);
    assert RunChunks(step, acc, rows, c, i) == step(acc, chunk, end);
    assert Batches(step(acc, chunk, end).acc.history) == Batches(acc.history) + [chunk];
    SlicesPrefixStep(rows, c, i, 0);
    assert Slices(rows, c, i + c)[..0] == [];
  }

  /** The loop that got past the chunk at `i` sent it, then what the rest of the loop sent. */
  lemma BatchesStoppedLater(step: (Acc, seq<Row>, int) -> Step, acc: Acc, rows: seq<Row>, c: int, i: nat, k: nat)
    requires c > 0 && i < |rows| && SendsChunkOnce(step)
    requires var end := Min(i + c, |rows|);
      var first := step(acc, rows[i..end], end);
      && first.Continue?
      && k <= |Slices(rows, c, i + c)|
      && Batches(RunChunks(step, first.acc, rows, c, i + c).acc.history)
         == Batches(first.acc.history) + Slices(rows, c, i + c)[..k]
    ensures k + 1 <= |Slices(rows, c, i)|
    ensures Batches(RunChunks(step, acc, rows, c, i).acc.history) == Batches(acc.history) + Slices(rows, c, i)[..k + 1]
  {
    var end := Min(i + c, |rows|);
    var chunk := rows[i..end];
    var first := step(acc, chunk, end);
    RunChunksNext(step, acc, rows, c, i);
    assert RunChunks(step, acc, rows, c, i) == RunChunks(step, first.acc, rows, c, i + c);
    var before := Batches(acc.history);
    assert Batches(first.acc.history) == before + [chunk];
    SlicesPrefixStep(rows, c, i, k);
    var tail := Slices(rows, c, i + c)[..k];
    assert (before + [chunk]) + tail == before + ([chunk] + tail);
  }

  /** The first `k + 1` chunks from `i` are the chunk at `i` and the first `k` chunks after it. */
  lemma SlicesPrefixStep<T>(rows: seq<T>, c: int, i: nat, k: nat)
    requires c > 0 && i < |rows| && k <= |Slices(rows, c, i + c)|
    ensures |Slices(rows, c, i)| == 1 + |Slices(rows, c, i + c)|
    ensures Slices(rows, c, i)[..k + 1] == [rows[i..Min(i + c, |rows|)]] + Slices(rows, c, i + c)[..k]
  {
    var rest := Slices(rows, c, i + c);
    assert Slices(rows, c, i) == [rows[i..Min(i + c, |rows|)]] + rest;
  }

  /** A completed loop logs `min(i + c, n)` after the chunk at each offset `i`. */
  lemma {:induction false} RunChunksAttempted(step: (Acc, seq<Row>, int) -> Step, acc: Acc, rows: seq<Row>, c: int, i: nat)
    requires c > 0 && LogsEnd(step)
    ensures var s := RunChunks(step, acc, rows, c, i);
      s.Continue? ==> s.acc.attempted == acc.attempted + Attempted(i, |rows|, c)
    decreases |rows| - i
  {
    if i < |rows| {
      var end := Min(i + c, |rows|);
      var first := step(acc, rows[i..end], end);
      if first.Continue? {
        RunChunksAttempted(step, first.acc, rows, c, i + c);
      }
    }
  }

  /**
   * Warnings, errors and logons are append-only across the chunks, and so is
   * the engine's history. Once an error row is kept it stays first, so when
   * it holds an empty item no later chunk adds logon sequence numbers.
   */
  lemma {:induction false} RunChunksGrow(step: (Acc, seq<Row>, int) -> Step, acc: Acc, rows: seq<Row>, c: int, i: nat)
    requires c > 0 && OnlyExtends(step)
    ensures Extends(acc, RunChunks(step, acc, rows, c, i).acc)
    decreases |rows| - i
  {
    if i < |rows| {
      var end := Min(i + c, |rows|);
      var first := step(acc, rows[i..end], end);
      assert Extends(acc, first.acc);
      if first.Continue? {
        RunChunksGrow(step, first.acc, rows, c, i + c);
        ExtendsTransitive(acc, first.acc, RunChunks(step, first.acc, rows, c, i + c).acc);
      }
    }
  }

  lemma ExtendsTransitive(a: Acc, b: Acc, d: Acc)
    requires Extends(a, b) && Extends(b, d)
    ensures Extends(a, d)
  {
    if d.logons != a.logons {
      if d.logons == b.logons {
        assert b.logons != a.logons;
        assert b.errors <= d.errors;
        assert |b.errors| > 0 && b.errors[0] == d.errors[0];
      }
    }
  }

  /** A chunked load that ends normally ran the whole loop after turning autocommit off. */
  lemma ChunkedLoadRanLoop(db: seq<Request> -> Reply, acc: Acc, frame: Frame, table: string,
                           errLimit: int, c: int, verbose: bool)
    requires c > 0
    ensures var r := ChunkedLoad(db, acc, frame, table, errLimit, c, verbose);
      var s := RunChunks(ChunkBody(db, table, |frame.columns|, errLimit, verbose),
                         acc.(history := acc.history + [Execute(AutocommitOff)]), frame.rows, c, 0);
      r.1.Done? ==> s.Continue? && r.0 == s.acc
  {
  }

  /**
   * Between `before` and `after` every row of `rows` was inserted exactly
   * once, in order, in ceil(n / c) batches of at most `c` rows, and the counts
   * `min(i + c, n)` were logged.
   */
  ghost predicate InsertedEveryRow(before: Acc, after: Acc, rows: seq<Row>, c: int)
    requires c > 0
  {
    && Batches(before.history) <= Batches(after.history)
    && var sent := Batches(after.history)[|Batches(before.history)|..];
    && Concat(sent) == rows
    && |sent| == (|rows| + c - 1) / c
    && (forall b :: 0 <= b < |sent| ==> 0 < |sent[b]| <= c)
    && after.attempted == before.attempted + Attempted(0, |rows|, c)
  }

  /** Sending the chunks as batches and logging their counts inserts every row exactly once, in order. */
  lemma SlicesInsertEveryRow(before: Acc, after: Acc, rows: seq<Row>, c: int)
    requires c > 0
    requires Batches(after.history) == Batches(before.history) + Slices(rows, c, 0)
    requires after.attempted == before.attempted + Attempted(0, |rows|, c)
    ensures InsertedEveryRow(before, after, rows, c)
  {
    var pre := Batches(before.history);
    var slices := Slices(rows, c, 0);
    assert Batches(after.history)[|pre|..] == slices by {
      assert Batches(after.history) == pre + slices;
    }
    SlicesPartition(rows, c);
  }

  /** The chunks of `rows` concatenate back to `rows`, number ceil(n / c) and each hold 1 to `c` rows. */
  lemma SlicesPartition(rows: seq<Row>, c: int)
    requires c > 0
    ensures Concat(Slices(rows, c, 0)) == rows
    ensures |Slices(rows, c, 0)| == (|rows| + c - 1) / c
    ensures forall b :: 0 <= b < |Slices(rows, c, 0)| ==> 0 < |Slices(rows, c, 0)[b]| <= c
  {
    SlicesCover(rows, c, 0);
    assert rows[0..] == rows;
    SlicesCount(rows, c, 0);
    SlicesBounded(rows, c, 0);
  }

  /**
   * A chunked load that ends normally inserted every row exactly once, in
   * order, in ceil(n / c) batches of at most `c` rows, and logged the counts
   * `min(i + c, n)`.
   */
  lemma ChunkedLoadInsertsEveryRow(db: seq<Request> -> Reply, acc: Acc, frame: Frame, table: string,
                                   errLimit: int, c: int, verbose: bool)
    requires c > 0
    requires ChunkedLoad(db, acc, frame, table, errLimit, c, verbose).1.Done?
    ensures InsertedEveryRow(acc, ChunkedLoad(db, acc, frame, table, errLimit, c, verbose).0, frame.rows, c)
  {
    var acc1 := acc.(history := acc.history + [Execute(AutocommitOff)]);
    var step := ChunkBody(db, table, |frame.columns|, errLimit, verbose);
    ChunkedLoadRanLoop(db, acc, frame, table, errLimit, c, verbose);
    BatchesAppend(acc.history, [Execute(AutocommitOff)]);
    BatchesWithoutInserts([Execute(AutocommitOff)]);
    ChunkLoopInsertsEveryRow(db, table, |frame.columns|, errLimit, verbose, acc1, frame.rows, c);
    InsertedEveryRowFrom(acc, acc1, RunChunks(step, acc1, frame.rows, c, 0).acc, frame.rows, c);
  }

  /** The chunk loop, when it completes, inserted every row exactly once, in order. */
  lemma ChunkLoopInsertsEveryRow(db: seq<Request> -> Reply, table: string, k: int, errLimit: int, verbose: bool,
                                 acc: Acc, rows: seq<Row>, c: int)
    requires c > 0
    requires RunChunks(ChunkBody(db, table, k, errLimit, verbose), acc, rows, c, 0).Continue?
    ensures InsertedEveryRow(acc, RunChunks(ChunkBody(db, table, k, errLimit, verbose), acc, rows, c, 0).acc, rows, c)
  {
    var step := ChunkBody(db, table, k, errLimit, verbose);
    ChunkBodyFacts(db, table, k, errLimit, verbose);
    RunChunksBatches(step, acc, rows, c, 0);
    RunChunksAttempted(step, acc, rows, c, 0);
    SlicesInsertEveryRow(acc, RunChunks(step, acc, rows, c, 0).acc, rows, c);
  }

  /** Requests that carry no batch and log nothing do not change what was inserted. */
  lemma InsertedEveryRowFrom(acc: Acc, acc1: Acc, a: Acc, rows: seq<Row>, c: int)
    requires c > 0
    requires Batches(acc1.history) == Batches(acc.history) && acc1.attempted == acc.attempted
    requires InsertedEveryRow(acc1, a, rows, c)
    ensures InsertedEveryRow(acc, a, rows, c)
  {
  }

  /** Once the first error row holds an empty item, logons never grow again. */
  lemma StickyLogonDecision(a: Acc, b: Acc)
    requires Extends(a, b)
    requires |a.errors| > 0 && Str("") in a.errors[0]
    ensures b.logons == a.logons
  {
    assert |b.errors| > 0 ==> b.errors[0] == a.errors[0];
  }

  /** The chunked load only appends to the accumulators and to the history. */
  lemma ChunkedLoadExtends(db: seq<Request> -> Reply, acc: Acc, frame: Frame, table: string,
                           errLimit: int, c: int, verbose: bool)
    ensures Extends(acc, ChunkedLoad(db, acc, frame, table, errLimit, c, verbose).0)
    ensures Extends(acc.(history := acc.history + [Execute(AutocommitOff)]),
                    ChunkedLoad(db, acc, frame, table, errLimit, c, verbose).0)
  {
    var acc1 := acc.(history := acc.history + [Execute(AutocommitOff)]);
    if c > 0 {
      ChunkLoopExtends(db, table, |frame.columns|, errLimit, verbose, acc1, frame.rows, c);
      ExtendsTransitive(acc, acc1, RunChunks(ChunkBody(db, table, |frame.columns|, errLimit, verbose), acc1, frame.rows, c, 0).acc);
    }
  }

  lemma ChunkLoopExtends(db: seq<Request> -> Reply, table: string, k: int, errLimit: int, verbose: bool,
                         acc: Acc, rows: seq<Row>, c: int)
    requires c > 0
    ensures Extends(acc, RunChunks(ChunkBody(db, table, k, errLimit, verbose), acc, rows, c, 0).acc)
  {
    ChunkBodyFacts(db, table, k, errLimit, verbose);
    RunChunksGrow(ChunkBody(db, table, k, errLimit, verbose), acc, rows, c, 0);
  }

  // ---------------------------------------------------------------------------
  // Queries and the copy path
  // ---------------------------------------------------------------------------

  /**
   * A query is sent first. It yields a frame exactly when its description
   * names at least one column, with those names lower-cased and the fetched
   * rows; otherwise nothing. Every failure rolls back before the exit.
   */
  lemma RunQueryOutcome(db: seq<Request> -> Reply, h: seq<Request>, query: string, verbose: bool)
    ensures var (h', out) := RunQuery(db, h, query, verbose);
      var r := db(h + [Execute(query)]);
      && |h'| > |h| && h'[..|h| + 1] == h + [Execute(query)]
      && (out.Done? ==> r.Answer?)
      && (out.Done? && out.value.Some? ==>
            var d := r.description;
            && d.Some? && |d.value| > 0
            && h' == h + [Execute(query), Commit, FetchAll]
            && out.value.value == Frame(Lowered(d.value), db(h').rows)
            && (forall i, j :: 0 <= i < |d.value| && 0 <= j < |d.value[i]| ==>
                  !('A' <= out.value.value.columns[i][j] <= 'Z')))
      && (out.Done? && out.value.None? ==>
            && h' == h + [Execute(query), Commit]
            && (r.description.None? || r.description.value == []))
      && (!out.Done? ==> h'[|h'| - 1] == Execute(Rollback))
      && (QueryAnswered(db, h, query) && (r.description.None? || r.description.value == []) ==>
            h' == h + [Execute(query), Commit] && out == Done(None))
      && (QueryAnswered(db, h, query) && r.description.Some? && |r.description.value| > 0
          && db(h + [Execute(query), Commit, FetchAll]).Answer? ==>
            && h' == h + [Execute(query), Commit, FetchAll]
            && out == Done(Some(Frame(Lowered(r.description.value), db(h').rows))))
  {
    var (h', out) := RunQuery(db, h, query, verbose);
    assert h'[..|h| + 1] == h + [Execute(query)];
    assert h + [Execute(query)] + [Commit] == h + [Execute(query), Commit];
    assert h + [Execute(query), Commit] + [FetchAll] == h + [Execute(query), Commit, FetchAll];
  }

  /** The database answers the query's `execute` and the `commit` after it without raising. */
  ghost predicate QueryAnswered(db: seq<Request> -> Reply, h: seq<Request>, query: string)
  {
    db(h + [Execute(query)]).Answer? && db(h + [Execute(query), Commit]).Answer?
  }

  /** The statements of a successful copy. */
  function CopyRequests(table: string, rows: seq<Row>): seq<Request>
  {
    if '.' in table then
      var segs := Split(table, '.');
      SplitMany(table, '.');
      [Execute(SearchPath(segs[0])), Commit, CopyFrom(segs[1], rows), Commit]
    else [CopyFrom(table, rows), Commit]
  }

  /**
   * A copy that succeeds sets the search path to the schema and copies into
   * the second segment of a dotted table, or copies into the table as given,
   * and commits; it never returns a frame. Every failure rolls back first.
   */
  lemma CopyLoadOutcome(db: seq<Request> -> Reply, h: seq<Request>, frame: Frame, table: string, verbose: bool)
    ensures var (h', out) := CopyLoad(db, h, frame, table, verbose);
      && |h'| > |h| && h' [..|h|] == h
      && (out.Done? ==> out.value.None? && h' == h + CopyRequests(table, frame.rows))
      && (!out.Done? ==> h'[|h'| - 1] == Execute(Rollback))
  {
    CopySendOutcome(db, h, frame, table);
    CopyLoadAfterSend(db, h, frame, table, verbose);
    var (h3, failure) := CopySend(db, h, frame, table);
    var h' := CopyLoad(db, h, frame, table, verbose).0;
    assert h'[..|h|] == h'[..|h3|][..|h|];
  }

  /** Before its commit, the copy path only appends to the history, and in full sends all but the commit. */
  lemma CopySendOutcome(db: seq<Request> -> Reply, h: seq<Request>, frame: Frame, table: string)
    ensures var (h3, failure) := CopySend(db, h, frame, table);
      && |h3| > |h| && h3[..|h|] == h && h3[..|h| + 1] == h + [FirstCopyRequest(table, frame.rows)]
      && (failure.None? ==> h3 + [Commit] == h + CopyRequests(table, frame.rows))
  {
  }

  /** After the statements before its commit, the copy path only appends a commit, a rollback, or both. */
  lemma CopyLoadAfterSend(db: seq<Request> -> Reply, h: seq<Request>, frame: Frame, table: string, verbose: bool)
    ensures var h3 := CopySend(db, h, frame, table).0;
      var h' := CopyLoad(db, h, frame, table, verbose).0;
      |h'| > |h3| && h'[..|h3|] == h3
  {
    var (h3, failure) := CopySend(db, h, frame, table);
    var h' := CopyLoad(db, h, frame, table, verbose).0;
    if failure.Some? {
      assert h' == h3 + [Execute(Rollback)];
    } else if db(h3 + [Commit]).Raised? {
      assert h' == h3 + [Commit, Execute(Rollback)];
    } else {
      assert h' == h3 + [Commit];
    }
  }

  /** The first statement of a copy: the search path for a dotted table, else the copy itself. */
  function FirstCopyRequest(table: string, rows: seq<Row>): Request
  {
    if '.' in table then
      SplitMany(table, '.');
      Execute(SearchPath(Split(table, '.')[0]))
    else CopyFrom(table, rows)
  }

  /** The first statement a load sends: autocommit off on teradata, else the copy's first statement. */
  function FirstLoadRequest(dialect: string, table: string, rows: seq<Row>): Request
  {
    if dialect == "teradata" then Execute(AutocommitOff) else FirstCopyRequest(table, rows)
  }

  /** Whatever its outcome, a copy sends its first statement before anything else. */
  lemma CopyLoadStart(db: seq<Request> -> Reply, h: seq<Request>, frame: Frame, table: string, verbose: bool)
    ensures var h' := CopyLoad(db, h, frame, table, verbose).0;
      |h'| > |h| && h'[..|h| + 1] == h + [FirstCopyRequest(table, frame.rows)]
  {
    CopySendOutcome(db, h, frame, table);
    CopyLoadAfterSend(db, h, frame, table, verbose);
    var h3 := CopySend(db, h, frame, table).0;
    var h' := CopyLoad(db, h, frame, table, verbose).0;
    assert h'[..|h| + 1] == h'[..|h3|][..|h| + 1];
  }

  /** A load sends its first statement before anything else. */
  lemma SqlLoadStart(db: seq<Request> -> Reply, dialect: string, errLimit: int, acc: Acc,
                     query: Option<string>, frame: Frame, table: Option<string>, chunksize: int, verbose: bool)
    requires |frame.rows| > 0 && table.Some?
    ensures var a := Sql(db, dialect, errLimit, acc, query, frame, table, chunksize, verbose).0;
      |a.history| > |acc.history| && a.history[|acc.history|] == FirstLoadRequest(dialect, table.value, frame.rows)
  {
    if dialect == "teradata" {
      SqlChunkedPath(db, dialect, errLimit, acc, query, frame, table, chunksize, verbose);
    } else {
      CopyLoadStart(db, acc.history, frame, table.value, verbose);
      var h := CopyLoad(db, acc.history, frame, table.value, verbose).0;
      assert h[..|acc.history| + 1][|acc.history|] == h[|acc.history|];
    }
  }

  /** Every call of `sql` only appends to the accumulators and to the history. */
  lemma SqlExtends(db: seq<Request> -> Reply, dialect: string, errLimit: int, acc: Acc,
                   query: Option<string>, frame: Frame, table: Option<string>, chunksize: int, verbose: bool)
    ensures Extends(acc, Sql(db, dialect, errLimit, acc, query, frame, table, chunksize, verbose).0)
  {
    var a := Sql(db, dialect, errLimit, acc, query, frame, table, chunksize, verbose).0;
    if |frame.rows| > 0 && table.Some? && dialect == "teradata" {
      assert a == ChunkedLoad(db, acc, frame, table.value, errLimit, chunksize, verbose).0;
      ChunkedLoadExtends(db, acc, frame, table.value, errLimit, chunksize, verbose);
    } else if |frame.rows| > 0 && table.Some? {
      var h := CopyLoad(db, acc.history, frame, table.value, verbose).0;
      assert a == acc.(history := h);
      CopyLoadOutcome(db, acc.history, frame, table.value, verbose);
      HistoryExtends(acc, h);
    } else if query.Some? {
      var h := RunQuery(db, acc.history, query.value, verbose).0;
      assert a == acc.(history := h);
      RunQueryOutcome(db, acc.history, query.value, verbose);
      assert h[..|acc.history|] == acc.history by {
        assert h[..|acc.history|] == h[..|acc.history| + 1][..|acc.history|];
      }
      HistoryExtends(acc, h);
    } else {
      ExtendsReflexive(acc);
    }
  }

  lemma ExtendsReflexive(a: Acc)
    ensures Extends(a, a)
  {
  }

  /** Sending more requests, and nothing else, extends the state. */
  lemma HistoryExtends(acc: Acc, h: seq<Request>)
    requires |h| >= |acc.history| && h[..|acc.history|] == acc.history
    ensures Extends(acc, acc.(history := h))
  {
  }

  /**
   * `sql` takes the chunked path for a non-empty frame with a table on
   * teradata: autocommit is turned off first, and no frame comes back.
   */
  lemma SqlChunkedPath(db: seq<Request> -> Reply, dialect: string, errLimit: int, acc: Acc,
                       query: Option<string>, frame: Frame, table: Option<string>, chunksize: int, verbose: bool)
    requires |frame.rows| > 0 && table.Some? && dialect == "teradata"
    ensures var (a, out) := Sql(db, dialect, errLimit, acc, query, frame, table, chunksize, verbose);
      && |a.history| > |acc.history| && a.history[|acc.history|] == Execute(AutocommitOff)
      && (out.Done? ==> out.value.None?)
  {
    ChunkedLoadStart(db, acc, frame, table.value, errLimit, chunksize, verbose);
  }

  lemma ChunkedLoadStart(db: seq<Request> -> Reply, acc: Acc, frame: Frame, table: string,
                         errLimit: int, c: int, verbose: bool)
    ensures var (a, out) := ChunkedLoad(db, acc, frame, table, errLimit, c, verbose);
      && |a.history| > |acc.history| && a.history[|acc.history|] == Execute(AutocommitOff)
      && (out.Done? ==> out.value.None?)
  {
    ChunkedLoadExtends(db, acc, frame, table, errLimit, c, verbose);
    var a := ChunkedLoad(db, acc, frame, table, errLimit, c, verbose).0;
    assert (acc.history + [Execute(AutocommitOff)])[|acc.history|] == Execute(AutocommitOff);
  }

  /**
   * `sql` takes the copy path for a non-empty frame with a table on any other
   * dialect: it leaves the accumulators alone and no frame comes back.
   */
  lemma SqlCopyPath(db: seq<Request> -> Reply, dialect: string, errLimit: int, acc: Acc,
                    query: Option<string>, frame: Frame, table: Option<string>, chunksize: int, verbose: bool)
    requires |frame.rows| > 0 && table.Some? && dialect != "teradata"
    ensures var (a, out) := Sql(db, dialect, errLimit, acc, query, frame, table, chunksize, verbose);
      && a.(history := acc.history) == acc
      && (out.Done? ==> out.value.None? && a.history == acc.history + CopyRequests(table.value, frame.rows))
  {
    CopyLoadOutcome(db, acc.history, frame, table.value, verbose);
  }

  /**
   * Without a load, `sql` runs the query when there is one, and the query is
   * the first statement sent; with neither, it sends nothing and returns nothing.
   */
  lemma SqlQueryPath(db: seq<Request> -> Reply, dialect: string, errLimit: int, acc: Acc,
                     query: Option<string>, frame: Frame, table: Option<string>, chunksize: int, verbose: bool)
    requires !(|frame.rows| > 0 && table.Some?)
    ensures var (a, out) := Sql(db, dialect, errLimit, acc, query, frame, table, chunksize, verbose);
      && (query.Some? ==>
            && a.(history := acc.history) == acc
            && |a.history| > |acc.history| && a.history[|acc.history|] == Execute(query.value)
            && (a.history, out) == RunQuery(db, acc.history, query.value, verbose))
      && (query.None? ==> a == acc && out == Done(None))
  {
    if query.Some? {
      RunQueryOutcome(db, acc.history, query.value, verbose);
      var h := RunQuery(db, acc.history, query.value, verbose).0;
      assert h[..|acc.history| + 1][|acc.history|] == h[|acc.history|];
    }
  }

  /** Only the query path yields a frame. */
  lemma SqlFrameOnlyFromQuery(db: seq<Request> -> Reply, dialect: string, errLimit: int, acc: Acc,
                              query: Option<string>, frame: Frame, table: Option<string>, chunksize: int, verbose: bool)
    requires var out := Sql(db, dialect, errLimit, acc, query, frame, table, chunksize, verbose).1;
      out.Done? && out.value.Some?
    ensures !(|frame.rows| > 0 && table.Some?) && query.Some?
  {
    if |frame.rows| > 0 && table.Some? {
      if dialect == "teradata" {
        SqlChunkedPath(db, dialect, errLimit, acc, query, frame, table, chunksize, verbose);
      } else {
        SqlCopyPath(db, dialect, errLimit, acc, query, frame, table, chunksize, verbose);
      }
    }
  }
}
