# pyblux, modelled in Dafny

pyblux is a small Python layer over database drivers. It has three parts:

- `get_engine` builds an SQLAlchemy connection URL for six dialects: teradata, oracle, postgres, mssql, sqlite and mysql.
- The `Blux` session class runs statements through one engine. It loads a dataframe into a table in one of two ways:
  - for teradata, in chunks of `executemany` inserts, fetching the warnings, errors and logon sequence numbers after each chunk into three instance lists;
  - for any other dialect, with a single `copy_from`.
- A few helpers sit on top of the session: `is_exist`, `create_table_text`, `drop_table`, `create_table_from_dataframe` and the payload of `send_teams_notification`.

This project models that core and proves what it promises.

The database is an oracle, `seq<Request> -> Reply`. Given everything sent so far, it answers the last request. An `Engine` object records that history, so the order of every statement the library issues can be observed. A Python exception is a value in the model: `Escaped(message)` when nothing catches it. `sys.exit` is a value too: `Exited(message)`.

Code that works step by step is written as imperative Dafny:

- `Blux` is a class. Its fields are the error limit, the warnings, errors and logons lists, and the attempted counts. The attempted counts are a ghost record of the values blux.py:56 logs in verbose mode. They are recorded in either mode.
- The chunk loop is a `while` loop over those fields.
- `drop_table` and `create_table_from_dataframe` are methods that call the session.
- The notification payload is built key by key.

Each method is proved to end in the state given by a specification function:

- `BluxSpec.Sql`, `ChunkedLoad`, `CopyLoad` and `RunQuery` for the session;
- `UtilsSpec.IsExist`, `DropTable` and `CreateTableFromDataframe` for the helpers.

The properties are lemmas about those functions.

Pure code is written as functions and lemmas:

- the URL formatting;
- the catalog-query templates and the chained `replace`;
- the table-name split;
- the DDL text;
- the chunk arithmetic;
- the fact selection.

Modules, one per file:

| module | file | covers |
|---|---|---|
| `Text` | text.dfy | `split`, `join`, `replace`, `rstrip`, `lower`, decimal text |
| `Driver` | driver.dfy | requests, replies, the `Engine`, the exit messages |
| `Connection` | connection.dfy | `get_engine` |
| `Catalog` | catalog.dfy | the `is_exist` templates, the split and the substitution |
| `Ddl` | ddl.dfy | `create_table_text` |
| `Notify` | notify.dfy | `send_teams_notification`'s payload |
| `Chunks` | chunks.dfy | `range(0, n, c)` and `[i:i+c]` |
| `BluxSpec` | blux_spec.dfy | what a session call does, as functions |
| `BluxSession` | blux.dfy | the `Blux` class |
| `BluxProps` | blux_props.dfy | lemmas on dispatch, the chunk loop, and the copy and query paths |
| `BluxAccumulators` | accumulators.dfy | lemmas on what the three lists hold |
| `UtilsSpec` | utils_spec.dfy | `is_exist`, `drop_table` and `create_table_from_dataframe`, as functions, with their lemmas |
| `Utils` | utils.dfy | the same three as methods on a `Blux` |

## Model

| member | source | states |
|---|---|---|
| Connection.ConnectionUrl | pyblux/utils.py:29-48 | A URL exists exactly for the six dialects. For sqlite it is `sqlite://`. For oracle it is `oracle://user:password@` followed by what `makedsn(host, port, database)` returns. |
| Connection.DriverModule | pyblux/utils.py:29-47 | Every dialect except sqlite imports a driver module; an unknown dialect imports none. |
| Connection.UrlShape | pyblux/utils.py:33-48 | For teradata, postgres, mssql and mysql, the URL is `<scheme>://user:password@host:port/database` followed by the dialect's tail. The tail is the parameter for teradata, the ODBC driver suffix for mssql, and nothing otherwise. |
| Connection.ConnectionUrlFields | pyblux/utils.py:33-48 | Parsing that URL back yields the scheme and exactly the user, password, host, decimal port, and database with its tail, whenever the fields contain no delimiters. |
| Connection.TeradataNoParameter | pyblux/utils.py:31-33 | For teradata, a missing parameter gives exactly the same result as the empty string. |
| Connection.SqliteIgnoresCredentials | pyblux/utils.py:44-45 | For sqlite, the result does not depend on the credentials or the parameter. It succeeds iff creating the `sqlite://` engine raises nothing. |
| Connection.Failure | pyblux/utils.py:28-56 | An unknown dialect fails with the unassigned-variable error. A missing driver module fails with the import error naming that module. For a known dialect whose driver imports, the failure is exactly what creating the engine from the dialect's URL raises, if anything. |
| Connection.GetEngine | pyblux/utils.py:14-63 | It never lets an exception escape. An engine is returned iff the dialect is known, its driver module imports, and creating the engine from its URL raises nothing. The engine returned is built from that URL. An unknown dialect always exits. Every exit carries the caught failure's message, formatted as `verbose` selects. |
| Driver.Caught | pyblux/utils.py:53-54 | The caught text is non-empty and ends in exactly one newline. What precedes the newline is a newline-free prefix of the message that stops at the message's first newline or at its end: its first line. |
| Driver.ExitOnCaught | pyblux/utils.py:53-60 | In verbose mode the exit text embeds the first line of the message and ends in a newline. Otherwise it is the hint. |
| Driver.Engine.Call | pyblux/blux.py:39-44 | Sending a request appends it to the history and returns the database's answer to that history. |
| Catalog.Template | pyblux/utils.py:116-137 | A template exists exactly for the six dialects. |
| Catalog.CatalogQuery | pyblux/utils.py:149 | A query exists exactly for the six dialects. Every other dialect takes the `KeyError` path. |
| Catalog.TemplateLiterals | pyblux/utils.py:116-137 | No literal text of any of the six templates contains a brace, so only the holes can match a placeholder. |
| Catalog.UnqualifiedCatalogQuery | pyblux/utils.py:143-149 | For a brace-free name without a dot on a known dialect, the query is the template rendered with an empty schema, an empty database and the whole table as the name. |
| Catalog.SplitQualified | pyblux/utils.py:143-146 | For a dotted name, the name is segment 1 and later segments are dropped. Segment 0 is the schema for postgres, mssql and mysql, and the database for every other dialect. |
| Catalog.ReplaceHole | pyblux/utils.py:149 | Replacing every occurrence of one placeholder in a written template equals filling that hole of the template, provided the literals and the value contain no braces. |
| Catalog.FillRenders | pyblux/utils.py:149 | The chained replace (schema, then name, then database) of a template yields the template with its three holes filled. |
| Catalog.CatalogQueryRenders | pyblux/utils.py:143-149 | For a brace-free table name, the query of a known dialect is its template rendered with the split parts. |
| Catalog.TeradataCatalogQuery | pyblux/utils.py:143-149 | For teradata and dotless, brace-free `db` and `name`, `db.name` asks `dbc.tables` for database `db` and table `name`. |
| UtilsSpec.IsExistUnknownDialect | pyblux/utils.py:149-163 | An unknown dialect sends nothing and exits with the `KeyError` message for the dialect. |
| UtilsSpec.AskCatalogAnswer | pyblux/utils.py:149-163 | The statement is sent first and nothing but the history changes. The answer is never an escaped exception. A `true`/`false` answer comes back exactly when three replies are answers: the `execute` with a result set that has a column, the `commit`, and the `fetchall`. The requests are sent in that order, and the answer is `true` iff the fetched rows are non-empty. An answered, committed statement without a result set exits with the `'NoneType' object has no attribute 'empty'` error. |
| UtilsSpec.IsExistAnswer | pyblux/utils.py:143-163 | The same holds for `is_exist` with its dialect's catalog query. |
| UtilsSpec.DropIffExists | pyblux/utils.py:202-216 | If the table exists, the next request is `DROP TABLE <table>;`. Otherwise nothing more is sent and the existence check's outcome is settled. No exception escapes. |
| UtilsSpec.DropTableExtends | pyblux/utils.py:197-216 | `is_exist` and `drop_table` only extend the session's history and lists. `drop_table` never lets an exception escape. |
| UtilsSpec.CreateAndLoadOrder | pyblux/utils.py:227-228 | The `CREATE TABLE` text is sent first. When the frame has rows and all succeeds, the first load request comes later. No exception escapes. |
| UtilsSpec.CreateTableOrder | pyblux/utils.py:222-229 | The order is drop, then create (sent right after the drop's requests), then load. An incomplete drop stops everything and leaves its outcome. |
| Utils.IsExist | pyblux/utils.py:107-164 | The method ends in the state and outcome of `UtilsSpec.IsExist`. |
| Utils.AskCatalog | pyblux/utils.py:149-163 | The method ends in the state and outcome of `UtilsSpec.AskCatalog`. |
| Utils.DropTable | pyblux/utils.py:197-216 | The method ends in the state and outcome of `UtilsSpec.DropTable`. |
| Utils.CreateTableFromDataframe | pyblux/utils.py:219-238 | The method ends in the state and outcome of `UtilsSpec.CreateTableFromDataframe`. |
| Ddl.DefinitionRoundTrip | pyblux/utils.py:177 | A column definition reads back as the lower-cased label. |
| Ddl.BlockRoundTrip | pyblux/utils.py:177 | When no label contains a newline, reading the joined definitions back yields the lower-cased labels in order. Each line is one definition, and an empty block, the one for no columns, yields none. |
| Ddl.CreateTableRoundTrip | pyblux/utils.py:177-183 | The statement, read back given its table, yields one lower-cased label per column in column order. This includes a frame with no columns, whose statement has an empty column list. |
| Ddl.CreateTableIgnoresCase | pyblux/utils.py:177-183 | Labels that differ only in case give the same statement. |
| Notify.Put | pyblux/utils.py:244-255 | Assigning a key sets it, appends it only if it is new, and leaves every other key unchanged. |
| Notify.BuildPayload | pyblux/utils.py:242-271 | The payload has the keys title, text and sections, in that order, with the given title and text. The sections are the activity card and the output card. The output's one fact is ("Error Message", the encoded error) when the status is exactly `FAILLED`, and ("Message", message) otherwise. |
| BluxSession.Blux.constructor | pyblux/blux.py:12-29 | A new session keeps its engine and dialect, has error limit 1, and has empty warnings, errors and logons. |
| BluxSession.Blux.Sql | pyblux/blux.py:31-123 | The method ends in the state and outcome of `BluxSpec.Sql`. It only extends the history and the lists. |
| BluxSession.Blux.LoadChunked | pyblux/blux.py:38-91 | The method ends in the state and outcome of `ChunkedLoad`. |
| BluxSession.Blux.InsertChunks | pyblux/blux.py:51-73 | The loop ends in the state (or the exception) that `RunChunks` gives for the chunk body. |
| BluxSession.Blux.InsertChunk | pyblux/blux.py:52-73 | One pass ends in the state (or the exception) that `ChunkStep` gives. |
| BluxSession.Blux.Fetch | pyblux/blux.py:59-60 | An `execute` and `fetchall` pair sends those two requests and returns their rows, or the first exception. |
| BluxSession.Blux.Summarize | pyblux/blux.py:75-83 | The verbose summary raises only through `"".join` on a non-text item. |
| BluxSession.Blux.LoadCopy | pyblux/blux.py:93-120 | The method ends in the history and outcome of `CopyLoad`. |
| BluxSession.Blux.Query | pyblux/blux.py:125-154 | The method ends in the history and outcome of `RunQuery`. |
| BluxSession.Blux.RollbackAndExit | pyblux/blux.py:111-120 | A failure is followed by `ROLLBACK`, then by the exit (or by the rollback's own exception). |
| BluxSpec.ExecuteFetch | pyblux/blux.py:59-60 | A fetch sends `execute`. It sends `fetchall` exactly when the execute did not raise. A failure carries the message of the request that raised and returns no rows. A success returns exactly the rows the database answered to `fetchall`. |
| BluxSpec.LogFirstError | pyblux/blux.py:68-69 | Logging the first error row raises nothing when not verbose or when its first item is text. |
| BluxSpec.JoinTexts | pyblux/blux.py:78 | `"".join` succeeds iff every item is text. |
| BluxProps.PlaceholdersAreJoinedMarks | pyblux/blux.py:53 | The placeholder list for k columns is k `?` joined by `", "`. |
| BluxProps.PlaceholderCount | pyblux/blux.py:53 | It is empty for no column and has length 3k-2 otherwise. |
| BluxAccumulators.WarningsRequestLimitOne | pyblux/blux.py:58 | With the initial error limit, the warnings request embeds `ERRLIMIT 1;` before the insert. |
| BluxProps.SqlChunkedPath | pyblux/blux.py:38-44 | A non-empty frame, a table and teradata take the chunked path: autocommit-off goes first, and the path returns nothing. |
| BluxProps.SqlCopyPath | pyblux/blux.py:93-120 | A non-empty frame and a table with any other dialect take the copy path. It touches no list, and on success sends exactly the copy requests and returns nothing. |
| BluxProps.SqlQueryPath | pyblux/blux.py:122-123 | Otherwise a given query runs through `__sql` and changes no list. Without a query nothing is sent and nothing is returned. |
| BluxProps.SqlFrameOnlyFromQuery | pyblux/blux.py:38-123 | A frame is returned only by the query path. |
| BluxProps.SqlLoadStart | pyblux/blux.py:38-106 | A load's first request is autocommit-off for teradata and the copy's first statement otherwise. |
| BluxProps.SqlExtends | pyblux/blux.py:31-123 | Any call only extends the history and the four lists. Logons grow only while the first error row has no empty item. |
| BluxProps.ChunkStepEffect | pyblux/blux.py:52-73 | A chunk that completes sends the insert, the warnings fetch, the errors fetch, and the logon fetch iff the first error row has no empty item. It records `i + len(chunk)`. A chunk that stops has sent a non-empty prefix of those requests. |
| BluxProps.ChunkStepRequests | pyblux/blux.py:52-73 | The requests of one chunk are a prefix of the seven possible ones. When the chunk completes, they are exactly those its logon decision calls for. |
| BluxProps.ChunkStepAccumulators | pyblux/blux.py:56-73 | The three lists only grow. Logons grow only when the kept first error row has no empty item. A completed chunk has an error row. |
| BluxProps.ChunkStepBatches | pyblux/blux.py:54 | Each pass sends its chunk as exactly one batch. |
| BluxProps.StickyLogonDecision | pyblux/blux.py:67 | Once the first error row holds an empty item, no later call appends a logon. The decision reads index 0, never the newest row. |
| BluxProps.RunChunksBatches | pyblux/blux.py:51-54 | A completed loop sent the slices `[i:i+c]`, in order, as its batches. |
| BluxProps.RunChunksBatchesStopped | pyblux/blux.py:51-91 | A loop stopped by an exception sent a non-empty prefix of those slices. |
| BluxProps.RunChunksAttempted | pyblux/blux.py:51-56 | A completed loop recorded the attempted counts `min(i + c, n)`, in order. These are the counts blux.py:56 logs in verbose mode; the model records them in either mode. |
| BluxProps.ChunkedLoadRanLoop | pyblux/blux.py:44-91 | A chunked load that completes ran the whole loop after autocommit-off and ends in the loop's state. |
| BluxProps.ChunkedLoadInsertsEveryRow | pyblux/blux.py:51-56 | After a completed chunked load, the batches sent concatenate to the rows. There are ceil(n/c) of them, each of 1 to c rows, and the attempted counts are those of the slices. |
| BluxProps.ChunkedLoadExtends | pyblux/blux.py:44-73 | A chunked load only extends the session, starting with autocommit-off. |
| BluxProps.ChunkedLoadStart | pyblux/blux.py:44 | A chunked load's first request is autocommit-off, and it returns no frame. |
| BluxAccumulators.ChunkStepKeepsReplies | pyblux/blux.py:58-73 | A completed chunk appends to warnings, errors and logons exactly the rows the database returned to that chunk's three fetches. |
| BluxAccumulators.ChunkedLoadKeepsReplies | pyblux/blux.py:51-73 | After a completed chunked load, each list is its old value followed by every row returned to its fetch, in chunk order. Nothing is reset. |
| BluxAccumulators.FlattenAppend | pyblux/blux.py:75-76 | Flattening concatenates the items of the rows in order. |
| BluxProps.RunQueryOutcome | pyblux/blux.py:130-154 | `__sql` sends the query first. A frame is returned only when the description is non-empty: after `commit` and `fetchall`, with lower-cased column names and the fetched rows. Without a description nothing is returned after `commit`. A failure ends with `ROLLBACK`. Conversely, when the database answers the requests without raising, the call succeeds with exactly that frame, or with nothing when there is no description. |
| BluxProps.CopySendOutcome | pyblux/blux.py:100-106 | A dotted table sets the search path to segment 0 and copies into segment 1. Any other table is copied as given. Without a failure this is the copy's request list up to the final commit. |
| BluxProps.CopyLoadOutcome | pyblux/blux.py:93-120 | The copy path succeeds only after exactly its copy requests and the commit, returning nothing. Every failure ends with `ROLLBACK`. |
| BluxProps.CopyLoadStart | pyblux/blux.py:100-106 | The copy's first request is the search path for a dotted table and the copy itself otherwise. |
| Chunks.SlicesCover | pyblux/blux.py:51-52 | The chunks from offset i concatenate to `rows[i:]`, in order, with no gap or overlap. |
| Chunks.SlicesBounded | pyblux/blux.py:51-52 | Every chunk has between 1 and c rows. |
| Chunks.SlicesCount | pyblux/blux.py:51 | There are ceil((n - i)/c) chunks. |
| Chunks.SlicesAtOffsets | pyblux/blux.py:51-52 | Chunk k is `rows[o:min(o + c, n)]` at offset o = i + k*c. |
| Chunks.AttemptedIsOffsetPlusChunk | pyblux/blux.py:56 | The attempted count recorded after chunk k (logged only in verbose mode) is its offset plus its length. |
| Chunks.AttemptedIncreasing | pyblux/blux.py:56 | The recorded attempted counts strictly increase, lie in (i, n], and end at n. |

## Left out

- Cursor opening and closing are not requests in the model. `cur.close()` raises nothing here.
- `fast_executemany` is not modelled: it is a driver setting with no effect on the requests.
- Log output is not modelled, except for two things. The counts blux.py:56 logs in verbose mode are recorded, in either mode, as the attempted counts. So are the log calls that can raise: the first error row's text at blux.py:69 and the summary join at blux.py:78.
- The `logger` argument is not modelled: it is the builtin `print`.
- `get_connection` is not modelled: it only calls drivers, and as written it refers to names that are never defined.
- `send_email` and `requests.post` are not modelled: both are SMTP or HTTP I/O.
- logger.py is not part of this model: it only sets up logging handlers.
- setup.py is not part of this model: it is packaging metadata.
- `json.dumps` is an opaque function parameter of `Notify.BuildPayload`.
- `cx_Oracle.makedsn` and `create_engine` are opaque fields of `Connection.Environment`. `create_engine` is given as the exception it raises, if any.
- The `str()` of the `UnboundLocalError` for an unknown dialect in `get_engine` depends on the interpreter version. It is a field of the environment.
- The dataframe is its column labels and rows. Pandas internals and `to_csv` serialisation are left out, so the copy request carries the rows themselves.
- `DataFrame.empty` is true when either axis is empty. A frame built by `__sql` has at least one column.
- `None` arguments where the source takes text (`table`, `query`) are written as `Option` only where the source tests for `None`. A `None` table in `is_exist`, `drop_table` or `create_table_text` is not modelled.
- Column labels are text. A non-text label would raise inside `create_table_text` (caught and turned into an exit); that path is not modelled.
- `lower()` is modelled on ASCII letters only. Unicode case mapping is not modelled.
- UtilsSpec.IsExistUnknownDialect: the `KeyError` message of an unknown dialect is `'<dialect>'` without Python's `repr` escaping of quotes and backslashes.
- Catalog.CatalogQueryRenders: the agreement between the catalog query and its rendered template is proved only for brace-free table names. A table name containing `{name}`-like text is rendered by the chained replace as written, and `Catalog.FillRenders` does not describe it.
- Catalog.TeradataCatalogQuery: stated only for a database and a name without dots or braces. A further dot is dropped by the split (see `Catalog.SplitQualified`), and braces are outside `Catalog.CatalogQueryRenders`.
- Ddl.CreateTableRoundTrip: stated only for labels without newlines. A newline inside a label makes the text ambiguous to read back.
- Connection.ConnectionUrlFields: stated only for fields without the URL delimiters, and not for oracle. The oracle URL ends in the opaque `makedsn` result, so `Connection.ConnectionUrl` states its form and nothing is parsed back.
- BluxSpec.RunQuery: the fetched rows are taken to fit the description. When `pd.DataFrame` rejects rows whose width does not match the column list (blux.py:142), the cursor is already closed, and the `ROLLBACK` at blux.py:149 then raises the driver's closed-cursor error, which escapes. That error path, and its driver-specific message, are not modelled.
- Concurrency is not modelled: the library is single-threaded.
