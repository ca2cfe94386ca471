/**
 * The catalog query `is_exist` sends: one template per dialect, the dotted
 * table name split into schema, database and name, and the placeholders
 * filled by three chained `str.replace` calls.
 */
module Catalog {
  import opened Text

  /** The dialects `is_exist` has a template for. */
  const Dialects: set<string> := {"postgres", "teradata", "mssql", "mysql", "oracle", "sqlite"}

  /** The dialects whose qualifier is a schema; elsewhere it is a database. */
  const SchemaDialects: set<string> := {"postgres", "mssql", "mysql"}

  /** The three placeholders a template may contain. */
  datatype Slot = Schema | Database | Name

  /** A template as a sequence of literal text and placeholders. */
  datatype Piece = Lit(text: string) | Hole(slot: Slot)

  function Placeholder(slot: Slot): string
  {
    match slot
    case Schema => "{schema}"
    case Database => "{database}"
    case Name => "{name}"
  }

  /**
   * `query[dialect]`: the catalog query template of each dialect, written out
   * from its pieces; none for any other dialect.
   */
  function Template(dialect: string): (t: Option<string>)
    ensures t.Some? <==> dialect in Dialects
  {
    if dialect in Dialects then Some(Written(Pieces(dialect))) else None
  }

  // The literal text of the templates, written in short runs.

  function PgTables(): (r: string)
    ensures BraceFree(r)
  {
    "select table_name " + "as name FROM " + "information_schema"
      + ".tables WHERE  " + "table_schema = '"
  }

  function PgTableName(): (r: string)
    ensures BraceFree(r)
  {
    "' AND    " + "table_name   = '"
  }

  function PgMatviews(): (r: string)
    ensures BraceFree(r)
  {
    "'\n                " + "            union " + "\n                 "
      + "           select " + "matviewname as " + "name  from "
      + "pg_matviews WHERE " + " schemaname = '"
  }

  function PgMatviewName(): (r: string)
    ensures BraceFree(r)
  {
    "' AND    " + "matviewname   = '"
  }

  function PgViews(): (r: string)
    ensures BraceFree(r)
  {
    "'\n                " + "            " + "union\n            "
      + "                " + "select table_name " + "as name FROM "
      + "information_schema" + ".views WHERE  " + "table_schema = '"
  }

  function PgEnd(): (r: string)
    ensures BraceFree(r)
  {
    "';\n               " + "         "
  }

  function TdTables(): (r: string)
    ensures BraceFree(r)
  {
    "select tablename " + "as name from " + "dbc.tables where "
      + "databasename = '"
  }

  function TdTableName(): (r: string)
    ensures BraceFree(r)
  {
    "' and tablename = " + "'"
  }

  function TdEnd(): (r: string)
    ensures BraceFree(r)
  {
    "';"
  }

  function MsTables(): (r: string)
    ensures BraceFree(r)
  {
    "select table_name " + "as name from " + "information_schema"
      + ".tables where " + "table_schema = '"
  }

  function MsTableName(): (r: string)
    ensures BraceFree(r)
  {
    "' and table_name " + "= '"
  }

  function MsViews(): (r: string)
    ensures BraceFree(r)
  {
    "'\n                " + "            union " + "\n                 "
      + "           select " + "table_name as " + "name from "
      + "information_schema" + ".views where " + "table_schema = '"
  }

  function MsEnd(): (r: string)
    ensures BraceFree(r)
  {
    "'\n                " + "        ;"
  }

  function OraTables(): (r: string)
    ensures BraceFree(r)
  {
    "select table_name " + "as name from " + "all_all_tables " + "where "
      + "owner=upper('"
  }

  function OraTableName(): (r: string)
    ensures BraceFree(r)
  {
    "') and table_name " + "=upper('"
  }

  function OraEnd(): (r: string)
    ensures BraceFree(r)
  {
    "')"
  }

  function LiteTables(): (r: string)
    ensures BraceFree(r)
  {
    "select tbl_name " + "as name from " + "sqlite_schema  "
      + "where tbl_name = '"
  }

  function LiteEnd(): (r: string)
    ensures BraceFree(r)
  {
    "'"
  }

  /**
   * The template of each dialect as literal text and placeholders; mssql and
   * mysql have the same text.
   */
  function Pieces(dialect: string): seq<Piece>
    requires dialect in Dialects
  {
    if dialect == "postgres" then PostgresPieces()
    else if dialect == "teradata" then TeradataPieces()
    else if dialect == "mssql" || dialect == "mysql" then MssqlPieces()
    else if dialect == "oracle" then OraclePieces()
    else SqlitePieces()
  }

  function PostgresPieces(): seq<Piece>
  {
    [Lit(PgTables()), Hole(Schema), Lit(PgTableName()), Hole(Name), Lit(PgMatviews()),
     Hole(Schema), Lit(PgMatviewName()), Hole(Name), Lit(PgViews()), Hole(Schema),
     Lit(PgTableName()), Hole(Name), Lit(PgEnd())]
  }

  function TeradataPieces(): seq<Piece>
  {
    [Lit(TdTables()), Hole(Database), Lit(TdTableName()), Hole(Name), Lit(TdEnd())]
  }

  function MssqlPieces(): seq<Piece>
  {
    [Lit(MsTables()), Hole(Schema), Lit(MsTableName()), Hole(Name), Lit(MsViews()),
     Hole(Schema), Lit(MsTableName()), Hole(Name), Lit(MsEnd())]
  }

  function OraclePieces(): seq<Piece>
  {
    [Lit(OraTables()), Hole(Database), Lit(OraTableName()), Hole(Name), Lit(OraEnd())]
  }

  function SqlitePieces(): seq<Piece>
  {
    [Lit(LiteTables()), Hole(Name), Lit(LiteEnd())]
  }

  /** The template written out, each placeholder as its `{...}` text. */
  function Written(t: seq<Piece>): string
  {
    if t == [] then "" else PieceText(t[0]) + Written(t[1..])
  }

  function PieceText(p: Piece): string
  {
    match p
    case Lit(x) => x
    case Hole(slot) => Placeholder(slot)
  }

  /** The value each placeholder stands for. */
  function Value(slot: Slot, schema: string, database: string, name: string): string
  {
    match slot
    case Schema => schema
    case Database => database
    case Name => name
  }

  /** The template with every placeholder replaced by its value, read piece by piece. */
  function Render(t: seq<Piece>, schema: string, database: string, name: string): string
  {
    if t == [] then ""
    else (match t[0] case Lit(x) => x case Hole(slot) => Value(slot, schema, database, name))
         + Render(t[1..], schema, database, name)
  }

  predicate BraceFree(s: string)
  {
    '{' !in s
  }

  predicate LiteralsBraceFree(t: seq<Piece>)
  {
    forall i :: 0 <= i < |t| ==> t[i].Lit? ==> BraceFree(t[i].text)
  }

  /** No literal text of a template holds a brace. */
  lemma TemplateLiterals(dialect: string)
    requires dialect in Dialects
    ensures LiteralsBraceFree(Pieces(dialect))
  {
    if dialect == "postgres" {
      PostgresLiterals();
    } else if dialect == "teradata" {
      TeradataLiterals();
    } else if dialect == "mssql" || dialect == "mysql" {
      MssqlLiterals();
    } else if dialect == "oracle" {
      OracleLiterals();
    } else {
      SqliteLiterals();
    }
  }

  lemma PostgresLiterals()
    ensures LiteralsBraceFree(PostgresPieces())
  {
  }

  lemma TeradataLiterals()
    ensures LiteralsBraceFree(TeradataPieces())
  {
  }

  lemma MssqlLiterals()
    ensures LiteralsBraceFree(MssqlPieces())
  {
  }

  lemma OracleLiterals()
    ensures LiteralsBraceFree(OraclePieces())
  {
  }

  lemma SqliteLiterals()
    ensures LiteralsBraceFree(SqlitePieces())
  {
  }

  /**
   * The split of the table name: with no dot the whole table is the name; with
   * a dot, segment 0 is the schema on postgres, mssql and mysql and the
   * database elsewhere, and segment 1 is the name.
   */
  function SplitTableName(table: string, dialect: string): (string, string, string)
  {
    if '.' in table then
      SplitMany(table, '.');
      var segs := Split(table, '.');
      if dialect in SchemaDialects then (segs[0], "", segs[1]) else ("", segs[0], segs[1])
    else ("", "", table)
  }

  /** The chained replace: `{schema}`, then `{name}`, then `{database}` replaced everywhere. */
  function Fill(template: string, schema: string, database: string, name: string): string
  {
    ReplaceAll(ReplaceAll(ReplaceAll(template, "{schema}", schema), "{name}", name), "{database}", database)
  }

  /** The query `is_exist` sends for `table`, none when the dialect has no template. */
  function CatalogQuery(dialect: string, table: string): (q: Option<string>)
    ensures q.Some? <==> dialect in Dialects
  {
    match Template(dialect)
    case None => None
    case Some(template) =>
      var (schema, database, name) := SplitTableName(table, dialect);
      Some(Fill(template, schema, database, name))
  }

  // ---------------------------------------------------------------------------
  // Splitting
  // ---------------------------------------------------------------------------

  /** An undotted name is the name, with empty schema and database. */
  lemma SplitUnqualified(table: string, dialect: string)
    requires '.' !in table
    ensures SplitTableName(table, dialect) == ("", "", table)
  {
  }

  /**
   * `q.n` is split into the qualifier `q` and the name `n`, and anything after
   * a second dot is dropped.
   */
  lemma SplitQualified(q: string, n: string, rest: string, dialect: string)
    requires '.' !in q && '.' !in n
    ensures var r := SplitTableName(q + "." + n + rest, dialect);
      && (rest == [] || rest[0] == '.' ==> r.2 == n)
      && (dialect in SchemaDialects ==> r.0 == q && r.1 == "")
      && (dialect !in SchemaDialects ==> r.0 == "" && r.1 == q)
  {
    var table := q + "." + n + rest;
    assert table == q + ['.'] + (n + rest);
    assert '.' in table by { assert table[|q|] == '.'; }
    SplitAfterFirst(q, '.', n + rest);
    if rest == [] {
      assert n + rest == n;
      SplitNone(n, '.');
    } else if rest[0] == '.' {
      assert n + rest == n + ['.'] + rest[1..];
      SplitAfterFirst(n, '.', rest[1..]);
    } else {
      SplitMany(table, '.');
    }
  }

  // ---------------------------------------------------------------------------
  // Chained replace is rendering
  // ---------------------------------------------------------------------------

  /** The template with one placeholder turned into literal text. */
  function Subst(t: seq<Piece>, slot: Slot, v: string): (r: seq<Piece>)
    ensures |r| == |t|
  {
    if t == [] then []
    else [if t[0] == Hole(slot) then Lit(v) else t[0]] + Subst(t[1..], slot, v)
  }

  /** Another placeholder is skipped whole when scanning for `pat`. */
  lemma ReplaceSkipsPlaceholder(ph: string, rest: string, pat: string, v: string)
    requires |pat| >= 2 && |ph| >= 2 && ph[1] != pat[1] && pat[0] !in ph[1..]
    ensures ReplaceAll(ph + rest, pat, v) == ph + ReplaceAll(rest, pat, v)
  {
    var s := ph + rest;
    if |s| < |pat| {
      assert ReplaceAll(rest, pat, v) == rest;
    } else {
      assert s[..|pat|] != pat by {
        assert s[..|pat|][1] == ph[1];
      }
      assert ReplaceAll(s, pat, v) == [s[0]] + ReplaceAll(s[1..], pat, v);
      assert s[1..] == ph[1..] + rest;
      ReplaceSkipsPrefix(ph[1..], rest, pat, v);
      assert [ph[0]] + ph[1..] == ph;
    }
  }

  /** Replacing a placeholder's text in one piece followed by `rest`. */
  lemma ReplacePiece(p: Piece, rest: string, slot: Slot, v: string)
    requires p.Lit? ==> BraceFree(p.text)
    ensures ReplaceAll(PieceText(p) + rest, Placeholder(slot), v) ==
      PieceText(if p == Hole(slot) then Lit(v) else p) + ReplaceAll(rest, Placeholder(slot), v)
  {
    var pat := Placeholder(slot);
    match p
    case Lit(x) =>
      ReplaceSkipsPrefix(x, rest, pat, v);
    case Hole(other) =>
      if other == slot {
        ReplaceAtFront(rest, pat, v);
      } else {
        ReplaceSkipsPlaceholder(Placeholder(other), rest, pat, v);
      }
  }

  lemma LiteralsBraceFreeTail(t: seq<Piece>)
    requires t != [] && LiteralsBraceFree(t)
    ensures LiteralsBraceFree(t[1..]) && (t[0].Lit? ==> BraceFree(t[0].text))
  {
    forall i | 0 <= i < |t[1..]| && t[1..][i].Lit?
      ensures BraceFree(t[1..][i].text)
    {
      assert t[1..][i] == t[i + 1];
    }
  }

  lemma LiteralsBraceFreeCons(p: Piece, t: seq<Piece>)
    requires LiteralsBraceFree(t) && (p.Lit? ==> BraceFree(p.text))
    ensures LiteralsBraceFree([p] + t)
  {
    var s := [p] + t;
    forall i | 0 <= i < |s| && s[i].Lit?
      ensures BraceFree(s[i].text)
    {
      if i > 0 {
        assert s[i] == t[i - 1];
      }
    }
  }

  /** Replacing one placeholder's text in the written-out template writes out its substitution. */
  lemma {:induction false} ReplaceHole(t: seq<Piece>, slot: Slot, v: string)
    requires LiteralsBraceFree(t) && BraceFree(v)
    ensures ReplaceAll(Written(t), Placeholder(slot), v) == Written(Subst(t, slot, v))
    ensures LiteralsBraceFree(Subst(t, slot, v))
    decreases |t|
  {
    if t == [] {
      assert ReplaceAll("", Placeholder(slot), v) == "";
    } else {
      LiteralsBraceFreeTail(t);
      ReplaceHole(t[1..], slot, v);
      var s := Subst(t, slot, v);
      var first := if t[0] == Hole(slot) then Lit(v) else t[0];
      assert s == [first] + Subst(t[1..], slot, v);
      assert Written(t) == PieceText(t[0]) + Written(t[1..]);
      assert Written(s) == PieceText(first) + Written(Subst(t[1..], slot, v));
      ReplacePiece(t[0], Written(t[1..]), slot, v);
      LiteralsBraceFreeCons(first, Subst(t[1..], slot, v));
    }
  }

  /** Substituting all three placeholders, in any order, is rendering. */
  lemma {:induction false} SubstAllRenders(t: seq<Piece>, schema: string, database: string, name: string)
    ensures Written(Subst(Subst(Subst(t, Schema, schema), Name, name), Database, database)) ==
            Render(t, schema, database, name)
    decreases |t|
  {
    if t != [] {
      SubstAllRenders(t[1..], schema, database, name);
      var s1 := Subst(t, Schema, schema);
      var s2 := Subst(s1, Name, name);
      var s3 := Subst(s2, Database, database);
      assert s1[1..] == Subst(t[1..], Schema, schema);
      assert s2[1..] == Subst(s1[1..], Name, name);
      assert s3[1..] == Subst(s2[1..], Database, database);
    }
  }

  /**
   * When neither the templates' literal text nor the values contain `{`, the
   * three chained replaces put each value exactly where its placeholder was.
   */
  lemma FillRenders(t: seq<Piece>, schema: string, database: string, name: string)
    requires LiteralsBraceFree(t) && BraceFree(schema) && BraceFree(database) && BraceFree(name)
    ensures Fill(Written(t), schema, database, name) == Render(t, schema, database, name)
  {
    var s1 := Subst(t, Schema, schema);
    var s2 := Subst(s1, Name, name);
    ReplaceHole(t, Schema, schema);
    ReplaceHole(s1, Name, name);
    ReplaceHole(s2, Database, database);
    SubstAllRenders(t, schema, database, name);
  }

  /**
   * For a table name without `{`, the catalog query is the dialect's template
   * with the split parts in place of its placeholders.
   */
  lemma CatalogQueryRenders(dialect: string, table: string)
    requires dialect in Dialects && BraceFree(table)
    ensures var (schema, database, name) := SplitTableName(table, dialect);
      CatalogQuery(dialect, table) == Some(Render(Pieces(dialect), schema, database, name))
  {
    TemplateLiterals(dialect);
    var (schema, database, name) := SplitTableName(table, dialect);
    if '.' in table {
      SplitMany(table, '.');
      var segs := Split(table, '.');
      JoinSplit(table, '.');
      SegmentsOfBraceFree(segs, table);
    }
    FillRenders(Pieces(dialect), schema, database, name);
  }

  /** Each of the first two segments of a brace-free string is brace-free. */
  lemma SegmentsOfBraceFree(segs: seq<string>, table: string)
    requires |segs| >= 2 && Join(segs, ".") == table && BraceFree(table)
    ensures BraceFree(segs[0]) && BraceFree(segs[1])
  {
    assert Join(segs, ".") == segs[0] + "." + Join(segs[1..], ".");
    if |segs| == 2 {
      assert Join(segs[1..], ".") == segs[1];
    } else {
      assert Join(segs[1..], ".") == segs[1] + "." + Join(segs[2..], ".");
    }
  }

  /**
   * A name without a dot is looked up with empty schema and database: the
   * query is the dialect's template with only its name hole filled.
   */
  lemma UnqualifiedCatalogQuery(dialect: string, table: string)
    requires dialect in Dialects && '.' !in table && BraceFree(table)
    ensures CatalogQuery(dialect, table) == Some(Render(Pieces(dialect), "", "", table))
  {
    SplitUnqualified(table, dialect);
    CatalogQueryRenders(dialect, table);
  }

  /** On teradata `db.t` is looked up as table `t` of database `db`. */
  lemma TeradataCatalogQuery(database: string, name: string)
    requires '.' !in database && '.' !in name && BraceFree(database) && BraceFree(name)
    ensures CatalogQuery("teradata", database + "." + name) ==
      Some(TdTables() + database + TdTableName() + name + TdEnd())
  {
    var table := database + "." + name;
    TeradataSplit(database, name);
    CatalogQueryRenders("teradata", table);
    assert Pieces("teradata") == TeradataPieces();
    TeradataRender(database, name);
  }

  /** On teradata `db.t` splits into database `db` and name `t`. */
  lemma TeradataSplit(database: string, name: string)
    requires '.' !in database && '.' !in name && BraceFree(database) && BraceFree(name)
    ensures SplitTableName(database + "." + name, "teradata") == ("", database, name)
    ensures BraceFree(database + "." + name)
  {
    assert "teradata" !in SchemaDialects;
    SplitQualified(database, name, "", "teradata");
    assert database + "." + name + "" == database + "." + name;
  }

  lemma TeradataRender(database: string, name: string)
    ensures Render(TeradataPieces(), "", database, name) == TdTables() + database + TdTableName() + name + TdEnd()
  {
    var t := TeradataPieces();
    assert Render(t[4..], "", database, name) == TdEnd() by {
      assert t[4..][1..] == [];
    }
    assert Render(t[3..], "", database, name) == name + TdEnd() by {
      assert t[3..][1..] == t[4..];
    }
    assert Render(t[2..], "", database, name) == TdTableName() + name + TdEnd() by {
      assert t[2..][1..] == t[3..];
    }
    assert Render(t[1..], "", database, name) == database + TdTableName() + name + TdEnd() by {
      assert t[1..][1..] == t[2..];
    }
  }
}
