/**
 * `create_table_text`: the `CREATE TABLE` statement generated from a
 * dataframe's column labels, every column a lower-cased, quoted name of type
 * `varchar(255)`.
 */
module Ddl {
  import opened Text

  /** What precedes the table name, what lies between it and the columns, and what follows them. */
  const Head := "\n        CREATE TABLE    "
  const Open := "\n                        (\n                        "
  const Close := "\n                        );\n                        "

  /** What follows a column's name in its definition. */
  const ColumnType := "\" varchar(255)"

  /** `'"' + name.lower() + '" varchar(255)'`. */
  function ColumnDefinition(name: string): (d: string)
    ensures |d| == |name| + 1 + |ColumnType|
  {
    "\"" + Lower(name) + ColumnType
  }

  /** The list comprehension: one definition per column, in column order. */
  function Definitions(columns: seq<string>): (defs: seq<string>)
    ensures |defs| == |columns|
    ensures forall i :: 0 <= i < |columns| ==> defs[i] == ColumnDefinition(columns[i])
  {
    seq(|columns|, i requires 0 <= i < |columns| => ColumnDefinition(columns[i]))
  }

  /** The statement: the definitions joined by `",\n"` and embedded after the table name. */
  function CreateTableText(columns: seq<string>, table: string): string
  {
    Head + table + Open + Join(Definitions(columns), ",\n") + Close
  }

  // ---------------------------------------------------------------------------
  // Reading the statement back
  // ---------------------------------------------------------------------------

  /** The column name in a definition, when the text is one. */
  function DefinitionName(d: string): Option<string>
  {
    if |d| >= 1 + |ColumnType| && d[0] == '"' && d[|d| - |ColumnType|..] == ColumnType then
      Some(d[1..|d| - |ColumnType|])
    else None
  }

  /** The names in the lines of a column block, every line but the last ending in `,`. */
  function ParseLines(lines: seq<string>): Option<seq<string>>
    decreases |lines|
  {
    if |lines| == 0 then Some([])
    else if |lines| == 1 then
      match DefinitionName(lines[0])
      case None => None
      case Some(n) => Some([n])
    else
      var line := lines[0];
      if |line| == 0 || line[|line| - 1] != ',' then None
      else match (DefinitionName(line[..|line| - 1]), ParseLines(lines[1..]))
        case (Some(n), Some(rest)) => Some([n] + rest)
        case _ => None
  }

  /** The column names of a statement for `table`, when the text is one. */
  function ParseCreateTable(text: string, table: string): Option<seq<string>>
  {
    var prefix := Head + table + Open;
    if |text| < |prefix| + |Close| || text[..|prefix|] != prefix || text[|text| - |Close|..] != Close then None
    else ParseBlock(text[|prefix|..|text| - |Close|])
  }

  /** The column names of a column block: none for an empty block, one per line otherwise. */
  function ParseBlock(block: string): Option<seq<string>>
  {
    if block == "" then Some([]) else ParseLines(Split(block, '\n'))
  }

  predicate SingleLine(columns: seq<string>)
  {
    forall i :: 0 <= i < |columns| ==> '\n' !in columns[i]
  }

  /** A definition reads back as the lower-cased name. */
  lemma DefinitionRoundTrip(name: string)
    ensures DefinitionName(ColumnDefinition(name)) == Some(Lower(name))
  {
    var d := ColumnDefinition(name);
    assert d[1..|d| - |ColumnType|] == Lower(name);
    assert d[|d| - |ColumnType|..] == ColumnType;
  }

  /** Lower-casing introduces no line break. */
  lemma LowerSingleLine(s: string)
    requires '\n' !in s
    ensures '\n' !in Lower(s)
  {
    var r := Lower(s);
    forall i | 0 <= i < |r|
      ensures r[i] != '\n'
    {
      assert s[i] in s;
    }
  }

  /**
   * The column block of single-line labels reads back as the lower-cased
   * labels, in column order; no columns give the empty block, read back as none.
   */
  lemma BlockRoundTrip(columns: seq<string>)
    requires SingleLine(columns)
    ensures ParseBlock(Join(Definitions(columns), ",\n")) == Some(Lowered(columns))
  {
    var defs := Definitions(columns);
    if |columns| == 0 {
      assert Lowered(columns) == [];
    } else {
      assert Join(defs, ",\n") != "" by {
        if |defs| > 1 {
          assert Join(defs, ",\n") == defs[0] + ",\n" + Join(defs[1..], ",\n");
        }
        assert |defs[0]| > 0;
      }
      LinesRoundTrip(columns);
    }
  }

  /**
   * Split on line breaks, the column block of one or more single-line labels
   * gives one line per column, and those lines read back as the lower-cased labels.
   */
  lemma {:induction false} LinesRoundTrip(columns: seq<string>)
    requires |columns| >= 1 && SingleLine(columns)
    ensures ParseLines(Split(Join(Definitions(columns), ",\n"), '\n')) == Some(Lowered(columns))
    decreases |columns|
  {
    if |columns| == 1 {
      var d0 := Definitions(columns)[0];
      DefinitionRoundTrip(columns[0]);
      LowerSingleLine(columns[0]);
      assert '\n' !in d0;
      assert Join(Definitions(columns), ",\n") == d0;
      SplitNone(d0, '\n');
      assert Lowered(columns) == [Lower(columns[0])];
    } else {
      var tail := columns[1..];
      assert SingleLine(tail) by {
        forall i | 0 <= i < |tail|
          ensures '\n' !in tail[i]
        {
          assert tail[i] == columns[i + 1];
        }
      }
      LinesRoundTrip(tail);
      BlockStep(columns);
    }
  }

  /** The block of two or more labels reads back once the block of all but the first does. */
  lemma BlockStep(columns: seq<string>)
    requires |columns| >= 2 && '\n' !in columns[0]
    requires ParseLines(Split(Join(Definitions(columns[1..]), ",\n"), '\n')) == Some(Lowered(columns[1..]))
    ensures ParseLines(Split(Join(Definitions(columns), ",\n"), '\n')) == Some(Lowered(columns))
  {
    var d0 := ColumnDefinition(columns[0]);
    var tail := columns[1..];
    DefinitionRoundTrip(columns[0]);
    LowerSingleLine(columns[0]);
    var rest := Join(Definitions(tail), ",\n");
    BlockLines(columns);
    ParseLinesCons(d0, Lower(columns[0]), Split(rest, '\n'), Lowered(tail));
    assert Lowered(columns) == [Lower(columns[0])] + Lowered(tail);
  }

  /** The lines of a block of two or more definitions: the first, with its comma, then the rest's. */
  lemma BlockLines(columns: seq<string>)
    requires |columns| >= 2 && '\n' !in Lower(columns[0])
    ensures Split(Join(Definitions(columns), ",\n"), '\n')
      == [ColumnDefinition(columns[0]) + ","] + Split(Join(Definitions(columns[1..]), ",\n"), '\n')
  {
    var defs := Definitions(columns);
    var d0 := defs[0];
    assert '\n' !in d0;
    assert defs[1..] == Definitions(columns[1..]);
    var rest := Join(Definitions(columns[1..]), ",\n");
    assert Join(defs, ",\n") == (d0 + ",") + ['\n'] + rest;
    assert '\n' !in d0 + ",";
    SplitAfterFirst(d0 + ",", '\n', rest);
  }

  /** A definition line ending in a comma, followed by lines that parse, parses. */
  lemma ParseLinesCons(d: string, name: string, more: seq<string>, names: seq<string>)
    requires DefinitionName(d) == Some(name) && |more| >= 1 && ParseLines(more) == Some(names)
    ensures ParseLines([d + ","] + more) == Some([name] + names)
  {
    var line := d + ",";
    var lines := [line] + more;
    assert lines[1..] == more;
    assert line[|line| - 1] == ',' && line[..|line| - 1] == d;
  }

  /**
   * The statement for single-line labels reads back, given the table it was
   * generated for, as the labels lower-cased, one per column and in column order.
   */
  lemma CreateTableRoundTrip(columns: seq<string>, table: string)
    requires SingleLine(columns)
    ensures ParseCreateTable(CreateTableText(columns, table), table) == Some(Lowered(columns))
  {
    var text := CreateTableText(columns, table);
    var prefix := Head + table + Open;
    var block := Join(Definitions(columns), ",\n");
    assert text == prefix + block + Close;
    assert text[..|prefix|] == prefix;
    assert text[|text| - |Close|..] == Close;
    assert text[|prefix|..|text| - |Close|] == block;
    BlockRoundTrip(columns);
  }

  /** Labels that differ only in case give the same statement. */
  lemma CreateTableIgnoresCase(columns: seq<string>, other: seq<string>, table: string)
    requires Lowered(columns) == Lowered(other)
    ensures CreateTableText(columns, table) == CreateTableText(other, table)
  {
    assert Definitions(columns) == Definitions(other) by {
      forall i | 0 <= i < |columns|
        ensures Definitions(columns)[i] == Definitions(other)[i]
      {
        assert Lowered(columns)[i] == Lowered(other)[i];
      }
    }
  }
}
