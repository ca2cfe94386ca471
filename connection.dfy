/**
 * `get_engine`: the connection URL each dialect is given, and the way any
 * failure while importing the driver or creating the engine ends the process.
 *
 * The driver modules, `cx_Oracle.makedsn` and SQLAlchemy's `create_engine`
 * are not modelled: an `Environment` says which modules are installed, what
 * `makedsn` returns and which exception, if any, creating the engine raises.
 */
module Connection {
  import opened Text
  import opened Driver

  /** The dialects `get_engine` builds a URL for. */
  const Dialects: set<string> := {"teradata", "oracle", "postgres", "mssql", "sqlite", "mysql"}

  const MssqlDriver := "?driver=SQL+Server+Native+Client+10.0"

  datatype Credentials = Credentials(user: string, password: string, host: string, port: int, database: string)

  /** What the process around `get_engine` supplies. */
  datatype Environment = Environment(
    /** The importable driver modules. */
    installed: set<string>,
    /** `cx_Oracle.makedsn(host, port, service_name=database)`. */
    makeDsn: (string, int, string) -> string,
    /** The message of the exception `create_engine(url)` (and `.raw_connection()` when asked for) raises, if any. */
    createEngine: (string, bool) -> Option<string>,
    /**
     * `str()` of the `UnboundLocalError` raised when the URL variable was
     * never assigned; its wording depends on the interpreter version.
     */
    unboundMessage: string)

  /** The engine handed back: created from `url`, raw connection or not. */
  datatype Handle = Handle(url: string, raw: bool)

  /** `user:password@host:port/database`, the part most URLs share. */
  function Authority(c: Credentials): string
  {
    c.user + ":" + c.password + "@" + c.host + ":" + Decimal(c.port) + "/" + c.database
  }

  /** The module each dialect imports before building its URL; sqlite and unknown dialects import none. */
  function DriverModule(dialect: string): (m: Option<string>)
    ensures m.Some? <==> dialect in Dialects - {"sqlite"}
  {
    if dialect == "teradata" then Some("teradatasqlalchemy")
    else if dialect == "oracle" then Some("cx_Oracle")
    else if dialect == "postgres" then Some("psycopg2")
    else if dialect == "mssql" then Some("pyodbc")
    else if dialect == "mysql" then Some("pymysql")
    else None
  }

  /** The if/elif chain of `get_engine`: a URL for a handled dialect, none for any other. */
  function ConnectionUrl(makeDsn: (string, int, string) -> string, c: Credentials, dialect: string,
                         parameter: Option<string>): (url: Option<string>)
    ensures url.Some? <==> dialect in Dialects
    ensures dialect == "sqlite" ==> url == Some("sqlite://")
    ensures dialect == "oracle" ==>
      url == Some("oracle://" + c.user + ":" + c.password + "@" + makeDsn(c.host, c.port, c.database))
  {
    if dialect == "teradata" then
      Some("teradatasql://" + Authority(c) + (if parameter.None? then "" else parameter.value))
    else if dialect == "oracle" then
      Some("oracle://" + c.user + ":" + c.password + "@" + makeDsn(c.host, c.port, c.database))
    else if dialect == "postgres" then Some("postgresql+psycopg2://" + Authority(c))
    else if dialect == "mssql" then Some("mssql+pyodbc://" + Authority(c) + MssqlDriver)
    else if dialect == "sqlite" then Some("sqlite://")
    else if dialect == "mysql" then Some("mysql+pymysql://" + Authority(c))
    else None
  }

  /** The dialect imports no driver module, or the one it imports is installed. */
  predicate Importable(env: Environment, dialect: string)
  {
    DriverModule(dialect).None? || DriverModule(dialect).value in env.installed
  }

  /** The message of the exception raised inside the `try`, if one is. */
  function Failure(env: Environment, c: Credentials, dialect: string, parameter: Option<string>,
                   rawEngine: bool): (m: Option<string>)
    ensures dialect !in Dialects ==> m == Some(env.unboundMessage)
    ensures DriverModule(dialect).Some? && DriverModule(dialect).value !in env.installed ==>
      m == Some("No module named '" + DriverModule(dialect).value + "'")
    ensures dialect in Dialects && Importable(env, dialect) ==>
      m == env.createEngine(ConnectionUrl(env.makeDsn, c, dialect, parameter).value, rawEngine)
  {
    var driver := DriverModule(dialect);
    if driver.Some? && driver.value !in env.installed then
      Some("No module named '" + driver.value + "'")
    else match ConnectionUrl(env.makeDsn, c, dialect, parameter)
      case None => Some(env.unboundMessage)
      case Some(url) => env.createEngine(url, rawEngine)
  }

  /**
   * `get_engine`: the engine for the dialect's URL, or the exit that every
   * caught exception leads to. No exception leaves the function.
   */
  function GetEngine(env: Environment, c: Credentials, dialect: string, parameter: Option<string>,
                     rawEngine: bool, verbose: bool): (r: Outcome<Handle>)
    ensures !r.Escaped?
    ensures r.Done? <==>
      && dialect in Dialects
      && Importable(env, dialect)
      && env.createEngine(ConnectionUrl(env.makeDsn, c, dialect, parameter).value, rawEngine).None?
    ensures r.Done? ==> r.value == Handle(ConnectionUrl(env.makeDsn, c, dialect, parameter).value, rawEngine)
    ensures dialect !in Dialects ==> r == Exited(ExitOnCaught(verbose, env.unboundMessage))
    ensures r.Exited? ==>
      var m := Failure(env, c, dialect, parameter, rawEngine);
      m.Some? && r.message == ExitOnCaught(verbose, m.value)
  {
    match Failure(env, c, dialect, parameter, rawEngine)
    case Some(m) => Exited(ExitOnCaught(verbose, m))
    case None => Done(Handle(ConnectionUrl(env.makeDsn, c, dialect, parameter).value, rawEngine))
  }

  /** Reads `user:password@host:port/database` back into its five fields. */
  function ParseAuthority(s: string): Option<(string, string, string, string, string)>
  {
    match SplitFirst(s, ':')
    case None => None
    case Some((user, r1)) =>
      match SplitFirst(r1, '@')
      case None => None
      case Some((password, r2)) =>
        match SplitFirst(r2, ':')
        case None => None
        case Some((host, r3)) =>
          match SplitFirst(r3, '/')
          case None => None
          case Some((port, database)) => Some((user, password, host, port, database))
  }

  /** Reads a URL `scheme://authority` back into its scheme and the authority's fields. */
  function ParseUrl(url: string): Option<(string, (string, string, string, string, string))>
  {
    match SplitFirst(url, ':')
    case None => None
    case Some((scheme, rest)) =>
      if |rest| < 2 || rest[..2] != "//" then None
      else match ParseAuthority(rest[2..])
        case None => None
        case Some(fields) => Some((scheme, fields))
  }

  /** Fields that contain none of the delimiters that follow them. */
  predicate Delimited(c: Credentials)
  {
    ':' !in c.user && '@' !in c.password && ':' !in c.host
  }

  /** The parser finds each field up to the first occurrence of its delimiter. */
  lemma ParseFields(user: string, password: string, host: string, port: string, database: string)
    requires ':' !in user && '@' !in password && ':' !in host && '/' !in port
    ensures ParseAuthority(user + [':'] + (password + ['@'] + (host + [':'] + (port + ['/'] + database)))) ==
      Some((user, password, host, port, database))
  {
    var r3 := port + ['/'] + database;
    var r2 := host + [':'] + r3;
    var r1 := password + ['@'] + r2;
    SplitFirstAt(user, ':', r1);
    SplitFirstAt(password, '@', r2);
    SplitFirstAt(host, ':', r3);
    SplitFirstAt(port, '/', database);
  }

  /** The authority reads back as the credentials it was built from, the port in decimal. */
  lemma AuthorityRoundTrip(c: Credentials, tail: string)
    requires Delimited(c)
    ensures ParseAuthority(Authority(c) + tail) ==
      Some((c.user, c.password, c.host, Decimal(c.port), c.database + tail))
  {
    var port := Decimal(c.port);
    assert '/' !in port;
    assert Authority(c) + tail ==
      c.user + [':'] + (c.password + ['@'] + (c.host + [':'] + (port + ['/'] + (c.database + tail))));
    ParseFields(c.user, c.password, c.host, port, c.database + tail);
  }

  /** A URL built as `scheme://` + authority + `tail` reads back as its parts. */
  lemma UrlRoundTrip(scheme: string, c: Credentials, tail: string)
    requires Delimited(c) && ':' !in scheme
    ensures ParseUrl(scheme + "://" + Authority(c) + tail) ==
      Some((scheme, (c.user, c.password, c.host, Decimal(c.port), c.database + tail)))
  {
    var body := Authority(c) + tail;
    assert scheme + "://" + Authority(c) + tail == scheme + "://" + body;
    SchemeSplit(scheme, body);
    AuthorityRoundTrip(c, tail);
  }

  /** The scheme is read up to the first colon, and `//` is skipped. */
  lemma SchemeSplit(scheme: string, body: string)
    requires ':' !in scheme
    ensures ParseUrl(scheme + "://" + body) ==
      match ParseAuthority(body)
      case None => None
      case Some(fields) => Some((scheme, fields))
  {
    var rest := "//" + body;
    assert scheme + "://" + body == scheme + [':'] + rest;
    SplitFirstAt(scheme, ':', rest);
    assert rest[..2] == "//";
    assert rest[2..] == body;
  }

  /** The dialects whose URL is `scheme://` + authority + a tail. */
  const Authorities: set<string> := {"teradata", "postgres", "mssql", "mysql"}

  function Scheme(dialect: string): string
  {
    if dialect == "teradata" then "teradatasql"
    else if dialect == "postgres" then "postgresql+psycopg2"
    else if dialect == "mssql" then "mssql+pyodbc"
    else "mysql+pymysql"
  }

  /** What follows the database: the teradata parameter, the mssql ODBC driver, or nothing. */
  function Tail(dialect: string, parameter: Option<string>): string
  {
    if dialect == "teradata" then (if parameter.None? then "" else parameter.value)
    else if dialect == "mssql" then MssqlDriver
    else ""
  }

  lemma UrlShape(makeDsn: (string, int, string) -> string, c: Credentials, dialect: string, parameter: Option<string>)
    requires dialect in Authorities
    ensures ConnectionUrl(makeDsn, c, dialect, parameter) ==
      Some(Scheme(dialect) + "://" + Authority(c) + Tail(dialect, parameter))
  {
    var authority := Authority(c);
    var tail := Tail(dialect, parameter);
    if dialect == "teradata" {
      assert "teradatasql" + "://" == "teradatasql://";
    } else if dialect == "postgres" {
      assert "postgresql+psycopg2" + "://" + authority + tail == "postgresql+psycopg2://" + authority;
    } else if dialect == "mssql" {
      assert "mssql+pyodbc" + "://" == "mssql+pyodbc://";
    } else {
      assert "mysql+pymysql" + "://" + authority + tail == "mysql+pymysql://" + authority;
    }
  }

  /**
   * The teradata, postgres, mssql and mysql URLs carry the credentials
   * verbatim after the dialect's scheme; mssql appends its ODBC driver and
   * teradata its parameter (nothing when there is none) after the database.
   */
  lemma ConnectionUrlFields(makeDsn: (string, int, string) -> string, c: Credentials,
                            dialect: string, parameter: Option<string>)
    requires dialect in Authorities && Delimited(c)
    ensures ParseUrl(ConnectionUrl(makeDsn, c, dialect, parameter).value) ==
      Some((Scheme(dialect), (c.user, c.password, c.host, Decimal(c.port), c.database + Tail(dialect, parameter))))
  {
    UrlShape(makeDsn, c, dialect, parameter);
    assert ':' !in Scheme(dialect);
    UrlRoundTrip(Scheme(dialect), c, Tail(dialect, parameter));
  }

  /** For teradata a missing parameter behaves exactly like the empty one. */
  lemma TeradataNoParameter(env: Environment, c: Credentials, rawEngine: bool, verbose: bool)
    ensures GetEngine(env, c, "teradata", None, rawEngine, verbose) ==
            GetEngine(env, c, "teradata", Some(""), rawEngine, verbose)
  {
    assert ConnectionUrl(env.makeDsn, c, "teradata", None) == ConnectionUrl(env.makeDsn, c, "teradata", Some(""));
  }

  /** The sqlite engine depends on neither the credentials nor the parameter. */
  lemma SqliteIgnoresCredentials(env: Environment, c1: Credentials, c2: Credentials,
                                 p1: Option<string>, p2: Option<string>, rawEngine: bool, verbose: bool)
    ensures GetEngine(env, c1, "sqlite", p1, rawEngine, verbose) == GetEngine(env, c2, "sqlite", p2, rawEngine, verbose)
    ensures GetEngine(env, c1, "sqlite", p1, rawEngine, verbose).Done? <==> env.createEngine("sqlite://", rawEngine).None?
  {
  }
}
