/** The process-wide database handle (`DBConnection`): the configuration it
    loads, the libpq connection string it renders from it, and its
    connected / not-connected state machine. The JSON reader and the libpq
    connection attempt are outside this model; they appear as the values
    `ConfigFile` and `Attempt`. */
module DbConnection {
  import opened Wrappers
  import opened CText

  /** The fields the JSON file holds; a key that is absent is `None`. */
  datatype ConfigFields = ConfigFields(
    host: Option<string>,
    port: Option<Int32>,
    dbname: Option<string>,
    user: Option<string>,
    password: Option<string>,
    sslmode: Option<string>,
    connectTimeout: Option<Int32>)

  /** What opening and parsing the configuration file gives: a file that
      cannot be opened, a parse or type error of the JSON library (with its
      message), or the fields. */
  datatype ConfigFile = Unopenable | Malformed(message: string) | Parsed(fields: ConfigFields)

  /** A libpq connection object; `open` is what `is_open()` reports. */
  datatype Handle = Handle(open: bool)

  /** The answer of the database server to one connection attempt: a
      connection object was built (open or not), or its constructor threw. */
  datatype Attempt = Opened(open: bool) | Threw(message: string)

  datatype Db = Db(
    host: string,
    port: Int32,
    dbname: string,
    user: string,
    password: string,
    sslmode: string,
    connectTimeout: Int32,
    connectionString: string,
    conn: Option<Handle>)

  datatype TxKind = ReadOnly | ReadWrite

  /** A transaction scope opened on the shared connection. */
  datatype Tx = Tx(kind: TxKind, on: Handle)

  const NotConnected := "Database not connected!"

  /** The singleton as first constructed: the member defaults, no connection. */
  function Fresh(): (db: Db)
    ensures db.port == 5432 && db.connectTimeout == 5
    ensures db.conn.None?
  {
    Db("", 5432, "", "", "", "", 5, "", None)
  }

  /** One `key=value` pair of a libpq connection string. */
  function Setting(key: string, value: string): string {
    key + "=" + value
  }

  predicate NotBlank(c: char) {
    c != ' '
  }

  predicate NotEquals(c: char) {
    c != '='
  }

  predicate NoSpace(w: string) {
    forall i :: 0 <= i < |w| ==> NotBlank(w[i])
  }

  /** The words of a string as written: it splits at every space and at
      nothing else. This is not how libpq reads a connection string; that
      reading is `ConnInfo.Parse`. */
  function Split(s: string): (words: seq<string>)
    ensures words != []
    decreases |s|
  {
    var i := Span(s, NotBlank);
    if i == |s| then [s] else [s[..i]] + Split(s[i + 1..])
  }

  lemma SplitWord(w: string)
    requires NoSpace(w)
    ensures Split(w) == [w]
  {
    SpanOfConcat(w, [], NotBlank);
    assert w + [] == w;
  }

  lemma SplitCons(w: string, rest: string)
    requires NoSpace(w)
    ensures Split(w + " " + rest) == [w] + Split(rest)
  {
    var s := w + " " + rest;
    SpanOfConcat(w, " " + rest, NotBlank);
    assert s == w + (" " + rest);
    assert s[..|w|] == w;
    assert s[|w| + 1..] == rest;
  }

  /** The connection string `loadConfig` builds: seven `key=value`
      settings in a fixed order, separated by single spaces. */
  function ConnectionString(host: string, port: Int32, dbname: string, user: string,
                            password: string, sslmode: string, connectTimeout: Int32): (s: string)
    ensures Setting("host", host) + " " <= s
    ensures var last := " " + Setting("connect_timeout", IntToString(connectTimeout));
      |last| <= |s| && s[|s| - |last|..] == last
  {
    var words := SettingsOf(Pairs(host, port, dbname, user, password, sslmode, connectTimeout));
    JoinLast(words);
    Join(words)
  }

  /** The last word of a join follows the final space. */
  lemma {:induction false} JoinLast(words: seq<string>)
    requires |words| >= 2
    ensures Join(words) == Join(words[..|words| - 1]) + (" " + words[|words| - 1])
  {
    var n := |words|;
    if n > 2 {
      JoinLast(words[1..]);
      assert words[1..][..n - 2] == words[..n - 1][1..];
      assert words[1..][n - 2] == words[n - 1];
    }
  }

  /** Splits one setting at its first `=`. */
  function ParseSetting(w: string): (kv: (string, string))
  {
    var i := Span(w, NotEquals);
    if i == |w| then (w, "") else (w[..i], w[i + 1..])
  }

  lemma ParseSettingOf(key: string, value: string)
    requires forall i :: 0 <= i < |key| ==> NotEquals(key[i])
    ensures ParseSetting(Setting(key, value)) == (key, value)
  {
    var w := Setting(key, value);
    SpanOfConcat(key, "=" + value, NotEquals);
    assert w == key + ("=" + value);
    assert w[..|key|] == key && w[|key| + 1..] == value;
  }

  /** Reading a connection string back: split into settings, each into key and value. */
  function ParseConnectionString(s: string): seq<(string, string)> {
    var words := Split(s);
    seq(|words|, k requires 0 <= k < |words| => ParseSetting(words[k]))
  }

  /** Words separated by single spaces. */
  function Join(words: seq<string>): string
    requires words != []
  {
    if |words| == 1 then words[0] else words[0] + " " + Join(words[1..])
  }

  /** `Split` reads back what `Join` wrote when no word holds a space. */
  lemma {:induction false} SplitJoin(words: seq<string>)
    requires words != []
    requires forall k :: 0 <= k < |words| ==> NoSpace(words[k])
    ensures Split(Join(words)) == words
  {
    if |words| == 1 {
      SplitWord(words[0]);
    } else {
      SplitCons(words[0], Join(words[1..]));
      SplitJoin(words[1..]);
    }
  }

  /** The keys and values of a connection string, in the order `loadConfig` writes them. */
  function Pairs(host: string, port: Int32, dbname: string, user: string,
                 password: string, sslmode: string, connectTimeout: Int32): seq<(string, string)>
  {
    [("host", host), ("port", IntToString(port)), ("dbname", dbname), ("user", user),
     ("password", password), ("sslmode", sslmode), ("connect_timeout", IntToString(connectTimeout))]
  }

  function SettingsOf(pairs: seq<(string, string)>): (words: seq<string>)
    ensures |words| == |pairs|
    ensures forall k :: 0 <= k < |pairs| ==> words[k] == Setting(pairs[k].0, pairs[k].1)
  {
    seq(|pairs|, k requires 0 <= k < |pairs| => Setting(pairs[k].0, pairs[k].1))
  }

  /** A key that neither a space nor an `=` can cut short. */
  predicate PlainKey(key: string) {
    NoSpace(key) && forall i :: 0 <= i < |key| ==> NotEquals(key[i])
  }

  /** A connection string of plain keys and space-free values reads back as its pairs. */
  lemma ReadPairsBack(pairs: seq<(string, string)>)
    requires pairs != []
    requires forall k :: 0 <= k < |pairs| ==> PlainKey(pairs[k].0) && NoSpace(pairs[k].1)
    ensures Split(Join(SettingsOf(pairs))) == SettingsOf(pairs)
    ensures ParseConnectionString(Join(SettingsOf(pairs))) == pairs
  {
    var words := SettingsOf(pairs);
    forall k | 0 <= k < |pairs|
      ensures NoSpace(words[k]) && ParseSetting(words[k]) == pairs[k]
    {
      SettingNoSpace(pairs[k].0, pairs[k].1);
      ParseSettingOf(pairs[k].0, pairs[k].1);
    }
    SplitJoin(words);
  }

  lemma SettingNoSpace(key: string, value: string)
    requires NoSpace(key) && NoSpace(value)
    ensures NoSpace(Setting(key, value))
  {
    var w := Setting(key, value);
    forall i | 0 <= i < |w|
      ensures NotBlank(w[i])
    {
      if i > |key| {
        assert w[i] == value[i - |key| - 1];
      } else if i < |key| {
        assert w[i] == key[i];
      }
    }
  }

  /** When no value holds a space, the connection string splits into exactly its seven settings. */
  lemma ConnectionStringWords(host: string, port: Int32, dbname: string, user: string,
                              password: string, sslmode: string, connectTimeout: Int32)
    requires NoSpace(host) && NoSpace(dbname) && NoSpace(user) && NoSpace(password) && NoSpace(sslmode)
    ensures Split(ConnectionString(host, port, dbname, user, password, sslmode, connectTimeout))
         == SettingsOf(Pairs(host, port, dbname, user, password, sslmode, connectTimeout))
  {
    PairsArePlain(host, port, dbname, user, password, sslmode, connectTimeout);
    ReadPairsBack(Pairs(host, port, dbname, user, password, sslmode, connectTimeout));
  }

  /** When no value holds a space, splitting the connection string at spaces,
      and each word at its first `=`, gives back exactly the seven settings,
      in order, with the values that were rendered. */
  lemma ConnectionStringReadsBack(host: string, port: Int32, dbname: string, user: string,
                                  password: string, sslmode: string, connectTimeout: Int32)
    requires NoSpace(host) && NoSpace(dbname) && NoSpace(user) && NoSpace(password) && NoSpace(sslmode)
    ensures ParseConnectionString(ConnectionString(host, port, dbname, user, password, sslmode, connectTimeout))
         == [("host", host), ("port", IntToString(port)), ("dbname", dbname), ("user", user),
             ("password", password), ("sslmode", sslmode), ("connect_timeout", IntToString(connectTimeout))]
  {
    PairsArePlain(host, port, dbname, user, password, sslmode, connectTimeout);
    ReadPairsBack(Pairs(host, port, dbname, user, password, sslmode, connectTimeout));
  }

  lemma PairsArePlain(host: string, port: Int32, dbname: string, user: string,
                      password: string, sslmode: string, connectTimeout: Int32)
    requires NoSpace(host) && NoSpace(dbname) && NoSpace(user) && NoSpace(password) && NoSpace(sslmode)
    ensures var pairs := Pairs(host, port, dbname, user, password, sslmode, connectTimeout);
      forall k :: 0 <= k < |pairs| ==> PlainKey(pairs[k].0) && NoSpace(pairs[k].1)
  {
    NumberHasNoSpace(port);
    NumberHasNoSpace(connectTimeout);
    KeysArePlain();
  }

  /** None of the keys `loadConfig` writes holds a space or an `=`. */
  lemma KeysArePlain()
    ensures PlainKey("host") && PlainKey("port") && PlainKey("dbname") && PlainKey("user")
    ensures PlainKey("password") && PlainKey("sslmode") && PlainKey("connect_timeout")
  {
  }

  lemma NumberHasNoSpace(n: int)
    ensures NoSpace(IntToString(n))
  {
    var s := IntToString(n);
    var d := if n < 0 then DigitsOf(-n) else DigitsOf(n);
    assert s == if n < 0 then "-" + d else d;
    forall i | 0 <= i < |s|
      ensures NotBlank(s[i])
    {
      if n < 0 && i > 0 {
        assert s[i] == d[i - 1];
      }
    }
  }

  /** `loadConfig(path)`. An absent key replaces the member default with
      `""` or 0, and the connection state is left as it was. */
  function LoadConfig(db: Db, path: string, file: ConfigFile): (r: Result<Db>)
    ensures file.Unopenable? ==> r == Err("Failed to open config file: " + path)
    ensures file.Malformed? ==> r == Err(file.message)
    ensures r.Ok? <==> file.Parsed?
    ensures r.Ok? ==> r.value.conn == db.conn
    ensures r.Ok? ==> var f := file.fields;
      && (f.port.None? ==> r.value.port == 0)
      && (f.connectTimeout.None? ==> r.value.connectTimeout == 0)
      && (f.host.None? ==> r.value.host == "")
      && (f.port.Some? ==> r.value.port == f.port.value)
      && (f.host.Some? ==> r.value.host == f.host.value)
    ensures r.Ok? ==> var f := file.fields;
      && (f.dbname.None? ==> r.value.dbname == "")
      && (f.dbname.Some? ==> r.value.dbname == f.dbname.value)
      && (f.user.None? ==> r.value.user == "")
      && (f.user.Some? ==> r.value.user == f.user.value)
      && (f.password.None? ==> r.value.password == "")
      && (f.password.Some? ==> r.value.password == f.password.value)
      && (f.sslmode.None? ==> r.value.sslmode == "")
      && (f.sslmode.Some? ==> r.value.sslmode == f.sslmode.value)
      && (f.connectTimeout.Some? ==> r.value.connectTimeout == f.connectTimeout.value)
    ensures r.Ok? ==> (r.value.connectionString
                       == ConnectionString(r.value.host, r.value.port, r.value.dbname, r.value.user,
                                           r.value.password, r.value.sslmode, r.value.connectTimeout))
  {
    match file
    case Unopenable => Err("Failed to open config file: " + path)
    case Malformed(m) => Err(m)
    case Parsed(f) =>
      var host := f.host.GetOr("");
      var port := f.port.GetOr(0);
      var dbname := f.dbname.GetOr("");
      var user := f.user.GetOr("");
      var password := f.password.GetOr("");
      var sslmode := f.sslmode.GetOr("");
      var timeout := f.connectTimeout.GetOr(0);
      Ok(Db(host, port, dbname, user, password, sslmode, timeout,
            ConnectionString(host, port, dbname, user, password, sslmode, timeout), db.conn))
  }

  /** `isConnected()`: a connection object exists and is open. */
  predicate IsConnected(db: Db) {
    db.conn.Some? && db.conn.value.open
  }

  /** `connect()`. `server` is how the database answers an attempt made
      with a given connection string. */
  function Connect(db: Db, server: string -> Attempt): (r: (Outcome, Db))
    ensures IsConnected(db) ==> r == (Pass, db)
    ensures r.0.Pass? <==> IsConnected(r.1)
    ensures r.1 == db.(conn := r.1.conn)
    ensures !IsConnected(db) && server(db.connectionString).Threw?
      ==> r == (Fail("Connection error: " + server(db.connectionString).message), db)
    ensures !IsConnected(db) && server(db.connectionString) == Opened(false)
      ==> r == (Fail("Connection error: Database connection failed."), db.(conn := Some(Handle(false))))
    ensures !IsConnected(db) && server(db.connectionString) == Opened(true)
      ==> r == (Pass, db.(conn := Some(Handle(true))))
  {
    if IsConnected(db) then (Pass, db)
    else
      match server(db.connectionString)
      case Threw(m) => (Fail("Connection error: " + m), db)
      case Opened(open) =>
        var db' := db.(conn := Some(Handle(open)));
        if open then (Pass, db') else (Fail("Connection error: Database connection failed."), db')
  }

  /** Once connected, further `connect()` calls change nothing, whatever the server would answer. */
  lemma ConnectIdempotent(db: Db, first: string -> Attempt, later: string -> Attempt)
    requires Connect(db, first).0.Pass?
    ensures Connect(Connect(db, first).1, later) == (Pass, Connect(db, first).1)
  {
  }

  /** `isConnected()` is false on a fresh instance, false after a failed
      `connect()` and true after a successful one. */
  lemma ConnectedState(db: Db, server: string -> Attempt)
    ensures !IsConnected(Fresh())
    ensures Connect(db, server).0.Fail? ==> !IsConnected(Connect(db, server).1)
    ensures Connect(db, server).0.Pass? ==> IsConnected(Connect(db, server).1)
  {
  }

  /** `getConnection()`. */
  function GetConnection(db: Db): (r: Result<Handle>)
    ensures r.Ok? <==> IsConnected(db)
    ensures r.Ok? ==> Some(r.value) == db.conn && r.value.open
    ensures r.Err? ==> r.error == NotConnected
  {
    if IsConnected(db) then Ok(db.conn.value) else Err(NotConnected)
  }

  /** `createReadTransaction()` and `createWriteTransaction()`. */
  function CreateTransaction(db: Db, kind: TxKind): (r: Result<Tx>)
    ensures r.Ok? <==> IsConnected(db)
    ensures r.Ok? ==> r.value.kind == kind && Some(r.value.on) == db.conn
    ensures r.Err? ==> r.error == NotConnected
  {
    match GetConnection(db)
    case Ok(h) => Ok(Tx(kind, h))
    case Err(e) => Err(e)
  }
}
