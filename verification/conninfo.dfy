/** How libpq reads the keyword/value connection string that `pqxx::connection`
    hands to `PQconnectdb` (PostgreSQL documentation, libpq, "Connection
    Strings", keyword/value form): settings `keyword = value` separated by
    whitespace. Whitespace around `=` is skipped. A value is either a run of
    non-whitespace characters or is enclosed in single quotes, and in both a
    backslash takes the next character literally. An empty value must
    therefore be written `''`: left bare, the value is the next word.

    The connection string `loadConfig` writes leaves every value bare. */
module ConnInfo {
  import opened Wrappers
  import opened CText
  import opened DbConnection

  /** A keyword ends at `=` or at whitespace. */
  predicate InKeyword(c: char) {
    c != '=' && !IsSpace(c)
  }

  predicate Keyword(key: string) {
    key != [] && forall i :: 0 <= i < |key| ==> InKeyword(key[i])
  }

  /** A bare value after its first character: up to the next whitespace,
      which is consumed; a backslash takes the next character. */
  function Unquoted(s: string): (r: Read<string>)
    ensures |r.rest| <= |s|
    decreases |s|
  {
    if s == [] then Read([], [])
    else if IsSpace(s[0]) then Read([], s[1..])
    else if s[0] == '\\' then
      if |s| == 1 then Read([], [])
      else var t := Unquoted(s[2..]); Read([s[1]] + t.value, t.rest)
    else var t := Unquoted(s[1..]); Read([s[0]] + t.value, t.rest)
  }

  /** A quoted value after its opening quote, up to the closing quote; a
      backslash takes the next character. `None` when the quote is never closed. */
  function Quoted(s: string): (r: Option<Read<string>>)
    ensures r.Some? ==> |r.value.rest| < |s|
    decreases |s|
  {
    if s == [] then None
    else if s[0] == '\\' then
      if |s| == 1 then None
      else match Quoted(s[2..])
        case None => None
        case Some(t) => Some(Read([s[1]] + t.value, t.rest))
    else if s[0] == '\'' then Some(Read([], s[1..]))
    else match Quoted(s[1..])
      case None => None
      case Some(t) => Some(Read([s[0]] + t.value, t.rest))
  }

  /** The value after `=` and the whitespace that follows it. */
  function Value(s: string): (r: Option<Read<string>>)
    ensures r.Some? ==> |r.value.rest| <= |s|
  {
    if s != [] && s[0] == '\'' then Quoted(s[1..]) else Some(Unquoted(s))
  }

  /** `[(key, value)] + more`, when `more` was read. */
  function Then(kv: (string, string), more: Option<seq<(string, string)>>): Option<seq<(string, string)>> {
    match more
    case None => None
    case Some(m) => Some([kv] + m)
  }

  /** The settings as libpq reads them, in order, or `None` when the string
      is malformed (a keyword without `=`, a quote never closed). Whether a
      keyword is one libpq knows is not checked here. */
  function Parse(s: string): (r: Option<seq<(string, string)>>)
    decreases |s|, 1
  {
    var t := SkipSpace(s);
    if t == [] then Some([])
    else
      var n := Span(t, InKeyword);
      AfterKeyword(t[..n], SkipSpace(t[n..]))
  }

  /** The rest of a setting once its keyword `key` and the whitespace after
      it are read: `=`, whitespace, the value, then the next settings. */
  function AfterKeyword(key: string, after: string): (r: Option<seq<(string, string)>>)
    decreases |after|, 0
  {
    if after == [] || after[0] != '=' then None
    else match Value(SkipSpace(after[1..]))
      case None => None
      case Some(v) => Then((key, v.value), Parse(v.rest))
  }

  /** A value libpq takes as written when it is left bare: not empty, not
      opening with a quote, with no whitespace and no backslash. */
  predicate Bare(v: string) {
    && v != [] && v[0] != '\''
    && forall i :: 0 <= i < |v| ==> !IsSpace(v[i]) && v[i] != '\\'
  }

  /** A value in quotes, with its quotes and backslashes escaped. */
  function Escape(v: string): (e: string)
    ensures |e| >= |v|
  {
    if v == [] then [] else EscapeChar(v[0]) + Escape(v[1..])
  }

  /** A quote or a backslash is preceded by a backslash. */
  function EscapeChar(c: char): (e: string)
    ensures e != [] && e[|e| - 1] == c
  {
    if c == '\'' || c == '\\' then ['\\', c] else [c]
  }

  function QuotedSetting(key: string, value: string): string {
    key + "=" + ("'" + Escape(value) + "'")
  }

  function QuotedSettingsOf(pairs: seq<(string, string)>): (words: seq<string>)
    ensures |words| == |pairs|
    ensures forall k :: 0 <= k < |pairs| ==> words[k] == QuotedSetting(pairs[k].0, pairs[k].1)
  {
    seq(|pairs|, k requires 0 <= k < |pairs| => QuotedSetting(pairs[k].0, pairs[k].1))
  }

  /** The connection string with every value quoted: the same settings in
      the same order as `loadConfig` writes them. */
  function QuotedConnectionString(host: string, port: Int32, dbname: string, user: string,
                                  password: string, sslmode: string, connectTimeout: Int32): string
  {
    Join(QuotedSettingsOf(Pairs(host, port, dbname, user, password, sslmode, connectTimeout)))
  }

  lemma SkipSpaceOf(gap: string, s: string)
    requires forall i :: 0 <= i < |gap| ==> IsSpace(gap[i])
    requires s == [] || !IsSpace(s[0])
    ensures SkipSpace(gap + s) == s
  {
    SpanOfConcat(gap, s, IsSpace);
    assert (gap + s)[|gap|..] == s;
  }

  /** A bare value is read up to the whitespace that ends it. */
  lemma {:induction false} UnquotedBare(v: string, rest: string)
    requires forall i :: 0 <= i < |v| ==> !IsSpace(v[i]) && v[i] != '\\'
    ensures Unquoted(v + " " + rest) == Read(v, rest)
    ensures Unquoted(v) == Read(v, [])
  {
    if v == [] {
      assert v + " " + rest == " " + rest;
    } else {
      assert (v + " " + rest)[0] == v[0];
      assert (v + " " + rest)[1..] == v[1..] + " " + rest;
      UnquotedBare(v[1..], rest);
      assert [v[0]] + v[1..] == v;
    }
  }

  /** A value escaped by `Escape` reads back up to its closing quote. */
  lemma {:induction false} QuotedEscaped(v: string, rest: string)
    ensures Quoted(Escape(v) + "'" + rest) == Some(Read(v, rest))
  {
    var s := Escape(v) + "'" + rest;
    if v == [] {
      assert s == "'" + rest;
      assert s[1..] == rest;
    } else {
      QuotedEscaped(v[1..], rest);
      var tail := Escape(v[1..]) + "'" + rest;
      EscapeCons(v, rest);
      QuotedAfterChar(v[0], tail, v[1..], rest);
      assert [v[0]] + v[1..] == v;
    }
  }

  lemma EscapeCons(v: string, rest: string)
    requires v != []
    ensures Escape(v) + "'" + rest == EscapeChar(v[0]) + (Escape(v[1..]) + "'" + rest)
  {
  }

  /** One escaped character, then the rest of a quoted value. */
  lemma QuotedAfterChar(c: char, tail: string, value: string, rest: string)
    requires Quoted(tail) == Some(Read(value, rest))
    ensures Quoted(EscapeChar(c) + tail) == Some(Read([c] + value, rest))
  {
    var s := EscapeChar(c) + tail;
    if c == '\'' || c == '\\' {
      assert s[0] == '\\' && s[1] == c && s[2..] == tail;
    } else {
      assert s[0] == c && s[1..] == tail;
    }
  }

  /** A keyword is read up to the `=` that follows it. */
  lemma KeywordThen(key: string, tail: string)
    requires Keyword(key)
    requires tail != [] && tail[0] == '='
    ensures Parse(key + tail) == AfterKeyword(key, tail)
  {
    var s := key + tail;
    SkipSpaceOf([], s);
    assert [] + s == s;
    SpanOfConcat(key, tail, InKeyword);
    assert s[..|key|] == key && s[|key|..] == tail;
    SkipSpaceOf([], tail);
    assert [] + tail == tail;
  }

  lemma AfterEquals(key: string, gap: string, text: string, value: string, rest: string)
    requires forall i :: 0 <= i < |gap| ==> IsSpace(gap[i])
    requires text == [] || !IsSpace(text[0])
    requires Value(text) == Some(Read(value, rest))
    ensures AfterKeyword(key, "=" + (gap + text)) == Then((key, value), Parse(rest))
  {
    assert ("=" + (gap + text))[1..] == gap + text;
    SkipSpaceOf(gap, text);
  }

  /** One setting: its keyword, `=`, the whitespace `gap`, and the value's text. */
  lemma ParseStep(key: string, gap: string, text: string, value: string, rest: string, s: string)
    requires Keyword(key)
    requires forall i :: 0 <= i < |gap| ==> IsSpace(gap[i])
    requires text == [] || !IsSpace(text[0])
    requires Value(text) == Some(Read(value, rest))
    requires s == key + ("=" + (gap + text))
    ensures Parse(s) == Then((key, value), Parse(rest))
  {
    KeywordThen(key, "=" + (gap + text));
    AfterEquals(key, gap, text, value, rest);
  }

  /** Whitespace before a setting is skipped. */
  lemma ParseAfterBlank(s: string)
    ensures Parse(" " + s) == Parse(s)
  {
    assert (" " + s)[1..] == s;
    assert Span(" " + s, IsSpace) == 1 + Span(s, IsSpace);
    assert SkipSpace(" " + s) == SkipSpace(s);
  }

  lemma JoinCons(words: seq<string>)
    requires |words| >= 2
    ensures Join(words) == words[0] + " " + Join(words[1..])
  {
  }

  /** How a setting and what follows it are laid out, as `ParseStep` takes them apart. */
  lemma SettingShape(key: string, value: string, rest: string)
    ensures Setting(key, value) + " " + rest == key + ("=" + ([] + (value + " " + rest)))
    ensures Setting(key, value) == key + ("=" + ([] + value))
  {
    assert [] + (value + " " + rest) == value + " " + rest;
    assert [] + value == value;
  }

  /** The last setting is followed by nothing to read. */
  lemma EndOfSettings(kv: (string, string))
    ensures Then(kv, Parse([])) == Some([kv])
  {
    assert [kv] + [] == [kv];
  }

  lemma ConsTail<T>(s: seq<T>)
    requires s != []
    ensures [s[0]] + s[1..] == s
    ensures |s| == 1 ==> s == [s[0]]
  {
  }

  /** A bare setting read, then the settings after it. */
  lemma BareStep(key: string, v: string, rest: string, more: seq<(string, string)>, s: string)
    requires Keyword(key) && Bare(v)
    requires Parse(rest) == Some(more)
    requires s == Setting(key, v) + " " + rest
    ensures Parse(s) == Some([(key, v)] + more)
  {
    UnquotedBare(v, rest);
    SettingShape(key, v, rest);
    ParseStep(key, [], v + " " + rest, v, rest, s);
  }

  /** The last setting, bare. */
  lemma BareLast(key: string, v: string, s: string)
    requires Keyword(key) && Bare(v)
    requires s == Setting(key, v)
    ensures Parse(s) == Some([(key, v)])
  {
    UnquotedBare(v, []);
    SettingShape(key, v, []);
    ParseStep(key, [], v, v, [], s);
    EndOfSettings((key, v));
  }

  /** When every value is bare, libpq reads the settings back as written. */
  lemma {:induction false} BareReadsBack(pairs: seq<(string, string)>)
    requires pairs != []
    requires forall k :: 0 <= k < |pairs| ==> Keyword(pairs[k].0) && Bare(pairs[k].1)
    ensures Parse(Join(SettingsOf(pairs))) == Some(pairs)
  {
    var words := SettingsOf(pairs);
    ConsTail(pairs);
    if |pairs| == 1 {
      BareLast(pairs[0].0, pairs[0].1, Join(words));
    } else {
      assert words[1..] == SettingsOf(pairs[1..]);
      BareReadsBack(pairs[1..]);
      JoinCons(words);
      BareStep(pairs[0].0, pairs[0].1, Join(words[1..]), pairs[1..], Join(words));
    }
  }

  /** A quoted value reads back as the value, whatever follows it. */
  lemma QuotedValue(v: string, rest: string)
    ensures var text := "'" + Escape(v) + "'" + rest;
      text != [] && !IsSpace(text[0]) && Value(text) == Some(Read(v, rest))
  {
    var text := "'" + Escape(v) + "'" + rest;
    assert text[1..] == Escape(v) + "'" + rest;
    QuotedEscaped(v, rest);
  }

  /** A quoted setting read, then the settings after it. */
  lemma QuotedStep(key: string, v: string, rest: string, more: seq<(string, string)>, s: string)
    requires Keyword(key)
    requires Parse(rest) == Some(more)
    requires s == QuotedSetting(key, v) + " " + rest
    ensures Parse(s) == Some([(key, v)] + more)
  {
    var quoted := "'" + Escape(v) + "'";
    QuotedValue(v, " " + rest);
    SettingShape(key, quoted, rest);
    assert quoted + " " + rest == quoted + (" " + rest);
    ParseStep(key, [], quoted + " " + rest, v, " " + rest, s);
    ParseAfterBlank(rest);
  }

  /** The last setting, quoted. */
  lemma QuotedLast(key: string, v: string, s: string)
    requires Keyword(key)
    requires s == QuotedSetting(key, v)
    ensures Parse(s) == Some([(key, v)])
  {
    var quoted := "'" + Escape(v) + "'";
    QuotedValue(v, []);
    assert quoted + [] == quoted;
    SettingShape(key, quoted, []);
    ParseStep(key, [], quoted, v, [], s);
    EndOfSettings((key, v));
  }

  /** When every value is quoted, libpq reads the settings back as written,
      whatever the values hold: empty, with blanks, quotes or backslashes. */
  lemma {:induction false} QuotedSettingsReadBack(pairs: seq<(string, string)>)
    requires pairs != []
    requires forall k :: 0 <= k < |pairs| ==> Keyword(pairs[k].0)
    ensures Parse(Join(QuotedSettingsOf(pairs))) == Some(pairs)
  {
    var words := QuotedSettingsOf(pairs);
    ConsTail(pairs);
    if |pairs| == 1 {
      QuotedLast(pairs[0].0, pairs[0].1, Join(words));
    } else {
      assert words[1..] == QuotedSettingsOf(pairs[1..]);
      QuotedSettingsReadBack(pairs[1..]);
      JoinCons(words);
      QuotedStep(pairs[0].0, pairs[0].1, Join(words[1..]), pairs[1..], Join(words));
    }
  }

  lemma KeywordsOfPairs(host: string, port: Int32, dbname: string, user: string,
                        password: string, sslmode: string, connectTimeout: Int32)
    ensures forall k :: 0 <= k < 7 ==>
      Keyword(Pairs(host, port, dbname, user, password, sslmode, connectTimeout)[k].0)
  {
    SettingKeywords();
  }

  /** The seven keywords `loadConfig` writes. */
  lemma SettingKeywords()
    ensures Keyword("host") && Keyword("port") && Keyword("dbname") && Keyword("user")
    ensures Keyword("password") && Keyword("sslmode") && Keyword("connect_timeout")
  {
    WordIsKeyword("host");
    WordIsKeyword("port");
    WordIsKeyword("dbname");
    WordIsKeyword("user");
    WordIsKeyword("password");
    WordIsKeyword("sslmode");
    WordIsKeyword("connect_timeout");
  }

  /** A lower-case word with underscores is a keyword. */
  lemma WordIsKeyword(key: string)
    requires key != []
    requires forall i :: 0 <= i < |key| ==> 'a' <= key[i] <= 'z' || key[i] == '_'
    ensures Keyword(key)
  {
  }

  /** A number as `<< int` writes it is a bare value. */
  lemma NumberIsBare(n: int)
    ensures Bare(IntToString(n))
  {
    var s := IntToString(n);
    var d := if n < 0 then DigitsOf(-n) else DigitsOf(n);
    assert s == if n < 0 then "-" + d else d;
    forall i | 0 <= i < |s|
      ensures !IsSpace(s[i]) && s[i] != '\\'
    {
      if n < 0 && i > 0 {
        assert s[i] == d[i - 1];
      }
    }
  }

  /** With every value quoted, libpq reads back exactly the seven settings,
      whatever the configured values are. */
  lemma QuotedReadsBack(host: string, port: Int32, dbname: string, user: string,
                        password: string, sslmode: string, connectTimeout: Int32)
    ensures Parse(QuotedConnectionString(host, port, dbname, user, password, sslmode, connectTimeout))
         == Some([("host", host), ("port", IntToString(port)), ("dbname", dbname), ("user", user),
                  ("password", password), ("sslmode", sslmode), ("connect_timeout", IntToString(connectTimeout))])
  {
    KeywordsOfPairs(host, port, dbname, user, password, sslmode, connectTimeout);
    QuotedSettingsReadBack(Pairs(host, port, dbname, user, password, sslmode, connectTimeout));
  }

  /** `loadConfig` with the corrected connection string: the same fields,
      every value quoted, and libpq reads back exactly the loaded settings. */
  function CorrectedLoadConfig(db: Db, path: string, file: ConfigFile): (r: Result<Db>)
    ensures r.Err? <==> LoadConfig(db, path, file).Err?
    ensures r.Err? ==> r == LoadConfig(db, path, file)
    ensures r.Ok? ==> r.value == LoadConfig(db, path, file).value.(connectionString := r.value.connectionString)
    ensures r.Ok? ==>
      Parse(r.value.connectionString)
        == Some(Pairs(r.value.host, r.value.port, r.value.dbname, r.value.user,
                      r.value.password, r.value.sslmode, r.value.connectTimeout))
  {
    match LoadConfig(db, path, file)
    case Err(e) => Err(e)
    case Ok(d) =>
      QuotedReadsBack(d.host, d.port, d.dbname, d.user, d.password, d.sslmode, d.connectTimeout);
      Ok(d.(connectionString := QuotedConnectionString(d.host, d.port, d.dbname, d.user,
                                                       d.password, d.sslmode, d.connectTimeout)))
  }

  /** The string as written reads back when every value is bare. */
  lemma BareConnectionStringReadsBack(host: string, port: Int32, dbname: string, user: string,
                                      password: string, sslmode: string, connectTimeout: Int32)
    requires Bare(host) && Bare(dbname) && Bare(user) && Bare(password) && Bare(sslmode)
    ensures Parse(ConnectionString(host, port, dbname, user, password, sslmode, connectTimeout))
         == Some(Pairs(host, port, dbname, user, password, sslmode, connectTimeout))
  {
    var pairs := Pairs(host, port, dbname, user, password, sslmode, connectTimeout);
    KeywordsOfPairs(host, port, dbname, user, password, sslmode, connectTimeout);
    NumberIsBare(port);
    NumberIsBare(connectTimeout);
    assert forall k :: 0 <= k < |pairs| ==> Bare(pairs[k].1);
    BareReadsBack(pairs);
  }

  /** `Join` from the `k`-th word on. */
  lemma JoinAt(words: seq<string>, k: nat)
    requires k + 1 < |words|
    ensures Join(words[k..]) == words[k] + " " + Join(words[k + 1..])
  {
    JoinCons(words[k..]);
    assert words[k..][1..] == words[k + 1..];
  }

  /** A setting with an empty value, left bare, swallows the setting after it. */
  lemma EmptySwallowsNext(key: string, next: string, rest: string, more: seq<(string, string)>, s: string)
    requires Keyword(key) && Bare(next)
    requires Parse(rest) == Some(more)
    requires s == Setting(key, "") + " " + (next + " " + rest)
    ensures Parse(s) == Some([(key, next)] + more)
  {
    UnquotedBare(next, rest);
    EmptyShape(key, next, rest);
    ParseStep(key, " ", next + " " + rest, next, rest, s);
  }

  lemma EmptyShape(key: string, next: string, rest: string)
    ensures Setting(key, "") + " " + (next + " " + rest) == key + ("=" + (" " + (next + " " + rest)))
  {
    assert Setting(key, "") == key + "=";
  }

  lemma UserSettingIsBare(user: string)
    requires Bare(user)
    ensures Bare(Setting("user", user))
  {
    var w := Setting("user", user);
    forall i | 0 <= i < |w|
      ensures !IsSpace(w[i]) && w[i] != '\\'
    {
      if i >= 5 {
        assert w[i] == user[i - 5];
      }
    }
  }

  /** Finding: `loadConfig` writes an absent `dbname` as `dbname=` followed
      by a blank. libpq skips the blank and takes the next word,
      `user=<user>`, as the database name, and no user setting is left. */
  lemma EmptyValueMisread(host: string, port: Int32, user: string,
                          password: string, sslmode: string, connectTimeout: Int32)
    requires Bare(host) && Bare(user) && Bare(password) && Bare(sslmode)
    ensures Parse(ConnectionString(host, port, "", user, password, sslmode, connectTimeout))
         == Some([("host", host), ("port", IntToString(port)), ("dbname", "user=" + user),
                  ("password", password), ("sslmode", sslmode), ("connect_timeout", IntToString(connectTimeout))])
  {
    var pairs := Pairs(host, port, "", user, password, sslmode, connectTimeout);
    var words := SettingsOf(pairs);
    var tail := pairs[4..];
    TailReadsBack(host, port, user, password, sslmode, connectTimeout);
    NumberIsBare(port);
    SettingKeywords();
    JoinAt(words, 0);
    JoinAt(words, 1);
    JoinAt(words, 2);
    JoinAt(words, 3);
    UserSettingIsBare(user);
    EmptySwallowsNext("dbname", words[3], Join(words[4..]), tail, Join(words[2..]));
    BareStep("port", IntToString(port), Join(words[2..]), [("dbname", words[3])] + tail, Join(words[1..]));
    BareStep("host", host, Join(words[1..]), [("port", IntToString(port))] + ([("dbname", words[3])] + tail), Join(words));
    assert words[0..] == words;
    MisreadShape(host, port, user, password, sslmode, connectTimeout, words[3], tail);
  }

  /** The settings after `user` read back as written. */
  lemma TailReadsBack(host: string, port: Int32, user: string,
                      password: string, sslmode: string, connectTimeout: Int32)
    requires Bare(password) && Bare(sslmode)
    ensures var pairs := Pairs(host, port, "", user, password, sslmode, connectTimeout);
      Parse(Join(SettingsOf(pairs)[4..])) == Some(pairs[4..])
  {
    var pairs := Pairs(host, port, "", user, password, sslmode, connectTimeout);
    KeywordsOfPairs(host, port, "", user, password, sslmode, connectTimeout);
    NumberIsBare(connectTimeout);
    var tail := pairs[4..];
    assert forall k :: 0 <= k < |tail| ==> Keyword(tail[k].0) && Bare(tail[k].1);
    assert SettingsOf(pairs)[4..] == SettingsOf(tail);
    BareReadsBack(tail);
  }

  lemma MisreadShape(host: string, port: Int32, user: string, password: string, sslmode: string,
                     connectTimeout: Int32, swallowed: string, tail: seq<(string, string)>)
    requires swallowed == Setting("user", user)
    requires tail == Pairs(host, port, "", user, password, sslmode, connectTimeout)[4..]
    ensures [("host", host)] + ([("port", IntToString(port))] + ([("dbname", swallowed)] + tail))
         == [("host", host), ("port", IntToString(port)), ("dbname", "user=" + user),
             ("password", password), ("sslmode", sslmode), ("connect_timeout", IntToString(connectTimeout))]
  {
    assert swallowed == "user=" + user;
    assert tail == [("password", password), ("sslmode", sslmode), ("connect_timeout", IntToString(connectTimeout))];
  }
}
