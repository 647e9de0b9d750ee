/** The transaction server's entry point: `parseArgs` turns the command
    line into a host and a port, and `main` loads the database
    configuration, connects, starts the server, waits for a line on standard
    input, stops the server, and maps every exception to exit code 1. The
    configuration file, the database server and the socket calls are the
    values of `Outside`. */
module CoreMain {
  import opened Wrappers
  import opened CText
  import opened DbConnection
  import opened ServerLifecycle
  import opened SocketCalls

  const DefaultHost := "0.0.0.0"
  const DefaultPort: Int32 := 8080
  const ConfigPath := "config/db_credential.json"

  /** `atoi` is defined on the port argument, when there is one. */
  predicate ArgsDefined(argv: seq<string>) {
    |argv| >= 3 ==> AtoiDefined(argv[2])
  }

  /** The host and port `parseArgs` hands back. */
  datatype Endpoint = Endpoint(host: string, port: Int32)

  /** `parseArgs(argc, argv, host, port)`; `argv[0]` is the program name. The
      host is taken verbatim; the port goes through `atoi` and must lie in
      1..65535. */
  function ParseArgs(argv: seq<string>): (r: Result<Endpoint>)
    requires ArgsDefined(argv)
    ensures r.Ok? ==> 1 <= r.value.port <= 65535
    ensures r.Ok? ==> r.value.host == (if |argv| >= 2 then argv[1] else "0.0.0.0")
    ensures |argv| < 3 ==> r.Ok? && r.value.port == 8080
    ensures |argv| >= 3 ==> (r.Ok? <==> 1 <= Atoi(argv[2]) <= 65535)
    ensures |argv| >= 3 && r.Ok? ==> r.value.port == Atoi(argv[2])
    ensures r.Err? ==> |argv| >= 3 && r.error == "Invalid port number: " + argv[2]
  {
    var host := if |argv| >= 2 then argv[1] else DefaultHost;
    if |argv| >= 3 then
      var port := Atoi(argv[2]);
      if port <= 0 || port > 65535 then Err("Invalid port number: " + argv[2])
      else Ok(Endpoint(host, port))
    else Ok(Endpoint(host, DefaultPort))
  }

  /** Every host and every valid port, written as `to_string` would, comes
      back out of `parseArgs` unchanged. */
  lemma ParseArgsReadsBack(program: string, host: string, port: int)
    requires 1 <= port <= 65535
    ensures ArgsDefined([program, host, IntToString(port)])
    ensures ParseArgs([program, host, IntToString(port)]) == Ok(Endpoint(host, port))
  {
    ScanIntToString(port, []);
    assert IntToString(port) + [] == IntToString(port);
  }

  /** A port argument without a leading number reads as 0 and is refused. */
  lemma NonNumericPortRefused(program: string, host: string, arg: string)
    requires ScanInt(arg).None?
    ensures ArgsDefined([program, host, arg])
    ensures ParseArgs([program, host, arg]) == Err("Invalid port number: " + arg)
  {
  }

  /** Everything outside the process that `main` depends on. */
  datatype Outside = Outside(config: ConfigFile, database: string -> Attempt, sockets: Sockets)

  /** How `main` ended: its exit code, the database handle and the server
      as they were at exit, and the socket effects of the server. */
  datatype MainRun = MainRun(exitCode: int, db: Db, effects: seq<Effect>)

  /** `main(argc, argv)`, with `start` standing for `Server::start`. Each
      step that throws ends the run with exit code 1; a `Server` that was
      constructed is destroyed on the way out, which runs `stop()` once more. */
  function Launch(argv: seq<string>, outside: Outside, start: (Server, Sockets) -> Step): (r: MainRun)
    requires ArgsDefined(argv)
    ensures r.exitCode == 0 || r.exitCode == 1
    ensures ParseArgs(argv).Err? ==> r.exitCode == 1 && r.effects == []
    ensures ParseArgs(argv).Ok? && !outside.config.Parsed? ==> r.exitCode == 1 && r.effects == []
  {
    match ParseArgs(argv)
    case Err(_) => MainRun(1, Fresh(), [])
    case Ok(Endpoint(host, port)) =>
      match LoadConfig(Fresh(), ConfigPath, outside.config)
      case Err(_) => MainRun(1, Fresh(), [])
      case Ok(db) =>
        var (connected, db') := Connect(db, outside.database);
        if connected.Fail? then MainRun(1, db', [])
        else if !IsConnected(db') then MainRun(1, db', [])
        else Shutdown(db', start(NewServer(host, port), outside.sockets))
  }

  /** The end of `main` once the server was constructed: after a failed
      `start` the destructor runs `stop()`; otherwise `stop()` runs, then
      the destructor runs it again. */
  function Shutdown(db: Db, started: Step): (r: MainRun)
    ensures r.db == db
    ensures r.exitCode == (if started.outcome.Pass? then 0 else 1)
    ensures |r.effects| >= |started.effects| && r.effects[..|started.effects|] == started.effects
  {
    var (stopped, stopping) := Stop(started.server);
    if started.outcome.Fail? then MainRun(1, db, started.effects + stopping)
    else MainRun(0, db, started.effects + stopping + Stop(stopped).1)
  }

  /** Everything `main` does before it starts the server succeeds. */
  predicate ReadyToStart(argv: seq<string>, outside: Outside)
    requires ArgsDefined(argv)
  {
    && ParseArgs(argv).Ok?
    && outside.config.Parsed?
    && Connect(LoadConfig(Fresh(), ConfigPath, outside.config).value, outside.database).0.Pass?
  }

  /** Once the arguments, the configuration and the connection are in
      place, `main` is `start` on the parsed endpoint followed by `Shutdown`;
      otherwise it ends with exit code 1 before any socket call. */
  lemma LaunchStarts(argv: seq<string>, outside: Outside, start: (Server, Sockets) -> Step)
    requires ArgsDefined(argv)
    ensures !ReadyToStart(argv, outside) ==> Launch(argv, outside, start).exitCode == 1 && Launch(argv, outside, start).effects == []
    ensures ReadyToStart(argv, outside) ==>
      && IsConnected(Connect(LoadConfig(Fresh(), ConfigPath, outside.config).value, outside.database).1)
      && Launch(argv, outside, start)
         == Shutdown(Connect(LoadConfig(Fresh(), ConfigPath, outside.config).value, outside.database).1,
                     start(NewServer(ParseArgs(argv).value.host, ParseArgs(argv).value.port), outside.sockets))
  {
  }

  /** `main` as written, with `start` as written. */
  function Entry(argv: seq<string>, outside: Outside): (r: MainRun)
    requires ArgsDefined(argv)
    ensures r.exitCode == 0 || r.exitCode == 1
    ensures ParseArgs(argv).Err? ==> r.exitCode == 1 && r.effects == []
    ensures ParseArgs(argv).Ok? && !outside.config.Parsed? ==> r.exitCode == 1 && r.effects == []
  {
    Launch(argv, outside, StartAsWritten)
  }

  /** `main` with the corrected `start`, which leaves a server that failed
      to start stopped and without a socket. */
  function CorrectedEntry(argv: seq<string>, outside: Outside): (r: MainRun)
    requires ArgsDefined(argv)
    ensures r.exitCode == 0 || r.exitCode == 1
    ensures ParseArgs(argv).Err? ==> r.exitCode == 1 && r.effects == []
    ensures ParseArgs(argv).Ok? && !outside.config.Parsed? ==> r.exitCode == 1 && r.effects == []
  {
    Launch(argv, outside, Start)
  }

  /** `main` succeeds exactly when the arguments are valid, the configuration
      file is read, the database answers with an open connection and the
      listening socket is set up; it then has bound every interface on the
      requested port, and closes the socket once, after shutting it down. */
  lemma MainExitCode(argv: seq<string>, outside: Outside)
    requires ArgsDefined(argv)
    ensures var r := Entry(argv, outside);
      && (r.exitCode == 0 <==>
            && ParseArgs(argv).Ok?
            && outside.config.Parsed?
            && Connect(LoadConfig(Fresh(), ConfigPath, outside.config).value, outside.database).0.Pass?
            && outside.sockets.socketFd >= 0 && outside.sockets.bindOk && outside.sockets.listenOk)
      && (r.exitCode == 0 ==>
            var fd := outside.sockets.socketFd;
            && IsConnected(r.db)
            && Bind(fd, AnyAddress, WirePort(ParseArgs(argv).value.port)) in r.effects
            && r.effects[|r.effects| - 3..] == [ShutdownFd(fd), CloseFd(fd), JoinAcceptThread]
            && !ClosesTwice(r.effects))
  {
    LaunchStarts(argv, outside, StartAsWritten);
    var r := Entry(argv, outside);
    if ReadyToStart(argv, outside) {
      var Endpoint(host, port) := ParseArgs(argv).value;
      var s := NewServer(host, port);
      StartKeepsConsistency(s, outside.sockets);
      var started := StartAsWritten(s, outside.sockets);
      if started.outcome.Pass? {
        StartedPasses(Connect(LoadConfig(Fresh(), ConfigPath, outside.config).value, outside.database).1, s, outside.sockets);
      }
    }
  }

  /** A successful `start` and the two `stop()` calls after it: the socket
      is bound on the server's port, then shut down and closed once, and the
      thread joined. */
  lemma StartedPasses(db: Db, s: Server, sockets: Sockets)
    requires Consistent(s) && !s.running && StartAsWritten(s, sockets).outcome.Pass?
    ensures var fd := sockets.socketFd;
      var effects := Shutdown(db, StartAsWritten(s, sockets)).effects;
      && Bind(fd, AnyAddress, WirePort(s.portBind)) in effects
      && effects[|effects| - 3..] == [ShutdownFd(fd), CloseFd(fd), JoinAcceptThread]
      && !ClosesTwice(effects)
  {
    var fd := sockets.socketFd;
    StartKeepsConsistency(s, sockets);
    var started := StartAsWritten(s, sockets);
    assert started == Start(s, sockets);
    var (stopped, stopping) := Stop(started.server);
    assert Stop(stopped).1 == [];
    var effects := Shutdown(db, started).effects;
    assert effects == started.effects + stopping;
    assert effects[2] == Bind(fd, AnyAddress, WirePort(s.portBind));
  }

  /** Finding, as it shows in `main`: when `bind` or `listen` fails, `start`
      closes the socket and throws, and the `Server` destroyed while the
      exception unwinds shuts down and closes the same descriptor again. The
      corrected `start` closes it once. */
  lemma StartFailureClosesTwice(argv: seq<string>, outside: Outside)
    requires ArgsDefined(argv) && ReadyToStart(argv, outside)
    requires outside.sockets.socketFd >= 0 && !(outside.sockets.bindOk && outside.sockets.listenOk)
    ensures Entry(argv, outside).exitCode == 1 && ClosesTwice(Entry(argv, outside).effects)
    ensures CorrectedEntry(argv, outside).exitCode == 1 && !ClosesTwice(CorrectedEntry(argv, outside).effects)
  {
    LaunchStarts(argv, outside, StartAsWritten);
    LaunchStarts(argv, outside, Start);
    var s := NewServer(ParseArgs(argv).value.host, ParseArgs(argv).value.port);
    FailedStartAsWritten(s, outside.sockets);
    CorrectedEntryClosesOnce(argv, outside);
  }

  /** After a failed `bind` or `listen`, `start` as written and the `stop()`
      of the destructor close the socket twice. */
  lemma FailedStartAsWritten(s: Server, sockets: Sockets)
    requires !s.running && sockets.socketFd >= 0 && !(sockets.bindOk && sockets.listenOk)
    ensures StartAsWritten(s, sockets).outcome.Fail?
    ensures forall db :: ClosesTwice(Shutdown(db, StartAsWritten(s, sockets)).effects)
  {
    var fd := sockets.socketFd;
    var first := StartAsWritten(s, sockets);
    var all := first.effects + Stop(first.server).1;
    if !sockets.bindOk {
      assert all[3] == CloseFd(fd) && all[5] == CloseFd(fd);
    } else {
      assert all[4] == CloseFd(fd) && all[6] == CloseFd(fd);
    }
    forall db ensures ClosesTwice(Shutdown(db, first).effects) {
      assert Shutdown(db, first).effects == all;
    }
  }

  /** With the corrected `start`, `main` ends with the same exit code and
      never closes a descriptor twice. */
  lemma CorrectedEntryClosesOnce(argv: seq<string>, outside: Outside)
    requires ArgsDefined(argv)
    ensures CorrectedEntry(argv, outside).exitCode == Entry(argv, outside).exitCode
    ensures !ClosesTwice(CorrectedEntry(argv, outside).effects)
  {
    LaunchStarts(argv, outside, StartAsWritten);
    LaunchStarts(argv, outside, Start);
    if ReadyToStart(argv, outside) {
      var s := NewServer(ParseArgs(argv).value.host, ParseArgs(argv).value.port);
      StartKeepsConsistency(s, outside.sockets);
      var started := Start(s, outside.sockets);
      var db := Connect(LoadConfig(Fresh(), ConfigPath, outside.config).value, outside.database).1;
      if started.outcome.Pass? {
        var (stopped, stopping) := Stop(started.server);
        assert Stop(stopped).1 == [];
        assert Shutdown(db, started).effects == started.effects + stopping;
      } else {
        assert Shutdown(db, started).effects == started.effects + Stop(started.server).1;
      }
    }
  }

  /** The `isConnected()` test after `connect()` never fails: `connect()`
      returns normally only with an open connection. */
  lemma ConnectedCheckIsDead(db: Db, database: string -> Attempt)
    requires Connect(db, database).0.Pass?
    ensures IsConnected(Connect(db, database).1)
  {
  }
}
