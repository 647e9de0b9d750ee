/** The demo server's entry point: the port is 8080 unless a first argument
    is given, in which case `std::stoi` reads it; a refused argument is
    reported on standard error with exit code 1, and otherwise `main`
    returns what `run` returns. The port is not range-checked. */
module DemoMain {
  import opened Wrappers
  import opened CText
  import opened DemoServer
  import opened SocketCalls

  const DefaultPort: Int32 := 8080

  /** The port `main` picks from `argv` (`argv[0]` is the program name), or
      the line it writes to standard error when `stoi` throws. */
  function ChoosePort(argv: seq<string>): (r: Result<Int32>)
    ensures |argv| < 2 ==> r == Ok(8080)
    ensures |argv| >= 2 ==> (r.Ok? <==> ReadInt(argv[1]).Some?)
    ensures |argv| >= 2 && r.Ok? ==> r.value == ReadInt(argv[1]).value.value
    ensures r.Err? ==> |argv| >= 2 && r.error == "Invalid port number: " + argv[1] + "\n"
  {
    if |argv| < 2 then Ok(DefaultPort)
    else
      match Stoi(argv[1])
      case Err(_) => Err("Invalid port number: " + argv[1] + "\n")
      case Ok(port) => Ok(port)
  }

  /** Every `int` written in decimal is taken as the port, with no range
      check: 0, negative numbers and numbers above 65535 included. */
  lemma ChoosePortReadsBack(program: string, port: Int32)
    ensures ChoosePort([program, IntToString(port)]) == Ok(port)
  {
    ReadIntToString(port, []);
    assert IntToString(port) + [] == IntToString(port);
  }

  /** An argument with no leading number is refused with its text echoed. */
  lemma NonNumericPortRefused(program: string, arg: string)
    requires ScanInt(arg).None?
    ensures ChoosePort([program, arg]) == Err("Invalid port number: " + arg + "\n")
  {
  }

  /** `stoi` stops at the first character that cannot continue the number,
      so text after the digits is ignored. */
  lemma TrailingTextIgnored(program: string)
    ensures ChoosePort([program, "9090abc"]) == Ok(9090)
  {
    NineThousandNinety();
    ReadIntToString(9090, "abc");
  }

  /** The decimal text of 9090, spelled out digit by digit for the solver. */
  lemma NineThousandNinety()
    ensures IntToString(9090) + "abc" == "9090abc"
  {
    assert DigitsOf(9) == "9";
    assert DigitsOf(90) == "90";
    assert DigitsOf(909) == "909";
    assert IntToString(9090) == "9090";
  }

  /** How `main` ended: the exit code when it returned (`None` while the
      server is still serving), what it wrote to standard error, the client
      descriptors served and the socket calls made. */
  datatype Exit = Exit(exit: Option<int>, stderr: string, served: seq<int>, effects: seq<Effect>)

  /** `main(argc, argv)`: when `run` returns, the `Server` is destroyed. */
  method Entry(argv: seq<string>, calls: InitCalls, clients: seq<Client>) returns (ended: Exit)
    requires AllSendable(clients, HttpResponse(Body))
    ensures ChoosePort(argv).Err? ==> ended == Exit(Some(1), ChoosePort(argv).error, [], [])
    ensures ChoosePort(argv).Ok? ==> ended.stderr == []
    ensures ended.exit.Some? ==> ended.exit.value == 1
    ensures ChoosePort(argv).Ok? ==> (ended.exit.None? <==> Init(NewServer(ChoosePort(argv).value), calls).ok)
    ensures ChoosePort(argv).Ok? && ended.exit.None? ==> ended.served == Accepted(clients)
    ensures ChoosePort(argv).Ok? && calls.socketFd >= 0 && calls.reuseOk
      ==> Bind(calls.socketFd, AnyAddress, WirePort(ChoosePort(argv).value)) in ended.effects
    ensures ChoosePort(argv).Ok? && ended.exit.Some? && calls.socketFd >= 0 ==> CloseCount(ended.effects, calls.socketFd) == 1
  {
    match ChoosePort(argv)
    case Err(message) =>
      ended := Exit(Some(1), message, [], []);
    case Ok(port) =>
      var server := NewServer(port);
      var exit, served, effects, _ := Run(server, calls, clients);
      var started := Init(server, calls);
      if exit.Some? {
        if calls.socketFd >= 0 {
          InitThenDestroyClosesOnce(port, calls);
        }
        effects := effects + Destroy(started.server);
      }
      if calls.socketFd >= 0 && calls.reuseOk {
        InitBinds(server, calls);
        assert effects[2] == started.effects[2];
      }
      ended := Exit(exit, [], served, effects);
  }

  /** With no range check, `main 70000` listens on port 4464: `htons` keeps
      only the low 16 bits. */
  lemma OutOfRangePortWraps(calls: InitCalls)
    requires calls.socketFd >= 0 && calls.reuseOk
    ensures ChoosePort(["server", "70000"]) == Ok(70000)
    ensures Init(NewServer(70000), calls).effects[2] == Bind(calls.socketFd, AnyAddress, 4464)
  {
    SeventyThousandAccepted();
    InitBinds(NewServer(70000), calls);
    SeventyThousandOnTheWire();
  }

  /** The facts about 70000 that `OutOfRangePortWraps` combines: its low 16
      bits, that `stoi` reads it, and its decimal text digit by digit. */
  lemma SeventyThousandOnTheWire()
    ensures WirePort(70000) == 4464
  {
  }

  lemma SeventyThousandAccepted()
    ensures ChoosePort(["server", "70000"]) == Ok(70000)
  {
    SeventyThousand();
    ChoosePortReadsBack("server", 70000);
  }

  lemma SeventyThousand()
    ensures IntToString(70000) == "70000"
  {
    assert DigitsOf(7) == "7";
    assert DigitsOf(70) == "70";
    assert DigitsOf(700) == "700";
    assert DigitsOf(7000) == "7000";
  }
}
