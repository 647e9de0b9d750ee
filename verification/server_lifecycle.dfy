/** The life cycle of the transaction server (`Server`): `start` opens the
    listening socket and launches the accept thread, `stop` (also run by the
    destructor) closes the socket and joins the thread, and `acceptLoop`
    hands every accepted client to a worker. The socket calls are abstract:
    `start` is given what `socket`, `bind` and `listen` return, and each
    operation reports the system calls it makes as a trace of effects. */
module ServerLifecycle {
  import opened Wrappers
  import opened CText
  import opened SocketCalls

  /** The backlog passed to `listen`. */
  const Backlog: nat := 8

  /** The observable state of a `Server` object; `acceptThread` says whether
      the accept thread is joinable. */
  datatype Server = Server(hostBind: string, portBind: Int32, listenSocket: int, running: bool, acceptThread: bool)

  /** A system call or thread operation made on the server's behalf. */
  datatype Effect =
    | OpenSocket
    | ReuseAddress(fd: int)
    | Bind(fd: int, address: nat, port: nat)
    | Listen(fd: int, backlog: nat)
    | CloseFd(fd: int)
    | ShutdownFd(fd: int)
    | SpawnAcceptThread
    | JoinAcceptThread

  /** What `socket`, `bind` and `listen` return on this occasion. */
  datatype Sockets = Sockets(socketFd: int, bindOk: bool, listenOk: bool)

  datatype Step = Step(outcome: Outcome, server: Server, effects: seq<Effect>)

  /** `Server(host, port)`: stores the configuration, opens nothing. */
  function NewServer(host: string, port: Int32): (s: Server)
    ensures !s.running && s.listenSocket < 0 && !s.acceptThread
  {
    Server(host, port, -1, false, false)
  }

  /** The calls `start` makes up to and including `listen`, when each succeeds. */
  function Opening(fd: int, port: Int32): seq<Effect> {
    [OpenSocket, ReuseAddress(fd), Bind(fd, AnyAddress, WirePort(port))]
  }

  /** `start()` as written: `running` is raised right after `socket()`, before
      any check, and a failed `bind` or `listen` closes the socket but leaves
      both `running` and `listenSocket` set. */
  function StartAsWritten(s: Server, sockets: Sockets): (r: Step)
    ensures s.running ==> r == Step(Pass, s, [])
    ensures !s.running ==> r.server.running && r.server.listenSocket == sockets.socketFd
    ensures r.outcome.Pass? <==> s.running || (sockets.socketFd >= 0 && sockets.bindOk && sockets.listenOk)
    ensures !s.running && r.outcome.Pass? ==> r.server.acceptThread && r.effects != [] && Last(r.effects) == SpawnAcceptThread
    ensures r.outcome.Fail? ==> CloseFd(sockets.socketFd) in r.effects || sockets.socketFd < 0
  {
    if s.running then Step(Pass, s, [])
    else
      var fd := sockets.socketFd;
      var s' := s.(listenSocket := fd, running := true);
      if fd < 0 then Step(Fail("Failed to create socket!"), s', [OpenSocket])
      else if !sockets.bindOk then
        Step(Fail("Failed to bind socket"), s', Opening(fd, s.portBind) + [CloseFd(fd)])
      else if !sockets.listenOk then
        Step(Fail("Failed to listen on socket"), s', Opening(fd, s.portBind) + [Listen(fd, Backlog), CloseFd(fd)])
      else
        Step(Pass, s'.(acceptThread := true), Opening(fd, s.portBind) + [Listen(fd, Backlog), SpawnAcceptThread])
  }

  /** `start()` as its documentation describes it: on failure the server is
      left not running, with no socket. Every other step is unchanged. */
  function Start(s: Server, sockets: Sockets): (r: Step)
    ensures r.effects == StartAsWritten(s, sockets).effects
    ensures r.outcome == StartAsWritten(s, sockets).outcome
    ensures r.outcome.Fail? ==> r.server == s.(listenSocket := -1, running := false)
    ensures r.outcome.Pass? ==> r.server == StartAsWritten(s, sockets).server
  {
    var r := StartAsWritten(s, sockets);
    if r.outcome.Fail? then r.(server := s.(listenSocket := -1, running := false)) else r
  }

  /** `stop()`, which the destructor also runs. */
  function Stop(s: Server): (r: (Server, seq<Effect>))
    ensures !r.0.running
    ensures s.running ==> r.0.listenSocket < 0 && !r.0.acceptThread
    ensures !s.running ==> r == (s, [])
    ensures r.0.hostBind == s.hostBind && r.0.portBind == s.portBind
    ensures s.running && s.listenSocket >= 0 ==>
      |r.1| >= 2 && r.1[..2] == [ShutdownFd(s.listenSocket), CloseFd(s.listenSocket)]
    ensures s.running ==> (JoinAcceptThread in r.1 <==> s.acceptThread)
    ensures s.running && s.acceptThread ==> r.1 != [] && Last(r.1) == JoinAcceptThread
    ensures forall e :: e in r.1 && e.CloseFd? ==> s.listenSocket >= 0 && e == CloseFd(s.listenSocket)
    ensures !ClosesTwice(r.1)
  {
    if !s.running then (s, [])
    else
      var closing := if s.listenSocket >= 0 then [ShutdownFd(s.listenSocket), CloseFd(s.listenSocket)] else [];
      var joining := if s.acceptThread then [JoinAcceptThread] else [];
      (s.(running := false, listenSocket := if s.listenSocket >= 0 then -1 else s.listenSocket, acceptThread := false),
       closing + joining)
  }

  /** The server's state is consistent: a listening socket is held exactly
      while it runs, and an accept thread only while it runs. */
  predicate Consistent(s: Server) {
    && (s.acceptThread ==> s.running)
    && (s.running ==> s.listenSocket >= 0)
    && (!s.running ==> s.listenSocket == -1)
  }

  /** Some descriptor is closed twice in `effects`. */
  predicate ClosesTwice(effects: seq<Effect>) {
    exists i, j :: 0 <= i < j < |effects| && effects[i].CloseFd? && effects[i] == effects[j]
  }

  /** Finding: when `bind` fails, `start` closes the socket and throws, yet the
      server still counts as running. A later `start` then reports success
      without listening, and `stop` (or the destructor, which `main` runs
      while the exception unwinds) shuts down and closes the same descriptor
      a second time. */
  lemma StartAsWrittenDoubleClose()
    ensures var first := StartAsWritten(NewServer("0.0.0.0", 8080), Sockets(3, false, true));
      && first.outcome == Fail("Failed to bind socket")
      && first.server.running
      && StartAsWritten(first.server, Sockets(4, true, true)) == Step(Pass, first.server, [])
      && !StartAsWritten(first.server, Sockets(4, true, true)).server.acceptThread
      && ClosesTwice(first.effects + Stop(first.server).1)
  {
    var first := StartAsWritten(NewServer("0.0.0.0", 8080), Sockets(3, false, true));
    var all := first.effects + Stop(first.server).1;
    assert all[3] == CloseFd(3) && all[5] == CloseFd(3);
  }

  /** With `Start`, a server built by the constructor stays consistent through
      `start` and `stop`, a failed `start` can be retried, and no descriptor
      is closed twice. */
  lemma {:induction false} StartKeepsConsistency(s: Server, sockets: Sockets)
    requires Consistent(s)
    ensures Consistent(Start(s, sockets).server)
    ensures Consistent(Stop(Start(s, sockets).server).0)
    ensures !s.running && Start(s, sockets).outcome.Fail? ==> Start(s, sockets).server == s
    ensures !s.running ==> !ClosesTwice(Start(s, sockets).effects + Stop(Start(s, sockets).server).1)
  {
    if !s.running {
      if Start(s, sockets).outcome.Fail? {
        FailedStartClosesOnce(s, sockets);
      } else {
        StartedStopClosesOnce(s, sockets);
      }
    }
  }

  lemma FailedStartClosesOnce(s: Server, sockets: Sockets)
    requires !s.running && Start(s, sockets).outcome.Fail?
    ensures !ClosesTwice(Start(s, sockets).effects + Stop(Start(s, sockets).server).1)
  {
    var r := Start(s, sockets);
    var all := r.effects + Stop(r.server).1;
    assert Stop(r.server).1 == [];
    assert all == r.effects;
    assert forall i :: 0 <= i < |all| && all[i].CloseFd? ==> i == |all| - 1;
  }

  lemma StartedStopClosesOnce(s: Server, sockets: Sockets)
    requires !s.running && Start(s, sockets).outcome.Pass?
    ensures !ClosesTwice(Start(s, sockets).effects + Stop(Start(s, sockets).server).1)
  {
    var r := Start(s, sockets);
    var all := r.effects + Stop(r.server).1;
    var fd := sockets.socketFd;
    assert all == Opening(fd, s.portBind) + [Listen(fd, Backlog), SpawnAcceptThread]
                  + [ShutdownFd(fd), CloseFd(fd), JoinAcceptThread];
    assert forall i :: 0 <= i < |all| && all[i].CloseFd? ==> i == 6;
  }

  /** The host given to the constructor is never used: the socket is bound
      to every interface whatever it says. */
  lemma StartIgnoresHost(s: Server, host: string, sockets: Sockets)
    ensures Start(s.(hostBind := host), sockets).effects == Start(s, sockets).effects
    ensures Start(s.(hostBind := host), sockets).outcome == Start(s, sockets).outcome
    ensures forall e :: e in Start(s, sockets).effects && e.Bind? ==> e.address == AnyAddress
  {
  }

  /** One turn of `acceptLoop`: whether `running` is still set when the loop
      tests it, and what `accept` then returns. */
  datatype Turn = Turn(running: bool, accepted: int)

  /** The turns the loop takes: all those before the first with `running` cleared. */
  function Active(turns: seq<Turn>): (n: nat)
    ensures n <= |turns|
    ensures forall i :: 0 <= i < n ==> turns[i].running
    ensures n < |turns| ==> !turns[n].running
  {
    if turns == [] || !turns[0].running then 0 else 1 + Active(turns[1..])
  }

  /** `acceptLoop()`: the client sockets handed to worker threads, in order.
      A failed `accept` is skipped and the loop goes on. */
  function AcceptLoop(turns: seq<Turn>): (clients: seq<int>)
    ensures forall k :: 0 <= k < |clients| ==> clients[k] >= 0
    ensures |clients| <= Active(turns)
    ensures forall i :: 0 <= i < Active(turns) && turns[i].accepted >= 0 ==> turns[i].accepted in clients
    ensures forall c :: c in clients ==> exists i :: 0 <= i < Active(turns) && turns[i].accepted == c
  {
    if turns == [] || !turns[0].running then []
    else
      var rest := AcceptLoop(turns[1..]);
      assert forall i :: 1 <= i < Active(turns) ==> turns[i] == turns[1..][i - 1];
      assert forall c :: c in rest ==> exists i :: 1 <= i < Active(turns) && turns[i].accepted == c by {
        forall c | c in rest ensures exists i :: 1 <= i < Active(turns) && turns[i].accepted == c {
          var j :| 0 <= j < Active(turns[1..]) && turns[1..][j].accepted == c;
          assert turns[j + 1].accepted == c;
        }
      }
      if turns[0].accepted < 0 then rest else [turns[0].accepted] + rest
  }

  /** The loop's output is the accepted sockets, in order, of the turns it
      takes: stopping it later only adds clients at the end. */
  lemma {:induction false} AcceptLoopPrefix(turns: seq<Turn>, more: seq<Turn>)
    requires Active(turns) == |turns|
    ensures AcceptLoop(turns + more) == AcceptLoop(turns) + AcceptLoop(more)
  {
    if turns != [] {
      assert (turns + more)[0] == turns[0];
      assert (turns + more)[1..] == turns[1..] + more;
      AcceptLoopPrefix(turns[1..], more);
    } else {
      assert turns + more == more;
    }
  }
}
