/** The single-threaded demo HTTP server (`server/demo`): `init` sets up the
    listening socket, `handleClient` reads one request and answers every
    request with the same HTML page, and `run` accepts clients one after the
    other for ever. The socket calls are abstract: each operation is given
    what the calls return and reports the calls it makes as effects. */
module DemoServer {
  import opened Wrappers
  import opened CText
  import opened SocketCalls

  /** The backlog passed to `listen`. */
  const Backlog: nat := 10

  /** `recv` is asked for `sizeof(buffer) - 1` bytes. */
  const RecvLimit: nat := 4095

  datatype Server = Server(port: Int32, serverfd: int)

  datatype Effect =
    | OpenSocket
    | ReuseAddress(fd: int)
    | Bind(fd: int, address: nat, port: nat)
    | Listen(fd: int, backlog: nat)
    | Accept(fd: int)
    | Recv(fd: int, limit: nat)
    | Send(fd: int, bytes: string)
    | CloseFd(fd: int)

  /** What `socket`, `setsockopt`, `bind` and `listen` return in `init`. */
  datatype InitCalls = InitCalls(socketFd: int, reuseOk: bool, bindOk: bool, listenOk: bool)

  datatype Initialised = Initialised(ok: bool, server: Server, effects: seq<Effect>)

  /** `Server(port)`: no socket yet. */
  function NewServer(port: Int32): (s: Server)
    ensures s.serverfd == -1 && s.port == port
  {
    Server(port, -1)
  }

  /** How many times `effects` closes `fd`. */
  function CloseCount(effects: seq<Effect>, fd: int): nat {
    multiset(effects)[CloseFd(fd)]
  }

  /** `init()`: true exactly when the socket is listening, and then the server
      holds it; every failure after `socket()` closes the socket and forgets it. */
  function Init(s: Server, calls: InitCalls): (r: Initialised)
    ensures r.ok <==> calls.socketFd >= 0 && calls.reuseOk && calls.bindOk && calls.listenOk
    ensures r.ok <==> r.server.serverfd >= 0
    ensures r.ok ==> r.server.serverfd == calls.socketFd
    ensures r.server.port == s.port
    ensures !r.ok && calls.socketFd >= 0 ==> r.server.serverfd == -1 && r.effects != [] && Last(r.effects) == CloseFd(calls.socketFd)
    ensures CloseCount(r.effects, calls.socketFd) == (if !r.ok && calls.socketFd >= 0 then 1 else 0)
  {
    var fd := calls.socketFd;
    if fd < 0 then Initialised(false, s.(serverfd := fd), [OpenSocket])
    else
      var bound := [OpenSocket, ReuseAddress(fd), Bind(fd, AnyAddress, WirePort(s.port))];
      if !calls.reuseOk then
        Initialised(false, s.(serverfd := -1), [OpenSocket, ReuseAddress(fd), CloseFd(fd)])
      else if !calls.bindOk then
        Initialised(false, s.(serverfd := -1), bound + [CloseFd(fd)])
      else if !calls.listenOk then
        Initialised(false, s.(serverfd := -1), bound + [Listen(fd, Backlog), CloseFd(fd)])
      else
        Initialised(true, s.(serverfd := fd), bound + [Listen(fd, Backlog)])
  }

  /** Once `socket` and `setsockopt` succeed, the third call binds every
      interface on the server's port, cut to 16 bits. */
  lemma InitBinds(s: Server, calls: InitCalls)
    requires calls.socketFd >= 0 && calls.reuseOk
    ensures |Init(s, calls).effects| >= 3
    ensures Init(s, calls).effects[2] == Bind(calls.socketFd, AnyAddress, WirePort(s.port))
  {
  }

  /** `~Server()`: closes the listening socket only if one is held. */
  function Destroy(s: Server): (effects: seq<Effect>)
    ensures s.serverfd >= 0 <==> effects == [CloseFd(s.serverfd)]
    ensures s.serverfd < 0 <==> effects == []
  {
    if s.serverfd >= 0 then [CloseFd(s.serverfd)] else []
  }

  /** Whatever `init` meets, the socket it opened is closed exactly once by
      the time the server is destroyed. */
  lemma InitThenDestroyClosesOnce(port: Int32, calls: InitCalls)
    requires calls.socketFd >= 0
    ensures var r := Init(NewServer(port), calls);
      CloseCount(r.effects + Destroy(r.server), calls.socketFd) == 1
  {
    var r := Init(NewServer(port), calls);
    assert multiset(r.effects + Destroy(r.server)) == multiset(r.effects) + multiset(Destroy(r.server));
  }

  /** The page every request gets. */
  const Body: string :=
    "<!DOCTYPE html>\n"
    + "<html>\n"
    + "<head><title>Demo C++ Tiny Server</title></head>\n"
    + "<body>\n"
    + "    <h1> Hello World! From my C++ Server! :D</h1>\n"
    + "    <p> This is a tiny HTTP server using UNIX raw sockets</p>\n"
    + "    <p> Thank you very much, Victor Correa</p>\n"
    + "</body>\n"
    + "</html>\n"

  const StatusLine := "HTTP/1.1 200 OK\r\n"
  const ContentType := "Content-Type: text/html; charset=UTF-8\r\n"
  const LengthLabel := "Content-Length: "
  const CloseHeader := "Connection: close\r\n"

  /** The headers before the length value, and what follows the length value
      up to the body. */
  function LeadIn(): string { StatusLine + ContentType + LengthLabel }
  function LeadOut(): string { "\r\n" + CloseHeader + "\r\n" }

  /** The response `handleClient` assembles around `body`. */
  function HttpResponse(body: string): (r: string)
    ensures |r| > |body| && r[|r| - |body|..] == body
  {
    LeadIn() + IntToString(|body|) + LeadOut() + body
  }

  /** A client that reads the `Content-Length` value after its label gets the
      body's size, and the body is exactly the bytes after the blank line
      that ends the headers. */
  lemma ContentLengthFramesBody(body: string)
    ensures var r := HttpResponse(body);
      && r[..|LeadIn()|] == LeadIn()
      && ScanInt(r[|LeadIn()|..]) == Some(Read(|body|, LeadOut() + body))
      && r[|r| - |LeadOut() + body|..] == LeadOut() + body
    ensures LeadOut()[|LeadOut()| - 4..] == "\r\n\r\n"
  {
    LeadOutShape();
    ResponseShape(body);
    NumberField(LeadIn(), |body|, LeadOut() + body);
  }

  lemma ResponseShape(body: string)
    ensures HttpResponse(body) == LeadIn() + (IntToString(|body|) + (LeadOut() + body))
  {
  }

  lemma LeadOutShape()
    ensures LeadOut()[0] == '\r'
    ensures LeadOut()[|LeadOut()| - 4..] == "\r\n\r\n"
  {
  }

  /** A number written between `head` and `tail` is read back from right after `head`. */
  lemma NumberField(head: string, n: int, tail: string)
    requires tail != [] && !IsDigit(tail[0])
    ensures var r := head + (IntToString(n) + tail);
      && r[..|head|] == head
      && ScanInt(r[|head|..]) == Some(Read(n, tail))
      && r[|r| - |tail|..] == tail
  {
    Around(head, IntToString(n), tail);
    ScanIntToString(n, tail);
  }

  lemma Around(head: string, middle: string, tail: string)
    ensures var r := head + (middle + tail);
      && r[..|head|] == head
      && r[|head|..] == middle + tail
      && r[|r| - |tail|..] == tail
  {
  }

  /** The page is 254 bytes long, so the response says `Content-Length: 254`. */
  lemma PageLength()
    ensures |Body| == 254
    ensures HttpResponse(Body) == LeadIn() + "254" + LeadOut() + Body
  {
    assert DigitsOf(2) == "2";
    assert DigitsOf(25) == "25";
    assert IntToString(254) == "254";
  }

  /** The pieces of a log, one after another: the chunks `send` took, or
      the calls of successive loop turns. */
  function Concat<T>(chunks: seq<seq<T>>): seq<T> {
    if chunks == [] then [] else Concat(chunks[..|chunks| - 1]) + chunks[|chunks| - 1]
  }

  /** What one `send` takes when `left` bytes are still to go: nothing when
      it fails, otherwise what the kernel took, never more than `left`. */
  function Taken(sent: int, left: nat): nat {
    if sent < 0 then 0 else if sent > left then left else sent
  }

  /** The reference for the send loop: the bytes each successive `send`
      delivers, starting `from` bytes into `response`. A failed `send`
      delivers nothing and ends the run, as does reaching the end. */
  function Chunks(response: string, from: nat, sends: seq<int>): seq<string>
    requires from <= |response|
    decreases |sends|
  {
    if from == |response| || sends == [] then []
    else if sends[0] < 0 then [[]]
    else
      var t := Taken(sends[0], |response| - from);
      [response[from..from + t]] + Chunks(response, from + t, sends[1..])
  }

  /** A `send` that takes bytes delivers the next chunk; the rest follows. */
  lemma ChunksTake(response: string, from: nat, sends: seq<int>)
    requires from < |response| && sends != [] && sends[0] >= 0
    ensures from + Taken(sends[0], |response| - from) <= |response|
    ensures Chunks(response, from, sends)
         == [response[from..from + Taken(sends[0], |response| - from)]]
            + Chunks(response, from + Taken(sends[0], |response| - from), sends[1..])
  {
  }

  /** A failed `send` delivers nothing and ends the run. */
  lemma ChunksFail(response: string, from: nat, sends: seq<int>)
    requires from < |response| && sends != [] && sends[0] < 0
    ensures Chunks(response, from, sends) == [[]]
  {
  }

  lemma Shift(done: seq<string>, chunk: string, rest: seq<string>)
    ensures (done + [chunk]) + rest == done + ([chunk] + rest)
  {
  }

  /** The loop's state after `|effects|` calls of `send`, none failed:
      `total` bytes are out, as non-empty chunks that follow `Chunks`. */
  predicate Sending(fd: int, response: string, sends: seq<int>, effects: seq<Effect>, total: nat) {
    && total <= |response| <= |sends|
    && |effects| <= total
    && (forall j :: 0 <= j < |effects| ==> effects[j].Send? && effects[j].fd == fd && effects[j].bytes != [])
    && Concat(SentBytes(effects)) == response[..total]
    && (total > 0 ==> effects != [])
    && SentBytes(effects) + Chunks(response, total, sends[|effects|..]) == Chunks(response, 0, sends)
    && (forall j :: 0 <= j < |effects| ==> sends[j] > 0)
  }

  /** What the loop promises when it ends after `effects`. */
  predicate SendOutcome(fd: int, response: string, sends: seq<int>, total: nat, failed: bool, effects: seq<Effect>) {
    && (forall k :: 0 <= k < |effects| ==> effects[k].Send? && effects[k].fd == fd)
    && total <= |response|
    && (failed || total == |response|)
    && Concat(SentBytes(effects)) == response[..total]
    && |effects| <= |sends|
    && (failed <==> exists k :: 0 <= k < |effects| && effects[k].bytes == [])
    && (response != [] ==> effects != [])
    && SentBytes(effects) == Chunks(response, 0, sends)
    && (failed <==> effects != [] && sends[|effects| - 1] < 0)
    && (forall k :: 0 <= k < |effects| - 1 ==> sends[k] > 0)
  }

  /** A `send` that takes bytes moves the loop on by one chunk. */
  lemma SendStep(fd: int, response: string, sends: seq<int>, effects: seq<Effect>, total: nat,
                 taken: nat, effects': seq<Effect>)
    requires Sending(fd, response, sends, effects, total)
    requires total < |response| && sends[|effects|] > 0
    requires taken == Taken(sends[|effects|], |response| - total)
    requires total + taken <= |response|
    requires effects' == effects + [Send(fd, response[total..total + taken])]
    ensures Sending(fd, response, sends, effects', total + taken)
  {
    var k := |effects|;
    var chunk := response[total..total + taken];
    StepChunks(response, sends, SentBytes(effects), k, total);
    StepBytes(fd, response, effects, total, taken);
    assert taken > 0 && chunk != [];
    assert forall j :: 0 <= j < |effects| ==> effects'[j] == effects[j];
    assert forall j :: 0 <= j < |effects'| ==> effects'[j].Send? && effects'[j].fd == fd && effects'[j].bytes != [];
    assert forall j :: 0 <= j < |effects'| ==> sends[j] > 0;
  }

  lemma StepBytes(fd: int, response: string, effects: seq<Effect>, total: nat, taken: nat)
    requires forall k :: 0 <= k < |effects| ==> effects[k].Send?
    requires total + taken <= |response|
    requires Concat(SentBytes(effects)) == response[..total]
    ensures SentBytes(effects + [Send(fd, response[total..total + taken])])
         == SentBytes(effects) + [response[total..total + taken]]
    ensures Concat(SentBytes(effects + [Send(fd, response[total..total + taken])])) == response[..total + taken]
  {
    SentBytesSnoc(effects, Send(fd, response[total..total + taken]));
    assert response[..total + taken] == response[..total] + response[total..total + taken];
  }

  lemma StepChunks(response: string, sends: seq<int>, done: seq<string>, k: nat, total: nat)
    requires total < |response| && k < |sends| && sends[k] > 0
    requires done + Chunks(response, total, sends[k..]) == Chunks(response, 0, sends)
    ensures total + Taken(sends[k], |response| - total) <= |response|
    ensures var next := total + Taken(sends[k], |response| - total);
      (done + [response[total..next]]) + Chunks(response, next, sends[k + 1..]) == Chunks(response, 0, sends)
  {
    var next := total + Taken(sends[k], |response| - total);
    assert sends[k..][0] == sends[k] && sends[k..][1..] == sends[k + 1..];
    ChunksTake(response, total, sends[k..]);
    Shift(done, response[total..next], Chunks(response, next, sends[k + 1..]));
  }

  /** A failed `send` ends the loop with what was sent so far. */
  lemma SendFails(fd: int, response: string, sends: seq<int>, effects: seq<Effect>, total: nat)
    requires Sending(fd, response, sends, effects, total)
    requires total < |response| && sends[|effects|] < 0
    ensures SendOutcome(fd, response, sends, total, true, effects + [Send(fd, [])])
  {
    var k := |effects|;
    var effects' := effects + [Send(fd, [])];
    assert sends[k..][0] == sends[k];
    ChunksFail(response, total, sends[k..]);
    SentBytesSnoc(effects, Send(fd, []));
    assert effects'[k].bytes == [];
    assert forall j :: 0 <= j < k ==> effects'[j] == effects[j];
  }

  /** With every byte out, the loop ends without a failure. */
  lemma SendDone(fd: int, response: string, sends: seq<int>, effects: seq<Effect>, total: nat)
    requires Sending(fd, response, sends, effects, total)
    requires total == |response|
    ensures SendOutcome(fd, response, sends, total, false, effects)
  {
    assert SentBytes(effects) + [] == SentBytes(effects);
    assert response[..total] == response;
  }

  /** The partial-send loop of `handleClient`. `sends[k]` is what the `k`-th
      `send` returns: negative on error, otherwise the number of bytes the
      kernel took, which on a blocking socket is at least one; a count larger
      than what was offered cannot happen and is taken as all of it. */
  method SendAll(fd: int, response: string, sends: seq<int>)
    returns (total: nat, failed: bool, effects: seq<Effect>)
    requires |sends| >= |response|
    requires forall k :: 0 <= k < |sends| ==> sends[k] != 0
    ensures forall k :: 0 <= k < |effects| ==> effects[k].Send? && effects[k].fd == fd
    ensures total <= |response|
    ensures failed || total == |response|
    ensures !failed ==> Concat(SentBytes(effects)) == response
    ensures Concat(SentBytes(effects)) == response[..total]
    ensures |effects| <= |sends|
    ensures failed <==> exists k :: 0 <= k < |effects| && effects[k].bytes == []
    ensures failed ==> exists j :: 0 <= j < |sends| && sends[j] < 0
    ensures response != [] ==> effects != []
    ensures SentBytes(effects) == Chunks(response, 0, sends)
    ensures failed <==> effects != [] && sends[|effects| - 1] < 0
    ensures forall k :: 0 <= k < |effects| - 1 ==> sends[k] > 0
  {
    total, failed, effects := SendLoop(fd, response, sends);
  }

  /** The loop itself; `SendAll` spells out what its outcome means. */
  method SendLoop(fd: int, response: string, sends: seq<int>)
    returns (total: nat, failed: bool, effects: seq<Effect>)
    requires |sends| >= |response|
    requires forall k :: 0 <= k < |sends| ==> sends[k] != 0
    ensures SendOutcome(fd, response, sends, total, failed, effects)
  {
    total := 0;
    failed := false;
    effects := [];
    assert sends[0..] == sends;
    while total < |response|
      invariant Sending(fd, response, sends, effects, total)
      decreases |response| - total
    {
      var sent := sends[|effects|];
      if sent < 0 {
        SendFails(fd, response, sends, effects, total);
        effects := effects + [Send(fd, [])];
        failed := true;
        return;
      }
      var taken := Taken(sent, |response| - total);
      var effects' := effects + [Send(fd, response[total..total + taken])];
      SendStep(fd, response, sends, effects, total, taken, effects');
      effects := effects';
      total := total + taken;
    }
    SendDone(fd, response, sends, effects, total);
  }

  /** The bytes each `send` in `effects` delivered. */
  function SentBytes(effects: seq<Effect>): (chunks: seq<string>)
    requires forall k :: 0 <= k < |effects| ==> effects[k].Send?
    ensures |chunks| == |effects|
    ensures forall k :: 0 <= k < |effects| ==> chunks[k] == effects[k].bytes
  {
    seq(|effects|, k requires 0 <= k < |effects| => effects[k].bytes)
  }

  lemma SentBytesSnoc(effects: seq<Effect>, e: Effect)
    requires forall k :: 0 <= k < |effects| ==> effects[k].Send?
    requires e.Send?
    ensures SentBytes(effects + [e]) == SentBytes(effects) + [e.bytes]
    ensures Concat(SentBytes(effects + [e])) == Concat(SentBytes(effects)) + e.bytes
  {
    var all := SentBytes(effects + [e]);
    assert all[..|all| - 1] == SentBytes(effects);
  }

  /** A connection as `handleClient` meets it: its descriptor, what `recv`
      returns, and what each successive `send` returns. */
  datatype Client = Client(fd: int, received: int, sends: seq<int>)

  /** Each `send` on the connection either fails or takes at least one byte,
      and there are enough of them to finish `response`. */
  predicate Sendable(c: Client, response: string) {
    && |c.sends| >= |response|
    && forall k :: 0 <= k < |c.sends| ==> c.sends[k] != 0
  }

  /** Every client `accept` returned can be sent `response`. */
  predicate AllSendable(clients: seq<Client>, response: string) {
    forall i :: 0 <= i < |clients| && clients[i].fd >= 0 ==> Sendable(clients[i], response)
  }

  /** No `send` on the connection fails. */
  predicate NoSendFails(c: Client) {
    forall k :: 0 <= k < |c.sends| ==> c.sends[k] > 0
  }

  /** What `handleClient` does on connection `c`: a `recv`, then sends
      only, then one `close`, the last call. A failed `recv` sends nothing.
      Otherwise the sends carry the chunks the `send` results cut from
      `response` in turn, so the bytes delivered are a prefix of it, and all
      of it unless a `send` fails. */
  predicate Answered(c: Client, response: string, handled: seq<Effect>) {
    && |handled| >= 2 && handled[0] == Recv(c.fd, RecvLimit)
    && Last(handled) == CloseFd(c.fd) && CloseCount(handled, c.fd) == 1
    && (forall k :: 1 <= k < |handled| - 1 ==> handled[k].Send? && handled[k].fd == c.fd)
    && (c.received < 0 ==> |handled| == 2)
    && (c.received >= 0 ==> SentBytes(handled[1..|handled| - 1]) == Chunks(response, 0, c.sends))
    && |Concat(SentBytes(handled[1..|handled| - 1]))| <= |response|
    && Concat(SentBytes(handled[1..|handled| - 1])) == response[..|Concat(SentBytes(handled[1..|handled| - 1]))|]
    && (c.received >= 0 && NoSendFails(c) ==> Concat(SentBytes(handled[1..|handled| - 1])) == response)
  }

  /** `handleClient(clientfd)`: a failed `recv` closes the connection at once;
      any other outcome, an orderly shutdown (0 bytes) included, is answered
      with `response`, which `run` builds once as `HttpResponse(Body)`.
      `delivered` is what reached the kernel. The connection is closed
      exactly once, as the last call, on every path. */
  method HandleClient(c: Client, response: string) returns (delivered: string, effects: seq<Effect>)
    requires Sendable(c, response)
    ensures |effects| >= 2 && effects[0] == Recv(c.fd, RecvLimit)
    ensures Last(effects) == CloseFd(c.fd) && CloseCount(effects, c.fd) == 1
    ensures forall k :: 1 <= k < |effects| - 1 ==> effects[k].Send? && effects[k].fd == c.fd
    ensures c.received < 0 ==> |effects| == 2
    ensures c.received >= 0 && response != [] ==> |effects| > 2
    ensures c.received < 0 ==> delivered == []
    ensures |delivered| <= |response| && delivered == response[..|delivered|]
    ensures Concat(SentBytes(effects[1..|effects| - 1])) == delivered
    ensures c.received >= 0 && NoSendFails(c) ==> delivered == response
    ensures c.received >= 0 ==> SentBytes(effects[1..|effects| - 1]) == Chunks(response, 0, c.sends)
    ensures Answered(c, response, effects)
  {
    if c.received < 0 {
      effects := [Recv(c.fd, RecvLimit), CloseFd(c.fd)];
      delivered := [];
      return;
    }
    var total, failed, sending := SendAll(c.fd, response, c.sends);
    delivered := response[..total];
    effects := [Recv(c.fd, RecvLimit)] + sending + [CloseFd(c.fd)];
    Framed(c.fd, sending);
  }

  /** A `recv`, sends only, then the `close`: the descriptor is closed once, last. */
  lemma Framed(fd: int, sending: seq<Effect>)
    requires forall k :: 0 <= k < |sending| ==> sending[k].Send? && sending[k].fd == fd
    ensures var effects := [Recv(fd, RecvLimit)] + sending + [CloseFd(fd)];
      && |effects| == |sending| + 2 && effects[0] == Recv(fd, RecvLimit)
      && Last(effects) == CloseFd(fd) && CloseCount(effects, fd) == 1
      && effects[1..|effects| - 1] == sending
      && forall k :: 1 <= k < |effects| - 1 ==> effects[k] == sending[k - 1]
  {
    var effects := [Recv(fd, RecvLimit)] + sending + [CloseFd(fd)];
    assert effects[1..|effects| - 1] == sending;
    assert CloseFd(fd) !in [Recv(fd, RecvLimit)] + sending;
    assert multiset(effects) == multiset([Recv(fd, RecvLimit)] + sending) + multiset([CloseFd(fd)]);
  }

  /** The connections `run` hands to `handleClient`: those `accept` returned
      a descriptor for, in order. */
  function Accepted(clients: seq<Client>): (fds: seq<int>)
    ensures |fds| <= |clients|
  {
    if clients == [] then []
    else
      var c := clients[|clients| - 1];
      var before := Accepted(clients[..|clients| - 1]);
      if c.fd < 0 then before else before + [c.fd]
  }

  /** Exactly the descriptors `accept` returned are handled. */
  lemma {:induction false} AcceptedMembers(clients: seq<Client>)
    ensures forall k :: 0 <= k < |Accepted(clients)| ==> Accepted(clients)[k] >= 0
    ensures forall i :: 0 <= i < |clients| && clients[i].fd >= 0 ==> clients[i].fd in Accepted(clients)
    ensures forall fd :: fd in Accepted(clients) ==> exists i :: 0 <= i < |clients| && clients[i].fd == fd
  {
    if clients != [] {
      var init := clients[..|clients| - 1];
      var last := |clients| - 1;
      AcceptedMembers(init);
      assert forall i :: 0 <= i < |init| ==> init[i] == clients[i];
      var before := Accepted(init);
      var fds := Accepted(clients);
      assert fds == if clients[last].fd < 0 then before else before + [clients[last].fd];
      forall k | 0 <= k < |fds|
        ensures fds[k] >= 0
      {
        if k < |before| {
          assert fds[k] == before[k];
          assert before[k] >= 0;
        } else {
          assert fds[k] == clients[last].fd;
        }
      }
      forall fd | fd in fds
        ensures exists i :: 0 <= i < |clients| && clients[i].fd == fd
      {
        if fd in before {
          var i :| 0 <= i < |init| && init[i].fd == fd;
          assert clients[i].fd == fd;
        } else {
          assert clients[last].fd == fd;
        }
      }
    }
  }

  /** One turn of `run`'s loop: `accept` on the listening socket, then the
      connection is handled when `accept` gave a descriptor. */
  method Turn(listenFd: int, c: Client, response: string) returns (effects: seq<Effect>)
    requires c.fd >= 0 ==> Sendable(c, response)
    ensures effects != [] && effects[0] == Accept(listenFd)
    ensures c.fd < 0 <==> effects == [Accept(listenFd)]
    ensures c.fd >= 0 ==> Last(effects) == CloseFd(c.fd) && CloseCount(effects[1..], c.fd) == 1
    ensures TurnOf(listenFd, c, response, effects)
  {
    effects := [Accept(listenFd)];
    if c.fd >= 0 {
      var _, handled := HandleClient(c, response);
      effects := effects + handled;
      assert effects[1..] == handled;
    }
  }

  /** One turn as `run`'s loop takes it: an `accept`, then, for a
      connection it gave, that connection answered. */
  predicate TurnOf(listenFd: int, c: Client, response: string, turn: seq<Effect>) {
    && turn != [] && turn[0] == Accept(listenFd)
    && (c.fd < 0 ==> turn == [Accept(listenFd)])
    && (c.fd >= 0 ==> Answered(c, response, turn[1..]))
  }

  lemma AcceptedSnoc(clients: seq<Client>, i: nat)
    requires i < |clients|
    ensures Accepted(clients[..i + 1])
      == Accepted(clients[..i]) + (if clients[i].fd >= 0 then [clients[i].fd] else [])
  {
    assert clients[..i + 1][..i] == clients[..i];
  }

  /** `run()`'s loop over the connections accepted so far on `listenFd`. */
  method ServeClients(listenFd: int, clients: seq<Client>, response: string)
    returns (served: seq<int>, effects: seq<Effect>, turns: seq<seq<Effect>>)
    requires AllSendable(clients, response)
    ensures served == Accepted(clients)
    ensures forall i :: 0 <= i < |clients| && clients[i].fd >= 0 ==> CloseFd(clients[i].fd) in effects
    ensures Accept(listenFd) in effects <==> clients != []
    ensures |turns| == |clients| && effects == Concat(turns)
    ensures forall i :: 0 <= i < |clients| ==> TurnOf(listenFd, clients[i], response, turns[i])
  {
    served := [];
    effects := [];
    turns := [];
    var i := 0;
    while i < |clients|
      invariant 0 <= i <= |clients|
      invariant served == Accepted(clients[..i])
      invariant ClosedSoFar(clients, i, effects)
      invariant Accept(listenFd) in effects <==> i > 0
      invariant TurnsSoFar(listenFd, clients[..i], response, effects, turns)
    {
      var c := clients[i];
      var turn := Turn(listenFd, c, response);
      TurnAppended(effects, turn, listenFd, c.fd);
      NextClosed(clients, i, effects, turn);
      NextTurn(listenFd, clients, i, response, effects, turns, turn);
      effects := effects + turn;
      turns := turns + [turn];
      AcceptedSnoc(clients, i);
      if c.fd >= 0 {
        served := served + [c.fd];
      }
      i := i + 1;
    }
    assert clients[..|clients|] == clients;
  }

  /** Every connection handed to the loop so far has been closed. */
  predicate ClosedSoFar(clients: seq<Client>, i: nat, effects: seq<Effect>)
    requires i <= |clients|
  {
    forall j :: 0 <= j < i && clients[j].fd >= 0 ==> CloseFd(clients[j].fd) in effects
  }

  lemma NextClosed(clients: seq<Client>, i: nat, effects: seq<Effect>, turn: seq<Effect>)
    requires i < |clients| && ClosedSoFar(clients, i, effects)
    requires clients[i].fd >= 0 ==> CloseFd(clients[i].fd) in effects + turn
    ensures ClosedSoFar(clients, i + 1, effects + turn)
  {
    forall j | 0 <= j < i + 1 && clients[j].fd >= 0
      ensures CloseFd(clients[j].fd) in effects + turn
    {
      if j < i {
        assert CloseFd(clients[j].fd) in effects;
      }
    }
  }

  /** The loop so far: one turn per connection handed to it, and the calls
      made are those turns' calls in order. */
  predicate TurnsSoFar(listenFd: int, clients: seq<Client>, response: string,
                       effects: seq<Effect>, turns: seq<seq<Effect>>) {
    && |turns| == |clients| && effects == Concat(turns)
    && forall j :: 0 <= j < |clients| ==> TurnOf(listenFd, clients[j], response, turns[j])
  }

  lemma NextTurn(listenFd: int, clients: seq<Client>, i: nat, response: string,
                 effects: seq<Effect>, turns: seq<seq<Effect>>, turn: seq<Effect>)
    requires i < |clients|
    requires TurnsSoFar(listenFd, clients[..i], response, effects, turns)
    requires TurnOf(listenFd, clients[i], response, turn)
    ensures TurnsSoFar(listenFd, clients[..i + 1], response, effects + turn, turns + [turn])
  {
    ConcatSnoc(turns, turn);
    assert forall j :: 0 <= j < i ==> clients[..i + 1][j] == clients[..i][j];
  }

  lemma ConcatSnoc<T>(chunks: seq<seq<T>>, chunk: seq<T>)
    ensures Concat(chunks + [chunk]) == Concat(chunks) + chunk
  {
    assert (chunks + [chunk])[..|chunks|] == chunks;
  }

  lemma TurnAppended(before: seq<Effect>, turn: seq<Effect>, listenFd: int, fd: int)
    requires turn != [] && turn[0] == Accept(listenFd)
    requires fd >= 0 ==> Last(turn) == CloseFd(fd)
    ensures forall e :: e in before ==> e in before + turn
    ensures Accept(listenFd) in before + turn
    ensures fd >= 0 ==> CloseFd(fd) in before + turn
  {
    assert (before + turn)[|before|] == Accept(listenFd);
    if fd >= 0 {
      assert (before + turn)[|before| + |turn| - 1] == CloseFd(fd);
    }
  }

  /** `run()` over the connections accepted so far. Once `init` succeeds the
      loop never ends, so there is no exit code; a failed `accept` is skipped
      and the loop goes on. `Some(1)` is the exit code when `init` fails. */
  method Run(s: Server, calls: InitCalls, clients: seq<Client>)
    returns (exit: Option<int>, served: seq<int>, effects: seq<Effect>, turns: seq<seq<Effect>>)
    requires AllSendable(clients, HttpResponse(Body))
    ensures exit.Some? <==> !Init(s, calls).ok
    ensures exit.Some? ==> exit.value == 1 && served == [] && effects == Init(s, calls).effects
    ensures exit.None? ==> served == Accepted(clients)
    ensures |effects| >= |Init(s, calls).effects| && effects[..|Init(s, calls).effects|] == Init(s, calls).effects
    ensures exit.None? ==> forall i :: 0 <= i < |clients| && clients[i].fd >= 0 ==> CloseFd(clients[i].fd) in effects
    ensures exit.None? ==> (Accept(calls.socketFd) in effects[|Init(s, calls).effects|..] <==> clients != [])
    ensures exit.Some? ==> turns == []
    ensures exit.None? ==> |turns| == |clients| && effects == Init(s, calls).effects + Concat(turns)
    ensures exit.None? ==> forall i :: 0 <= i < |clients| ==> TurnOf(calls.socketFd, clients[i], HttpResponse(Body), turns[i])
  {
    var started := Init(s, calls);
    if !started.ok {
      return Some(1), [], started.effects, [];
    }
    var looped;
    served, looped, turns := ServeClients(started.server.serverfd, clients, HttpResponse(Body));
    effects := started.effects + looped;
    assert effects[|started.effects|..] == looped;
    assert forall e :: e in looped ==> e in effects;
    return None, served, effects, turns;
  }
}
