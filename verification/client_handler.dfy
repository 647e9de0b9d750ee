/** `Server::handleClient`: the per-connection loop of the transaction
    server. Each `recv` chunk is stripped of its trailing line ends, its first
    word chooses the command, the account and transfer services are called,
    and exactly one reply line is sent back for every non-empty chunk.
    The socket is abstract: the loop consumes a sequence of `recv` outcomes. */
module ClientHandler {
  import opened Wrappers
  import opened CText
  import opened DbConnection
  import opened AccountService
  import Tx = Transactions

  /** `recv` is asked for `sizeof(buffer) - 1` bytes. */
  const RecvLimit := 1023

  predicate IsLineEnd(c: char) {
    c == '\n' || c == '\r'
  }

  predicate AllLineEnds(s: string) {
    forall i :: 0 <= i < |s| ==> IsLineEnd(s[i])
  }

  /** Pops every trailing `\n` and `\r`, not just one. */
  function Strip(chunk: string): (line: string)
    ensures |line| <= |chunk| && line == chunk[..|line|]
    ensures AllLineEnds(chunk[|line|..])
    ensures line == [] || !IsLineEnd(line[|line| - 1])
    decreases |chunk|
  {
    if chunk != [] && IsLineEnd(chunk[|chunk| - 1]) then Strip(chunk[..|chunk| - 1]) else chunk
  }

  /** `Strip` is the one way of cutting a chunk into a line that does not end
      in a line end, followed by line ends only. */
  lemma StripUnique(line: string, tail: string)
    requires line == [] || !IsLineEnd(line[|line| - 1])
    requires AllLineEnds(tail)
    ensures Strip(line + tail) == line
  {
    var s := line + tail;
    var l := Strip(s);
    assert l == s[..|l|];
    assert s[..|line|] == line;
  }

  lemma StripIdempotent(chunk: string)
    ensures Strip(Strip(chunk)) == Strip(chunk)
  {
    StripUnique(Strip(chunk), []);
    assert Strip(chunk) + [] == Strip(chunk);
  }

  /** How `>> double` reads an amount and how `<< double` prints one; both
      belong to the C++ library and are outside this model. */
  datatype Doubles = Doubles(read: string -> Option<real>, show: real -> string)

  datatype Command =
    | Ping
    | Balance(id: Int32)
    | BadBalance
    | Transfer(from: Int32, to: Int32, amount: real)
    | BadTransfer
    | Unknown(verb: string)

  /** The command a stripped line holds: its first word chooses the command,
      case-sensitively; numbers are read with `>> int` and the amount with
      `>> double`; anything after the last number is ignored. */
  function Interpret(line: string, doubles: Doubles): (cmd: Command)
    ensures ReadWord(line).value == "PING" <==> cmd.Ping?
    ensures ReadWord(line).value == "BALANCE" <==> cmd.Balance? || cmd.BadBalance?
    ensures ReadWord(line).value == "TRANSFER" <==> cmd.Transfer? || cmd.BadTransfer?
    ensures cmd.Unknown? ==> cmd.verb == ReadWord(line).value
  {
    var verb := ReadWord(line);
    if verb.value == "PING" then Ping
    else if verb.value == "BALANCE" then BalanceArguments(verb.rest)
    else if verb.value == "TRANSFER" then TransferArguments(verb.rest, doubles)
    else Unknown(verb.value)
  }

  /** The arguments after `BALANCE`: an account id. */
  function BalanceArguments(rest: string): (cmd: Command)
    ensures cmd.Balance? || cmd.BadBalance?
    ensures cmd.Balance? <==> ReadInt(rest).Some?
    ensures cmd.Balance? ==> cmd.id == ReadInt(rest).value.value
  {
    match ReadInt(rest)
    case None => BadBalance
    case Some(id) => Balance(id.value)
  }

  /** The arguments after `TRANSFER`: two account ids and an amount. */
  function TransferArguments(rest: string, doubles: Doubles): (cmd: Command)
    ensures cmd.Transfer? || cmd.BadTransfer?
    ensures cmd.Transfer? <==>
      && ReadInt(rest).Some?
      && ReadInt(ReadInt(rest).value.rest).Some?
      && doubles.read(ReadInt(ReadInt(rest).value.rest).value.rest).Some?
    ensures cmd.Transfer? ==>
      && cmd.from == ReadInt(rest).value.value
      && cmd.to == ReadInt(ReadInt(rest).value.rest).value.value
      && cmd.amount == doubles.read(ReadInt(ReadInt(rest).value.rest).value.rest).value
  {
    match ReadInt(rest)
    case None => BadTransfer
    case Some(from) =>
      match ReadInt(from.rest)
      case None => BadTransfer
      case Some(to) =>
        match doubles.read(to.rest)
        case None => BadTransfer
        case Some(amount) => Transfer(from.value, to.value, amount)
  }

  datatype Response = Pong | BalanceIs(id: Int32, amount: real) | Done | Error(message: string)

  /** The reply line written for a response. */
  function Render(r: Response, doubles: Doubles): (text: string)
    ensures |text| >= 3 && text[|text| - 1] == '\n'
  {
    match r
    case Pong => "PONG\n"
    case BalanceIs(id, amount) => "BALANCE " + IntToString(id) + " " + doubles.show(amount) + "\n"
    case Done => "OK\n"
    case Error(m) => "ERROR " + m + "\n"
  }

  /** The first word of every reply names its kind. */
  function Tag(r: Response): string {
    match r
    case Pong => "PONG"
    case BalanceIs(_, _) => "BALANCE"
    case Done => "OK"
    case Error(_) => "ERROR"
  }

  lemma ReadWordOf(w: string, rest: string)
    requires w != [] && forall i :: 0 <= i < |w| ==> !IsSpace(w[i])
    requires rest == [] || IsSpace(rest[0])
    ensures ReadWord(w + rest) == Read(w, rest)
  {
    var s := w + rest;
    assert s[0] == w[0];
    assert SkipSpace(s) == s;
    SpanOfConcat(w, rest, NotSpace);
    assert s[..|w|] == w && s[|w|..] == rest;
  }

  /** The fixed replies as they appear on the wire. This lemma and the three
      after it only spell out string literals that the solver does not join
      by itself; the examples below use them. */
  lemma ReplyLines()
    ensures "PONG" + "\n" == "PONG\n"
    ensures "OK" + "\n" == "OK\n"
  {
  }

  lemma UnknownLine()
    ensures "ERROR " + "Unknown command" + "\n" == "ERROR Unknown command\n"
  {
  }

  lemma BadBalanceLine()
    ensures "ERROR " + "Invalid BALANCE arguments" + "\n" == "ERROR Invalid BALANCE arguments\n"
  {
  }

  lemma BadTransferLine()
    ensures "ERROR " + "Invalid TRANSFER arguments" + "\n" == "ERROR Invalid TRANSFER arguments\n"
  {
  }

  /** A client reading a reply with `>> word` gets its kind. */
  lemma ReplyKindReadsBack(r: Response, doubles: Doubles)
    ensures ReadWord(Render(r, doubles)).value == Tag(r)
  {
    TagIsWord(r);
    var tail := RenderAfterTag(r, doubles);
    ReadWordOf(Tag(r), tail);
  }

  lemma TagIsWord(r: Response)
    ensures Tag(r) != [] && forall i :: 0 <= i < |Tag(r)| ==> !IsSpace(Tag(r)[i])
  {
  }

  lemma RenderAfterTag(r: Response, doubles: Doubles) returns (tail: string)
    ensures Render(r, doubles) == Tag(r) + tail
    ensures tail != [] && IsSpace(tail[0])
  {
    match r
    case Pong =>
      tail := "\n";
      ReplyLines();
    case Done =>
      tail := "\n";
      ReplyLines();
    case Error(m) =>
      tail := BlankThen(m + "\n");
      ErrorAfterTag(m, doubles);
    case BalanceIs(id, amount) =>
      tail := BlankThen(IntToString(id) + " " + doubles.show(amount) + "\n");
      BalanceAfterTag(id, amount, doubles);
  }

  lemma ErrorAfterTag(m: string, doubles: Doubles)
    ensures Render(Error(m), doubles) == "ERROR" + BlankThen(m + "\n")
  {
    SplitAfter("ERROR", m + "\n");
  }

  lemma BalanceAfterTag(id: Int32, amount: real, doubles: Doubles)
    ensures Render(BalanceIs(id, amount), doubles)
         == "BALANCE" + BlankThen(IntToString(id) + " " + doubles.show(amount) + "\n")
  {
    var rest := IntToString(id) + " " + doubles.show(amount) + "\n";
    assert Render(BalanceIs(id, amount), doubles) == "BALANCE " + rest;
    SplitAfter("BALANCE", rest);
  }

  /** A blank followed by `rest`. */
  function BlankThen(rest: string): (tail: string)
    ensures tail != [] && IsSpace(tail[0])
    ensures tail[1..] == rest
  {
    " " + rest
  }

  lemma SplitAfter(word: string, rest: string)
    ensures word + " " + rest == word + BlankThen(rest)
  {
  }

  /** After the word `BALANCE`, a client reading the reply with `>> int`
      gets back the id the request named. */
  lemma BalanceReplyEchoesId(id: Int32, amount: real, doubles: Doubles)
    ensures var w := ReadWord(Render(BalanceIs(id, amount), doubles));
      w.value == "BALANCE" && ReadInt(w.rest) == Some(Read(id as int, " " + doubles.show(amount) + "\n"))
  {
    var tail := " " + doubles.show(amount) + "\n";
    assert Render(BalanceIs(id, amount), doubles) == "BALANCE" + (" " + (IntToString(id) + tail));
    ReadWordOf("BALANCE", " " + (IntToString(id) + tail));
    ReadIntAfterBlank(' ', id, tail);
  }

  /** The database handle and the tables behind it. */
  datatype Bank = Bank(db: Db, store: Store)

  /** The description the server passes, whatever the request line held. */
  const ServerDescription := "Server transfer"

  /** Calls the services for one command and turns every failure into an
      `Error` carrying the exception's message. */
  function Dispatch(cmd: Command, bank: Bank, proc: Tx.Procedure): (r: (Response, Bank))
    ensures r.1.db == bank.db
    ensures !cmd.Transfer? ==> r.1 == bank
    ensures cmd.Ping? ==> r.0 == Pong
    ensures cmd.BadBalance? ==> r.0 == Error("Invalid BALANCE arguments")
    ensures cmd.BadTransfer? ==> r.0 == Error("Invalid TRANSFER arguments")
    ensures cmd.Unknown? ==> r.0 == Error("Unknown command")
    ensures cmd.Balance? ==> match GetBalance(bank.db, bank.store, cmd.id)
                             case Ok(b) => r.0 == BalanceIs(cmd.id, b)
                             case Err(m) => r.0 == Error(m)
    ensures cmd.Transfer? ==>
      var run := Tx.Transfer(bank.db, bank.store, proc, cmd.from, cmd.to, cmd.amount, "Server transfer");
      && r.1.store == run.store
      && (run.outcome.Pass? ==> r.0 == Done)
      && (run.outcome.Fail? ==> r.0 == Error(run.outcome.error))
  {
    match cmd
    case Ping => (Pong, bank)
    case Balance(id) =>
      (match GetBalance(bank.db, bank.store, id)
       case Ok(b) => (BalanceIs(id, b), bank)
       case Err(m) => (Error(m), bank))
    case BadBalance => (Error("Invalid BALANCE arguments"), bank)
    case Transfer(from, to, amount) =>
      var run := Tx.Transfer(bank.db, bank.store, proc, from, to, amount, ServerDescription);
      var resp := match run.outcome
        case Pass => Done
        case Fail(m) => Error(m);
      (resp, bank.(store := run.store))
    case BadTransfer => (Error("Invalid TRANSFER arguments"), bank)
    case Unknown(_) => (Error("Unknown command"), bank)
  }

  /** The library functions and the stored procedure the handler relies on. */
  datatype Env = Env(doubles: Doubles, proc: Tx.Procedure)

  datatype Handled = Handled(reply: Option<string>, bank: Bank)

  /** A reply line as the handler can send it. */
  predicate WellFormedReply(text: string) {
    |text| >= 3 && text[|text| - 1] == '\n'
  }

  /** One pass of the loop body for a received chunk: no reply when nothing
      but line ends came in, else exactly one reply. */
  function HandleChunk(chunk: string, bank: Bank, env: Env): (h: Handled)
    ensures Strip(chunk) == [] <==> h.reply.None?
    ensures h.reply.None? ==> h.bank == bank
    ensures h.reply.Some? ==> WellFormedReply(h.reply.value)
    ensures h.bank.db == bank.db
  {
    var line := Strip(chunk);
    if line == [] then Handled(None, bank)
    else
      var (resp, bank') := Dispatch(Interpret(line, env.doubles), bank, env.proc);
      Handled(Some(Render(resp, env.doubles)), bank')
  }

  /** A chunk with a line in it is answered with what its command dispatches to. */
  lemma AnsweredChunk(chunk: string, bank: Bank, env: Env, cmd: Command)
    requires Strip(chunk) != []
    requires Interpret(Strip(chunk), env.doubles) == cmd
    ensures var d := Dispatch(cmd, bank, env.proc);
      HandleChunk(chunk, bank, env) == Handled(Some(Render(d.0, env.doubles)), d.1)
  {
  }

  /** A chunk whose command is refused before any service is called gets
      the refusal as its reply and leaves the bank as it was. */
  lemma RefusedChunk(chunk: string, bank: Bank, env: Env, cmd: Command, message: string)
    requires Strip(chunk) != []
    requires Interpret(Strip(chunk), env.doubles) == cmd
    requires Dispatch(cmd, bank, env.proc) == (Error(message), bank)
    ensures HandleChunk(chunk, bank, env) == Handled(Some("ERROR " + message + "\n"), bank)
  {
    AnsweredChunk(chunk, bank, env, cmd);
    ErrorText(message, env.doubles);
  }

  lemma ErrorText(message: string, doubles: Doubles)
    ensures Render(Error(message), doubles) == "ERROR " + message + "\n"
  {
  }

  /** A chunk of nothing but `\n` and `\r` gets no reply. */
  lemma LineEndsGetNoReply(chunk: string, bank: Bank, env: Env)
    requires AllLineEnds(chunk)
    ensures HandleChunk(chunk, bank, env) == Handled(None, bank)
  {
  }

  /** A chunk of blanks other than line ends gets `ERROR Unknown command`. */
  lemma BlankChunkIsUnknown(chunk: string, bank: Bank, env: Env)
    requires forall i :: 0 <= i < |chunk| ==> IsSpace(chunk[i])
    requires !AllLineEnds(chunk)
    ensures HandleChunk(chunk, bank, env) == Handled(Some("ERROR Unknown command\n"), bank)
  {
    var line := Strip(chunk);
    assert forall i :: 0 <= i < |line| ==> IsSpace(line[i]) by {
      forall i | 0 <= i < |line| ensures IsSpace(line[i]) {
        assert line[i] == chunk[i];
      }
    }
    assert ReadWord(line).value == [];
    assert Interpret(line, env.doubles) == Unknown([]);
    UnknownLine();
  }

  /** `PING` answers `PONG`, whatever follows it on the line, and touches nothing. */
  lemma PingAnswersPong(chunk: string, bank: Bank, env: Env)
    requires ReadWord(Strip(chunk)).value == "PING"
    ensures HandleChunk(chunk, bank, env) == Handled(Some("PONG\n"), bank)
  {
  }

  /** A BALANCE whose id cannot be read is refused without a lookup. */
  lemma BadBalanceNoLookup(chunk: string, bank: Bank, env: Env)
    requires var w := ReadWord(Strip(chunk)); w.value == "BALANCE" && ReadInt(w.rest).None?
    ensures HandleChunk(chunk, bank, env) == Handled(Some("ERROR Invalid BALANCE arguments\n"), bank)
  {
    BalanceRefused(Strip(chunk), env.doubles);
    RefusedChunk(chunk, bank, env, BadBalance, "Invalid BALANCE arguments");
    BadBalanceLine();
  }

  lemma BalanceRefused(line: string, doubles: Doubles)
    requires var w := ReadWord(line); w.value == "BALANCE" && ReadInt(w.rest).None?
    ensures line != [] && Interpret(line, doubles) == BadBalance
  {
    var w := ReadWord(line);
    InterpretBalance(line, doubles);
    assert BalanceArguments(w.rest) == BadBalance;
  }

  /** The three verbs differ from each other. */
  lemma Verbs()
    ensures |"PING"| == 4 && |"BALANCE"| == 7 && |"TRANSFER"| == 8
  {
  }

  lemma InterpretBalance(line: string, doubles: Doubles)
    requires ReadWord(line).value == "BALANCE"
    ensures line != [] && Interpret(line, doubles) == BalanceArguments(ReadWord(line).rest)
  {
    Verbs();
  }

  lemma InterpretTransfer(line: string, doubles: Doubles)
    requires ReadWord(line).value == "TRANSFER"
    ensures line != [] && Interpret(line, doubles) == TransferArguments(ReadWord(line).rest, doubles)
  {
    Verbs();
  }

  lemma TransferRefused(line: string, doubles: Doubles)
    requires var w := ReadWord(line);
      && w.value == "TRANSFER"
      && (|| ReadInt(w.rest).None?
          || ReadInt(ReadInt(w.rest).value.rest).None?
          || doubles.read(ReadInt(ReadInt(w.rest).value.rest).value.rest).None?)
    ensures line != [] && Interpret(line, doubles) == BadTransfer
  {
    var w := ReadWord(line);
    InterpretTransfer(line, doubles);
    assert TransferArguments(w.rest, doubles) == BadTransfer;
  }

  /** A TRANSFER with any of its three numbers unreadable is refused without
      calling the transfer service. */
  lemma BadTransferNoCall(chunk: string, bank: Bank, env: Env)
    requires var w := ReadWord(Strip(chunk));
      && w.value == "TRANSFER"
      && (|| ReadInt(w.rest).None?
          || ReadInt(ReadInt(w.rest).value.rest).None?
          || env.doubles.read(ReadInt(ReadInt(w.rest).value.rest).value.rest).None?)
    ensures HandleChunk(chunk, bank, env) == Handled(Some("ERROR Invalid TRANSFER arguments\n"), bank)
  {
    TransferRefused(Strip(chunk), env.doubles);
    BadTransferChunk(chunk, bank, env);
  }

  lemma BadTransferChunk(chunk: string, bank: Bank, env: Env)
    requires Strip(chunk) != []
    requires Interpret(Strip(chunk), env.doubles) == BadTransfer
    ensures HandleChunk(chunk, bank, env) == Handled(Some("ERROR Invalid TRANSFER arguments\n"), bank)
  {
    RefusedChunk(chunk, bank, env, BadTransfer, "Invalid TRANSFER arguments");
    BadTransferLine();
  }

  /** `BALANCE <id>` answers `BALANCE <id> <balance>` for an account the query
      finds and `ERROR Account not found: <id>` otherwise, echoing the id as
      written by `<< int`, whatever line ends the chunk carries. */
  lemma BalanceRequest(id: Int32, ending: string, bank: Bank, env: Env)
    requires AllLineEnds(ending)
    requires IsConnected(bank.db)
    ensures var h := HandleChunk("BALANCE " + IntToString(id) + ending, bank, env);
      && h.bank == bank
      && (HasRow(bank.store, id) ==>
            h.reply == Some("BALANCE " + IntToString(id) + " " + env.doubles.show(bank.store.accounts[id].balance) + "\n"))
      && (!HasRow(bank.store, id) ==>
            h.reply == Some("ERROR Account not found: " + IntToString(id) + "\n"))
  {
    var line := "BALANCE " + IntToString(id);
    EndsInDigit(id);
    assert line[|line| - 1] == IntToString(id)[|IntToString(id)| - 1];
    StripUnique(line, ending);
    BalanceLine(id, env.doubles);
    assert line != [];
    AnsweredChunk(line + ending, bank, env, Balance(id));
    BalanceReply(id, bank, env);
  }

  lemma BalanceReply(id: Int32, bank: Bank, env: Env)
    requires IsConnected(bank.db)
    ensures var d := Dispatch(Balance(id), bank, env.proc);
      && d.1 == bank
      && (HasRow(bank.store, id) ==>
            Render(d.0, env.doubles)
            == "BALANCE " + IntToString(id) + " " + env.doubles.show(bank.store.accounts[id].balance) + "\n")
      && (!HasRow(bank.store, id) ==>
            Render(d.0, env.doubles) == "ERROR Account not found: " + IntToString(id) + "\n")
  {
    NotFoundLine(IntToString(id));
  }

  /** `BALANCE <id>`, as a client writes it, reads back as a balance query for `id`. */
  lemma BalanceLine(id: Int32, doubles: Doubles)
    ensures Interpret("BALANCE " + IntToString(id), doubles) == Balance(id)
  {
    var rest := [' '] + (IntToString(id) + []);
    assert "BALANCE " + IntToString(id) == "BALANCE" + rest;
    ReadWordOf("BALANCE", rest);
    InterpretBalance("BALANCE " + IntToString(id), doubles);
    BalanceArgumentsOf(id, rest);
  }

  lemma BalanceArgumentsOf(id: Int32, rest: string)
    requires rest == [' '] + (IntToString(id) + [])
    ensures BalanceArguments(rest) == Balance(id)
  {
    ReadIntAfterBlank(' ', id, []);
  }

  lemma NotFoundLine(digits: string)
    ensures "ERROR " + ("Account not found: " + digits) + "\n" == "ERROR Account not found: " + digits + "\n"
  {
  }

  /** The server's own example: `BALANCE 999999` for an account that does not exist. */
  lemma BalanceOfMissingAccount(bank: Bank, env: Env)
    requires IsConnected(bank.db)
    requires !HasRow(bank.store, 999999)
    ensures HandleChunk("BALANCE 999999\n", bank, env).reply == Some("ERROR Account not found: 999999\n")
  {
    SixNines();
    BalanceRequest(999999, "\n", bank, env);
  }

  /** The decimal text of 999999, spelled out digit by digit for the solver. */
  lemma SixNines()
    ensures "BALANCE " + IntToString(999999) + "\n" == "BALANCE 999999\n"
    ensures "ERROR Account not found: " + IntToString(999999) + "\n" == "ERROR Account not found: 999999\n"
  {
    assert DigitsOf(9) == "9";
    assert DigitsOf(99) == "99";
    assert DigitsOf(999) == "999";
    assert DigitsOf(9999) == "9999";
    assert DigitsOf(99999) == "99999";
    assert IntToString(999999) == "999999";
  }

  /** `TRANSFER <from> <to> <amount> ...` calls the transfer service once with
      the description "Server transfer", whatever else the line holds, and
      answers `OK` exactly when it commits. */
  lemma TransferRequest(chunk: string, bank: Bank, env: Env, from: Int32, to: Int32, amount: real)
    requires Interpret(Strip(chunk), env.doubles) == Transfer(from, to, amount)
    ensures var run := Tx.Transfer(bank.db, bank.store, env.proc, from, to, amount, "Server transfer");
      var h := HandleChunk(chunk, bank, env);
      && h.bank == bank.(store := run.store)
      && (run.outcome.Pass? <==> h.reply == Some("OK\n"))
      && (run.outcome.Fail? ==> h.reply == Some("ERROR " + run.outcome.error + "\n"))
  {
    var run := Tx.Transfer(bank.db, bank.store, env.proc, from, to, amount, "Server transfer");
    assert Strip(chunk) != [] by {
      EmptyLineIsUnknown(env.doubles);
    }
    AnsweredChunk(chunk, bank, env, Transfer(from, to, amount));
    TransferReply(bank, env, from, to, amount);
    if run.outcome.Fail? {
      ErrorIsNotOk(run.outcome.error);
    }
  }

  lemma TransferReply(bank: Bank, env: Env, from: Int32, to: Int32, amount: real)
    ensures var run := Tx.Transfer(bank.db, bank.store, env.proc, from, to, amount, "Server transfer");
      var d := Dispatch(Transfer(from, to, amount), bank, env.proc);
      && d.1 == bank.(store := run.store)
      && (run.outcome.Pass? ==> Render(d.0, env.doubles) == "OK\n")
      && (run.outcome.Fail? ==> Render(d.0, env.doubles) == "ERROR " + run.outcome.error + "\n")
  {
    var run := Tx.Transfer(bank.db, bank.store, env.proc, from, to, amount, "Server transfer");
    if run.outcome.Pass? {
      ReplyLines();
    }
  }

  lemma EmptyLineIsUnknown(doubles: Doubles)
    ensures Interpret([], doubles) == Unknown([])
  {
    assert ReadWord([]).value == [];
  }

  lemma ErrorIsNotOk(message: string)
    ensures "ERROR " + message + "\n" != "OK\n"
  {
    var text := "ERROR " + message + "\n";
    assert text[..3] == "ERR";
  }

  /** What one `recv` call gives: bytes, with what the following `send` of
      the reply returns (the code ignores it), or a return value of 0 or
      less, which ends the loop. */
  datatype Recv = Data(bytes: string, sendResult: int) | Closed

  /** `recv` hands over between 1 and `RecvLimit` bytes. */
  predicate ValidRecv(r: Recv) {
    r.Data? ==> 1 <= |r.bytes| <= RecvLimit
  }

  predicate ValidRecvs(recvs: seq<Recv>) {
    forall i :: 0 <= i < |recvs| ==> ValidRecv(recvs[i])
  }

  /** Every `recv` in `recvs` returned bytes. */
  predicate AllData(recvs: seq<Recv>) {
    forall i :: 0 <= i < |recvs| ==> recvs[i].Data?
  }

  /** What the loop did with a run of `recv` outcomes: the replies it sent,
      in order, how many outcomes it consumed, whether it closed the socket,
      and the tables afterwards. */
  datatype Session = Session(sent: seq<string>, consumed: nat, closed: bool, bank: Bank)

  function Prepend(reply: Option<string>, s: Session): Session {
    Session((if reply.Some? then [reply.value] else []) + s.sent, s.consumed + 1, s.closed, s.bank)
  }

  /** What the loop body does with one chunk. */
  type Handler = (string, Bank) -> Handled

  /** The loop body of `handleClient`. */
  function ChunkHandler(env: Env): Handler {
    (chunk, bank) => HandleChunk(chunk, bank, env)
  }

  /** The `while (true)` loop of `handleClient` over the outcomes `recvs`,
      with `handle` as its body: it runs until the first `recv` that returns
      0 or less, closes the socket then, and otherwise runs out of input. */
  function Serve(recvs: seq<Recv>, bank: Bank, handle: Handler): (s: Session)
    ensures s.consumed <= |recvs| && |s.sent| <= s.consumed
    ensures !s.closed <==> AllData(recvs)
    ensures s.closed ==> s.consumed > 0 && recvs[s.consumed - 1] == Closed && AllData(recvs[..s.consumed - 1])
    ensures !s.closed ==> s.consumed == |recvs|
  {
    if recvs == [] then Session([], 0, false, bank)
    else
      match recvs[0]
      case Closed =>
        Session([], 1, true, bank)
      case Data(bytes, _) =>
        var h := handle(bytes, bank);
        var rest := Serve(recvs[1..], h.bank, handle);
        var s := Prepend(h.reply, rest);
        assert AllData(recvs) <==> AllData(recvs[1..]) by {
          if AllData(recvs[1..]) {
            forall i | 0 <= i < |recvs| ensures recvs[i].Data? {
              if i > 0 {
                assert recvs[i] == recvs[1..][i - 1];
              }
            }
          }
        }
        assert rest.closed ==> AllData(recvs[..s.consumed - 1]) by {
          if rest.closed {
            var before := recvs[..s.consumed - 1];
            var restBefore := recvs[1..][..rest.consumed - 1];
            forall i | 0 <= i < |before| ensures before[i].Data? {
              if i > 0 {
                assert before[i] == restBefore[i - 1];
              }
            }
          }
        }
        s
  }

  /** `handleClient` on a connection whose `recv` calls give `recvs`: every
      reply it sends is one well-formed line, and it never replaces the
      database connection. */
  function HandleClient(recvs: seq<Recv>, bank: Bank, env: Env): (s: Session)
    requires ValidRecvs(recvs)
    ensures forall k :: 0 <= k < |s.sent| ==> WellFormedReply(s.sent[k])
    ensures s.bank.db == bank.db
    ensures s.closed <==> !AllData(recvs)
  {
    HandlerReplies(recvs, bank, env);
    Serve(recvs, bank, ChunkHandler(env))
  }

  lemma {:induction false} HandlerReplies(recvs: seq<Recv>, bank: Bank, env: Env)
    ensures var s := Serve(recvs, bank, ChunkHandler(env));
      && (forall k :: 0 <= k < |s.sent| ==> WellFormedReply(s.sent[k]))
      && s.bank.db == bank.db
  {
    if recvs != [] && recvs[0].Data? {
      var h := HandleChunk(recvs[0].bytes, bank, env);
      assert ChunkHandler(env)(recvs[0].bytes, bank) == h;
      HandlerReplies(recvs[1..], h.bank, env);
      var rest := Serve(recvs[1..], h.bank, ChunkHandler(env));
      var s := Serve(recvs, bank, ChunkHandler(env));
      assert s == Prepend(h.reply, rest);
      forall k | 0 <= k < |s.sent| ensures WellFormedReply(s.sent[k]) {
        if h.reply.Some? && k > 0 {
          assert s.sent[k] == rest.sent[k - 1];
        } else if h.reply.None? {
          assert s.sent[k] == rest.sent[k];
        }
      }
    }
  }

  /** Nothing after the first `recv` that returns 0 or less is read. */
  lemma {:induction false} ServeStopsAtClose(before: seq<Recv>, after: seq<Recv>, bank: Bank, handle: Handler)
    requires AllData(before)
    ensures Serve(before + [Closed] + after, bank, handle) == Serve(before + [Closed], bank, handle)
  {
    var long := before + [Closed] + after;
    var short := before + [Closed];
    if before != [] {
      assert long[0] == before[0] && short[0] == before[0];
      assert long[1..] == before[1..] + [Closed] + after;
      assert short[1..] == before[1..] + [Closed];
      var h := handle(before[0].bytes, bank);
      assert AllData(before[1..]) by {
        forall i | 0 <= i < |before[1..]| ensures before[1..][i].Data? {
          assert before[1..][i] == before[i + 1];
        }
      }
      ServeStopsAtClose(before[1..], after, h.bank, handle);
    } else {
      assert long == [Closed] + after;
    }
  }

  /** Replies go out in chunk order: the loop over `a + b` sends what it sends
      for `a`, then what it sends for `b` from the tables `a` left. */
  lemma {:induction false} ServeAppend(a: seq<Recv>, b: seq<Recv>, bank: Bank, handle: Handler)
    requires AllData(a)
    ensures var first := Serve(a, bank, handle);
      var second := Serve(b, first.bank, handle);
      Serve(a + b, bank, handle) == Session(first.sent + second.sent, |a| + second.consumed, second.closed, second.bank)
  {
    var ab := a + b;
    if a == [] {
      assert ab == b;
    } else {
      assert ab[0] == a[0];
      assert ab[1..] == a[1..] + b;
      assert AllData(a[1..]) by {
        forall i | 0 <= i < |a[1..]| ensures a[1..][i].Data? {
          assert a[1..][i] == a[i + 1];
        }
      }
      var h := handle(a[0].bytes, bank);
      ServeAppend(a[1..], b, h.bank, handle);
      var tail := Serve(a[1..], h.bank, handle);
      var second := Serve(b, tail.bank, handle);
      if h.reply.Some? {
        assert [h.reply.value] + (tail.sent + second.sent) == ([h.reply.value] + tail.sent) + second.sent;
      } else {
        assert [] + (tail.sent + second.sent) == ([] + tail.sent) + second.sent;
      }
    }
  }

  /** Two runs that receive the same bytes behave the same, whatever `send`
      returns: a failed `send` neither stops nor changes the loop. */
  lemma {:induction false} SendResultIgnored(recvs: seq<Recv>, other: seq<Recv>, bank: Bank, handle: Handler)
    requires |recvs| == |other|
    requires forall i :: 0 <= i < |recvs| ==> recvs[i].Closed? == other[i].Closed?
    requires forall i :: 0 <= i < |recvs| && recvs[i].Data? ==> recvs[i].bytes == other[i].bytes
    ensures Serve(recvs, bank, handle) == Serve(other, bank, handle)
  {
    if recvs != [] && recvs[0].Data? {
      var h := handle(recvs[0].bytes, bank);
      SendResultIgnored(recvs[1..], other[1..], h.bank, handle);
    }
  }

  /** One step of the loop: a close ends it, a chunk is answered and the loop goes on. */
  lemma ServeFirst(recvs: seq<Recv>, bank: Bank, handle: Handler)
    requires recvs != []
    ensures recvs[0].Closed? ==> Serve(recvs, bank, handle) == Session([], 1, true, bank)
    ensures recvs[0].Data? ==>
      var h := handle(recvs[0].bytes, bank);
      Serve(recvs, bank, handle) == Prepend(h.reply, Serve(recvs[1..], h.bank, handle))
  {
  }

  lemma SentInOrder(sent: seq<string>, reply: seq<string>, rest: seq<string>)
    ensures sent + (reply + rest) == (sent + reply) + rest
  {
  }

  /** The loop as the code runs it, one `recv` outcome at a time. */
  method Worker(recvs: seq<Recv>, bank: Bank, handle: Handler) returns (sent: seq<string>, closed: bool, final: Bank)
    ensures var s := Serve(recvs, bank, handle);
      sent == s.sent && closed == s.closed && final == s.bank
  {
    sent := [];
    closed := false;
    final := bank;
    var i := 0;
    while i < |recvs| && !closed
      invariant 0 <= i <= |recvs|
      invariant closed ==> Serve(recvs, bank, handle) == Session(sent, i, true, final)
      invariant !closed ==>
        var rest := Serve(recvs[i..], final, handle);
        Serve(recvs, bank, handle) == Session(sent + rest.sent, i + rest.consumed, rest.closed, rest.bank)
    {
      ServeFirst(recvs[i..], final, handle);
      assert recvs[i..][1..] == recvs[i + 1..];
      if recvs[i].Closed? {
        closed := true;
      } else {
        var h := handle(recvs[i].bytes, final);
        var rest := Serve(recvs[i + 1..], h.bank, handle);
        var reply := if h.reply.Some? then [h.reply.value] else [];
        SentInOrder(sent, reply, rest.sent);
        sent := sent + reply;
        final := h.bank;
      }
      i := i + 1;
    }
    assert !closed ==> recvs[i..] == [];
  }
}
