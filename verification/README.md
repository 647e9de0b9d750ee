# Core-Bank-Infrastructure: a Dafny model of its servers and data access

This project models the C++ transaction server of Core-Bank-Infrastructure
and its small HTTP demo server. It proves properties of the model.

The transaction server listens on TCP. It serves a line protocol:

| request | reply |
|---|---|
| `PING` | `PONG` |
| `BALANCE <id>` | `BALANCE <id> <balance>` |
| `TRANSFER <from> <to> <amount>` | `OK` |
| any failure | `ERROR <message>` |

Behind the protocol sit three data-access services on one PostgreSQL connection:

- `AccountService`, for read-only lookups;
- `TransactionService`, which runs the `transferMoney` stored procedure under a lock;
- `DBConnection`, which builds the libpq connection string and tracks the connection's state.

The demo server answers every HTTP request with one fixed page.

Modules, one per component:

- `Wrappers`: `Option`, `Result` and `Outcome`.
- `CText`: the C/C++ library conversions the code relies on. These are `>> std::string`, `>> int`, `std::atoi`, `std::stoi` and `std::to_string`.
- `DbConnection`: `core/src/db_connection.cpp`.
- `ConnInfo`: how libpq reads the connection string `loadConfig` writes (the keyword/value form described in the PostgreSQL documentation, libpq, section "Connection Strings").
- `AccountService`: `core/src/account_service.cpp`.
- `Transactions`: `core/src/transactions.cpp`.
- `ClientHandler`: `Server::handleClient` of `core/src/server.cpp`. This covers the strip, the verb dispatch, the reply text and the receive loop.
- `ServerLifecycle`: `start`, `stop` and `acceptLoop` of `core/src/server.cpp`.
- `CoreMain`: `parseArgs` and `main` of `core/src/main.cpp`.
- `DemoServer`: `server/demo/server.cpp`.
- `DemoMain`: `server/demo/main.cpp`.

System calls, the database and the JSON reader become values that each operation is given:

- `socket`, `bind`, `listen`, `accept`, `recv` and `send` are modelled by what they return. Each operation reports the calls it makes as a trace of effects.
- The SQL tables are an abstract `Store`: accounts and customers keyed by id. The `getAccount` query is their inner join.
- The stored procedure is a function parameter. It either commits new tables or raises a message.
- The configuration file is `Unopenable`, `Malformed(message)` or `Parsed(fields)`. An absent key is `None`.
- `>> double` and `<< double` are function parameters (`Doubles`). Amounts and balances are `real`.

## Model

| member | source | states |
|---|---|---|
| CText.ReadWord | core/src/server.cpp:127-129 | `>> word` skips leading whitespace and takes a run of non-whitespace. That run is followed by whitespace or the end of the input. It is empty exactly when the line is all whitespace. |
| CText.ScanInt | core/src/server.cpp:138-140 | Scanning a signed decimal number consumes at least one character of the input. The text left over is a suffix of the input that does not start with a digit. |
| CText.ReadInt | core/src/server.cpp:138-140 | `>> int` succeeds exactly when the input, after whitespace, starts with an optionally signed decimal number that fits an `int`. It then yields that number and the text after its last digit. |
| CText.IntToString | core/src/server.cpp:147 | `<< int` writes at least one character. The first is `-` exactly for a negative number, and otherwise a digit. |
| CText.Atoi | core/src/main.cpp:25 | `atoi` is the leading number, or 0 when there is none. |
| CText.Stoi | server/demo/main.cpp:10 | `stoi` succeeds exactly when `>> int` would, with the same value. Otherwise it throws. |
| CText.DigitsOfValue | core/src/server.cpp:147 | The digits written for a natural number have that number as their value. |
| CText.ReadIntToString | core/src/server.cpp:147 | `>> int` reads back what `<< int` wrote, for every `int`, and leaves what followed it. |
| CText.IntToStringInjective | core/src/account_service.cpp:53 | Distinct ids are written as distinct texts, so an echoed id identifies the account. |
| DbConnection.Fresh | core/include/database_connection.hpp:139-155 | The singleton starts with port 5432, timeout 5 and no connection. |
| DbConnection.LoadConfig | core/src/db_connection.cpp:15-46 | An unopenable file fails with `Failed to open config file: <path>`. A malformed one fails with the reader's message. A parsed file sets every field to the value of its key, and an absent key becomes `""` or 0, overriding the defaults. The connection string is rendered from the loaded fields. The connection state is untouched. |
| DbConnection.ConnectionStringReadsBack | core/src/db_connection.cpp:36-45 | Splitting the connection string at spaces and each setting at `=` gives back `host`, `port`, `dbname`, `user`, `password`, `sslmode`, `connect_timeout`, in that order, with their values. This holds when no value contains a space. |
| DbConnection.ConnectionStringWords | core/src/db_connection.cpp:36-45 | When no value contains a space, splitting the connection string at spaces gives exactly seven words, each one `key=value` setting, in the order `host`, `port`, `dbname`, `user`, `password`, `sslmode`, `connect_timeout`. |
| DbConnection.ConnectionString | core/src/db_connection.cpp:36-45 | Whatever the values, the connection string starts with `host=<host> ` and ends with ` connect_timeout=<timeout>`. |
| ConnInfo.UnquotedBare | core/src/db_connection.cpp:37-43 | A bare value with no whitespace and no backslash is read up to the blank after it, with that blank consumed. |
| ConnInfo.QuotedEscaped | core/src/db_connection.cpp:37-43 | A value quoted, with its quotes and backslashes escaped, is read back exactly, whatever it holds, and reading stops after its closing quote. |
| ConnInfo.ParseStep | core/src/db_connection.cpp:37-43 | A setting is its keyword, `=`, optional whitespace and a value. libpq reads that one setting and then goes on with the rest of the string. |
| ConnInfo.BareReadsBack | core/src/db_connection.cpp:36-45 | Settings joined by single spaces read back as the same keywords and values, in order, when every value is nonempty, opens with no quote, and holds no whitespace or backslash. |
| ConnInfo.BareConnectionStringReadsBack | core/src/db_connection.cpp:36-45 | When `host`, `dbname`, `user`, `password` and `sslmode` are such bare values, libpq reads the connection string as written back as exactly the seven settings, in order. |
| ConnInfo.EmptyValueMisread | core/src/db_connection.cpp:29-45 | With `dbname` absent from the configuration, libpq reads the connection string as written with `dbname` set to `user=<user>`, and with no `user` setting at all. |
| ConnInfo.QuotedSettingsReadBack | core/src/db_connection.cpp:36-45 | Settings whose values are quoted and escaped read back as the same keywords and values, in order, for any values. |
| ConnInfo.QuotedReadsBack | core/src/db_connection.cpp:36-45 | With every value quoted and escaped, libpq reads the connection string back as exactly the seven settings, in order, whatever the configured values are, including empty ones. |
| ConnInfo.CorrectedLoadConfig | core/src/db_connection.cpp:15-46 | `loadConfig` with every value quoted: it fails exactly when `loadConfig` does, with the same message, and otherwise loads the same fields. libpq reads its connection string back as exactly those seven settings. |
| DbConnection.Connect | core/src/db_connection.cpp:48-66 | On a live connection, `connect` does nothing. It succeeds exactly when it leaves an open handle. A constructor failure becomes `Connection error: <message>` and stores no handle. A handle that is not open is still stored, and `connect` fails with `Connection error: Database connection failed.`. An open handle is stored and `connect` succeeds. Nothing but the handle changes. |
| DbConnection.ConnectIdempotent | core/src/db_connection.cpp:50-51 | After a successful `connect`, further calls change nothing, whatever the database would answer. |
| DbConnection.ConnectedState | core/src/db_connection.cpp:68-70 | `isConnected` is false on a fresh instance, false after a failed `connect` and true after a successful one. |
| DbConnection.GetConnection | core/src/db_connection.cpp:72-77 | Returns the open handle exactly when connected. Otherwise it fails with `Database not connected!`. |
| DbConnection.CreateTransaction | core/src/db_connection.cpp:79-87 | A read or write transaction opens on the connection's handle exactly when connected. Otherwise it fails with `Database not connected!`. |
| AccountService.GetAccount | core/src/account_service.cpp:4-40 | Fails with `Database not connected!` without a connection. The result is empty exactly when the join finds no row. Otherwise it holds that row's fields unchanged. |
| AccountService.AccountExist | core/src/account_service.cpp:42-45 | Equals "getAccount has a value", and so equals "the join finds a row". |
| AccountService.GetBalance | core/src/account_service.cpp:47-58 | Returns the stored balance for an existing account. A missing account fails with `Account not found: <id>`. |
| AccountService.PrintAccount | core/src/account_service.cpp:60-76 | Fails exactly when `getBalance` fails, with the same message. The printout starts with the `Account ID:` line. |
| AccountService.BalanceAgreesWithExistence | core/src/account_service.cpp:42-58 | On a live connection, `getBalance` succeeds exactly when `accountExist` is true, and it returns the joined row's balance. |
| Transactions.Transfer | core/src/transactions.cpp:4-49 | The lock comes first and is released last. Without a connection, creating the write transaction fails unwrapped. The procedure gets from, to, amount and description, in that order. A commit happens exactly on success. When the procedure applies, the transfer succeeds and the tables become what the procedure committed. A failure leaves the tables unchanged and is rethrown as `Transfer failed: <message>`. |
| Transactions.TransferDefault | core/include/transactions.hpp:40-43 | With no description given, the procedure receives `Transfer description...`. |
| Transactions.TransferMovesBalances | core/tests/test_transaction.cpp:109-137 | Suppose a transfer succeeds and the procedure keeps its promise. Then later lookups show the source down by `amount`, the target up by `amount`, and every other balance unchanged. |
| Transactions.FailedTransferKeepsBalances | core/src/transactions.cpp:23-48 | After a failed transfer, every balance lookup gives what it gave before. |
| ClientHandler.Strip | core/src/server.cpp:116-118 | Strips every trailing `\n` and `\r`, not just one. The result is a prefix followed only by line ends, and it does not itself end in one. |
| ClientHandler.StripUnique | core/src/server.cpp:116-118 | Stripping a line with no trailing line end, followed by any line ends, gives that line back. |
| ClientHandler.StripIdempotent | core/src/server.cpp:116-118 | Stripping twice is stripping once. |
| ClientHandler.Interpret | core/src/server.cpp:127-173 | The case-sensitive first word picks the command: `PING` gives a ping, `BALANCE` a balance query or its refusal, `TRANSFER` a transfer or its refusal. Every other word is unknown and kept, including the empty word of a whitespace-only line. |
| ClientHandler.BalanceArguments | core/src/server.cpp:137-142 | A balance query is formed exactly when an `int` can be read after the verb, and its id is that number. Otherwise the request is refused. |
| ClientHandler.TransferArguments | core/src/server.cpp:149-155 | A transfer is formed exactly when two `int`s and a `double` can be read in turn after the verb, and it carries those three values. Otherwise the request is refused. |
| ClientHandler.Render | core/src/server.cpp:131-178 | Every reply ends in `\n`. |
| ClientHandler.ReplyKindReadsBack | core/src/server.cpp:131-178 | A client reading the first word of a reply gets its kind: PONG, BALANCE, OK or ERROR. |
| ClientHandler.BalanceReplyEchoesId | core/src/server.cpp:147 | After `BALANCE`, a client reading an `int` from the reply gets back the requested id. |
| ClientHandler.Dispatch | core/src/server.cpp:133-178 | Each command maps to its reply. Balance and transfer errors become `Error(message)`. Only a transfer changes the tables, and the database handle is never replaced. |
| ClientHandler.HandleChunk | core/src/server.cpp:113-186 | A chunk gets no reply exactly when nothing is left after stripping, and then nothing changes. Otherwise it gets exactly one well-formed reply ending in `\n`. |
| ClientHandler.LineEndsGetNoReply | core/src/server.cpp:116-123 | A chunk made only of CR/LF gets no reply and changes nothing. |
| ClientHandler.BlankChunkIsUnknown | core/src/server.cpp:127-173 | A chunk of whitespace that is not all line ends gets `ERROR Unknown command\n`. |
| ClientHandler.PingAnswersPong | core/src/server.cpp:134-136 | `PING` with anything after it gets `PONG\n` and touches no service. |
| ClientHandler.BadBalanceNoLookup | core/src/server.cpp:137-142 | A BALANCE whose id cannot be read gets `ERROR Invalid BALANCE arguments\n` and causes no lookup. |
| ClientHandler.BadTransferNoCall | core/src/server.cpp:149-155 | A TRANSFER with any of its three numbers unreadable gets `ERROR Invalid TRANSFER arguments\n`, and no transfer happens. |
| ClientHandler.BalanceLine | core/src/server.cpp:137-139 | `BALANCE <id>`, written as a client writes it, is read as a balance query for that id. |
| ClientHandler.BalanceRequest | core/src/server.cpp:137-148 | `BALANCE <id>` with any line ends gets `BALANCE <id> <balance>\n` for an existing account and `ERROR Account not found: <id>\n` otherwise. The tables are unchanged. |
| ClientHandler.BalanceOfMissingAccount | core/src/server.cpp:137-148 | `BALANCE 999999\n` for a missing account gets exactly `ERROR Account not found: 999999\n`. |
| ClientHandler.TransferRequest | core/src/server.cpp:149-168 | A parsed TRANSFER calls the service with `Server transfer` as the description. The reply is `OK\n` exactly when the transfer commits, and otherwise `ERROR <message>\n`. |
| ClientHandler.Serve | core/src/server.cpp:104-187 | The loop runs until the first `recv` that returns 0 or less, and closes the socket there. It sends at most one reply per chunk. It closes exactly when some outcome is not data. |
| ClientHandler.HandlerReplies | core/src/server.cpp:180-186 | Every reply the loop sends is well formed and ends in `\n`. The database handle stays the same. |
| ClientHandler.HandleClient | core/src/server.cpp:98-191 | With `recv` chunks of 1..1023 bytes, every reply sent ends in `\n`. The database handle is kept. The socket is closed exactly when `recv` reported an end or an error. |
| ClientHandler.ServeStopsAtClose | core/src/server.cpp:106-111 | Nothing after the first `recv` that returns 0 or less is read. |
| ClientHandler.ServeAppend | core/src/server.cpp:104-187 | Replies go out in chunk order: the loop over `a + b` sends `a`'s replies, then `b`'s. |
| ClientHandler.SendResultIgnored | core/src/server.cpp:182 | What `send` returns changes nothing in the loop, and a failed `send` does not stop it. |
| ClientHandler.Worker | core/src/server.cpp:104-187 | The imperative loop, one outcome at a time, sends the same replies, closes at the same point and leaves the same tables as `Serve`. |
| ServerLifecycle.NewServer | core/src/server.cpp:16-18 | A new server is not running, holds no socket and has no accept thread. |
| ServerLifecycle.StartAsWritten | core/src/server.cpp:24-61 | While running, `start` does nothing. Otherwise it sets `running` and stores the socket before any check. It succeeds exactly when socket, bind and listen all succeed, and then launches the accept thread last. A failed bind or listen closes the socket. |
| ServerLifecycle.Start | core/src/server.cpp:24-61 | Makes the same calls and reports the same result as `start`. On failure it leaves the server stopped with no socket. |
| ServerLifecycle.Stop | core/src/server.cpp:63-79 | When not running, `stop` does nothing. Otherwise it clears `running` and keeps the configuration. A socket it still holds is shut down and then closed, before anything else, and released. No other descriptor is closed, and none is closed twice. The accept thread is joined exactly when it was started, as the last call. |
| ServerLifecycle.StartAsWrittenDoubleClose | core/src/server.cpp:30-74 | After a failed bind, `start` leaves the server running. A retried `start` then reports success without listening, and `stop` closes the same descriptor a second time. |
| ServerLifecycle.StartKeepsConsistency | core/src/server.cpp:24-79 | With the corrected `start`, consistency is kept. A server holds a socket exactly while it runs, and has a thread only while it runs. A failed `start` can be retried, and no descriptor is closed twice. |
| ServerLifecycle.StartIgnoresHost | core/src/server.cpp:41-44 | The host given to the constructor changes nothing. The socket is bound to every interface. |
| ServerLifecycle.Active | core/src/server.cpp:82 | The loop runs the turns before the first one that finds `running` cleared. |
| ServerLifecycle.AcceptLoop | core/src/server.cpp:81-96 | Every descriptor that an active turn accepted gets a worker, and only those. A failed `accept` is skipped and the loop goes on. |
| ServerLifecycle.AcceptLoopPrefix | core/src/server.cpp:81-96 | Running the loop longer only adds clients at the end. |
| CoreMain.ParseArgs | core/src/main.cpp:15-30 | The defaults are host `0.0.0.0` and port 8080. `argv[1]` is the host verbatim. `argv[2]` goes through `atoi` and is refused outside 1..65535 with `Invalid port number: <argv[2]>`. Further arguments are ignored. |
| CoreMain.ParseArgsReadsBack | core/src/main.cpp:21-29 | Every host and every valid port written in decimal comes back unchanged. |
| CoreMain.NonNumericPortRefused | core/src/main.cpp:24-28 | A port argument without a leading number reads as 0 and is refused. |
| CoreMain.Launch | core/src/main.cpp:32-75 | For any `start`, `main` returns 0 or 1. Refused arguments, or a configuration file that cannot be opened or parsed, return 1 before any socket call. |
| CoreMain.Shutdown | core/src/main.cpp:55-73 | Once `start` has run, the exit code is 0 exactly when it returned and 1 when it threw. The calls `start` made come first in the trace, and the database is kept. |
| CoreMain.LaunchStarts | core/src/main.cpp:32-75 | When the arguments, the configuration or the connection fail, `main` returns 1 with no socket call. Otherwise it is connected and starts a server on the parsed host and port, then shuts it down. |
| CoreMain.Entry | core/src/main.cpp:32-75 | `main` as written, with `start` as written, returns 0 or 1. Refused arguments, or a configuration file that cannot be opened or parsed, return 1 before any socket call. |
| CoreMain.CorrectedEntry | core/src/main.cpp:32-75 | `main` with the corrected `start` returns 0 or 1. Refused arguments, or a configuration file that cannot be opened or parsed, return 1 before any socket call. |
| CoreMain.StartFailureClosesTwice | core/src/main.cpp:55-73 | When the socket opens but bind or listen fails, `main` as written returns 1 after closing that descriptor twice: once in `start`, once as the server is destroyed. With the corrected `start` it returns 1 and closes no descriptor twice. |
| CoreMain.CorrectedEntryClosesOnce | core/src/main.cpp:32-75 | With the corrected `start`, `main` returns the same exit code as written and never closes a descriptor twice. |
| CoreMain.MainExitCode | core/src/main.cpp:32-75 | `main` returns 0 exactly when the arguments, the configuration, the database connection and the listening socket all succeed, and 1 otherwise. On success it binds the requested port on every interface. It then shuts down and closes the socket once, and joins the thread. This holds for `main` as written, with `start` as written. |
| CoreMain.ConnectedCheckIsDead | core/src/main.cpp:45-50 | After a `connect` that returned normally, `isConnected` holds. |
| DemoServer.NewServer | server/demo/server.cpp:4-6 | The constructor stores the port and sets `serverfd` to -1. |
| DemoServer.Init | server/demo/server.cpp:17-73 | `init` returns true exactly when socket, setsockopt, bind and listen succeed, which is exactly when `serverfd >= 0` afterwards. Every failure after `socket` closes the socket once and resets `serverfd` to -1. |
| DemoServer.InitBinds | server/demo/server.cpp:44-53 | The bind is to every interface, on the port cut to 16 bits. |
| DemoServer.Destroy | server/demo/server.cpp:9-15 | The destructor closes `serverfd` exactly when it is at least 0. |
| DemoServer.InitThenDestroyClosesOnce | server/demo/server.cpp:9-73 | Whatever `init` meets, the socket it opened is closed exactly once by the time the server is destroyed. |
| DemoServer.HttpResponse | server/demo/server.cpp:121-128 | The response ends with the body. |
| DemoServer.ContentLengthFramesBody | server/demo/server.cpp:121-128 | The response begins with the status line, Content-Type and the `Content-Length: ` label. Reading the number there gives the body's length. After it come `\r\n`, `Connection: close`, the blank line, and the body. |
| DemoServer.PageLength | server/demo/server.cpp:106-123 | The page is 254 bytes, so the header reads `Content-Length: 254`. |
| DemoServer.SendAll | server/demo/server.cpp:133-145 | `total_sent` never exceeds the response size. The bytes sent are exactly its first `total_sent` bytes, in order. Each `send` after the first offers the bytes not yet sent, so the chunks sent are the ones the `send` results cut off in turn. The loop ends with everything sent or at the first failed `send`, and every earlier `send` took bytes. |
| DemoServer.HandleClient | server/demo/server.cpp:75-150 | The response is a parameter here; `DemoServer.Run` passes `HttpResponse(Body)`, which is the page `handleClient` builds (server/demo/server.cpp:105-128). A failed `recv` closes the connection and sends nothing. Any other result, 0 included, is answered with that response: what is sent is always a prefix of it, and all of it unless a `send` fails. On every path `clientfd` is closed exactly once, as the last call, with only sends in between. |
| DemoServer.AcceptedMembers | server/demo/server.cpp:172-182 | Every descriptor handed to `handleClient` came from `accept` and is not negative. Every descriptor `accept` returned is handed on; failed accepts are skipped. |
| DemoServer.Turn | server/demo/server.cpp:162-183 | One loop turn calls `accept`. On failure it does nothing more. Otherwise the client is answered: one `recv`, then `send` calls on its descriptor that carry the response in order, then one close, last. The bytes sent are a prefix of the response, and all of it unless a `send` fails. A failed `recv` gets no `send`. |
| DemoServer.ServeClients | server/demo/server.cpp:162-183 | Over any run of accepts, the calls split into one turn per accept, in order. In each turn a failed accept is skipped, and an accepted client is answered as in `Turn`: received from, sent the response (all of it unless a `send` fails) and closed once. |
| DemoServer.Run | server/demo/server.cpp:152-186 | `run` returns 1 exactly when `init` fails, after the calls of `init` alone. Otherwise it never returns. After `init`, its calls split into one turn per accept, in order, and every accepted client is answered with the HTTP page as in `Turn`. |
| DemoMain.ChoosePort | server/demo/main.cpp:5-16 | The default port is 8080. `argv[1]` goes through `stoi`, and a refusal writes `Invalid port number: <argv[1]>\n`. |
| DemoMain.ChoosePortReadsBack | server/demo/main.cpp:8-10 | Every `int` written in decimal is taken as the port with no range check: 0, negative numbers and numbers above 65535 included. |
| DemoMain.NonNumericPortRefused | server/demo/main.cpp:11-15 | An argument with no leading number is refused, and its text is echoed. |
| DemoMain.TrailingTextIgnored | server/demo/main.cpp:10 | `9090abc` is taken as port 9090. |
| DemoMain.Entry | server/demo/main.cpp:3-23 | A refused argument returns 1 and starts no server. Otherwise `main` returns what `run` returns and binds the chosen port. When `init` fails, its socket has been closed once by the time `main` returns. |
| DemoMain.OutOfRangePortWraps | server/demo/main.cpp:19-22 | `70000` is accepted, and the server binds port 4464. |

## Left out

- Threads and locks are left out. This covers the thread per client and its `detach`, the accept thread and its join, the `std::atomic` flag, and the `DBConnection` mutex. One connection is modelled sequentially, and `stop()` is not modelled as racing with `acceptLoop`. The lock in `transfer` is an effect in its trace. The balance path takes no lock; this is recorded, not proved.
- `DBConnection::getInstance` is left out: a singleton carries no logic to state. One `Db` value stands for the single instance.
- Logging to standard output and standard error is left out, including the `perror` calls. Only the `Invalid port number` text of the demo `main` is modelled, because it is the program's answer.
- Floating point is left out. `>> double` and `<< double` (six significant digits) are function parameters. No arithmetic on balances is proved beyond what the stored procedure promises.
- SQL, `pqxx`, the `transferMoney` procedure and the JSON library are abstract. The JSON reader's own errors are the `Malformed(message)` value.
- `CoreMain.ParseArgs`: `atoi` of a number outside the `int` range is undefined behaviour. "Fits an `int`" is therefore a precondition (`ArgsDefined`), not a modelled outcome.
- `CoreMain.MainExitCode`: `std::cin.get()` is not modelled. The model goes straight from `start` to `stop`.
- The comment above `parseArgs` documents a default port of 5555. The code uses 8080, and the model follows the code.
- The `TRANSFER` request line may carry a description. The code never reads it and always passes `Server transfer`, and the model does the same.
- A chunk may hold several lines, and the code answers only the first command. The model treats the chunk as one line in the same way.
- `DemoServer.SendAll`: assumes `send` never returns 0 and that enough results are given for the response. With 0 results the C++ loop would spin for ever, and the model does not cover that. A count larger than the bytes offered cannot come from the kernel, and it is taken as all of them.
- `DemoServer.Run`: covers any finite run of the endless accept loop. It does not model the loop's non-termination beyond saying there is no exit code.
- `ServerLifecycle.AcceptLoop`: covers any finite run of turns. After `stop`, the blocking `accept` that fails is one more turn with `running` cleared.
- `DemoServer.HandleClient`: the request bytes are not modelled, only the outcome of `recv`. The code logs the request and ignores it.
- `DemoServer.HandleClient`: that at least one `send` is made after a good `recv` is stated only for a nonempty response. The page `run` passes is never empty (`DemoServer.PageLength`).
- `ClientHandler.Render`: an error reply is `ERROR `, the exception's message and `\n`. The message is echoed verbatim, so one holding a `\n` (a database error, say) makes the reply span several lines. The model promises only that a reply ends in `\n`, not that it is a single line.
- `ClientHandler.SendResultIgnored`: signals are not modelled. `send` is called without `MSG_NOSIGNAL`, so a send to a peer that has closed raises `SIGPIPE`, which ends the whole process by default. The model treats a failed `send` only as a return value.
- `DemoServer.SendAll`: signals are not modelled. A `send` to a closed peer raises `SIGPIPE`, which ends the process by default, instead of returning -1 to the loop.
- `Transactions.FailedTransferKeepsBalances`: assumes that a `commit()` that throws left the tables as they were. `pqxx` can also report an outcome it does not know (`in_doubt_error`), where the transfer may have been applied. The model does not cover that case.
- `CText`: bytes are `char`s, in the "C" locale. There is no locale or encoding handling.
- `AccountService.GetAccount`: on a live connection, `exec`, `commit` or a column conversion (`as<int>()`, `as<double>()`) can still throw. `handleClient` then replies `ERROR <what()>`. The model has no such outcome: a connected lookup always answers from the store.
- `DbConnection.ConnectionStringReadsBack`: it is about splitting the string at spaces and at `=`, not about how libpq reads it. libpq skips blanks after `=`, so an empty value takes the next word, and it gives `'` and `\` special meaning. libpq's reading is `ConnInfo.Parse`. See `ConnInfo.BareConnectionStringReadsBack` and the finding below.
- `ClientHandler.HandlerReplies`: `send` is called once per reply and its count is ignored. A short send would deliver only a prefix of the reply, without its `\n`, and the rest is never sent. The model records the buffer offered to `send`, not the bytes delivered. The result of `send` is carried in the trace but constrains nothing.
- `ConnInfo.Parse`: it does not check that a keyword is one libpq knows, and a repeated keyword is kept twice where libpq keeps the last value. URI connection strings (`postgresql://`) are not modelled: the string `loadConfig` writes is never one.

## Findings

| source | as written | input that shows it | evidently intended | confidence | as-written member | corrected member |
|---|---|---|---|---|---|---|
| core/src/server.cpp:30-54 | `running` is set to true right after `socket()`, before any check. A failed `bind` or `listen` closes the socket but leaves `running` true and `listenSocket` holding the closed descriptor. | `socket()` returns 3 and `bind` fails. A retried `start()` then returns at once without listening, and `stop()` (or the destructor, as `main` unwinds) shuts down and closes descriptor 3 a second time. | A `start` that throws leaves the server not running with no socket. This matches the header: it throws "if the socket cannot be created or put into listening mode". | high (not executed) | ServerLifecycle.StartAsWrittenDoubleClose, CoreMain.StartFailureClosesTwice | ServerLifecycle.StartKeepsConsistency, CoreMain.CorrectedEntryClosesOnce |
| core/src/db_connection.cpp:29-45 | An absent key becomes `""`, and the value is written bare after `=`. | A configuration without `dbname` gives `... dbname= user=alice ...`. libpq skips the blank after `=`, so the database name becomes `user=alice` and no user is set. The same holds for an absent `password`, which swallows `sslmode=...`. A value with a blank, a `'` or a `\` is misread too. | Every value is written so that libpq reads it back exactly: quoted, with `'` and `\` escaped. | medium (not executed) | ConnInfo.EmptyValueMisread | ConnInfo.CorrectedLoadConfig, ConnInfo.QuotedReadsBack |

`CoreMain.Entry` is `main` as written, with `ServerLifecycle.StartAsWritten`. `CoreMain.CorrectedEntry` is the same `main` with the corrected `ServerLifecycle.Start`.

`DbConnection.LoadConfig` is `loadConfig` as written. `ConnInfo.CorrectedLoadConfig` is the same function writing `ConnInfo.QuotedConnectionString`. The connection outcome is a parameter of `DbConnection.Connect`, so no other member depends on how libpq reads the string.
