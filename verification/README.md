# A verified model of the FIFO file server

The repository is a small file server. Clients and server exchange JSON messages
framed by random boundaries over FIFOs; a worker process per connection runs the
commands in threads under one lock; the tables live behind a child process that
is sent SQL text over a pipe and answers in lines. This project models those
parts in Dafny and proves what they promise, and where the code does not keep
the promise it proves the exact condition under which it does.

`dafny verify dfyconfig.toml` checks everything.

## How the modules fit together

- `Text`: C strings, `%d`, `atoi`.
- `Framing`: boundaries, `comm_send_data`, `comm_receive_data` with both fixed
  buffers. `Handshake` (two programs as step functions, any interleaving) and
  `FifoHandshake` (its instance with the real path names). `Address`: both
  `address_from_url` functions.
- `Tokenizer`: `split_arguments`, `add`, `count_elements`. `FileCoding`: three
  digits per byte.
- `SqlText` (rendering), `SqlReader` (a reader of SQL text that knows nothing of the
  builders), `SqlBuilders` (the builder records), `SqlPipe` (the child, the caller and
  both pipes), `Queries` (the six queries of the server, and what a text that is read
  does to the tables).
- `Session`: tables, file tree and responder commands as one step function. `Words`:
  which texts SQLite takes for a column, and what then happens. `Crashes`: lost posts,
  and when the worker can crash.
  `FileStore`: the write-once store they refine. `Worker`: the responder and the SQL
  helpers as methods of one process object, working through the builders and the
  pipes, each proved equal to the step function. `Limits`: which commands get
  through the pipes.
- `Responders`: threads under the worker's lock. `Message`: messages as JSON objects
  (`JsonText`: a text form for them).
  `Exchange`: a request and its reply as bytes, and what the client is told. `Client`
  and `Terminal`: the client's command handlers and its `logged` flag; `Usage`: what
  they achieve. `ThreadTable`: the doubling thread table.
  `Monitor`: the monitor's table and screen.

## Main results

- Framing is exact: a frame comes back unchanged if and only if its payload is
  non-empty, fits the 2048-byte buffer with its boundary, and does not contain the
  boundary after its first byte. Generated boundaries are borderless, so nothing
  matches across the seam. On any part of a frame the receiver waits, and it runs past
  its buffer if and only if the message does not fit.
- The handshake opens both ends if and only if the address is accepted and the two
  FIFO paths are free, can be made and differ; it then cannot deadlock, leaves no byte
  behind, and takes the same number of scheduler steps under every schedule. When it
  fails, the code says which side could not make its FIFO or refused the address.
- Under every schedule of single-byte writes the client decodes the replies of the
  commands run one by one in lock order.
- The server puts names, passwords and aliases between double quotes, and SQLite reads
  a double-quoted word that names a column as that column. The model does so too. A text
  means itself if and only if it names no column, ignoring case (proved for login names,
  login passwords, new passwords, aliases and new user names); the password `password`,
  for one, logs in every known name. A command without such texts is called literal.
- Over every run of literal commands that leaves homes separated, and where folders and
  files do not get in each other's way, the tables and the file tree refine accounts plus
  a write-once map from (user, alias) to bytes, with equal replies; under literal runs
  that add no user this holds if and only if no user's `LIKE 'home%'` pattern can match
  another user's files and no folder is where a user could post. For names the server adds, that is: no name is a prefix of
  another ignoring case (SQLite's LIKE ignores ASCII case and reads `_` as any character).
- A reader of SQL that knows nothing of the builders, carrying out what it reads row by
  row, does to the tables exactly what the builders were told; the six texts of the
  server are also given letter by letter.
- The SQL pipes stay aligned if and only if every query has at most 101 bytes; beyond
  that the number of stale replies is given exactly and never shrinks. A login comes
  through if and only if name and password have at most 15 bytes together.
- Whatever words commands hold, ids stay unique, the session matches a row in id, home
  and admin flag, and a users table without an admin never grows. Names stay unique as
  long as no added name names a column other than `username`; the user `home` can be
  added twice.
- The server ignores writes and mkdirs that fail. A post under "File OK" can be read back,
  whatever was done in between, in whatever words, and however homes overlap, if and only
  if its alias names no column of the files table but `alias`, the folder of the home is
  there, and the file is no folder. Under the alias `path`, for one, it is never found
  again and a second post overwrites it; onto a folder it is lost, and the get crashes
  the worker. No run crashes it if and only if no home is the parent of the user folders,
  as root's home `/fs/` in the shipped tables is.
- The client's `logged` flag equals the worker's session state if and only if the
  request refused for capacity, if any, was neither a login nor a logout.
- What the client is told after a round of bytes is decided by the tables alone: "Login
  failed" if and only if no row matches, and so for every other text. The commands typed
  achieve what they say: a login the first row with that name and password, a post and a
  get the bytes of the file, a new user a row that can log in.
- Such a file comes back byte for byte through coding, JSON and frames, over a whole
  session of rounds.
- After a password change the new password and no other logs in, whatever is done until
  that user's next change.
- The monitor's table is the map of last sampled statuses, with workers and their threads
  in first-seen order, and its screen shows of that exactly the workers with a live
  thread, each above its live threads; its arrays suffice if and only if there are at most 99 workers and
  99 threads of each, and a worker configured with at most 99 threads stays within that.

## How to read the model

- Bytes of text are Dafny characters; file bytes are numbers below 256. Blocking reads
  are an outcome (`Blocked`, `None`), and so is running over a fixed buffer (`Overrun`).
- Random numbers, schedules and database contents are parameters.
- The JSON text form is a parameter of which it is used that it can be read back, is
  not empty and holds no raw NUL. The SQL engine is a parameter of which it is assumed
  that it does with the texts of the server's six queries what reading them says
  (`Queries.EngineOk`); that such a library and such an engine exist is proved. In the
  values of an INSERT no column is in scope, so quoted words are texts.
- Names and aliases in commands are letters and digits, as the client's users type them.
  Login names and passwords are C strings free of `"` and `;`: `Queries.QuoteEndsText` and
  `SqlPipe.SemicolonCuts` show what the others do to the query they are put in.
- In three places the C code writes one element past what it allocated:
  `decode_to_raw_data` puts its terminator at the text length, `encode_raw_data` prints
  three digits and a terminator into three bytes, and the parse of `data` copies no
  terminator. The model has the intended sequences.
- The size sent with `HAVE NOT PERMISION` (server/responder.c:164) is 10, which is not
  the length of its text; it is kept as written, and the receiver ignores it.
- Files and folders are known by their path with runs of `/` counted as one; opening a
  folder to read it crashes the worker like a missing file, since no memory of its
  reported size can be had.
- Every command ends in `comm_send_data`, which sets the error code to zero again; the
  error codes the responder stores before it are therefore not modelled.

## Model

| member | source | states |
|---|---|---|
| `Framing.GetRnd` | utils.c:14-20 | the number drawn lies in [min, max), and each of them is drawn for some value of `rand()` |
| `Framing.GeneratedBoundary` | utils.c:22-38 | every generated boundary has 30 bytes, no `_` before its last two bytes, no NUL, and no proper border |
| `Framing.BoundaryFromStem` | utils.c:22-38 | why: any `_`-free stem whose second and third bytes differ, followed by `__`, is borderless |
| `Framing.BoundariesDiffer` | utils.c:22-38 | two boundaries are equal if and only if the numbers drawn are |
| `Framing.WriteWithoutZero` | lib/file_utils/file_utils.c:20-26 | appends exactly the bytes before the first NUL |
| `Framing.WriteFrame` | lib/communication/fifo/comm.send.fifo.c:110-115 | three ordered writes: boundary, data up to its first NUL, boundary |
| `Framing.SendData` | lib/communication/fifo/comm.send.fifo.c:103-119 | one call appends exactly one frame with a generated boundary to the channel |
| `Framing.ReadByte` | lib/communication/fifo/comm.read.fifo.c:202-206 | a one-byte read extends the buffer by the next channel byte, or blocks |
| `Framing.ReadBoundary` | lib/communication/fifo/comm.read.fifo.c:201-208 | the first loop takes the bytes up to the first `_` and one more, inside the 128-byte buffer |
| `Framing.ReadTurn` | lib/communication/fifo/comm.read.fifo.c:212-218 | one turn of the second loop, with the extra read after a NUL |
| `Framing.ReadPayload` | lib/communication/fifo/comm.read.fifo.c:212-221 | the second loop over the 2048-byte buffer computes `TakePayload` of the channel |
| `Framing.ReceiveData` | lib/communication/fifo/comm.read.fifo.c:189-229 | one call returns `Receive` of the channel and leaves exactly the rest; blocking and buffer overrun are outcomes (the five rows from `ReceiveExact` to `NoBoundaryWaits` say which, when) |
| `Framing.NoMatchAcrossSeam` | lib/communication/fifo/comm.read.fifo.c:219-219 | a borderless boundary cannot match across the payload/boundary seam |
| `Framing.TakePayloadFirst` | lib/communication/fifo/comm.read.fifo.c:212-221 | a boundary inside the payload, after its start, ends the message there |
| `Framing.TakePayloadBounds` | lib/communication/fifo/comm.read.fifo.c:219-221 | a received payload is never empty and fits the buffer with its boundary |
| `Framing.ReceiveExact` | lib/communication/fifo/comm.read.fifo.c:189-229 | a frame comes back unchanged, with nothing more consumed, if and only if its payload is non-empty, fits, and does not hold the boundary after its first byte |
| `Framing.ReceiveWaits` | lib/communication/fifo/comm.read.fifo.c:201-221 | on every proper prefix of a frame, inside its boundary or after it, the receiver waits: nothing is delivered early and no buffer is left |
| `Framing.EmptyWaits` | lib/communication/fifo/comm.read.fifo.c:219-219 | the frame of an empty message is never delivered: the receiver waits on |
| `Framing.OverrunExact` | lib/communication/fifo/comm.read.fifo.c:210-221 | a message without its boundary in it runs past the 2048-byte buffer if and only if it does not fit there together with the boundary |
| `Framing.NoBoundaryWaits` | lib/communication/fifo/comm.read.fifo.c:198-208 | bytes without `_` leave the receiver waiting until the 128-byte boundary buffer is full, and then run past it |
| `Framing.ConversationExact` | lib/communication/fifo/comm.read.fifo.c:189-229 | n receives on n concatenated frames return exactly the n payloads and consume exactly the frames |
| `Handshake.ClientKeepsInv` | lib/communication/fifo/comm.connection.fifo.c:37-112 | every scheduler step of `connection_open` keeps the handshake invariant |
| `Handshake.ServerKeepsInv` | lib/communication/fifo/comm.read.fifo.c:67-187 | every scheduler step of `comm_accept` keeps the handshake invariant |
| `Handshake.RunKeepsInv` | lib/communication/fifo/comm.read.fifo.c:67-187 | the invariant holds under every interleaving of the two |
| `Handshake.OpenedMeansGood` | lib/communication/fifo/comm.connection.fifo.c:104-112 | a side that returns success had free, distinct paths that can be made and an accepted address; when both do they agree on the url and no FIFO holds a byte |
| `Handshake.GoodNeverFails` | lib/communication/fifo/comm.connection.fifo.c:43-104 | with such paths no open finds its FIFO missing and neither side fails, under any interleaving |
| `Handshake.FailureCodes` | lib/communication/fifo/comm.read.fifo.c:75-172 | under every schedule a client fails only with 202 or 300 and a server only with 3002 or 3003, each for its own reason: own address not valid, own FIFO not made, address refused, FIFO not made; the other six exits are not taken |
| `Handshake.ClientFailsExactly` | lib/communication/fifo/comm.connection.fifo.c:28-47 | once it has been scheduled, the client has failed with 202 if and only if its address is not valid, and with 300 if and only if it is and its FIFO cannot be made |
| `Handshake.NobodyListening` | lib/communication/fifo/comm.connection.fifo.c:60-63 | without a connection FIFO every schedule ends with the client failing, by 203 once its own FIFO is made, and the server by 3001 |
| `Handshake.NoDeadlock` | lib/communication/fifo/comm.connection.fifo.c:66-104 | some step is enabled until both sides are open |
| `Handshake.MovesExact` | lib/communication/fifo/comm.connection.fifo.c:37-112 | under every schedule, scheduler steps made plus scheduler steps left is the same constant |
| `Handshake.DoneExact` | lib/communication/fifo/comm.connection.fifo.c:37-112 | the handshake is finished exactly when 14 + 6 (u + 1) scheduler steps were made, for a url of u bytes |
| `Handshake.Complete` | lib/communication/fifo/comm.connection.fifo.c:37-112 | every partial run can be completed |
| `Handshake.HandshakeExact` | lib/communication/fifo/comm.read.fifo.c:116-187 | some schedule opens both sides if and only if the address is accepted and the two paths are free, can be made and differ |
| `FifoHandshake.NamedClientConnects` | client/main.c:52-62 | the same with the FIFO names the programs build: `fifo://name:3000` connects if and only if neither FIFO is left over, both can be made and the two FIFO paths differ, always in 92 + 6n scheduler steps for a name of n bytes |
| `FifoHandshake.PathNames` | lib/communication/fifo/comm.connection.fifo.c:37-58 | the three paths, letter by letter: replies on `/tmp/SERVER.CLIENT.fifo`, requests on `/tmp/CLIENT.SERVER.fifo`, addresses on `/tmp/SERVER.in.fifo` |
| `FifoHandshake.NamedFailures` | lib/communication/fifo/comm.read.fifo.c:109-121 | a left-over reply FIFO fails the client with 300, a left-over request FIFO only the server, with 3003; no server refuses the address of a client so named |
| `FifoHandshake.PlainNamesConnect` | lib/communication/fifo/comm.connection.fifo.c:43-52 | in a directory without subdirectories that is: neither FIFO is left over, the paths differ, no name holds a slash, and both names together have at most 249 bytes |
| `FifoHandshake.SameNameNeverConnects` | lib/communication/fifo/comm.read.fifo.c:111-123 | a client named after its server is never connected |
| `Address.Until` | lib/communication/socket/comm.addr.socket.c:30-33 | the pointer-walking loops stop at the first stop byte |
| `Address.CommAddr.FromUrl` | lib/communication/socket/comm.addr.socket.c:10-91 | return code and every field on every exit, for both transports; `valid` is cleared on two of the error exits only |
| `Address.SocketSound` | lib/communication/socket/comm.addr.socket.c:27-90 | every accepted address has the shape `s...://host:digits`, with the parts and port stored |
| `Address.SocketComplete` | lib/communication/socket/comm.addr.socket.c:27-90 | every address of that shape is accepted with those parts |
| `Address.SocketExact` | lib/communication/socket/comm.addr.socket.c:10-91 | acceptance with given parts if and only if the address has that shape |
| `Address.PortMissing` | lib/communication/socket/comm.addr.socket.c:65-67 | an address that ends after its host has the code of a missing port, with protocol and host filled in |
| `Address.PortBad` | lib/communication/socket/comm.addr.socket.c:74-83 | one whose port goes on with anything but a digit has the code of a bad port |
| `Address.ProtocolWrong` | lib/communication/socket/comm.addr.socket.c:27-28 | the code of a wrong protocol is given if and only if the first letter is not that of the transport |
| `Address.SchemeMissing` | lib/communication/socket/comm.addr.socket.c:30-45 | a protocol not followed by `://` has the code of a missing protocol token |
| `Address.SocketRoundTrip` | server/main.c:158-161 | the printed `socket://host:port` is parsed back to host and port, for every port an int holds |
| `Address.FifoRoundTrip` | lib/communication/fifo/comm.addr.fifo.c:27-65 | `fifo://name` with anything after a stop byte names exactly that host |
| `FileCoding.EncodeRawData` | lib/file_utils/file_utils.c:79-101 | the encoding loop computes three digits per byte |
| `FileCoding.DecodeToRawData` | lib/file_utils/file_utils.c:103-124 | the decoding loop computes the byte of each triple, cut to eight bits |
| `FileCoding.DecodeEncode` | lib/file_utils/file_utils.c:79-124 | decoding undoes encoding for every file |
| `FileCoding.EncodeDigits` | lib/file_utils/file_utils.c:90-96 | code text is all digits |
| `FileCoding.EncodeReads` | lib/file_utils/file_utils.c:90-96 | each triple of the code, read as a decimal number, is the byte in its place |
| `FileCoding.EncodeDecodeExact` | lib/file_utils/file_utils.c:79-124 | encoding undoes decoding if and only if the text is digit triples up to 255 |
| `Tokenizer.Add` | utils.c:89-98 | a fresh vector holding the old strings and the new one |
| `Tokenizer.SplitArguments` | utils.c:40-87 | the scanning loop returns NULL or the tokens followed by an empty string, as the reference scanner does |
| `Tokenizer.CountElements` | utils.c:100-106 | the index of the first empty string |
| `Tokenizer.SplitAndCount` | client/commands.c:98-99 | argc is the number of tokens |
| `Tokenizer.SplitReading` | utils.c:40-87 | any spacing of any tokens is split back; an unfinished tail ending in a space is dropped |
| `Tokenizer.SplitExact` | utils.c:47-87 | NULL if and only if the quotes are odd in number and the last byte is no space; otherwise exactly the tokens of the one reading of the sentence |
| `Tokenizer.SplitTokens` | utils.c:47-87 | every token is non-empty, has evenly many quotes and no unquoted space |
| `Tokenizer.SplitJoin` | utils.c:40-87 | splitting the space-join of a list gives the list back if and only if all its members are such tokens |
| `SqlBuilders.FirstFree` | lib/sqlite/sqlite.select.c:40-41 | the slot search finds the end of the list |
| `SqlBuilders.ToFieldsString` | lib/sqlite/sqlite.c:116-128 | the buffer loop joins the slots with commas |
| `SqlBuilders.GrowWhere` | lib/sqlite/sqlite.select.c:57-57 | the clause grows by one condition at its end |
| `SqlBuilders.SelectQuery.SetAtribute` | lib/sqlite/sqlite.select.c:32-50 | the column is appended to the slots |
| `SqlBuilders.SelectQuery.SetWhere` | lib/sqlite/sqlite.select.c:52-59 | the condition is appended, in order |
| `SqlBuilders.SelectQuery.ToStr` | lib/sqlite/sqlite.select.c:61-83 | the text of what was set, of which `SqlReader.ReadSelectExact` says what it means to a reader of SQL; an empty column list becomes `*` in place |
| `SqlBuilders.PairedSlots.SetValue` | lib/sqlite/sqlite.insert.c:32-55 | column and value go into slots of the same index |
| `SqlBuilders.PairedSlots.InsertToStr` | lib/sqlite/sqlite.insert.c:57-75 | the text of the INSERT (`SqlReader.ReadInsertExact` reads it back), or nothing when no column was set |
| `SqlBuilders.PairedSlots.UpdateToStr` | lib/sqlite/sqlite.update.c:61-103 | the text of the UPDATE (`SqlReader.ReadUpdateExact` reads it back), or nothing when no column was set |
| `SqlText.CutValue` | lib/sqlite/sqlite.select.c:57-57 | a quoted or bare value followed by a delimiter is read in one way only |
| `SqlText.CutFields` | lib/sqlite/sqlite.c:116-128 | a field list is read in one way only |
| `SqlText.CutConds` | lib/sqlite/sqlite.select.c:57-57 | equal where texts hold equal conditions in the same order |
| `SqlText.SelectInjective` | lib/sqlite/sqlite.select.c:61-83 | equal SELECT texts have equal table, columns and conditions |
| `SqlText.InsertInjective` | lib/sqlite/sqlite.insert.c:57-75 | equal INSERT texts have equal table, columns and values |
| `SqlText.UpdateInjective` | lib/sqlite/sqlite.update.c:68-103 | equal UPDATE texts have equal table, assignments and conditions |
| `SqlText.RenderInjective` | lib/sqlite/sqlite.select.c:80-82 | no text renders two different queries of any kind |
| `SqlReader.ReadSelectExact` | lib/sqlite/sqlite.select.c:61-83 | a reader of SQL tokens that knows nothing of the builder reads from the text exactly the columns, the table, a comparison of 1 with 1, and the conditions in order |
| `SqlReader.ReadInsertExact` | lib/sqlite/sqlite.insert.c:57-75 | and from an INSERT exactly the table, the columns and the values |
| `SqlReader.ReadUpdateExact` | lib/sqlite/sqlite.update.c:61-103 | and from an UPDATE exactly the table, the assignments, the constant comparison and the conditions |
| `SqlPipe.SqlConnection.Callback` | lib/sqlite/sqlite.c:20-34 | one line with the cells joined by spaces |
| `SqlPipe.LineExact` | lib/sqlite/sqlite.c:20-34 | that line: leading empty columns leave nothing, what follows is separated by one space each |
| `SqlPipe.SqlConnection.WriteReply` | lib/sqlite/sqlite.c:204-212 | the row lines and one END line |
| `SqlPipe.SqlConnection.FeedByte` | lib/sqlite/sqlite.c:195-212 | one turn of the reading loop: the query is run, or the close text stops the child, when the piece is complete |
| `SqlPipe.SqlConnection.RunChild` | lib/sqlite/sqlite.c:188-216 | the child serves the bytes written until its read would block or it stops |
| `SqlPipe.SqlConnection.ReadAnswer` | lib/sqlite/sqlite.c:61-75 | the caller reads up to END inside its ten slots and keeps the first line |
| `SqlPipe.SqlConnection.RunSqliteQuery` | lib/sqlite/sqlite.c:36-76 | one call over both pipes does what `Call` says of the child and the unread replies |
| `SqlPipe.ServeAppend` | lib/sqlite/sqlite.c:188-216 | what the child does depends on the bytes alone, not on how they arrive |
| `SqlPipe.PiecesExact` | lib/sqlite/sqlite.c:195-198 | a query of length L is cut into ceil(L / 101) pieces |
| `SqlPipe.ServeQuery` | lib/sqlite/sqlite.c:188-216 | the child runs exactly these pieces and keeps nothing back |
| `SqlPipe.CallExact` | lib/sqlite/sqlite.c:36-76 | unread replies grow by ceil(L / 101) - 1; a caller behind gets the oldest unread reply, an aligned one with L <= 101 gets its own first row or END |
| `SqlPipe.LagExact` | lib/sqlite/sqlite.c:36-76 | over every run the unread replies number exactly the excess END markers |
| `SqlPipe.AlignmentExact` | lib/sqlite/sqlite.c:188-216 | both pipes are empty after a run if and only if every query fits in 101 bytes |
| `SqlPipe.AnswersExact` | lib/sqlite/sqlite.c:78-114 | over every run the i-th caller gets the first row of the i-th reply: those left unread before, then those of all pieces run |
| `SqlPipe.OwnAnswers` | lib/sqlite/sqlite.c:78-114 | with queries of at most 101 bytes that is its own first row, or END |
| `SqlPipe.SemicolonCuts` | lib/sqlite/sqlite.c:191-198 | a `;` inside a query leaves a reply unread, or stops the child |
| `SqlPipe.CloseAfterQuery` | lib/sqlite/sqlite.c:200-215 | a query with the close text behind it is answered, and the child stops |
| `SqlPipe.AnswersStopped` | lib/sqlite/sqlite.c:60-74 | after that the next callers get the replies still unread, and all others none |
| `SqlPipe.RowRoundTrip` | lib/sqlite/sqlite.c:20-34 | a row of non-empty columns, printed and split again, is the row if and only if every column is a token |
| `Queries.EngineExists` | server/sql_helpers.c:16-201 | an engine as it is assumed exists: the reader itself, carried out on the tables |
| `Queries.TextMeans` | server/sql_helpers.c:16-201 | carrying out the text as it is read, row by row, constant comparison included, does to the tables exactly what the builder was told, for every query of words, quoted texts and numbers |
| `Queries.EngineMeans` | server/sql_helpers.c:16-201 | so an engine that does what the texts of the six queries say does what the server meant |
| `Queries.FileText` | server/sql_helpers.c:16-46 | the text of the file look-up, letter by letter, for every alias and home |
| `Queries.AddFileText` | server/sql_helpers.c:48-77 | the text that adds a file, with owner 2 |
| `Queries.LoginText` | server/sql_helpers.c:79-112 | the text of the login |
| `Queries.UserText` | server/sql_helpers.c:125-147 | the text of the name search |
| `Queries.AddUserText` | server/sql_helpers.c:149-176 | the text that adds a user |
| `Queries.PassText` | server/sql_helpers.c:178-201 | the text that changes a password |
| `Queries.StarText` | lib/sqlite/sqlite.select.c:71-80 | the text of a SELECT for which no column was set, letter by letter: it asks for `*` |
| `Queries.LoginQueryWellFormed` | server/sql_helpers.c:79-103 | the login query has 86 + u + p bytes |
| `Queries.FileQueryWellFormed` | server/sql_helpers.c:24-40 | the file query has 66 + a + h bytes |
| `Queries.AddFileQueryWellFormed` | server/sql_helpers.c:55-71 | the file insert has 53 + h + 2a bytes |
| `Queries.UserQueryWellFormed` | server/sql_helpers.c:124-137 | the user query has 51 + u bytes |
| `Queries.AddUserQueryWellFormed` | server/sql_helpers.c:145-170 | the user insert has 76 + 2u + p bytes |
| `Queries.PassQueryWellFormed` | server/sql_helpers.c:185-198 | the password update has 54 + p bytes and the digits of the id |
| `Queries.FileRows` | server/sql_helpers.c:28-45 | the first row of the file query is the path the look-up finds, also for aliases that name a column |
| `Queries.LoginRows` | server/sql_helpers.c:87-115 | the first row of the login query is the row the look-up finds, also for texts that name a column |
| `Queries.UserRows` | server/sql_helpers.c:124-141 | the user query has a row if and only if the name is found, also for a name that names a column |
| `Queries.AddFileMeaning` | server/sql_helpers.c:48-77 | the insert appends the row of path, alias and owner 2 |
| `Queries.AddUserMeaning` | server/sql_helpers.c:152-170 | the user insert appends exactly the new row with home `/fs/` ++ name |
| `Queries.PassMeaning` | server/sql_helpers.c:187-198 | the update changes the password of the row with that id and no other, to the text or to the cell of the column it names |
| `Queries.QuoteEndsText` | server/sql_helpers.c:93-100 | a password holding a quote ends early: the query is one with another condition, and finds a row with another password |
| `Queries.LoginFits` | server/sql_helpers.c:79-103 | the login query comes through if and only if u + p <= 15 |
| `Queries.FileFits` | server/sql_helpers.c:24-40 | the file query comes through if and only if a + h <= 35 |
| `Queries.AddFileFits` | server/sql_helpers.c:55-71 | the file insert comes through if and only if h + 2a <= 48 |
| `Queries.UserFits` | server/sql_helpers.c:124-137 | the user query comes through if and only if u <= 50 |
| `Queries.AddUserFits` | server/sql_helpers.c:145-170 | the user insert comes through if and only if 2u + p <= 25 |
| `Queries.PassFits` | server/sql_helpers.c:185-198 | the password update comes through if and only if the id and the password have at most 47 bytes |
| `Worker.Process.Ask` | lib/sqlite/sqlite.c:78-114 | a fitting query gets its own first row or END, and the pipes are empty again |
| `Worker.Process.AskForFileToDb` | server/sql_helpers.c:16-46 | the look-up through the pipes is the look-up on the table |
| `Worker.Process.InsertAliasInDb` | server/sql_helpers.c:48-77 | exactly one file row is added |
| `Worker.Process.UserIdentificationInDb` | server/sql_helpers.c:79-116 | the row read back through `split_arguments` and `atoi` is the matching user in home, id and admin flag |
| `Worker.Process.UserInDb` | server/sql_helpers.c:118-142 | whether the name is in the table |
| `Worker.Process.NewUserInDb` | server/sql_helpers.c:144-176 | exactly one user row is added |
| `Worker.Process.UpdatePassInDb` | server/sql_helpers.c:178-201 | exactly that user's password changes |
| `Worker.Process.SendFile` | server/responder.c:44-52 | the encoded file, or the crash of a missing one |
| `Worker.Process.PostFile` | server/responder.c:77-95 | the look-up, then the new row, and the file if it can be written, or the notice that it exists |
| `Worker.Process.ProcessGetCmd` | server/responder.c:20-62 | new state and reply are those of `Step` |
| `Worker.Process.ProcessPostCmd` | server/responder.c:64-102 | new state and reply are those of `Step` |
| `Worker.Process.ProcessLoginCmd` | server/responder.c:104-137 | new state and reply are those of `Step` |
| `Worker.Process.ProcessLogoutCmd` | server/responder.c:139-151 | new state and reply are those of `Step` |
| `Worker.Process.AddUser` | server/responder.c:168-180 | the name search, then the folder if it can be made and the row, or the notice that the name exists |
| `Worker.Process.ProcessNewUserCmd` | server/responder.c:153-181 | new state and reply are those of `Step` |
| `Worker.Process.ProcessChangePassCmd` | server/responder.c:183-200 | new state and reply are those of `Step` |
| `Worker.Process.Dispatch` | server/main.c:57-108 | the dispatch under the lock does the command's step |
| `Session.FindPath` | server/sql_helpers.c:37-45 | the first row below this home whose alias matches, or none |
| `Session.FindLogin` | server/sql_helpers.c:102-107 | the first row that name and password match, or none |
| `Session.WordingSizes` | server/responder.c:164-164 | every reply but one is sent with the length of its text; that one with 10 (the texts themselves: the rows of `Exchange` from `LoginTold` on) |
| `Session.StepKeepsRows` | server/responder.c:104-200 | across every command, whatever words it holds, ids stay unique and the session matches a row in id, home and admin flag |
| `Session.NeverCrashes` | server/responder.c:44-52 | over every run from a stocked state, where listed files and homes are there and no home is the parent of the user folders, no get meets a missing file |
| `Session.StepKeepsPlaced` | server/responder.c:20-233 | across every command, whatever words it holds, homes stay plain and spelled one way, and every file is in a folder and is no folder |
| `Session.StepKeepsAccounts` | server/responder.c:104-200 | literal commands also keep names unique, and the session under the name of its row |
| `Session.StepGrows` | server/responder.c:153-181 | at most one row is added, by a logged-in admin, with home `/fs/` ++ name; other rows keep all but the password |
| `Session.UniqueOverRuns` | server/responder.c:168-181 | over every run names and ids stay unique, whatever words commands hold, as long as no added name names a column other than username |
| `Session.NoAdminNoGrowth` | server/responder.c:160-166 | over every run, whatever words its commands hold, a users table without an admin never grows |
| `Session.RowsOverRuns` | server/responder.c:104-200 | over every run ids stay unique, one is used up for each row added, the session matches a row, rows keep all but the password, and every added row has home `/fs/` ++ name |
| `Session.FilesOverRuns` | server/sql_helpers.c:48-77 | over every run the rows of files stay as they are, no two have one id, and one id is used up for each row added |
| `Session.AccountsOverRuns` | server/responder.c:104-200 | over every run of literal commands the session also goes by the name of its row |
| `Words.PasswordExact` | server/sql_helpers.c:93-103 | as a login password a text is nobody's but its own if and only if it names no column of the users table |
| `Words.NameExact` | server/sql_helpers.c:93-103 | as a login name a text finds nobody but the user of that name if and only if it names no column |
| `Words.NewPasswordExact` | server/sql_helpers.c:191-198 | a new password is stored as it is if and only if it names no column |
| `Words.AliasExact` | server/sql_helpers.c:31-42 | on every table an alias finds a file just when one below the home carries it, if and only if the alias names no column of the files table |
| `Words.NewNameExact` | server/responder.c:168-177 | adding a user never makes two of one name, in any state with unique names and ids, if and only if the name names no column, or the column username |
| `Words.PasswordAsPassword` | server/sql_helpers.c:93-103 | the password `password` logs in every name that is found |
| `Words.UsernameAsName` | server/sql_helpers.c:93-103 | the name `username` logs in with any stored password |
| `Words.UsernameAsNewPassword` | server/sql_helpers.c:191-198 | changing the password to `username` stores the user's own name |
| `Words.AliasAsAlias` | server/sql_helpers.c:31-42 | the alias `alias` finds the first file below the home |
| `Words.OtherPasswords` | server/sql_helpers.c:99-107 | what the other column names do as passwords: `home` and `cwd` log in those whose password is their home or `/`, the names of the row id those whose password is their id |
| `Words.OtherAliases` | server/sql_helpers.c:31-42 | and as aliases: `path` finds files whose alias is their path, `owner` and `oid` those whose alias is the number |
| `FileStore.SeesNames` | server/sql_helpers.c:35-38 | one user's home pattern finds another's files, for names added by the server, if and only if the first name is a prefix of the second ignoring case |
| `FileStore.HomesThatClash` | server/sql_helpers.c:35-38 | `bob` finds files of `bobby`, and `Bob` those of `bob` |
| `FileStore.FindExact` | server/sql_helpers.c:16-46 | with separated homes a look-up by a literal alias finds the user's own file and nothing else |
| `Session.PathInjective` | server/sql_helpers.c:63-63 | a path determines home and alias |
| `FileStore.SimulateLogin` | server/responder.c:104-137 | login refines the account map |
| `FileStore.SimulateGet` | server/responder.c:20-62 | get refines the write-once store |
| `FileStore.SimulatePost` | server/responder.c:64-102 | post refines the write-once store |
| `FileStore.SimulateNewUser` | server/responder.c:153-181 | adding a user refines the account map and leaves every file alone |
| `FileStore.RegisteredInv` | server/responder.c:168-181 | after adding a user, where no file has the place of the folder, every user, the new one too, has a folder, and every listed file is still there and owned |
| `FileStore.SimulateChangePass` | server/responder.c:183-200 | changing a password refines the account map |
| `FileStore.SimulateStep` | server/main.c:57-108 | every literal command in whose way the file system does not stand refines the store, with equal replies |
| `FileStore.RunRefines` | server/responder.c:20-200 | over every run of literal commands that leaves homes separated, with no folder in the place of a file nor the other way round, all replies are those of the write-once store |
| `FileStore.WriteOnce` | server/responder.c:77-93 | in the store no later command changes or removes a file |
| `FileStore.AbstractRefines` | server/sql_helpers.c:16-77 | every consistent state stands for such a store |
| `FileStore.PostThenGet` | server/responder.c:44-93 | after a post that could be written and any commands at all, whatever homes overlap, a get in a session with the same home returns exactly the stored bytes, for every alias a post can be found under |
| `FileStore.PostThenGetExact` | server/responder.c:44-93 | a post under "File OK" can be read back after every run if and only if its alias names no column of the files table but alias, the folder of the home is there, and the file is no folder |
| `FileStore.LostPost` | server/responder.c:90-93 | a post under "File OK" that could not be written: the get of it crashes the worker |
| `FileStore.FindableExact` | server/sql_helpers.c:31-42 | of letters and digits the aliases that cannot are `path`, `owner`, `rowid` and `oid`, ignoring case |
| `FileStore.PostedTwice` | server/responder.c:77-93 | under such an alias the get says the file is not there, and a second post is accepted and overwrites the first |
| `FileStore.FileKept` | server/responder.c:77-93 | over every run, whatever words and however homes overlap, no command changes or removes a listed file of the tables and the tree, under every alias a post can be found under |
| `FileStore.StepKeepsInv` | server/responder.c:20-200 | literal commands keep a state consistent in whose way the file system does not stand, whether or not homes are separated |
| `FileStore.StepKeepsOrderly` | server/responder.c:20-200 | literal commands keep the two tables in order in any case |
| `FileStore.IntrusionFound` | server/sql_helpers.c:35-45 | if one home sees another, six commands let its owner fetch a file it never posted |
| `FileStore.IsolationExact` | server/sql_helpers.c:16-77 | the worker behaves as the write-once store under every run of literal commands that adds no user if and only if no home sees another and no folder is where a user could post, for users who can log in with what the table holds |
| `Crashes.NoCrashExact` | server/responder.c:44-95 | from any sound state no run crashes the worker if and only if no home is the parent of the user folders, where users can log in with what the table holds and one is an administrator |
| `Crashes.DisplacedCrashes` | server/responder.c:213-233 | an administrator at home in the parent folder posts under a name and adds a user of that name: that user gets no folder, and the post and get after that crash the worker |
| `Crashes.FileBlocksFolder` | server/responder.c:213-233 | a file in the place of a new user's folder: the user gets none |
| `Crashes.FolderMadeExact` | server/responder.c:213-233 | after a user is registered its folder is there if and only if it was, or the parent folder is and no file has its place; no other folder comes or goes |
| `Crashes.ShippedSound` | server/responder.c:213-233 | the two shipped users, root at home in `/fs/`, are a sound state of which the condition fails |
| `Crashes.ShippedLoses` | server/responder.c:90-95 | there root posts a file under the alias `mgoffan`, is told "File OK", and the get of it crashes the worker |
| `Crashes.ShippedDisplaces` | server/responder.c:168-181 | there root posts under `bob`, adds a user `bob`, and bob's own post and get crash the worker |
| `FileStore.LoginExact` | server/sql_helpers.c:102-107 | a login with literal texts, under a name that only one row has, succeeds if and only if the password is the row's |
| `FileStore.SoleStays` | server/responder.c:168-181 | a literal name stays the only one of its kind, whatever names others add |
| `FileStore.OtherLogins` | server/sql_helpers.c:178-201 | setting the password of one id changes no login of a user with another id |
| `FileStore.PasswordChange` | server/responder.c:183-200 | after a change, under whatever name the session goes and whatever is done until that user's next one, the new password and no other literal one logs in; other users' logins are untouched |
| `Limits.ServiceableExact` | server/sql_helpers.c:16-201 | the queries of a literal command all get through the pipes if and only if its names are short enough |
| `Limits.LoginLag` | lib/sqlite/sqlite.c:195-198 | a login leaves ceil((86 + u + p) / 101) - 1 replies unread |
| `Limits.StepKeepsTidy` | server/responder.c:104-200 | short literal commands keep the tables readable through the pipes, as long as no home sees ten others |
| `Limits.RunWorker` | server/main.c:220-258 | a whole run of literal commands within the limits, where no home sees ten others, gives through builders, text and pipes the states and replies of the tables alone |
| `Message.CommandRoundTrip` | lib/serialization/serialization.c:60-143 | a request is parsed back if and only if its size survives the C int |
| `Message.ParseExact` | lib/serialization/serialization.c:145-304 | an object, whatever else it holds, is parsed as a given request if and only if it has the members of that request, each under its own name |
| `Message.CarriedExact` | lib/serialization/serialization.c:76-76 | which sizes do |
| `Message.ReplyRoundTrip` | lib/serialization/serialization.c:189-195 | the text of a reply is parsed back; its size is not |
| `JsonText.CodecExists` | lib/serialization/serialization.c:60-84 | a text form as it is asked of the JSON library exists |
| `Responders.AcquireKeepsInv` | server/main.c:57-57 | taking the lock and running the command keeps the invariant, also when the command crashes the worker |
| `Responders.WriteKeepsInv` | lib/file_utils/file_utils.c:22-25 | a single-byte write by the lock holder keeps it |
| `Responders.ReleaseKeepsInv` | server/main.c:108-108 | releasing the lock keeps it |
| `Responders.RunKeepsInv` | server/main.c:35-120 | under every schedule the reply channel is whole frames in lock order and then a prefix of the holder's |
| `Responders.NeverStuck` | server/main.c:57-108 | while the worker lives and a thread is unfinished, some thread can move |
| `Responders.StaysAlive` | server/main.c:57-108 | from a stocked state no schedule of any commands kills the worker |
| `Responders.RepliesInLockOrder` | server/main.c:57-108 | under every schedule the client decodes exactly the replies of the commands run one by one in lock order |
| `Responders.NextReceive` | server/main.c:57-108 | under every schedule the receive after those waits while the lock holder has not written all of its frame, or there is no holder; else it gets that reply and empties the channel |
| `Exchange.ServerTurnExact` | server/main.c:220-258 | whatever else is in the channels, the worker takes one request, runs it once, adds one reply frame and leaves the rest |
| `Exchange.ClientTurnExact` | lib/serialization/serialization.c:308-324 | whatever else is in the channels, the client takes one reply, has its text and leaves the rest |
| `Exchange.RoundExact` | client/commands.c:416-435 | from quiet channels every command gets exactly its own reply and the channels are quiet again (what it says, letter by letter: the next rows) |
| `Exchange.LoginTold` | server/responder.c:104-137 | after the bytes of a login round the client holds "You are already logged in" if there was a session, else "Logged in successfully" if some row matches name and password, else "Login failed" |
| `Exchange.StrangerTold` | server/responder.c:202-211 | without a session every other command is told "NOT logged" |
| `Exchange.LogoutTold` | server/responder.c:139-151 | a logout is told "Log out successful" |
| `Exchange.GetTold` | server/responder.c:20-62 | a get is told "FILE IS NOT IN DB" if no row below the home has the alias, else a text that decodes to the file of the first such row |
| `Exchange.PostTold` | server/responder.c:64-102 | a post is told "FILE EXISTS" if there is such a row, else "File OK" |
| `Exchange.NewUserTold` | server/responder.c:153-181 | a new-user command is told "HAVE NOT PERMISION" without the admin flag, else "User already exists" if the name is found, else "User registered" |
| `Exchange.ChangePassTold` | server/responder.c:183-200 | a change of password is told "PASSWORD UPDATED" |
| `Exchange.SessionExact` | server/main.c:220-258 | over a whole session of rounds that crashes nothing, as bytes, every command gets its own reply, the worker ends in the state of the commands run one by one, and the channels are quiet |
| `Exchange.SessionTold` | server/main.c:220-258 | every text of a session of rounds is the one told in the state the commands before it lead to |
| `Exchange.FileRoundTrip` | client/commands.c:410-435 | in one session of byte rounds, a post, any commands and a get, the posted file is fetched byte for byte, under every alias a post can be found under and where the file can be written |
| `Exchange.CodeHoldsNoBoundary` | lib/file_utils/file_utils.c:79-101 | the code text of a file can never hold a boundary |
| `Client.AgreementExact` | client/commands.c:441-555 | in every session the client's flag, decided by the text received, equals the worker's session state if and only if no login or logout was refused for capacity |
| `Client.FailedText` | client/commands.c:495-500 | the text that keeps the flag down is the reply to a login if and only if there was no session and no row matches |
| `Client.AnswersExact` | server/main.c:233-240 | unless a command crashes the worker, answers received plus slots left is constant, and a request is refused if and only if more are sent than there were slots |
| `Client.ConnectedExact` | server/main.c:220-258 | a client of a stocked worker with min and max threads gets exactly its first min * 2^k - 1 requests answered, for the largest k within max, and the next one refused |
| `Client.FirstRequestsAnswered` | server/main.c:220-258 | from a stocked state, up to the capacity every request sent is answered and the flag tells the truth |
| `Client.RefusedLoginMisleads` | client/commands.c:495-502 | a refused login leaves the client, told "Server maxed capacity", believing it is logged in |
| `Usage.NotSentExact` | client/commands.c:345-349 | nothing is sent, and nothing changes, for a login when logged in and for anything else when not, and only then |
| `Usage.LoginAchieves` | client/commands.c:441-503 | the name typed first and the password typed second log in the first row that has both, with its home, flag and id; the client is told "Logged in successfully", or "Login failed" if there is no such row, and nothing else changes |
| `Usage.LogoutAchieves` | client/commands.c:505-555 | a logout ends the session on both sides |
| `Usage.PostThenGetAchieves` | client/commands.c:408-435 | after a post told "File OK" and any commands, a get of its alias in a session with that home gives a text that decodes to the bytes of the posted file |
| `Usage.GetAchieves` | client/commands.c:330-370 | a get gives the code of the file its row leads to, or the notice that there is none |
| `Usage.NewUserAchieves` | client/commands.c:557-625 | an administrator adds a last row with the name, the password and the flag typed, and a home of its own |
| `Usage.NewUserLogsIn` | client/commands.c:441-625 | and that user can log in with that password, into that home with that flag |
| `Usage.ChangePassAchieves` | client/commands.c:708-764 | the row of the session, and no other, gets the password typed |
| `Terminal.CommandLine.Transact` | client/commands.c:473-485 | one request and its reply, over the worker process |
| `Terminal.CommandLine.CmdLogin` | client/commands.c:441-503 | gates, request, the test of the text received, and new flag are those of `Do`, of which `Usage.LoginAchieves` says what it achieves |
| `Terminal.CommandLine.CmdLogout` | client/commands.c:505-555 | gates, request and new flag are those of `Do` |
| `Terminal.CommandLine.CmdGet` | client/commands.c:330-370 | gates and request are those of `Do`, waiting for the reply |
| `Terminal.CommandLine.CmdPost` | client/commands.c:372-439 | gates, encoding and request are those of `Do` (`Usage.PostThenGetAchieves`) |
| `Terminal.CommandLine.CmdNewUser` | client/commands.c:557-625 | gates and request are those of `Do` |
| `Terminal.CommandLine.CmdChangePass` | client/commands.c:708-764 | gates and request are those of `Do` |
| `ThreadTable.Table.Enlarge` | server/main.c:239-239 | the longer table has the same beginning |
| `ThreadTable.Table.Admit` | server/main.c:233-255 | a request is entered in bounds, or refused exactly when the table is at its last size and full |
| `ThreadTable.Serve` | server/main.c:220-258 | a worker serves exactly the first min(n, capacity) requests |
| `ThreadTable.CapacityExact` | server/main.c:139-141 | the capacity is min * 2^k - 1 for the largest k within max |
| `ThreadTable.CapacityBounds` | server/main.c:233-240 | with min <= max, capacity + 1 is above max / 2 and at most max |
| `ThreadTable.ShippedCapacity` | server/config/config.json:5-6 | 10 and 100 threads serve 79 requests |
| `Monitor.Table.UpdateThreads` | monitor/main.c:138-150 | the inner loop overwrites the thread's row or appends it |
| `Monitor.Table.FindSlot` | monitor/main.c:136-137 | the outer loop finds the worker's slot or the first free one |
| `Monitor.Table.Read` | monitor/main.c:128-168 | one sample updates the table as `Take` says, if and only if the lists then still end inside their slots |
| `Monitor.Table.Watch` | monitor/main.c:121-168 | a whole run of samples stays in bounds and ends with the table of all of them if and only if it has at most 99 workers and 99 threads of each |
| `Monitor.Table.DrawThreads` | monitor/main.c:178-188 | the live threads go on consecutive rows |
| `Monitor.Table.DrawWorker` | monitor/main.c:174-193 | a worker with live threads has its own id on the next free row and its threads below; one without leaves nothing behind |
| `Monitor.Table.Draw` | monitor/main.c:170-194 | every worker with a live thread is on the row below those of the workers before it, its live threads on the rows after, in table order, and nothing else is anywhere; the counter is the number of those rows |
| `Monitor.ScreenTells` | monitor/main.c:121-194 | after any run of samples, a thread not last sampled DOWN is on the screen with the status last sampled, below the id of its own worker, workers and threads in first-seen order |
| `Monitor.ScreenHides` | monitor/main.c:178-193 | a worker all of whose threads were last sampled DOWN is on no row |
| `Monitor.UpsertStatus` | monitor/main.c:136-168 | a sample sets its own (worker, thread) and no other |
| `Monitor.TableIsMap` | monitor/main.c:121-168 | over every run the table is the map from (worker, thread) to last sampled status |
| `Monitor.WorkersInOrder` | monitor/main.c:155-168 | over every run worker ids are unique and in first-seen order |
| `Monitor.ThreadsInOrder` | monitor/main.c:138-164 | over every run each worker's thread ids are those sampled for it, unique and in first-seen order |
| `Monitor.RoomExact` | monitor/main.c:138-164 | the lists end inside their slots if and only if there are at most 99 distinct workers and 99 distinct threads of each |
| `Monitor.WorkerFits` | server/main.c:208-255 | a worker configured with at most 99 threads never samples more than fit its list |
| `Monitor.LayoutRows` | monitor/main.c:170-194 | the row counter is the sum of 1 + live threads over workers with a live thread |

## Left out

- json-c printing and parsing, the SQLite engine, libc float formatting: foreign code, replaced by the parameters described above.
- Socket setup and the socket copies of the framing loops, which repeat the FIFO ones.
- Asynchronous get and `data_listener`: a get is taken to wait for its reply, because the synchronous receive does not take the listener's lock and the code does not decide the pairing.
- Close and shutdown of connections, `close_sql_conn`, end of file on read, signals, `fork`, `exec`.
- The interleaving of the "Server maxed capacity" message with responder threads: the worker is only taken to stop after it.
- Several workers sharing the SQL pipes, several clients on the connection FIFO: no lock is shared, so everything is stated per worker and per client.
- Logging, the ncurses calls other than row and text, option parsing, configuration loading, help text, the `int`, `double` and `string` echo commands.
- The DELETE builder and double arithmetic.
- The fixed text buffers of the query builders (16-byte table names, 894-byte where clauses, 1024-byte queries, values copied without room for the terminator) and the 6-byte id text: the intended texts are modelled.
- Words that name an integer column or the row id: `Session` reads the text compared with them as a number only when it is all digits, where SQLite also reads signs, points, exponents and spaces; so nothing is assumed of the engine for them, and `Worker` does not issue them.
- The `cwd` column: it is `/`, its default, in every row, as nothing writes it.
- Login names and passwords holding `"` or `;`, beyond what `Queries.QuoteEndsText` and `SqlPipe.SemicolonCuts` say: the SQL such a text turns into is any SQL.
- SQL NULL columns, which `callback` prints as the word NULL: the tables used have none.
- Writes and mkdirs that fail for want of rights or space, or because a name has more than 255 bytes (a file query with more than 35 bytes of alias and home does not come through the pipes anyway, `Queries.FileFits`); links, and `.` or `..` inside a home.
- Ports and sizes outside the C integer ranges, except where a row says how they are cut.
- Framing.ReceiveData: the buffer counts as overrun as soon as no room for a terminator is left, one byte before the C code must write outside it.
- FileCoding.DecodeToRawData: only texts of whole triples, since the code reads past the end of any other text.
- Monitor.Table.Read: a sample that does not fit ends the run, where the code writes past its slots.
- Tokenizer.SplitAndCount: not for a sentence with an unclosed quote, for which `split_arguments` gives NULL and the count would read it.
- Terminal.CommandLine.CmdGet: waits for the reply, where the code starts a listener thread and returns.
- The signal or end of file that meets a caller of the SQL child once it has stopped: such a caller gets no answer in the model.
- Homes in a table from elsewhere that hold a quote, `%`, `;` or a NUL: they would not stay inside the queries they are put in.
- Worker.Process.Dispatch: requires that the command's queries get through the pipes; `Limits.ServiceableExact` says when they do and `SqlPipe.LagExact` what happens otherwise.
- Terminal.CommandLine.CmdLogin: argument counts and the help word are not modelled.
- SqlReader.ReadSelectExact: a SELECT of all columns (`*`) is rendered but not read; no query of the server asks for it.
- Handshake.FailureCodes: FIFOs removed by others during a handshake, which the other six exits are for.
