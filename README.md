# HLL server log recorder — Dafny model

This project models the core of `log_recorder.py`, a client that polls the log
output of Hell Let Loose game servers over their XOR-obfuscated RCON protocol and
forwards it to a MySQL table and/or per-keyword text files.

Modules, one per part of the program:

- `Cipher` — `XOR_RCON.xor_crypt`: repeating-key XOR over bytes (`seq<bv8>`). It fails
  when no key, or an empty key, has been received. The keystream starts at key byte 0
  on every call.
- `Rcon` — the `XOR_RCON` object as a class `RconSession`. It has the socket state,
  the key captured from the first read after connecting, and `connect`, `send`,
  `receive` and `close`. A connection is abstracted as the sequence of frames the
  server will deliver on it. What the client writes is recorded frame by frame.
- `Worker` — the polling worker. It covers the fetch command for a keyword, the rule
  for which replies are forwarded, the database row format and the file name. It
  also covers one pass over the keywords, both on a list of replies and driven
  through a logged-in session, plus one trip through the outer connect/poll loop.
- `Config` — `load_servers` and `main` up to starting the threads. This covers the
  scan over indexed server entries, the keyword list, the `SAVE_TO_*` flags and the
  choice of sinks.
- `Text` — the Python string operations these rely on: `str.isspace`, `strip`,
  `split(',')` and `in`.
- `Wrappers` — `Option` and `Result`.

Behaviour of the code that the model keeps as written:

- The keystream is rebuilt from `key[0]` on every call to `xor_crypt`
  (log_recorder.py:41). It does not continue across calls.
  `Cipher.KeystreamRestartsEachCall` shows two frames obfuscated in separate calls
  that differ from the same bytes obfuscated in one call.
- File names are not injective. The keyword `"all"` and the empty keyword share a
  file, and underscores in server names or keywords can make names meet.
  `Worker.FileNameCollisions` shows both. For a fixed server and base path the only
  collisions are keywords with the same file-name part (`Worker.FileNameSameServer`).
- `close` does not discard the key (log_recorder.py:54-56). A new `connect`
  overwrites it.
- After a rejected login the worker does not close the socket, and the session
  keeps the old key until the next `connect` overwrites it with a fresh read
  (log_recorder.py:29, 137-140).
- Ports are not range-checked. Whatever `int(port)` accepts is kept
  (log_recorder.py:71).

## Model

| member | source | states |
|---|---|---|
| `Cipher.Repeat` | log_recorder.py:41 | `key * count` has `count` times the key's length |
| `Cipher.RepeatAt` | log_recorder.py:41 | byte i of the repeated key is key byte `i mod len(key)` |
| `Cipher.XorZip` | log_recorder.py:41 | `zip` stops at the shorter input; each output byte is the XOR of the paired bytes |
| `Cipher.Keystream` | log_recorder.py:40-41 | `key * (len(data) // key_len + 1)` is always longer than the data, so no data byte is dropped by `zip` |
| `Cipher.XorBytes` | log_recorder.py:41 | the obfuscated output has exactly the input's length: the keystream always covers the data |
| `Cipher.XorCrypt` | log_recorder.py:37-41 | `xor_crypt` fails exactly when the key is None or empty |
| `Cipher.XorByteAt` | log_recorder.py:40-41 | byte i of the output is `data[i] XOR key[i mod len(key)]`, the keystream starting from key byte 0 |
| `Cipher.XorBytesAt` | log_recorder.py:40-41 | the output has the input's length and byte i is `data[i] XOR key[i mod len(key)]`, starting from key byte 0 |
| `Cipher.XorBytesInvolution` | log_recorder.py:41 | applying the transform twice with the same key gives back the input |
| `Cipher.XorCryptRoundTrip` | log_recorder.py:37-41 | with a non-empty key, `xor_crypt` succeeds, preserves length, follows the per-byte formula and is its own inverse |
| `Cipher.XorBytesConcat` | log_recorder.py:41 | one call on `a + b` equals two calls if the length of `a` is a multiple of the key length |
| `Cipher.KeystreamRestartsEachCall` | log_recorder.py:41 | with key [1, 2], two one-byte calls give [1, 1] while one two-byte call gives [1, 2]: no offset is carried |
| `Text.IsSpace` | log_recorder.py:151 | `str.isspace` holds for no ASCII letter, digit, comma or double quote, so `strip` never removes part of a keyword, the marker or a command |
| `Text.TrimStartSpec` | log_recorder.py:151 | `lstrip` removes exactly the leading whitespace |
| `Text.TrimEndSpec` | log_recorder.py:151 | `rstrip` removes exactly the trailing whitespace |
| `Text.Strip` | log_recorder.py:151 | `strip` never lengthens its input, and its result neither starts nor ends with whitespace |
| `Text.StripSlice` | log_recorder.py:151 | `strip` yields the slice between a whitespace-only head and tail, neither starting nor ending with whitespace |
| `Text.StripEmptyIff` | log_recorder.py:184 | a string strips to "" exactly when it is all whitespace |
| `Text.StripIdempotent` | log_recorder.py:184 | stripping twice is stripping once |
| `Text.StripPadding` | log_recorder.py:151 | whitespace around a non-blank core is exactly what `strip` removes |
| `Text.Split` | log_recorder.py:184 | `split(',')` gives at least one piece and no piece holds the separator |
| `Text.SplitJoin` | log_recorder.py:184 | joining the pieces with the separator gives back the input |
| `Text.SplitConcat` | log_recorder.py:184 | splitting `a + ',' + b` gives the pieces of `a` followed by those of `b` |
| `Text.Contains` | log_recorder.py:31 | `sub in s` holds for the empty `sub`, and never for a `sub` longer than `s` |
| `Text.ContainsIff` | log_recorder.py:31 | `"SUCCESS" in reply` holds exactly when the marker occurs at some position |
| `Rcon.Recv` | log_recorder.py:29 | one `recv(size)` returns at most `size` bytes, returns b"" only when the peer has closed, and loses no bytes of the stream |
| `Rcon.ReplyText` | log_recorder.py:50-52 | an empty read gives ""; any other read gives the decoding of the plaintext whose obfuscation under the key is the bytes read |
| `Rcon.Exchange` | log_recorder.py:146-149 | n successive reads give n replies |
| `Rcon.ReplyRoundTrip` | log_recorder.py:48-52 | a reply the server obfuscated with the session key, fitting one read, is returned as the decoding of its plaintext |
| `Rcon.RconSession.constructor` | log_recorder.py:16-22 | a new session has no socket and no key |
| `Rcon.RconSession.Receive` | log_recorder.py:48-52 | one read of at most 8192 bytes; an empty read is "" without touching the key, otherwise de-obfuscate and decode, or fail without a key |
| `Rcon.RconSession.Send` | log_recorder.py:43-46 | without a key, fails with the key error and writes nothing; on an open socket, writes the obfuscated command and returns one reply |
| `Rcon.RconSession.Connect` | log_recorder.py:24-35 | opens a new connection, stores the first read (up to 4096 bytes) as the key, sends `Login <password>`, and accepts iff the reply contains SUCCESS; fails iff the key is empty |
| `Rcon.RconSession.Close` | log_recorder.py:54-56 | closes an existing socket and keeps the key |
| `Rcon.LoginAndFetch` | log_recorder.py:24-52 | with the key 0xAB 0xCD and a SUCCESS reply, the client logs in, returns the fetched reply decoded, and writes exactly the two obfuscated commands |
| `Worker.FetchCommandRoundTrip` | log_recorder.py:147 | the keyword is recovered from its command (`showlog 1` for none, `showlog 1 "<kw>"` otherwise), so distinct keywords give distinct commands |
| `Worker.ShouldDispatch` | log_recorder.py:151 | an empty reply is never forwarded |
| `Worker.WhitespaceReplyDispatched` | log_recorder.py:151 | a non-empty whitespace-only reply is forwarded |
| `Worker.HeldBackReplyIsPaddedSuccess` | log_recorder.py:151 | a non-empty reply that is held back is SUCCESS with only whitespace before and after it (the converse of `PaddedSuccessNotDispatched`) |
| `Worker.DroppedReplyHoldsMarker` | log_recorder.py:151 | a non-empty reply that is held back contains SUCCESS |
| `Worker.PaddedSuccessNotDispatched` | log_recorder.py:151 | SUCCESS with any whitespace around it is never forwarded |
| `Worker.DbPayloadShape` | log_recorder.py:153 | the database row starts with `Keyword: ` and ends with a line break followed by the unchanged logs |
| `Worker.DbPayloadRoundTrip` | log_recorder.py:153 | the row `Keyword: <kw or ALL>\n<logs>` gives back the label and the logs unchanged |
| `Worker.FileNameShape` | log_recorder.py:112-113 | the file name starts with `<server>_` and ends with `_<base>`, with a non-empty keyword part between them |
| `Worker.FileNameSameServer` | log_recorder.py:112-113 | for one server and base path, two keywords share a file iff their file-name parts agree |
| `Worker.FileNameCollisions` | log_recorder.py:112-113 | "all" and the empty keyword share a file; underscores let different (server, keyword) pairs share one |
| `Worker.DispatchWritesSpec` | log_recorder.py:151-158 | a reply causes one write per enabled sink if forwarded and none otherwise; each write is a row or an append for that reply; the row comes before the append |
| `Worker.CycleWritesConcat` | log_recorder.py:146-158 | writes of a pass follow keyword order: two lists in a row write what each writes, in that order |
| `Worker.CycleWritesCount` | log_recorder.py:151-158 | each forwarded reply reaches every enabled sink exactly once; nothing else is written |
| `Worker.CycleWritesSound` | log_recorder.py:151-158 | every write is a DB row `Keyword: ...` or a file append of the unchanged reply, from a forwarded reply of some keyword |
| `Worker.TwoPassesTwoFiles` | log_recorder.py:107-158 | keywords ["A", ""] over two passes append to two distinct files, each twice, in fetch order |
| `Worker.OneFilePass` | log_recorder.py:146-158 | one pass over ["A", ""] with file output appends to the A file, then the all file |
| `Worker.Forward` | log_recorder.py:151-158 | the loop body after the fetch performs exactly the writes of `DispatchWrites`, at most two |
| `Worker.PollCycle` | log_recorder.py:146-160 | one pass sends each keyword's command (from which the keyword is recovered) and performs the pass's writes |
| `Worker.WireCommands` | log_recorder.py:147-149 | the i-th frame written in a pass is the obfuscated command of the i-th keyword |
| `Worker.PollKeyword` | log_recorder.py:147-158 | one keyword on a session: one obfuscated command written, one reply read, its writes performed |
| `Worker.PollRound` | log_recorder.py:146-160 | a pass on a logged-in session writes every keyword's command in order, reads one reply each, and performs the writes of those replies |
| `Worker.WorkerAttempt` | log_recorder.py:134-168 | an empty key ends the attempt with the key error and a closed socket, nothing written and the frames after the key still pending. Otherwise the login is rejected exactly when its reply lacks SUCCESS, and the socket stays open with only the login frame written. When the login is accepted, one pass reads the replies `Exchange` gives from the frames after the login reply, writes the login frame then each keyword's command, and performs that pass's sink writes |
| `Config.ScanServers` | log_recorder.py:59-75 | the scan loads at most one server per index that is set |
| `Config.ScanServersSound` | log_recorder.py:59-75 | every loaded server has non-empty name, host and password and comes from an index with a parsed port, with no gap before it |
| `Config.ScanServersComplete` | log_recorder.py:59-75 | every gap-free entry whose port parses is loaded |
| `Config.ScanIgnoresAfterGap` | log_recorder.py:63-69 | entries after the first incomplete index never influence the result |
| `Config.LoadServers` | log_recorder.py:59-75 | the `while True` scan returns exactly the servers of the scan specification |
| `Config.KeepStrippedWellFormed` | log_recorder.py:184 | kept entries are non-empty, stripped and comma-free |
| `Config.KeepStripped` | log_recorder.py:184 | the comprehension keeps at most one entry per piece, and never an empty one |
| `Config.Filters` | log_recorder.py:184 | every filter read from LOG_KEYWORDS is non-empty, stripped and comma-free |
| `Config.KeepStrippedConcat` | log_recorder.py:184 | the comprehension keeps list order |
| `Config.FiltersConcat` | log_recorder.py:184 | the filters of `a,b` are those of `a` followed by those of `b` |
| `Config.NormalizeKeywords` | log_recorder.py:183-186 | the keyword list is never empty; it is `[""]` exactly when there are no filters, and otherwise the filters themselves |
| `Config.LowerAscii` | log_recorder.py:188-189 | lowering maps each character independently and keeps the length |
| `Config.ParseFlag` | log_recorder.py:188-189 | a flag is on exactly when the variable is set to "true" in any of its sixteen capitalisations; unset is off |
| `Config.ParseFlagExamples` | log_recorder.py:188-189 | "true", "True", "TRUE" and "tRuE" enable a sink; "1", "yes", " true" and an unset variable do not |
| `Config.SelectSinks` | log_recorder.py:192-203 | startup fails iff files are off and the database is off or unreachable; the database is kept only if reachable |
| `Config.Startup` | log_recorder.py:177-203 | startup fails exactly when no server loads or no sink is usable; no servers is the first fatal error, and otherwise the error is AllSinksFailed when the database was requested and NoSinkEnabled when not; on success the plan carries the scanned servers, the keyword list, the sink choice and the log path (default `hll_logs.log`) |

## Left out

- Socket creation, connect timeouts, `send` and `recv` are not modelled as I/O. A connection is the sequence of frames the server delivers. A read from an exhausted sequence returns b"", as after the peer closes. Timeouts and connection resets are network errors and are not modelled.
- UTF-8 encoding of commands and decoding of replies with `errors='ignore'` are session parameters (`encode`, `decode`). They are codec library behaviour.
- MySQL connection, insert, commit and reconnect (log_recorder.py:78-105) are database I/O. A database write is a `DbInsert` record. Whether `connect_db` succeeds is the `dbConnected` input.
- Opening, appending to and timestamping the log file (log_recorder.py:114-118) are filesystem I/O and wall-clock time. Only the path and the logs are modelled.
- The content of a `FileAppend` write leaves out the `--- Log fetched at <timestamp> ---` header line before the logs and the two line breaks after them (log_recorder.py:116-118), because the header depends on the wall clock.
- The `time.sleep` backoffs and the endless outer loops of `worker` (log_recorder.py:134-172) are not modelled. One trip through the outer loop and one pass over the keywords are modelled.
- The generic `except Exception` branch (log_recorder.py:170-172) is not modelled. Within `Worker.WorkerAttempt` only the missing-key error can arise, because `Connect` always leaves the socket open; `NotConnected` arises only when `Send` or `Receive` is used on a socket that is not open.
- Threads, `join`, `KeyboardInterrupt` and `os._exit` (log_recorder.py:206-224) are concurrency and process control.
- `os.getenv` and dotenv loading are not modelled. The environment is an `Environment` value. `int(port)` is an abstract partial parser.
- Config.LowerAscii: `str.lower` is modelled for ASCII letters only. No other character lowers to a letter of "true", so the flag decision is unaffected.
- Log messages printed to the console are not modelled.
