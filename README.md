# kvs: the log-structured key-value store

This project models the key-value store built up in the course projects of
`courses/rust/projects`. Its centre is the log-structured engine `KvStore`.
That engine has one algorithm, which appears three times:
`project-2/src/lib.rs`, `project-3/src/engines/kvs.rs` and
`project-4/src/engines/kvs.rs`. The class `LogKvStore.KvStore` models all
three.

- **The engine.** Every `set` and `remove` appends a command record to the
  current log file. An in-memory index maps each live key to the position of
  its latest `Set` record: log number, byte offset and encoded length. A
  counter starts at 0 when the store is opened. It grows by the length of
  the indexed record that a `set` replaces or a `remove` drops. The `Remove`
  records themselves, and records left over from before the store was
  opened, are not counted. Once the counter goes over 1 MiB, `compact` copies every live record into a new log
  numbered one higher, re-points the index there, deletes the older logs and
  zeroes the counter.
- **Opening.** `open` lists the directory's `<n>.kvs.log` files and replays
  them in ascending order to rebuild the index. It then appends to the
  highest-numbered log, or to a new log 0 when there is none.
- **Other parts of the course.**
  - project-1's in-memory `KvStore`.
  - The server's `process_request` and the client's reading of the
    `Response` (project-4).
  - The engine-name handling of `kvs-server` (project-3).

The engine's state is a map from log number to the sequence of records in
that log. A byte offset is the sum of the encoded lengths of the records
before it. The encoded length of a record is a parameter `size` of the
store: an arbitrary positive function, standing for the MessagePack
serializer. The directory is a map from file name to `File(records)` or
`Directory`.

The class invariant `Valid` says four things:

- every index entry designates a `Set` record of its own key, with that
  record's length;
- every log is numbered at most the current one;
- the current log exists;
- the index is exactly what replaying the logs in ascending order rebuilds.

The last point is what makes the store recoverable. `Reopen` writes a
valid store's logs to a directory and opens it again: it gets the same logs,
the same current log and the same index back, so the same contents. `Contents()` is the key-value mapping the store
holds. `Set`, `Remove` and `Compact` are proved to keep `Valid` and to change
`Contents()` as promised. `Get` is proved to answer from `Contents()`.

Modules:

- `CommandLog` (`command_log.dfy`): records, positions, replay and
  `load_index`.
- `LogFiles` (`log_files.dfy`): log file names and `get_log_numbers`.
- `LogKvStore` (`kv_store.dfy`): the engine.
- `MemKvStore` (`mem_store.dfy`): the in-memory store.
- `Protocol` (`protocol.dfy`): `process_request` and the client's matching.
- `EngineSelection` (`engine_name.dfy`): `EngineName` and the startup check.
- `Wrappers` and `KvsErrors`: `Option`, `Result` and the error kinds.

Notes on the source, which the model follows:

- **`get` of a non-`Set` record.** If the record at an indexed position is
  not a `Set`, project-2 returns `DecodeError("Found remove, when expected
  set")` and projects 3 and 4 return `UnexpectedCommand`. The model uses
  `UnexpectedCommand`. `Get`'s contract shows this branch never runs on a
  valid store.
- **Parsing log file names.** A log number is read from a name as follows:
  the name's extension must be `log`; `.kvs` is stripped from the end of its
  stem, as often as it occurs; the rest is parsed as a `u64`. So `7.kvs.log`,
  `07.kvs.log`, `+7.kvs.log` and `7.kvs.kvs.log` all give log 7.
  - `open` opens log 7 by its canonical name `7.kvs.log`. It therefore fails
    with an I/O error when only `07.kvs.log` exists.
  - When several names give the same number, that log is replayed several
    times in a row, which rebuilds the same index (`ReplayIdempotent`).
  - `LogFileNameRoundTrip` shows that every canonical name parses back to
    its number.
- **No engine recorded yet.** With no recorded engine, `kvs-server` goes on
  and records the one chosen. An unreadable `kvs.engine` file is not
  modelled; see "Left out".

## Model

| member | source | states |
|---|---|---|
| CommandLog.LoadIndex | courses/rust/projects/project-2/src/lib.rs:110-144 | Reading a log record by record from offset 0 to its end produces the replay of the log onto the index. A `Set` points its key at (log, offset, length) and a `Remove` drops the key. |
| CommandLog.RecordAtIndex | courses/rust/projects/project-2/src/lib.rs:115-143 | The i-th record of a log is what decoding at the sum of the lengths of the records before it yields. |
| CommandLog.RecordAtAppend | courses/rust/projects/project-2/src/lib.rs:180-183 | Appending to a log leaves every record already in it readable at the same offset. |
| CommandLog.RecordAtEnd | courses/rust/projects/project-2/src/lib.rs:181-183 | A record appended to a log is read back at the old end of the log. The log grows by exactly the record's length. Replay reads the record last. |
| CommandLog.ReplaySound | courses/rust/projects/project-2/src/lib.rs:117-132 | Replaying a prefix of an open log keeps every index entry pointing at a `Set` record of its own key with its own length. |
| CommandLog.ReplayLogsSound | courses/rust/projects/project-2/src/lib.rs:158-163 | The index that `open` rebuilds from open logs points only at `Set` records of the right key and length. |
| CommandLog.ReplayIdempotent | courses/rust/projects/project-2/src/lib.rs:110-144 | Loading the same log twice in a row gives the index that loading it once gives. |
| CommandLog.ReplayLogsDedup | courses/rust/projects/project-2/src/lib.rs:93-108 | A log number listed several times in a row replays as if listed once. The listing without repeats names the same logs. |
| CommandLog.DedupIncreasing | courses/rust/projects/project-2/src/lib.rs:106 | The sorted list of log numbers without its repeats is strictly increasing. |
| CommandLog.ReplayLogsAppend | courses/rust/projects/project-2/src/lib.rs:179-201 | Appending a record to the last log changes the replayed index exactly as applying that record to it does, so the in-memory index after a write is what reopening rebuilds. |
| CommandLog.AppendKeepsValues | courses/rust/projects/project-2/src/lib.rs:224-237 | An append never moves a record the index points at. Every key keeps its value and the index stays sound. |
| LogFiles.LogFileName | courses/rust/projects/project-2/src/lib.rs:88-91 | The file of log `n` is named `<n>.kvs.log`, with `n` in decimal. `SplitLogFileName` and `LogFileNameRoundTrip` state what parsing makes of that name. |
| LogFiles.LogFileNameInjective | courses/rust/projects/project-2/src/lib.rs:88-91 | Different log numbers get different file names. |
| LogFiles.LogNumberOf | courses/rust/projects/project-2/src/lib.rs:97-102 | An entry is taken for a log only when it is a regular file whose extension is `log`. The number it gives fits in a `u64`. |
| LogFiles.Decimal | courses/rust/projects/project-2/src/lib.rs:88-91 | A log number is written as a non-empty string of decimal digits with no leading zero. |
| LogFiles.DecimalRoundTrip | courses/rust/projects/project-2/src/lib.rs:102 | Parsing the decimal form of a number gives the number back. |
| LogFiles.TrimKvsDigits | courses/rust/projects/project-2/src/lib.rs:101 | Trimming `.kvs` from the end of `<digits>.kvs` leaves exactly the digits. |
| LogFiles.SplitLogFileName | courses/rust/projects/project-2/src/lib.rs:97-101 | `<n>.kvs.log` splits into the stem `<n>.kvs` and the extension `log`. |
| LogFiles.LogFileNameRoundTrip | courses/rust/projects/project-2/src/lib.rs:88-108 | The log file of every `u64` log number is recognised as a log, with that number. |
| LogFiles.Insert | courses/rust/projects/project-2/src/lib.rs:106 | Inserting into an ascending list keeps it ascending and adds exactly that one element. |
| LogFiles.CountOneMore | courses/rust/projects/project-2/src/lib.rs:95-106 | Reading one more entry adds one to the count of entries taken for log `n` exactly when that entry is read as log `n`. |
| LogFiles.CollectOne | courses/rust/projects/project-2/src/lib.rs:95-106 | Reading one more directory entry inserts its number in order exactly when it is taken for a log. Each number occurs as often as there are entries read so far that give it. |
| LogFiles.CollectLogNumbers | courses/rust/projects/project-2/src/lib.rs:95-106 | The result is ascending, has one number per recognised name, and holds exactly the numbers the names parse to. Each number occurs as often as there are entries that give it. |
| LogFiles.GetLogNumbers | courses/rust/projects/project-2/src/lib.rs:93-108 | The directory's log numbers come back sorted ascending. There is one per regular file named `<stem>.log` whose stem, with `.kvs` trimmed, parses as a `u64`. Each number occurs as often as there are such files that give it. |
| LogKvStore.KvStore.Init | courses/rust/projects/project-2/src/lib.rs:168-175 | The store `open` returns is valid, holds what was loaded, and has its counter at 0. |
| LogKvStore.KvStore.Open | courses/rust/projects/project-2/src/lib.rs:150-176 | Of the failures the directory model can express, succeeds exactly when every listed log can be opened and the log to append to can be created; otherwise fails with an I/O error. The other I/O failures are under "Left out". The store holds `LogsIn(dir)`: the listed logs with their files' records, or an empty log 0 when none is listed. It appends to the highest log and starts with the counter at 0. |
| LogKvStore.ReadLogs | courses/rust/projects/project-2/src/lib.rs:158-163 | Of the failures the directory model can express, fails with an I/O error exactly when some listed log is missing or is not a file. Otherwise returns those logs and the index that replaying them in the listed order gives. |
| LogKvStore.OpenableLogs | courses/rust/projects/project-2/src/lib.rs:154-166 | Within the directory model, `open` gets through exactly when each listed number's canonical file is a regular file, and, with no logs at all, when nothing is in the way of a new `0.kvs.log`. |
| LogKvStore.ListedLogs | courses/rust/projects/project-2/src/lib.rs:154-166 | The logs `open` reads for the listed numbers, plus an empty log 0 when none is listed, are exactly `LogsIn(dir)`. |
| LogKvStore.OpenedConsistent | courses/rust/projects/project-3/src/engines/kvs.rs:108-134 | The state `open` builds satisfies the engine's invariant. Replaying the listed logs once each in ascending order gives the loaded index. |
| LogKvStore.KvStore.Set | courses/rust/projects/project-2/src/lib.rs:179-201 | The key now holds the value and every other key keeps its value. The key points at a record of the current log with the new record's length. Below the threshold, the record is appended at the end of the current log and the counter grows by the length of the record replaced. Over the threshold the store is compacted. The invariant is kept. |
| LogKvStore.KvStore.Get | courses/rust/projects/project-2/src/lib.rs:204-221 | Returns `Ok(Some(v))` when the store holds v for the key and `Ok(None)` when it holds nothing. It never fails on a valid store. |
| LogKvStore.KvStore.Remove | courses/rust/projects/project-2/src/lib.rs:224-237 | Succeeds exactly when the key holds a value, which it then drops, leaving the other keys alone. Otherwise fails with `KeyNotFound` and changes nothing. On success it appends `Remove(key)` and counts the dropped record's bytes, compacting over the threshold. |
| LogKvStore.KvStore.Compact | courses/rust/projects/project-2/src/lib.rs:239-268 | Keeps every key's value and record length. Afterwards only log `old + 1` exists, every key points into it, it holds exactly one record per key, and the counter is 0. |
| LogKvStore.CompactLogs | courses/rust/projects/project-2/src/lib.rs:240-262 | From a consistent state, the copy and the deletion leave only log `n + 1`, with the invariant kept. Every key keeps its value and record length and points into that log. The log holds exactly one record per key. |
| LogKvStore.AppendConsistent | courses/rust/projects/project-3/src/engines/kvs.rs:170-226 | Appending a command to the current log and applying it to the index keeps the invariant. The contents change by exactly that command, and the log grows by its length. |
| LogKvStore.AppendValues | courses/rust/projects/project-4/src/engines/kvs.rs:177-243 | Appending a command to an open log and applying it to the index keeps the index sound. The contents change by exactly the command's effect: a `Set` binds its key, a `Remove` drops it. |
| LogKvStore.CopyLiveRecords | courses/rust/projects/project-3/src/engines/kvs.rs:140-147 | Every live key is re-pointed at a copy of its record in the compaction log, with the same length, and no other key changes. The compaction log holds one record per key and replays to the new index. |
| LogKvStore.CopyAllProgress | courses/rust/projects/project-3/src/engines/kvs.rs:140-147 | Copying the records of distinct live keys, in any order, re-points exactly those keys at exact copies. |
| LogKvStore.CopyOne | courses/rust/projects/project-3/src/engines/kvs.rs:141-146 | One step of the copy loop. The key's record exists; copying it to the end of the compaction log keeps the earlier copies where they were. |
| LogKvStore.CopyOneCopied | courses/rust/projects/project-4/src/engines/kvs.rs:146-154 | After copying one more record, every key moved so far, and the new one, designates an exact copy of its old record, with the same length. |
| LogKvStore.CopyOneReplay | courses/rust/projects/project-4/src/engines/kvs.rs:146-154 | After copying one more record, replaying the compaction log gives the new positions of exactly the moved keys. |
| LogKvStore.DropStaleLogs | courses/rust/projects/project-3/src/engines/kvs.rs:149-160 | Deleting every log numbered below the compaction log leaves the compaction log alone. |
| LogKvStore.CompactedConsistent | courses/rust/projects/project-4/src/engines/kvs.rs:137-172 | After compaction the invariant holds with the compaction log as the only log, and the contents are unchanged. The same keys are indexed, each with its old length, in the compaction log, which holds exactly one record per key. |
| LogKvStore.CompactedValues | courses/rust/projects/project-4/src/engines/kvs.rs:146-154 | After the copy loop every key designates, in the compaction log, the record it designated before. |
| LogKvStore.SetThenGet | courses/rust/projects/project-3/src/engines/kvs.rs:170-210 | A `get` right after `set(key, value)` returns `Ok(Some(value))`, whether or not the write triggered a compaction. |
| LogKvStore.RemoveThenGet | courses/rust/projects/project-4/src/engines/kvs.rs:206-243 | After `remove` the key reads as absent and a second `remove` fails with `KeyNotFound`. The first succeeds exactly when the key held a value. |
| CommandLog.IncreasingUnique | courses/rust/projects/project-2/src/lib.rs:106 | Two strictly increasing lists of log numbers with the same elements are the same list. |
| LogKvStore.LogDirShape | courses/rust/projects/project-2/src/lib.rs:88-91 | The directory of some logs holds each log as its file `<n>.kvs.log` with that log's records, and nothing else. |
| LogKvStore.LogDirOpens | courses/rust/projects/project-2/src/lib.rs:150-176 | On a directory holding just the files of some `u64`-numbered logs, `open` gets through, lists exactly those logs and loads exactly them. |
| LogKvStore.LoadedLogs | courses/rust/projects/project-2/src/lib.rs:154-163 | When the parsing of names reads each file of a directory of logs as its own log, `open` loads exactly those logs. |
| LogKvStore.WriteLogs | courses/rust/projects/project-2/src/lib.rs:88-91 | The directory that holds each log as its own file can be opened, and `open` loads exactly those logs from it. |
| LogKvStore.SameLogsSameState | courses/rust/projects/project-2/src/lib.rs:150-176 | Two states satisfying the engine's invariant over the same logs have the same index, the same current log and the same replay order. |
| LogKvStore.Reopen | courses/rust/projects/project-2/src/lib.rs:150-176 | Crash recovery. Opening the directory of a valid store's logs succeeds. It gives back a valid store with the same logs, the same current log, the same index and so the same contents. |
| MemKvStore.KvStore.New | courses/rust/projects/project-1/src/lib.rs:8-12 | A new store holds no key. |
| MemKvStore.KvStore.Set | courses/rust/projects/project-1/src/lib.rs:14-16 | The key holds the value; every other key is unchanged. |
| MemKvStore.KvStore.Get | courses/rust/projects/project-1/src/lib.rs:19-21 | `Some(v)` exactly when the key holds v, `None` when it holds nothing. |
| MemKvStore.KvStore.Remove | courses/rust/projects/project-1/src/lib.rs:24-26 | The key holds nothing afterwards and every other key is unchanged. Removing an absent key changes nothing. |
| MemKvStore.SetGetRemove | courses/rust/projects/project-1/src/lib.rs:8-26 | On a fresh store: `get` before `set` gives `None`, then reads back the value set, then the overwriting value, then `None` after `remove`. |
| Protocol.ProcessRequest | courses/rust/projects/project-4/src/server.rs:62-77 | Each request calls the matching engine operation. Its success becomes that operation's `Ok` response and its error becomes `Err` with the error's text. |
| Protocol.InterpretGet | courses/rust/projects/project-4/src/client.rs:35-39 | `GetOk(v)` gives `Ok(v)` and `Err(msg)` gives `StringError(msg)`. Any other response gives `UnexpectedResponse`. |
| Protocol.InterpretSet | courses/rust/projects/project-4/src/client.rs:46-50 | `SetOk` gives `Ok(())` and `Err(msg)` gives `StringError(msg)`. Any other response gives `UnexpectedResponse`. |
| Protocol.InterpretRemove | courses/rust/projects/project-4/src/client.rs:57-61 | `RemoveOk` gives `Ok(())` and `Err(msg)` gives `StringError(msg)`. Any other response gives `UnexpectedResponse`. |
| Protocol.EndToEnd | courses/rust/projects/project-4/src/client.rs:31-62 | Through a server running `process_request`, each client operation returns what the engine returned. An engine error arrives as a `StringError` holding its text. |
| Protocol.MismatchedAnswer | courses/rust/projects/project-4/src/client.rs:35-39 | A response that answers a different operation is reported as `UnexpectedResponse`. |
| EngineSelection.Show | courses/rust/projects/project-3/src/bin/kvs_server.rs:29-36 | `Kvs` prints as `kvs` and `Sled` as `sled`, each in both directions. |
| EngineSelection.Parse | courses/rust/projects/project-3/src/bin/kvs_server.rs:53-63 | Exactly `kvs` and `sled` parse, to the engine printed as that text. Any other text fails with an error carrying it. |
| EngineSelection.ParseShow | courses/rust/projects/project-3/src/bin/kvs_server.rs:29-63 | Parsing an engine's printed name gives the engine back. |
| EngineSelection.CheckEngine | courses/rust/projects/project-3/src/bin/kvs_server.rs:95-115 | Startup exits with status 1 exactly when a different engine is recorded, and fails exactly when the record does not parse. Otherwise it goes on and records the chosen engine's name. |
| EngineSelection.RestartSameEngine | courses/rust/projects/project-3/src/bin/kvs_server.rs:98-115 | After a start with an engine, starting again with the same engine goes on and keeps the record. |
| EngineSelection.RestartOtherEngine | courses/rust/projects/project-3/src/bin/kvs_server.rs:98-113 | After a start with an engine, starting with another engine exits with status 1. |

## Left out

- Most I/O failures are not modelled, nor is `create_dir_all`. These include `fs::read_dir` failing in `get_log_numbers` (project-2/src/lib.rs:95) and directory entries that `read_dir` cannot read, which the source skips. They also include `File::open` failing on a regular log file (lib.rs:159), and read errors while loading a log (lib.rs:120, 137, 141). So `Open`, `ReadLogs` and `OpenableLogs` give the exact conditions only among the failures the directory model can express: a missing log, a directory in a log's place, and a directory in the way of the log to create. Failures of writes, flushes, seeks and file deletion are not modelled either. `Set` and `Remove` always reach their logical outcome. In particular, `remove` drops the index entry before it writes the `Remove` record. A failed write there would leave the index and the log disagreeing; the model does not capture this.
- Corrupt or truncated logs are not modelled: every log file is a well-formed sequence of records. Decode errors while loading, and the `Decode`/`IO` errors of `get` when a position does not hold a readable record, cannot occur in the model.
- LogKvStore.KvStore.Get: on an index position that does not decode, the model returns `Decode`. The source returns `IO` when the read starts at the end of the file, and panics when the log is not open. Neither can happen on a valid store.
- `u64` arithmetic is unbounded in the model: offsets, lengths, the byte counter and log numbers do not overflow. Log numbers read from file names are bounded by `u64::MAX`.
- MessagePack encoding is the opaque positive length function `size`; the bytes themselves are not modelled.
- Buffering (`BufReader`, `BufWriter`, `stream_position`) is not modelled: an appended record is readable at once.
- Locking in project-4: the `Arc<Mutex<…>>` fields and the lock order are not modelled. In the source, `set` and `remove` call `compact` while they still hold the `writer` lock (project-4/src/engines/kvs.rs:179 and 199; 230 and 237). `compact` then locks `writer` again (kvs.rs:141). `std::sync::Mutex` is not re-entrant, so a `set` or `remove` that reaches the threshold hangs or panics there. The model shows the intended behaviour: the compaction runs and the write completes.
- Networking is not modelled: the TCP plumbing of the server and client, the thread pools, the `sled` engine, command-line parsing, logging and the benchmarks. The server's engine is an abstract record of what its operations return. Its state change between requests is not modelled.
- Error text: the `Display` form of an error is the parameter `show`. The error type of project-4 is not part of this model.
- Non-UTF-8 file names are not modelled (`to_str` failing); names are strings.
- EngineSelection.CheckEngine: a failure to read an existing `kvs.engine` file, and to write it, is not modelled.
