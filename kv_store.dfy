/**
 * The log-structured engine `KvStore`.
 *
 * Every write appends a record to the current log and re-points the in-memory
 * index. `uncompactedBytes` starts at 0 when the store is opened and grows by
 * the length of the `Set` record that a `set` replaces or a `remove` drops
 * (the `Remove` records themselves are not counted). Once it goes over
 * `COMPACTION_THRESHOLD_BYTES` the live records are copied into a fresh log
 * and the older logs are deleted.
 */
module LogKvStore {
  import opened Wrappers
  import opened CommandLog
  import opened LogFiles
  import opened KvsErrors

  const COMPACTION_THRESHOLD_BYTES: nat := 1048576

  /**
   * The engine's invariant over its state: the current log is the
   * highest-numbered one, `order` lists the open logs in ascending order,
   * every index entry designates a `Set` record of its key, and the index is
   * what replaying the logs in that order rebuilds.
   */
  ghost predicate Consistent(size: Encoder, index: Index, logs: Logs, logNumber: nat, order: seq<nat>)
  {
    && logNumber in logs
    && (forall n :: n in logs ==> n <= logNumber)
    && Increasing(order)
    && (forall i :: 0 <= i < |order| ==> order[i] in logs)
    && (forall n :: n in logs ==> n in order)
    && |order| > 0 && order[|order| - 1] == logNumber
    && IndexSound(size, logs, index)
    && index == ReplayLogs(size, logs, order)
  }

  /** `open` can go through: every log it lists can be read, and the log to append to can be created. */
  ghost predicate CanOpen(dir: Dir)
  {
    && (forall name :: name in dir && LogNumberOf(name, dir[name]).Some? ==>
          var file := LogFileName(LogNumberOf(name, dir[name]).value);
          file in dir && dir[file].File?)
    && (LogNames(dir) == {} ==> LogFileName(0) !in dir)
  }

  /**
   * The logs `open` loads from `dir`, where `parse` reads file names as log
   * numbers: every listed log with its file's records, and an empty log 0
   * when nothing is listed.
   */
  ghost function LogsIn(dir: Dir, parse: (string, Entry) -> Option<nat>): Logs
  {
    var listed := LogNumbersIn(dir, parse, dir.Keys);
    map n | n in listed + (if LogNamesIn(dir, parse, dir.Keys) == {} then {0} else {}) ::
      if LogFileName(n) in dir && dir[LogFileName(n)].File? then dir[LogFileName(n)].records else []
  }

  class KvStore {
    /** Encoded length of each record (the MessagePack serializer's output size). */
    const size: Encoder
    var index: Index
    /** The log files, as the `readers` map holds them. The current log is `logs[logNumber]`. */
    var logs: Logs
    var logNumber: nat
    var uncompactedBytes: nat
    /** The order in which reopening the directory would replay the logs. */
    ghost var order: seq<nat>

    ghost predicate Valid()
      reads this
    {
      Consistent(size, index, logs, logNumber, order)
    }

    /** The key-value mapping the store holds. */
    ghost function Contents(): map<string, string>
      reads this
      requires Valid()
    {
      ValuesOf(size, logs, index)
    }

    /** State after a compaction that started from log `previous`. */
    ghost predicate Compacted(previous: nat)
      reads this
    {
      && logNumber == previous + 1
      && uncompactedBytes == 0
      && logs.Keys == {logNumber}
      && (forall k :: k in index ==> index[k].logNumber == logNumber)
    }

    /** The store `open` builds once the logs are loaded; the counter starts at 0. */
    constructor Init(size: Encoder, index: Index, logs: Logs, logNumber: nat, ghost order: seq<nat>)
      requires Consistent(size, index, logs, logNumber, order)
      ensures Valid()
      ensures this.size == size && this.index == index && this.logs == logs
      ensures this.logNumber == logNumber && this.uncompactedBytes == 0
    {
      this.size := size;
      this.index := index;
      this.logs := logs;
      this.logNumber := logNumber;
      this.uncompactedBytes := 0;
      this.order := order;
    }

    /**
     * `open`: lists the logs of the directory, replays them in ascending
     * order into a fresh index, and appends from then on to the
     * highest-numbered log, or to a new log 0 when there is none.
     */
    static method Open(size: Encoder, dir: Dir) returns (r: Result<KvStore, KvsError>)
      ensures r.Ok? <==> CanOpen(dir)
      ensures r.Err? ==> r.error == IO
      ensures r.Ok? ==> fresh(r.value) && r.value.Valid() && r.value.size == size
      ensures r.Ok? ==> r.value.uncompactedBytes == 0
      ensures r.Ok? ==> r.value.logs == LogsIn(dir, LogNumberOf)
      ensures r.Ok? ==> forall n :: n in r.value.logs ==> n <= r.value.logNumber
    {
      var numbers := GetLogNumbers(dir);
      OpenableLogs(dir, numbers);
      var loaded := ReadLogs(size, dir, numbers);
      if loaded.Err? {
        return Err(loaded.error);
      }
      var (index, logs) := loaded.value;
      var logNumber := if |numbers| > 0 then numbers[|numbers| - 1] else 0;
      if logNumber !in logs {
        // new_log_file creates the log to append to; it fails on a directory of that name
        if LogFileName(logNumber) in dir {
          return Err(IO);
        }
        logs := logs[logNumber := []];
      }
      ghost var order := OpenedConsistent(size, numbers, index, logs, logNumber);
      ListedLogs(dir, LogNumberOf, numbers, logs);
      var store := new KvStore.Init(size, index, logs, logNumber, order);
      r := Ok(store);
    }

    /**
     * `set`: appends `Set(key, value)` to the current log, points the key at
     * it, counts the bytes of the record it supersedes, and compacts once
     * the counter goes over the threshold.
     */
    method Set(key: string, value: string)
      requires Valid()
      modifies this
      ensures Valid()
      ensures Contents() == old(Contents())[key := value]
      ensures key in index && index[key].logNumber == logNumber && index[key].bytes == size(Command.Set(key, value))
      ensures var stale := old(uncompactedBytes) + (if key in old(index) then old(index[key].bytes) else 0);
        if stale > COMPACTION_THRESHOLD_BYTES then Compacted(old(logNumber))
        else
          && logNumber == old(logNumber)
          && uncompactedBytes == stale
          && logs == old(logs)[logNumber := old(logs[logNumber]) + [Command.Set(key, value)]]
          && index == old(index)[key := CommandPosition(logNumber, LogSize(size, old(logs[logNumber])), size(Command.Set(key, value)))]
    {
      var cmd := Command.Set(key, value);
      var offset := LogSize(size, logs[logNumber]);
      AppendConsistent(size, index, logs, logNumber, order, cmd);
      ghost var index' := Apply(size, index, logNumber, LogSize(size, logs[logNumber]), cmd);
      logs := logs[logNumber := logs[logNumber] + [cmd]];
      var bytes := LogSize(size, logs[logNumber]) - offset;
      assert bytes == size(cmd);
      var previous := if key in index then Some(index[key]) else None;
      index := index[key := CommandPosition(logNumber, offset, bytes)];
      assert index == index';
      assert Consistent(size, index, logs, logNumber, order);
      if previous.Some? {
        uncompactedBytes := uncompactedBytes + previous.value.bytes;
      }
      if uncompactedBytes > COMPACTION_THRESHOLD_BYTES {
        Compact();
      }
    }

    /**
     * `get`: looks the key up in the index and reads the record at the
     * position found there.
     */
    method Get(key: string) returns (r: Result<Option<string>, KvsError>)
      requires Valid()
      ensures r == Ok(if key in Contents() then Some(Contents()[key]) else None)
    {
      if key in index {
        var pos := index[key];
        match Lookup(size, logs, pos) {
          case Some(Set(_, value)) => r := Ok(Some(value));
          case Some(Remove(_)) => r := Err(UnexpectedCommand);
          case None => r := Err(Decode);
        }
      } else {
        r := Ok(None);
      }
    }

    /**
     * `remove`: fails with `KeyNotFound` when the key is not indexed;
     * otherwise drops the index entry, appends `Remove(key)`, counts the
     * bytes of the dropped entry and compacts once the counter goes over the
     * threshold.
     */
    method Remove(key: string) returns (r: Result<(), KvsError>)
      requires Valid()
      modifies this
      ensures Valid()
      ensures r.Ok? <==> key in old(Contents())
      ensures r.Err? ==> r.error == KeyNotFound
      ensures r.Err? ==> index == old(index) && logs == old(logs) && logNumber == old(logNumber) && uncompactedBytes == old(uncompactedBytes)
      ensures r.Ok? ==> Contents() == old(Contents()) - {key}
      ensures r.Ok? ==>
        var stale := old(uncompactedBytes) + old(index[key].bytes);
        if stale > COMPACTION_THRESHOLD_BYTES then Compacted(old(logNumber))
        else
          && logNumber == old(logNumber)
          && uncompactedBytes == stale
          && logs == old(logs)[logNumber := old(logs[logNumber]) + [Command.Remove(key)]]
          && index == old(index) - {key}
    {
      if key !in index {
        return Err(KeyNotFound);
      }
      var removed := index[key];
      var cmd := Command.Remove(key);
      AppendConsistent(size, index, logs, logNumber, order, cmd);
      index := index - {key};
      logs := logs[logNumber := logs[logNumber] + [cmd]];
      uncompactedBytes := uncompactedBytes + removed.bytes;
      if uncompactedBytes > COMPACTION_THRESHOLD_BYTES {
        Compact();
      }
      r := Ok(());
    }

    /**
     * `compact`: opens log `logNumber + 1`, copies the record of every live
     * key into it (in no particular order) and re-points the key there,
     * deletes every log with a smaller number and zeroes the counter.
     */
    method Compact()
      requires Valid()
      modifies this
      ensures Valid()
      ensures Compacted(old(logNumber))
      ensures Contents() == old(Contents())
      ensures index.Keys == old(index.Keys)
      ensures forall k :: k in index ==> index[k].bytes == old(index[k].bytes)
      ensures |logs[logNumber]| == |index|
    {
      var n := logNumber + 1;
      var newLogs, newIndex := CompactLogs(size, logs, index, logNumber, order);
      logNumber := n;
      logs := newLogs;
      index := newIndex;
      uncompactedBytes := 0;
      order := [n];
    }
  }

  // ---------------------------------------------------------------------
  // Open

  /**
   * The loop of `open`: opens the log file of every listed number in turn
   * and loads its records into the index; fails as soon as one of them is
   * missing or is not a regular file.
   */
  method ReadLogs(size: Encoder, dir: Dir, numbers: seq<nat>) returns (r: Result<(Index, Logs), KvsError>)
    ensures r.Ok? <==> forall j :: 0 <= j < |numbers| ==> LogFileName(numbers[j]) in dir && dir[LogFileName(numbers[j])].File?
    ensures r.Err? ==> r.error == IO
    ensures r.Ok? ==> var (index, logs) := r.value;
      && (forall n :: n in logs <==> n in numbers)
      && (forall n :: n in logs ==> logs[n] == dir[LogFileName(n)].records)
      && index == ReplayLogs(size, logs, numbers)
  {
    var index: Index := map[];
    var logs: Logs := map[];
    var i := 0;
    while i < |numbers|
      invariant 0 <= i <= |numbers|
      invariant forall n :: n in logs <==> n in numbers[..i]
      invariant forall n :: n in logs ==> LogFileName(n) in dir && dir[LogFileName(n)].File? && logs[n] == dir[LogFileName(n)].records
      invariant index == ReplayLogs(size, logs, numbers[..i])
    {
      var n := numbers[i];
      var name := LogFileName(n);
      if name !in dir || !dir[name].File? {
        // File::open, or reading what it opened, fails
        return Err(IO);
      }
      var records := dir[name].records;
      ReplayLogsFrame(size, logs, logs[n := records], numbers[..i]);
      assert numbers[..i + 1][..i] == numbers[..i];
      index := LoadIndex(size, n, index, records);
      logs := logs[n := records];
      i := i + 1;
    }
    assert numbers[..i] == numbers;
    r := Ok((index, logs));
  }

  /** Whether `open` gets through depends only on the listed logs and on the log it would create. */
  lemma OpenableLogs(dir: Dir, numbers: seq<nat>)
    requires forall n :: n in numbers <==> exists name :: name in dir && LogNumberOf(name, dir[name]) == Some(n)
    requires |numbers| == |LogNames(dir)|
    ensures CanOpen(dir) <==>
      && (forall j :: 0 <= j < |numbers| ==> LogFileName(numbers[j]) in dir && dir[LogFileName(numbers[j])].File?)
      && (numbers == [] ==> LogFileName(0) !in dir)
    ensures forall n :: n in numbers <==> n in LogNumbersIn(dir, LogNumberOf, dir.Keys)
    ensures numbers == [] <==> LogNames(dir) == {}
  {
    assert numbers == [] <==> LogNames(dir) == {} by {
      if numbers != [] {
        assert numbers[0] in numbers;
        var name :| name in dir && LogNumberOf(name, dir[name]) == Some(numbers[0]);
        assert name in LogNames(dir);
      }
    }
    var listed := forall j :: 0 <= j < |numbers| ==> LogFileName(numbers[j]) in dir && dir[LogFileName(numbers[j])].File?;
    var parsed := forall name :: name in dir && LogNumberOf(name, dir[name]).Some? ==>
      var file := LogFileName(LogNumberOf(name, dir[name]).value);
      file in dir && dir[file].File?;
    assert listed <==> parsed by {
      if listed {
        forall name | name in dir && LogNumberOf(name, dir[name]).Some?
          ensures LogFileName(LogNumberOf(name, dir[name]).value) in dir
          ensures dir[LogFileName(LogNumberOf(name, dir[name]).value)].File?
        {
          var n := LogNumberOf(name, dir[name]).value;
          assert n in numbers;
          var j :| 0 <= j < |numbers| && numbers[j] == n;
        }
      }
      if parsed {
        forall j | 0 <= j < |numbers|
          ensures LogFileName(numbers[j]) in dir && dir[LogFileName(numbers[j])].File?
        {
          assert numbers[j] in numbers;
          var name :| name in dir && LogNumberOf(name, dir[name]) == Some(numbers[j]);
        }
      }
    }
    if numbers == [] && LogFileName(0) in dir && dir[LogFileName(0)].File? {
      LogFileNameRoundTrip(0, dir[LogFileName(0)].records);
      assert LogFileName(0) in LogNames(dir);
    }
  }

  /** The logs `open` reads for the listed numbers, with an empty log 0 when none is listed, are `LogsIn(dir, parse)`. */
  lemma ListedLogs(dir: Dir, parse: (string, Entry) -> Option<nat>, numbers: seq<nat>, logs: Logs)
    requires forall n :: n in numbers <==> n in LogNumbersIn(dir, parse, dir.Keys)
    requires numbers == [] <==> LogNamesIn(dir, parse, dir.Keys) == {}
    requires forall n :: n in logs <==> n in numbers || (numbers == [] && n == 0)
    requires forall n :: n in numbers ==> LogFileName(n) in dir && dir[LogFileName(n)].File? && logs[n] == dir[LogFileName(n)].records
    requires numbers == [] ==> LogFileName(0) !in dir && logs[0] == []
    ensures logs == LogsIn(dir, parse)
  {
    SameEntries(logs, LogsIn(dir, parse));
  }

  /** The state `open` builds is consistent: replaying the listed logs, each once, in ascending order. */
  lemma OpenedConsistent(size: Encoder, numbers: seq<nat>, index: Index, logs: Logs, logNumber: nat) returns (order: seq<nat>)
    requires Ascending(numbers)
    requires forall n :: n in logs <==> n in numbers || (numbers == [] && n == 0)
    requires numbers == [] ==> logs[0] == []
    requires index == ReplayLogs(size, logs, numbers)
    requires logNumber == if |numbers| > 0 then numbers[|numbers| - 1] else 0
    ensures Consistent(size, index, logs, logNumber, order)
  {
    if |numbers| > 0 {
      order := Dedup(numbers);
      ReplayLogsDedup(size, logs, numbers);
      DedupIncreasing(numbers);
      forall n | n in logs ensures n <= logNumber {
        var j :| 0 <= j < |numbers| && numbers[j] == n;
      }
    } else {
      order := [0];
      assert [0][..0] == [];
    }
    ReplayLogsSound(size, logs, order);
  }


  // ---------------------------------------------------------------------
  // Set and remove

  /** Appending a record to the current log and applying it to the index keeps the engine consistent. */
  lemma AppendConsistent(size: Encoder, index: Index, logs: Logs, logNumber: nat, order: seq<nat>, cmd: Command)
    requires Consistent(size, index, logs, logNumber, order)
    ensures var logs' := logs[logNumber := logs[logNumber] + [cmd]];
      var index' := Apply(size, index, logNumber, LogSize(size, logs[logNumber]), cmd);
      && Consistent(size, index', logs', logNumber, order)
      && ValuesOf(size, logs', index') == Effect(ValuesOf(size, logs, index), cmd)
      && LogSize(size, logs'[logNumber]) == LogSize(size, logs[logNumber]) + size(cmd)
  {
    var logs' := logs[logNumber := logs[logNumber] + [cmd]];
    ReplayLogsAppend(size, logs, order, cmd);
    ReplayLogsSound(size, logs', order);
    RecordAtEnd(size, logs[logNumber], cmd);
    AppendValues(size, index, logs, logNumber, cmd);
  }

  /** Appending a record to an open log and applying it to the index changes the contents by that record's effect. */
  lemma AppendValues(size: Encoder, index: Index, logs: Logs, logNumber: nat, cmd: Command)
    requires IndexSound(size, logs, index) && logNumber in logs
    ensures var logs' := logs[logNumber := logs[logNumber] + [cmd]];
      var index' := Apply(size, index, logNumber, LogSize(size, logs[logNumber]), cmd);
      && IndexSound(size, logs', index')
      && ValuesOf(size, logs', index') == Effect(ValuesOf(size, logs, index), cmd)
  {
    var logs' := logs[logNumber := logs[logNumber] + [cmd]];
    var index' := Apply(size, index, logNumber, LogSize(size, logs[logNumber]), cmd);
    AppendKeepsValues(size, logs, index, logNumber, cmd);
    RecordAtEnd(size, logs[logNumber], cmd);
    var before := ValuesOf(size, logs, index);
    var after := ValuesOf(size, logs', index');
    forall k ensures (k in after <==> k in Effect(before, cmd)) && (k in after ==> after[k] == Effect(before, cmd)[k]) {
      if k in after && k != cmd.key {
        assert index'[k] == index[k];
      }
    }
  }


  // ---------------------------------------------------------------------
  // Compact

  /**
   * The copy loop of `compact`: visits the live keys in no particular order,
   * appends the record each one designates to the compaction log `n` and
   * re-points the key at the copy.
   */
  method CopyLiveRecords(size: Encoder, logs: Logs, index: Index, n: nat) returns (compacted: seq<Command>, newIndex: Index)
    requires IndexSound(size, logs, index)
    ensures CopyProgress(size, logs, index, n, compacted, newIndex, index.Keys)
  {
    compacted := [];
    newIndex := index;
    var pending := index.Keys;
    ghost var visited: seq<string> := [];
    while pending != {}
      invariant Visiting(index, pending, visited)
      invariant (compacted, newIndex) == CopyAll(size, logs, index, n, visited)
      decreases pending
    {
      var k :| k in pending;
      VisitOne(index, pending, visited, k);
      assert (visited + [k])[..|visited|] == visited;
      var pos := index[k];
      var record := Lookup(size, logs, pos).value;
      var offset := LogSize(size, compacted);
      compacted := compacted + [record];
      newIndex := newIndex[k := CommandPosition(n, offset, pos.bytes)];
      pending := pending - {k};
      visited := visited + [k];
    }
    CopyAllProgress(size, logs, index, n, visited);
    assert (set i | 0 <= i < |visited| :: visited[i]) == index.Keys;
  }

  /** The keys the copy loop has visited, each once, and those it has still to visit: together the live keys. */
  ghost predicate Visiting(index: Index, pending: set<string>, visited: seq<string>)
  {
    && pending <= index.Keys
    && (forall i :: 0 <= i < |visited| ==> visited[i] in index && visited[i] !in pending)
    && (forall k :: k in index ==> k in pending || k in visited)
    && Distinct(visited)
  }

  /** Visiting one more pending key keeps the split between visited and pending keys. */
  lemma VisitOne(index: Index, pending: set<string>, visited: seq<string>, k: string)
    requires Visiting(index, pending, visited) && k in pending
    ensures Visiting(index, pending - {k}, visited + [k])
  {
  }

  /** No key occurs twice. */
  predicate Distinct(keys: seq<string>)
  {
    forall i, j :: 0 <= i < j < |keys| ==> keys[i] != keys[j]
  }

  /**
   * The compaction log and the re-pointed index once the records of `keys`
   * are copied, in that order: each record goes at the end of the log.
   */
  function CopyAll(size: Encoder, logs: Logs, index: Index, n: nat, keys: seq<string>): (seq<Command>, Index)
    requires IndexSound(size, logs, index)
    requires forall i :: 0 <= i < |keys| ==> keys[i] in index
  {
    if keys == [] then ([], index)
    else
      var (compacted, newIndex) := CopyAll(size, logs, index, n, keys[..|keys| - 1]);
      var k := keys[|keys| - 1];
      (compacted + [Lookup(size, logs, index[k]).value], newIndex[k := CommandPosition(n, LogSize(size, compacted), index[k].bytes)])
  }

  /** Copying distinct live keys makes progress as the copy loop requires. */
  lemma {:induction false} CopyAllProgress(size: Encoder, logs: Logs, index: Index, n: nat, keys: seq<string>)
    requires IndexSound(size, logs, index)
    requires forall i :: 0 <= i < |keys| ==> keys[i] in index
    requires Distinct(keys)
    ensures var (compacted, newIndex) := CopyAll(size, logs, index, n, keys);
      CopyProgress(size, logs, index, n, compacted, newIndex, set i | 0 <= i < |keys| :: keys[i])
    decreases |keys|
  {
    if keys == [] {
      assert Restrict(index, {}) == map[];
    } else {
      var init := keys[..|keys| - 1];
      var k := keys[|keys| - 1];
      var moved := set i | 0 <= i < |init| :: init[i];
      assert (set i | 0 <= i < |keys| :: keys[i]) == moved + {k};
      assert k !in moved;
      CopyAllProgress(size, logs, index, n, init);
      var (compacted, newIndex) := CopyAll(size, logs, index, n, init);
      CopyOne(size, logs, index, n, compacted, newIndex, moved, k);
    }
  }

  /** Key `k` has been moved to the compaction log: it designates there the record it designated before. */
  ghost predicate Copied(size: Encoder, logs: Logs, index: Index, n: nat, compacted: seq<Command>, newIndex: Index, k: string)
    requires k in index && k in newIndex
  {
    && newIndex[k].logNumber == n
    && newIndex[k].bytes == index[k].bytes
    && RecordAt(size, compacted, newIndex[k].offset) == Lookup(size, logs, index[k])
  }

  /** The entries of the index for the given keys only. */
  function Restrict(index: Index, keys: set<string>): Index
  {
    map k | k in index && k in keys :: index[k]
  }

  /**
   * Where the copy loop of `compact` stands once the keys `moved` are copied:
   * those keys are re-pointed at their copies, the others are untouched, and
   * the compaction log replays to the entries of the moved keys.
   */
  ghost predicate CopyProgress(size: Encoder, logs: Logs, index: Index, n: nat, compacted: seq<Command>, newIndex: Index, moved: set<string>)
  {
    && moved <= index.Keys && newIndex.Keys == index.Keys
    && (forall k :: k in index && k !in moved ==> newIndex[k] == index[k])
    && (forall k :: k in moved ==> Copied(size, logs, index, n, compacted, newIndex, k))
    && Restrict(newIndex, moved) == Replay(size, n, map[], compacted)
    && |compacted| == |moved|
  }

  /** One step of the copy loop of `compact`. */
  lemma CopyOne(size: Encoder, logs: Logs, index: Index, n: nat, compacted: seq<Command>, newIndex: Index, moved: set<string>, k: string)
    requires IndexSound(size, logs, index)
    requires CopyProgress(size, logs, index, n, compacted, newIndex, moved)
    requires k in index && k !in moved
    ensures newIndex[k] == index[k] && Lookup(size, logs, index[k]).Some?
    ensures var record := Lookup(size, logs, index[k]).value;
      var newIndex' := newIndex[k := CommandPosition(n, LogSize(size, compacted), index[k].bytes)];
      CopyProgress(size, logs, index, n, compacted + [record], newIndex', moved + {k})
  {
    CopyOneCopied(size, logs, index, n, compacted, newIndex, moved, k);
    CopyOneReplay(size, logs, index, n, compacted, newIndex, moved, k);
  }

  /** Copying one more record keeps every key moved so far designating its copy, and adds the new key. */
  lemma CopyOneCopied(size: Encoder, logs: Logs, index: Index, n: nat, compacted: seq<Command>, newIndex: Index, moved: set<string>, k: string)
    requires IndexSound(size, logs, index)
    requires CopyProgress(size, logs, index, n, compacted, newIndex, moved)
    requires k in index && k !in moved
    ensures Lookup(size, logs, index[k]).Some?
    ensures var record := Lookup(size, logs, index[k]).value;
      var newIndex' := newIndex[k := CommandPosition(n, LogSize(size, compacted), index[k].bytes)];
      forall j :: j in moved + {k} ==> Copied(size, logs, index, n, compacted + [record], newIndex', j)
  {
    var record := Lookup(size, logs, index[k]).value;
    var newIndex' := newIndex[k := CommandPosition(n, LogSize(size, compacted), index[k].bytes)];
    RecordAtEnd(size, compacted, record);
    forall j | j in moved ensures Copied(size, logs, index, n, compacted + [record], newIndex', j) {
      RecordAtAppend(size, compacted, [record], newIndex[j].offset);
    }
  }

  /** Copying one more record keeps the compaction log replaying to the entries of the moved keys. */
  lemma CopyOneReplay(size: Encoder, logs: Logs, index: Index, n: nat, compacted: seq<Command>, newIndex: Index, moved: set<string>, k: string)
    requires IndexSound(size, logs, index)
    requires CopyProgress(size, logs, index, n, compacted, newIndex, moved)
    requires k in index && k !in moved
    ensures Lookup(size, logs, index[k]).Some?
    ensures var record := Lookup(size, logs, index[k]).value;
      var newIndex' := newIndex[k := CommandPosition(n, LogSize(size, compacted), index[k].bytes)];
      Restrict(newIndex', moved + {k}) == Replay(size, n, map[], compacted + [record])
  {
    var record := Lookup(size, logs, index[k]).value;
    var newIndex' := newIndex[k := CommandPosition(n, LogSize(size, compacted), index[k].bytes)];
    RecordAtEnd(size, compacted, record);
    assert Restrict(newIndex', moved + {k}) == Restrict(newIndex, moved)[k := newIndex'[k]];
  }

  /** The deletion loop of `compact`: drops every log numbered below `n`, the compaction log. */
  method DropStaleLogs(readers: Logs, n: nat) returns (r: Logs)
    requires n in readers && forall m :: m in readers ==> m <= n
    ensures r == map[n := readers[n]]
  {
    r := readers;
    var stale := set m | m in r && m < n;
    while stale != {}
      invariant stale <= r.Keys && n in r && r[n] == readers[n]
      invariant forall m :: m in r ==> m in stale || m == n
      decreases stale
    {
      var m :| m in stale;
      r := r - {m};
      stale := stale - {m};
    }
    assert r.Keys == {n};
  }

  /**
   * `compact` on the logs and the index: copies the live records into log
   * `logNumber + 1` and drops every other log.
   */
  method CompactLogs(size: Encoder, logs: Logs, index: Index, logNumber: nat, ghost order: seq<nat>) returns (newLogs: Logs, newIndex: Index)
    requires Consistent(size, index, logs, logNumber, order)
    ensures Consistent(size, newIndex, newLogs, logNumber + 1, [logNumber + 1])
    ensures newLogs.Keys == {logNumber + 1}
    ensures ValuesOf(size, newLogs, newIndex) == ValuesOf(size, logs, index)
    ensures newIndex.Keys == index.Keys
    ensures forall k :: k in newIndex ==> newIndex[k].logNumber == logNumber + 1 && newIndex[k].bytes == index[k].bytes
    ensures |newLogs[logNumber + 1]| == |newIndex|
  {
    var n := logNumber + 1;
    var compacted;
    compacted, newIndex := CopyLiveRecords(size, logs, index, n);
    newLogs := DropStaleLogs(logs[n := compacted], n);
    assert newLogs == map[n := compacted];
    CompactedConsistent(size, logs, index, n, compacted, newIndex);
  }

  /** The state `compact` leaves: only the compaction log, and every key re-pointed into it. */
  lemma CompactedConsistent(size: Encoder, logs: Logs, index: Index, n: nat, compacted: seq<Command>, newIndex: Index)
    requires IndexSound(size, logs, index)
    requires CopyProgress(size, logs, index, n, compacted, newIndex, index.Keys)
    ensures Consistent(size, newIndex, map[n := compacted], n, [n])
    ensures ValuesOf(size, map[n := compacted], newIndex) == ValuesOf(size, logs, index)
    ensures newIndex.Keys == index.Keys
    ensures forall k :: k in newIndex ==> newIndex[k].logNumber == n && newIndex[k].bytes == index[k].bytes
    ensures |compacted| == |newIndex|
  {
    forall k | k in newIndex ensures newIndex[k].logNumber == n && newIndex[k].bytes == index[k].bytes {
      assert Copied(size, logs, index, n, compacted, newIndex, k);
    }
    CompactedValues(size, logs, index, n, compacted, newIndex);
    assert newIndex == ReplayLogs(size, map[n := compacted], [n]) by {
      assert newIndex == Restrict(newIndex, index.Keys);
      assert [n][..0] == [];
    }
  }

  /** After the copy loop every key designates, in the compaction log, the record it designated before. */
  lemma CompactedValues(size: Encoder, logs: Logs, index: Index, n: nat, compacted: seq<Command>, newIndex: Index)
    requires IndexSound(size, logs, index)
    requires CopyProgress(size, logs, index, n, compacted, newIndex, index.Keys)
    ensures IndexSound(size, map[n := compacted], newIndex)
    ensures ValuesOf(size, map[n := compacted], newIndex) == ValuesOf(size, logs, index)
  {
    var logs' := map[n := compacted];
    forall k | k in newIndex ensures Lookup(size, logs', newIndex[k]) == Lookup(size, logs, index[k]) {
      assert Copied(size, logs, index, n, compacted, newIndex, k);
    }
  }


  // ---------------------------------------------------------------------
  // Calls in sequence

  /** A value set is read back by `get`, whether or not the write triggered a compaction. */
  method SetThenGet(store: KvStore, key: string, value: string) returns (r: Result<Option<string>, KvsError>)
    requires store.Valid()
    modifies store
    ensures r == Ok(Some(value))
  {
    store.Set(key, value);
    r := store.Get(key);
  }

  /** After a successful `remove` the key reads as absent; removing it again fails with `KeyNotFound`. */
  method RemoveThenGet(store: KvStore, key: string) returns (removed: Result<(), KvsError>, r: Result<Option<string>, KvsError>, again: Result<(), KvsError>)
    requires store.Valid()
    modifies store
    ensures removed.Ok? <==> key in old(store.Contents())
    ensures r == Ok(None)
    ensures again == Err(KeyNotFound)
  {
    removed := store.Remove(key);
    r := store.Get(key);
    again := store.Remove(key);
  }


  // ---------------------------------------------------------------------
  // Reopening

  /**
   * The files the engine's writes leave behind: each log of `logs` in its
   * own file `<n>.kvs.log` of an otherwise empty directory, the image
   * `LogDir`. `open` gets through on that directory and loads those logs.
   */
  method WriteLogs(logs: Logs) returns (dir: Dir)
    requires logs != map[]
    requires forall n :: n in logs ==> n <= U64_MAX
    ensures CanOpen(dir)
    ensures LogsIn(dir, LogNumberOf) == logs
  {
    dir := LogDir(logs);
    LogDirShape(logs);
    LogDirOpens(logs, dir);
  }

  /** The directory of `logs`: each log as its file `<n>.kvs.log`. */
  function LogDir(logs: Logs): Dir
  {
    LogFileNameInjective();
    map n | n in logs :: LogFileName(n) := File(logs[n])
  }

  /** The directory of `logs` holds each log as its own file, and nothing else. */
  lemma LogDirShape(logs: Logs)
    ensures forall n :: LogFileName(n) in LogDir(logs) <==> n in logs
    ensures forall n :: n in logs ==> LogDir(logs)[LogFileName(n)] == File(logs[n])
    ensures forall name :: name in LogDir(logs) ==> exists n :: n in logs && name == LogFileName(n)
  {
    LogFileNameInjective();
  }

  /** `open` gets through on a directory holding just the files of some logs, lists exactly those logs and loads them. */
  lemma LogDirOpens(logs: Logs, dir: Dir)
    requires logs != map[]
    requires forall n :: n in logs ==> n <= U64_MAX
    requires forall n :: LogFileName(n) in dir <==> n in logs
    requires forall n :: n in logs ==> dir[LogFileName(n)] == File(logs[n])
    requires forall name :: name in dir ==> exists n :: n in logs && name == LogFileName(n)
    ensures CanOpen(dir)
    ensures forall n :: n in LogNumbersIn(dir, LogNumberOf, dir.Keys) <==> n in logs
    ensures LogNamesIn(dir, LogNumberOf, dir.Keys) != {}
    ensures LogsIn(dir, LogNumberOf) == logs
  {
    forall name | name in dir ensures LogNumberOf(name, dir[name]).Some? && LogFileName(LogNumberOf(name, dir[name]).value) == name {
      var n :| n in logs && name == LogFileName(n);
      LogFileNameRoundTrip(n, logs[n]);
    }
    forall n | n in logs ensures n in LogNumbersIn(dir, LogNumberOf, dir.Keys) {
      LogFileNameRoundTrip(n, logs[n]);
      assert LogFileName(n) in dir.Keys;
    }
    var n :| n in logs;
    LogFileNameRoundTrip(n, logs[n]);
    assert LogFileName(n) in LogNamesIn(dir, LogNumberOf, dir.Keys);
    LoadedLogs(logs, dir, LogNumberOf);
  }

  /**
   * What `open` loads from a directory holding just the files of some logs
   * is those logs, as long as `parse` reads each of those files as its own
   * log.
   */
  lemma LoadedLogs(logs: Logs, dir: Dir, parse: (string, Entry) -> Option<nat>)
    requires forall n :: LogFileName(n) in dir <==> n in logs
    requires forall n :: n in logs ==> dir[LogFileName(n)] == File(logs[n])
    requires forall n :: n in LogNumbersIn(dir, parse, dir.Keys) <==> n in logs
    requires LogNamesIn(dir, parse, dir.Keys) != {}
    ensures LogsIn(dir, parse) == logs
  {
    var loaded := LogsIn(dir, parse);
    forall n | n in loaded ensures loaded[n] == logs[n] {
      assert LogFileName(n) in dir;
    }
    SameEntries(loaded, logs);
  }

  /** Two maps with the same keys and the same value at each key are equal. */
  lemma SameEntries(m: Logs, m': Logs)
    requires forall n :: n in m <==> n in m'
    requires forall n :: n in m ==> m[n] == m'[n]
    ensures m == m'
  {
  }

  /** Two consistent states over the same logs have the same index and the same current log. */
  lemma SameLogsSameState(size: Encoder, logs: Logs, index: Index, logNumber: nat, order: seq<nat>, index': Index, logNumber': nat, order': seq<nat>)
    requires Consistent(size, index, logs, logNumber, order)
    requires Consistent(size, index', logs, logNumber', order')
    ensures index' == index && logNumber' == logNumber && order' == order
  {
    IncreasingUnique(order', order);
  }

  /**
   * Crash recovery: opening a directory that holds exactly the log files of
   * a store rebuilds the same logs, the same current log and the same index,
   * hence the same contents.
   */
  method Reopen(store: KvStore) returns (r: Result<KvStore, KvsError>)
    requires store.Valid()
    requires forall n :: n in store.logs ==> n <= U64_MAX
    ensures r.Ok? && r.value.Valid()
    ensures r.value.logs == store.logs && r.value.logNumber == store.logNumber && r.value.index == store.index
    ensures r.value.Contents() == store.Contents()
  {
    var dir := WriteLogs(store.logs);
    r := KvStore.Open(store.size, dir);
    var reopened := r.value;
    SameLogsSameState(store.size, store.logs, store.index, store.logNumber, store.order, reopened.index, reopened.logNumber, reopened.order);
  }
}
