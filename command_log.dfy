/**
 * The contents of the engine's log files and what replaying them means.
 *
 * A log file is a sequence of serialized `Command`s written back to back.
 * Serialization itself is outside the model: `Encoder` gives each record's
 * encoded length, an arbitrary positive number, and a record's byte offset is
 * the sum of the lengths of the records before it.
 */
module CommandLog {
  import opened Wrappers

  /** A record of a log file: `Command::Set(key, value)` or `Command::Remove(key)`. */
  datatype Command = Set(key: string, value: string) | Remove(key: string)

  /** `CommandPosition`: the log a record is in, its byte offset and its encoded length. */
  datatype CommandPosition = CommandPosition(logNumber: nat, offset: nat, bytes: nat)

  type Pos = n: nat | n > 0 witness 1

  /** The length in bytes of a record once serialized. */
  type Encoder = Command -> Pos

  /** The in-memory index: key to the position of its latest `Set` record. */
  type Index = map<string, CommandPosition>

  /** The log files that are open for reading, by log number. */
  type Logs = map<nat, seq<Command>>

  /** Size in bytes of a log file: where the next record will be appended. */
  function LogSize(size: Encoder, log: seq<Command>): nat
  {
    if log == [] then 0 else LogSize(size, log[..|log| - 1]) + size(log[|log| - 1])
  }

  /** Deserializing at a byte offset: the record that starts there, if any. */
  function RecordAt(size: Encoder, log: seq<Command>, offset: nat): Option<Command>
  {
    if log == [] then None
    else if offset == LogSize(size, log[..|log| - 1]) then Some(log[|log| - 1])
    else RecordAt(size, log[..|log| - 1], offset)
  }

  /** The record a position designates, if its log is open and a record starts there. */
  function Lookup(size: Encoder, logs: Logs, p: CommandPosition): Option<Command>
  {
    if p.logNumber in logs then RecordAt(size, logs[p.logNumber], p.offset) else None
  }

  /** `p` designates a `Set` record for key `k` whose length is `p.bytes`. */
  predicate PointsToSet(size: Encoder, logs: Logs, k: string, p: CommandPosition)
  {
    var r := Lookup(size, logs, p);
    r.Some? && r.value.Set? && r.value.key == k && size(r.value) == p.bytes
  }

  /** Every index entry designates a `Set` record of its own key. */
  predicate IndexSound(size: Encoder, logs: Logs, index: Index)
  {
    forall k :: k in index ==> PointsToSet(size, logs, k, index[k])
  }

  /**
   * Replaying one log (`load_index`): records are read in order, each one
   * starting where the previous one ended; a `Set` re-points its key at the
   * record, a `Remove` drops its key.
   */
  function Replay(size: Encoder, logNumber: nat, index: Index, log: seq<Command>): Index
  {
    if log == [] then index
    else
      var before := log[..|log| - 1];
      Apply(size, Replay(size, logNumber, index, before), logNumber, LogSize(size, before), log[|log| - 1])
  }

  /** What reading one record at `offset` of log `logNumber` does to the index. */
  function Apply(size: Encoder, index: Index, logNumber: nat, offset: nat, cmd: Command): Index
  {
    match cmd
    case Set(k, _) => index[k := CommandPosition(logNumber, offset, size(cmd))]
    case Remove(k) => index - {k}
  }

  /** What a record does to the key-value mapping the index stands for. */
  function Effect(values: map<string, string>, cmd: Command): map<string, string>
  {
    match cmd
    case Set(k, v) => values[k := v]
    case Remove(k) => values - {k}
  }

  /** Replaying several logs, one after the other, in the order given. */
  function ReplayLogs(size: Encoder, logs: Logs, order: seq<nat>): Index
    requires forall i :: 0 <= i < |order| ==> order[i] in logs
  {
    if order == [] then map[]
    else
      var n := order[|order| - 1];
      Replay(size, n, ReplayLogs(size, logs, order[..|order| - 1]), logs[n])
  }

  /** The keys a log mentions. */
  function KeysOf(log: seq<Command>): set<string>
  {
    set i | 0 <= i < |log| :: log[i].key
  }

  predicate SameAt(m: Index, m': Index, k: string)
  {
    (k in m <==> k in m') && (k in m ==> m[k] == m'[k])
  }

  predicate Ascending(s: seq<nat>)
  {
    forall i, j :: 0 <= i < j < |s| ==> s[i] <= s[j]
  }

  predicate Increasing(s: seq<nat>)
  {
    forall i, j :: 0 <= i < j < |s| ==> s[i] < s[j]
  }

  /** A strictly increasing list is determined by its elements. */
  lemma {:induction false} IncreasingUnique(a: seq<nat>, b: seq<nat>)
    requires Increasing(a) && Increasing(b)
    requires forall x :: x in a <==> x in b
    ensures a == b
    decreases |a|
  {
    assert b != [] ==> b[|b| - 1] in b;
    if a != [] {
      assert a[|a| - 1] in a;
      var la, lb := a[|a| - 1], b[|b| - 1];
      assert lb in b;
      var i :| 0 <= i < |a| && a[i] == lb;
      var j :| 0 <= j < |b| && b[j] == la;
      assert lb <= la && la <= lb;
      var a', b' := a[..|a| - 1], b[..|b| - 1];
      forall x ensures x in a' <==> x in b' {
        if x in a' {
          var k :| 0 <= k < |a'| && a'[k] == x;
          assert x in b && x != lb;
        }
        if x in b' {
          var k :| 0 <= k < |b'| && b'[k] == x;
          assert x in a && x != la;
        }
      }
      IncreasingUnique(a', b');
      assert a == a' + [la] && b == b' + [lb];
    }
  }

  /** Drops repeated neighbours: a sorted list of log numbers with each number once. */
  function Dedup(s: seq<nat>): (r: seq<nat>)
    ensures forall n :: n in r <==> n in s
    ensures |s| > 0 ==> |r| > 0 && r[|r| - 1] == s[|s| - 1]
  {
    if |s| <= 1 then s
    else
      var init := Dedup(s[..|s| - 1]);
      assert forall n :: n in s <==> n in s[..|s| - 1] || n == s[|s| - 1];
      if s[|s| - 1] == s[|s| - 2] then init else init + [s[|s| - 1]]
  }

  // ---------------------------------------------------------------------
  // Offsets

  lemma {:induction false} LogSizePrefix(size: Encoder, log: seq<Command>, i: nat, j: nat)
    requires i <= j <= |log|
    ensures LogSize(size, log[..i]) + (j - i) <= LogSize(size, log[..j])
    decreases j
  {
    if i < j {
      assert log[..j][..j - 1] == log[..j - 1];
      LogSizePrefix(size, log, i, j - 1);
    }
  }

  /** Record `i` starts where the records before it end, and nothing else starts there. */
  lemma {:induction false} RecordAtIndex(size: Encoder, log: seq<Command>, i: nat)
    requires i < |log|
    ensures RecordAt(size, log, LogSize(size, log[..i])) == Some(log[i])
    decreases |log|
  {
    var before := log[..|log| - 1];
    if i < |log| - 1 {
      LogSizePrefix(size, log, i + 1, |log| - 1);
      assert log[..|log| - 1] == before;
      assert LogSize(size, log[..i + 1]) == LogSize(size, log[..i]) + size(log[i]) by {
        assert log[..i + 1][..i] == log[..i];
      }
      assert before[..i] == log[..i];
      RecordAtIndex(size, before, i);
    } else {
      assert log[..i] == before;
    }
  }

  /** A record found at an offset lies wholly inside the log. */
  lemma {:induction false} RecordAtBound(size: Encoder, log: seq<Command>, offset: nat)
    requires RecordAt(size, log, offset).Some?
    ensures offset + size(RecordAt(size, log, offset).value) <= LogSize(size, log)
    decreases |log|
  {
    var before := log[..|log| - 1];
    if offset != LogSize(size, before) {
      RecordAtBound(size, before, offset);
    }
  }

  /** Appending to a log leaves every record already in it where it was. */
  lemma {:induction false} RecordAtAppend(size: Encoder, log: seq<Command>, more: seq<Command>, offset: nat)
    requires RecordAt(size, log, offset).Some?
    ensures RecordAt(size, log + more, offset) == RecordAt(size, log, offset)
    decreases |more|
  {
    if more != [] {
      var m := more[..|more| - 1];
      assert (log + more)[..|log + more| - 1] == log + m;
      RecordAtAppend(size, log, m, offset);
      RecordAtBound(size, log, offset);
      LogSizePrefix(size, log + m, |log|, |log + m|);
      assert (log + m)[..|log|] == log;
      assert (log + m)[..|log + m|] == log + m;
    } else {
      assert log + more == log;
    }
  }

  // ---------------------------------------------------------------------
  // Replay

  /** Replaying a log onto a sound index over logs holding that log gives a sound index. */
  lemma {:induction false} ReplaySound(size: Encoder, logs: Logs, n: nat, index: Index, prefix: seq<Command>)
    requires n in logs && prefix <= logs[n]
    requires IndexSound(size, logs, index)
    ensures IndexSound(size, logs, Replay(size, n, index, prefix))
    decreases |prefix|
  {
    if prefix != [] {
      var before := prefix[..|prefix| - 1];
      ReplaySound(size, logs, n, index, before);
      var c := prefix[|prefix| - 1];
      if c.Set? {
        RecordAtIndex(size, logs[n], |before|);
        assert logs[n][..|before|] == before;
      }
    }
  }

  /** Replaying every log from an empty index gives a sound index. */
  lemma {:induction false} ReplayLogsSound(size: Encoder, logs: Logs, order: seq<nat>)
    requires forall i :: 0 <= i < |order| ==> order[i] in logs
    ensures IndexSound(size, logs, ReplayLogs(size, logs, order))
    decreases |order|
  {
    if order != [] {
      ReplayLogsSound(size, logs, order[..|order| - 1]);
      var n := order[|order| - 1];
      ReplaySound(size, logs, n, ReplayLogs(size, logs, order[..|order| - 1]), logs[n]);
    }
  }

  /** Replay only looks at the logs it is asked to replay. */
  lemma {:induction false} ReplayLogsFrame(size: Encoder, logs: Logs, logs': Logs, order: seq<nat>)
    requires forall i :: 0 <= i < |order| ==> order[i] in logs && order[i] in logs' && logs[order[i]] == logs'[order[i]]
    ensures ReplayLogs(size, logs, order) == ReplayLogs(size, logs', order)
    decreases |order|
  {
    if order != [] {
      ReplayLogsFrame(size, logs, logs', order[..|order| - 1]);
    }
  }

  /**
   * At a key the log mentions, the result of a replay does not depend on the
   * index it started from; at any other key, the replay leaves it as it was.
   */
  lemma {:induction false} ReplayAt(size: Encoder, n: nat, index: Index, index': Index, log: seq<Command>, k: string)
    ensures k in KeysOf(log) ==> SameAt(Replay(size, n, index, log), Replay(size, n, index', log), k)
    ensures k !in KeysOf(log) ==> SameAt(Replay(size, n, index, log), index, k)
    decreases |log|
  {
    if log != [] {
      var before := log[..|log| - 1];
      var c := log[|log| - 1];
      assert KeysOf(log) == KeysOf(before) + {c.key} by {
        forall j | 0 <= j < |before| ensures before[j] == log[j] { }
      }
      if c.key != k {
        ReplayAt(size, n, index, index', before, k);
      }
    }
  }

  /** Replaying the same log twice gives the index of replaying it once. */
  lemma ReplayIdempotent(size: Encoder, n: nat, index: Index, log: seq<Command>)
    ensures Replay(size, n, Replay(size, n, index, log), log) == Replay(size, n, index, log)
  {
    var once := Replay(size, n, index, log);
    var twice := Replay(size, n, once, log);
    forall k ensures (k in twice <==> k in once) && (k in twice ==> twice[k] == once[k]) {
      ReplayAt(size, n, once, index, log, k);
      ReplayAt(size, n, index, index, log, k);
    }
  }

  /** Replaying a log number listed twice in a row is replaying it once. */
  lemma {:induction false} ReplayLogsDedup(size: Encoder, logs: Logs, order: seq<nat>)
    requires forall i :: 0 <= i < |order| ==> order[i] in logs
    ensures forall i :: 0 <= i < |Dedup(order)| ==> Dedup(order)[i] in logs
    ensures ReplayLogs(size, logs, Dedup(order)) == ReplayLogs(size, logs, order)
    decreases |order|
  {
    if |order| > 1 {
      var init := order[..|order| - 1];
      var n := order[|order| - 1];
      ReplayLogsDedup(size, logs, init);
      if n == order[|order| - 2] {
        assert init[..|init| - 1] == order[..|order| - 2];
        ReplayIdempotent(size, n, ReplayLogs(size, logs, order[..|order| - 2]), logs[n]);
      } else {
        var d := Dedup(init);
        assert (d + [n])[..|d|] == d;
      }
    }
  }

  /** Removing repeats from an ascending list leaves a strictly increasing one. */
  lemma {:induction false} DedupIncreasing(s: seq<nat>)
    requires Ascending(s)
    ensures Increasing(Dedup(s))
    decreases |s|
  {
    if |s| > 1 {
      DedupIncreasing(s[..|s| - 1]);
    }
  }

  /** Replaying logs after appending one record to the last of them. */
  lemma ReplayLogsAppend(size: Encoder, logs: Logs, order: seq<nat>, cmd: Command)
    requires Increasing(order) && |order| > 0
    requires forall i :: 0 <= i < |order| ==> order[i] in logs
    ensures var n := order[|order| - 1];
      var logs' := logs[n := logs[n] + [cmd]];
      var before := ReplayLogs(size, logs, order);
      ReplayLogs(size, logs', order) == Apply(size, before, n, LogSize(size, logs[n]), cmd)
  {
    var n := order[|order| - 1];
    var logs' := logs[n := logs[n] + [cmd]];
    var init := order[..|order| - 1];
    ReplayLogsFrame(size, logs, logs', init);
    assert (logs[n] + [cmd])[..|logs[n]|] == logs[n];
  }

  /** The value of every indexed key: the value of the `Set` record its entry designates. */
  function ValuesOf(size: Encoder, logs: Logs, index: Index): map<string, string>
    requires IndexSound(size, logs, index)
  {
    map k | k in index :: Lookup(size, logs, index[k]).value.value
  }

  /** Appending a record to a log moves no record an index designates. */
  lemma AppendKeepsValues(size: Encoder, logs: Logs, index: Index, n: nat, cmd: Command)
    requires IndexSound(size, logs, index) && n in logs
    ensures var logs' := logs[n := logs[n] + [cmd]];
      && (forall k :: k in index ==> Lookup(size, logs', index[k]) == Lookup(size, logs, index[k]))
      && IndexSound(size, logs', index)
      && ValuesOf(size, logs', index) == ValuesOf(size, logs, index)
  {
    var logs' := logs[n := logs[n] + [cmd]];
    forall k | k in index
      ensures Lookup(size, logs', index[k]) == Lookup(size, logs, index[k])
    {
      if index[k].logNumber == n {
        RecordAtAppend(size, logs[n], [cmd], index[k].offset);
      }
    }
  }

  /** The record appended to a log is found where the log ended, and replay reads it last. */
  lemma RecordAtEnd(size: Encoder, log: seq<Command>, cmd: Command)
    ensures RecordAt(size, log + [cmd], LogSize(size, log)) == Some(cmd)
    ensures LogSize(size, log + [cmd]) == LogSize(size, log) + size(cmd)
    ensures forall n, index ::
      Replay(size, n, index, log + [cmd]) == Apply(size, Replay(size, n, index, log), n, LogSize(size, log), cmd)
  {
    assert (log + [cmd])[..|log|] == log;
  }

  /**
   * Loads one log into the index, reading records up to the end of the file
   * (`load_index`); the result is the replay of the log.
   */
  method LoadIndex(size: Encoder, logNumber: nat, index: Index, log: seq<Command>) returns (r: Index)
    ensures r == Replay(size, logNumber, index, log)
  {
    r := index;
    var offset := 0;
    var i := 0;
    while i < |log|
      invariant 0 <= i <= |log|
      invariant offset == LogSize(size, log[..i])
      invariant r == Replay(size, logNumber, index, log[..i])
    {
      var cmd := log[i];
      assert log[..i + 1][..i] == log[..i];
      var end := offset + size(cmd);
      match cmd {
        case Set(key, _) =>
          r := r[key := CommandPosition(logNumber, offset, end - offset)];
        case Remove(key) =>
          r := r - {key};
      }
      offset := end;
      i := i + 1;
    }
    assert log[..i] == log;
  }
}
