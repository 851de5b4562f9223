/**
 * Names of log files (`log_path`) and how the engine finds its logs in its
 * directory when it opens (`get_log_numbers`).
 *
 * A log file is called `<n>.kvs.log`. On open, every regular file of the
 * directory whose extension is `log` is taken for a log: the file stem has
 * every trailing `.kvs` trimmed off and what is left is parsed as a `u64`.
 * The directory is a map from file name to entry; `Path::extension`,
 * `Path::file_stem`, `str::trim_end_matches` and `u64::from_str` are modelled
 * as Rust's standard library defines them.
 */
module LogFiles {
  import opened Wrappers
  import opened CommandLog

  const U64_MAX: nat := 0xFFFF_FFFF_FFFF_FFFF

  /** A directory entry: a regular file holding log records, or anything else. */
  datatype Entry = File(records: seq<Command>) | Directory

  type Dir = map<string, Entry>

  predicate IsDigit(c: char)
  {
    '0' <= c <= '9'
  }

  predicate AllDigits(s: string)
  {
    forall i :: 0 <= i < |s| ==> IsDigit(s[i])
  }

  function DigitChar(d: nat): (c: char)
    requires d < 10
    ensures IsDigit(c) && (c as int) - ('0' as int) == d
  {
    "0123456789"[d]
  }

  /** `format!("{}", n)` for an unsigned number: its decimal digits, no leading zero. */
  function Decimal(n: nat): (s: string)
    ensures |s| > 0 && AllDigits(s)
    ensures |s| > 1 ==> s[0] != '0'
  {
    if n < 10 then [DigitChar(n)] else Decimal(n / 10) + [DigitChar(n % 10)]
  }

  /** The number a string of decimal digits denotes. */
  function DecimalValue(s: string): nat
    requires AllDigits(s)
  {
    if s == [] then 0 else DecimalValue(s[..|s| - 1]) * 10 + ((s[|s| - 1] as int) - ('0' as int))
  }

  /** `u64::from_str`: an optional `+`, then at least one decimal digit, and no overflow. */
  function ParseU64(s: string): (r: Option<nat>)
    ensures r.Some? ==> r.value <= U64_MAX
  {
    var digits := if |s| > 0 && s[0] == '+' then s[1..] else s;
    if digits == [] || !AllDigits(digits) then None
    else if DecimalValue(digits) > U64_MAX then None
    else Some(DecimalValue(digits))
  }

  /** `log_path`: the name of log file number `n` inside the engine's directory. */
  function LogFileName(n: nat): (name: string)
    ensures |name| > 8 && name[|name| - 8..] == ".kvs.log"
    ensures name[..|name| - 8] == Decimal(n)
  {
    var name := Decimal(n) + ".kvs.log";
    assert name[..|name| - 8] == Decimal(n);
    name
  }

  /** Different log numbers have different file names. */
  lemma LogFileNameInjective()
    ensures forall a, b :: LogFileName(a) == LogFileName(b) ==> a == b
  {
    forall a, b | LogFileName(a) == LogFileName(b) ensures a == b {
      var name := LogFileName(a);
      DecimalRoundTrip(a);
      DecimalRoundTrip(b);
    }
  }

  /** The position of the last `.` in a file name, if there is one. */
  function LastDot(name: string): (r: Option<nat>)
    ensures r.Some? ==> r.value < |name| && name[r.value] == '.'
    ensures r.Some? ==> forall i :: r.value < i < |name| ==> name[i] != '.'
    ensures r.None? ==> forall i :: 0 <= i < |name| ==> name[i] != '.'
  {
    if name == [] then None
    else if name[|name| - 1] == '.' then Some(|name| - 1)
    else LastDot(name[..|name| - 1])
  }

  /**
   * How `Path` splits a file name at its last dot: the part before and the
   * part after. A name whose only dot is its first character, and `..`, have
   * no extension.
   */
  function SplitAtDot(name: string): (Option<string>, Option<string>)
  {
    if name == ".." then (Some(name), None)
    else
      match LastDot(name)
      case None => (None, Some(name))
      case Some(i) => if i == 0 then (Some(name), None) else (Some(name[..i]), Some(name[i + 1..]))
  }

  /** `Path::file_stem`. */
  function FileStem(name: string): Option<string>
  {
    var (before, after) := SplitAtDot(name);
    if before.Some? then before else after
  }

  /** `Path::extension`. */
  function Extension(name: string): Option<string>
  {
    var (before, after) := SplitAtDot(name);
    if before.Some? then after else None
  }

  /** `trim_end_matches(".kvs")`: removes every trailing `.kvs`. */
  function TrimKvs(s: string): string
  {
    if |s| >= 4 && s[|s| - 4..] == ".kvs" then TrimKvs(s[..|s| - 4]) else s
  }

  /** The log number `get_log_numbers` reads from a directory entry, if it takes it for a log. */
  function LogNumberOf(name: string, entry: Entry): (r: Option<nat>)
    ensures r.Some? ==> entry.File? && Extension(name) == Some("log")
    ensures r.Some? ==> r.value <= U64_MAX
  {
    if entry.File? && Extension(name) == Some("log") then
      match FileStem(name)
      case None => None
      case Some(stem) => ParseU64(TrimKvs(stem))
    else None
  }

  /** The entries of a directory that are taken for logs. */
  function LogNames(dir: Dir): set<string>
  {
    LogNamesIn(dir, LogNumberOf, dir.Keys)
  }

  /** Inserts into an ascending list, keeping it ascending. */
  function Insert(s: seq<nat>, x: nat): (r: seq<nat>)
    requires Ascending(s)
    ensures Ascending(r)
    ensures multiset(r) == multiset(s) + multiset{x}
    ensures forall y :: y in r <==> y in s || y == x
    ensures |r| == |s| + 1
  {
    if s == [] || x <= s[0] then
      AscendingCons(x, s);
      [x] + s
    else
      var rest := Insert(s[1..], x);
      AscendingCons(s[0], rest);
      assert s == [s[0]] + s[1..];
      [s[0]] + rest
  }

  lemma AscendingCons(h: nat, t: seq<nat>)
    requires Ascending(t)
    requires forall y :: y in t ==> h <= y
    ensures Ascending([h] + t)
  {
    forall i, j | 0 <= i < j < |[h] + t| ensures ([h] + t)[i] <= ([h] + t)[j] {
      if i == 0 {
        assert t[j - 1] in t;
      }
    }
  }

  /** The entries among `names` that `parse` takes for logs. */
  function LogNamesIn(dir: Dir, parse: (string, Entry) -> Option<nat>, names: set<string>): set<string>
  {
    set name | name in names && name in dir && parse(name, dir[name]).Some?
  }

  /** The numbers `parse` reads from the entries among `names`. */
  function LogNumbersIn(dir: Dir, parse: (string, Entry) -> Option<nat>, names: set<string>): set<nat>
  {
    set name | name in names && name in dir && parse(name, dir[name]).Some? :: parse(name, dir[name]).value
  }

  /** The entries among `names` that `parse` reads as log `n`. */
  function NamesOfLog(dir: Dir, parse: (string, Entry) -> Option<nat>, names: set<string>, n: nat): set<string>
  {
    set name | name in names && name in dir && parse(name, dir[name]) == Some(n)
  }

  /** Reading one more entry adds it to the log names exactly when `parse` takes it for a log. */
  lemma ReadOneMore(dir: Dir, parse: (string, Entry) -> Option<nat>, read: set<string>, name: string)
    requires name in dir && name !in read
    ensures name !in LogNamesIn(dir, parse, read)
    ensures parse(name, dir[name]).Some? ==>
      && LogNamesIn(dir, parse, read + {name}) == LogNamesIn(dir, parse, read) + {name}
      && LogNumbersIn(dir, parse, read + {name}) == LogNumbersIn(dir, parse, read) + {parse(name, dir[name]).value}
    ensures parse(name, dir[name]).None? ==>
      && LogNamesIn(dir, parse, read + {name}) == LogNamesIn(dir, parse, read)
      && LogNumbersIn(dir, parse, read + {name}) == LogNumbersIn(dir, parse, read)
  {
  }

  /** `numbers` holds, in ascending order, one number per entry among `read` taken for a log. */
  ghost predicate Collected(dir: Dir, parse: (string, Entry) -> Option<nat>, read: set<string>, numbers: seq<nat>)
  {
    && Ascending(numbers)
    && (forall n :: n in numbers <==> n in LogNumbersIn(dir, parse, read))
    && |numbers| == |LogNamesIn(dir, parse, read)|
    && (forall n :: multiset(numbers)[n] == |NamesOfLog(dir, parse, read, n)|)
  }

  /** One step of the loop of `get_log_numbers`: the number of an entry taken for a log is inserted in order. */
  lemma CollectOne(dir: Dir, parse: (string, Entry) -> Option<nat>, read: set<string>, numbers: seq<nat>, name: string)
    requires Collected(dir, parse, read, numbers)
    requires name in dir && name !in read
    ensures Collected(dir, parse, read + {name},
      if parse(name, dir[name]).Some? then Insert(numbers, parse(name, dir[name]).value) else numbers)
  {
    ReadOneMore(dir, parse, read, name);
    forall n {
      CountOneMore(dir, parse, read, name, n);
    }
  }

  /** Reading one more entry adds one name to log `n` exactly when `parse` reads the entry as log `n`. */
  lemma CountOneMore(dir: Dir, parse: (string, Entry) -> Option<nat>, read: set<string>, name: string, n: nat)
    requires name in dir && name !in read
    ensures |NamesOfLog(dir, parse, read + {name}, n)| ==
      |NamesOfLog(dir, parse, read, n)| + (if parse(name, dir[name]) == Some(n) then 1 else 0)
  {
    if parse(name, dir[name]) == Some(n) {
      assert NamesOfLog(dir, parse, read + {name}, n) == NamesOfLog(dir, parse, read, n) + {name};
    } else {
      assert NamesOfLog(dir, parse, read + {name}, n) == NamesOfLog(dir, parse, read, n);
    }
  }

  /**
   * The loop of `get_log_numbers`: reads the entries of the directory in no
   * particular order, keeps the number of every entry `parse` takes for a
   * log, one per entry, and returns them in ascending order: each number
   * occurs as often as there are entries read as that log.
   */
  method CollectLogNumbers(dir: Dir, parse: (string, Entry) -> Option<nat>) returns (numbers: seq<nat>)
    ensures Ascending(numbers)
    ensures forall n :: n in numbers <==> exists name :: name in dir && parse(name, dir[name]) == Some(n)
    ensures |numbers| == |LogNamesIn(dir, parse, dir.Keys)|
    ensures forall n :: multiset(numbers)[n] == |NamesOfLog(dir, parse, dir.Keys, n)|
  {
    numbers := [];
    var unread := dir.Keys;
    ghost var read: set<string> := {};
    while unread != {}
      invariant unread <= dir.Keys && read == dir.Keys - unread
      invariant Collected(dir, parse, read, numbers)
      decreases unread
    {
      var name :| name in unread;
      CollectOne(dir, parse, read, numbers, name);
      match parse(name, dir[name]) {
        case Some(n) => numbers := Insert(numbers, n);
        case None =>
      }
      unread := unread - {name};
      read := read + {name};
    }
    assert read == dir.Keys;
    forall n ensures n in numbers <==> exists name :: name in dir && parse(name, dir[name]) == Some(n) {
      if n in numbers {
        assert n in LogNumbersIn(dir, parse, read);
      }
    }
  }

  /**
   * `get_log_numbers`: the number of every directory entry taken for a log,
   * one per entry, in ascending order.
   */
  method GetLogNumbers(dir: Dir) returns (numbers: seq<nat>)
    ensures Ascending(numbers)
    ensures forall n :: n in numbers <==> exists name :: name in dir && LogNumberOf(name, dir[name]) == Some(n)
    ensures |numbers| == |LogNames(dir)|
    ensures forall n :: multiset(numbers)[n] == |NamesOfLog(dir, LogNumberOf, dir.Keys, n)|
  {
    numbers := CollectLogNumbers(dir, LogNumberOf);
  }

  // ---------------------------------------------------------------------
  // Round trip of log file names

  lemma {:induction false} DecimalRoundTrip(n: nat)
    ensures DecimalValue(Decimal(n)) == n
  {
    if n >= 10 {
      DecimalRoundTrip(n / 10);
      var d := Decimal(n);
      assert d[..|d| - 1] == Decimal(n / 10);
    }
  }

  /** A name made of digits loses nothing to the trimming of `.kvs`. */
  lemma TrimKvsDigits(s: string)
    requires |s| > 0 && AllDigits(s)
    ensures TrimKvs(s + ".kvs") == s
  {
    var t := s + ".kvs";
    assert t[|t| - 4..] == ".kvs";
    assert t[..|t| - 4] == s;
    assert s[|s| - 1] != 's';
  }

  /** `Path` splits `<n>.kvs.log` into the stem `<n>.kvs` and the extension `log`. */
  lemma SplitLogFileName(n: nat)
    ensures SplitAtDot(LogFileName(n)) == (Some(Decimal(n) + ".kvs"), Some("log"))
  {
    var d := Decimal(n);
    var name := LogFileName(n);
    var i := |d| + 4;
    assert name[i] == '.' && name[i + 1..] == "log";
    assert name[..i] == d + ".kvs";
    var r := LastDot(name);
    assert r.Some? && r.value == i by {
      assert forall j :: i < j < |name| ==> name[j] != '.';
    }
    assert name != "..";
  }

  /** Parsing the name `log_path` gives log `n` back recovers `n`, for every `u64`. */
  lemma LogFileNameRoundTrip(n: nat, records: seq<Command>)
    requires n <= U64_MAX
    ensures LogNumberOf(LogFileName(n), File(records)) == Some(n)
  {
    var d := Decimal(n);
    SplitLogFileName(n);
    TrimKvsDigits(d);
    DecimalRoundTrip(n);
    assert d[0] != '+';
  }
}
