/**
 * The server's choice of storage engine: the engine's name as printed and
 * parsed, and the startup check that refuses to open a directory with an
 * engine other than the one recorded there in the file `kvs.engine`.
 *
 * Reading and writing `kvs.engine` are the parameter `recorded` (its
 * contents, or `None` when the file does not exist) and the `record` part of
 * the result (what the file holds afterwards).
 */
module EngineSelection {
  import opened Wrappers

  datatype EngineName = Kvs | Sled

  /** `ParseEngineNameError`: the text that is no engine name. */
  datatype ParseEngineNameError = ParseEngineNameError(input: string)

  /** `Display for EngineName`. */
  function Show(engine: EngineName): (s: string)
    ensures engine == Kvs <==> s == "kvs"
    ensures engine == Sled <==> s == "sled"
  {
    match engine
    case Kvs => "kvs"
    case Sled => "sled"
  }

  /** `FromStr for EngineName`: exactly the two names, anything else is an error carrying the input. */
  function Parse(input: string): (r: Result<EngineName, ParseEngineNameError>)
    ensures r.Ok? <==> input == "kvs" || input == "sled"
    ensures r.Ok? ==> Show(r.value) == input
    ensures r.Err? ==> r.error == ParseEngineNameError(input)
  {
    if input == "kvs" then Ok(Kvs)
    else if input == "sled" then Ok(Sled)
    else Err(ParseEngineNameError(input))
  }

  /** Printing a name and parsing it back gives the same engine. */
  lemma ParseShow(engine: EngineName)
    ensures Parse(Show(engine)) == Ok(engine)
  {
    match engine {
      case Kvs =>
      case Sled => assert Show(Sled) != "kvs";
    }
  }

  /** How startup ends: the server goes on, quits with an exit status, or fails on an unreadable record. */
  datatype Startup = Proceed | Exit(status: int) | Failed(error: ParseEngineNameError)

  /**
   * The engine check of the server's `main`: the recorded engine, if any, is
   * parsed; startup quits with status 1 when it differs from the chosen one,
   * and otherwise records the chosen engine's name and goes on.
   */
  function CheckEngine(recorded: Option<string>, chosen: EngineName): (r: (Startup, Option<string>))
    ensures r.0 == Exit(1) <==> recorded.Some? && Parse(recorded.value).Ok? && Parse(recorded.value).value != chosen
    ensures r.0.Failed? <==> recorded.Some? && Parse(recorded.value).Err?
    ensures r.0.Failed? ==> r.0.error.input == recorded.value
    ensures r.0 == Proceed <==> recorded.None? || recorded.value == Show(chosen)
    ensures r.1 == if r.0 == Proceed then Some(Show(chosen)) else recorded
  {
    var last := if recorded.None? then Ok(None) else
      match Parse(recorded.value)
      case Ok(engine) => Ok(Some(engine))
      case Err(e) => Err(e);
    match last
    case Err(e) => (Failed(e), recorded)
    case Ok(engine) =>
      if engine.Some? && engine != Some(chosen) then (Exit(1), recorded)
      else (Proceed, Some(Show(chosen)))
  }

  /** Once the server has started with an engine, starting it again with the same engine passes the check. */
  lemma RestartSameEngine(recorded: Option<string>, chosen: EngineName)
    requires CheckEngine(recorded, chosen).0 == Proceed
    ensures CheckEngine(CheckEngine(recorded, chosen).1, chosen) == (Proceed, Some(Show(chosen)))
  {
  }

  /** Starting with another engine than the one that ran before quits with status 1. */
  lemma RestartOtherEngine(recorded: Option<string>, chosen: EngineName, other: EngineName)
    requires CheckEngine(recorded, chosen).0 == Proceed && other != chosen
    ensures CheckEngine(CheckEngine(recorded, chosen).1, other).0 == Exit(1)
  {
    ParseShow(chosen);
  }
}
