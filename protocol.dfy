/**
 * The request/response protocol between the networked client and server:
 * how the server turns a request into a call on its engine and the result
 * into a response (`process_request`), and how the client turns the response
 * back into a result.
 *
 * The engine is abstract here: a record of what its three operations return
 * for a given argument. Rendering an engine error as text (`to_string`) is the
 * parameter `show`.
 */
module Protocol {
  import opened Wrappers
  import opened KvsErrors

  datatype Request = Get(key: string) | Set(key: string, value: string) | Remove(key: string)

  /** `SetOk(())` and `RemoveOk(())` carry the unit value, left implicit. */
  datatype Response = GetOk(value: Option<string>) | SetOk | RemoveOk | Err(message: string)

  /** What the engine's `get`, `set` and `remove` return when the server calls them. */
  datatype Engine = Engine(
    onGet: string -> Result<Option<string>, KvsError>,
    onSet: (string, string) -> Result<(), KvsError>,
    onRemove: string -> Result<(), KvsError>)

  /** The operation a request calls on the engine. */
  predicate Answers(request: Request, response: Response)
  {
    match response
    case GetOk(_) => request.Get?
    case SetOk => request.Set?
    case RemoveOk => request.Remove?
    case Err(_) => true
  }

  /** `process_request`: dispatches the request to the engine and reports its outcome. */
  function ProcessRequest(engine: Engine, show: KvsError -> string, request: Request): (response: Response)
    ensures Answers(request, response)
    ensures request.Get? ==>
      match engine.onGet(request.key)
      case Ok(value) => response == GetOk(value)
      case Err(e) => response == Response.Err(show(e))
    ensures request.Set? ==>
      match engine.onSet(request.key, request.value)
      case Ok(_) => response == SetOk
      case Err(e) => response == Response.Err(show(e))
    ensures request.Remove? ==>
      match engine.onRemove(request.key)
      case Ok(_) => response == RemoveOk
      case Err(e) => response == Response.Err(show(e))
  {
    match request
    case Get(key) =>
      (match engine.onGet(key)
       case Ok(value) => GetOk(value)
       case Err(err) => Response.Err(show(err)))
    case Set(key, value) =>
      (match engine.onSet(key, value)
       case Ok(_) => SetOk
       case Err(err) => Response.Err(show(err)))
    case Remove(key) =>
      (match engine.onRemove(key)
       case Ok(_) => RemoveOk
       case Err(err) => Response.Err(show(err)))
  }

  /** How the client reads the response to a `Get`. */
  function InterpretGet(response: Response): (r: Result<Option<string>, KvsError>)
    ensures r.Ok? <==> response.GetOk?
    ensures response.GetOk? ==> r.value == response.value
    ensures response.Err? ==> r == Result.Err(StringError(response.message))
    ensures response.SetOk? || response.RemoveOk? ==> r == Result.Err(UnexpectedResponse)
  {
    match response
    case GetOk(value) => Ok(value)
    case Err(msg) => Result.Err(StringError(msg))
    case _ => Result.Err(UnexpectedResponse)
  }

  /** How the client reads the response to a `Set`. */
  function InterpretSet(response: Response): (r: Result<(), KvsError>)
    ensures r.Ok? <==> response.SetOk?
    ensures response.Err? ==> r == Result.Err(StringError(response.message))
    ensures response.GetOk? || response.RemoveOk? ==> r == Result.Err(UnexpectedResponse)
  {
    match response
    case SetOk => Ok(())
    case Err(msg) => Result.Err(StringError(msg))
    case _ => Result.Err(UnexpectedResponse)
  }

  /** How the client reads the response to a `Remove`. */
  function InterpretRemove(response: Response): (r: Result<(), KvsError>)
    ensures r.Ok? <==> response.RemoveOk?
    ensures response.Err? ==> r == Result.Err(StringError(response.message))
    ensures response.GetOk? || response.SetOk? ==> r == Result.Err(UnexpectedResponse)
  {
    match response
    case RemoveOk => Ok(())
    case Err(msg) => Result.Err(StringError(msg))
    case _ => Result.Err(UnexpectedResponse)
  }

  /** An engine error as the client sees it: its text, carried in a `StringError`. */
  function Remote<T>(show: KvsError -> string, r: Result<T, KvsError>): Result<T, KvsError>
  {
    match r
    case Ok(v) => Ok(v)
    case Err(e) => Result.Err(StringError(show(e)))
  }

  /** The client's `get`: sends `Get(key)` to a server and reads the response. */
  function ClientGet(server: Request -> Response, key: string): Result<Option<string>, KvsError>
  {
    InterpretGet(server(Request.Get(key)))
  }

  /** The client's `set`: sends `Set(key, value)` to a server and reads the response. */
  function ClientSet(server: Request -> Response, key: string, value: string): Result<(), KvsError>
  {
    InterpretSet(server(Request.Set(key, value)))
  }

  /** The client's `remove`: sends `Remove(key)` to a server and reads the response. */
  function ClientRemove(server: Request -> Response, key: string): Result<(), KvsError>
  {
    InterpretRemove(server(Request.Remove(key)))
  }

  /**
   * Across the network, each client operation returns what the engine
   * returned for the same arguments, an engine error arriving as the
   * `StringError` of its text.
   */
  lemma EndToEnd(engine: Engine, show: KvsError -> string, key: string, value: string)
    ensures ClientGet(request => ProcessRequest(engine, show, request), key) == Remote(show, engine.onGet(key))
    ensures ClientSet(request => ProcessRequest(engine, show, request), key, value) == Remote(show, engine.onSet(key, value))
    ensures ClientRemove(request => ProcessRequest(engine, show, request), key) == Remote(show, engine.onRemove(key))
  {
    match engine.onSet(key, value) {
      case Ok(u) => assert u == ();
      case Err(_) =>
    }
    match engine.onRemove(key) {
      case Ok(u) => assert u == ();
      case Err(_) =>
    }
  }

  /** A server that answers a request with another operation's success is reported as `UnexpectedResponse`. */
  lemma MismatchedAnswer(server: Request -> Response, key: string, value: string)
    ensures !Answers(Request.Get(key), server(Request.Get(key))) ==> ClientGet(server, key) == Result.Err(UnexpectedResponse)
    ensures !Answers(Request.Set(key, value), server(Request.Set(key, value))) ==> ClientSet(server, key, value) == Result.Err(UnexpectedResponse)
    ensures !Answers(Request.Remove(key), server(Request.Remove(key))) ==> ClientRemove(server, key) == Result.Err(UnexpectedResponse)
  {
  }
}
