/**
 * The errors the engine, the server and the client report (`KvsError`).
 * Errors wrapped from foreign libraries (I/O, MessagePack) keep only their
 * kind here.
 */
module KvsErrors {

  datatype KvsError =
    | Decode
    | Encode  // `EncodeError` of project-2; encoding never fails in this model, so nothing yields it
    | IO
    | KeyNotFound
    | UnexpectedCommand
    | StringError(message: string)
    | UnexpectedResponse
}
