/** The HTTP status codes the handlers answer with. A handler that calls `res.json(...)`
    without setting a status answers `Ok`. */
module Http {
  import opened Options

  type Status = int

  const Ok: Status := 200
  const Created: Status := 201
  const BadRequest: Status := 400
  const Unauthorized: Status := 401
  const Forbidden: Status := 403
  const NotFound: Status := 404
  const ServerError: Status := 500

  /** The answer of a read-only handler: a status and, on success, the data sent back. */
  datatype Reply<T> = Reply(status: Status, data: Option<T>)
}
