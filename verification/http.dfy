/** The per-request state an Express middleware chain threads through its
    steps, and what one step can do with it: continue, respond, or forward a
    failure to the error handler. */
module Http {
  import opened Wrappers
  import opened Json

  /** The path parameters the routes can bind; an unbound one is `undefined`. */
  datatype Params = Params(movieId: Value, reviewId: Value)

  datatype Request = Request(params: Params, query: Record, body: Value)

  /** `response.locals`: the movie or review an existence guard resolved. */
  datatype Locals = Locals(movie: Option<Record>, review: Option<Record>)

  const NoLocals: Locals := Locals(None, None)

  datatype Context = Context(req: Request, locals: Locals)

  /** The `{status, message}` object handed to `next`. */
  datatype Failure = Failure(status: nat, message: string)

  /** The failure the shared `methodNotAllowed` handler forwards. */
  const MethodNotAllowed: Failure := Failure(405, "Method not allowed")

  /** A thrown error caught by the async error boundary: a server fault. */
  function Internal(message: string): Failure
  {
    Failure(500, message)
  }

  datatype Body = JsonBody(value: Value) | NoBody

  /** `response.json({data})`: status 200 and a body whose only key is `data`. */
  function DataResponse(data: Value): StepResult
  {
    Respond(200, JsonBody(Obj(map["data" := data])))
  }

  datatype StepResult =
    | Continue(ctx: Context)
    | Respond(status: nat, body: Body)
    | Fail(failure: Failure)

  /** What a step produced, together with the store as it left it. */
  datatype Outcome<S> = Outcome(result: StepResult, store: S)
}
