/** The movies controller: the `movieExists` existence guard and the `read`
    and `list` handlers. None of them writes to the store. */
module Movies {
  import opened Wrappers
  import opened Json
  import opened Http
  import opened Persistence

  const MovieNotFound: Failure := Failure(404, "Movie cannot be found")

  /** `movieExists`: loads the movie named by the path and stores it in
      `locals.movie`, or forwards the not-found failure. */
  function MovieExists(ctx: Context, store: Store): (o: Outcome<Store>)
    ensures o.store == store
    ensures MovieRead !in store.faults && ctx.req.params.movieId in store.movies ==>
      o.result == Continue(ctx.(locals := ctx.locals.(movie := Some(store.movies[ctx.req.params.movieId]))))
    ensures MovieRead !in store.faults && ctx.req.params.movieId !in store.movies ==> o.result == Fail(MovieNotFound)
    ensures MovieRead in store.faults ==> o.result.Fail? && o.result.failure.status == 500
  {
    match FindMovie(store, ctx.req.params.movieId)
    case Err(e) => Outcome(Fail(Internal(e)), store)
    case Ok(None) => Outcome(Fail(MovieNotFound), store)
    case Ok(Some(movie)) => Outcome(Continue(ctx.(locals := ctx.locals.(movie := Some(movie)))), store)
  }

  /** `read`: answers `{data}` with the movie resolved earlier in the chain;
      with none resolved, `data` is `undefined`. */
  function Read(ctx: Context, store: Store): (o: Outcome<Store>)
    ensures o.store == store
    ensures o.result.Respond? && o.result.status == 200
    ensures o.result.body.JsonBody? && o.result.body.value.Obj? && o.result.body.value.fields.Keys == {"data"}
    ensures ctx.locals.movie.Some? ==> o.result.body.value.fields["data"] == Obj(ctx.locals.movie.value)
    ensures ctx.locals.movie.None? ==> o.result.body.value.fields["data"] == Undefined
  {
    match ctx.locals.movie
    case Some(movie) => Outcome(DataResponse(Obj(movie)), store)
    case None => Outcome(DataResponse(Undefined), store)
  }

  /** The rows of a listing as response objects, in order. */
  function Objects(rows: seq<Record>): (vs: seq<Value>)
    ensures |vs| == |rows|
    ensures forall i :: 0 <= i < |rows| ==> vs[i] == Obj(rows[i])
  {
    if rows == [] then [] else [Obj(rows[0])] + Objects(rows[1..])
  }

  /** `list`: hands the raw `is_showing` query value, possibly `undefined`, to
      the store and answers `{data}` with its rows, neither reordered nor filtered. */
  function List(ctx: Context, store: Store): (o: Outcome<Store>)
    ensures o.store == store
    ensures o.result.Fail? <==> MovieList in store.faults
    ensures o.result.Fail? ==> o.result.failure.status == 500
    ensures MovieList !in store.faults ==>
      var rows := store.movieListing(Get(ctx.req.query, "is_showing"));
      && o.result.Respond? && o.result.status == 200
      && o.result.body.JsonBody? && o.result.body.value.Obj?
      && o.result.body.value.fields.Keys == {"data"}
      && var data := o.result.body.value.fields["data"];
      && data.Arr? && |data.items| == |rows|
      && forall i :: 0 <= i < |rows| ==> data.items[i] == Obj(rows[i])
  {
    match QueryMovies(store, Get(ctx.req.query, "is_showing"))
    case Err(e) => Outcome(Fail(Internal(e)), store)
    case Ok(rows) => Outcome(DataResponse(Arr(Objects(rows))), store)
  }
}
