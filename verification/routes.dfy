/** The exported middleware chains of both controllers and the sequential
    runner Express applies to them: each step either continues with an updated
    context, or ends the request with a response or a forwarded failure, and
    no later step runs after that. Steps that touch the store are wrapped in
    the async error boundary in the source; here a store error already comes
    back from the step as a `Fail` with status 500. */
module Routes {
  import opened Wrappers
  import opened Json
  import opened Http
  import opened Persistence
  import Reviews
  import Movies

  datatype Step =
    | ReviewExists | NoMovieIdInPath | HasMovieIdInPath
    | ListReviews | UpdateReview | DestroyReview
    | MovieExists | ReadMovie | ListMovies

  function Apply(step: Step, ctx: Context, store: Store): Outcome<Store>
  {
    match step
    case ReviewExists => Reviews.ReviewExists(ctx, store)
    case NoMovieIdInPath => Reviews.NoMovieIdInPath(ctx, store)
    case HasMovieIdInPath => Reviews.HasMovieIdInPath(ctx, store)
    case ListReviews => Reviews.List(ctx, store)
    case UpdateReview => Reviews.Update(ctx, store)
    case DestroyReview => Reviews.Destroy(ctx, store)
    case MovieExists => Movies.MovieExists(ctx, store)
    case ReadMovie => Movies.Read(ctx, store)
    case ListMovies => Movies.List(ctx, store)
  }

  /** A handler that always ends the request: it responds or forwards a
      failure, and never calls `next()` to continue. */
  predicate Handler(step: Step)
  {
    step == ListReviews || step == UpdateReview || step == DestroyReview
    || step == ReadMovie || step == ListMovies
  }

  lemma HandlerEnds(step: Step, ctx: Context, store: Store)
    requires Handler(step)
    ensures !Apply(step, ctx, store).result.Continue?
  {
  }

  /** A step that never changes the store. */
  predicate ReadOnly(step: Step)
  {
    step != UpdateReview && step != DestroyReview
  }

  lemma ReadOnlyStepKeepsStore(step: Step, ctx: Context, store: Store)
    requires ReadOnly(step)
    ensures Apply(step, ctx, store).store == store
  {
  }

  /** How a request ended, the store it left, and the steps entered, in order. */
  datatype Run = Run(result: StepResult, store: Store, trace: seq<Step>)

  /** The runner: enters the steps in order and stops at the first one that
      does not continue. A chain that runs out of steps falls through with
      the final context. */
  function RunChain(chain: seq<Step>, ctx: Context, store: Store): (r: Run)
    ensures |r.trace| <= |chain| && r.trace == chain[..|r.trace|]
    ensures r.result.Continue? ==> r.trace == chain
    ensures !r.result.Continue? ==> 0 < |r.trace|
  {
    if chain == [] then Run(Continue(ctx), store, [])
    else
      var o := Apply(chain[0], ctx, store);
      if o.result.Continue? then
        var rest := RunChain(chain[1..], o.result.ctx, o.store);
        Run(rest.result, rest.store, [chain[0]] + rest.trace)
      else Run(o.result, o.store, [chain[0]])
  }

  /** Running `next` after a run that continued; a run that ended stays as it is. */
  function Then(first: Run, next: seq<Step>): Run
  {
    if first.result.Continue? then
      var second := RunChain(next, first.result.ctx, first.store);
      Run(second.result, second.store, first.trace + second.trace)
    else first
  }

  /** Running two chains one after the other is running their concatenation. */
  lemma {:induction false} RunAppend(a: seq<Step>, b: seq<Step>, ctx: Context, store: Store)
    ensures RunChain(a + b, ctx, store) == Then(RunChain(a, ctx, store), b)
  {
    if a == [] {
      assert a + b == b;
    } else {
      var o := Apply(a[0], ctx, store);
      assert (a + b)[0] == a[0];
      assert (a + b)[1..] == a[1..] + b;
      if o.result.Continue? {
        RunAppend(a[1..], b, o.result.ctx, o.store);
        var ra := RunChain(a[1..], o.result.ctx, o.store);
        if ra.result.Continue? {
          var rb := RunChain(b, ra.result.ctx, ra.store);
          assert [a[0]] + (ra.trace + rb.trace) == ([a[0]] + ra.trace) + rb.trace;
        }
      }
    }
  }

  /** Short-circuit: once a step fails or responds, the steps after it are
      never entered and the request ends with that step's result and store. */
  lemma StopsAtFirstEnd(a: seq<Step>, step: Step, b: seq<Step>, ctx: Context, store: Store)
    requires RunChain(a, ctx, store).result.Continue?
    requires !Apply(step, RunChain(a, ctx, store).result.ctx, RunChain(a, ctx, store).store).result.Continue?
    ensures
      var ra := RunChain(a, ctx, store);
      var o := Apply(step, ra.result.ctx, ra.store);
      RunChain(a + [step] + b, ctx, store) == Run(o.result, o.store, a + [step])
  {
    var ra := RunChain(a, ctx, store);
    RunAppend(a, [step] + b, ctx, store);
    assert a + [step] + b == a + ([step] + b);
    EndingStepStops(step, b, ra.result.ctx, ra.store);
  }

  /** A chain whose first step ends the request enters only that step. */
  lemma EndingStepStops(step: Step, b: seq<Step>, ctx: Context, store: Store)
    requires !Apply(step, ctx, store).result.Continue?
    ensures var o := Apply(step, ctx, store);
      RunChain([step] + b, ctx, store) == Run(o.result, o.store, [step])
  {
    assert ([step] + b)[0] == step;
  }

  /** A chain of read-only steps leaves the store as it found it. */
  lemma {:induction false} ReadOnlyChainKeepsStore(chain: seq<Step>, ctx: Context, store: Store)
    requires forall i :: 0 <= i < |chain| ==> ReadOnly(chain[i])
    ensures RunChain(chain, ctx, store).store == store
  {
    if chain != [] {
      ReadOnlyStepKeepsStore(chain[0], ctx, store);
      var o := Apply(chain[0], ctx, store);
      if o.result.Continue? {
        ReadOnlyChainKeepsStore(chain[1..], o.result.ctx, o.store);
      }
    }
  }

  /** The routes the two controllers serve. */
  datatype Route =
    | GetMovieReviews  // GET /movies/:movieId/reviews
    | PutReview        // PUT /reviews/:reviewId
    | DeleteReview     // DELETE /reviews/:reviewId
    | GetMovies        // GET /movies
    | GetMovie         // GET /movies/:movieId

  /** The exported chain of each route. */
  function Chain(route: Route): (chain: seq<Step>)
    ensures 0 < |chain| <= 3
    ensures forall i, j :: 0 <= i < j < |chain| ==> chain[i] != chain[j]
  {
    match route
    case GetMovieReviews => [HasMovieIdInPath, ListReviews]
    case PutReview => [NoMovieIdInPath, ReviewExists, UpdateReview]
    case DeleteReview => [NoMovieIdInPath, ReviewExists, DestroyReview]
    case GetMovies => [ListMovies]
    case GetMovie => [MovieExists, ReadMovie]
  }

  /** One request on a route, starting with empty `locals`. */
  function Handle(route: Route, req: Request, store: Store): Run
  {
    RunChain(Chain(route), Context(req, NoLocals), store)
  }

  /** Every chain ends in exactly one handler: its last step is a handler and
      no earlier step is. */
  lemma ChainEndsInHandler(route: Route)
    ensures var chain := Chain(route);
      && Handler(chain[|chain| - 1])
      && forall i :: 0 <= i < |chain| - 1 ==> !Handler(chain[i])
  {
  }

  /** Every request ends: whatever the route, request and store, the chain
      either responds or forwards a failure, and never falls through to a
      later route. */
  lemma EveryRequestEnds(route: Route, req: Request, store: Store)
    ensures !Handle(route, req, store).result.Continue?
  {
    var chain := Chain(route);
    ChainEndsInHandler(route);
    var ctx := Context(req, NoLocals);
    var init, last := chain[..|chain| - 1], chain[|chain| - 1];
    assert chain == init + [last];
    RunAppend(init, [last], ctx, store);
    var first := RunChain(init, ctx, store);
    if first.result.Continue? {
      HandlerEnds(last, first.result.ctx, first.store);
      assert RunChain([last], first.result.ctx, first.store).result
        == Apply(last, first.result.ctx, first.store).result;
    }
  }

  /** No step is entered twice in one request. */
  lemma NoStepEnteredTwice(route: Route, req: Request, store: Store)
    ensures var trace := Handle(route, req, store).trace;
      forall i, j :: 0 <= i < j < |trace| ==> trace[i] != trace[j]
  {
  }

  /** A review update or delete addressed under a movie path is refused with
      405 by the first guard: `reviewExists` is never entered and the store is
      neither read nor written. */
  lemma MovieScopedReviewWriteRefused(route: Route, req: Request, store: Store)
    requires route == PutReview || route == DeleteReview
    requires Truthy(req.params.movieId)
    ensures Handle(route, req, store) == Run(Fail(MethodNotAllowed), store, [NoMovieIdInPath])
  {
  }

  /** The refusal does not depend on the store at all. */
  lemma RefusalIgnoresStore(route: Route, req: Request, s1: Store, s2: Store)
    requires route == PutReview || route == DeleteReview
    requires Truthy(req.params.movieId)
    ensures Handle(route, req, s1).result == Handle(route, req, s2).result
  {
  }

  /** Updating or deleting a review the store does not hold ends in the 404
      failure before the handler runs, with the store unchanged. */
  lemma MissingReviewNotFound(route: Route, req: Request, store: Store)
    requires route == PutReview || route == DeleteReview
    requires !Truthy(req.params.movieId)
    requires ReviewRead !in store.faults && req.params.reviewId !in store.reviews
    ensures Handle(route, req, store) == Run(Fail(Reviews.ReviewNotFound), store, [NoMovieIdInPath, ReviewExists])
  {
    var ctx := Context(req, NoLocals);
    var chain := Chain(route);
    assert chain[1..][1..] == [chain[2]];
    assert RunChain(chain[1..], ctx, store) == Run(Fail(Reviews.ReviewNotFound), store, [ReviewExists]);
  }

  /** Once both guards pass on a held review, the request's outcome is the
      handler's: it runs with that review in `locals.review`, its result and
      store end the request, and every step of the chain was entered. */
  lemma ResolvedReviewReachesHandler(route: Route, req: Request, store: Store)
    requires route == PutReview || route == DeleteReview
    requires !Truthy(req.params.movieId)
    requires ReviewRead !in store.faults && req.params.reviewId in store.reviews
    ensures var ctx := Context(req, NoLocals.(review := Some(store.reviews[req.params.reviewId])));
      var o := Apply(Chain(route)[2], ctx, store);
      Handle(route, req, store) == Run(o.result, o.store, Chain(route))
  {
    var ctx := Context(req, NoLocals);
    var ctx' := ctx.(locals := ctx.locals.(review := Some(store.reviews[req.params.reviewId])));
    var chain := Chain(route);
    assert chain[1..][1..] == [chain[2]];
    var o := Apply(chain[2], ctx', store);
    assert !o.result.Continue?;
    assert RunChain([chain[2]], ctx', store) == Run(o.result, o.store, [chain[2]]);
    assert RunChain(chain[1..], ctx, store) == Run(o.result, o.store, [ReviewExists, chain[2]]);
  }

  /** Deleting an existing review removes exactly that review and answers 204
      with no body; the store stays well formed. */
  lemma DeleteRemovesResolvedReview(req: Request, store: Store)
    requires !Truthy(req.params.movieId)
    requires ReviewRead !in store.faults && ReviewDestroy !in store.faults
    requires req.params.reviewId in store.reviews
    requires WellFormed(store)
    ensures var r := Handle(DeleteReview, req, store);
      && r.result == Respond(204, NoBody)
      && r.store == store.(reviews := store.reviews - {req.params.reviewId})
      && WellFormed(r.store)
      && r.trace == Chain(DeleteReview)
  {
    var id := req.params.reviewId;
    ResolvedReviewReachesHandler(DeleteReview, req, store);
    assert Get(store.reviews[id], Reviews.ReviewIdKey) == id;
  }

  /** After a delete, the same review id is no longer found. */
  lemma DeletedReviewIsGone(req: Request, store: Store)
    requires !Truthy(req.params.movieId)
    requires ReviewRead !in store.faults && ReviewDestroy !in store.faults
    requires req.params.reviewId in store.reviews
    requires WellFormed(store)
    ensures var after := Handle(DeleteReview, req, store).store;
      Handle(DeleteReview, req, after).result == Fail(Reviews.ReviewNotFound)
  {
    DeleteRemovesResolvedReview(req, store);
    MissingReviewNotFound(DeleteReview, req, Handle(DeleteReview, req, store).store);
  }

  /** After a delete, no listing of any movie shows the deleted review. */
  lemma DeletedReviewNotListed(req: Request, store: Store, movieId: Value)
    requires !Truthy(req.params.movieId)
    requires ReviewRead !in store.faults && ReviewDestroy !in store.faults
    requires req.params.reviewId in store.reviews
    requires WellFormed(store)
    ensures var after := Handle(DeleteReview, req, store).store;
      forall row :: row in ReviewListing(after, movieId) ==>
        "review_id" in row && row["review_id"] != req.params.reviewId
  {
    DeleteRemovesResolvedReview(req, store);
    ListedRowsAreTableRows(Handle(DeleteReview, req, store).store, movieId);
  }

  /** When a handler's own store call fails after `reviewExists` has passed,
      the boundary forwards a 500 failure: every step of the chain was entered
      and the store is unchanged. */
  lemma HandlerStoreFailure(route: Route, req: Request, store: Store)
    requires route == PutReview || route == DeleteReview
    requires !Truthy(req.params.movieId)
    requires ReviewRead !in store.faults && req.params.reviewId in store.reviews
    requires route == PutReview ==> ReviewUpdate in store.faults
    requires route == DeleteReview ==> ReviewDestroy in store.faults
    ensures var r := Handle(route, req, store);
      && r.result.Fail? && r.result.failure.status == 500
      && r.store == store
      && r.trace == Chain(route)
  {
    ResolvedReviewReachesHandler(route, req, store);
  }

  /** Updating an existing review writes the payload merged over it under the
      same id and answers `{data}` with the merged record; the store stays
      well formed, so no payload can move a review to another id. */
  lemma PutMergesOverResolvedReview(req: Request, store: Store)
    requires !Truthy(req.params.movieId)
    requires ReviewRead !in store.faults && ReviewUpdate !in store.faults
    requires req.params.reviewId in store.reviews
    requires WellFormed(store)
    requires !req.body.Undefined? && !req.body.Null?
    ensures var merged := Reviews.MergeUpdate(store.reviews[req.params.reviewId], Member(req.body, "data").value);
      var r := Handle(PutReview, req, store);
      && merged[Reviews.ReviewIdKey] == req.params.reviewId
      && r.result == DataResponse(Obj(merged))
      && r.store == store.(reviews := store.reviews[req.params.reviewId := merged])
      && WellFormed(r.store)
  {
    var id := req.params.reviewId;
    var review := store.reviews[id];
    var merged := Reviews.MergeUpdate(review, Member(req.body, "data").value);
    assert Get(review, Reviews.ReviewIdKey) == id;
    ResolvedReviewReachesHandler(PutReview, req, store);
    ReplaceReviewKeepsWellFormed(store, id, merged);
  }

  /** After an update, the listing of the merged review's movie shows the
      merged record joined with its critic. */
  lemma UpdatedReviewListed(req: Request, store: Store)
    requires !Truthy(req.params.movieId)
    requires ReviewRead !in store.faults && ReviewUpdate !in store.faults
    requires req.params.reviewId in store.reviews
    requires WellFormed(store)
    requires !req.body.Undefined? && !req.body.Null?
    ensures var merged := Reviews.MergeUpdate(store.reviews[req.params.reviewId], Member(req.body, "data").value);
      Get(merged, "critic_id") in store.critics ==>
        store.critics[Get(merged, "critic_id")] + merged
          in ReviewListing(Handle(PutReview, req, store).store, Get(merged, "movie_id"))
  {
    PutMergesOverResolvedReview(req, store);
    var after := Handle(PutReview, req, store).store;
    var id := req.params.reviewId;
    var merged := after.reviews[id];
    var movieId := Get(merged, "movie_id");
    if Get(merged, "critic_id") in after.critics {
      assert Listed(after, movieId, id);
      ListedRowsAreTableRows(after, movieId);
    }
  }

  /** Listing reviews outside a movie path is refused with 405 before the store
      is queried; under a movie path the answer is the projection of the
      store's rows, in order. */
  lemma MovieReviewsListing(req: Request, store: Store)
    ensures !Truthy(req.params.movieId) ==>
      Handle(GetMovieReviews, req, store) == Run(Fail(MethodNotAllowed), store, [HasMovieIdInPath])
    ensures Truthy(req.params.movieId) && ReviewList !in store.faults ==>
      Handle(GetMovieReviews, req, store) ==
        Run(DataResponse(Arr(Reviews.ProjectAll(ReviewListing(store, req.params.movieId)))), store, Chain(GetMovieReviews))
  {
    var ctx := Context(req, NoLocals);
    assert Chain(GetMovieReviews)[1..] == [ListReviews];
    if Truthy(req.params.movieId) && ReviewList !in store.faults {
      var rows := ReviewListing(store, req.params.movieId);
      var response := DataResponse(Arr(Reviews.ProjectAll(rows)));
      assert Reviews.List(ctx, store).result == response;
      assert RunChain([ListReviews], ctx, store) == Run(response, store, [ListReviews]);
    }
  }

  /** Every element of a successful review listing keeps the projection invariant. */
  lemma ListedReviewsCriticConsistent(req: Request, store: Store)
    requires Truthy(req.params.movieId) && ReviewList !in store.faults
    ensures var r := Handle(GetMovieReviews, req, store);
      && r.result.Respond? && r.result.body.JsonBody? && r.result.body.value.Obj?
      && "data" in r.result.body.value.fields
      && var data := r.result.body.value.fields["data"];
      && data.Arr?
      && forall i :: 0 <= i < |data.items| ==> Reviews.CriticConsistent(data.items[i])
  {
    MovieReviewsListing(req, store);
    var rows := ReviewListing(store, req.params.movieId);
    var items := Reviews.ProjectAll(rows);
    forall i | 0 <= i < |items|
      ensures Reviews.CriticConsistent(items[i])
    {
      Reviews.ProjectionIsCriticConsistent(rows[i]);
    }
  }

  /** Reading a movie answers it when the store holds it; otherwise the chain
      ends in the 404 failure and `read` is never entered. */
  lemma GetMovieOutcome(req: Request, store: Store)
    requires MovieRead !in store.faults
    ensures req.params.movieId in store.movies ==>
      Handle(GetMovie, req, store) ==
        Run(DataResponse(Obj(store.movies[req.params.movieId])), store, Chain(GetMovie))
    ensures req.params.movieId !in store.movies ==>
      Handle(GetMovie, req, store) == Run(Fail(Movies.MovieNotFound), store, [MovieExists])
  {
    var ctx := Context(req, NoLocals);
    assert Chain(GetMovie)[1..] == [ReadMovie];
    if req.params.movieId in store.movies {
      var movie := store.movies[req.params.movieId];
      var ctx' := ctx.(locals := ctx.locals.(movie := Some(movie)));
      assert RunChain([ReadMovie], ctx', store) == Run(DataResponse(Obj(movie)), store, [ReadMovie]);
    }
  }

  /** Listing movies never fails for a path-shape or existence reason: its only
      failure is a store failure, and otherwise it answers the store's rows for
      the raw `is_showing` value, in order. */
  lemma GetMoviesOutcome(req: Request, store: Store)
    ensures Handle(GetMovies, req, store).result.Fail? <==> MovieList in store.faults
    ensures Handle(GetMovies, req, store).result.Fail? ==>
      Handle(GetMovies, req, store).result.failure.status == 500
    ensures MovieList !in store.faults ==>
      Handle(GetMovies, req, store).result ==
        DataResponse(Arr(Movies.Objects(store.movieListing(Get(req.query, "is_showing")))))
  {
  }

  /** No step of the movie routes writes to the store. */
  lemma MovieRoutesNeverWrite(route: Route, req: Request, store: Store)
    requires route == GetMovies || route == GetMovie
    ensures Handle(route, req, store).store == store
  {
    ReadOnlyChainKeepsStore(Chain(route), Context(req, NoLocals), store);
  }
}
