# WeLoveMovies request pipeline in Dafny

This project models the request-handling core of the WeLoveMovies API: the
two Express controllers for movies and reviews. Each exported route is a
short, fixed chain of middleware steps. A step either passes control on with
`next()`, ends the request with a response, or forwards a `{status, message}`
failure with `next(err)`. Express runs the chain in order and stops at the
first step that does not call `next()` without an argument.

The model follows that structure:

- `Json` holds JavaScript values: `undefined`, `null`, booleans, integers, strings, arrays and objects.
  It defines truthiness, property access (which throws on `undefined`/`null`) and object spread
  (own properties of objects, index keys of arrays and strings).
- `Persistence` is the store behind the services. It keeps movies, reviews and critics as
  `map<Value, Record>` tables with find, list, save and remove operations.
  - The review listing for a movie is computed from the reviews and critics tables, in a table order that names every review once, so it reflects every update and delete.
  - Each service call can be marked as failing; a failing call throws.
- `Http` holds the request, `response.locals`, the step results (`Continue`, `Respond`, `Fail`)
  and the shared 405 failure.
- `Reviews` and `Movies` hold one pure function per controller function. Each takes the context and
  the store and returns a step result together with the store as it left it.
- `Routes` holds the step enumeration, the sequential runner `RunChain`, the exported chain of every
  route, and the lemmas about whole requests. These cover path guards running before any store
  access, short-circuiting, the 404 paths, delete and update effects, and movie routes never writing.

The async error boundary is modelled inside the steps that use the store. A store error comes back
from such a step as `Fail` with status 500, which is the error the boundary forwards to `next`.

## Model

| member | source | states |
|---|---|---|
| Reviews.ReviewExists | src/reviews/reviews.controller.js:6-18 | a review held under the path's `reviewId` is put in `locals.review` (the movie slot untouched) and the chain continues; an absent id fails with 404 "Review cannot be found."; a store error fails with 500; the store is never changed |
| Reviews.Destroy | src/reviews/reviews.controller.js:20-24 | never continues; responds 204 with no body exactly when a review is resolved and the delete call does not fail, and then the review table loses exactly the resolved review's `review_id` while every other row and table is kept; otherwise it fails with 500 and the store is unchanged |
| Reviews.ProjectRow | src/reviews/reviews.controller.js:28-44 | the projection has exactly the seven review fields plus `critic`, each equal to the row's field (`undefined` when missing); `critic` has exactly its six fields, each copied from the same row |
| Reviews.ProjectionIsCriticConsistent | src/reviews/reviews.controller.js:36-43 | in every projection the nested critic's `critic_id`, `created_at` and `updated_at` equal the projection's own |
| Reviews.FlattenProjectRow | src/reviews/reviews.controller.js:28-44 | for every row, flattening its projection gives back exactly its joined columns, a missing one as `undefined`, so the reshaping loses and mixes up nothing |
| Reviews.ProjectAll | src/reviews/reviews.controller.js:28 | the mapped list has the rows' length and order, with element i being the projection of row i |
| Reviews.List | src/reviews/reviews.controller.js:26-46 | unless the store's list call fails, responds 200 with `{data}` holding one projection per row the store lists for the path's `movieId`, in order; fails only on that store error, with 500; never writes |
| Reviews.HasMovieIdInPath | src/reviews/reviews.controller.js:48-53 | continues with the context unchanged iff `params.movieId` is truthy, otherwise fails with the shared 405; store untouched |
| Reviews.NoMovieIdInPath | src/reviews/reviews.controller.js:55-60 | fails with the shared 405 iff `params.movieId` is truthy, otherwise continues with the context unchanged; store untouched |
| Reviews.PathGuardsComplementary | src/reviews/reviews.controller.js:48-60 | the two path guards continue on exactly complementary requests, never alter the context, and refuse only with the 405 failure |
| Reviews.MergeUpdate | src/reviews/reviews.controller.js:63-67 | the merged keys are the review's keys, the payload's keys and `review_id`; `review_id` is the review's own; every other payload key takes the payload value; every key absent from the payload keeps the review's value |
| Reviews.MergeKeepsIdentity | src/reviews/reviews.controller.js:63-67 | whatever `review_id` the payload forges, the merge equals the merge without it and keeps the resolved review's id |
| Reviews.MergeExample | src/reviews/reviews.controller.js:63-67 | the documented example: `{review_id: 7, content: "A", score: 3}` updated with `{content: "B", review_id: 99}` becomes `{review_id: 7, content: "B", score: 3}` |
| Reviews.MergeIdempotent | src/reviews/reviews.controller.js:63-67 | merging the same payload twice gives the same record as merging it once |
| Reviews.Update | src/reviews/reviews.controller.js:62-70 | with any body other than `undefined`/`null`, a resolved review that the store holds and a working update call, the store's row becomes the merge of `body.data` (read as JavaScript does, so `undefined` for a non-object body) over the review, nothing else in the store changes, and the response is 200 `{data: merged}`; if the store holds no row under the review's `review_id`, nothing is written and `data` is `undefined`; it never continues; a missing body, missing review or failing update call fails with 500 and leaves the store unchanged |
| Json.Member | src/reviews/reviews.controller.js:65 | reading `request.body.data` throws exactly when the body is `undefined` or `null`, reads an object's own property, and is `undefined` on other values |
| Json.Spread | src/reviews/reviews.controller.js:64-65 | spreading an object contributes its own entries; an array contributes exactly its index keys with key i holding element i; a string does the same with its one-character strings; anything else contributes nothing |
| Json.DigitsInjective | src/reviews/reviews.controller.js:65 | distinct indices have distinct decimal keys, so no spread index entry overwrites another |
| Movies.MovieExists | src/movies/movies.controller.js:4-15 | a movie held under the path's `movieId` is put in `locals.movie` (the review slot untouched) and the chain continues; an absent id fails with 404 "Movie cannot be found"; a store error fails with 500; the store is never changed |
| Movies.Read | src/movies/movies.controller.js:17-20 | always responds 200 with a body whose only key `data` is the movie resolved in `locals`, or `undefined` if none was |
| Movies.List | src/movies/movies.controller.js:22-26 | passes the raw `is_showing` query value, possibly `undefined`, to the store and responds 200 with its rows in the same order and number; fails only on a store error; never writes |
| Routes.RunChain | src/reviews/reviews.controller.js:72-84 | Express's runner, which is not in the repository, applied to the exported chains: the steps entered are a prefix of the chain; a run that continues entered all of them; a run that ended entered at least one |
| Routes.RunAppend | src/reviews/reviews.controller.js:72-84 | a law of Express's runner (not in the repository) over the exported chains: running a concatenated chain is running the first part and, only if it continued, the second part from the context and store it left |
| Routes.StopsAtFirstEnd | src/reviews/reviews.controller.js:72-84 | a law of Express's runner (not in the repository) over the exported chains: once a step responds or fails, no later step is entered and the request ends with that step's result and store |
| Routes.Chain | src/reviews/reviews.controller.js:72-84 | every route's chain has one to three steps and no step twice |
| Routes.ChainEndsInHandler | src/reviews/reviews.controller.js:72-84 | every route's chain, the movie chains at src/movies/movies.controller.js:28-30 included, ends in exactly one handler: its last step is a handler and no earlier step is |
| Routes.NoStepEnteredTwice | src/reviews/reviews.controller.js:72-84 | no step is entered twice in one request on any route |
| Routes.HandlerEnds | src/reviews/reviews.controller.js:20-70 | each handler (review list, update and delete, and the movie read and list at src/movies/movies.controller.js:17-26) responds or fails and never continues, for every context and store |
| Routes.EveryRequestEnds | src/reviews/reviews.controller.js:72-84 | every request on every route, for every request and store, ends in a response or a forwarded failure and never falls through to a later route; the movie chains at src/movies/movies.controller.js:28-31 too |
| Routes.ReadOnlyStepKeepsStore | src/reviews/reviews.controller.js:6-60 | every step other than the review update and delete handlers leaves the store unchanged: the review guards and list handler cited here, and the movie steps at src/movies/movies.controller.js:4-26 |
| Routes.ReadOnlyChainKeepsStore | src/movies/movies.controller.js:28-32 | a general law of Express's runner (not in the repository), used here for the movie chains: a chain made only of read-only steps leaves the store unchanged |
| Routes.MovieScopedReviewWriteRefused | src/reviews/reviews.controller.js:73-83 | an update or delete with a truthy `movieId` ends in the 405 failure after entering only `noMovieIdInPath`, with the store unchanged |
| Routes.RefusalIgnoresStore | src/reviews/reviews.controller.js:73-83 | that refusal is the same whatever the store holds, so the store is never consulted |
| Routes.MissingReviewNotFound | src/reviews/reviews.controller.js:73-83 | an update or delete of a review the store lacks ends in the 404 failure after `noMovieIdInPath` and `reviewExists`, without entering the handler, with the store unchanged |
| Routes.ResolvedReviewReachesHandler | src/reviews/reviews.controller.js:73-83 | on PUT and DELETE without a truthy `movieId`, with the review held and readable, both guards pass and the handler runs with that review in `locals.review`; its result and store end the request and every step is entered |
| Routes.DeleteRemovesResolvedReview | src/reviews/reviews.controller.js:73-77 | on a well-formed store, deleting a held review enters all three steps, responds 204 with no body, removes exactly that id and keeps the store well formed |
| Routes.DeletedReviewIsGone | src/reviews/reviews.controller.js:73-77 | deleting the same review a second time ends in the 404 failure |
| Routes.DeletedReviewNotListed | src/reviews/reviews.controller.js:20-27 | after a delete, no movie's review listing shows the deleted review, because `list` reads the table `destroy` wrote |
| Routes.HandlerStoreFailure | src/reviews/reviews.controller.js:73-83 | when `reviewExists` passes but the handler's own update or delete call fails, the request ends in a 500 failure after entering every step, with the store unchanged |
| Routes.PutMergesOverResolvedReview | src/reviews/reviews.controller.js:79-83 | on a well-formed store and any body other than `undefined`/`null`, updating a held review stores the merge of `body.data` under the same id, responds `{data: merged}`, and keeps the store well formed |
| Routes.UpdatedReviewListed | src/reviews/reviews.controller.js:79-83 | on a well-formed store, after an update the listing for the merged review's movie shows the merged record joined with its critic whenever that critic exists |
| Persistence.ListedRowsAreTableRows | src/reviews/reviews.controller.js:27 | on a well-formed store, the rows `list` receives are exactly the movie's reviews whose critic exists, each once: every row is the joined row of a held review of that movie whose critic exists, with every review column equal to the table's, every such review is listed, and no `review_id` appears twice |
| Routes.MovieReviewsListing | src/reviews/reviews.controller.js:78 | a review listing without a truthy `movieId` ends in the 405 failure before any store access; with one and a working list call, it responds with the projections of the rows the store lists for that movie |
| Routes.ListedReviewsCriticConsistent | src/reviews/reviews.controller.js:26-46 | every element of a successful review listing keeps the critic consistency invariant |
| Routes.GetMovieOutcome | src/movies/movies.controller.js:30 | reading a held movie responds `{data: movie}`; reading an absent one ends in the 404 failure after entering only `movieExists` |
| Routes.GetMoviesOutcome | src/movies/movies.controller.js:29 | the movie listing fails iff the store fails (with 500), never for a path-shape or existence reason, and otherwise responds with the store's rows for the raw `is_showing` value |
| Routes.MovieRoutesNeverWrite | src/movies/movies.controller.js:28-32 | no request on a movie route changes the store |

## Left out

- The services (`reviews.service`, `movies.service`) and their knex queries are not part of this model. The store stands in for them with the behaviour the controllers rely on. It finds a row by id, saves a row under its own `review_id`, and removes a row by id.
- The movie listing is an abstract function of the raw `is_showing` value. What `is_showing` filters on is decided in the service, and the listing is not tied to the movies table. Nothing in this core writes movies, so no write can make it stale.
- The review listing is an inner join of reviews with critics, ordered by a fixed table order. On a well-formed store this order names every review exactly once. Its rows are the critic's columns overlaid with the review's, so on a shared name such as `created_at` the review's value is read. The service's real column selection and ordering are not visible.
- A failing service call is chosen per request by naming the call, such as the reviews `destroy`. Each call is made at most once in a request, so this amounts to per-call failure. Failures that come and go within one call, or partial writes, are not modelled.
- The value the service returns after an update is assumed to be the record as written. The service's real return shape is not visible.
- Ids are compared by value equality. The database's coercion of path text such as `"42"` to a numeric key is not modelled.
- `asyncErrorBoundary` and `methodNotAllowed` are not part of this model. A thrown error becomes a failure with status 500. Method-not-allowed is a fixed 405 failure whose message text is a placeholder.
- The terminal error handler, Express routing, body parsing and JSON serialisation are left out. So is status transmission: a `data` of `undefined` stays in the modelled body, although JSON output would drop it.
- Async suspension and concurrent requests are left out. One request runs sequentially against one store value.
- JavaScript numbers are integers here: no floating point and no `NaN`.
- Json.Spread: a string spreads into one key per Unicode scalar value, whereas JavaScript spreads by UTF-16 code unit, so a character outside the Basic Multilingual Plane gives one key here and two in JavaScript. Property access sees own properties only; prototype properties such as `length` are not modelled.
- The unused `column` import at src/reviews/reviews.controller.js:4 is left out. So is the export of `movieExists` on its own at src/movies/movies.controller.js:31.
- `read` at src/movies/movies.controller.js:30 is not wrapped in the error boundary. It cannot throw, so the model treats it like the wrapped steps.
