/** The reviews controller: the `reviewExists` existence guard, the two
    path-shape guards, and the `list`, `update` and `destroy` handlers. Each
    step takes the request context and the store and yields a step result
    together with the store as it left it. */
module Reviews {
  import opened Wrappers
  import opened Json
  import opened Http
  import opened Persistence

  const ReviewNotFound: Failure := Failure(404, "Review cannot be found.")

  const ReviewIdKey: string := "review_id"

  /** `reviewExists`: loads the review named by the path and stores it in
      `locals.review`, or forwards the not-found failure. */
  function ReviewExists(ctx: Context, store: Store): (o: Outcome<Store>)
    ensures o.store == store
    ensures ReviewRead !in store.faults && ctx.req.params.reviewId in store.reviews ==>
      o.result == Continue(ctx.(locals := ctx.locals.(review := Some(store.reviews[ctx.req.params.reviewId]))))
    ensures ReviewRead !in store.faults && ctx.req.params.reviewId !in store.reviews ==> o.result == Fail(ReviewNotFound)
    ensures ReviewRead in store.faults ==> o.result.Fail? && o.result.failure.status == 500
  {
    match FindReview(store, ctx.req.params.reviewId)
    case Err(e) => Outcome(Fail(Internal(e)), store)
    case Ok(None) => Outcome(Fail(ReviewNotFound), store)
    case Ok(Some(review)) => Outcome(Continue(ctx.(locals := ctx.locals.(review := Some(review)))), store)
  }

  /** `destroy`: deletes the review resolved in `locals` and answers 204 with no body. */
  function Destroy(ctx: Context, store: Store): (o: Outcome<Store>)
    ensures !o.result.Continue?
    ensures o.result.Respond? <==> ctx.locals.review.Some? && ReviewDestroy !in store.faults
    ensures o.result.Respond? ==>
      && o.result == Respond(204, NoBody)
      && o.store == store.(reviews := o.store.reviews)
      && o.store.reviews.Keys == store.reviews.Keys - {Get(ctx.locals.review.value, ReviewIdKey)}
      && (forall k :: k in o.store.reviews ==> o.store.reviews[k] == store.reviews[k])
    ensures o.result.Fail? ==> o.store == store && o.result.failure.status == 500
    ensures o.store.movies == store.movies
  {
    match ctx.locals.review
    case None => Outcome(Fail(Internal(ReadError("undefined", ReviewIdKey))), store)
    case Some(review) =>
      match RemoveReview(store, Get(review, ReviewIdKey))
      case Err(e) => Outcome(Fail(Internal(e)), store)
      case Ok(store') => Outcome(Respond(204, NoBody), store')
  }

  /** The top-level fields of a review projection copied straight from the row. */
  const ReviewFields: set<string> :=
    {"review_id", "content", "score", "created_at", "updated_at", "critic_id", "movie_id"}

  /** The fields of the nested critic object, all copied from the same row. */
  const CriticFields: set<string> :=
    {"critic_id", "preferred_name", "surname", "organization_name", "created_at", "updated_at"}

  /** The columns of a review row joined with its critic. */
  const JoinedFields: set<string> := ReviewFields + CriticFields

  /** The nested critic object of a projection: the critic's columns of the row. */
  function CriticOf(row: Record): (critic: Record)
    ensures critic.Keys == CriticFields
    ensures forall f :: f in CriticFields ==> critic[f] == Get(row, f)
  {
    map[
      "critic_id" := Get(row, "critic_id"),
      "preferred_name" := Get(row, "preferred_name"),
      "surname" := Get(row, "surname"),
      "organization_name" := Get(row, "organization_name"),
      "created_at" := Get(row, "created_at"),
      "updated_at" := Get(row, "updated_at")]
  }

  /** The review's own fields of a projection, copied from the row. */
  function ReviewOf(row: Record): (review: Record)
    ensures review.Keys == ReviewFields
    ensures forall f :: f in ReviewFields ==> review[f] == Get(row, f)
  {
    map[
      "review_id" := Get(row, "review_id"),
      "content" := Get(row, "content"),
      "score" := Get(row, "score"),
      "created_at" := Get(row, "created_at"),
      "updated_at" := Get(row, "updated_at"),
      "critic_id" := Get(row, "critic_id"),
      "movie_id" := Get(row, "movie_id")]
  }

  /** The `data.map` callback of `list`: a flat joined row becomes a review
      with a nested critic. A column the row lacks is copied as `undefined`. */
  function ProjectRow(row: Record): (p: Value)
    ensures p.Obj? && p.fields.Keys == ReviewFields + {"critic"}
    ensures forall f :: f in ReviewFields ==> p.fields[f] == Get(row, f)
    ensures p.fields["critic"].Obj? && p.fields["critic"].fields.Keys == CriticFields
    ensures forall f :: f in CriticFields ==> p.fields["critic"].fields[f] == Get(row, f)
  {
    assert "critic" !in ReviewFields;
    Obj(ReviewOf(row)["critic" := Obj(CriticOf(row))])
  }

  /** The projection invariant: the nested critic agrees with the review on
      `critic_id` and on both timestamps. */
  ghost predicate CriticConsistent(p: Value)
  {
    && p.Obj? && "critic" in p.fields && p.fields["critic"].Obj?
    && var critic := p.fields["critic"].fields;
    && (forall f :: f in {"critic_id", "created_at", "updated_at"} ==>
          f in critic && f in p.fields && critic[f] == p.fields[f])
  }

  lemma ProjectionIsCriticConsistent(row: Record)
    ensures CriticConsistent(ProjectRow(row))
  {
  }

  /** The inverse of `ProjectRow`: the flat joined row a projection was built from. */
  function Flatten(p: Value): Record
  {
    var top := if p.Obj? then p.fields else map[];
    var critic := if "critic" in top && top["critic"].Obj? then top["critic"].fields else map[];
    map f | f in JoinedFields :: if f in ReviewFields then Get(top, f) else Get(critic, f)
  }

  /** Projecting a joined row and flattening it again gives back exactly the
      row's joined columns, a missing one as `undefined`: no column is lost,
      renamed or mixed up. */
  lemma FlattenProjectRow(row: Record)
    ensures Flatten(ProjectRow(row)) == map f | f in JoinedFields :: Get(row, f)
  {
  }

  /** `data.map(...)` in `list`: one projection per row, in the rows' order. */
  function ProjectAll(rows: seq<Record>): (ps: seq<Value>)
    ensures |ps| == |rows|
    ensures forall i :: 0 <= i < |rows| ==> ps[i] == ProjectRow(rows[i])
  {
    if rows == [] then [] else [ProjectRow(rows[0])] + ProjectAll(rows[1..])
  }

  /** `list`: the movie's reviews, projected, as `{data: [...]}`. */
  function List(ctx: Context, store: Store): (o: Outcome<Store>)
    ensures o.store == store
    ensures o.result.Fail? <==> ReviewList in store.faults
    ensures o.result.Fail? ==> o.result.failure.status == 500
    ensures ReviewList !in store.faults ==>
      var rows := ReviewListing(store, ctx.req.params.movieId);
      && o.result.Respond? && o.result.status == 200
      && o.result.body.JsonBody? && o.result.body.value.Obj?
      && o.result.body.value.fields.Keys == {"data"}
      && var data := o.result.body.value.fields["data"];
      && data.Arr? && |data.items| == |rows|
      && forall i :: 0 <= i < |rows| ==> data.items[i] == ProjectRow(rows[i])
  {
    match QueryReviews(store, ctx.req.params.movieId)
    case Err(e) => Outcome(Fail(Internal(e)), store)
    case Ok(rows) => Outcome(DataResponse(Arr(ProjectAll(rows))), store)
  }

  /** `hasMovieIdInPath`: lets the chain go on only under a movie-scoped path. */
  function HasMovieIdInPath(ctx: Context, store: Store): (o: Outcome<Store>)
    ensures o.store == store
    ensures o.result.Continue? <==> Truthy(ctx.req.params.movieId)
    ensures o.result.Continue? ==> o.result.ctx == ctx
    ensures !o.result.Continue? ==> o.result == Fail(MethodNotAllowed)
  {
    if Truthy(ctx.req.params.movieId) then Outcome(Continue(ctx), store)
    else Outcome(Fail(MethodNotAllowed), store)
  }

  /** `noMovieIdInPath`: lets the chain go on only when the path is not movie-scoped. */
  function NoMovieIdInPath(ctx: Context, store: Store): (o: Outcome<Store>)
    ensures o.store == store
    ensures o.result.Continue? <==> !Truthy(ctx.req.params.movieId)
    ensures o.result.Continue? ==> o.result.ctx == ctx
    ensures !o.result.Continue? ==> o.result == Fail(MethodNotAllowed)
  {
    if Truthy(ctx.req.params.movieId) then Outcome(Fail(MethodNotAllowed), store)
    else Outcome(Continue(ctx), store)
  }

  /** The two path-shape guards are exact complements, and neither touches the
      store or the context. */
  lemma PathGuardsComplementary(ctx: Context, store: Store)
    ensures HasMovieIdInPath(ctx, store).result.Continue? <==> !NoMovieIdInPath(ctx, store).result.Continue?
    ensures HasMovieIdInPath(ctx, store).result.Continue? ==> HasMovieIdInPath(ctx, store).result.ctx == ctx
    ensures NoMovieIdInPath(ctx, store).result.Continue? ==> NoMovieIdInPath(ctx, store).result.ctx == ctx
    ensures !HasMovieIdInPath(ctx, store).result.Continue? ==> HasMovieIdInPath(ctx, store).result == Fail(MethodNotAllowed)
    ensures !NoMovieIdInPath(ctx, store).result.Continue? ==> NoMovieIdInPath(ctx, store).result == Fail(MethodNotAllowed)
  {
  }

  /** The record `update` writes: the resolved review, overlaid with the
      payload's entries, with `review_id` put back to the review's own. */
  function MergeUpdate(review: Record, payload: Value): (merged: Record)
    ensures merged.Keys == review.Keys + Spread(payload).Keys + {ReviewIdKey}
    ensures merged[ReviewIdKey] == Get(review, ReviewIdKey)
    ensures forall k :: k in Spread(payload) && k != ReviewIdKey ==> merged[k] == Spread(payload)[k]
    ensures forall k :: k in review && k !in Spread(payload) && k != ReviewIdKey ==> merged[k] == review[k]
  {
    (review + Spread(payload))[ReviewIdKey := Get(review, ReviewIdKey)]
  }

  /** Whatever `review_id` the payload carries, the merged record keeps the
      resolved review's. */
  lemma MergeKeepsIdentity(review: Record, payload: Record, forged: Value)
    ensures MergeUpdate(review, Obj(payload[ReviewIdKey := forged]))[ReviewIdKey] == Get(review, ReviewIdKey)
    ensures MergeUpdate(review, Obj(payload[ReviewIdKey := forged])) == MergeUpdate(review, Obj(payload))
  {
  }

  /** The worked example: `{review_id: 7, content: "A", score: 3}` updated with
      `{content: "B", review_id: 99}` becomes `{review_id: 7, content: "B", score: 3}`. */
  lemma MergeExample()
    ensures MergeUpdate(map["review_id" := Num(7), "content" := Str("A"), "score" := Num(3)],
                        Obj(map["content" := Str("B"), "review_id" := Num(99)]))
         == map["review_id" := Num(7), "content" := Str("B"), "score" := Num(3)]
  {
  }

  /** Sending the same update twice leaves the review as sending it once. */
  lemma MergeIdempotent(review: Record, payload: Value)
    ensures MergeUpdate(MergeUpdate(review, payload), payload) == MergeUpdate(review, payload)
  {
  }

  /** `update`: merges `request.body.data` over the resolved review, saves it,
      and answers `{data}` with what the store returned. The object literal
      reads `request.body.data` before `locals.review.review_id`, so a missing
      body is reported ahead of a missing review. Any body other than
      `undefined` or `null` is merged: a non-object one has no `data` and
      contributes nothing. */
  function Update(ctx: Context, store: Store): (o: Outcome<Store>)
    ensures !o.result.Continue?
    ensures o.store.movies == store.movies
    ensures o.result.Fail? ==> o.store == store && o.result.failure.status == 500
    ensures o.result.Respond? ==> o.result.status == 200 && ctx.locals.review.Some? && ReviewUpdate !in store.faults
    ensures ctx.req.body.Undefined? || ctx.req.body.Null? || ctx.locals.review.None? || ReviewUpdate in store.faults ==>
      o.result.Fail?
    ensures !ctx.req.body.Undefined? && !ctx.req.body.Null? && ctx.locals.review.Some? && ReviewUpdate !in store.faults ==>
      var review := ctx.locals.review.value;
      var merged := MergeUpdate(review, Member(ctx.req.body, "data").value);
      && (Get(review, ReviewIdKey) in store.reviews ==>
            && o.store == store.(reviews := store.reviews[Get(review, ReviewIdKey) := merged])
            && o.result == DataResponse(Obj(merged)))
      && (Get(review, ReviewIdKey) !in store.reviews ==>
            o.store == store && o.result == DataResponse(Undefined))
  {
    match Member(ctx.req.body, "data")
    case Err(e) => Outcome(Fail(Internal(e)), store)
    case Ok(payload) =>
      match ctx.locals.review
      case None => Outcome(Fail(Internal(ReadError("undefined", ReviewIdKey))), store)
      case Some(review) =>
        match SaveReview(store, MergeUpdate(review, payload))
        case Err(e) => Outcome(Fail(Internal(e)), store)
        case Ok((store', data)) => Outcome(DataResponse(data), store')
  }
}
