/** The persistence layer behind the two controllers, reduced to the operations
    they call and the behaviour they rely on. Rows are keyed by their id value.
    The review listing is computed from the `reviews` and `critics` tables, so
    it reflects every update and delete. The movie listing (the "showing"
    filter) lives in the service layer and is kept abstract as a function of
    the raw query value; nothing in this core writes movies. Each service call
    can fail on its own: a call named in `faults` throws, which is how a store
    failure reaches the error boundary. */
module Persistence {
  import opened Wrappers
  import opened Json

  /** The service functions the controllers await. */
  datatype Call = MovieRead | MovieList | ReviewRead | ReviewList | ReviewUpdate | ReviewDestroy

  datatype Store = Store(
    movies: map<Value, Record>,
    reviews: map<Value, Record>,
    critics: map<Value, Record>,
    reviewOrder: seq<Value>,
    movieListing: Value -> seq<Record>,
    faults: set<Call>)

  const Unavailable: string := "store unavailable"

  /** No id occurs twice. */
  ghost predicate Distinct(ids: seq<Value>)
  {
    forall i, j :: 0 <= i < j < |ids| ==> ids[i] != ids[j]
  }

  /** Every stored row carries its own key in its id column, and the table
      order names every review exactly once. */
  ghost predicate WellFormed(s: Store)
  {
    && (forall k :: k in s.movies ==> Get(s.movies[k], "movie_id") == k)
    && (forall k :: k in s.reviews ==> "review_id" in s.reviews[k] && s.reviews[k]["review_id"] == k)
    && (forall k :: k in s.reviews ==> k in s.reviewOrder)
    && Distinct(s.reviewOrder)
  }

  /** Movies service `read`: the row with the given id, or none. */
  function FindMovie(s: Store, id: Value): (r: Result<Option<Record>>)
    ensures r.Err? <==> MovieRead in s.faults
    ensures r.Ok? ==> (r.value.Some? <==> id in s.movies)
    ensures r.Ok? && r.value.Some? ==> r.value.value == s.movies[id]
  {
    if MovieRead in s.faults then Err(Unavailable)
    else if id in s.movies then Ok(Some(s.movies[id]))
    else Ok(None)
  }

  /** Movies service `list`, given the raw `is_showing` query value. */
  function QueryMovies(s: Store, isShowing: Value): (r: Result<seq<Record>>)
    ensures r.Err? <==> MovieList in s.faults
    ensures r.Ok? ==> r.value == s.movieListing(isShowing)
  {
    if MovieList in s.faults then Err(Unavailable) else Ok(s.movieListing(isShowing))
  }

  /** Reviews service `read`: the row with the given id, or none. */
  function FindReview(s: Store, id: Value): (r: Result<Option<Record>>)
    ensures r.Err? <==> ReviewRead in s.faults
    ensures r.Ok? ==> (r.value.Some? <==> id in s.reviews)
    ensures r.Ok? && r.value.Some? ==> r.value.value == s.reviews[id]
  {
    if ReviewRead in s.faults then Err(Unavailable)
    else if id in s.reviews then Ok(Some(s.reviews[id]))
    else Ok(None)
  }

  /** A review the listing for `movieId` includes: it belongs to that movie and
      its critic exists (the join is an inner join). */
  predicate Listed(s: Store, movieId: Value, id: Value)
  {
    id in s.reviews && Get(s.reviews[id], "movie_id") == movieId && Get(s.reviews[id], "critic_id") in s.critics
  }

  /** The joined row of a listed review: the critic's columns overlaid with the
      review's, so on a shared name (`created_at`, `updated_at`) the review's
      value is the one read. */
  function JoinedRow(s: Store, movieId: Value, id: Value): (row: Record)
    requires Listed(s, movieId, id)
    ensures forall c :: c in s.reviews[id] ==> c in row && row[c] == s.reviews[id][c]
    ensures row.Keys == s.reviews[id].Keys + s.critics[Get(s.reviews[id], "critic_id")].Keys
  {
    s.critics[Get(s.reviews[id], "critic_id")] + s.reviews[id]
  }

  /** The ids of the reviews the listing for `movieId` includes, in the table's order. */
  function ListedIds(s: Store, order: seq<Value>, movieId: Value): (ids: seq<Value>)
    ensures |ids| <= |order|
    ensures forall i :: 0 <= i < |ids| ==> ids[i] in order && Listed(s, movieId, ids[i])
    ensures forall id :: id in order && Listed(s, movieId, id) ==> id in ids
    ensures Distinct(order) ==> Distinct(ids)
  {
    if order == [] then []
    else
      var rest := ListedIds(s, order[1..], movieId);
      assert forall id :: id in order[1..] ==> id in order;
      assert forall id :: id in order ==> id == order[0] || id in order[1..];
      if Listed(s, movieId, order[0]) then
        assert Distinct(order) ==> order[0] !in order[1..];
        [order[0]] + rest
      else rest
  }

  /** What the reviews service `list` returns for a movie when it does not
      fail: one joined row per listed review, in the table's order. */
  function ReviewListing(s: Store, movieId: Value): (rows: seq<Record>)
    ensures var ids := ListedIds(s, s.reviewOrder, movieId);
      && |rows| == |ids|
      && forall i :: 0 <= i < |rows| ==> rows[i] == JoinedRow(s, movieId, ids[i])
  {
    var ids := ListedIds(s, s.reviewOrder, movieId);
    seq(|ids|, i requires 0 <= i < |ids| => JoinedRow(s, movieId, ids[i]))
  }

  /** Reviews service `list`: the movie's reviews, each joined with its critic's columns. */
  function QueryReviews(s: Store, movieId: Value): (r: Result<seq<Record>>)
    ensures r.Err? <==> ReviewList in s.faults
    ensures r.Ok? ==> r.value == ReviewListing(s, movieId)
  {
    if ReviewList in s.faults then Err(Unavailable) else Ok(ReviewListing(s, movieId))
  }

  /** On a well-formed store the row at position `i` of a listing is the
      joined row of a listed review, and carries that review's id. */
  lemma ListingRowIsJoined(s: Store, movieId: Value, i: int)
    requires WellFormed(s)
    requires 0 <= i < |ReviewListing(s, movieId)|
    ensures var row := ReviewListing(s, movieId)[i];
      var id := ListedIds(s, s.reviewOrder, movieId)[i];
      && "review_id" in row && row["review_id"] == id
      && Listed(s, movieId, id) && row == JoinedRow(s, movieId, id)
  {
  }

  /** On a well-formed store the listing for a movie is exactly its reviews
      whose critic exists, each once: every listed row is the joined row of a
      listed review of that movie, with every review column equal to the
      table's, every such review is listed, and no `review_id` is listed twice. */
  lemma ListedRowsAreTableRows(s: Store, movieId: Value)
    requires WellFormed(s)
    ensures forall row :: row in ReviewListing(s, movieId) ==>
      && "review_id" in row && Listed(s, movieId, row["review_id"])
      && row == JoinedRow(s, movieId, row["review_id"])
      && Get(s.reviews[row["review_id"]], "movie_id") == movieId
      && forall c :: c in s.reviews[row["review_id"]] ==> c in row && row[c] == s.reviews[row["review_id"]][c]
    ensures forall id :: Listed(s, movieId, id) ==> JoinedRow(s, movieId, id) in ReviewListing(s, movieId)
    ensures var rows := ReviewListing(s, movieId);
      forall i, j :: 0 <= i < j < |rows| ==> Get(rows[i], "review_id") != Get(rows[j], "review_id")
  {
    var ids := ListedIds(s, s.reviewOrder, movieId);
    var rows := ReviewListing(s, movieId);
    forall row | row in rows
      ensures "review_id" in row && Listed(s, movieId, row["review_id"])
      ensures row == JoinedRow(s, movieId, row["review_id"])
    {
      var i :| 0 <= i < |rows| && rows[i] == row;
      ListingRowIsJoined(s, movieId, i);
    }
    forall id | Listed(s, movieId, id)
      ensures JoinedRow(s, movieId, id) in rows
    {
      var i :| 0 <= i < |ids| && ids[i] == id;
      assert rows[i] == JoinedRow(s, movieId, id);
    }
    forall i, j | 0 <= i < j < |rows|
      ensures Get(rows[i], "review_id") != Get(rows[j], "review_id")
    {
      ListingRowIsJoined(s, movieId, i);
      ListingRowIsJoined(s, movieId, j);
    }
  }

  /** Reviews service `update`: replaces the row whose id is the record's
      `review_id` and returns the record as written; an id with no row changes
      nothing and returns no data. */
  function SaveReview(s: Store, review: Record): (r: Result<(Store, Value)>)
    ensures r.Err? <==> ReviewUpdate in s.faults
    ensures r.Ok? && Get(review, "review_id") in s.reviews ==>
      r.value.0 == s.(reviews := s.reviews[Get(review, "review_id") := review]) && r.value.1 == Obj(review)
    ensures r.Ok? && Get(review, "review_id") !in s.reviews ==> r.value.0 == s
  {
    var id := Get(review, "review_id");
    if ReviewUpdate in s.faults then Err(Unavailable)
    else if id in s.reviews then Ok((s.(reviews := s.reviews[id := review]), Obj(review)))
    else Ok((s, Undefined))
  }

  /** Replacing a review by a record that carries the same id keeps the
      store well formed. */
  lemma ReplaceReviewKeepsWellFormed(s: Store, id: Value, review: Record)
    requires WellFormed(s) && id in s.reviews
    requires "review_id" in review && review["review_id"] == id
    ensures WellFormed(s.(reviews := s.reviews[id := review]))
  {
  }

  /** Reviews service `destroy`: removes the row with the given id, if any. */
  function RemoveReview(s: Store, id: Value): (r: Result<Store>)
    ensures r.Err? <==> ReviewDestroy in s.faults
    ensures r.Ok? ==> r.value.reviews.Keys == s.reviews.Keys - {id}
    ensures r.Ok? ==> forall k :: k in r.value.reviews ==> r.value.reviews[k] == s.reviews[k]
    ensures r.Ok? ==> r.value == s.(reviews := r.value.reviews)
  {
    if ReviewDestroy in s.faults then Err(Unavailable) else Ok(s.(reviews := s.reviews - {id}))
  }
}
