/** The documents the checkout and return handlers read and write: customers
    (only their ids matter here), movies and rentals, and the invariant that
    ties a movie's stock to its open rentals. */
module Store {
  import opened Common
  import opened MovieModel
  import opened RentalModel

  /** A snapshot of the store. Rentals are kept in stored (insertion) order,
      the order in which a query without sort visits them. */
  datatype Db = Db(customers: set<string>, movies: map<string, Movie>, rentals: seq<Rental>)

  /** Why a handler refused a request. */
  datatype Reason =
    | InvalidBody
    | CustomerNotFound(customerId: string)
    | MovieNotFound(movieId: string)
    | NotInStock
    | RentalNotFound
    | AlreadyProcessed

  /** The text sent with a refusal; None for an invalid body, which is
      answered with the validator's own message, not reproduced here. */
  function Message(reason: Reason): (text: Option<string>)
    ensures text.None? <==> reason == InvalidBody
  {
    match reason
    case InvalidBody => None
    case CustomerNotFound(id) => Some("Customer with id: " + id + " not found.")
    case MovieNotFound(id) => Some("Movie with id: " + id + " not found.")
    case NotInStock => Some("Movie not in stock.")
    case RentalNotFound => Some("rental not found")
    case AlreadyProcessed => Some("Rental already processed")
  }

  /** A refusal's text tells its reason apart from every other: two reasons
      with the same message are the same reason, down to the id they name. */
  lemma MessageIdentifiesReason(r1: Reason, r2: Reason)
    requires Message(r1) == Message(r2)
    ensures r1 == r2
  {
    match r1
    case CustomerNotFound(a) =>
      var t := Message(r1).value;
      assert t[1] == 'u';
      if r2.CustomerNotFound? {
        assert a == t[18..|t| - 11] == r2.customerId;
      }
    case MovieNotFound(a) =>
      var t := Message(r1).value;
      assert t[1] == 'o' && t[6] == 'w';
      if r2.MovieNotFound? {
        assert a == t[15..|t| - 11] == r2.movieId;
      }
    case _ =>  // the other texts are fixed, and pairwise different
  }

  /** What a handler does with the request. */
  datatype Response =
    | Sent(rental: Rental)                  // status 200, the rental document as body
    | Refused(status: int, reason: Reason)  // a 4xx status with `Message(reason)`
    | Threw                                 // the handler throws before it answers
    | NoResponse                            // the handler ends without answering

  /** 1 when `r` is an open rental of `movieId`, else 0. */
  function OpenFor(r: Rental, movieId: string): nat {
    if IsOpen(r) && r.movie == movieId then 1 else 0
  }

  /** The number of open rentals of a movie: the copies that are out. */
  function OpenCount(rentals: seq<Rental>, movieId: string): nat {
    if rentals == [] then 0
    else OpenCount(rentals[..|rentals| - 1], movieId) + OpenFor(rentals[|rentals| - 1], movieId)
  }

  /** Appending a rental adds its own share to the count and nothing else. */
  lemma OpenCountAppend(rentals: seq<Rental>, r: Rental, movieId: string)
    ensures OpenCount(rentals + [r], movieId) == OpenCount(rentals, movieId) + OpenFor(r, movieId)
  {
    assert (rentals + [r])[..|rentals|] == rentals;
  }

  /** Replacing one rental changes the count by the difference of the two shares. */
  lemma {:induction false} OpenCountUpdate(rentals: seq<Rental>, i: nat, r: Rental, movieId: string)
    requires i < |rentals|
    ensures OpenCount(rentals[i := r], movieId) + OpenFor(rentals[i], movieId)
            == OpenCount(rentals, movieId) + OpenFor(r, movieId)
  {
    var n := |rentals| - 1;
    var after := rentals[i := r];
    if i == n {
      assert after[..n] == rentals[..n];
    } else {
      assert after[..n] == rentals[..n][i := r];
      OpenCountUpdate(rentals[..n], i, r, movieId);
    }
  }

  /** A movie's copies: those on the shelf plus those out on open rentals. */
  function Inventory(db: Db, movieId: string): int
    requires movieId in db.movies
  {
    db.movies[movieId].numberInStock + OpenCount(db.rentals, movieId)
  }

  predicate HasId(rentals: seq<Rental>, id: string) {
    exists k :: 0 <= k < |rentals| && rentals[k].id == id
  }

  predicate UniqueIds(rentals: seq<Rental>) {
    forall j, k :: 0 <= j < k < |rentals| ==> rentals[j].id != rentals[k].id
  }

  /** What the two handlers keep true of the store: every movie within the
      schema's bounds, with no more copies in all than the stock bound allows;
      rental ids distinct; every rental with a fee exactly when it has a return date. */
  predicate Consistent(db: Db) {
    && (forall m :: m in db.movies ==> ValidMovie(db.movies[m]) && Inventory(db, m) <= MaxStock)
    && UniqueIds(db.rentals)
    && (forall k :: 0 <= k < |db.rentals| ==> WellFormed(db.rentals[k]))
  }

  /** In a consistent store, a movie with an open rental has at most 254 copies on
      the shelf, so taking one back in keeps it within the schema's bound. */
  lemma ShelfRoomForReturn(db: Db, i: nat)
    requires Consistent(db) && i < |db.rentals| && IsOpen(db.rentals[i])
    requires db.rentals[i].movie in db.movies
    ensures db.movies[db.rentals[i].movie].numberInStock < MaxStock
  {
    var m := db.rentals[i].movie;
    OpenCountUpdate(db.rentals, i, db.rentals[i].(dateReturned := Some(0)), m);
  }

  /** The store, as the handlers update it in place. */
  class Database {
    var customers: set<string>
    var movies: map<string, Movie>
    var rentals: seq<Rental>

    function State(): Db
      reads this
    {
      Db(customers, movies, rentals)
    }

    constructor (db: Db)
      ensures State() == db
    {
      customers, movies, rentals := db.customers, db.movies, db.rentals;
    }
  }
}
