/** Checkout (routes/rentals.js, POST /): the guards in their order, then the
    new open rental and the stock decrement written as one transaction. */
module CheckoutRoute {
  import opened Common
  import opened MovieModel
  import opened RentalModel
  import opened Store

  /** The checkout of `body` against store `db` at instant `now`, as a value.
      `newId` is the id the new rental document receives; `commits` says
      whether the store commits the transaction. A transaction also fails when
      `newId` is already taken (a duplicate key). Every outcome other than
      success leaves the store as it was, and every refusal is a 400. */
  function Checkout(db: Db, body: Body, newId: string, now: int, commits: bool): (out: (Response, Db))
    ensures !out.0.Sent? ==> out.1 == db
    ensures out.0.Refused? ==> out.0.status == 400
  {
    match ValidateRental(body)
    case None => (Refused(400, InvalidBody), db)
    case Some(req) =>
      var customerId, movieId := Canonical(req.customerId), Canonical(req.movieId);
      if customerId !in db.customers then (Refused(400, CustomerNotFound(req.customerId)), db)
      else if movieId !in db.movies then (Refused(400, MovieNotFound(req.movieId)), db)
      else if db.movies[movieId].numberInStock == 0 then (Refused(400, NotInStock), db)
      else if !commits || HasId(db.rentals, newId) then (NoResponse, db)
      else
        var rental := NewRental(newId, movieId, customerId, now);
        (Sent(rental), Commit(db, rental, movieId))
  }

  /** The transaction's two writes: the rental appended, and
      `$inc: { numberInStock: -1 }` on its movie. */
  function Commit(db: Db, rental: Rental, movieId: string): (after: Db)
    requires movieId in db.movies
    ensures after.customers == db.customers && after.rentals == db.rentals + [rental]
    ensures after.movies.Keys == db.movies.Keys
    ensures after.movies[movieId].numberInStock == db.movies[movieId].numberInStock - 1
    ensures && after.movies[movieId].title == db.movies[movieId].title
            && after.movies[movieId].genre == db.movies[movieId].genre
            && after.movies[movieId].dailyRentalRate == db.movies[movieId].dailyRentalRate
    ensures forall m :: m in db.movies && m != movieId ==> after.movies[m] == db.movies[m]
  {
    var movie := db.movies[movieId];
    Db(db.customers, db.movies[movieId := movie.(numberInStock := movie.numberInStock - 1)], db.rentals + [rental])
  }

  /** Committing a new open rental of a movie with a copy on the shelf keeps
      the store consistent and every movie's copies unchanged. */
  lemma CommitKeepsConsistent(db: Db, rental: Rental, movieId: string)
    requires Consistent(db) && movieId in db.movies && db.movies[movieId].numberInStock != 0
    requires IsOpen(rental) && WellFormed(rental) && rental.movie == movieId && !HasId(db.rentals, rental.id)
    ensures Consistent(Commit(db, rental, movieId))
    ensures forall m :: m in db.movies ==> Inventory(Commit(db, rental, movieId), m) == Inventory(db, m)
  {
    var after := Commit(db, rental, movieId);
    CommitKeepsCopies(db, rental, movieId);
    AppendKeepsUniqueIds(db.rentals, rental);
    forall m | m in after.movies
      ensures ValidMovie(after.movies[m]) && Inventory(after, m) <= MaxStock
    {
      if m == movieId {
        var movie := db.movies[m];
        assert after.movies[m] == movie.(numberInStock := movie.numberInStock - 1);
        assert ValidMovie(movie);
      } else {
        assert after.movies[m] == db.movies[m];
      }
    }
  }

  /** The copy that leaves the shelf is the one the new rental holds: every
      movie keeps its copies. */
  lemma CommitKeepsCopies(db: Db, rental: Rental, movieId: string)
    requires movieId in db.movies && IsOpen(rental) && rental.movie == movieId
    ensures forall m :: m in db.movies ==> Inventory(Commit(db, rental, movieId), m) == Inventory(db, m)
  {
    var after := Commit(db, rental, movieId);
    forall m | m in db.movies
      ensures Inventory(after, m) == Inventory(db, m)
    {
      OpenCountAppend(db.rentals, rental, m);
    }
  }

  /** A rental whose id is new keeps the ids distinct when it is appended. */
  lemma AppendKeepsUniqueIds(rentals: seq<Rental>, r: Rental)
    requires UniqueIds(rentals) && !HasId(rentals, r.id)
    ensures UniqueIds(rentals + [r])
  {
    var after := rentals + [r];
    forall j, k | 0 <= j < k < |after|
      ensures after[j].id != after[k].id
    {
      assert after[j] == rentals[j];
      if k == |rentals| {
        assert after[k] == r;
      }
    }
  }

  /** A checkout succeeds exactly when the body is valid, the customer and the
      movie exist, the movie is in stock and the transaction commits. */
  lemma CheckoutSucceedsIff(db: Db, body: Body, newId: string, now: int, commits: bool)
    ensures Checkout(db, body, newId, now, commits).0.Sent?
            <==> && ValidateRental(body).Some?
                 && Canonical(ValidateRental(body).value.customerId) in db.customers
                 && Canonical(ValidateRental(body).value.movieId) in db.movies
                 && db.movies[Canonical(ValidateRental(body).value.movieId)].numberInStock != 0
                 && commits && !HasId(db.rentals, newId)
  {
  }

  /** The guards run in order: an invalid body is refused before any lookup,
      a missing customer before the movie is looked at, a missing movie before
      its stock is. */
  lemma CheckoutGuardOrder(db: Db, body: Body, newId: string, now: int, commits: bool)
    ensures ValidateRental(body).None? ==> Checkout(db, body, newId, now, commits).0 == Refused(400, InvalidBody)
    ensures ValidateRental(body).Some? && Canonical(ValidateRental(body).value.customerId) !in db.customers
            ==> Checkout(db, body, newId, now, commits).0 == Refused(400, CustomerNotFound(ValidateRental(body).value.customerId))
    ensures ValidateRental(body).Some? && Canonical(ValidateRental(body).value.customerId) in db.customers
            && Canonical(ValidateRental(body).value.movieId) !in db.movies
            ==> Checkout(db, body, newId, now, commits).0 == Refused(400, MovieNotFound(ValidateRental(body).value.movieId))
  {
  }

  /** A successful checkout appends exactly one rental, open and started now,
      of this movie and this customer; takes exactly one copy off that movie's
      shelf and changes nothing else. */
  lemma CheckoutSuccess(db: Db, body: Body, newId: string, now: int, commits: bool)
    requires Checkout(db, body, newId, now, commits).0.Sent?
    ensures var (res, after) := Checkout(db, body, newId, now, commits);
            var req := ValidateRental(body).value;
            var movieId := Canonical(req.movieId);
            && |after.rentals| == |db.rentals| + 1
            && after.rentals[..|db.rentals|] == db.rentals
            && (var r := after.rentals[|db.rentals|];
                && r == res.rental && r.id == newId
                && IsOpen(r) && r.rentalFee.None?
                && r.movie == movieId && r.customer == Canonical(req.customerId)
                && r.rentalStartDate == now && r.returnByDate == now + 604800000)
            && after.movies.Keys == db.movies.Keys
            && after.movies[movieId].numberInStock == db.movies[movieId].numberInStock - 1
            && after.movies[movieId].(numberInStock := 0) == db.movies[movieId].(numberInStock := 0)
            && (forall m :: m in db.movies && m != movieId ==> after.movies[m] == db.movies[m])
            && after.customers == db.customers
            && OpenCount(after.rentals, movieId) == OpenCount(db.rentals, movieId) + 1
  {
    var (res, after) := Checkout(db, body, newId, now, commits);
    var movieId := Canonical(ValidateRental(body).value.movieId);
    assert after.rentals == db.rentals + [res.rental];
    OpenCountAppend(db.rentals, res.rental, movieId);
  }

  /** Checkout keeps the store consistent and every movie's copies (shelf plus
      open rentals) unchanged: the copy taken off the shelf is the one now out. */
  lemma CheckoutPreservesConsistency(db: Db, body: Body, newId: string, now: int, commits: bool)
    requires Consistent(db)
    ensures var after := Checkout(db, body, newId, now, commits).1;
            && Consistent(after)
            && after.movies.Keys == db.movies.Keys
            && forall m :: m in db.movies ==> Inventory(after, m) == Inventory(db, m)
  {
    var req := ValidateRental(body);
    if && req.Some? && Canonical(req.value.customerId) in db.customers
       && Canonical(req.value.movieId) in db.movies
       && db.movies[Canonical(req.value.movieId)].numberInStock != 0
       && commits && !HasId(db.rentals, newId) {
      var movieId := Canonical(req.value.movieId);
      var rental := NewRental(newId, movieId, Canonical(req.value.customerId), now);
      assert Checkout(db, body, newId, now, commits).1 == Commit(db, rental, movieId);
      CommitKeepsConsistent(db, rental, movieId);
    }
  }

  /** Checking out a movie with no copy on the shelf is refused and changes nothing. */
  lemma OutOfStockChangesNothing(db: Db, customerId: string, movieId: string, newId: string, now: int, commits: bool)
    requires IsObjectIdString(customerId) && IsObjectIdString(movieId)
    requires Canonical(customerId) in db.customers
    requires Canonical(movieId) in db.movies && db.movies[Canonical(movieId)].numberInStock == 0
    ensures Checkout(db, RentalBody(RentalRequest(customerId, movieId)), newId, now, commits)
            == (Refused(400, NotInStock), db)
  {
    ValidateRentalAccepts(RentalRequest(customerId, movieId));
  }

  /** The handler: each guard answers and returns early; past them the rental
      document is built and `addRental` saves it and decrements the stock in
      one transaction, which either commits both writes or aborts both. */
  method PostRental(db: Database, body: Body, newId: string, now: int, commits: bool) returns (res: Response)
    modifies db
    ensures (res, db.State()) == Checkout(old(db.State()), body, newId, now, commits)
  {
    var req := ValidateRental(body);
    if req.None? {
      return Refused(400, InvalidBody);
    }
    var customerId := Canonical(req.value.customerId);
    if customerId !in db.customers {
      return Refused(400, CustomerNotFound(req.value.customerId));
    }
    var movieId := Canonical(req.value.movieId);
    if movieId !in db.movies {
      return Refused(400, MovieNotFound(req.value.movieId));
    }
    var movie := db.movies[movieId];
    if movie.numberInStock == 0 {
      return Refused(400, NotInStock);
    }
    var rental := new RentalDocument(newId, movieId, customerId, now);
    // addRental: save the rental and apply `$inc: { numberInStock: -1 }` in one transaction
    if commits && !HasId(db.rentals, newId) {
      var stored := db.movies[movieId];
      db.rentals := db.rentals + [rental.Record()];
      db.movies := db.movies[movieId := stored.(numberInStock := stored.numberInStock - 1)];
      res := Sent(rental.Record());
    } else {
      // abortTransaction: neither write persists, and nothing is sent
      res := NoResponse;
    }
  }
}
