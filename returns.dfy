/** Return (routes/returns.js, POST /): look the rental up, refuse a missing or
    already-closed one, close it with its fee, then put the copy back on the
    shelf. The two writes are separate: either can fail on its own. */
module ReturnRoute {
  import opened Common
  import opened MovieModel
  import opened RentalModel
  import opened Store

  /** Which of the two saves go through. */
  datatype SaveOutcome = BothSaved | RentalSaveFails | MovieSaveFails

  /** The return of `body` against store `db` at instant `now`, as a value.
      `found` is what the rental lookup resolved to. A missing movie makes
      `setRentalFee` throw before anything is saved. Refusals leave the store
      as it was; 404 is reserved for a missing rental. */
  function Return(db: Db, body: Body, found: Option<nat>, now: int, saves: SaveOutcome): (out: (Response, Db))
    requires LookupAdmits(db.rentals, found)
    ensures out.0.Refused? ==> out.1 == db
    ensures out.0.Refused? && out.0.status == 404 <==> ValidateRental(body).Some? && found.None?
    ensures out.1.customers == db.customers && |out.1.rentals| == |db.rentals|
  {
    match ValidateRental(body)
    case None => (Refused(400, InvalidBody), db)
    case Some(req) =>
      var movieId := Canonical(req.movieId);
      if found.None? then (Refused(404, RentalNotFound), db)
      else
        var i := found.value;
        if !IsOpen(db.rentals[i]) then (Refused(400, AlreadyProcessed), db)
        else if movieId !in db.movies then (Threw, db)
        else
          var closed := Closed(db.rentals[i], db.movies[movieId], now);
          match saves
          case RentalSaveFails => (Threw, db)
          case MovieSaveFails => (Threw, SaveRental(db, i, closed))
          case BothSaved => (Sent(closed), Restock(SaveRental(db, i, closed), movieId))
  }

  /** The rental's save: the stored rental `i` replaced by `closed`. */
  function SaveRental(db: Db, i: nat, closed: Rental): (after: Db)
    requires i < |db.rentals|
    ensures after.customers == db.customers && after.movies == db.movies
    ensures |after.rentals| == |db.rentals| && after.rentals[i] == closed
    ensures forall k :: 0 <= k < |db.rentals| && k != i ==> after.rentals[k] == db.rentals[k]
  {
    db.(rentals := db.rentals[i := closed])
  }

  /** The movie's save after `$inc: { numberInStock: 1 }`: one more copy on the shelf. */
  function Restock(db: Db, movieId: string): (after: Db)
    requires movieId in db.movies
    ensures after.customers == db.customers && after.rentals == db.rentals
    ensures after.movies.Keys == db.movies.Keys
    ensures after.movies[movieId].numberInStock == db.movies[movieId].numberInStock + 1
    ensures && after.movies[movieId].title == db.movies[movieId].title
            && after.movies[movieId].genre == db.movies[movieId].genre
            && after.movies[movieId].dailyRentalRate == db.movies[movieId].dailyRentalRate
    ensures forall m :: m in db.movies && m != movieId ==> after.movies[m] == db.movies[m]
  {
    var movie := db.movies[movieId];
    db.(movies := db.movies[movieId := movie.(numberInStock := movie.numberInStock + 1)])
  }

  /** With no rental found the answer is 404 and nothing changes, whether or
      not the movie exists: the 404 check comes before every other. */
  lemma ReturnWithoutRental(db: Db, customerId: string, movieId: string, now: int, saves: SaveOutcome)
    requires IsObjectIdString(customerId) && IsObjectIdString(movieId)
    ensures Return(db, RentalBody(RentalRequest(customerId, movieId)), None, now, saves)
            == (Refused(404, RentalNotFound), db)
  {
    ValidateRentalAccepts(RentalRequest(customerId, movieId));
  }

  /** An empty collection has no rental to find, so every valid return is a 404. */
  lemma EmptyStoreReturnsNotFound(db: Db, body: Body, found: Option<nat>, now: int, saves: SaveOutcome)
    requires db.rentals == [] && LookupAdmits(db.rentals, found) && ValidateRental(body).Some?
    ensures Return(db, body, found, now, saves) == (Refused(404, RentalNotFound), db)
  {
  }

  /** A rental that already has a return date is refused with 400: its date,
      its fee and every stock stay as they were. */
  lemma ReturnOfClosedRental(db: Db, body: Body, i: nat, now: int, saves: SaveOutcome)
    requires i < |db.rentals| && !IsOpen(db.rentals[i]) && ValidateRental(body).Some?
    ensures Return(db, body, Some(i), now, saves) == (Refused(400, AlreadyProcessed), db)
  {
  }

  /** A successful return closes the found rental per `setRentalFee` at `now`,
      answers with that closed rental (movie, customer, start, due date, return
      date and fee all present), puts exactly one copy back on the requested
      movie's shelf and changes nothing else. */
  lemma ReturnSuccess(db: Db, body: Body, found: Option<nat>, now: int, saves: SaveOutcome)
    requires LookupAdmits(db.rentals, found)
    requires Return(db, body, found, now, saves).0.Sent?
    ensures var (res, after) := Return(db, body, found, now, saves);
            var movieId := Canonical(ValidateRental(body).value.movieId);
            var i := found.value;
            && saves == BothSaved && IsOpen(db.rentals[i]) && movieId in db.movies
            && res.rental == after.rentals[i]
            && res.rental.dateReturned == Some(now)
            && res.rental.rentalFee == Some(RentalFee(db.movies[movieId].dailyRentalRate, db.rentals[i], now))
            && res.rental.(dateReturned := None, rentalFee := None) == db.rentals[i].(rentalFee := None)
            && (forall k :: 0 <= k < |db.rentals| && k != i ==> after.rentals[k] == db.rentals[k])
            && after.movies.Keys == db.movies.Keys
            && after.movies[movieId].numberInStock == db.movies[movieId].numberInStock + 1
            && after.movies[movieId].(numberInStock := 0) == db.movies[movieId].(numberInStock := 0)
            && (forall m :: m in db.movies && m != movieId ==> after.movies[m] == db.movies[m])
  {
  }

  /** Returning the same rental again is refused with 400 and changes nothing:
      the first return's effects are final. */
  lemma ReturnTwice(db: Db, body: Body, i: nat, now: int, saves: SaveOutcome, later: int, saves2: SaveOutcome)
    requires i < |db.rentals|
    requires Return(db, body, Some(i), now, saves).0.Sent?
    ensures var after := Return(db, body, Some(i), now, saves).1;
            && LookupAdmits(after.rentals, Some(i))
            && Return(after, body, Some(i), later, saves2) == (Refused(400, AlreadyProcessed), after)
  {
  }

  /** The return writes the rental and then the movie, separately: when the
      second save fails the rental stays closed while the copy never reaches
      the shelf, so the movie's copies drop by one. */
  lemma ReturnIsNotAtomic(db: Db, body: Body, i: nat, now: int)
    requires i < |db.rentals|
    requires Return(db, body, Some(i), now, BothSaved).0.Sent?
    ensures var (res, after) := Return(db, body, Some(i), now, MovieSaveFails);
            var movieId := Canonical(ValidateRental(body).value.movieId);
            && res == Threw && !IsOpen(after.rentals[i])
            && after.movies == db.movies
            && (db.rentals[i].movie == movieId ==> Inventory(after, movieId) == Inventory(db, movieId) - 1)
  {
    var movieId := Canonical(ValidateRental(body).value.movieId);
    var after := Return(db, body, Some(i), now, MovieSaveFails).1;
    OpenCountUpdate(db.rentals, i, after.rentals[i], movieId);
  }

  /** Closing rental `i` keeps the store consistent and takes that rental's
      copy out of its movie's count of copies. */
  lemma CloseKeepsConsistent(db: Db, i: nat, closed: Rental)
    requires Consistent(db) && i < |db.rentals|
    requires !IsOpen(closed) && WellFormed(closed) && closed.id == db.rentals[i].id
    ensures Consistent(SaveRental(db, i, closed))
    ensures forall m :: m in db.movies ==> Inventory(SaveRental(db, i, closed), m) == Inventory(db, m) - OpenFor(db.rentals[i], m)
  {
    var after := SaveRental(db, i, closed);
    forall m | m in db.movies
      ensures Inventory(after, m) == Inventory(db, m) - OpenFor(db.rentals[i], m)
    {
      OpenCountUpdate(db.rentals, i, closed, m);
    }
    forall j, k | 0 <= j < k < |after.rentals|
      ensures after.rentals[j].id != after.rentals[k].id
    {
      assert after.rentals[j].id == db.rentals[j].id && after.rentals[k].id == db.rentals[k].id;
    }
  }

  /** Putting one copy back on a shelf that has room keeps the store consistent,
      as long as that movie's copies stay within the bound. */
  lemma ShelveKeepsConsistent(db: Db, movieId: string)
    requires Consistent(db) && movieId in db.movies
    requires db.movies[movieId].numberInStock < MaxStock && Inventory(db, movieId) < MaxStock
    ensures Consistent(Restock(db, movieId))
    ensures forall m :: m in db.movies ==> Inventory(Restock(db, movieId), m) == Inventory(db, m) + (if m == movieId then 1 else 0)
  {
    var after := Restock(db, movieId);
    forall m | m in after.movies
      ensures ValidMovie(after.movies[m]) && Inventory(after, m) <= MaxStock
    {
      if m == movieId {
        assert after.movies[m] == db.movies[m].(numberInStock := db.movies[m].numberInStock + 1);
      }
    }
  }

  /** Closing open rental `i` and putting its copy back on its movie's shelf
      keeps the store consistent and every movie's copies unchanged. */
  lemma CloseAndShelveKeepConsistent(db: Db, i: nat, movieId: string, now: int)
    requires Consistent(db) && i < |db.rentals| && IsOpen(db.rentals[i])
    requires db.rentals[i].movie == movieId && movieId in db.movies
    ensures var after := Restock(SaveRental(db, i, Closed(db.rentals[i], db.movies[movieId], now)), movieId);
            && Consistent(after)
            && forall m :: m in db.movies ==> Inventory(after, m) == Inventory(db, m)
  {
    var closed := Closed(db.rentals[i], db.movies[movieId], now);
    CloseKeepsConsistent(db, i, closed);
    ShelfRoomForReturn(db, i);
    ShelveKeepsConsistent(SaveRental(db, i, closed), movieId);
  }

  /** When the lookup finds a rental of the requested movie (as the lookup
      with the schema's field names does), a return keeps the store consistent,
      and when both saves go through every movie keeps its copies: the copy put
      back on the shelf is the one whose rental closed. In particular the shelf
      never exceeds 255, which nothing in the handler checks. */
  lemma ReturnPreservesConsistency(db: Db, body: Body, found: Option<nat>, now: int, saves: SaveOutcome)
    requires Consistent(db) && LookupAdmits(db.rentals, found)
    requires ValidateRental(body).Some? && found.Some?
             ==> db.rentals[found.value].movie == Canonical(ValidateRental(body).value.movieId)
    ensures var after := Return(db, body, found, now, saves).1;
            && Consistent(after)
            && after.movies.Keys == db.movies.Keys
            && (saves != MovieSaveFails ==> forall m :: m in db.movies ==> Inventory(after, m) == Inventory(db, m))
  {
    var req := ValidateRental(body);
    if req.Some? && found.Some? && IsOpen(db.rentals[found.value])
       && Canonical(req.value.movieId) in db.movies && saves != RentalSaveFails {
      var i, movieId := found.value, Canonical(req.value.movieId);
      ReturnWrites(db, body, i, movieId, now, saves);
      if saves == BothSaved {
        CloseAndShelveKeepConsistent(db, i, movieId, now);
      } else {
        CloseKeepsConsistent(db, i, Closed(db.rentals[i], db.movies[movieId], now));
      }
    } else {
      ReturnStops(db, body, found, now, saves);
    }
  }

  /** What a return that passes every guard writes: the found rental closed
      and, when the movie's save goes through too, one more copy on the shelf. */
  lemma ReturnWrites(db: Db, body: Body, i: nat, movieId: string, now: int, saves: SaveOutcome)
    requires ValidateRental(body).Some? && movieId == Canonical(ValidateRental(body).value.movieId)
    requires i < |db.rentals| && IsOpen(db.rentals[i]) && movieId in db.movies && saves != RentalSaveFails
    ensures var closed := Closed(db.rentals[i], db.movies[movieId], now);
            Return(db, body, Some(i), now, saves)
            == if saves == BothSaved then (Sent(closed), Restock(SaveRental(db, i, closed), movieId))
               else (Threw, SaveRental(db, i, closed))
  {
  }

  /** A return stopped by a guard, by the missing movie or by the rental's save
      writes nothing. */
  lemma ReturnStops(db: Db, body: Body, found: Option<nat>, now: int, saves: SaveOutcome)
    requires LookupAdmits(db.rentals, found)
    requires || ValidateRental(body).None? || found.None? || !IsOpen(db.rentals[found.value])
             || Canonical(ValidateRental(body).value.movieId) !in db.movies || saves == RentalSaveFails
    ensures Return(db, body, found, now, saves).1 == db
  {
  }

  /** The store of the counterexample below: customer A has movie X out, and
      movie Y has all 255 copies on the shelf. */
  const CustomerA := "000000000000000000000001"
  const CustomerB := "000000000000000000000002"
  const MovieX := "000000000000000000000003"
  const MovieY := "000000000000000000000004"
  const SampleGenre := Genre("000000000000000000000005", "Drama")

  function SampleStore(): Db {
    Db({CustomerA, CustomerB},
       map[MovieX := Movie("Movie X", SampleGenre, 0, 2.0), MovieY := Movie("Movie Y", SampleGenre, 255, 3.0)],
       [NewRental("000000000000000000000006", MovieX, CustomerA, 0)])
  }

  lemma SampleStoreIsConsistent()
    ensures Consistent(SampleStore())
  {
    var db := SampleStore();
    TrimOfTrimmed("Movie X");
    TrimOfTrimmed("Movie Y");
    assert db.rentals[..0] == [];
    assert MovieX != MovieY by {
      assert MovieX[23] != MovieY[23];
    }
  }

  /** Customer B's return of movie Y. */
  function SampleBody(): Body {
    RentalBody(RentalRequest(CustomerB, MovieY))
  }

  /** Whatever the lookup as written finds, on the sample store, is A's rental
      of X, and B's return of Y closes it at Y's rate; when both saves go
      through, a copy goes on Y's shelf. */
  lemma SampleReturnAsWritten(saves: SaveOutcome)
    requires saves != RentalSaveFails
    ensures LookupAsWritten(SampleStore().rentals) == Some(0)
    ensures var db := SampleStore();
            var closed := Closed(db.rentals[0], db.movies[MovieY], MsPerDay);
            Return(db, SampleBody(), Some(0), MsPerDay, saves)
            == if saves == BothSaved then (Sent(closed), Restock(SaveRental(db, 0, closed), MovieY))
               else (Threw, SaveRental(db, 0, closed))
  {
    assert IsObjectIdString(CustomerB) && IsObjectIdString(MovieY);
    ValidateRentalAccepts(RentalRequest(CustomerB, MovieY));
    CanonicalOfLowerHex(MovieY);
    ReturnWrites(SampleStore(), SampleBody(), 0, MovieY, MsPerDay, saves);
  }

  /** The lookup as written, on the sample store: customer B returning movie Y,
      which B never rented, closes A's rental of X at Y's daily rate and, if
      the movie's save is not refused, puts a 256th copy of Y on the shelf. */
  lemma AsWrittenLookupBreaksStockBound()
    ensures Consistent(SampleStore())
    ensures var out := Return(SampleStore(), SampleBody(), LookupAsWritten(SampleStore().rentals), MsPerDay, BothSaved);
            && out.0.Sent? && out.0.rental.movie == MovieX && out.0.rental.customer == CustomerA
            && out.0.rental.rentalFee == Some(3.0)
            && MovieY in out.1.movies && out.1.movies[MovieY].numberInStock == 256
            && !Consistent(out.1)
  {
    var db := SampleStore();
    SampleStoreIsConsistent();
    SampleReturnAsWritten(BothSaved);
    var rented := db.rentals[0];
    FeeForOneDay(3.0, rented, MsPerDay);
    var closed := Closed(rented, db.movies[MovieY], MsPerDay);
    var after := Restock(SaveRental(db, 0, closed), MovieY);
    assert after.movies[MovieY].numberInStock == 256;
    assert !Consistent(after) by {
      assert !ValidMovie(after.movies[MovieY]);
    }
  }

  /** The same return when the movie's save is refused (its `max: 255` would
      refuse a 256th copy): A's rental of X stays closed at Y's daily rate, Y's
      shelf is unchanged, and X has lost a copy for good. */
  lemma AsWrittenLookupLosesCopy()
    ensures var db := SampleStore();
            var out := Return(db, SampleBody(), LookupAsWritten(db.rentals), MsPerDay, MovieSaveFails);
            && out.0 == Threw && out.1.movies == db.movies
            && out.1.rentals[0].customer == CustomerA && out.1.rentals[0].movie == MovieX
            && out.1.rentals[0].dateReturned == Some(MsPerDay) && out.1.rentals[0].rentalFee == Some(3.0)
            && Inventory(out.1, MovieX) == Inventory(db, MovieX) - 1
  {
    var db := SampleStore();
    var rented := db.rentals[0];
    var closed := Closed(rented, db.movies[MovieY], MsPerDay);
    var after := SaveRental(db, 0, closed);
    SampleReturnAsWritten(MovieSaveFails);
    FeeForOneDay(3.0, rented, MsPerDay);
    OpenCountUpdate(db.rentals, 0, closed, MovieX);
    assert OpenFor(rented, MovieX) == 1 && OpenFor(closed, MovieX) == 0;
    assert Inventory(after, MovieX) == Inventory(db, MovieX) - 1;
  }

  /** The corrected lookup repairs it: when the rental found is the first one of
      the requesting customer and movie, every return keeps the store consistent. */
  lemma FirstMatchReturnPreservesConsistency(db: Db, customerId: string, movieId: string,
                                             found: Option<nat>, now: int, saves: SaveOutcome)
    requires Consistent(db) && IsObjectIdString(customerId) && IsObjectIdString(movieId)
    requires IsFirstMatch(db.rentals, customerId, movieId, found)
    ensures LookupAdmits(db.rentals, found)
    ensures var after := Return(db, RentalBody(RentalRequest(customerId, movieId)), found, now, saves).1;
            && Consistent(after)
            && after.movies.Keys == db.movies.Keys
            && (saves != MovieSaveFails ==> forall m :: m in db.movies ==> Inventory(after, m) == Inventory(db, m))
  {
    ValidateRentalAccepts(RentalRequest(customerId, movieId));
    ReturnPreservesConsistency(db, RentalBody(RentalRequest(customerId, movieId)), found, now, saves);
  }

  /** The lookup with the schema's field names finds the same rental again after
      closing it, so a second return of the same movie by the same customer is
      refused with 400 and changes nothing. */
  lemma SecondReturnWithFirstMatch(db: Db, customerId: string, movieId: string, i: nat,
                                   now: int, later: int, saves2: SaveOutcome)
    requires IsObjectIdString(customerId) && IsObjectIdString(movieId)
    requires IsFirstMatch(db.rentals, customerId, movieId, Some(i))
    requires Return(db, RentalBody(RentalRequest(customerId, movieId)), Some(i), now, BothSaved).0.Sent?
    ensures var body := RentalBody(RentalRequest(customerId, movieId));
            var after := Return(db, body, Some(i), now, BothSaved).1;
            && IsFirstMatch(after.rentals, customerId, movieId, Some(i))
            && Return(after, body, Some(i), later, saves2) == (Refused(400, AlreadyProcessed), after)
  {
    var body := RentalBody(RentalRequest(customerId, movieId));
    ValidateRentalAccepts(RentalRequest(customerId, movieId));
    var movie := db.movies[Canonical(movieId)];
    FirstMatchSurvivesClose(db.rentals, customerId, movieId, i, movie, now);
  }

  /** Even with the schema's field names the lookup takes the first match in
      stored order, closed or not: once a customer has returned a movie, a later
      rental of that same movie by that customer is refused as already processed. */
  lemma RentAgainIsRefused(db: Db, customerId: string, movieId: string, i: nat, j: nat, now: int, saves: SaveOutcome)
    requires IsObjectIdString(customerId) && IsObjectIdString(movieId)
    requires IsFirstMatch(db.rentals, customerId, movieId, Some(i)) && !IsOpen(db.rentals[i])
    requires i < j < |db.rentals| && IsOpen(db.rentals[j]) && MatchesRequest(db.rentals[j], customerId, movieId)
    ensures Return(db, RentalBody(RentalRequest(customerId, movieId)), Some(i), now, saves)
            == (Refused(400, AlreadyProcessed), db)
  {
    ValidateRentalAccepts(RentalRequest(customerId, movieId));
  }

  /** The handler: validate the body, then look the rental up with the schema's
      field names and process the return. With that lookup the handler keeps
      the store consistent. */
  method PostReturn(db: Database, body: Body, now: int, saves: SaveOutcome) returns (res: Response, found: Option<nat>)
    modifies db
    ensures LookupAdmits(old(db.rentals), found)
    ensures ValidateRental(body).Some? ==>
              IsFirstMatch(old(db.rentals), ValidateRental(body).value.customerId, ValidateRental(body).value.movieId, found)
    ensures (res, db.State()) == Return(old(db.State()), body, found, now, saves)
    ensures old(Consistent(db.State())) ==> Consistent(db.State())
  {
    var req := ValidateRental(body);
    found := None;
    if req.Some? {
      found := FindRental(db.rentals, req.value.customerId, req.value.movieId);
      if Consistent(db.State()) {
        FirstMatchReturnPreservesConsistency(db.State(), req.value.customerId, req.value.movieId, found, now, saves);
      }
    }
    res := ProcessReturn(db, body, found, now, saves);
  }

  /** The handler past the lookup: refuse a missing or closed rental, look up
      the movie, call `setRentalFee` on the document, save it, then increment
      the movie's stock and save the movie. */
  method ProcessReturn(db: Database, body: Body, found: Option<nat>, now: int, saves: SaveOutcome) returns (res: Response)
    requires LookupAdmits(db.rentals, found)
    modifies db
    ensures (res, db.State()) == Return(old(db.State()), body, found, now, saves)
  {
    var req := ValidateRental(body);
    if req.None? {
      return Refused(400, InvalidBody);
    }
    var movieId := Canonical(req.value.movieId);
    var movie: Option<Movie> := if movieId in db.movies then Some(db.movies[movieId]) else None;
    if found.None? {
      return Refused(404, RentalNotFound);
    }
    var rental := new RentalDocument.Load(db.rentals[found.value]);
    if rental.dateReturned.Some? {
      return Refused(400, AlreadyProcessed);
    }
    if movie.None? {
      // `movie.dailyRentalRate` on a missing movie throws inside setRentalFee
      return Threw;
    }
    rental.SetRentalFee(movie.value, now);
    if saves == RentalSaveFails {
      return Threw;
    }
    db.rentals := db.rentals[found.value := rental.Record()];
    if saves == MovieSaveFails {
      return Threw;
    }
    var m := movie.value;
    db.movies := db.movies[movieId := m.(numberInStock := m.numberInStock + 1)];
    res := Sent(rental.Record());
  }
}
