/** The rental record (models/rental.js): its creation defaults, the fee rule
    that closes it, the `lookup` query and the `validateRental` check of a
    request body. Times are integer milliseconds since the epoch; the instant
    "now" is always a parameter. */
module RentalModel {
  import opened Common
  import opened MovieModel

  /** The flat surcharge for a return after the due date. */
  const LateFee: real := 25.0
  const MsPerDay: int := 1000 * 60 * 60 * 24
  /** A new rental is due seven days after it starts. */
  const RentalPeriodMs: int := 7 * 24 * 60 * 60 * 1000

  /** A stored rental document. `movie` and `customer` are the referenced ids;
      `dateReturned` and `rentalFee` are absent while the rental is open. */
  datatype Rental = Rental(
    id: string,
    movie: string,
    customer: string,
    rentalStartDate: int,
    returnByDate: int,
    dateReturned: Option<int>,
    rentalFee: Option<real>)

  predicate IsOpen(r: Rental) {
    r.dateReturned.None?
  }

  /** A rental carries a fee exactly when it carries a return date. */
  predicate WellFormed(r: Rental) {
    r.dateReturned.Some? <==> r.rentalFee.Some?
  }

  /** `new Rental({ movie, customer })` at instant `now`: the schema's defaults
      start it now, make it due a week later, and leave it open without a fee. */
  function NewRental(id: string, movie: string, customer: string, now: int): (r: Rental)
    ensures IsOpen(r) && r.rentalFee.None? && WellFormed(r)
    ensures r.rentalStartDate == now && r.returnByDate == now + 604800000
    ensures r.id == id && r.movie == movie && r.customer == customer
  {
    Rental(id, movie, customer, now, now + RentalPeriodMs, None, None)
  }

  /** Whole and fractional days between the start and the return. */
  function ElapsedDays(start: int, returned: int): real {
    (returned - start) as real / MsPerDay as real
  }

  /** Strictly after the due date; returning exactly at it is on time. */
  predicate IsLate(r: Rental, returned: int) {
    returned > r.returnByDate
  }

  /** The fee `setRentalFee` records for rental `r` returned at `returned`:
      the daily rate times the elapsed days, plus the late fee when late.
      With a rate in the schema's range and a return after the start, it is
      non-negative, at least the late fee when late, and at most a full day
      rate per day plus the late fee. */
  function RentalFee(dailyRentalRate: real, r: Rental, returned: int): (fee: real)
    ensures 0.0 <= dailyRentalRate && r.rentalStartDate <= returned ==> 0.0 <= fee
    ensures 0.0 <= dailyRentalRate && r.rentalStartDate <= returned && IsLate(r, returned) ==> LateFee <= fee
    ensures dailyRentalRate <= MaxDailyRate as real && r.rentalStartDate <= returned ==>
              fee <= MaxDailyRate as real * ElapsedDays(r.rentalStartDate, returned) + LateFee
  {
    var days := ElapsedDays(r.rentalStartDate, returned);
    var base := dailyRentalRate * days;
    ProductNonNegative(dailyRentalRate, days);
    if IsLate(r, returned) then base + LateFee else base
  }

  lemma ProductNonNegative(a: real, b: real)
    ensures 0.0 <= a && 0.0 <= b ==> 0.0 <= a * b
  {
  }

  /** Up to and including the due date the fee is exactly rate × elapsed days. */
  lemma FeeOnTime(dailyRentalRate: real, r: Rental, returned: int)
    requires returned <= r.returnByDate
    ensures RentalFee(dailyRentalRate, r, returned)
            == dailyRentalRate * ((returned - r.rentalStartDate) as real / 86400000.0)
  {
  }

  /** After the due date the fee is rate × elapsed days plus 25. */
  lemma FeeWhenLate(dailyRentalRate: real, r: Rental, returned: int)
    requires returned > r.returnByDate
    ensures RentalFee(dailyRentalRate, r, returned)
            == dailyRentalRate * ((returned - r.rentalStartDate) as real / 86400000.0) + 25.0
  {
  }

  /** Returning later never costs less. */
  lemma FeeMonotone(dailyRentalRate: real, r: Rental, t1: int, t2: int)
    requires 0.0 <= dailyRentalRate && t1 <= t2
    ensures RentalFee(dailyRentalRate, r, t1) <= RentalFee(dailyRentalRate, r, t2)
  {
    var d1, d2 := ElapsedDays(r.rentalStartDate, t1), ElapsedDays(r.rentalStartDate, t2);
    assert d1 <= d2;
    ProductNonNegative(dailyRentalRate, d2 - d1);
    assert dailyRentalRate * d2 - dailyRentalRate * d1 == dailyRentalRate * (d2 - d1);
  }

  /** A rental returned one day after it started, before its due date, costs
      exactly one day's rate. */
  lemma FeeForOneDay(dailyRentalRate: real, r: Rental, returned: int)
    requires returned == r.rentalStartDate + MsPerDay && returned <= r.returnByDate
    ensures RentalFee(dailyRentalRate, r, returned) == dailyRentalRate
  {
    assert ElapsedDays(r.rentalStartDate, returned) == 1.0;
  }

  /** The two fee scenarios of the return tests, for a movie at 10 per day: a
      rental created now whose start is then moved seven days back is still
      within its due date and costs 70; a
      rental whose due date was set one second before its start, returned at
      its start, is late and costs the late fee alone. */
  lemma FeeScenarios(now: int)
    ensures var r := NewRental("r", "m", "c", now);
            RentalFee(10.0, r.(rentalStartDate := r.rentalStartDate - 7 * MsPerDay), now) == 70.0
    ensures var r := NewRental("r", "m", "c", now);
            RentalFee(10.0, r.(returnByDate := r.rentalStartDate - 1000), now) == 25.0
  {
  }

  /** `setRentalFee(movie)` at instant `now`, as a value: the rental becomes
      closed at `now` with the fee computed from the movie's daily rate at that
      same instant; every other field is untouched. */
  function Closed(r: Rental, movie: Movie, now: int): (c: Rental)
    ensures !IsOpen(c) && WellFormed(c) && c.dateReturned == Some(now)
    ensures c.rentalFee == Some(RentalFee(movie.dailyRentalRate, r, now))
    ensures c.id == r.id && c.movie == r.movie && c.customer == r.customer
    ensures c.rentalStartDate == r.rentalStartDate && c.returnByDate == r.returnByDate
  {
    r.(dateReturned := Some(now), rentalFee := Some(RentalFee(movie.dailyRentalRate, r, now)))
  }

  /** A rental document in memory, as the handlers hold it between reading and saving. */
  class RentalDocument {
    var id: string
    var movie: string
    var customer: string
    var rentalStartDate: int
    var returnByDate: int
    var dateReturned: Option<int>
    var rentalFee: Option<real>

    /** The record this document saves as. */
    function Record(): Rental
      reads this
    {
      Rental(id, movie, customer, rentalStartDate, returnByDate, dateReturned, rentalFee)
    }

    /** `new Rental({ movie, customer })`, with the schema's defaults applied at `now`. */
    constructor (id: string, movie: string, customer: string, now: int)
      ensures Record() == NewRental(id, movie, customer, now)
    {
      this.id := id;
      this.movie := movie;
      this.customer := customer;
      rentalStartDate := now;
      returnByDate := now + RentalPeriodMs;
      dateReturned := None;
      rentalFee := None;
    }

    /** A document read back from the store. */
    constructor Load(r: Rental)
      ensures Record() == r
    {
      id, movie, customer := r.id, r.movie, r.customer;
      rentalStartDate, returnByDate := r.rentalStartDate, r.returnByDate;
      dateReturned, rentalFee := r.dateReturned, r.rentalFee;
    }

    /** `setRentalFee(movie)`: stamps the return date, then the fee. */
    method SetRentalFee(movie: Movie, now: int)
      modifies this
      ensures Record() == Closed(old(Record()), movie, now)
    {
      ghost var before := Record();
      dateReturned := Some(now);
      var fee := movie.dailyRentalRate * ElapsedDays(rentalStartDate, dateReturned.value);
      if dateReturned.value > returnByDate {
        rentalFee := Some(fee + LateFee);
      } else {
        rentalFee := Some(fee);
      }
      assert rentalFee.value == RentalFee(movie.dailyRentalRate, before, now);
      assert Record() == before.(dateReturned := Some(now), rentalFee := rentalFee);
    }
  }

  /** What `Rental.lookup(customerId, movieId)` may resolve to, as an index into
      the rentals in stored order. Its query filters on `customerId` and
      `movieId`, which are not paths of the schema (they are `customer` and
      `movie`), so which document it finds depends on how the driver treats
      unknown filter fields: none at all, or any document whatever. All that is
      certain is that it finds a stored rental or none, and none in an empty
      collection. */
  predicate LookupAdmits(rentals: seq<Rental>, found: Option<nat>) {
    && (found.Some? ==> found.value < |rentals|)
    && (rentals == [] ==> found.None?)
  }

  /** The lookup as written, when unknown filter fields are stripped from the
      query: `findOne({})`, the first document in stored order. */
  function LookupAsWritten(rentals: seq<Rental>): (found: Option<nat>)
    ensures LookupAdmits(rentals, found)
    ensures found.Some? <==> rentals != []
    ensures found.Some? ==> found.value == 0
  {
    if rentals == [] then None else Some(0)
  }

  /** Rental `r` belongs to this customer and this movie (ids compared as ObjectIds). */
  predicate MatchesRequest(r: Rental, customerId: string, movieId: string) {
    r.customer == Canonical(customerId) && r.movie == Canonical(movieId)
  }

  /** `found` is what `findOne({ customer: customerId, movie: movieId })` gives:
      the first matching rental in stored order, or none when nothing matches. */
  predicate IsFirstMatch(rentals: seq<Rental>, customerId: string, movieId: string, found: Option<nat>) {
    match found
    case None => forall k :: 0 <= k < |rentals| ==> !MatchesRequest(rentals[k], customerId, movieId)
    case Some(i) =>
      && i < |rentals|
      && MatchesRequest(rentals[i], customerId, movieId)
      && forall k :: 0 <= k < i ==> !MatchesRequest(rentals[k], customerId, movieId)
  }

  /** The lookup with the schema's own field names: scans the rentals in stored
      order for the first one of this customer and this movie. */
  method FindRental(rentals: seq<Rental>, customerId: string, movieId: string) returns (found: Option<nat>)
    ensures IsFirstMatch(rentals, customerId, movieId, found)
    ensures LookupAdmits(rentals, found)
  {
    var c, m := Canonical(customerId), Canonical(movieId);
    var i := 0;
    while i < |rentals|
      invariant 0 <= i <= |rentals|
      invariant forall k :: 0 <= k < i ==> !MatchesRequest(rentals[k], customerId, movieId)
    {
      if rentals[i].customer == c && rentals[i].movie == m {
        return Some(i);
      }
      i := i + 1;
    }
    return None;
  }

  /** There is at most one first match. */
  lemma FirstMatchUnique(rentals: seq<Rental>, customerId: string, movieId: string, f1: Option<nat>, f2: Option<nat>)
    requires IsFirstMatch(rentals, customerId, movieId, f1)
    requires IsFirstMatch(rentals, customerId, movieId, f2)
    ensures f1 == f2
  {

  }

  /** Closing the first match keeps it the first match: its customer and movie do not change. */
  lemma FirstMatchSurvivesClose(rentals: seq<Rental>, customerId: string, movieId: string, i: nat, movie: Movie, now: int)
    requires IsFirstMatch(rentals, customerId, movieId, Some(i))
    ensures IsFirstMatch(rentals[i := Closed(rentals[i], movie, now)], customerId, movieId, Some(i))
  {
    var after := rentals[i := Closed(rentals[i], movie, now)];
    forall k | 0 <= k < i
      ensures !MatchesRequest(after[k], customerId, movieId)
    {
      assert after[k] == rentals[k];
    }
  }

  /** The two ids of a checkout or return request. */
  datatype RentalRequest = RentalRequest(customerId: string, movieId: string)

  /** The request body that carries a given request. */
  function RentalBody(req: RentalRequest): Body {
    map["movieId" := JString(req.movieId), "customerId" := JString(req.customerId)]
  }

  /** `validateRental`: a body passes only if it consists of exactly `movieId`
      and `customerId`, both strings of 24 hexadecimal digits. */
  function ValidateRental(body: Body): (r: Option<RentalRequest>)
    ensures r.Some? ==> && body == RentalBody(r.value)
                        && IsObjectIdString(r.value.customerId)
                        && IsObjectIdString(r.value.movieId)
  {
    if && body.Keys == {"movieId", "customerId"}
       && body["movieId"].JString? && body["customerId"].JString?
       && IsObjectIdString(body["movieId"].s) && IsObjectIdString(body["customerId"].s)
    then
      var req := RentalRequest(body["customerId"].s, body["movieId"].s);
      assert body == RentalBody(req);
      Some(req)
    else None
  }

  /** The converse of ValidateRental's contract: two well-formed ids, sent as a
      body, pass and are read back unchanged. */
  lemma ValidateRentalAccepts(req: RentalRequest)
    requires IsObjectIdString(req.customerId) && IsObjectIdString(req.movieId)
    ensures ValidateRental(RentalBody(req)) == Some(req)
  {
    assert RentalBody(req).Keys == {"movieId", "customerId"};
  }

  /** Ids the store issues always pass: a body made of two written-out ObjectIds is valid. */
  lemma ValidateRentalAcceptsObjectIds(customer: seq<byte>, movie: seq<byte>)
    requires |customer| == 12 && |movie| == 12
    ensures var req := RentalRequest(ToHexString(customer), ToHexString(movie));
            ValidateRental(RentalBody(req)) == Some(req)
  {
    ObjectIdHexIsValid(customer);
    ObjectIdHexIsValid(movie);
    ValidateRentalAccepts(RentalRequest(ToHexString(customer), ToHexString(movie)));
  }
}
