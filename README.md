# Video rental store: the rental lifecycle in Dafny

This project models the rental lifecycle of the video-rental-store backend: checking a movie out, returning it, and the fee rule that connects the two. The Express routes and the Mongoose models behind them become Dafny functions, classes and methods, and the project proves properties of them.

- A **rental** (`models/rental.js`) is created open. It starts now and is due seven days later, with no return date and no fee. `setRentalFee` closes it: it stamps the return date and records the daily rate times the elapsed (fractional) days, plus a flat late fee of 25 when the return is strictly after the due date. `validateRental` accepts a body of exactly two 24-digit hexadecimal ids.
- A **movie** (`models/movie.js`) has a trimmed title of 5 to 255 characters, and a stock and a daily rate in [0, 255]. `validateMovie` checks a create-movie body.
- **Checkout** (`routes/rentals.js`, `POST /`) runs its guards in order: valid body, customer exists, movie exists, movie in stock. It then inserts the new rental and decrements the stock in one transaction, which commits both writes or neither.
- **Return** (`routes/returns.js`, `POST /`) looks the rental up, answers 404 when there is none and 400 when it is already closed. Otherwise it closes the rental with its fee, saves it, then increments the movie's stock and saves the movie. These are two separate writes.

Time is integer milliseconds, and the current instant `now` is always a parameter. Fees are `real`, so `rate * elapsed / 86400000` is exact. The store is a value `Store.Db`: a set of customer ids, a map of movies, and the rentals as a sequence in stored order, the order a query without a sort visits them. The class `Store.Database` holds the same three fields for the handlers, which update them in place.

Ids are compared after `Common.Canonical` lower-cases their hex digits. This stands for the ObjectId cast that the queries apply to request ids.

Failures the handlers cannot see coming become parameters:

- `commits` says whether checkout's transaction commits. A `newId` already used by another rental also aborts it, as a duplicate key would.
- `saves` says which of the return's two saves go through.

Outcomes are `Store.Response` values:

- `Sent(rental)`: status 200, with the rental as the body.
- `Refused(status, reason)`: a 4xx status with its message, which `Store.Message` gives.
- `Threw`: the handler throws before it answers.
- `NoResponse`: checkout's catch path, which logs and sends nothing.

The invariant `Store.Consistent` says three things. Every movie is within the schema's bounds, and its copies (its stock plus its open rentals) are at most 255. Rental ids are distinct. A rental has a fee exactly when it has a return date. Checkout keeps every movie's copies unchanged. So does a return that saves both documents, provided the lookup finds a rental of the requested movie. The 255 bound on copies is what makes the unguarded `numberInStock++` of a return safe.

Three points about the return handler and its lookup:

- The lookup (models/rental.js:35-37) calls `findOne` with no sort, so it returns the first match in stored order, not the most recent one. As written, its filter names `customerId` and `movieId`, which are not paths of the schema (they are `customer` and `movie`). What that query finds depends on how the driver treats unknown filter fields. If they are stripped, the filter is empty, so every return gets the collection's first rental (`RentalModel.LookupAsWritten`), and once that rental is closed every later return gets 400. If they are kept, nothing matches and every return is a 404.
- The model's return handler, `ReturnRoute.PostReturn`, uses the corrected lookup `RentalModel.FindRental` on the schema's field names (see "## Findings"). That lookup does not skip closed rentals either, so once a customer has returned a movie, renting that movie again and returning it is refused as already processed (`ReturnRoute.RentAgainIsRefused`).
- routes/returns.js never checks that the movie exists: `setRentalFee(null)` throws, and the model answers `Threw` without writing anything.

## Model

| member | source | states |
|---|---|---|
| Common.ToHexString | models/rental.js:6-15 | an ObjectId's bytes written out: two lower-case hex digits per byte, and the pair at position i reads back as byte i |
| Common.ObjectIdHexIsValid | models/rental.js:51-57 | every 12-byte ObjectId, written out, is a 24-digit hex id as `validateRental` demands |
| Common.Canonical | routes/rentals.js:24-28 | the id a hex string denotes once cast: same length, digit for digit the lower-case digit |
| Common.CanonicalOfLowerHex | routes/rentals.js:24-28 | an id already in lower case is its own cast |
| Common.CanonicalIsObjectId | routes/rentals.js:24-28 | casting keeps a well-formed id well formed |
| MovieModel.Trim | models/movie.js:6-12 | `trim: true`: the result is no longer than the title, starts and ends with non-whitespace, and is empty exactly when the title is all whitespace |
| MovieModel.TrimRemovesOnlyEnds | models/movie.js:6-12 | the trimmed title is a slice of the title with only whitespace before and after it: nothing inside the title is removed |
| MovieModel.TrimOfTrimmed | models/movie.js:6-12 | a title with no whitespace at either end is stored as it is |
| MovieModel.TrimIdempotent | models/movie.js:6-12 | trimming twice is trimming once |
| MovieModel.SchemaCast | models/movie.js:5-29 | the schema stores exactly the trimmed title and the given fields, and the stored movie is within all bounds; it refuses only when a bound fails, measured after trimming |
| MovieModel.ValidateMovie | models/movie.js:31-39 | a body passes only if it is exactly the four fields, of the right types and within bounds |
| MovieModel.ValidateMovieAccepts | models/movie.js:31-39 | conversely, every in-bounds input passes and is read back unchanged |
| MovieModel.StoredMovieRoundTrip | models/movie.js:5-39 | a stored movie sent back as a body passes validation, and the schema stores that same movie again |
| MovieModel.ValidateMovieIgnoresTrim | models/movie.js:6-33 | the validator measures the untrimmed title and the schema the trimmed one: `"  abc"` passes the first and fails the second |
| RentalModel.NewRental | models/rental.js:16-32 | a new rental is open, has no fee, starts now and is due now + 604800000 ms, for the given movie and customer |
| RentalModel.RentalDocument.constructor | models/rental.js:16-32 | the document built by `new Rental({ movie, customer })` is `NewRental` at `now` |
| RentalModel.RentalFee | models/rental.js:39-47 | with a rate in the schema's range and a return after the start, the fee is at least 0 (the schema's `min: 0`), at least 25 when late, and at most 255 per day plus 25 |
| RentalModel.FeeOnTime | models/rental.js:42-46 | up to and including the due date the fee is exactly rate × (returned − start) / 86400000 |
| RentalModel.FeeWhenLate | models/rental.js:3-46 | strictly after the due date it is that amount plus 25 |
| RentalModel.FeeMonotone | models/rental.js:42-46 | returning later never costs less |
| RentalModel.FeeForOneDay | models/rental.js:42 | one day after the start, and on time, the fee is exactly the daily rate |
| RentalModel.FeeScenarios | tests/integration/routes/returns.test.js:99-121 | the tests' two cases at rate 10: a start moved seven days back costs 70; a due date one second before the start costs 25 |
| RentalModel.Closed | models/rental.js:39-47 | closing sets the return date to `now` and the fee to `RentalFee` at `now`; id, movie, customer, start and due date are untouched |
| RentalModel.RentalDocument.SetRentalFee | models/rental.js:39-47 | the document, updated in place, becomes `Closed` of what it was |
| RentalModel.LookupAsWritten | models/rental.js:35-37 | the query as written, with its unknown filter fields stripped, finds a document exactly when there is one, and it is the first (index 0) |
| RentalModel.FindRental | models/rental.js:35-37 | the lookup with the schema's field names: the first rental in stored order of this customer and this movie, or none exactly when none matches |
| RentalModel.FirstMatchUnique | models/rental.js:35-37 | there is at most one first match |
| RentalModel.FirstMatchSurvivesClose | models/rental.js:35-47 | closing the first match keeps it the first match |
| RentalModel.ValidateRental | models/rental.js:51-57 | a body passes only if it is exactly `movieId` and `customerId`, both strings of 24 hex digits |
| RentalModel.ValidateRentalAccepts | models/rental.js:51-57 | conversely, two well-formed ids pass and are read back unchanged |
| RentalModel.ValidateRentalAcceptsObjectIds | models/rental.js:51-57 | a body of two ObjectIds written out always passes |
| Store.Message | routes/rentals.js:22-30 | every refusal except an invalid body has its own text, as in routes/rentals.js:25-30 and routes/returns.js:14-16 |
| Store.MessageIdentifiesReason | routes/rentals.js:22-30 | two refusals with the same text have the same reason and name the same id |
| Store.OpenCountAppend | routes/rentals.js:41 | inserting a rental adds its own open copy to its movie's count and nothing else |
| Store.OpenCountUpdate | routes/returns.js:18-19 | replacing one rental changes the count by the difference of the two |
| Store.ShelfRoomForReturn | routes/returns.js:21-22 | in a consistent store a movie with an open rental has at most 254 copies on the shelf |
| CheckoutRoute.Checkout | routes/rentals.js:20-55 | every outcome but success leaves the store as it was, and every refusal is a 400 |
| CheckoutRoute.CheckoutSucceedsIff | routes/rentals.js:21-46 | checkout succeeds exactly when the body is valid, the customer and the movie exist, the stock is not 0 and the transaction commits |
| CheckoutRoute.CheckoutGuardOrder | routes/rentals.js:21-28 | an invalid body is refused before any lookup, a missing customer before the movie, a missing movie before its stock, each with its own message |
| CheckoutRoute.OutOfStockChangesNothing | routes/rentals.js:30 | a movie with no stock gives 400 "Movie not in stock." and nothing changes |
| CheckoutRoute.CheckoutSuccess | routes/rentals.js:32-46 | success appends exactly one open rental of this movie and customer, started now and due a week later, and takes exactly one copy off that movie's shelf; nothing else changes |
| CheckoutRoute.Commit | routes/rentals.js:41-43 | the transaction's writes: the rental appended, that movie's stock one lower with its other fields unchanged, every other movie and the customers unchanged |
| CheckoutRoute.AppendKeepsUniqueIds | routes/rentals.js:41 | inserting a rental with a new id keeps rental ids distinct |
| CheckoutRoute.CommitKeepsCopies | routes/rentals.js:41-43 | the copy taken off the shelf is the one the new rental holds: every movie keeps its copies |
| CheckoutRoute.CommitKeepsConsistent | routes/rentals.js:41-43 | the transaction's two writes together keep the store consistent and every movie's copies unchanged |
| CheckoutRoute.CheckoutPreservesConsistency | routes/rentals.js:20-55 | every checkout, whatever its outcome, keeps the store consistent and every movie's copies unchanged; stock never goes below 0 |
| CheckoutRoute.PostRental | routes/rentals.js:20-55 | the handler, updating the store in place, answers and changes the store exactly as `Checkout` says |
| ReturnRoute.Return | routes/returns.js:8-25 | a refusal leaves the store as it was; the answer is 404 exactly when the body is valid and no rental is found; customers and the number of rentals never change |
| ReturnRoute.SaveRental | routes/returns.js:19 | the rental's save: stored rental i becomes the closed one; the other rentals, the movies and the customers are unchanged |
| ReturnRoute.Restock | routes/returns.js:21-22 | the movie's save: its stock one higher with its other fields unchanged; every other movie, the rentals and the customers unchanged |
| ReturnRoute.ReturnWithoutRental | routes/returns.js:14 | no rental found gives 404 and no change, whether or not the movie exists |
| ReturnRoute.EmptyStoreReturnsNotFound | tests/integration/routes/returns.test.js:69-75 | with no rentals stored, a valid return is a 404 and changes nothing |
| ReturnRoute.ReturnOfClosedRental | routes/returns.js:16 | a rental that already has a return date gives 400 and changes nothing |
| ReturnRoute.ReturnSuccess | routes/returns.js:18-24 | success closes the found rental per `setRentalFee` at `now`, answers with it, adds exactly one copy to the requested movie's shelf, and changes nothing else |
| ReturnRoute.ReturnTwice | routes/returns.js:16-22 | returning the same rental again gives 400 and changes nothing |
| ReturnRoute.ReturnIsNotAtomic | routes/returns.js:18-22 | when the movie's save fails after the rental's, the rental stays closed and that movie has one copy fewer |
| ReturnRoute.ReturnWrites | routes/returns.js:18-22 | past every guard, the store becomes the closed rental saved, plus one copy restocked when both saves go through |
| ReturnRoute.ReturnStops | routes/returns.js:14-19 | a return stopped by a guard, a missing movie or a failed rental save writes nothing |
| ReturnRoute.CloseKeepsConsistent | routes/returns.js:18-19 | saving the closed rental keeps the store consistent and takes its copy out of its movie's count |
| ReturnRoute.ShelveKeepsConsistent | routes/returns.js:21-22 | one more copy on a shelf with room keeps the store consistent |
| ReturnRoute.CloseAndShelveKeepConsistent | routes/returns.js:18-22 | the two saves together keep the store consistent and every movie's copies unchanged |
| ReturnRoute.ReturnPreservesConsistency | routes/returns.js:8-25 | when the rental found is of the requested movie, every return keeps the store consistent, and a return that saves both keeps every movie's copies |
| ReturnRoute.SampleReturnAsWritten | models/rental.js:35-37 | on the sample store the lookup as written finds A's rental of X, and B's return of Y closes it, with Y restocked only when both saves go through |
| ReturnRoute.AsWrittenLookupBreaksStockBound | models/rental.js:35-37 | with the lookup as written, and if the movie's save is not refused, a consistent store becomes inconsistent: the wrong rental is closed at the wrong rate and a 256th copy goes on a shelf |
| ReturnRoute.AsWrittenLookupLosesCopy | models/rental.js:35-37 | with the lookup as written and the movie's save refused, A's rental of X stays closed at Y's rate, no movie changes, and X has one copy fewer |
| ReturnRoute.FirstMatchReturnPreservesConsistency | routes/returns.js:9-22 | with the lookup on the schema's field names every return keeps the store consistent |
| ReturnRoute.SecondReturnWithFirstMatch | routes/returns.js:9-16 | after a return, the same request finds the same closed rental and gets 400 |
| ReturnRoute.RentAgainIsRefused | routes/returns.js:9-16 | a customer's later open rental of a movie already returned once is never reached: the request is refused as already processed |
| ReturnRoute.PostReturn | routes/returns.js:8-25 | the handler with the corrected lookup `FindRental` (by customer and movie, see "## Findings") answers and changes the store as `Return` says, and keeps the store consistent |
| ReturnRoute.ProcessReturn | routes/returns.js:10-24 | past the lookup, the handler updates the document and the store in place exactly as `Return` says |

## Left out

- Authentication (the 401 answer), Express routing and the `validate` middleware are not part of this model. Status codes and messages are result values. The text of a validator's error message is not reproduced.
- The read-only routes `GET /` and `GET /:id` of routes/rentals.js are not modelled. They are queries with `populate` and change nothing.
- Joi's conversions are not modelled: numeric strings accepted as numbers, and the details of non-string JSON values (all `JOther`). Unknown body fields are refused, as Joi does by default.
- MovieModel.ValidateMovie: counts a title's length in Unicode characters, while Joi's `min(5).max(255)` counts UTF-16 code units. A character outside the Basic Multilingual Plane counts 2 there and 1 here, so a title of three emoji measures 6 and passes there, and measures 3 and fails here.
- MovieModel.SchemaCast: counts the trimmed title's length in Unicode characters in the same way, while the schema's `minlength`/`maxlength` count UTF-16 code units.
- Movie.numberInStock: modelled as an integer. The schema's `Number` would also admit a fractional stock.
- RentalModel.NewRental: reads the clock once for both defaults, while the schema reads `Date.now` separately for the start and for the due date.
- Concurrency and transaction isolation are left out: requests are sequential. Two checkouts racing on one movie's stock are outside the model.
- How the ORM applies the schema's `min`/`max` when it saves is left out. The `commits` and `saves` parameters stand for any failure of a write, and `Consistent` states what the bounds would guarantee.
- Checkout's catch path (routes/rentals.js:48-52) logs and sends nothing. It is `NoResponse` with the store unchanged.
- Generic CRUD for genres, movies, customers and users, and the logging setup, are outside the rental lifecycle and are not modelled.
- ReturnRoute.Return: takes the lookup's result as the parameter `found`, constrained only by `RentalModel.LookupAdmits` (a stored rental or none, and none when there are no rentals). Which document the query as written finds depends on how the driver treats unknown filter fields, and that is not part of this model.

## Findings

| source | as written | input that shows it | evidently intended | confidence | as-written member | corrected member |
|---|---|---|---|---|---|---|
| models/rental.js:36 | `findOne({ customerId, movieId })` filters on fields the schema does not have (its paths are `customer` and `movie`); with unknown filter fields stripped it is `findOne({})`, the first rental of any customer and any movie | customer A has movie X out; movie Y has 255 copies on the shelf; customer B returns Y: A's rental of X is closed at Y's rate. If the movie's save is not refused, Y's stock becomes 256. If its `max: 255` refuses the save, Y is unchanged and X has lost a copy for good (`ReturnRoute.AsWrittenLookupLosesCopy`) | `findOne({ customer: customerId, movie: movieId })`, the first rental of this customer and this movie | not executed | ReturnRoute.AsWrittenLookupBreaksStockBound | RentalModel.FindRental |
