/** The movie catalog record (models/movie.js): the bounds its schema puts on a
    stored movie, and the `validateMovie` check of a request body. Nothing here
    changes state. */
module MovieModel {
  import opened Common

  const MinTitleLength := 5
  const MaxTitleLength := 255
  const MaxStock := 255
  const MaxDailyRate := 255

  /** The embedded genre sub-document. */
  datatype Genre = Genre(id: string, name: string)

  datatype Movie = Movie(title: string, genre: Genre, numberInStock: int, dailyRentalRate: real)

  /** The characters `String.prototype.trim` removes: ECMAScript WhiteSpace and LineTerminator. */
  predicate IsJsWhitespace(c: char) {
    || c == '\t' || c == '\n' || c == '\U{B}' || c == '\U{C}' || c == '\r' || c == ' '
    || c == '\U{A0}' || c == '\U{1680}' || ('\U{2000}' <= c <= '\U{200A}')
    || c == '\U{2028}' || c == '\U{2029}' || c == '\U{202F}' || c == '\U{205F}'
    || c == '\U{3000}' || c == '\U{FEFF}'
  }

  /** The index of the first non-whitespace character at or after `i`
      (or `|s|`): everything skipped is whitespace. */
  function SkipBlanks(s: string, i: nat): (n: nat)
    requires i <= |s|
    ensures i <= n <= |s|
    ensures forall k :: i <= k < n ==> IsJsWhitespace(s[k])
    ensures n == |s| || !IsJsWhitespace(s[n])
    decreases |s| - i
  {
    if i < |s| && IsJsWhitespace(s[i]) then SkipBlanks(s, i + 1) else i
  }

  /** The end of `s[lo..j]` once its trailing whitespace is dropped: everything
      dropped is whitespace, and what is kept does not end with whitespace. */
  function SkipTrailingBlanks(s: string, lo: nat, j: nat): (n: nat)
    requires lo <= j <= |s|
    ensures lo <= n <= j
    ensures forall k :: n <= k < j ==> IsJsWhitespace(s[k])
    ensures n == lo || !IsJsWhitespace(s[n - 1])
    decreases j
  {
    if lo < j && IsJsWhitespace(s[j - 1]) then SkipTrailingBlanks(s, lo, j - 1) else j
  }

  /** The schema's `trim: true`: the trimmed title neither starts nor ends with
      whitespace, and it is empty exactly when the title is all whitespace. */
  function Trim(s: string): (t: string)
    ensures |t| <= |s|
    ensures t == [] || (!IsJsWhitespace(t[0]) && !IsJsWhitespace(t[|t| - 1]))
    ensures t == [] <==> forall k :: 0 <= k < |s| ==> IsJsWhitespace(s[k])
  {
    var a := SkipBlanks(s, 0);
    var b := SkipTrailingBlanks(s, a, |s|);
    s[a..b]
  }

  /** What trimming removes: only whitespace, and only at the two ends. The
      trimmed title is a slice of the title with nothing but whitespace
      before it and after it. */
  lemma TrimRemovesOnlyEnds(s: string)
    ensures exists a, b :: && 0 <= a <= b <= |s| && Trim(s) == s[a..b]
                           && (forall k :: 0 <= k < a ==> IsJsWhitespace(s[k]))
                           && (forall k :: b <= k < |s| ==> IsJsWhitespace(s[k]))
  {
    var a := SkipBlanks(s, 0);
    var b := SkipTrailingBlanks(s, a, |s|);
    assert forall k :: 0 <= k < a ==> IsJsWhitespace(s[k]);
    assert Trim(s) == s[a..b];
  }

  /** A title with no whitespace at either end is its own trimmed form. */
  lemma TrimOfTrimmed(t: string)
    requires t != [] && !IsJsWhitespace(t[0]) && !IsJsWhitespace(t[|t| - 1])
    ensures Trim(t) == t
  {
    assert SkipBlanks(t, 0) == 0;
    assert SkipTrailingBlanks(t, 0, |t|) == |t|;
  }

  /** Trimming a trimmed title changes nothing. */
  lemma TrimIdempotent(s: string)
    ensures Trim(Trim(s)) == Trim(s)
  {
    if Trim(s) != [] {
      TrimOfTrimmed(Trim(s));
    }
  }

  /** The bounds the schema places on a stored movie: a trimmed title of 5 to 255
      characters, and stock and daily rate in [0, 255]. */
  predicate ValidMovie(m: Movie) {
    && m.title == Trim(m.title)
    && MinTitleLength <= |m.title| <= MaxTitleLength
    && 0 <= m.numberInStock <= MaxStock
    && 0.0 <= m.dailyRentalRate <= MaxDailyRate as real
  }

  /** The record the schema stores for the given fields: the title is trimmed
      first and the length bounds apply to the trimmed title. None when a bound fails. */
  function SchemaCast(title: string, genre: Genre, numberInStock: int, dailyRentalRate: real): (r: Option<Movie>)
    ensures r.Some? ==> ValidMovie(r.value) && r.value == Movie(Trim(title), genre, numberInStock, dailyRentalRate)
    ensures r.None? ==> !(MinTitleLength <= |Trim(title)| <= MaxTitleLength)
                        || !(0 <= numberInStock <= MaxStock)
                        || !(0.0 <= dailyRentalRate <= MaxDailyRate as real)
  {
    var t := Trim(title);
    TrimIdempotent(title);
    if MinTitleLength <= |t| <= MaxTitleLength && 0 <= numberInStock <= MaxStock
       && 0.0 <= dailyRentalRate <= MaxDailyRate as real
    then Some(Movie(t, genre, numberInStock, dailyRentalRate))
    else None
  }

  /** The fields of a create-movie request body that `validateMovie` accepts. */
  datatype MovieInput = MovieInput(title: string, genreId: string, numberInStock: real, dailyRentalRate: real)

  /** The request body that carries a given input. */
  function MovieBody(x: MovieInput): Body {
    map["title" := JString(x.title), "genreId" := JString(x.genreId),
        "numberInStock" := JNumber(x.numberInStock), "dailyRentalRate" := JNumber(x.dailyRentalRate)]
  }

  /** The Joi rules: title of 5 to 255 characters (untrimmed), genreId of 24 hex
      digits, stock and daily rate numbers in [0, 255]. */
  predicate InputInBounds(x: MovieInput) {
    && MinTitleLength <= |x.title| <= MaxTitleLength
    && IsObjectIdString(x.genreId)
    && 0.0 <= x.numberInStock <= MaxStock as real
    && 0.0 <= x.dailyRentalRate <= MaxDailyRate as real
  }

  /** `validateMovie`: a body passes only if it has exactly the four fields, each
      of the right JSON type and within its bounds; an unknown field, a missing
      field or a value out of range fails it. */
  function ValidateMovie(body: Body): (r: Option<MovieInput>)
    ensures r.Some? ==> body == MovieBody(r.value) && InputInBounds(r.value)
  {
    if && body.Keys == {"title", "genreId", "numberInStock", "dailyRentalRate"}
       && body["title"].JString? && body["genreId"].JString?
       && body["numberInStock"].JNumber? && body["dailyRentalRate"].JNumber?
    then
      var x := MovieInput(body["title"].s, body["genreId"].s, body["numberInStock"].n, body["dailyRentalRate"].n);
      if InputInBounds(x) then
        assert body == MovieBody(x);
        Some(x)
      else None
    else None
  }

  /** The converse of ValidateMovie's contract: every in-bounds input, sent as a
      body, passes and is read back unchanged. */
  lemma ValidateMovieAccepts(x: MovieInput)
    requires InputInBounds(x)
    ensures ValidateMovie(MovieBody(x)) == Some(x)
  {
    var body := MovieBody(x);
    assert body.Keys == {"title", "genreId", "numberInStock", "dailyRentalRate"};
  }

  /** A stored movie whose genre id is well formed, sent back as a request body,
      passes `validateMovie`, and the schema stores exactly that movie again. */
  lemma StoredMovieRoundTrip(m: Movie)
    requires ValidMovie(m) && IsObjectIdString(m.genre.id)
    ensures var x := MovieInput(m.title, m.genre.id, m.numberInStock as real, m.dailyRentalRate);
            && ValidateMovie(MovieBody(x)) == Some(x)
            && SchemaCast(x.title, m.genre, m.numberInStock, x.dailyRentalRate) == Some(m)
  {
    var x := MovieInput(m.title, m.genre.id, m.numberInStock as real, m.dailyRentalRate);
    ValidateMovieAccepts(x);
    var r := SchemaCast(x.title, m.genre, m.numberInStock, x.dailyRentalRate);
    assert Trim(m.title) == m.title;
    assert r.Some?;
  }

  /** `validateMovie` measures the title before trimming and the schema after it:
      a title of five characters that begins with blanks passes validation, yet
      the schema refuses it. */
  lemma ValidateMovieIgnoresTrim()
    ensures var x := MovieInput("  abc", "0123456789abcdef01234567", 1.0, 1.0);
            && ValidateMovie(MovieBody(x)) == Some(x)
            && SchemaCast(x.title, Genre("0123456789abcdef01234567", "Drama"), 1, 1.0).None?
  {
    var x := MovieInput("  abc", "0123456789abcdef01234567", 1.0, 1.0);
    assert IsObjectIdString(x.genreId);
    ValidateMovieAccepts(x);
    TrimOfPaddedAbc();
  }

  lemma TrimOfPaddedAbc()
    ensures Trim("  abc") == "abc"
  {
    assert SkipBlanks("  abc", 0) == 2;
    assert SkipTrailingBlanks("  abc", 2, 5) == 5;
  }
}
