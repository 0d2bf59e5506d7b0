/**
 * The two record types of the scraper, `Book` and `BookReview`: the
 * argument checks their constructors make, the translation of Goodreads'
 * star titles into ratings, and the one-line text each prints.
 *
 * The records are plain values. Their properties have public setters that
 * do not re-check anything, so a record need not satisfy its constructor's
 * checks; the checks are stated about the constructors only.
 */
module Books {
  import opened Wrappers
  import opened Runtime

  datatype Book = Book(title: string, url: string, numRatings: int32)

  datatype BookReview = BookReview(reviewedBook: Book, rating: int32)

  /** The argument check that threw, in the order the constructors make them. */
  datatype ValidationError =
    | TitleNullOrEmpty
    | UrlNullOrEmpty
    | UrlWhiteSpace
    | NumRatingsBelowZero(numRatings: int32)
    | RatingBelowMinimum(rating: int32)
    | RatingAboveMaximum(rating: int32)

  const MinRating: int32 := 1
  const MaxRating: int32 := 5

  /** Goodreads' star titles, for one to five stars. */
  const RatingLabels: seq<string> :=
    ["did not like it", "it was ok", "liked it", "really liked it", "it was amazing"]

  /**
   * What a book needs to be constructed: a title of at least one character,
   * a URL with at least one character that is not white space, and a
   * rating count that is not negative.
   */
  predicate IsValidBook(title: string, url: string, numRatings: int32) {
    && |title| > 0
    && (exists i :: 0 <= i < |url| && !IsWhiteSpace(url[i]))
    && numRatings >= 0
  }

  /**
   * `new Book(title, url, numRatings)`: the checks run in the order the constructor makes them and
   * the first one that fails decides the error.
   */
  function NewBook(title: string, url: string, numRatings: int32): (r: Result<Book, ValidationError>)
    ensures r.Success? <==> IsValidBook(title, url, numRatings)
    ensures r.Success? ==> r.value == Book(title, url, numRatings)
    ensures title == [] ==> r == Failure(TitleNullOrEmpty)
    ensures title != [] && url == [] ==> r == Failure(UrlNullOrEmpty)
    ensures title != [] && url != [] && IsNullOrWhiteSpace(url) ==> r == Failure(UrlWhiteSpace)
    ensures title != [] && !IsNullOrWhiteSpace(url) && numRatings < 0 ==> r == Failure(NumRatingsBelowZero(numRatings))
  {
    if title == [] then Failure(TitleNullOrEmpty)
    else if url == [] then Failure(UrlNullOrEmpty)
    else if IsNullOrWhiteSpace(url) then Failure(UrlWhiteSpace)
    else if numRatings < 0 then Failure(NumRatingsBelowZero(numRatings))
    else Success(Book(title, url, numRatings))
  }

  /** `new BookReview(book, rating)`: the rating must lie between one and five stars. */
  function NewBookReview(book: Book, rating: int32): (r: Result<BookReview, ValidationError>)
    ensures r.Success? <==> MinRating <= rating <= MaxRating
    ensures r.Success? ==> r.value.reviewedBook == book && r.value.rating == rating
    ensures rating < MinRating ==> r == Failure(RatingBelowMinimum(rating))
    ensures rating > MaxRating ==> r == Failure(RatingAboveMaximum(rating))
  {
    if rating < MinRating then Failure(RatingBelowMinimum(rating))
    else if rating > MaxRating then Failure(RatingAboveMaximum(rating))
    else Success(BookReview(book, rating))
  }

  /**
   * `BookReview.ConvertRating`: the number of stars a star title stands
   * for, and 0 for any other text.
   */
  function ConvertRating(ratingString: string): (r: int32)
    ensures 0 <= r <= MaxRating
    ensures r == 0 <==> ratingString !in RatingLabels
    ensures r != 0 ==> RatingLabels[r - 1] == ratingString
  {
    match ratingString
    case "did not like it" => 1
    case "it was ok" => 2
    case "liked it" => 3
    case "really liked it" => 4
    case "it was amazing" => 5
    case _ => 0
  }

  /** Each star title converts to its own number of stars: the table is read back. */
  lemma ConvertRatingLabel(stars: int32)
    requires MinRating <= stars <= MaxRating
    ensures ConvertRating(RatingLabels[stars - 1]) == stars
  {
  }

  /**
   * A review built from a converted star title is constructed exactly when
   * the title is one of the five; any other title makes the constructor
   * throw on the value 0 rather than store it.
   */
  lemma ReviewFromLabel(book: Book, ratingString: string)
    ensures NewBookReview(book, ConvertRating(ratingString)).Success? <==> ratingString in RatingLabels
    ensures ratingString !in RatingLabels ==>
      NewBookReview(book, ConvertRating(ratingString)) == Failure(RatingBelowMinimum(0))
    ensures ratingString in RatingLabels ==>
      var r := NewBookReview(book, ConvertRating(ratingString));
      r.Success? && MinRating <= r.value.rating <= MaxRating && RatingLabels[r.value.rating - 1] == ratingString
  {
  }

  /** A title made only of white space passes; only the URL is checked for that. */
  lemma WhiteSpaceTitleAccepted(title: string, url: string, numRatings: int32)
    requires |title| > 0 && IsNullOrWhiteSpace(title)
    requires !IsNullOrWhiteSpace(url) && numRatings >= 0
    ensures NewBook(title, url, numRatings) == Success(Book(title, url, numRatings))
  {
  }

  const Separator := " | "
  const CountSuffix := " total ratings | "
  const OutOfFive := "/5: "

  /** `Book.ToString()`: title, rating count and URL on one line. */
  function BookString(b: Book): (r: string)
    ensures StartsWith(r, b.title)
    ensures |b.url| <= |r| && r[|r| - |b.url|..] == b.url
  {
    b.title + Separator + IntString(b.numRatings as int) + CountSuffix + b.url
  }

  /** `BookReview.ToString()`: the rating out of five, then the book. */
  function ReviewString(br: BookReview): (r: string)
    ensures StartsWith(r, IntString(br.rating as int) + OutOfFive)
    ensures r[|IntString(br.rating as int) + OutOfFive|..] == BookString(br.reviewedBook)
  {
    IntString(br.rating as int) + OutOfFive + BookString(br.reviewedBook)
  }

  /** Splits a printed book line at its first `|`: the title before `" | "`, and what follows. */
  function SplitTitle(s: string): Option<(string, string)> {
    var i := IndexOf(s, '|');
    if 1 <= i && i + 1 < |s| && s[i - 1] == ' ' && s[i + 1] == ' ' then Some((s[..i - 1], s[i + 2..]))
    else None
  }

  /** Reads the count up to the next space, then the URL after `" total ratings | "`. */
  function SplitCount(rest: string): Option<(int32, string)> {
    var j := IndexOf(rest, ' ');
    match ParseInt(rest[..j])
    case Some(n) =>
      if -0x8000_0000 <= n < 0x8000_0000 && StartsWith(rest[j..], CountSuffix) then
        Some((n as int32, rest[j + |CountSuffix|..]))
      else None
    case None => None
  }

  /** Reads a book back from its printed line. */
  function ParseBookString(s: string): Option<Book> {
    match SplitTitle(s)
    case Some((title, rest)) =>
      (match SplitCount(rest)
       case Some((n, url)) => Some(Book(title, url, n))
       case None => None)
    case None => None
  }

  /** Splits a printed review line at its first `/`: the rating, and what follows `"/5: "`. */
  function SplitRating(s: string): Option<(int32, string)> {
    var k := IndexOf(s, '/');
    match ParseInt(s[..k])
    case Some(n) =>
      if -0x8000_0000 <= n < 0x8000_0000 && StartsWith(s[k..], OutOfFive) then
        Some((n as int32, s[k + |OutOfFive|..]))
      else None
    case None => None
  }

  /** Reads a review back from its printed line. */
  function ParseReviewString(s: string): Option<BookReview> {
    match SplitRating(s)
    case Some((n, line)) =>
      (match ParseBookString(line)
       case Some(b) => Some(BookReview(b, n))
       case None => None)
    case None => None
  }

  /** The space, `|` and `/` characters cannot occur in the text of a number. */
  lemma IntStringHasNoSeparator(n: int)
    ensures forall k :: 0 <= k < |IntString(n)| ==> IntString(n)[k] != ' ' && IntString(n)[k] != '|' && IntString(n)[k] != '/'
  {
  }

  /** A title without `|` is split off exactly at its separator. */
  lemma SplitTitleOf(title: string, tail: string)
    requires forall k :: 0 <= k < |title| ==> title[k] != '|'
    ensures SplitTitle(title + Separator + tail) == Some((title, tail))
  {
    var s := title + Separator + tail;
    assert s == title + (Separator + tail);
    IndexOfAfter(title, Separator + tail, '|');
    var i := IndexOf(s, '|');
    assert i == |title| + 1;
    assert s[..i - 1] == title;
    assert s[i + 2..] == tail;
  }

  /** The printed count is read back up to the next space, and the URL after its suffix. */
  lemma SplitCountOf(n: int32, url: string)
    ensures SplitCount(IntString(n as int) + CountSuffix + url) == Some((n, url))
  {
    var count := IntString(n as int);
    var rest := count + CountSuffix + url;
    assert rest == count + (CountSuffix + url);
    IntStringHasNoSeparator(n as int);
    IndexOfAfter(count, CountSuffix + url, ' ');
    assert rest[..|count|] == count;
    ParseIntString(n as int);
    assert rest[|count|..] == CountSuffix + url;
  }

  /** A book whose title holds no `|` is recovered from its printed line. */
  lemma BookStringRoundTrip(b: Book)
    requires forall k :: 0 <= k < |b.title| ==> b.title[k] != '|'
    ensures ParseBookString(BookString(b)) == Some(b)
  {
    var tail := IntString(b.numRatings as int) + CountSuffix + b.url;
    assert BookString(b) == b.title + Separator + tail;
    SplitTitleOf(b.title, tail);
    SplitCountOf(b.numRatings, b.url);
  }

  /** The printed rating is read back up to its `/`, and the book line after `"/5: "`. */
  lemma SplitRatingOf(n: int32, line: string)
    ensures SplitRating(IntString(n as int) + OutOfFive + line) == Some((n, line))
  {
    var stars := IntString(n as int);
    var s := stars + OutOfFive + line;
    assert s == stars + (OutOfFive + line);
    IntStringHasNoSeparator(n as int);
    IndexOfAfter(stars, OutOfFive + line, '/');
    assert s[..|stars|] == stars;
    ParseIntString(n as int);
    assert s[|stars|..] == OutOfFive + line;
  }

  /** A review whose book title holds no `|` is recovered from its printed line. */
  lemma ReviewStringRoundTrip(br: BookReview)
    requires forall k :: 0 <= k < |br.reviewedBook.title| ==> br.reviewedBook.title[k] != '|'
    ensures ParseReviewString(ReviewString(br)) == Some(br)
  {
    SplitRatingOf(br.rating, BookString(br.reviewedBook));
    BookStringRoundTrip(br.reviewedBook);
  }
}
