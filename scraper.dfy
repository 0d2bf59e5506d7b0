/**
 * `Scraper.addReviewersReadBooks`: the reviews on a user's read shelf are
 * turned, row by row and in page order, into `BookReview`s and appended to
 * the user's list. A row whose star span has no title (an unrated book) is
 * passed over. A row that fails a constructor's checks throws: the rows
 * before it stay appended and the rest of the page is not read.
 *
 * Loading the page and locating each row's fields in its markup are not
 * modelled; a row arrives with its fields already extracted.
 */
module Scraper {
  import opened Wrappers
  import opened Runtime
  import opened Books
  import opened Reviewers

  const SiteUrl := "https://www.goodreads.com"
  const ReviewListUrl := SiteUrl + "/review/list/"
  const ReadShelfQuery := "?shelf=read"

  /**
   * One `tr.review` row: the book title after runs of two or more
   * white-space characters and newlines are deleted from it, the link's
   * `href`, the parsed rating count, and the star span's `title`
   * attribute when it has one.
   */
  datatype Row = Row(title: string, href: string, numRatings: int32, ratingTitle: Option<string>)

  /** How reading one shelf page ended: the reviews appended, and the check that threw, if any. */
  datatype ShelfRead = ShelfRead(reviews: seq<BookReview>, failure: Option<ValidationError>)

  /** The address of a user's read shelf. */
  function ReadShelfUrl(userId: int32): (url: string)
    ensures StartsWith(url, ReviewListUrl)
    ensures |url| >= |ReviewListUrl| + |ReadShelfQuery| && url[|url| - |ReadShelfQuery|..] == ReadShelfQuery
  {
    ReviewListUrl + IntString(userId as int) + ReadShelfQuery
  }

  /** Recovers the user id from a read-shelf address. */
  function ShelfUserId(url: string): Option<int32> {
    if StartsWith(url, ReviewListUrl) && |ReviewListUrl| + |ReadShelfQuery| <= |url|
       && url[|url| - |ReadShelfQuery|..] == ReadShelfQuery
    then
      match ParseInt(url[|ReviewListUrl|..|url| - |ReadShelfQuery|])
      case Some(n) => if -0x8000_0000 <= n < 0x8000_0000 then Some(n as int32) else None
      case None => None
    else None
  }

  /** Each user's shelf has its own address, from which the user is recovered. */
  lemma ReadShelfUrlRoundTrip(userId: int32)
    ensures ShelfUserId(ReadShelfUrl(userId)) == Some(userId)
  {
    var id := IntString(userId as int);
    var url := ReadShelfUrl(userId);
    assert url[..|ReviewListUrl|] == ReviewListUrl;
    assert url[|url| - |ReadShelfQuery|..] == ReadShelfQuery;
    assert url[|ReviewListUrl|..|url| - |ReadShelfQuery|] == id;
    ParseIntString(userId as int);
  }

  /** The review a rated row yields: its book, then its rating, each with the constructor's checks. */
  function RowReview(row: Row): (r: Result<BookReview, ValidationError>)
    requires row.ratingTitle.Some?
    ensures r.Success? ==> MinRating <= r.value.rating <= MaxRating
    ensures r.Success? ==> r.value.reviewedBook == Book(row.title, SiteUrl + row.href, row.numRatings)
  {
    match NewBook(row.title, SiteUrl + row.href, row.numRatings)
    case Failure(e) => Failure(e)
    case Success(book) => NewBookReview(book, ConvertRating(row.ratingTitle.value))
  }

  /**
   * A rated row yields a review exactly when its title is not empty, its
   * count is not negative and its star title is one of the five. The URL
   * checks never fail, since the site's address is put in front of every
   * `href`; an unknown star title fails on the rating 0.
   */
  lemma RowReviewOutcome(row: Row)
    requires row.ratingTitle.Some?
    ensures RowReview(row).Success? <==>
      |row.title| > 0 && row.numRatings >= 0 && row.ratingTitle.value in RatingLabels
    ensures RowReview(row).Success? ==>
      && RowReview(row).value.reviewedBook == Book(row.title, SiteUrl + row.href, row.numRatings)
      && MinRating <= RowReview(row).value.rating <= MaxRating
      && RatingLabels[RowReview(row).value.rating - 1] == row.ratingTitle.value
    ensures RowReview(row).Failure? ==>
      || RowReview(row).error == TitleNullOrEmpty
      || RowReview(row).error == NumRatingsBelowZero(row.numRatings)
      || RowReview(row).error == RatingBelowMinimum(0)
  {
    var url := SiteUrl + row.href;
    assert url[0] == 'h' && !IsWhiteSpace(url[0]);
    assert IsValidBook(row.title, url, row.numRatings) <==> |row.title| > 0 && row.numRatings >= 0;
    if IsValidBook(row.title, url, row.numRatings) {
      ReviewFromLabel(Book(row.title, url, row.numRatings), row.ratingTitle.value);
    }
  }

  /** The result of the row loop, one row at a time from the top of the page. */
  function ReadShelf(rows: seq<Row>): (r: ShelfRead)
    ensures |r.reviews| <= |Rated(rows)|
    ensures r.failure.None? ==> |r.reviews| == |Rated(rows)|
  {
    if rows == [] then ShelfRead([], None)
    else if rows[0].ratingTitle.None? then ReadShelf(rows[1..])
    else match RowReview(rows[0])
      case Failure(e) => ShelfRead([], Some(e))
      case Success(br) =>
        var rest := ReadShelf(rows[1..]);
        ShelfRead([br] + rest.reviews, rest.failure)
  }

  /** One step of the loop on a rated row: it either throws or appends that row's review. */
  lemma ReadShelfRatedStep(rows: seq<Row>)
    requires rows != [] && rows[0].ratingTitle.Some?
    ensures RowReview(rows[0]).Failure? ==> ReadShelf(rows) == ShelfRead([], Some(RowReview(rows[0]).error))
    ensures RowReview(rows[0]).Success? ==>
      ReadShelf(rows) == ShelfRead([RowReview(rows[0]).value] + ReadShelf(rows[1..]).reviews, ReadShelf(rows[1..]).failure)
  {
  }

  /** The rated rows, in page order. */
  function Rated(rows: seq<Row>): (r: seq<Row>)
    ensures |r| <= |rows|
    ensures forall k :: 0 <= k < |r| ==> r[k].ratingTitle.Some? && r[k] in rows
  {
    if rows == [] then []
    else if rows[0].ratingTitle.None? then Rated(rows[1..])
    else [rows[0]] + Rated(rows[1..])
  }

  /** Unrated rows make no difference to what is read. */
  lemma {:induction false} ReadShelfSkipsUnrated(rows: seq<Row>)
    ensures ReadShelf(rows) == ReadShelf(Rated(rows))
  {
    if rows != [] {
      ReadShelfSkipsUnrated(rows[1..]);
      if rows[0].ratingTitle.Some? {
        assert Rated(rows)[1..] == Rated(rows[1..]);
      }
    }
  }

  /**
   * The stored-rating invariant: every review the loop appends passed the
   * constructors' checks, so its rating is one to five stars and never 0.
   */
  lemma {:induction false} ReadShelfReviewsValid(rows: seq<Row>)
    ensures forall k :: 0 <= k < |ReadShelf(rows).reviews| ==>
      var br := ReadShelf(rows).reviews[k];
      && MinRating <= br.rating <= MaxRating
      && IsValidBook(br.reviewedBook.title, br.reviewedBook.url, br.reviewedBook.numRatings)
      && StartsWith(br.reviewedBook.url, SiteUrl)
  {
    if rows != [] {
      ReadShelfReviewsValid(rows[1..]);
      if rows[0].ratingTitle.Some? {
        RowReviewOutcome(rows[0]);
        var url := SiteUrl + rows[0].href;
        assert url[..|SiteUrl|] == SiteUrl;
      }
    }
  }

  /**
   * The loop reads the whole page exactly when every rated row yields a
   * review, and then it has appended one review per rated row, in order.
   */
  lemma {:induction false} ReadShelfComplete(rows: seq<Row>)
    ensures ReadShelf(rows).failure.None? <==>
      forall k :: 0 <= k < |rows| && rows[k].ratingTitle.Some? ==> RowReview(rows[k]).Success?
    ensures ReadShelf(rows).failure.None? ==>
      && |ReadShelf(rows).reviews| == |Rated(rows)|
      && forall k :: 0 <= k < |Rated(rows)| ==> ReadShelf(rows).reviews[k] == RowReview(Rated(rows)[k]).value
  {
    if rows != [] {
      ReadShelfComplete(rows[1..]);
      assert forall k :: 1 <= k < |rows| ==> rows[k] == rows[1..][k - 1];
      if rows[0].ratingTitle.Some? && RowReview(rows[0]).Success? {
        assert Rated(rows) == [rows[0]] + Rated(rows[1..]);
      }
    }
  }

  /**
   * When a check throws, it threw on some rated row, and what was appended
   * is exactly what the rows above that one yield.
   */
  lemma {:induction false} ReadShelfStopsAtFailure(rows: seq<Row>)
    requires ReadShelf(rows).failure.Some?
    ensures exists j ::
      && 0 <= j < |rows| && rows[j].ratingTitle.Some?
      && RowReview(rows[j]) == Failure(ReadShelf(rows).failure.value)
      && ReadShelf(rows[..j]) == ShelfRead(ReadShelf(rows).reviews, None)
  {
    var e := ReadShelf(rows).failure.value;
    if rows[0].ratingTitle.Some? && RowReview(rows[0]).Failure? {
      assert rows[..0] == [];
    } else {
      ReadShelfStopsAtFailure(rows[1..]);
      var j :| 0 <= j < |rows[1..]| && rows[1..][j].ratingTitle.Some?
        && RowReview(rows[1..][j]) == Failure(e)
        && ReadShelf(rows[1..][..j]) == ShelfRead(ReadShelf(rows[1..]).reviews, None);
      assert rows[..j + 1][1..] == rows[1..][..j];
    }
  }

  /**
   * The body of the row loop for a rated row: convert the star title, build
   * the book and the review, append the review. A check that throws leaves
   * the list as it was.
   */
  method AddRowReview(reviewer: Reviewer, row: Row) returns (failure: Option<ValidationError>)
    requires row.ratingTitle.Some?
    modifies reviewer
    ensures RowReview(row).Failure? ==>
      failure == Some(RowReview(row).error) && reviewer.reviews == old(reviewer.reviews)
    ensures RowReview(row).Success? ==>
      failure == None && reviewer.reviews == old(reviewer.reviews) + [RowReview(row).value]
    ensures reviewer.name == old(reviewer.name) && reviewer.url == old(reviewer.url)
    ensures reviewer.userId == old(reviewer.userId)
  {
    var bookUrl := SiteUrl + row.href;
    var rating := ConvertRating(row.ratingTitle.value);
    var book := NewBook(row.title, bookUrl, row.numRatings);
    if book.Failure? {
      return Some(book.error);
    }
    var bookReview := NewBookReview(book.value, rating);
    if bookReview.Failure? {
      return Some(bookReview.error);
    }
    var _ := reviewer.AddReview(bookReview.value);
    failure := None;
  }

  /**
   * `addReviewersReadBooks`: `loadRows` stands for loading a page and
   * selecting its review rows. The reviewer's list grows by what the rows
   * of their read shelf yield, and the check that threw, if any, is returned.
   */
  method AddReviewersReadBooks(reviewer: Reviewer, loadRows: string -> seq<Row>)
    returns (failure: Option<ValidationError>)
    modifies reviewer
    ensures var read := ReadShelf(loadRows(ReadShelfUrl(old(reviewer.userId))));
      reviewer.reviews == old(reviewer.reviews) + read.reviews && failure == read.failure
    ensures reviewer.name == old(reviewer.name) && reviewer.url == old(reviewer.url)
    ensures reviewer.userId == old(reviewer.userId)
  {
    var rows := loadRows(ReadShelfUrl(reviewer.userId));
    ghost var appended: seq<BookReview> := [];
    var i := 0;
    while i < |rows|
      invariant 0 <= i <= |rows|
      invariant reviewer.reviews == old(reviewer.reviews) + appended
      invariant ReadShelf(rows).reviews == appended + ReadShelf(rows[i..]).reviews
      invariant ReadShelf(rows).failure == ReadShelf(rows[i..]).failure
      invariant reviewer.name == old(reviewer.name) && reviewer.url == old(reviewer.url)
      invariant reviewer.userId == old(reviewer.userId)
    {
      var row := rows[i];
      assert rows[i..][1..] == rows[i + 1..];
      if row.ratingTitle.Some? {
        ReadShelfRatedStep(rows[i..]);
        failure := AddRowReview(reviewer, row);
        if failure.Some? {
          return;
        }
        appended := appended + [RowReview(row).value];
      }
      i := i + 1;
    }
    assert rows[i..] == [];
    failure := None;
  }
}
