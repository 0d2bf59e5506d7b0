# BetterReads domain layer in Dafny

BetterReads scrapes a Goodreads user's "read" shelf. For each rated book on
the page it builds a `Book`, wraps it in a `BookReview` with a star rating
from one to five, and appends that review to the user's `Reviewer` record.
This project models that domain layer of `Scraper.cs` and proves what its
checks guarantee.

- `Runtime`: the .NET behaviour the classes rely on. It has C#'s 32-bit
  `int`, `char.IsWhiteSpace` and `string.IsNullOrWhiteSpace`, the decimal
  text of `Int32.ToString()`, and a reader that inverts that text.
- `Books`: the `Book` and `BookReview` records. The throwing constructors
  become functions that return `Success(record)` or `Failure(check)`. It also
  has `ConvertRating` from Goodreads' star titles to stars, and the two
  `ToString` lines, each with a parser that reads the line back.
- `Reviewers`: the `Reviewer` class. Its review list is a `seq` field that
  `AddReview` appends to in place.
- `Scraper`: the row loop of `addReviewersReadBooks` over rows whose fields
  are already extracted. `ReadShelf` is the functional specification of the
  loop. The method `AddReviewersReadBooks` is proved against it; its loop body for one rated row is the method `AddRowReview`.

The central fact is this. The loop can only store a review whose rating is
one to five stars (`ReadShelfReviewsValid`). An unknown star title converts
to 0, and then the `BookReview` constructor throws instead of storing it
(`ReviewFromLabel`, `RowReviewOutcome`).

Some behaviour worth knowing, all as the code does it:

- `calculateSimilarity` (Scraper.cs:116-119) only returns the stored
  `Similarity` field. The header comment (Scraper.cs:5-16) describes steps
  5 to 9, which the code does not perform.
- An unknown star title makes the `BookReview` constructor throw. The
  exception ends the loop; the reviews already appended stay and later rows
  are not read. The model returns that check as its error.
- A book that appears twice on the page is appended twice.

## Model

| member | source | states |
|---|---|---|
| Books.NewBook | Scraper.cs:27-37 | succeeds iff the title is non-empty, the URL has a non-white-space character and the count is non-negative; on success the fields equal the arguments; otherwise the first check that fails, in source order, is the error |
| Books.WhiteSpaceTitleAccepted | Scraper.cs:29-31 | a title made only of white space is accepted; only the URL is checked for white space |
| Books.NewBookReview | Scraper.cs:62-69 | succeeds iff 1 <= rating <= 5 and then stores the book and rating unchanged; below 1 and above 5 fail with their own errors |
| Books.ConvertRating | Scraper.cs:71-82 | the result is in 0..5; it is 0 exactly for strings that are not one of the five star titles; a non-zero result k means the input is the k-th star title |
| Books.ConvertRatingLabel | Scraper.cs:54-58 | each of the five star titles converts to its own star count (1 "did not like it" … 5 "it was amazing") |
| Books.ReviewFromLabel | Scraper.cs:160-163 | building a review from a converted star title succeeds iff the title is one of the five; any other title fails as a rating below the minimum (0) rather than being stored |
| Books.BookString | Scraper.cs:40-43 | `Book.ToString`: the line starts with the title and ends with the URL; `BookStringRoundTrip` proves it reads back to the book when the title holds no `\|` |
| Books.BookStringRoundTrip | Scraper.cs:40-43 | the `Book.ToString` line "title \| count total ratings \| url" gives back the book when the title holds no `\|` |
| Books.ReviewString | Scraper.cs:84-87 | `BookReview.ToString`: the rating's text, then "/5: ", then the book's line; `ReviewStringRoundTrip` proves it reads back to the review when the book title holds no `\|` |
| Books.ReviewStringRoundTrip | Scraper.cs:84-87 | the `BookReview.ToString` line "rating/5: book" gives back the review when the book title holds no `\|` |
| Runtime.IsNullOrWhiteSpace | Scraper.cs:31 | `string.IsNullOrWhiteSpace` on a non-null string: true of the empty string and of strings made only of `char.IsWhiteSpace` characters (the Unicode White_Space set); `WhiteSpaceExamples` pins the boundary cases |
| Runtime.WhiteSpaceExamples | Scraper.cs:31 | the empty string, tab, newline, no-break space and ideographic space count as white space; zero-width space and the byte-order mark do not |
| Runtime.IntString | Scraper.cs:42 | `Int32.ToString()`: a minus sign exactly for negative numbers, then decimal digits; the same conversion prints the rating at Scraper.cs:86 and the user id at Scraper.cs:142; `ParseIntString` proves it reads back |
| Runtime.ParseIntString | Scraper.cs:42 | the decimal text an integer is printed with reads back as that integer |
| Reviewers.Reviewer.constructor | Scraper.cs:98-104 | a new reviewer stores the given name, URL and user id and has an empty review list |
| Reviewers.Reviewer.AddReview | Scraper.cs:106-110 | appends exactly its argument at the end; earlier reviews and the other fields are unchanged; always returns true |
| Scraper.ReadShelfUrl | Scraper.cs:142 | the read-shelf address of a user starts with the review-list address and ends with the read-shelf query; `ReadShelfUrlRoundTrip` proves the user id is recovered from it |
| Scraper.ReadShelfUrlRoundTrip | Scraper.cs:142 | a read-shelf address determines the user id it was built from |
| Scraper.RowReview | Scraper.cs:152-163 | the review one rated row yields; a success has a rating of 1 to 5 and the row's title, prefixed URL and count; `RowReviewOutcome` states exactly when it succeeds and how it can fail |
| Scraper.RowReviewOutcome | Scraper.cs:152-163 | a rated row yields a review iff its title is non-empty, its count is non-negative and its star title is one of the five; the URL checks never fail because the site address is prefixed; the only failures are an empty title, a negative count and rating 0 |
| Scraper.ReadShelf | Scraper.cs:148-166 | the row loop as a function: it appends at most one review per rated row, and exactly one per rated row when nothing throws; `ReadShelfSkipsUnrated`, `ReadShelfReviewsValid`, `ReadShelfComplete` and `ReadShelfStopsAtFailure` state the rest |
| Scraper.ReadShelfSkipsUnrated | Scraper.cs:148-150 | rows whose star span has no title do not change what the loop reads |
| Scraper.ReadShelfReviewsValid | Scraper.cs:148-166 | every review the loop appends has a rating of 1 to 5 stars, a valid book and a URL that begins with `https://www.goodreads.com` |
| Scraper.ReadShelfComplete | Scraper.cs:148-166 | the loop reads the whole page iff every rated row yields a review; it then appends one review per rated row, in page order |
| Scraper.ReadShelfStopsAtFailure | Scraper.cs:162-164 | when a check throws, it threw on a rated row, and the reviews appended are exactly those of the rows above it |
| Scraper.AddRowReview | Scraper.cs:152-164 | for a rated row: converts the star title, builds the book and the review, and appends the review; when a check throws, the list is unchanged and that check is returned |
| Scraper.AddReviewersReadBooks | Scraper.cs:140-167 | loads the user's read-shelf address; the reviewer's list grows by exactly what the loop specification yields; the thrown check is returned; name, URL and id are unchanged |

## Left out

- `Program.cs`: a demonstration that loads one page and prints. Its `BookReview` is a data holder with no logic.
- `Scraper.Main`, `getIDFromProfileURL`, `getUsernameFromProfileID`: network I/O and console output.
- Loading the page and the HTML selection inside `addReviewersReadBooks`, including `HtmlEntity.DeEntitize`. These are foreign library calls. The page is the parameter `loadRows`, and each row arrives with its fields extracted.
- The regular expressions that delete runs of two or more white-space characters and newlines from titles (Scraper.cs:153), and all white space and commas from counts (Scraper.cs:156), and `int.Parse` (Scraper.cs:157). The model takes their results as inputs, so the `FormatException` and `OverflowException` that `int.Parse` can throw are not modelled.
- A missing element in a row (`QuerySelector` returning null, which throws `NullReferenceException`): this is part of extraction.
- `BookReview`'s constructor accepts a null `book` (and `BookReview.ToString` would then throw); the model's `Book` is always present. The loop never passes null (Scraper.cs:162-163).
- `null` strings: Dafny strings are never null, so only the "empty" half of `ThrowIfNullOrEmpty` and `ThrowIfNullOrWhiteSpace` is modelled. Errors are kinds of check, not .NET exception objects with messages.
- `Similarity` and `calculateSimilarity`: a float field and a stub that returns it.
- The property setters on `Book`, `BookReview` and `Reviewer`: they assign without checking anything. The records are values, so the checks are stated about the constructors only.
- Characters: .NET strings are UTF-16 code units; the model's characters are Unicode scalar values. `Int32.ToString()` is modelled with the invariant culture's minus sign.
- Books.BookStringRoundTrip: the printed line cannot be read back when the title itself contains `|`, so the lemma requires a title without it.
