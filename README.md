# Bookworm backend: the auth gate and the book routes, modelled in Dafny

This project models the decision logic of a small book-review HTTP API. Two parts are covered:

- `protectRoute`, the bearer-token gate that every book route runs first;
- the four book handlers mounted under `/api/books`:
  - create a book with an uploaded cover image;
  - list all books, paginated and newest first;
  - list the caller's own books;
  - delete a book, which only its owner may do.

The libraries the code calls are replaced by plain values:

- The JWT verifier is a function from token text to the user id a valid token carries (`verify: string -> Option<UserId>`). `JwtVerify` puts the library in front of it: `jwt.verify` refuses the empty token before consulting the verifier.
- The user directory is a `map<UserId, UserRecord>`. A record keeps its password. The gate hands on a `PublicUser`, a type with no password field.
- The image host is the set of deletion handles it currently holds (`BookStore.hosted`). The outcome of an upload (`Option<Upload>`) and of a destroy (`destroyOk`) are parameters.
- The book collection is `BookStore.books: map<BookId, Book>`. The outcome of a save (`saveOk`) and of a removal (`removeOk`) are parameters. Ids come from a counter.
- The clock is the parameter `now`.

Modules:

- `Common`: the `Option` type.
- `JsText`: `startsWith`, `split(" ")` and `trim()` with their ECMAScript meaning. `trim` removes the WhiteSpace and LineTerminator code points.
- `AuthMiddleware`: header check, token extraction, verification, user lookup, and the `Request` whose `user` field the gate sets.
- `BookListing`: the `Book` record, the newest-first ranking, the page window and the page count.
- `BookRoutes`: the `BookStore` class with the four handlers, plus the handlers placed behind the gate.

Behaviour worth knowing:

- **Empty token.** `"Bearer "` passes the header check. The empty token is then refused by `jwt.verify`, so the answer is "Token is not valid" rather than "No authentication token" (`EmptyTokenIsInvalid`, `BareAndDoubleSpacedAreInvalid`).
- **Page and limit.** `parseInt(x) || d` replaces an absent, non-numeric or zero `page`/`limit` with its default (1 and 5). Negative values pass through.
  - A negative `skip` is refused by the database. The handler's catch turns that into 500.
  - A negative `limit` makes the database return at most `|limit|` books. The page count is then `Math.ceil(total / limit)`, which is not positive.
- **Malformed delete id.** An `:id` that is not a valid object id makes `findById` throw, so the answer is 500, not the 404 that an absent book gets.

## Model

| member | source | states |
|---|---|---|
| `JsText.Split` | src/middleware/auth.middleware.js:15 | `split(" ")` always gives at least one piece, and no piece contains a space |
| `JsText.JoinSplit` | src/middleware/auth.middleware.js:15 | splitting loses nothing: joining the pieces with single spaces gives back the header |
| `JsText.SplitWordSpace` | src/middleware/auth.middleware.js:15 | a space-free word followed by a space splits off as the first piece, and the rest splits on its own |
| `JsText.LeadingSpaceGivesEmptyField` | src/middleware/auth.middleware.js:15 | a leading space makes the first piece empty |
| `JsText.Trim` | src/middleware/auth.middleware.js:15 | `trim()` keeps an infix with only whitespace dropped around it; the result neither starts nor ends with whitespace and has no character the input lacks |
| `AuthMiddleware.ExtractToken` | src/middleware/auth.middleware.js:15 | the extracted token contains no space and is trimmed |
| `AuthMiddleware.TokenIsFirstWord` | src/middleware/auth.middleware.js:15 | the token is the first space-separated word after `"Bearer "`, trimmed |
| `AuthMiddleware.TokenIgnoresTrailingFields` | src/middleware/auth.middleware.js:15 | `"Bearer t"` and `"Bearer t junk"` carry the same token `trim(t)` |
| `AuthMiddleware.DoubleSpaceGivesEmptyToken` | src/middleware/auth.middleware.js:15 | `"Bearer  x"` (double space) carries the empty token |
| `AuthMiddleware.Resolve` | src/middleware/auth.middleware.js:17-20 | a user is found exactly when the verifier accepts the token and the directory holds the id it carries, and it is that record without its password |
| `AuthMiddleware.Authenticate` | src/middleware/auth.middleware.js:4-28 | exactly three outcomes, each stated in both directions: "No authentication token" 401 iff the header is missing, empty or not `"Bearer "`-prefixed; "Token is not valid" 401 iff the token does not resolve to a known user; proceed iff it does, with that user; every refusal is 401 |
| `AuthMiddleware.ProceedsAsTokenOwner` | src/middleware/auth.middleware.js:17-23 | the request proceeds iff the verified id is in the directory, with that user's id, name and image and no credential; a verified id of a missing user gets "Token is not valid" |
| `AuthMiddleware.EmptyTokenIsInvalid` | src/middleware/auth.middleware.js:9-27 | a `"Bearer "` header whose token is empty passes the header check and then gets "Token is not valid", whatever the verifier does |
| `AuthMiddleware.BareAndDoubleSpacedAreInvalid` | src/middleware/auth.middleware.js:9-27 | `"Bearer "` and `"Bearer  …"` (doubled space) are refused with "Token is not valid", not "No authentication token" |
| `AuthMiddleware.ProtectRoute` | src/middleware/auth.middleware.js:4-28 | the gate decides as `Authenticate`; `req.user` is set to the resolved user exactly when it calls `next`, and is untouched otherwise |
| `BookListing.RankNewestFirst` | src/routes/bookRoutes.js:49-50 | the sort lists every stored book exactly once with its own record, creation times non-increasing |
| `BookListing.NewestExists` | src/routes/bookRoutes.js:50 | every non-empty set of books has a newest one, so the descending sort is defined |
| `BookListing.ListingSize` | src/routes/bookRoutes.js:55 | a full listing has exactly as many entries as the store has books (the count behind `totalBooks`) |
| `BookListing.QueryInt` | src/routes/bookRoutes.js:45-46 | `parseInt(q)` falling back to the default: absent, NaN or 0 gives the default, any other integer (negatives too) is kept; the result is never 0 |
| `BookListing.ParsePage` | src/routes/bookRoutes.js:45-47 | page and limit take their defaults and are never 0; `skip = (page-1)*limit`; the database returns at most the absolute value of `limit` books, which is positive |
| `BookListing.PageOfListing` | src/routes/bookRoutes.js:49-53 | a page of the full newest-first listing holds only stored records, newest first, exactly as many as remain after the skip up to the page size |
| `BookListing.Window` | src/routes/bookRoutes.js:51-52 | `skip`/`limit` give ranks `skip+1` up to `skip+take`: at most `take` entries, entry k is rank `skip+k`, still newest first |
| `BookListing.TotalPages` | src/routes/bookRoutes.js:61 | `Math.ceil(total/limit)` as the least whole number of pages that reaches `total/limit`, for positive and negative limits |
| `BookListing.PagesCoverExactly` | src/routes/bookRoutes.js:61 | with a positive limit, no books means no pages, and the last page holds between 1 and `limit` books |
| `BookListing.SecondPageOfTwelve` | src/routes/bookRoutes.js:45-61 | twelve books, page 2, limit 5: ranks 6 to 10, three pages |
| `BookListing.DefaultsOnEmptyStore` | src/routes/bookRoutes.js:45-61 | no query parameters on an empty store: page 1, limit 5, no books, zero pages |
| `BookRoutes.BookStore.Create` | src/routes/bookRoutes.js:9-40 | falsy field: 400, nothing uploaded or saved; failed upload: 500, both stores unchanged; failed save: 500, no book but the image stays uploaded; success: 201 with exactly one new book under a new id, no existing book changed |
| `BookRoutes.BookStore.List` | src/routes/bookRoutes.js:43-67 | negative skip: 500; otherwise 200 with the window at `(page-1)*limit` of a newest-first ranking of all books (as many entries as remain after the skip, up to the absolute value of `limit`, newest first, each the stored record), the parsed page, the number of all books and `ceil(total/limit)` |
| `BookRoutes.BookStore.ListMine` | src/routes/bookRoutes.js:97-107 | 200 with exactly the caller's books, each once and with its stored record, newest first, not paginated |
| `BookRoutes.BookStore.Delete` | src/routes/bookRoutes.js:70-94 | malformed id: 500; absent: 404; another user's: 401; none of these changes anything. Owner: the image is destroyed only if there is a handle and only if the host succeeds (a failure is ignored). Then only that record is removed and the answer is "Book deleted successfully"; if the removal fails, 500 and the record stays |
| `BookRoutes.DeleteTwice` | src/routes/bookRoutes.js:72-89 | the owner's second delete of the same id answers 404 after the first succeeded |
| `BookRoutes.DeleteByStranger` | src/routes/bookRoutes.js:75-77 | a non-owner's delete answers 401 and keeps the book and its image |
| `BookRoutes.CreateRoute` | src/routes/bookRoutes.js:9 | behind the gate: a refused request gets 401 and changes nothing; the answer is always 201, 400, 401 or 500 |
| `BookRoutes.DeleteRoute` | src/routes/bookRoutes.js:70 | behind the gate: a refused request gets 401 and changes nothing; the answer is always 200, 401, 404 or 500 |

## Left out

- `CreateRoute`: for a request the gate lets through, states only `req.user` and the set of possible statuses. The handler's own contract (`BookStore.Create`) gives the rest.
- `DeleteRoute`: for a request the gate lets through, states only `req.user` and the set of possible statuses. The handler's own contract (`BookStore.Delete`) gives the rest.
- The list route and the list-mine route are not composed with the gate. They change nothing, and the gate's contract covers the refusals.
- `populate("user", "username profileImage")` in the list route is not modelled. It only changes how each listed book's owner is shown, not which books are listed.
- Database failures on reads (`find`, `countDocuments`, `findById` on a valid id) are not modelled; they give 500. Only the malformed id and the negative skip are modelled as failed reads.
- User-directory failures in the gate are not modelled. The catch answers them with the same 401 "Token is not valid" as an unknown user.
- JWT signing, expiry and signature checking are not modelled. The verifier is an arbitrary function. A payload without `userId` behaves like one whose user is unknown.
- `parseInt`'s full string semantics are not modelled. A query parameter is an optional integer, where `None` stands for absent or NaN. Floating-point precision for very large values is not modelled.
- `rating` is modelled as an integer. Other JSON values, such as the truthy string `"0"` or booleans, and Mongoose's casting of them are not modelled.
- Mongoose schema validation on save is folded into the `saveOk` outcome.
- The upload folder `"books"` and the image payload's content are not modelled, and neither is the text of collaborator error messages that the create route echoes (`CollaboratorError`).
- The order among books with equal `createdAt` is unspecified. Only a non-increasing order is stated.
- Console logging is not modelled, nor is the exact JSON serialisation of responses (a negative page count `-0` serialises as `0`).
- Concurrency between requests, including the gap between the list query and the count, is not modelled.
- `src/index.js` (Express wiring, CORS, `listen`) and `src/lib/db.js` (connection, `process.exit`) are not part of this model. The user and book schemas and the Cloudinary configuration are not part of this model either.
