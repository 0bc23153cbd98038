# RateMyStore backend core, modelled in Dafny

RateMyStore lets an administrator create stores, lets store owners see who rated the stores they
own, and lets every signed-in user rate a store from 1 to 5, with at most one rating per store.
This project models the backend's authorization and rating logic:

- **Authentication and the role gate** (`backend/src/middleware/auth.js`). `authMiddleware` takes
  the `Authorization` header, splits it on spaces, and verifies the second field as a token. It
  either sets `req.user` to the token's claim `{id, email, role}` or answers 401. `requireRole`
  answers 401 when there is no user and 403 when the user's role is not in the listed roles.
  Token verification (`jwt.verify` with the server secret) is a function parameter `verify` that
  either returns a claim or fails.
- **The store and rating routes** (`backend/src/routes/stores.js`). A `Repository` class holds the
  user, store and rating tables as sequences. Its two methods `CreateStore` and `Rate` write. The
  four read routes are pure functions over the tables: listing with search, order and paging,
  raters, the owner view and the dashboard counts. The `Routes` module chains the middleware in
  front of each handler, as the router does.
- **The registration validator** (`backend/src/utils.js`). `validateRegister` runs four checks in
  order. Each of its two regular expressions is defined twice: once as the match the expression
  describes (`EmailPattern`, `PasswordPattern`), and once as a character scan (`IsEmail`,
  `IsPassword`). The two are proved equivalent.

Averages are kept in hundredths: an `avgRating` of 4.00 is `Some(400)`. The rounding is
`toFixed(2)`'s: the nearest hundredth, with ties going away from zero. `Option` stands for
JavaScript `null`/`undefined`. `Reply` is either a JSON body or a status with the source's exact
message.

Behaviour the model takes from the code as written:

- `limit` and `page` are not clamped from below. `take = min(limit, 100)` and
  `skip = (page - 1) * take`. A negative `skip` is refused by the database, so the reply is 500.
  A negative `take` is read by the database client as "the last `-take` rows". So a negative
  limit can return more than 100 stores (`Listing.NegativeLimitExceedsHundred`).
- `GET /stores` is behind `authMiddleware`, so an unauthenticated caller gets 401 there. The
  handler's own "no requester" case (`userRating` null) is still modelled.
- The word `Bearer` is never checked. Any first word works.
- An unknown `sort` column or `order` direction is passed straight to the database, which
  refuses the query, so the reply is 500.
- Store creation rejects an empty address (`!address`). Registration accepts an empty address.
- `ownerId || null` stores owner id 0 as `null`.
- Store names are unique: the seed script upserts stores by name (seed.js:37-46). Creating a store with a name
  already in use fails with 500.

## Model

| member | source | states |
|---|---|---|
| `Auth.Split` | auth.js:9 | `split(' ')` yields at least one field, no field contains the separator, and joining the fields with the separator gives back the header |
| `Auth.TokenAfterAnyScheme` | auth.js:9 | for any first word and any space-free token, the token is the second field: the scheme word is not checked |
| `Auth.SchemeAloneHasNoToken` | auth.js:9-10 | a header with no space (such as `Bearer` alone) has no second field |
| `Auth.TokenOf` | auth.js:9 | the token is the second space-separated field when there is one, and never contains a space (see `Auth.TokenAfterAnyScheme`, `Auth.SchemeAloneHasNoToken`) |
| `Auth.Authenticate` | auth.js:6-19 | every rejection is 401; success only with a present header whose second field is non-empty and verifies to that claim, and always when it does |
| `Auth.MissingHeaderRejected` | auth.js:8 | a missing or empty header gives 401 `Missing Authorization header` |
| `Auth.OneWordHeaderRejected` | auth.js:9-10 | a one-word header gives 401 `Missing token` whatever `verify` would say |
| `Auth.WellFormedHeaderVerified` | auth.js:11-17 | for `<word> <token>` the outcome is the claim `verify` returns, or 401 `Invalid token` when it fails |
| `Auth.AuthMiddleware` | auth.js:6-19 | returns the decision of `Authenticate`; on success `req.user` is the verified claim, on rejection `req.user` is untouched |
| `Auth.RequireRole` | auth.js:21-25 | 401 exactly when there is no user, 403 exactly when the user's role is not listed, pass exactly when it is |
| `Register.EmailScanMatchesPattern` | utils.js:4 | the scan (no whitespace, exactly one '@', non-empty local part, a '.' strictly inside the domain) accepts exactly the strings `^[^\s@]+@[^\s@]+\.[^\s@]+$` matches |
| `Register.PasswordScanMatchesPattern` | utils.js:7 | the scan (8 to 16 characters, no line terminator, an A-Z letter, a listed special character) accepts exactly the strings the lookahead pattern matches |
| `Register.ValidateRegister` | utils.js:9-23 | the four checks in order, first failure's message or `null`; specified by `Register.ValidateRegisterSpec` |
| `Register.ValidateRegisterSpec` | utils.js:9-23 | `null` exactly when all four checks pass; otherwise the message of the first failing check in the order name, email, password, address, stated against the patterns |
| `Register.NameCheckFirst` | utils.js:10-12 | a bad name gives the name error whatever the other fields hold |
| `Register.AddressOptional` | utils.js:19-21 | an absent address never gives the address error |
| `Text.ContainsIff` | stores.js:20 | the substring scan finds the search exactly when it occurs at some position |
| `Text.LexLeqTotal` | stores.js:26 | any two text values are ordered one way or the other |
| `Sorting.SortBy` | stores.js:26 | ordering returns a permutation of its input in which adjacent rows are in order |
| `Tables.FindStore` | stores.js:79-80 | a store lookup returns a store of the table with that id, or nothing when no store has it |
| `Tables.FindUser` | stores.js:115 | the author lookup returns a user of the table with that id, or nothing when none has it |
| `Listing.PageSize` | stores.js:16 | `take` is at most 100 and at most `limit`, and is either `limit` or 100 |
| `Listing.PagesAdjacent` | stores.js:17 | for page >= 1, page p+1 starts exactly `take` rows after page p, and the two pages are one consecutive stretch of the ordered list |
| `Listing.PagesDisjoint` | stores.js:17 | over a list without duplicates, pages p and p+1 share no row |
| `Listing.Window` | stores.js:22-27 | a page of non-negative size holds exactly `min(take, max(0, n - skip))` rows, the rows from position `skip` on; a negative size holds exactly `min(-take, max(0, n - skip))` rows, the last ones before the final `skip` rows |
| `Listing.WindowInOrder` | stores.js:22-27 | a page cut from an ordered list keeps its order |
| `Listing.FilterStores` | stores.js:20 | the filter keeps exactly the stores that match the search, each as many times as the table holds it (multiset equality restricted to matches) |
| `Listing.EmptySearchKeepsAll` | stores.js:20 | an empty search keeps every store, in order |
| `Listing.SearchIsSubstring` | stores.js:20 | a non-empty search matches exactly when it occurs, ignoring case, in the name or in the address |
| `Listing.BeforeTotal` | stores.js:26 | every sort column and direction gives a total preorder: any two stores are comparable, and stores with equal keys tie, so ordering is defined up to ties |
| `Listing.SortedMatches` | stores.js:22-27 | the ordered rows are exactly the matching stores, adjacent rows in the requested order |
| `Listing.UserRating` | stores.js:33-37 | the requester's own score for a store; specified by `Listing.UserRatingIsOwnScore` |
| `Listing.UserRatingIsOwnScore` | stores.js:33-37 | `userRating` is null without a requester or without their row, and otherwise the score on their row |
| `Listing.PageOf` | stores.js:15-27 | the query is refused exactly for an unknown column or direction or a negative offset; otherwise the rows are the stretch of the ordered matching stores that `skip` and `take` select (exact length and positions), in the requested order, every one a matching store, at most 100 of them for a non-negative limit |
| `Listing.NegativeLimitExceedsHundred` | stores.js:16-17 | limit -101 on page 1 over 101 stores returns all 101 |
| `Listing.ListStores` | stores.js:13-46 | the listing handler; specified by `Listing.ListStoresSpec` |
| `Listing.ListStoresSpec` | stores.js:13-46 | 500 exactly when the query is refused; otherwise the page's stores in order, each with its own average and the requester's own score, and no `userRating` without a requester |
| `Ratings.FindRating` | stores.js:35 | the composite-key lookup finds the first row with that (user, store), or reports that there is none |
| `Ratings.ScoreOfRow` | stores.js:35-36 | when keys are unique, the score found for a (user, store) is the score on that row |
| `Ratings.Upsert` | stores.js:82-86 | replace the score on the (user, store) row or append a row; specified by `Ratings.UpsertEffect`, `Ratings.UpsertKeepsUnique` |
| `Ratings.UpsertKeepsUnique` | stores.js:82-86 | the upsert keeps at most one row per (user, store) |
| `Ratings.UpsertKeepsScoresValid` | stores.js:75-86 | a validated score keeps every stored score within 1..5 |
| `Ratings.UpsertEffect` | stores.js:82-86 | after the upsert the submitter's score is the new score and every other pair's score is unchanged; other rows are kept and no new ones appear; a first submission adds one row, and a resubmission keeps the count and the row's creation time |
| `Ratings.RatingsOf` | stores.js:113-114 | a store's rows are exactly the table rows with that store id, each counted as often as the table holds it, so no row is counted twice in the average |
| `Ratings.RoundedMean` | stores.js:32 | the result is within half a hundredth of the exact mean, ties away from zero |
| `Ratings.AverageHundredths` | stores.js:31-32 | the reported `avgRating`; specified by `Ratings.RoundedMean`, `Ratings.AverageNullIffUnrated`, `Ratings.AverageInRange` |
| `Ratings.AverageNullIffUnrated` | stores.js:31-32 | with scores in 1..5 the average is null exactly when the store has no rating |
| `Ratings.AverageInRange` | stores.js:89-90 | with scores in 1..5 a reported average lies between 1.00 and 5.00 |
| `Ratings.NewestFirst` | stores.js:113-117 | the store's rows reordered so that creation times never increase |
| `Queries.WithAuthors` | stores.js:115 | joining authors keeps the rows and their order |
| `Queries.Raters` | stores.js:102-124 | the raters handler; specified by `Queries.RatersSpec` |
| `Queries.RatersSpec` | stores.js:102-124 | 404 exactly when the store is missing, then 403 exactly for a non-ADMIN who is not the owner; an answer only for ADMIN or the owner, holding exactly the store's ratings newest first, each with its author's id, name and email, and the current average |
| `Queries.OwnedBy` | stores.js:131 | exactly the stores whose `ownerId` is the requester's id, each as often as the table holds it |
| `Queries.OwnerStores` | stores.js:129-142 | the owner-view handler; specified by `Queries.OwnerStoresSpec` |
| `Queries.OwnerStoresSpec` | stores.js:129-142 | the owner view lists exactly the requester's stores, row for row as `OwnedBy` gives them (so each once, in table order), each with all its ratings (author id and name) and its average |
| `Queries.Dashboard` | stores.js:147-157 | the user, store and rating table sizes; its route contract is `Routes.GetDashboard` |
| `StoreService.OwnerOrNull` | stores.js:58 | an owner id is kept only when present and non-zero |
| `StoreService.Repository.CreateStore` | stores.js:52-64 | name error exactly for a missing or out-of-range name; address error exactly for a good name and a missing, empty or too long address; 500 exactly for a valid store whose name is taken; nothing written on any error; a valid store with a free name always succeeds, and exactly that store, with a fresh id, is appended |
| `StoreService.Repository.Rate` | stores.js:72-97 | 400 for a score outside 1..5 and 404 for a missing store, with the rating table unchanged; otherwise the table becomes the upsert of the old one, and the reply holds the upserted row and the new table's average; the table constraints are kept |
| `StoreService.ResubmissionScenario` | stores.js:82-92 | users rate 5 and 3 (average 4.00); the first resubmits 1: still two rows, average 2.00 |
| `Routes.GetStores` | stores.js:13 | 401 from the middleware leaves `req.user` unset; otherwise the listing for the verified claim |
| `Routes.PostStore` | stores.js:52-64 | 401 without a verified claim, 403 for a non-ADMIN, with no store written; for an ADMIN, the name error, the address error and 500 for a taken name each exactly when `CreateStore` gives them, and a valid store with a free name is appended |
| `Routes.PostRating` | stores.js:72-97 | 401 without a verified claim; for a verified caller 400 for a score outside 1..5, then 404 for a missing store, otherwise the verified user's upsert with the row and the new average; the rating table changes only on success |
| `Routes.GetRaters` | stores.js:102 | 401 without a verified claim; otherwise the raters answer for the verified claim |
| `Routes.GetOwnStores` | stores.js:129 | 401 without a verified claim, 403 for any role but STORE_OWNER, otherwise the owner view |
| `Routes.GetDashboard` | stores.js:147-157 | 401 without a verified claim, 403 for any role but ADMIN, otherwise the user, store and rating counts |

## Left out

- Token signatures, expiry and the server secret: `jwt.verify` is the parameter `verify`. Extra payload fields (`iat`, `exp`) and roles outside ADMIN, STORE_OWNER and USER are not modelled.
- The database: the tables are in-memory sequences. The atomicity of the upsert under concurrent requests, `Promise.all` and transaction isolation are not modelled. Unexpected database failures, which the routes turn into 500 `Server error`, are not modelled except where stated (refused queries, duplicate store names).
- The database schema is not part of this model. Any constraint on store email or a foreign key on `ownerId` is not modelled. Users are a read-only table; the login and registration routes are not part of this model, and `validateRegister` is modelled on its own.
- Floating point: `toFixed(2)` is applied to the exact mean, not to an IEEE double. A double whose rounding differs from the exact mean's is not modelled.
- `parseInt`: parameters are already integers, and `NaN` is not modelled. Body fields are strings or absent, except `ownerId`, which is an integer or absent, and the score, which is already an integer; other JSON types are not modelled.
- String semantics: case-insensitive search folds ASCII letters only; the database's locale-aware folding and `%`/`_` in a search are not modelled. Text columns are ordered by code point instead of by the database collation, and rows that tie are kept in table order, where the database leaves their order open. Lengths count Dafny characters, not UTF-16 code units.
- Sorting by columns other than `id`, `name` and `address` (such as `email`, `ownerId` or timestamps) is treated as a refused query.
- Logging (`console.error`) and the HTTP framework wiring.
