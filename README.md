# Bookshop service rules in Dafny

This project models the business rules of an online bookshop backend. It is
written in Dafny, and its proofs are checked by Dafny's verifier. The backend
has three service files:

- **User service** (`srv/user-service.js`):
  - the `Bearer` authentication gate and the lookup of the token's user;
  - `register`;
  - the shopping cart (`addToCart`);
  - `checkout`, which turns the cart into an order with items, a pending
    payment and stock updates, then clears the cart;
  - `submitReview`, and the rating aggregate it refreshes
    (`updateBookRating`);
  - the per-user read filters on Users, CartItems, WishlistItems and Orders.
- **Book admin handlers** (`srv/handlers.js`):
  - the create and update checks on Books (no negative stock or price, title
    trimmed);
  - `restock`;
  - a substring search.
- **Catalog service** (`srv/catalog-service.js`):
  - the filtered and sorted book search, with category names attached;
  - recommendations of similar books;
  - featured books;
  - one page of a category.

## Layout

- `wrappers.dfy` — Option, Result and Outcome.
- `text.dfy` — JavaScript `trim`, substring containment (SQL `LIKE '%q%'`),
  ASCII `toLowerCase`, and code-point string order.
- `query.dfy` — the SQL building blocks: `WHERE`, a stable `ORDER BY`,
  `LIMIT` and `LIMIT … OFFSET`.
- `schema.dfy` — the table rows and the service errors.
- `store.dfy` — the class `Database`. It holds the tables the services update
  in place. Its invariant `Valid()` says:
  - books are keyed by their ID;
  - stock is never negative;
  - a user has at most one cart line per book.
- `pricing.dfy` — checkout arithmetic, the order items and the stock write.
- `ratings.dfy` — the approved-review aggregate.
- `cart.dfy` — `addToCart` and `checkout`. These are methods on the
  Database.
- `reviews.dfy` — `submitReview` and `updateBookRating`.
- `access.dfy` — the authentication gate, `register`, and the row filters.
- `inventory.dfy` — `srv/handlers.js`.
- `catalog.dfy` — `srv/catalog-service.js`.

## Modelling choices

- **Money is exact.** Money is `real`. Order totals are not rounded, because
  the code does not round them. For two copies at 20.00, the code's formula
  gives 40 + 3.2 + 9.99 = 53.19, with no rounding;
  `Pricing.ExampleTwoAtTwenty` states that value.
- **Missing request fields.** A field the request leaves out is `None`, and
  JavaScript defaults are applied explicitly (`x || ''`, `quantity = 1`,
  `limit = 5`).
- **Stock at checkout.** Checkout writes each book's stock as the value read
  at the start minus the line quantity. That is the right answer only because
  a user's cart has one line per book. `addToCart` keeps that invariant, and
  `Pricing.StockAfterDuplicateLines` shows what the write would do without
  it.
- **A cart line whose book row is gone** makes the checkout loop throw, which
  the code reports as "Checkout failed". The model returns `CheckoutFailed`
  before any write.
- **The rating average.** With no approved reviews, SQL `AVG` is null and
  `Math.round(null * 100) / 100` is 0, so the average is 0 and the count is 0.
  Rounding is `floor(x * 100 + 1/2) / 100`.
- **Quantities are not checked.** `addToCart` does not check that the
  quantity is positive, and the model keeps that behaviour as written.
- **Token failures.** A token that does not verify, and a verified token
  whose user is missing or inactive, are both "Invalid token". The second
  rejection happens inside the `try` whose `catch` reports every failure as
  "Invalid token", so the text "Invalid or expired token" never reaches the
  caller.
- **Sort ties.** Rows that tie on the sort key are kept in table order. This
  is one of the orders the database may return.

## Model

| member | source | states |
|---|---|---|
| Access.AuthGate | srv/user-service.js:13-22 | login and register skip the gate; otherwise a missing header or one without the `Bearer ` prefix is rejected with "Authentication required", and the token to verify is exactly the text after the prefix |
| Access.GateRoundTrip | srv/user-service.js:18-22 | a header built as `Bearer ` + token gives back that same token for verification |
| Access.FindActiveUser | srv/user-service.js:27-31 | finds a user with the claimed ID who is active, or reports that none exists |
| Access.ResolveUser | srv/user-service.js:23-40 | a verified token passes if and only if an active user with its userId exists, and that user is the caller; every failure, a bad token or no such active user, is "Invalid token" |
| Access.RegisterCheck | srv/user-service.js:47-73 | registration passes exactly when username, email and password are non-empty, the password has at least 8 characters, and no user has that username or email; otherwise it reports these checks in that order, and "User already exists" exactly when the fields are valid and the username or email is taken |
| Access.FindCustomerRole | srv/user-service.js:76-78 | finds the role named Customer, or reports that there is none |
| Access.Register | srv/user-service.js:44-107 | a failed check writes nothing; otherwise the Customer role is created if missing, and one active user is appended with empty first and last names when those are absent; other tables are unchanged |
| Access.VisibleUsers | srv/user-service.js:455-463 | for reads, an Admin sees all users; anyone else sees exactly the rows with their own ID |
| Access.VisibleCartItems | srv/user-service.js:466-468 | for reads, a caller sees exactly their own cart lines |
| Access.VisibleWishlistItems | srv/user-service.js:471-473 | for reads, a caller sees exactly their own wishlist lines |
| Access.VisibleOrders | srv/user-service.js:476-480 | for reads, an Admin sees all orders; anyone else sees exactly the orders they placed |
| Cart.ActiveBook | srv/user-service.js:220-228 | a book is found if and only if it exists and is active |
| Cart.FindLine | srv/user-service.js:236-240 | finds the first cart line of the user for the book, or reports that there is none |
| Cart.AddToCart | srv/user-service.js:216-268 | a missing or inactive book is "Book not found"; a quantity (default 1) above stock is rejected; an existing line is increased unless the sum exceeds stock, else a line is inserted; failures leave the cart unchanged; any line written has quantity at most the book's stock; one line per user and book is kept |
| Cart.UpdateLineKeepsOneLine | srv/user-service.js:241-251 | raising the quantity of the user's existing line keeps one line per user and book, and that line is still the one found |
| Cart.AppendLineKeepsOneLine | srv/user-service.js:252-261 | inserting a line for a user and book with no line keeps one line per user and book, and the new line is the one found |
| Cart.UserCart | srv/user-service.js:278-286 | the user's cart lines are exactly the lines with their user ID |
| Cart.OtherUsersCart | srv/user-service.js:362-364 | clearing the cart leaves exactly the other users' lines |
| Cart.FilterKeepsOneLine | srv/user-service.js:362-364 | deleting cart lines keeps at most one line per user and book |
| Cart.UserCartDistinctBooks | srv/user-service.js:278-286 | the lines a checkout reads name pairwise distinct books |
| Cart.Priced | srv/user-service.js:278-286 | each cart line is joined with its book's ID, title, price and stock, in cart order |
| Cart.LineError | srv/user-service.js:294-297 | a line fails if and only if its book is gone or its quantity exceeds the stock; a gone book is "Checkout failed", and too little stock is "Insufficient stock" naming the book's title |
| Cart.FirstLineError | srv/user-service.js:293-299 | checkout validation fails if and only if some line fails |
| Cart.FirstLineErrorAt | srv/user-service.js:293-299 | the first failing line, in cart order, decides the error |
| Cart.ValidateLines | srv/user-service.js:292-299 | the validation loop fails with the first line's error, else returns the subtotal: the sum of price times quantity |
| Cart.WriteItems | srv/user-service.js:328-348 | appends one order item per line, in order, and writes each book's stock as snapshot minus quantity; nothing else changes |
| Cart.CheckoutStock | srv/user-service.js:343-347 | after a valid checkout, each purchased book's stock is its old stock minus the line quantity and at least 0; every other book is unchanged |
| Cart.CheckoutKeepsInvariants | srv/user-service.js:343-364 | a valid checkout keeps books keyed by ID, stock non-negative, and one cart line per user and book |
| Cart.PlaceOrder | srv/user-service.js:301-364 | stores one pending order with the computed totals and `notes` defaulted to empty, the items, the stock write, one pending payment for the total, and the cleared cart; returns the stored total |
| Cart.Checkout | srv/user-service.js:270-379 | an empty cart is "Cart is empty"; otherwise the first failing line decides the error; every failure leaves all tables unchanged; success makes exactly the writes of PlaceOrder and returns the order ID, order number and total |
| Pricing.ShippingRule | srv/user-service.js:304 | shipping is free if and only if the subtotal exceeds 50, else 9.99; a subtotal of exactly 50 pays 9.99 |
| Pricing.TotalsRule | srv/user-service.js:302-305 | tax is 8% of the subtotal, and the total, unrounded, is 1.08 × subtotal + shipping |
| Pricing.ExampleTwoAtTwenty | srv/user-service.js:293-305 | two copies at 20.00 give subtotal 40, tax 3.2, shipping 9.99 and total 53.19 |
| Pricing.ExampleOneAtSixty | srv/user-service.js:293-305 | one copy at 60.00 gives subtotal 60, tax 4.8, no shipping and total 64.8 |
| Pricing.Items | srv/user-service.js:329-340 | there is exactly one order item per cart line |
| Pricing.ItemsAt | srv/user-service.js:331-339 | item i belongs to the order and has line i's book, quantity, unit price and price × quantity |
| Pricing.ItemsSumToSubtotal | srv/user-service.js:293-337 | the items' total prices sum to the order's subtotal |
| Pricing.StockAfter | srv/user-service.js:343-347 | the stock write keeps the set of books |
| Pricing.StockAfterOnlyStock | srv/user-service.js:343-347 | the stock write changes no field but stock |
| Pricing.StockAfterDistinct | srv/user-service.js:343-347 | with distinct books per line, each purchased book ends at snapshot minus quantity, and books not in the cart are unchanged |
| Pricing.StockAfterDuplicateLines | srv/user-service.js:345 | two lines for the same book, read with stock 5 and each of quantity 1, leave stock 4 and not 3, so the one-line-per-book invariant is needed |
| Ratings.ApprovedRatings | srv/user-service.js:436-440 | the aggregate reads at most one rating per review |
| Ratings.ApprovedRatingsAreSelected | srv/user-service.js:436-440 | the ratings aggregated are exactly those of the reviews of the book with `isApproved` set, one per review, in table order |
| Ratings.Round2 | srv/user-service.js:446 | rounding half-up to 2 decimals moves the value by at most 0.005 and gives a whole number of hundredths |
| Ratings.Summary | srv/user-service.js:436-449 | the review count is the number of approved reviews of the book; with none, the average is 0; otherwise the average is a whole number of hundredths within 0.005 of the mean approved rating |
| Ratings.IgnoredReview | srv/user-service.js:420-440 | adding an unapproved review, or a review of another book, leaves count and average unchanged |
| Ratings.SumOfPermutation | srv/user-service.js:437 | the sum of ratings does not depend on row order |
| Ratings.SummaryDependsOnlyOnApproved | srv/user-service.js:436-440 | count and average depend only on the multiset of approved ratings of the book |
| Ratings.AverageWithinScale | srv/user-service.js:436-446 | with ratings between 1 and 5, a book with approved reviews has a stored average between 1 and 5 |
| ReviewService.FulfilledOrderOf | srv/user-service.js:388-398 | an order qualifies if and only if it is the user's and is delivered or completed |
| ReviewService.HasPurchased | srv/user-service.js:388-398 | a purchase is verified if and only if some order item for the book belongs to a delivered or completed order of the user |
| ReviewService.RefreshRating | srv/user-service.js:435-452 | the rating refresh sets the book's average and count to the summary of its approved reviews and changes no other field of that book and no other book |
| ReviewService.RefreshWhenUpToDate | srv/user-service.js:435-452 | a refresh of a book already up to date changes nothing |
| ReviewService.RefreshIdempotent | srv/user-service.js:435-452 | refreshing twice is the same as refreshing once |
| ReviewService.UpdateBookRating | srv/user-service.js:435-452 | the Books table becomes the refreshed one; all other tables are unchanged |
| ReviewService.SubmitReview | srv/user-service.js:382-432 | a second review by the same user for the same book is rejected, whatever its content, and nothing is written; otherwise one unapproved review is appended with empty title and comment when absent and the verified flag set exactly when the user bought the book; the rating refresh then leaves the book unchanged if it was up to date |
| Inventory.BeforeBookWrite | srv/handlers.js:7-18 | a write is rejected if and only if a stock or price it carries is negative, and both errors are reported; an absent field is not checked; a passing write has its title trimmed and is otherwise unchanged |
| Inventory.BeforeBookWriteIdempotent | srv/handlers.js:10-17 | a write that passed the checks passes them again unchanged |
| Inventory.CheckRestock | srv/handlers.js:22-26 | restock needs a non-empty ID and an amount above 0, and checks them in that order |
| Inventory.Restock | srv/handlers.js:21-48 | a failed check or an unknown book changes no stock; otherwise that book's stock rises by the amount, strictly; no other book or table changes, and stock stays non-negative |
| Inventory.SearchBooks | srv/handlers.js:51-65 | a blank query finds nothing; otherwise the results are exactly the books whose title or author contains the trimmed query |
| Inventory.SearchHitOccurs | srv/handlers.js:55-64 | every hit contains the trimmed query at some position of its title or author |
| Inventory.SearchIgnoresPadding | srv/handlers.js:52 | whitespace around the query does not change the results |
| Text.Trim | srv/handlers.js:10 | trimming returns a result no longer than the input whose ends are not whitespace, and is empty if and only if the input is blank; Text.TrimOfPadded pins the result down |
| Text.TrimOfPadded | srv/handlers.js:17 | trimming removes exactly the whitespace around a word |
| Text.TrimIdempotent | srv/handlers.js:17 | trimming twice is trimming once |
| Text.ContainsIff | srv/handlers.js:55-64 | `LIKE '%q%'` holds if and only if q occurs at some position |
| Text.ToLower | srv/catalog-service.js:47 | lower-casing keeps the length and lower-cases each ASCII letter |
| Text.LexLeTotal | srv/catalog-service.js:171 | any two titles are ordered one way or the other in code-point order |
| Text.LexLeTransitive | srv/catalog-service.js:171 | title order is transitive |
| Query.Where | srv/catalog-service.js:14 | a filter keeps exactly the rows that satisfy it, each as often as in the table |
| Query.OrderBy | srv/catalog-service.js:49-53 | sorting gives a sorted permutation of the rows |
| Query.Limit | srv/catalog-service.js:107 | a limit keeps the first n rows, or all rows when there are fewer |
| Query.LimitOffset | srv/catalog-service.js:172 | a page is the run of rows starting at the offset, with at most `count` rows, and exactly that many when enough rows remain |
| Query.Top | srv/catalog-service.js:106-107 | a sorted query with a limit returns exactly min(n, number of rows) rows, in order, each taken from the input no more often than it occurs there |
| Query.TopIsBest | srv/catalog-service.js:106-107 | a row cut off by the limit ranks no higher than any row kept |
| Catalog.ParseSortField | srv/catalog-service.js:45-46 | the sort field is price, averageRating or createdAt exactly when requested, else title |
| Catalog.ParseSortOrder | srv/catalog-service.js:47 | the order is descending if and only if the lower-cased request is `desc`; the default is ascending |
| Catalog.DescInAnyCase | srv/catalog-service.js:47 | every casing of `desc` selects descending order |
| Catalog.FieldLeTotalPreorder | srv/catalog-service.js:49-53 | every sort field and direction orders books totally and transitively |
| Catalog.SearchResults | srv/catalog-service.js:9-55 | the results are exactly the selected books, as often as in the table, sorted by the requested key |
| Catalog.SearchResultsInBounds | srv/catalog-service.js:14-42 | every result is active, within the price bounds given, and rated at least the minimum given |
| Catalog.SearchResultsMatchQuery | srv/catalog-service.js:16-25 | with a non-blank query, every result contains the trimmed query in its title, author or description |
| Catalog.UnusedCategoryIgnored | srv/catalog-service.js:27-36 | a category no book is linked to applies no filter |
| Catalog.CategoryName | srv/catalog-service.js:61-64 | a link's category name is found when the category exists |
| Catalog.CategoryNames | srv/catalog-service.js:58-65 | a book's category names are exactly the non-empty names of existing categories it is linked to |
| Catalog.AttachCategories | srv/catalog-service.js:58-65 | the loop gives each book, in order, exactly its category names |
| Catalog.SearchBooks | srv/catalog-service.js:55-67 | returns every search result, in order, with its category names attached |
| Catalog.OwnRows | srv/catalog-service.js:74-77 | the book's own links are exactly the links with its ID |
| Catalog.SimilarRows | srv/catalog-service.js:84-91 | the similar links are exactly the other books' links to one of the book's categories |
| Catalog.RecommendableHasLinks | srv/catalog-service.js:74-105 | a recommendable book has a category link, and so does the book asked about |
| Catalog.Candidates | srv/catalog-service.js:95-105 | the candidates are exactly the recommendable books: other active, in-stock books sharing a category |
| Catalog.CandidatesNeedLinks | srv/catalog-service.js:74-93 | when there are candidates, neither early return (no own categories, no similar links) applies |
| Catalog.GetRecommendations | srv/catalog-service.js:71-111 | a book without categories gets none; otherwise exactly min(`limit` (default 5), number of candidates) books, drawn from the candidates, each another active in-stock book sharing a category, ranked by average rating and then review count, both descending |
| Catalog.RecommendationsRanked | srv/catalog-service.js:79-107 | once some book is recommendable, the early returns do not apply |
| Catalog.RecommendationsAreTop | srv/catalog-service.js:106-107 | a recommendable book that was left out ranks no higher than every book returned |
| Catalog.GetFeaturedBooks | srv/catalog-service.js:114-131 | exactly min(`limit` (default 10), number of active, featured, in-stock books) of those books, newest first |
| Catalog.FeaturedAreNewest | srv/catalog-service.js:128-129 | a featurable book that was left out is no newer than every book returned |
| Catalog.CeilDiv | srv/catalog-service.js:176 | the page count is the smallest number of pages that hold every book |
| Catalog.Offset | srv/catalog-service.js:136 | page 1 starts at offset 0 |
| Catalog.OffsetNext | srv/catalog-service.js:136 | each page starts one page size after the previous one |
| Catalog.CategoryBooks | srv/catalog-service.js:152-171 | a category lists exactly its linked active books, each as often as in the table, in title order |
| Catalog.GetBooksByCategory | srv/catalog-service.js:134-183 | a category without links gives no books, count 0 and 0 pages; otherwise the count is the number of listed books, the page count is its ceiling over the page size, and the page holds exactly min(page size, books after the offset) books, the run of the listing at the page's offset (page 1 and 12 per page by default) |
| Catalog.PageHasBooksIff | srv/catalog-service.js:136-176 | a page has books if and only if its number is at most the page count |

## Left out

- Token signing and verification (`jwt`) and password hashing (`bcrypt`) are
  foreign library calls. The decoded claims and the password hash are
  parameters. `login`, which only combines them, is not part of this model.
  Neither is the `lastLogin` update.
- Fresh values are parameters: the user, role and order IDs and the order
  number. The code does not guarantee these are unique, so the model does not
  claim it. The IDs of cart lines, order items, payments and reviews are
  omitted. `addToCart` updates an existing cart line by its ID; the model
  identifies that line by its position in the cart table instead.
- Access.Register: the user's role is the new role's generated ID. The code
  reads that ID back from the insert's result, and this model does not
  capture that.
- Transactions, commit and rollback are not modelled, and neither is the
  catch-all "internal error" path. Concurrent requests, and the
  read-then-write race on stock, are also out. The model is sequential. It
  shows only that every early-return failure comes before the first write.
- JavaScript number behaviour is not modelled: floating-point error and
  integer width. Money and ratings are exact reals; quantities and stock are
  unbounded integers.
- These parts of SQL `LIKE` are not modelled: wildcards inside the query,
  case-insensitive collations, and NULL columns. Search is plain substring
  containment.
- `toLowerCase` covers ASCII letters only. `trim` covers the common
  whitespace characters only. String lengths count characters, not UTF-16
  code units.
- Logging is not modelled: the `after READ` hook and the error logs.
- The database seed and setup scripts are not part of this model.
- Titles are ordered by character code point. The database is created with
  its server's default collation, which is usually locale-aware, so
  `ORDER BY title` may order some titles differently (case, accents,
  punctuation).
- The cart read at checkout has no `ORDER BY`. The model reads the lines in
  table order, so "the first failing line decides the error" assumes that
  the database returns them in that order.
- The per-user filters are `before` hooks on `READ`, and for Users,
  CartItems and WishlistItems also on `EDIT`, the draft-editing event; the
  Orders filter is on `READ` only. Plain updates and deletes on these
  entities are not restricted by the hooks, and the model does not restrict
  them either.
- Catalog.GetBooksByCategory: requires a page and a page size of at least 1.
  What the query layer does with a zero or negative offset or page size is
  not modelled.
- Catalog.GetRecommendations: a `limit` of 0 is taken to mean no rows, and a
  negative limit cannot be expressed. How the query layer treats either is
  not modelled.
- Catalog.GetFeaturedBooks: a `limit` of 0 is taken to mean no rows, and a
  negative limit cannot be expressed, as for recommendations.
- Catalog.SearchBooks: only the columns the rules read are kept. The
  projection of result columns (cover image and so on) is not modelled.
- Pricing.Items: states only the number of items. The field-by-field content
  is in Pricing.ItemsAt.
- Pricing.StockAfter: states only that the set of books is kept. The field
  and value facts are in Pricing.StockAfterOnlyStock and
  Pricing.StockAfterDistinct.
