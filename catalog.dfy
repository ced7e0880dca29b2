/**
 * The catalog service's read-only queries: the filtered and sorted book
 * search with category names attached, recommendations of similar books,
 * featured books, and one page of a category.
 */
module Catalog {
  import opened Wrappers
  import opened Schema
  import Text
  import Query

  /** The columns a search may be sorted by. */
  datatype SortField = Title | Price | AverageRating | CreatedAt

  /** A sort direction. */
  datatype Direction = Asc | Desc

  /** The requested sort field if it is one of the four sortable columns, else `title` (also the default). */
  function ParseSortField(sortBy: Option<string>): (f: SortField)
    ensures f == Price <==> sortBy == Some("price")
    ensures f == AverageRating <==> sortBy == Some("averageRating")
    ensures f == CreatedAt <==> sortBy == Some("createdAt")
    ensures f == Title <==> sortBy !in {Some("price"), Some("averageRating"), Some("createdAt")}
  {
    match sortBy.GetOr("title")
    case "price" => Price
    case "averageRating" => AverageRating
    case "createdAt" => CreatedAt
    case _ => Title
  }

  /** Descending exactly when the lower-cased request is `desc`; the default is ascending. */
  function ParseSortOrder(sortOrder: Option<string>): (d: Direction)
    ensures sortOrder.None? ==> d == Asc
    ensures d == Desc <==> sortOrder.Some? && Text.ToLower(sortOrder.value) == "desc"
  {
    if Text.ToLower(sortOrder.GetOr("asc")) == "desc" then Desc else Asc
  }

  /** Every casing of `desc` selects the descending order. */
  lemma DescInAnyCase(sortOrder: string)
    requires |sortOrder| == 4
    requires sortOrder[0] in "dD" && sortOrder[1] in "eE" && sortOrder[2] in "sS" && sortOrder[3] in "cC"
    ensures ParseSortOrder(Some(sortOrder)) == Desc
  {
    var lower := Text.ToLower(sortOrder);
    assert lower == "desc";
  }

  /** `a` sorts no later than `b` by the column, ascending (titles in code-point order). */
  predicate KeyLe(f: SortField, a: Book, b: Book) {
    match f
    case Title => Text.LexLe(a.title, b.title)
    case Price => a.price <= b.price
    case AverageRating => a.averageRating <= b.averageRating
    case CreatedAt => a.createdAt <= b.createdAt
  }

  /** The `ORDER BY` key of a sort field and direction. */
  function FieldLe(f: SortField, d: Direction): (Book, Book) -> bool {
    (a: Book, b: Book) => if d == Asc then KeyLe(f, a, b) else KeyLe(f, b, a)
  }

  lemma KeyLeTotal(f: SortField, a: Book, b: Book)
    ensures KeyLe(f, a, b) || KeyLe(f, b, a)
  {
    if f == Title {
      Text.LexLeTotal(a.title, b.title);
    }
  }

  lemma KeyLeTransitive(f: SortField, a: Book, b: Book, c: Book)
    requires KeyLe(f, a, b) && KeyLe(f, b, c)
    ensures KeyLe(f, a, c)
  {
    if f == Title {
      Text.LexLeTransitive(a.title, b.title, c.title);
    }
  }

  /** Every sort field and direction orders the books totally. */
  lemma FieldLeTotalPreorder(f: SortField, d: Direction)
    ensures Query.TotalPreorder(FieldLe(f, d))
  {
    var le := FieldLe(f, d);
    forall a: Book, b: Book ensures le(a, b) || le(b, a) {
      KeyLeTotal(f, a, b);
    }
    forall a: Book, b: Book, c: Book | le(a, b) && le(b, c) ensures le(a, c) {
      if d == Asc {
        KeyLeTransitive(f, a, b, c);
      } else {
        KeyLeTransitive(f, c, b, a);
      }
    }
  }

  /** The parameters of `searchBooks`; an omitted one is None. */
  datatype SearchRequest = SearchRequest(
    q: Option<string>,
    category: Option<Id>,
    minPrice: Option<real>,
    maxPrice: Option<real>,
    minRating: Option<real>,
    sortBy: Option<string>,
    sortOrder: Option<string>)

  /** Some book is linked to the category. */
  predicate CategoryUsed(rows: seq<BookCategory>, category: Id) {
    exists i :: 0 <= i < |rows| && rows[i].categoryId == category
  }

  /** The text filter: none for a blank query, else the trimmed query in title, author or description. */
  predicate MatchesText(b: Book, q: Option<string>) {
    var t := Text.Trim(q.GetOr(""));
    t == [] || Text.Contains(b.title, t) || Text.Contains(b.author, t) || Text.Contains(b.description, t)
  }

  /**
   * The category filter: it applies only when a non-empty category is
   * given and some book is linked to it.
   */
  predicate MatchesCategory(b: Book, rows: seq<BookCategory>, category: Option<Id>) {
    category.None? || category.value == "" || !CategoryUsed(rows, category.value)
    || BookCategory(b.id, category.value) in rows
  }

  /** The whole `WHERE` clause of a search. */
  predicate Selected(b: Book, rows: seq<BookCategory>, req: SearchRequest) {
    && b.isActive
    && MatchesText(b, req.q)
    && MatchesCategory(b, rows, req.category)
    && (req.minPrice.Some? ==> b.price >= req.minPrice.value)
    && (req.maxPrice.Some? ==> b.price <= req.maxPrice.value)
    && (req.minRating.Some? ==> b.averageRating >= req.minRating.value)
  }

  /** The key a request sorts by. */
  function RequestLe(req: SearchRequest): (Book, Book) -> bool {
    FieldLe(ParseSortField(req.sortBy), ParseSortOrder(req.sortOrder))
  }

  /**
   * The books a search returns: every selected book, as often as in the
   * table, sorted by the requested key.
   */
  function SearchResults(books: seq<Book>, rows: seq<BookCategory>, req: SearchRequest): (r: seq<Book>)
    ensures forall b :: b in r <==> b in books && Selected(b, rows, req)
    ensures multiset(r) == multiset(Query.Where(books, b => Selected(b, rows, req)))
    ensures Query.SortedBy(r, RequestLe(req))
  {
    FieldLeTotalPreorder(ParseSortField(req.sortBy), ParseSortOrder(req.sortOrder));
    Query.OrderBy(Query.Where(books, b => Selected(b, rows, req)), RequestLe(req))
  }

  /** Every result is active and within the requested price and rating bounds. */
  lemma SearchResultsInBounds(books: seq<Book>, rows: seq<BookCategory>, req: SearchRequest, b: Book)
    requires b in SearchResults(books, rows, req)
    ensures b.isActive
    ensures req.minPrice.Some? ==> req.minPrice.value <= b.price
    ensures req.maxPrice.Some? ==> b.price <= req.maxPrice.value
    ensures req.minRating.Some? ==> req.minRating.value <= b.averageRating
  {
  }

  /** A non-blank query keeps only books that contain the trimmed query in title, author or description. */
  lemma SearchResultsMatchQuery(books: seq<Book>, rows: seq<BookCategory>, req: SearchRequest, b: Book)
    requires b in SearchResults(books, rows, req) && req.q.Some? && !Text.IsBlank(req.q.value)
    ensures exists i :: || Text.OccursAt(b.title, Text.Trim(req.q.value), i)
                        || Text.OccursAt(b.author, Text.Trim(req.q.value), i)
                        || Text.OccursAt(b.description, Text.Trim(req.q.value), i)
  {
    var t := Text.Trim(req.q.value);
    Text.ContainsIff(b.title, t);
    Text.ContainsIff(b.author, t);
    Text.ContainsIff(b.description, t);
  }

  /** A category no book is linked to restricts nothing: the search is the same without it. */
  lemma UnusedCategoryIgnored(books: seq<Book>, rows: seq<BookCategory>, req: SearchRequest)
    requires req.category.Some? && !CategoryUsed(rows, req.category.value)
    ensures SearchResults(books, rows, req) == SearchResults(books, rows, req.(category := None))
  {
    var plain := req.(category := None);
    var p := b => Selected(b, rows, req);
    var q := b => Selected(b, rows, plain);
    forall b | b in books ensures p(b) == q(b) {
      assert MatchesCategory(b, rows, req.category);
    }
    Query.WhereCongruent(books, p, q);
    assert RequestLe(req) == RequestLe(plain);
  }

  /** A search result with the names of its categories attached. */
  datatype Listing = Listing(book: Book, categories: seq<string>)

  /** The name of the category with this ID, if there is one. */
  function CategoryName(categories: seq<Category>, id: Id): (r: Option<string>)
    ensures r.Some? <==> exists i :: 0 <= i < |categories| && categories[i].id == id
    ensures r.Some? ==> Category(id, r.value) in categories
  {
    if categories == [] then None
    else if categories[0].id == id then Some(categories[0].name)
    else CategoryName(categories[1..], id)
  }

  /**
   * The names attached to a book: for each of its links, in link order, the
   * linked category's name, dropping links to a missing category and empty names.
   */
  function CategoryNames(rows: seq<BookCategory>, categories: seq<Category>, bookId: Id): (r: seq<string>)
    ensures |r| <= |rows|
    ensures forall n :: n in r <==>
      n != "" && exists i :: 0 <= i < |rows| && rows[i].bookId == bookId && CategoryName(categories, rows[i].categoryId) == Some(n)
  {
    if rows == [] then []
    else
      var init, last := rows[..|rows| - 1], rows[|rows| - 1];
      var names := CategoryNames(init, categories, bookId);
      var name := if last.bookId == bookId then CategoryName(categories, last.categoryId) else None;
      assert forall i :: 0 <= i < |init| ==> init[i] == rows[i];
      if name.Some? && name.value != "" then names + [name.value] else names
  }

  /** The loop that attaches to each book, one by one, the names of its categories. */
  method AttachCategories(found: seq<Book>, rows: seq<BookCategory>, categories: seq<Category>)
    returns (listings: array<Listing>)
    ensures fresh(listings)
    ensures listings.Length == |found|
    ensures forall i :: 0 <= i < listings.Length ==>
      listings[i] == Listing(found[i], CategoryNames(rows, categories, found[i].id))
  {
    listings := new Listing[|found|](i requires 0 <= i < |found| => Listing(found[i], []));
    for i := 0 to |found|
      invariant forall k :: 0 <= k < i ==> listings[k] == Listing(found[k], CategoryNames(rows, categories, found[k].id))
      invariant forall k :: i <= k < |found| ==> listings[k] == Listing(found[k], [])
    {
      listings[i] := listings[i].(categories := CategoryNames(rows, categories, listings[i].book.id));
    }
  }

  /** `searchBooks`: runs the search, then attaches to each result the names of its categories. */
  method SearchBooks(books: seq<Book>, rows: seq<BookCategory>, categories: seq<Category>, req: SearchRequest)
    returns (listings: array<Listing>)
    ensures fresh(listings)
    ensures listings.Length == |SearchResults(books, rows, req)|
    ensures forall i :: 0 <= i < listings.Length ==>
      var b := SearchResults(books, rows, req)[i];
      listings[i] == Listing(b, CategoryNames(rows, categories, b.id))
  {
    var found := SearchResults(books, rows, req);
    listings := AttachCategories(found, rows, categories);
  }

  /** Recommendations rank by average rating, then number of reviews, both descending. */
  predicate RankLe(a: Book, b: Book) {
    a.averageRating > b.averageRating || (a.averageRating == b.averageRating && a.totalReviews >= b.totalReviews)
  }

  lemma RankTotalPreorder()
    ensures Query.TotalPreorder(RankLe)
  {
  }

  /** The book is linked to the category. */
  predicate InCategoryOf(rows: seq<BookCategory>, bookId: Id, category: Id) {
    BookCategory(bookId, category) in rows
  }

  /** The book's links to its categories. */
  function OwnRows(rows: seq<BookCategory>, bookId: Id): (r: seq<BookCategory>)
    ensures forall row :: row in r <==> row in rows && row.bookId == bookId
  {
    Query.Where(rows, (row: BookCategory) => row.bookId == bookId)
  }

  /** The links of other books to the book's categories. */
  function SimilarRows(rows: seq<BookCategory>, bookId: Id): (r: seq<BookCategory>)
    ensures forall row :: row in r <==> row in rows && row.bookId != bookId && InCategoryOf(rows, bookId, row.categoryId)
  {
    Query.Where(rows, (row: BookCategory) => row.bookId != bookId && InCategoryOf(rows, bookId, row.categoryId))
  }

  /** `b` is another book that shares a category with `bookId`, and can be sold. */
  predicate Recommendable(rows: seq<BookCategory>, bookId: Id, b: Book) {
    && b.isActive && b.stock > 0
    && exists j :: 0 <= j < |rows| && rows[j].bookId == b.id && rows[j].bookId != bookId
                   && InCategoryOf(rows, bookId, rows[j].categoryId)
  }

  /** The recommendable books, in table order. */
  function Candidates(books: seq<Book>, rows: seq<BookCategory>, bookId: Id): (c: seq<Book>)
    ensures forall b :: b in c <==> b in books && Recommendable(rows, bookId, b)
  {
    Query.Where(books, b => Recommendable(rows, bookId, b))
  }

  /** A recommendable book implies the book has categories and another book shares one. */
  lemma RecommendableHasLinks(rows: seq<BookCategory>, bookId: Id, b: Book)
    requires Recommendable(rows, bookId, b)
    ensures OwnRows(rows, bookId) != [] && SimilarRows(rows, bookId) != []
  {
    var j :| 0 <= j < |rows| && rows[j].bookId == b.id && rows[j].bookId != bookId
             && InCategoryOf(rows, bookId, rows[j].categoryId);
    var k :| 0 <= k < |rows| && rows[k] == BookCategory(bookId, rows[j].categoryId);
    assert rows[k] in OwnRows(rows, bookId);
    assert rows[j] in SimilarRows(rows, bookId);
  }

  /** With no own or no similar links there is nothing to recommend. */
  lemma CandidatesNeedLinks(books: seq<Book>, rows: seq<BookCategory>, bookId: Id)
    ensures Candidates(books, rows, bookId) != [] ==> OwnRows(rows, bookId) != [] && SimilarRows(rows, bookId) != []
  {
    var c := Candidates(books, rows, bookId);
    if c != [] {
      assert c[0] in c;
      RecommendableHasLinks(rows, bookId, c[0]);
    }
  }

  /**
   * `getRecommendations`: nothing for a book without categories or without
   * other books in its categories; otherwise the recommendable books,
   * best ranked first, at most `limit` (default 5) of them.
   */
  function GetRecommendations(books: seq<Book>, rows: seq<BookCategory>, bookId: Id, limit: Option<nat>): (r: seq<Book>)
    ensures (forall i :: 0 <= i < |rows| ==> rows[i].bookId != bookId) ==> r == []
    ensures var c := Candidates(books, rows, bookId);
      |r| == if limit.GetOr(5) <= |c| then limit.GetOr(5) else |c|
    ensures multiset(r) <= multiset(Candidates(books, rows, bookId))
    ensures forall b :: b in r ==> b in books && b.id != bookId && Recommendable(rows, bookId, b)
    ensures Query.SortedBy(r, RankLe)
  {
    CandidatesNeedLinks(books, rows, bookId);
    if OwnRows(rows, bookId) == [] then []
    else
      if SimilarRows(rows, bookId) == [] then []
      else
        RankTotalPreorder();
        Query.Top(Candidates(books, rows, bookId), RankLe, limit.GetOr(5))
  }

  /** Once one book is recommendable, the early returns do not apply. */
  lemma RecommendationsRanked(books: seq<Book>, rows: seq<BookCategory>, bookId: Id, limit: Option<nat>, b: Book)
    requires Recommendable(rows, bookId, b)
    ensures Query.TotalPreorder(RankLe)
    ensures GetRecommendations(books, rows, bookId, limit) == Query.Top(Candidates(books, rows, bookId), RankLe, limit.GetOr(5))
  {
    RecommendableHasLinks(rows, bookId, b);
    RankTotalPreorder();
  }

  /** Every recommendable book that was left out ranks no higher than every one returned. */
  lemma RecommendationsAreTop(books: seq<Book>, rows: seq<BookCategory>, bookId: Id, limit: Option<nat>, b: Book)
    requires b in books && Recommendable(rows, bookId, b) && b !in GetRecommendations(books, rows, bookId, limit)
    ensures forall x :: x in GetRecommendations(books, rows, bookId, limit) ==> RankLe(x, b)
  {
    RecommendationsRanked(books, rows, bookId, limit, b);
    Query.TopIsBest(Candidates(books, rows, bookId), RankLe, limit.GetOr(5), b);
  }

  /** Featured books are shown newest first. */
  predicate NewerLe(a: Book, b: Book) {
    a.createdAt >= b.createdAt
  }

  /** A book that may be featured: active, featured and in stock. */
  predicate Featurable(b: Book) {
    b.isActive && b.isFeatured && b.stock > 0
  }

  /** `getFeaturedBooks`: the newest featurable books, at most `limit` (default 10) of them. */
  function GetFeaturedBooks(books: seq<Book>, limit: Option<nat>): (r: seq<Book>)
    ensures var c := Query.Where(books, Featurable);
      |r| == if limit.GetOr(10) <= |c| then limit.GetOr(10) else |c|
    ensures multiset(r) <= multiset(Query.Where(books, Featurable))
    ensures forall b :: b in r ==> b in books && Featurable(b)
    ensures Query.SortedBy(r, NewerLe)
  {
    Query.Top(Query.Where(books, Featurable), NewerLe, limit.GetOr(10))
  }

  /** Every featurable book that was left out is no newer than every one returned. */
  lemma FeaturedAreNewest(books: seq<Book>, limit: Option<nat>, b: Book)
    requires b in books && Featurable(b) && b !in GetFeaturedBooks(books, limit)
    ensures forall x :: x in GetFeaturedBooks(books, limit) ==> x.createdAt >= b.createdAt
  {
    var candidates := Query.Where(books, Featurable);
    assert b in candidates;
    Query.TopIsBest(candidates, NewerLe, limit.GetOr(10), b);
  }

  /** One page of a category listing. */
  datatype CategoryPage = CategoryPage(books: seq<Book>, totalCount: nat, totalPages: nat)

  /** `Math.ceil(n / d)`. */
  function CeilDiv(n: nat, d: nat): (r: nat)
    requires d > 0
    ensures r * d >= n
    ensures r > 0 ==> (r - 1) * d < n
  {
    (n + d - 1) / d
  }

  /** The rows a page skips: `(page - 1) * pageSize`. */
  function Offset(page: nat, pageSize: nat): (r: nat)
    requires page >= 1
    ensures page == 1 ==> r == 0
  {
    (page - 1) * pageSize
  }

  /** Each page starts one page size after the one before it. */
  lemma OffsetNext(page: nat, pageSize: nat)
    requires page >= 1
    ensures Offset(page + 1, pageSize) == Offset(page, pageSize) + pageSize
  {
    assert page * pageSize == (page - 1) * pageSize + pageSize;
  }

  /** An active book linked to the category. */
  predicate Listed(rows: seq<BookCategory>, categoryId: Id, b: Book) {
    b.isActive && BookCategory(b.id, categoryId) in rows
  }

  function ByTitle(): (Book, Book) -> bool {
    FieldLe(Title, Asc)
  }

  /** The listed books of a category, in title order. */
  function CategoryBooks(books: seq<Book>, rows: seq<BookCategory>, categoryId: Id): (r: seq<Book>)
    ensures forall b :: b in r <==> b in books && Listed(rows, categoryId, b)
    ensures multiset(r) == multiset(Query.Where(books, b => Listed(rows, categoryId, b)))
    ensures |r| <= |books|
    ensures Query.SortedBy(r, ByTitle())
  {
    FieldLeTotalPreorder(Title, Asc);
    Query.OrderBy(Query.Where(books, b => Listed(rows, categoryId, b)), ByTitle())
  }

  /**
   * `getBooksByCategory`: an empty page for a category without books;
   * otherwise the number of listed books, the number of pages, and the
   * requested page (page 1 and 12 per page by default) of them in title order.
   */
  function GetBooksByCategory(books: seq<Book>, rows: seq<BookCategory>, categoryId: Id,
                              page: Option<nat>, pageSize: Option<nat>): (p: CategoryPage)
    requires page.GetOr(1) >= 1 && pageSize.GetOr(12) >= 1
    ensures !CategoryUsed(rows, categoryId) ==> p == CategoryPage([], 0, 0)
    ensures CategoryUsed(rows, categoryId) ==>
      var all := CategoryBooks(books, rows, categoryId);
      var size := pageSize.GetOr(12);
      var off := Offset(page.GetOr(1), size);
      && p.totalCount == |all|
      && p.totalPages == CeilDiv(p.totalCount, size)
      && |p.books| == (if off >= |all| then 0 else if size <= |all| - off then size else |all| - off)
      && (p.books != [] ==> off + |p.books| <= |all| && p.books == all[off..off + |p.books|])
  {
    if !CategoryUsed(rows, categoryId) then CategoryPage([], 0, 0)
    else
      var size := pageSize.GetOr(12);
      var all := CategoryBooks(books, rows, categoryId);
      var off := Offset(page.GetOr(1), size);
      var pageBooks := Query.LimitOffset(all, size, off);
      CategoryPage(pageBooks, |all|, CeilDiv(|all|, size))
  }

  /** The page at `(page - 1) * size` starts inside the listing exactly when `page` is at most the page count. */
  lemma OffsetWithinIff(page: nat, size: nat, total: nat)
    requires page >= 1 && size >= 1
    ensures Offset(page, size) < total <==> page <= CeilDiv(total, size)
  {
    var pages := CeilDiv(total, size);
    if page <= pages {
      MulMonotone(page - 1, pages - 1, size);
    } else {
      MulMonotone(pages, page - 1, size);
    }
  }

  /** A page has books exactly when its number is at most the number of pages. */
  lemma PageHasBooksIff(books: seq<Book>, rows: seq<BookCategory>, categoryId: Id, page: nat, pageSize: nat)
    requires page >= 1 && pageSize >= 1 && CategoryUsed(rows, categoryId)
    ensures var p := GetBooksByCategory(books, rows, categoryId, Some(page), Some(pageSize));
            p.books != [] <==> page <= p.totalPages
  {
    var all := CategoryBooks(books, rows, categoryId);
    OffsetWithinIff(page, pageSize, |all|);
  }

  lemma MulMonotone(a: nat, b: nat, c: nat)
    requires a <= b
    ensures a * c <= b * c
  {
  }
}
