/**
 * The catalog handlers: the checks run before a book is created or updated,
 * the `restock` action and the `searchBooks` function.
 */
module Inventory {
  import opened Wrappers
  import opened Schema
  import opened Store
  import Text
  import Query

  /**
   * The fields of a create or update request that the checks look at; a
   * field the request does not carry is None.
   */
  datatype BookWrite = BookWrite(title: Option<string>, stock: Option<int>, price: Option<real>)

  /**
   * The before-CREATE and before-UPDATE checks. Both errors are collected
   * (a request with negative stock and negative price reports both, stock
   * first); a request that passes has its title trimmed when it is a
   * non-empty string, and is otherwise unchanged.
   */
  function BeforeBookWrite(data: BookWrite): (r: Result<BookWrite, seq<Error>>)
    ensures r.Ok? <==> !(data.stock.Some? && data.stock.value < 0) && !(data.price.Some? && data.price.value < 0.0)
    ensures r.Err? ==>
      && (StockNegative in r.error <==> data.stock.Some? && data.stock.value < 0)
      && (PriceNegative in r.error <==> data.price.Some? && data.price.value < 0.0)
      && 1 <= |r.error| <= 2 && r.error[0] == (if StockNegative in r.error then StockNegative else PriceNegative)
    ensures r.Ok? ==> r.value.stock == data.stock && r.value.price == data.price
    ensures r.Ok? ==> r.value.title.Some? == data.title.Some?
    ensures r.Ok? && data.title.Some? ==> r.value.title.value == Text.Trim(data.title.value)
  {
    var stockErrors := if data.stock.Some? && data.stock.value < 0 then [StockNegative] else [];
    var priceErrors := if data.price.Some? && data.price.value < 0.0 then [PriceNegative] else [];
    var errors := stockErrors + priceErrors;
    if errors != [] then Err(errors)
    else
      var title := if data.title.Some? && data.title.value != "" then Some(Text.Trim(data.title.value)) else data.title;
      Ok(data.(title := title))
  }

  /** A written book keeps a title without surrounding whitespace: the checks are idempotent. */
  lemma BeforeBookWriteIdempotent(data: BookWrite)
    requires BeforeBookWrite(data).Ok?
    ensures BeforeBookWrite(BeforeBookWrite(data).value) == BeforeBookWrite(data)
  {
    var once := BeforeBookWrite(data).value;
    if data.title.Some? {
      Text.TrimIdempotent(data.title.value);
    }
  }

  /** The argument checks of `restock`: an ID must be given and the amount must be positive. */
  function CheckRestock(id: Option<Id>, amount: Option<int>): (e: Option<Error>)
    ensures e.None? <==> id.Some? && id.value != "" && amount.Some? && amount.value > 0
    ensures e == Some(IdRequired) <==> id.None? || id.value == ""
    ensures e.Some? ==> e.value == IdRequired || e.value == AmountNotPositive
  {
    if id.None? || id.value == "" then Some(IdRequired)
    else if amount.None? || amount.value <= 0 then Some(AmountNotPositive)
    else None
  }

  /**
   * `restock`: after the argument checks, a missing book is an error and an
   * existing one has its stock raised by the amount; nothing else changes.
   */
  method Restock(db: Database, id: Option<Id>, amount: Option<int>) returns (r: Outcome<Error>)
    requires db.Valid()
    modifies db
    ensures db.Valid()
    ensures CheckRestock(id, amount).Some? ==> r == Fail(CheckRestock(id, amount).value) && db.books == old(db.books)
    ensures CheckRestock(id, amount).None? ==>
      if id.value in old(db.books) then
        var b := old(db.books)[id.value];
        r == Pass && db.books == old(db.books)[id.value := b.(stock := b.stock + amount.value)]
      else
        r == Fail(BookNotFound) && db.books == old(db.books)
    ensures r.Pass? ==> db.books[id.value].stock > old(db.books)[id.value].stock
    ensures db.cartItems == old(db.cartItems) && db.orders == old(db.orders) && db.orderItems == old(db.orderItems)
    ensures db.payments == old(db.payments) && db.reviews == old(db.reviews)
    ensures db.users == old(db.users) && db.roles == old(db.roles)
  {
    var check := CheckRestock(id, amount);
    if check.Some? {
      return Fail(check.value);
    }
    var key := id.value;
    if key !in db.books {
      return Fail(BookNotFound);
    }
    var book := db.books[key];
    db.books := db.books[key := book.(stock := book.stock + amount.value)];
    r := Pass;
  }

  /** A book matches a search when its title or its author contains the query. */
  predicate Matches(b: Book, q: string) {
    Text.Contains(b.title, q) || Text.Contains(b.author, q)
  }

  /**
   * `searchBooks`: the query, absent meaning empty, is trimmed; a blank one
   * finds nothing, otherwise every book whose title or author contains it,
   * in table order.
   */
  function SearchBooks(books: seq<Book>, q: Option<string>): (r: seq<Book>)
    ensures Text.IsBlank(q.GetOr("")) ==> r == []
    ensures !Text.IsBlank(q.GetOr("")) ==>
      forall b :: b in r <==> b in books && Matches(b, Text.Trim(q.GetOr("")))
    ensures |r| <= |books|
  {
    var query := Text.Trim(q.GetOr(""));
    if query == [] then [] else Query.Where(books, (b: Book) => Matches(b, query))
  }

  /** A search hit contains the trimmed query at some position of its title or author. */
  lemma SearchHitOccurs(books: seq<Book>, q: string, b: Book)
    requires b in SearchBooks(books, Some(q))
    ensures exists i :: Text.OccursAt(b.title, Text.Trim(q), i) || Text.OccursAt(b.author, Text.Trim(q), i)
  {
    Text.ContainsIff(b.title, Text.Trim(q));
    Text.ContainsIff(b.author, Text.Trim(q));
  }

  /** Whitespace around a query word does not change what it finds. */
  lemma SearchIgnoresPadding(books: seq<Book>, left: string, q: string, right: string)
    requires Text.IsBlank(left) && Text.IsBlank(right)
    requires q != [] ==> !Text.IsSpace(q[0]) && !Text.IsSpace(q[|q| - 1])
    ensures SearchBooks(books, Some(left + q + right)) == SearchBooks(books, Some(q))
  {
    Text.TrimOfPadded(left, q, right);
    assert [] + q + [] == q;
    Text.TrimOfPadded([], q, []);
  }
}
