/**
 * The review handlers of the user service: `submitReview` stores at most one
 * review per (user, book), unapproved, with a verified-purchase flag, and
 * then `updateBookRating` recomputes the book's rating summary from its
 * approved reviews.
 */
module ReviewService {
  import opened Wrappers
  import opened Schema
  import opened Store
  import opened Ratings

  /** The statuses that make an order count as a purchase. */
  predicate IsFulfilled(status: OrderStatus) {
    status == Delivered || status == Completed
  }

  /** Some order with this ID belongs to `userId` and is delivered or completed. */
  function FulfilledOrderOf(orders: seq<Order>, orderId: Id, userId: Id): (b: bool)
    ensures b <==> exists j :: 0 <= j < |orders| && orders[j].id == orderId
                               && orders[j].customerId == userId && IsFulfilled(orders[j].status)
  {
    if orders == [] then false
    else
      var init, o := orders[..|orders| - 1], orders[|orders| - 1];
      var found := FulfilledOrderOf(init, orderId, userId);
      assert forall j :: 0 <= j < |init| ==> init[j] == orders[j];
      found || (o.id == orderId && o.customerId == userId && IsFulfilled(o.status))
  }

  /**
   * The join of the purchase check: an order item for `bookId` whose order
   * belongs to `userId` and is delivered or completed.
   */
  function HasPurchased(orders: seq<Order>, items: seq<OrderItem>, userId: Id, bookId: Id): (b: bool)
    ensures b <==> exists i, j :: 0 <= i < |items| && 0 <= j < |orders|
                                  && items[i].bookId == bookId && orders[j].id == items[i].orderId
                                  && orders[j].customerId == userId && IsFulfilled(orders[j].status)
  {
    if items == [] then false
    else
      var init, it := items[..|items| - 1], items[|items| - 1];
      var found := HasPurchased(orders, init, userId, bookId);
      assert forall i :: 0 <= i < |init| ==> init[i] == items[i];
      found || (it.bookId == bookId && FulfilledOrderOf(orders, it.orderId, userId))
  }

  /** `userId` has already reviewed `bookId`. */
  predicate HasReviewed(reviews: seq<Review>, userId: Id, bookId: Id) {
    exists i :: 0 <= i < |reviews| && reviews[i].userId == userId && reviews[i].bookId == bookId
  }

  /**
   * The Books table after `updateBookRating(bookId)`: only that book's average
   * and count change; a missing book is left alone.
   */
  function RefreshRating(books: map<Id, Book>, reviews: seq<Review>, bookId: Id): (r: map<Id, Book>)
    ensures r.Keys == books.Keys
    ensures forall k :: k in books && k != bookId ==> r[k] == books[k]
    ensures bookId in books ==>
      r[bookId] == books[bookId].(averageRating := r[bookId].averageRating, totalReviews := r[bookId].totalReviews)
    ensures RatingUpToDate(r, reviews, bookId)
  {
    if bookId in books then
      var s := Summary(reviews, bookId);
      books[bookId := books[bookId].(averageRating := s.averageRating, totalReviews := s.totalReviews)]
    else books
  }

  /** Recomputing a rating that is already up to date changes nothing; in particular recomputing twice is recomputing once. */
  lemma RefreshWhenUpToDate(books: map<Id, Book>, reviews: seq<Review>, bookId: Id)
    requires RatingUpToDate(books, reviews, bookId)
    ensures RefreshRating(books, reviews, bookId) == books
  {
    var r := RefreshRating(books, reviews, bookId);
    if bookId in books {
      assert r[bookId] == books[bookId];
    }
    assert forall k :: k in r <==> k in books;
  }

  lemma RefreshIdempotent(books: map<Id, Book>, reviews: seq<Review>, bookId: Id)
    ensures RefreshRating(RefreshRating(books, reviews, bookId), reviews, bookId) == RefreshRating(books, reviews, bookId)
  {
    RefreshWhenUpToDate(RefreshRating(books, reviews, bookId), reviews, bookId);
  }

  /** `updateBookRating(bookId)`: writes the count and rounded mean of the book's approved reviews onto it. */
  method UpdateBookRating(db: Database, bookId: Id)
    requires db.Valid()
    modifies db
    ensures db.Valid()
    ensures db.books == RefreshRating(old(db.books), old(db.reviews), bookId)
    ensures db.cartItems == old(db.cartItems) && db.orders == old(db.orders) && db.orderItems == old(db.orderItems)
    ensures db.payments == old(db.payments) && db.reviews == old(db.reviews)
    ensures db.users == old(db.users) && db.roles == old(db.roles)
  {
    var s := Summary(db.reviews, bookId);
    if bookId in db.books {
      db.books := db.books[bookId := db.books[bookId].(averageRating := s.averageRating, totalReviews := s.totalReviews)];
    }
  }

  /**
   * `submitReview(bookId, rating, title, comment)`. A second review by the
   * same user for the same book is refused whatever it says; a new review is
   * stored unapproved, so the book's rating summary does not move when it
   * was up to date.
   */
  method SubmitReview(db: Database, userId: Id, bookId: Id, rating: int, title: Option<string>, comment: Option<string>)
    returns (r: Outcome<Error>)
    requires db.Valid()
    modifies db
    ensures db.Valid()
    ensures r.Fail? <==> old(HasReviewed(db.reviews, userId, bookId))
    ensures r.Fail? ==> r.error == AlreadyReviewed && db.reviews == old(db.reviews) && db.books == old(db.books)
    ensures r.Pass? ==>
      db.reviews == old(db.reviews) + [Review(bookId, userId, rating, title.GetOr(""), comment.GetOr(""),
                                              old(HasPurchased(db.orders, db.orderItems, userId, bookId)), false)]
    ensures r.Pass? ==> db.books == RefreshRating(old(db.books), db.reviews, bookId)
    ensures old(RatingUpToDate(db.books, db.reviews, bookId)) ==> db.books == old(db.books)
    ensures db.cartItems == old(db.cartItems) && db.orders == old(db.orders) && db.orderItems == old(db.orderItems)
    ensures db.payments == old(db.payments) && db.users == old(db.users) && db.roles == old(db.roles)
  {
    var hasOrdered := HasPurchased(db.orders, db.orderItems, userId, bookId);
    if HasReviewed(db.reviews, userId, bookId) {
      return Fail(AlreadyReviewed);
    }
    var review := Review(bookId, userId, rating, title.GetOr(""), comment.GetOr(""), hasOrdered, false);
    db.reviews := db.reviews + [review];
    IgnoredReview(old(db.reviews), review, bookId);
    if RatingUpToDate(db.books, old(db.reviews), bookId) {
      RefreshWhenUpToDate(db.books, db.reviews, bookId);
    }
    UpdateBookRating(db, bookId);
    r := Pass;
  }
}
