/**
 * The persistent store the services share: one field per table, and the
 * invariants the services keep.
 */
module Store {
  import opened Schema

  /** Every book is stored under its own ID. */
  predicate KeyedById(books: map<Id, Book>) {
    forall k :: k in books ==> books[k].id == k
  }

  /** No book has negative stock. */
  predicate StockNonNegative(books: map<Id, Book>) {
    forall k :: k in books ==> books[k].stock >= 0
  }

  /** A user's cart holds at most one line per book. */
  predicate OneLinePerUserBook(cart: seq<CartItem>) {
    forall i, j :: 0 <= i < j < |cart| ==> cart[i].userId != cart[j].userId || cart[i].bookId != cart[j].bookId
  }

  class Database {
    var books: map<Id, Book>
    var cartItems: seq<CartItem>
    var orders: seq<Order>
    var orderItems: seq<OrderItem>
    var payments: seq<Payment>
    var reviews: seq<Review>
    var users: seq<User>
    var roles: seq<Role>

    ghost predicate Valid()
      reads this
    {
      KeyedById(books) && StockNonNegative(books) && OneLinePerUserBook(cartItems)
    }

    /** A store with the given books and every other table empty. */
    constructor (books: map<Id, Book>)
      requires KeyedById(books) && StockNonNegative(books)
      ensures Valid()
      ensures this.books == books
      ensures cartItems == [] && orders == [] && orderItems == [] && payments == []
      ensures reviews == [] && users == [] && roles == []
    {
      this.books := books;
      cartItems, orders, orderItems, payments := [], [], [], [];
      reviews, users, roles := [], [], [];
    }
  }
}
