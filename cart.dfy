/**
 * The cart and checkout handlers of the user service: `addToCart` keeps one
 * line per (user, book) within the book's stock; `checkout` turns the user's
 * cart into a pending order with its items and payment, decrements stock
 * from the snapshot it read and empties the cart.
 */
module Cart {
  import opened Wrappers
  import opened Schema
  import opened Store
  import opened Pricing
  import Query

  /** The active book with this ID: `SELECT one FROM Books WHERE ID = id AND isActive`. */
  function ActiveBook(books: map<Id, Book>, id: Id): (b: Option<Book>)
    ensures b.Some? <==> id in books && books[id].isActive
    ensures b.Some? ==> b.value == books[id]
  {
    if id in books && books[id].isActive then Some(books[id]) else None
  }

  /** The position of the first cart line of `userId` for `bookId`, if there is one. */
  function FindLine(cart: seq<CartItem>, userId: Id, bookId: Id): (r: Option<nat>)
    ensures r.Some? ==> r.value < |cart| && cart[r.value].userId == userId && cart[r.value].bookId == bookId
    ensures r.Some? ==> forall j :: 0 <= j < r.value ==> !(cart[j].userId == userId && cart[j].bookId == bookId)
    ensures r.None? <==> forall j :: 0 <= j < |cart| ==> !(cart[j].userId == userId && cart[j].bookId == bookId)
  {
    if cart == [] then None
    else if cart[0].userId == userId && cart[0].bookId == bookId then Some(0)
    else match FindLine(cart[1..], userId, bookId)
      case Some(i) => Some(i + 1)
      case None => None
  }

  /**
   * `addToCart(bookId, quantity = 1)`. Fails with BookNotFound for a missing
   * or inactive book, with OnlyInStock when the quantity exceeds the stock,
   * and with CannotAddMore when the merged quantity would. Otherwise it adds
   * the quantity to the user's existing line for the book, or appends a line.
   */
  method AddToCart(db: Database, userId: Id, bookId: Id, quantity: Option<int>) returns (r: Outcome<Error>)
    requires db.Valid()
    modifies db
    ensures db.Valid()
    ensures db.books == old(db.books) && db.orders == old(db.orders) && db.orderItems == old(db.orderItems)
    ensures db.payments == old(db.payments) && db.reviews == old(db.reviews)
    ensures db.users == old(db.users) && db.roles == old(db.roles)
    ensures r.Fail? ==> db.cartItems == old(db.cartItems)
    ensures r == Fail(BookNotFound) <==> ActiveBook(old(db.books), bookId).None?
    ensures ActiveBook(old(db.books), bookId).Some? ==>
      var stock, q := old(db.books)[bookId].stock, quantity.GetOr(1);
      var found := FindLine(old(db.cartItems), userId, bookId);
      if stock < q then r == Fail(OnlyInStock(stock))
      else if found.None? then r == Pass && db.cartItems == old(db.cartItems) + [CartItem(userId, bookId, q)]
      else
        var line := old(db.cartItems)[found.value];
        if line.quantity + q > stock then r == Fail(CannotAddMore(stock))
        else r == Pass && db.cartItems == old(db.cartItems)[found.value := line.(quantity := line.quantity + q)]
    ensures r.Pass? ==>
      var found := FindLine(db.cartItems, userId, bookId);
      found.Some? && db.cartItems[found.value].quantity <= db.books[bookId].stock
  {
    var q := quantity.GetOr(1);
    var book := ActiveBook(db.books, bookId);
    if book.None? {
      return Fail(BookNotFound);
    }
    var stock := book.value.stock;
    if stock < q {
      return Fail(OnlyInStock(stock));
    }
    var existing := FindLine(db.cartItems, userId, bookId);
    if existing.Some? {
      var i := existing.value;
      var newQuantity := db.cartItems[i].quantity + q;
      if newQuantity > stock {
        return Fail(CannotAddMore(stock));
      }
      UpdateLineKeepsOneLine(db.cartItems, i, newQuantity);
      db.cartItems := db.cartItems[i := db.cartItems[i].(quantity := newQuantity)];
    } else {
      AppendLineKeepsOneLine(db.cartItems, CartItem(userId, bookId, q));
      db.cartItems := db.cartItems + [CartItem(userId, bookId, q)];
    }
    r := Pass;
  }

  /** Changing the quantity of the line `FindLine` found keeps the invariant, and the line is still the one found. */
  lemma UpdateLineKeepsOneLine(cart: seq<CartItem>, i: nat, quantity: int)
    requires OneLinePerUserBook(cart) && i < |cart| && FindLine(cart, cart[i].userId, cart[i].bookId) == Some(i)
    ensures var updated := cart[i := cart[i].(quantity := quantity)];
      OneLinePerUserBook(updated) && FindLine(updated, cart[i].userId, cart[i].bookId) == Some(i)
  {
    var updated := cart[i := cart[i].(quantity := quantity)];
    forall a, b | 0 <= a < b < |updated|
      ensures updated[a].userId != updated[b].userId || updated[a].bookId != updated[b].bookId
    {
      assert cart[a].userId != cart[b].userId || cart[a].bookId != cart[b].bookId;
    }
    assert forall j :: 0 <= j < |cart| && j != i ==> updated[j] == cart[j];
    assert updated[i].userId == cart[i].userId && updated[i].bookId == cart[i].bookId;
    var found := FindLine(updated, cart[i].userId, cart[i].bookId);
    assert found.Some?;
    assert !(found.value < i) && !(found.value > i);
  }

  /** Appending a line for a pair with no line keeps the invariant, and the new line is the one found. */
  lemma AppendLineKeepsOneLine(cart: seq<CartItem>, line: CartItem)
    requires OneLinePerUserBook(cart) && FindLine(cart, line.userId, line.bookId).None?
    ensures OneLinePerUserBook(cart + [line]) && FindLine(cart + [line], line.userId, line.bookId) == Some(|cart|)
  {
    OneLineAppend(cart, line);
    FindAppended(cart, line);
  }

  /** `FindLine` finds a line appended for a pair that had none at the end. */
  lemma {:induction false} FindAppended(cart: seq<CartItem>, line: CartItem)
    requires FindLine(cart, line.userId, line.bookId).None?
    ensures FindLine(cart + [line], line.userId, line.bookId) == Some(|cart|)
  {
    if cart != [] {
      assert (cart + [line])[1..] == cart[1..] + [line];
      FindAppended(cart[1..], line);
    }
  }

  /** The user's cart lines: `SELECT … FROM CartItems WHERE user_ID = userId`. */
  function UserCart(cart: seq<CartItem>, userId: Id): (lines: seq<CartItem>)
    ensures forall l :: l in lines <==> l in cart && l.userId == userId
  {
    Query.Where(cart, (l: CartItem) => l.userId == userId)
  }

  /** What `DELETE FROM CartItems WHERE user_ID = userId` leaves. */
  function OtherUsersCart(cart: seq<CartItem>, userId: Id): (rest: seq<CartItem>)
    ensures forall l :: l in rest <==> l in cart && l.userId != userId
  {
    Query.Where(cart, (l: CartItem) => l.userId != userId)
  }

  /** A line for a new (user, book) pair can be appended without breaking the invariant. */
  lemma OneLineAppend(w: seq<CartItem>, x: CartItem)
    requires OneLinePerUserBook(w)
    requires forall i :: 0 <= i < |w| ==> w[i].userId != x.userId || w[i].bookId != x.bookId
    ensures OneLinePerUserBook(w + [x])
  {
    var w' := w + [x];
    forall a, b | 0 <= a < b < |w'| ensures w'[a].userId != w'[b].userId || w'[a].bookId != w'[b].bookId {
      if b < |w| { assert w'[a] == w[a] && w'[b] == w[b]; }
    }
  }

  /** Lines taken from all but the last line of a cart differ from the last line in user or book. */
  lemma DistinctFromLast(cart: seq<CartItem>, w: seq<CartItem>)
    requires OneLinePerUserBook(cart) && cart != []
    requires forall y :: y in w ==> y in cart[..|cart| - 1]
    ensures forall i :: 0 <= i < |w| ==> w[i].userId != cart[|cart| - 1].userId || w[i].bookId != cart[|cart| - 1].bookId
  {
    forall i | 0 <= i < |w| ensures w[i].userId != cart[|cart| - 1].userId || w[i].bookId != cart[|cart| - 1].bookId {
      assert w[i] in w;
      var k :| 0 <= k < |cart| - 1 && cart[..|cart| - 1][k] == w[i];
      assert cart[k] == w[i];
    }
  }

  /** A filtered cart keeps the one-line-per-(user, book) invariant. */
  lemma {:induction false} FilterKeepsOneLine(cart: seq<CartItem>, p: CartItem -> bool)
    requires OneLinePerUserBook(cart)
    ensures OneLinePerUserBook(Query.Where(cart, p))
  {
    if cart != [] {
      var init, x := cart[..|cart| - 1], cart[|cart| - 1];
      assert cart == init + [x];
      assert OneLinePerUserBook(init) by {
        forall a, b | 0 <= a < b < |init| ensures init[a].userId != init[b].userId || init[a].bookId != init[b].bookId {
          assert init[a] == cart[a] && init[b] == cart[b];
        }
      }
      FilterKeepsOneLine(init, p);
      Query.WhereAppend(init, x, p);
      var w := Query.Where(init, p);
      if p(x) {
        DistinctFromLast(cart, w);
        OneLineAppend(w, x);
      }
    }
  }

  /** The user's cart lines name pairwise distinct books. */
  lemma UserCartDistinctBooks(cart: seq<CartItem>, userId: Id)
    requires OneLinePerUserBook(cart)
    ensures var lines := UserCart(cart, userId);
      forall i, j :: 0 <= i < j < |lines| ==> lines[i].bookId != lines[j].bookId
  {
    FilterKeepsOneLine(cart, (l: CartItem) => l.userId == userId);
    var lines := UserCart(cart, userId);
    forall i, j | 0 <= i < j < |lines| ensures lines[i].bookId != lines[j].bookId {
      assert lines[i] in lines && lines[j] in lines;
    }
  }

  /** Every line's book is in the Books table. */
  predicate AllBooksPresent(lines: seq<CartItem>, books: map<Id, Book>) {
    forall i :: 0 <= i < |lines| ==> lines[i].bookId in books
  }

  /** The cart lines joined with their books, as the checkout query reads them. */
  function Priced(lines: seq<CartItem>, books: map<Id, Book>): (p: seq<PricedLine>)
    requires AllBooksPresent(lines, books)
    ensures |p| == |lines|
    ensures forall i :: 0 <= i < |lines| ==>
      var b := books[lines[i].bookId];
      p[i] == PricedLine(lines[i].bookId, b.title, b.price, b.stock, lines[i].quantity)
  {
    seq(|lines|, i requires 0 <= i < |lines| =>
      var b := books[lines[i].bookId];
      PricedLine(lines[i].bookId, b.title, b.price, b.stock, lines[i].quantity))
  }

  /** The error the checkout loop raises for one line, if any: the book row is gone, or it has too little stock. */
  function LineError(line: CartItem, books: map<Id, Book>): (e: Option<Error>)
    ensures e.None? <==> line.bookId in books && line.quantity <= books[line.bookId].stock
    ensures line.bookId !in books ==> e == Some(CheckoutFailed)
    ensures line.bookId in books && books[line.bookId].stock < line.quantity ==>
      e == Some(InsufficientStock(books[line.bookId].title))
  {
    if line.bookId !in books then Some(CheckoutFailed)
    else if books[line.bookId].stock < line.quantity then Some(InsufficientStock(books[line.bookId].title))
    else None
  }

  /** The error of the first failing line, in cart order; none when every line passes. */
  function FirstLineError(lines: seq<CartItem>, books: map<Id, Book>): (e: Option<Error>)
    ensures e.None? <==> forall i :: 0 <= i < |lines| ==> LineError(lines[i], books).None?
    ensures e.Some? ==> e.value.CheckoutFailed? || e.value.InsufficientStock?
  {
    if lines == [] then None
    else if LineError(lines[0], books).Some? then LineError(lines[0], books)
    else
      var rest := FirstLineError(lines[1..], books);
      assert forall i :: 1 <= i < |lines| ==> lines[i] == lines[1..][i - 1];
      rest
  }

  /** The first failing line decides the error. */
  lemma {:induction false} FirstLineErrorAt(lines: seq<CartItem>, books: map<Id, Book>, i: nat)
    requires i < |lines| && LineError(lines[i], books).Some?
    requires forall k :: 0 <= k < i ==> LineError(lines[k], books).None?
    ensures FirstLineError(lines, books) == LineError(lines[i], books)
  {
    if i > 0 {
      FirstLineErrorAt(lines[1..], books, i - 1);
    }
  }

  /**
   * The validation loop of checkout: walks the lines in cart order, stops at
   * the first line whose book is gone or short of stock, and otherwise
   * accumulates the subtotal.
   */
  method ValidateLines(lines: seq<CartItem>, books: map<Id, Book>) returns (r: Result<real, Error>)
    ensures r.Err? <==> FirstLineError(lines, books).Some?
    ensures r.Err? ==> r.error == FirstLineError(lines, books).value
    ensures r.Ok? ==> AllBooksPresent(lines, books) && r.value == Subtotal(Priced(lines, books))
  {
    var subtotal := 0.0;
    var i := 0;
    while i < |lines|
      invariant 0 <= i <= |lines|
      invariant forall k :: 0 <= k < i ==> LineError(lines[k], books).None?
      invariant AllBooksPresent(lines[..i], books)
      invariant subtotal == Subtotal(Priced(lines[..i], books))
    {
      var line := lines[i];
      if line.bookId !in books {
        FirstLineErrorAt(lines, books, i);
        return Err(CheckoutFailed);
      }
      var book := books[line.bookId];
      if book.stock < line.quantity {
        FirstLineErrorAt(lines, books, i);
        return Err(InsufficientStock(book.title));
      }
      assert lines[..i + 1][..i] == lines[..i];
      assert Priced(lines[..i + 1], books)[..i] == Priced(lines[..i], books);
      subtotal := subtotal + book.price * line.quantity as real;
      i := i + 1;
    }
    assert lines[..i] == lines;
    r := Ok(subtotal);
  }

  /**
   * The write loop of checkout: one order item per line, and the line's book
   * set to the snapshot stock minus the line's quantity.
   */
  method WriteItems(db: Database, orderId: Id, priced: seq<PricedLine>)
    modifies db
    ensures db.orderItems == old(db.orderItems) + Items(orderId, priced)
    ensures db.books == StockAfter(old(db.books), priced)
    ensures db.cartItems == old(db.cartItems) && db.orders == old(db.orders) && db.payments == old(db.payments)
    ensures db.reviews == old(db.reviews) && db.users == old(db.users) && db.roles == old(db.roles)
  {
    var i := 0;
    while i < |priced|
      invariant 0 <= i <= |priced|
      invariant db.orderItems == old(db.orderItems) + Items(orderId, priced[..i])
      invariant db.books == StockAfter(old(db.books), priced[..i])
      invariant db.cartItems == old(db.cartItems) && db.orders == old(db.orders) && db.payments == old(db.payments)
      invariant db.reviews == old(db.reviews) && db.users == old(db.users) && db.roles == old(db.roles)
    {
      var item := priced[i];
      assert priced[..i + 1][..i] == priced[..i];
      assert Items(orderId, priced[..i + 1]) == Items(orderId, priced[..i]) + [ItemFor(orderId, item)];
      ghost var written := db.orderItems;
      db.orderItems := db.orderItems + [OrderItem(orderId, item.bookId, item.quantity, item.price,
                                                  item.price * item.quantity as real)];
      assert db.orderItems == written + [OrderItem(orderId, item.bookId, item.quantity, item.price,
                                                  item.price * item.quantity as real)];
      assert ItemFor(orderId, item) == OrderItem(orderId, item.bookId, item.quantity, item.price, LineTotal(item));
      assert LineTotal(item) == item.price * item.quantity as real;
      assert db.orderItems == written + [ItemFor(orderId, item)];
      if item.bookId in db.books {
        db.books := db.books[item.bookId := db.books[item.bookId].(stock := item.stock - item.quantity)];
      }
      i := i + 1;
    }
    assert priced[..i] == priced;
  }

  /**
   * After a validated checkout each purchased book holds its old stock minus
   * the line's quantity, which is not negative, and every other book is as it was.
   */
  lemma CheckoutStock(cart: seq<CartItem>, userId: Id, books: map<Id, Book>)
    requires OneLinePerUserBook(cart)
    requires FirstLineError(UserCart(cart, userId), books).None?
    ensures AllBooksPresent(UserCart(cart, userId), books)
    ensures var lines := UserCart(cart, userId);
      var after := StockAfter(books, Priced(lines, books));
      && (forall i :: 0 <= i < |lines| ==>
            0 <= after[lines[i].bookId].stock == books[lines[i].bookId].stock - lines[i].quantity)
      && (forall k :: k in books && (forall i :: 0 <= i < |lines| ==> lines[i].bookId != k) ==> after[k] == books[k])
  {
    var lines := UserCart(cart, userId);
    assert forall i :: 0 <= i < |lines| ==> LineError(lines[i], books).None?;
    var priced := Priced(lines, books);
    UserCartDistinctBooks(cart, userId);
    assert DistinctBooks(priced);
    StockAfterDistinct(books, priced);
  }

  /** A successful checkout keeps the store's invariants. */
  lemma CheckoutKeepsInvariants(cart: seq<CartItem>, userId: Id, books: map<Id, Book>)
    requires OneLinePerUserBook(cart) && KeyedById(books) && StockNonNegative(books)
    requires FirstLineError(UserCart(cart, userId), books).None?
    ensures AllBooksPresent(UserCart(cart, userId), books)
    ensures var after := StockAfter(books, Priced(UserCart(cart, userId), books));
      KeyedById(after) && StockNonNegative(after)
    ensures OneLinePerUserBook(OtherUsersCart(cart, userId))
  {
    var lines := UserCart(cart, userId);
    CheckoutStock(cart, userId, books);
    var priced := Priced(lines, books);
    var after := StockAfter(books, priced);
    forall k | k in after ensures after[k].id == k && after[k].stock >= 0 {
      StockAfterOnlyStock(books, priced, k);
      if i :| 0 <= i < |lines| && lines[i].bookId == k {
      } else {
        assert after[k] == books[k];
      }
    }
    FilterKeepsOneLine(cart, (l: CartItem) => l.userId != userId);
  }

  /**
   * The writes of a validated checkout, in the service's order: the pending
   * order with its totals, one item per line with the stock update, the
   * pending payment for the total, and the deletion of the user's cart lines.
   */
  method PlaceOrder(db: Database, userId: Id, billingAddressId: Id, shippingAddressId: Id,
                    paymentMethod: string, notes: Option<string>, orderId: Id, orderNumber: string,
                    priced: seq<PricedLine>, subtotal: real)
    returns (totalAmount: real)
    requires subtotal == Subtotal(priced)
    modifies db
    ensures var t := ComputeTotals(Subtotal(priced));
      && totalAmount == t.totalAmount
      && db.orders == old(db.orders) + [Order(orderId, orderNumber, userId, OrderStatus.Pending,
                                              t.subtotal, t.tax, t.shippingCost, t.totalAmount,
                                              billingAddressId, shippingAddressId, notes.GetOr(""))]
    ensures db.orderItems == old(db.orderItems) + Items(orderId, priced)
    ensures db.payments == old(db.payments) + [Payment(orderId, paymentMethod, PaymentStatus.Pending, totalAmount)]
    ensures db.cartItems == OtherUsersCart(old(db.cartItems), userId)
    ensures db.books == StockAfter(old(db.books), priced)
    ensures db.reviews == old(db.reviews) && db.users == old(db.users) && db.roles == old(db.roles)
  {
    var tax := subtotal * TaxRate;
    var shippingCost := if subtotal > FreeShippingAbove then 0.0 else ShippingFee;
    totalAmount := subtotal + tax + shippingCost;
    db.orders := db.orders + [Order(orderId, orderNumber, userId, OrderStatus.Pending, subtotal, tax, shippingCost,
                                    totalAmount, billingAddressId, shippingAddressId, notes.GetOr(""))];
    WriteItems(db, orderId, priced);
    db.payments := db.payments + [Payment(orderId, paymentMethod, PaymentStatus.Pending, totalAmount)];
    db.cartItems := OtherUsersCart(db.cartItems, userId);
  }

  /** What checkout returns on success. */
  datatype Receipt = Receipt(orderId: Id, orderNumber: string, totalAmount: real)

  /**
   * `checkout`. `orderId` and `orderNumber` are the fresh values the service
   * draws from `uuidv4()` and from the clock and a random suffix. Every
   * failure returns before the first write, so the tables are unchanged.
   */
  method Checkout(db: Database, userId: Id, billingAddressId: Id, shippingAddressId: Id,
                  paymentMethod: string, notes: Option<string>, orderId: Id, orderNumber: string)
    returns (r: Result<Receipt, Error>)
    requires db.Valid()
    modifies db
    ensures db.Valid()
    ensures db.reviews == old(db.reviews) && db.users == old(db.users) && db.roles == old(db.roles)
    ensures r.Err? ==>
      && db.books == old(db.books) && db.cartItems == old(db.cartItems) && db.orders == old(db.orders)
      && db.orderItems == old(db.orderItems) && db.payments == old(db.payments)
    ensures r == Err(CartEmpty) <==> UserCart(old(db.cartItems), userId) == []
    ensures UserCart(old(db.cartItems), userId) != [] ==>
      var e := FirstLineError(UserCart(old(db.cartItems), userId), old(db.books));
      (r.Err? <==> e.Some?) && (r.Err? ==> r.error == e.value)
    ensures r.Ok? ==>
      var lines := UserCart(old(db.cartItems), userId);
      AllBooksPresent(lines, old(db.books)) &&
      var priced := Priced(lines, old(db.books));
      var t := ComputeTotals(Subtotal(priced));
      && r.value == Receipt(orderId, orderNumber, t.totalAmount)
      && db.orders == old(db.orders) + [Order(orderId, orderNumber, userId, OrderStatus.Pending,
                                              t.subtotal, t.tax, t.shippingCost, t.totalAmount,
                                              billingAddressId, shippingAddressId, notes.GetOr(""))]
      && db.orderItems == old(db.orderItems) + Items(orderId, priced)
      && db.payments == old(db.payments) + [Payment(orderId, paymentMethod, PaymentStatus.Pending, t.totalAmount)]
      && db.cartItems == OtherUsersCart(old(db.cartItems), userId)
      && db.books == StockAfter(old(db.books), priced)
  {
    var lines := UserCart(db.cartItems, userId);
    if |lines| == 0 {
      return Err(CartEmpty);
    }
    var checked := ValidateLines(lines, db.books);
    if checked.Err? {
      return Err(checked.error);
    }
    var priced := Priced(lines, db.books);
    var totalAmount := PlaceOrder(db, userId, billingAddressId, shippingAddressId, paymentMethod, notes,
                                  orderId, orderNumber, priced, checked.value);
    r := Ok(Receipt(orderId, orderNumber, totalAmount));
    CheckoutKeepsInvariants(old(db.cartItems), userId, old(db.books));
  }
}
