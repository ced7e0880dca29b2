/**
 * The rows of the bookshop's tables, as the services read and write them,
 * and the errors the services report.
 */
module Schema {

  /** Primary and foreign keys (UUIDs and category codes), compared for equality only. */
  type Id = string

  /** A row of Books. `createdAt` is the creation time stamp, as a number. */
  datatype Book = Book(
    id: Id,
    title: string,
    author: string,
    description: string,
    price: real,
    stock: int,
    isActive: bool,
    isFeatured: bool,
    averageRating: real,
    totalReviews: nat,
    createdAt: int)

  /** A row of CartItems: `quantity` copies of a book in a user's cart. */
  datatype CartItem = CartItem(userId: Id, bookId: Id, quantity: int)

  /** A row of WishlistItems. */
  datatype WishlistItem = WishlistItem(userId: Id, bookId: Id)

  datatype OrderStatus = Pending | Paid | Shipped | Delivered | Completed | Cancelled

  /** A row of Orders. */
  datatype Order = Order(
    id: Id,
    orderNumber: string,
    customerId: Id,
    status: OrderStatus,
    subtotal: real,
    tax: real,
    shippingCost: real,
    totalAmount: real,
    billingAddressId: Id,
    shippingAddressId: Id,
    notes: string)

  /** A row of OrderItems: the price of one book as it was when the order was placed. */
  datatype OrderItem = OrderItem(orderId: Id, bookId: Id, quantity: int, unitPrice: real, totalPrice: real)

  datatype PaymentStatus = Pending | Authorized | Captured | Failed | Refunded

  /** A row of Payments. */
  datatype Payment = Payment(orderId: Id, paymentMethod: string, paymentStatus: PaymentStatus, amount: real)

  /** A row of Reviews. */
  datatype Review = Review(
    bookId: Id,
    userId: Id,
    rating: int,
    title: string,
    comment: string,
    isVerifiedPurchase: bool,
    isApproved: bool)

  /** A row of Users. `passwordHash` is whatever the password hasher produced. */
  datatype User = User(
    id: Id,
    username: string,
    email: string,
    passwordHash: string,
    firstName: string,
    lastName: string,
    roleId: Id,
    isActive: bool)

  /** A row of Roles. */
  datatype Role = Role(id: Id, name: string, description: string)

  /** A row of Categories. */
  datatype Category = Category(id: Id, name: string)

  /** A row of BookCategories: the book belongs to the category. */
  datatype BookCategory = BookCategory(bookId: Id, categoryId: Id)

  /** The errors the services report, with the HTTP status each one is sent with. */
  datatype Error =
    | AuthenticationRequired       // 401: no `Bearer ` authorization header
    | InvalidToken                 // 401: the token does not verify, or names no active user
    | CredentialsRequired          // register: username, email or password missing
    | PasswordTooShort             // register: fewer than 8 characters
    | UserExists                   // register: username or email taken
    | BookNotFound                 // 404
    | OnlyInStock(available: int)  // 400: the requested quantity exceeds the stock
    | CannotAddMore(available: int)// 400: the merged cart quantity would exceed the stock
    | CartEmpty                    // 400
    | InsufficientStock(title: string) // 400: a cart line asks for more than the stock
    | CheckoutFailed               // 500: an exception inside checkout
    | AlreadyReviewed              // 400
    | StockNegative                // 400
    | PriceNegative                // 400
    | IdRequired                   // 400
    | AmountNotPositive            // 400
}
