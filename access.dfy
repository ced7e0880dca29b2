/**
 * The access rules of the user service: the `Bearer` header gate run before
 * every event except login and register, the resolution of a verified token
 * to an active user, registration, and the row filters that restrict what a
 * caller may read.
 */
module Access {
  import opened Wrappers
  import opened Schema
  import opened Store
  import Query

  const BearerPrefix: string := "Bearer "

  /** What the gate decides before the token itself is verified. */
  datatype GateDecision = Skip | Reject(error: Error) | VerifyToken(token: string)

  /**
   * The gate: `login` and `register` pass; otherwise the `authorization`
   * header must start with `Bearer `, and what follows those seven characters
   * is the token to verify.
   */
  function AuthGate(event: string, authorization: Option<string>): (d: GateDecision)
    ensures d.Skip? <==> event == "login" || event == "register"
    ensures d.Reject? ==> d.error == AuthenticationRequired
    ensures !d.Skip? ==> (d.VerifyToken? <==> authorization.Some? && BearerPrefix <= authorization.value)
    ensures d.VerifyToken? ==> authorization == Some(BearerPrefix + d.token)
  {
    if event == "login" || event == "register" then Skip
    else if authorization.None? || !(BearerPrefix <= authorization.value) then Reject(AuthenticationRequired)
    else
      var header := authorization.value;
      assert header[..7] == BearerPrefix;
      assert BearerPrefix + header[7..] == header;
      VerifyToken(header[7..])
  }

  /** A header built from a token gives that token back to verify. */
  lemma GateRoundTrip(event: string, token: string)
    requires event != "login" && event != "register"
    ensures AuthGate(event, Some(BearerPrefix + token)) == VerifyToken(token)
  {
    assert (BearerPrefix + token)[7..] == token;
  }

  /** The claims a verified token carries. */
  datatype Claims = Claims(userId: Id, username: string, role: string)

  /** The position of the first active user with this ID, if any. */
  function FindActiveUser(users: seq<User>, id: Id): (r: Option<nat>)
    ensures r.Some? ==> r.value < |users| && users[r.value].id == id && users[r.value].isActive
    ensures r.None? <==> forall i :: 0 <= i < |users| ==> !(users[i].id == id && users[i].isActive)
  {
    if users == [] then None
    else if users[0].id == id && users[0].isActive then Some(0)
    else match FindActiveUser(users[1..], id)
      case Some(i) => Some(i + 1)
      case None => None
  }

  /**
   * After the gate: `decoded` is what token verification produced (None when
   * it threw). The request proceeds only for an active user with the claimed ID.
   * The "Invalid or expired token" rejection for a missing user is raised
   * inside the same `try` as the verification, so its `catch` turns it into
   * "Invalid token" as well.
   */
  function ResolveUser(decoded: Option<Claims>, users: seq<User>): (r: Result<User, Error>)
    ensures decoded.None? ==> r == Err(InvalidToken)
    ensures decoded.Some? ==>
      (r.Ok? <==> exists i :: 0 <= i < |users| && users[i].id == decoded.value.userId && users[i].isActive)
    ensures r.Err? ==> r.error == InvalidToken
    ensures r.Ok? ==> r.value in users && r.value.isActive && r.value.id == decoded.value.userId
  {
    match decoded
    case None => Err(InvalidToken)
    case Some(claims) =>
      match FindActiveUser(users, claims.userId)
      case None => Err(InvalidToken)
      case Some(i) => Ok(users[i])
  }

  /** The body of a `register` request; an absent field is None. */
  datatype Registration = Registration(
    username: Option<string>,
    email: Option<string>,
    password: Option<string>,
    firstName: Option<string>,
    lastName: Option<string>)

  /** A JavaScript-truthy string: present and not empty. */
  predicate Given(s: Option<string>) {
    s.Some? && s.value != ""
  }

  /** Some user, active or not, already has this username or this email. */
  predicate Taken(users: seq<User>, username: string, email: string) {
    exists i :: 0 <= i < |users| && (users[i].username == username || users[i].email == email)
  }

  /** The checks of `register`, in order: required fields, password length, uniqueness. */
  function RegisterCheck(req: Registration, users: seq<User>): (e: Option<Error>)
    ensures e.None? <==>
      Given(req.username) && Given(req.email) && Given(req.password)
      && |req.password.value| >= 8 && !Taken(users, req.username.value, req.email.value)
    ensures e == Some(CredentialsRequired) <==> !(Given(req.username) && Given(req.email) && Given(req.password))
    ensures e == Some(PasswordTooShort) <==>
      Given(req.username) && Given(req.email) && Given(req.password) && |req.password.value| < 8
    ensures e == Some(UserExists) <==>
      Given(req.username) && Given(req.email) && Given(req.password) && |req.password.value| >= 8
      && Taken(users, req.username.value, req.email.value)
  {
    if !(Given(req.username) && Given(req.email) && Given(req.password)) then Some(CredentialsRequired)
    else if |req.password.value| < 8 then Some(PasswordTooShort)
    else if Taken(users, req.username.value, req.email.value) then Some(UserExists)
    else None
  }

  /** The position of the first role named `Customer`, if any. */
  function FindCustomerRole(roles: seq<Role>): (r: Option<nat>)
    ensures r.Some? ==> r.value < |roles| && roles[r.value].name == "Customer"
    ensures r.None? <==> forall i :: 0 <= i < |roles| ==> roles[i].name != "Customer"
  {
    if roles == [] then None
    else if roles[0].name == "Customer" then Some(0)
    else match FindCustomerRole(roles[1..])
      case Some(i) => Some(i + 1)
      case None => None
  }

  /**
   * `register`. `userId` and `newRoleId` are fresh UUIDs and `passwordHash`
   * is the hash of the password. A failed check writes nothing; otherwise the
   * Customer role is created when missing and an active user is appended.
   */
  method Register(db: Database, req: Registration, userId: Id, newRoleId: Id, passwordHash: string)
    returns (r: Result<User, Error>)
    requires db.Valid()
    modifies db
    ensures db.Valid()
    ensures r.Err? <==> old(RegisterCheck(req, db.users)).Some?
    ensures r.Err? ==> r.error == old(RegisterCheck(req, db.users)).value
                       && db.users == old(db.users) && db.roles == old(db.roles)
    ensures r.Ok? ==>
      var found := FindCustomerRole(old(db.roles));
      var roleId := if found.Some? then old(db.roles)[found.value].id else newRoleId;
      && db.roles == (if found.Some? then old(db.roles) else old(db.roles) + [Role(newRoleId, "Customer", "Regular customer")])
      && r.value == User(userId, req.username.value, req.email.value, passwordHash,
                         req.firstName.GetOr(""), req.lastName.GetOr(""), roleId, true)
      && db.users == old(db.users) + [r.value]
    ensures r.Ok? ==> !old(Taken(db.users, r.value.username, r.value.email))
    ensures db.books == old(db.books) && db.cartItems == old(db.cartItems) && db.orders == old(db.orders)
    ensures db.orderItems == old(db.orderItems) && db.payments == old(db.payments) && db.reviews == old(db.reviews)
  {
    var check := RegisterCheck(req, db.users);
    if check.Some? {
      return Err(check.value);
    }
    var found := FindCustomerRole(db.roles);
    var roleId;
    if found.Some? {
      roleId := db.roles[found.value].id;
    } else {
      db.roles := db.roles + [Role(newRoleId, "Customer", "Regular customer")];
      roleId := newRoleId;
    }
    var user := User(userId, req.username.value, req.email.value, passwordHash,
                     req.firstName.GetOr(""), req.lastName.GetOr(""), roleId, true);
    db.users := db.users + [user];
    r := Ok(user);
  }

  /** The authenticated caller of a request. */
  datatype Caller = Caller(userId: Id, role: string)

  /** The Users rows a caller may read: all of them for an Admin, else only their own. */
  function VisibleUsers(users: seq<User>, caller: Caller): (r: seq<User>)
    ensures caller.role == "Admin" ==> r == users
    ensures caller.role != "Admin" ==> forall u :: u in r <==> u in users && u.id == caller.userId
  {
    if caller.role == "Admin" then users else Query.Where(users, (u: User) => u.id == caller.userId)
  }

  /** The CartItems rows a caller may read: their own, whatever their role. */
  function VisibleCartItems(cart: seq<CartItem>, caller: Caller): (r: seq<CartItem>)
    ensures forall l :: l in r <==> l in cart && l.userId == caller.userId
  {
    Query.Where(cart, (l: CartItem) => l.userId == caller.userId)
  }

  /** The WishlistItems rows a caller may read: their own, whatever their role. */
  function VisibleWishlistItems(items: seq<WishlistItem>, caller: Caller): (r: seq<WishlistItem>)
    ensures forall w :: w in r <==> w in items && w.userId == caller.userId
  {
    Query.Where(items, (w: WishlistItem) => w.userId == caller.userId)
  }

  /** The Orders rows a caller may read: all of them for an Admin, else the ones they placed. */
  function VisibleOrders(orders: seq<Order>, caller: Caller): (r: seq<Order>)
    ensures caller.role == "Admin" ==> r == orders
    ensures caller.role != "Admin" ==> forall o :: o in r <==> o in orders && o.customerId == caller.userId
  {
    if caller.role == "Admin" then orders else Query.Where(orders, (o: Order) => o.customerId == caller.userId)
  }
}
