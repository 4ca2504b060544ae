/**
  The six cart handlers as functions from the table before a request to the
  reply and the table after it. Each one follows the handler's order of checks:
  authentication (401), input validation (400), lookup (404), then the write.

  The request inputs are what the handler reads: the authenticated user id
  (`req.user?.id`), the body fields `productId` and `quantity`, and for removal
  the route parameter after `parseInt`. A missing value, or NaN from `parseInt`,
  is `None`; JavaScript treats `0` as missing too, and so do these functions.
 */
module CartHandlers {
  import opened LineStore

  datatype Failure = Unauthorized | BadRequest | NotFound

  /** The JSON body of a reply, or the failure behind an error status. */
  datatype Reply =
    | Lines(items: seq<CartItem>)                  // getCart: the caller's rows
    | Line(item: CartItem)                         // add / increase / decrease: the row as stored
    | Emptied(productId: int, quantity: int)       // decrease through zero: `{ productId, quantity: 0 }`
    | Removed(productId: int)                      // removeFromCart: `{ message, productId }`
    | Cleared                                      // deleteAll: `{ message }`
    | Failed(failure: Failure)

  /** The HTTP status the handler sends with the reply. */
  function Status(r: Reply): (code: int)
    ensures code == 200 <==> !r.Failed?
    ensures code == 401 <==> r == Failed(Unauthorized)
    ensures code == 400 <==> r == Failed(BadRequest)
    ensures code == 404 <==> r == Failed(NotFound)
  {
    match r
    case Failed(Unauthorized) => 401
    case Failed(BadRequest) => 400
    case Failed(NotFound) => 404
    case _ => 200
  }

  /** Reply and table (rows and next surrogate id) after one request. */
  datatype Outcome = Outcome(reply: Reply, items: seq<CartItem>, nextId: int)

  /** `!userId` is false: there is a user id and it is not 0. */
  predicate Authenticated(user: Option<int>) {
    user.Some? && user.value != 0
  }

  /** The guard `!productId || !quantity || quantity < 1`. */
  predicate InvalidBody(productId: Option<int>, quantity: Option<int>) {
    productId.None? || productId.value == 0 || quantity.None? || quantity.value == 0 || quantity.value < 1
  }

  /** `getCart`: the caller's rows, with no write. */
  function GetCart(s: seq<CartItem>, user: Option<int>): (r: Reply)
    ensures !Authenticated(user) <==> r == Failed(Unauthorized)
    ensures Authenticated(user) ==> r.Lines? && forall x :: x in r.items <==> x in s && x.userId == user.value
  {
    if !Authenticated(user) then Failed(Unauthorized)
    else Lines(FindMany(s, ByOwner(user.value)))
  }

  /** `addToCart`: coalesce into the caller's row for the product, or create one. */
  function AddToCart(s: seq<CartItem>, nextId: int, products: set<int>,
                     user: Option<int>, productId: Option<int>, quantity: Option<int>): (o: Outcome)
    ensures o.reply.Failed? ==> o.items == s && o.nextId == nextId
    ensures !Authenticated(user) ==> o.reply == Failed(Unauthorized)
    ensures Authenticated(user) && InvalidBody(productId, quantity) ==> o.reply == Failed(BadRequest)
    ensures Authenticated(user) && !InvalidBody(productId, quantity) ==>
              (o.reply == Failed(NotFound) <==> productId.value !in products)
    ensures o.reply.Line? ==> o.reply.item.userId == user.value && o.reply.item.productId == productId.value
  {
    if !Authenticated(user) then Outcome(Failed(Unauthorized), s, nextId)
    else if InvalidBody(productId, quantity) then Outcome(Failed(BadRequest), s, nextId)
    else
      var u, p, q := user.value, productId.value, quantity.value;
      if p !in products then Outcome(Failed(NotFound), s, nextId)
      else match FindFirst(s, ByLine(u, p))
        case Some(i) =>
          var updated := s[i].(quantity := s[i].quantity + q);
          Outcome(Line(updated), UpdateMany(s, ById(s[i].id), updated.quantity), nextId)
        case None =>
          var created := CartItem(nextId, u, p, q);
          Outcome(Line(created), s + [created], nextId + 1)
  }

  /** `increaseQuantity`: add to the caller's existing row for the product. */
  function IncreaseQuantity(s: seq<CartItem>, nextId: int,
                            user: Option<int>, productId: Option<int>, quantity: Option<int>): (o: Outcome)
    ensures o.reply.Failed? ==> o.items == s
    ensures o.nextId == nextId
    ensures !Authenticated(user) ==> o.reply == Failed(Unauthorized)
    ensures Authenticated(user) && InvalidBody(productId, quantity) ==> o.reply == Failed(BadRequest)
    ensures Authenticated(user) && !InvalidBody(productId, quantity) ==>
              (o.reply == Failed(NotFound) <==> forall j :: 0 <= j < |s| ==> !Matches(ByLine(user.value, productId.value), s[j]))
    ensures o.reply.Line? ==> o.reply.item.userId == user.value && o.reply.item.productId == productId.value
  {
    if !Authenticated(user) then Outcome(Failed(Unauthorized), s, nextId)
    else if InvalidBody(productId, quantity) then Outcome(Failed(BadRequest), s, nextId)
    else
      var u, p, q := user.value, productId.value, quantity.value;
      match FindFirst(s, ByLine(u, p))
      case None => Outcome(Failed(NotFound), s, nextId)
      case Some(i) =>
        var updated := s[i].(quantity := s[i].quantity + q);
        Outcome(Line(updated), UpdateMany(s, ById(s[i].id), updated.quantity), nextId)
  }

  /** `decreaseQuantity`: subtract from the caller's row; at zero or below the row is deleted. */
  function DecreaseQuantity(s: seq<CartItem>, nextId: int,
                            user: Option<int>, productId: Option<int>, quantity: Option<int>): (o: Outcome)
    ensures o.reply.Failed? ==> o.items == s
    ensures o.nextId == nextId
    ensures !Authenticated(user) ==> o.reply == Failed(Unauthorized)
    ensures Authenticated(user) && InvalidBody(productId, quantity) ==> o.reply == Failed(BadRequest)
    ensures Authenticated(user) && !InvalidBody(productId, quantity) ==>
              (o.reply == Failed(NotFound) <==> forall j :: 0 <= j < |s| ==> !Matches(ByLine(user.value, productId.value), s[j]))
    ensures o.reply.Line? ==> o.reply.item.userId == user.value && o.reply.item.productId == productId.value
    ensures o.reply.Line? ==> o.reply.item.quantity > 0
    ensures o.reply.Emptied? ==> o.reply == Emptied(productId.value, 0)
  {
    if !Authenticated(user) then Outcome(Failed(Unauthorized), s, nextId)
    else if InvalidBody(productId, quantity) then Outcome(Failed(BadRequest), s, nextId)
    else
      var u, p, q := user.value, productId.value, quantity.value;
      match FindFirst(s, ByLine(u, p))
      case None => Outcome(Failed(NotFound), s, nextId)
      case Some(i) =>
        var newQuantity := s[i].quantity - q;
        if newQuantity > 0 then
          var updated := s[i].(quantity := newQuantity);
          Outcome(Line(updated), UpdateMany(s, ById(s[i].id), newQuantity), nextId)
        else
          Outcome(Emptied(p, 0), DeleteMany(s, ById(s[i].id)), nextId)
  }

  /** `removeFromCart` as written: the row is looked up by product id alone. */
  function RemoveFromCart(s: seq<CartItem>, nextId: int, user: Option<int>, productId: Option<int>): (o: Outcome)
    ensures o.reply.Failed? ==> o.items == s
    ensures o.nextId == nextId
    ensures !Authenticated(user) ==> o.reply == Failed(Unauthorized)
    ensures Authenticated(user) && (productId.None? || productId.value == 0) ==> o.reply == Failed(BadRequest)
    ensures Authenticated(user) && productId.Some? && productId.value != 0 ==>
              (o.reply == Failed(NotFound) <==> forall j :: 0 <= j < |s| ==> s[j].productId != productId.value)
    ensures o.reply.Removed? ==> o.reply.productId == productId.value
  {
    if !Authenticated(user) then Outcome(Failed(Unauthorized), s, nextId)
    else if productId.None? || productId.value == 0 then Outcome(Failed(BadRequest), s, nextId)
    else
      var p := productId.value;
      match FindFirst(s, ByProduct(p))
      case None => Outcome(Failed(NotFound), s, nextId)
      case Some(i) =>
        Outcome(Removed(p), DeleteMany(s, ById(s[i].id)), nextId)
  }

  /** Corrected removal: the lookup is scoped by owner and product. */
  function RemoveOwnFromCart(s: seq<CartItem>, nextId: int, user: Option<int>, productId: Option<int>): (o: Outcome)
    ensures o.reply.Failed? ==> o.items == s
    ensures o.nextId == nextId
    ensures !Authenticated(user) ==> o.reply == Failed(Unauthorized)
    ensures Authenticated(user) && (productId.None? || productId.value == 0) ==> o.reply == Failed(BadRequest)
    ensures Authenticated(user) && productId.Some? && productId.value != 0 ==>
              (o.reply == Failed(NotFound) <==> forall j :: 0 <= j < |s| ==> !Matches(ByLine(user.value, productId.value), s[j]))
    ensures o.reply.Removed? ==> o.reply.productId == productId.value
  {
    if !Authenticated(user) then Outcome(Failed(Unauthorized), s, nextId)
    else if productId.None? || productId.value == 0 then Outcome(Failed(BadRequest), s, nextId)
    else
      var u, p := user.value, productId.value;
      match FindFirst(s, ByLine(u, p))
      case None => Outcome(Failed(NotFound), s, nextId)
      case Some(i) =>
        Outcome(Removed(p), DeleteMany(s, ById(s[i].id)), nextId)
  }

  /** `deleteAll`: drop every row of the caller. */
  function DeleteAll(s: seq<CartItem>, nextId: int, user: Option<int>): (o: Outcome)
    ensures o.nextId == nextId
    ensures !Authenticated(user) <==> o.reply == Failed(Unauthorized)
    ensures !Authenticated(user) ==> o.items == s
    ensures Authenticated(user) ==> o.reply == Cleared && forall x :: x in o.items <==> x in s && x.userId != user.value
  {
    if !Authenticated(user) then Outcome(Failed(Unauthorized), s, nextId)
    else Outcome(Cleared, DeleteMany(s, ByOwner(user.value)), nextId)
  }
}
