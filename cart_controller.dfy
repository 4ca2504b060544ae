/**
  The cart controller as the handlers run it: one shared cart-item table, the
  set of existing product ids, and the counter the table draws surrogate ids
  from. Each handler is a method that reads the table, then writes it
  (`findFirst` followed by `update`, `create` or `delete`; `deleteMany`), and
  whose new state and reply are those of the handler function in CartHandlers.
  `Valid()` is the table invariant: quantities at least 1, at most one row per
  (owner, product), unique ids below the counter.
 */
module CartController {
  import opened LineStore
  import opened CartHandlers
  import opened CartProperties

  class Cart {
    var items: seq<CartItem>
    var nextId: int
    var products: set<int>

    /** The table invariant over the cart's current rows and counter. */
    ghost predicate Valid()
      reads this
    {
      Consistent(items, nextId)
    }

    /** An empty table whose ids start at 1, over a fixed product catalogue. */
    constructor (products: set<int>)
      ensures Valid()
      ensures items == [] && nextId == 1 && this.products == products
    {
      items := [];
      nextId := 1;
      this.products := products;
    }

    /** getCart: a read with no write. */
    method GetCart(user: Option<int>) returns (r: Reply)
      requires Valid()
      ensures r == CartHandlers.GetCart(items, user)
      ensures !Authenticated(user) ==> r == Failed(Unauthorized)
      ensures Authenticated(user) ==> r.Lines? && forall x :: x in r.items <==> x in items && x.userId == user.value
      ensures Authenticated(user) ==>
                forall x :: multiset(r.items)[x] == if x.userId == user.value then multiset(items)[x] else 0
      ensures Authenticated(user) ==> forall x :: x in r.items ==> multiset(r.items)[x] == 1
    {
      if !Authenticated(user) {
        return Failed(Unauthorized);
      }
      GetCartSemantics(items, nextId, user.value);
      r := Lines(FindMany(items, ByOwner(user.value)));
    }

    /** addToCart: update the caller's row for the product in place, or append a
        new row with the next id. */
    method AddToCart(user: Option<int>, productId: Option<int>, quantity: Option<int>) returns (r: Reply)
      requires Valid()
      modifies this`items, this`nextId
      ensures Valid()
      ensures Outcome(r, items, nextId) == CartHandlers.AddToCart(old(items), old(nextId), products, user, productId, quantity)
    {
      AddToCartSemantics(items, nextId, products, user, productId, quantity);
      if !Authenticated(user) {
        return Failed(Unauthorized);
      }
      if InvalidBody(productId, quantity) {
        return Failed(BadRequest);
      }
      var u, p, q := user.value, productId.value, quantity.value;
      if p !in products {
        return Failed(NotFound);
      }
      var existing := FindFirst(items, ByLine(u, p));
      if existing.Some? {
        var item := items[existing.value];
        items := UpdateMany(items, ById(item.id), item.quantity + q);
        r := Line(item.(quantity := item.quantity + q));
      } else {
        r := Line(CartItem(nextId, u, p, q));
        items := items + [r.item];
        nextId := nextId + 1;
      }
    }

    /** decreaseQuantity: store the positive remainder in the caller's row, or
        delete the row when nothing would be left. */
    method DecreaseQuantity(user: Option<int>, productId: Option<int>, quantity: Option<int>) returns (r: Reply)
      requires Valid()
      modifies this`items
      ensures Valid()
      ensures Outcome(r, items, nextId) == CartHandlers.DecreaseQuantity(old(items), nextId, user, productId, quantity)
    {
      DecreaseQuantitySemantics(items, nextId, user, productId, quantity);
      if !Authenticated(user) {
        return Failed(Unauthorized);
      }
      if InvalidBody(productId, quantity) {
        return Failed(BadRequest);
      }
      var u, p, q := user.value, productId.value, quantity.value;
      var found := FindFirst(items, ByLine(u, p));
      if found.None? {
        return Failed(NotFound);
      }
      var item := items[found.value];
      var newQuantity := item.quantity - q;
      if newQuantity > 0 {
        items := UpdateMany(items, ById(item.id), newQuantity);
        r := Line(item.(quantity := newQuantity));
      } else {
        items := DeleteMany(items, ById(item.id));
        r := Emptied(p, 0);
      }
    }

    /** increaseQuantity: raise the quantity of the caller's row in place. */
    method IncreaseQuantity(user: Option<int>, productId: Option<int>, quantity: Option<int>) returns (r: Reply)
      requires Valid()
      modifies this`items
      ensures Valid()
      ensures Outcome(r, items, nextId) == CartHandlers.IncreaseQuantity(old(items), nextId, user, productId, quantity)
    {
      IncreaseQuantitySemantics(items, nextId, user, productId, quantity);
      if !Authenticated(user) {
        return Failed(Unauthorized);
      }
      if InvalidBody(productId, quantity) {
        return Failed(BadRequest);
      }
      var u, p, q := user.value, productId.value, quantity.value;
      var found := FindFirst(items, ByLine(u, p));
      if found.None? {
        return Failed(NotFound);
      }
      var item := items[found.value];
      items := UpdateMany(items, ById(item.id), item.quantity + q);
      r := Line(item.(quantity := item.quantity + q));
    }

    /** removeFromCart as written: the row is found by product id alone. */
    method RemoveFromCart(user: Option<int>, productId: Option<int>) returns (r: Reply)
      requires Valid()
      modifies this`items
      ensures Valid()
      ensures Outcome(r, items, nextId) == CartHandlers.RemoveFromCart(old(items), nextId, user, productId)
    {
      if !Authenticated(user) {
        return Failed(Unauthorized);
      }
      if productId.None? || productId.value == 0 {
        return Failed(BadRequest);
      }
      var p := productId.value;
      var found := FindFirst(items, ByProduct(p));
      if found.None? {
        return Failed(NotFound);
      }
      DeleteManyConsistent(items, ById(items[found.value].id), nextId);
      items := DeleteMany(items, ById(items[found.value].id));
      r := Removed(p);
    }

    /** Corrected removal: the row is found by owner and product. */
    method RemoveOwnFromCart(user: Option<int>, productId: Option<int>) returns (r: Reply)
      requires Valid()
      modifies this`items
      ensures Valid()
      ensures Outcome(r, items, nextId) == CartHandlers.RemoveOwnFromCart(old(items), nextId, user, productId)
    {
      if !Authenticated(user) {
        return Failed(Unauthorized);
      }
      if productId.None? || productId.value == 0 {
        return Failed(BadRequest);
      }
      var u, p := user.value, productId.value;
      var found := FindFirst(items, ByLine(u, p));
      if found.None? {
        return Failed(NotFound);
      }
      DeleteManyConsistent(items, ById(items[found.value].id), nextId);
      items := DeleteMany(items, ById(items[found.value].id));
      r := Removed(p);
    }

    /** deleteAll: drop every row of the caller. */
    method DeleteAll(user: Option<int>) returns (r: Reply)
      requires Valid()
      modifies this`items
      ensures Valid()
      ensures Outcome(r, items, nextId) == CartHandlers.DeleteAll(old(items), nextId, user)
    {
      if !Authenticated(user) {
        return Failed(Unauthorized);
      }
      DeleteManyConsistent(items, ByOwner(user.value), nextId);
      items := DeleteMany(items, ByOwner(user.value));
      r := Cleared;
    }
  }

  /** A client that sees only the method contracts: two adds coalesce into one
      row, and a decrease by the whole quantity removes it. */
  method CoalesceThenDrain(u: int, p: int)
    requires u != 0 && p != 0
  {
    var cart := new Cart({p});
    var r1 := cart.AddToCart(Some(u), Some(p), Some(3));
    var r2 := cart.AddToCart(Some(u), Some(p), Some(2));
    assert r2 == Line(CartItem(1, u, p, 5));
    var r3 := cart.DecreaseQuantity(Some(u), Some(p), Some(5));
    assert r3 == Emptied(p, 0) && cart.items == [];
    var r4 := cart.IncreaseQuantity(Some(u), Some(p), Some(1));
    assert r4 == Failed(NotFound);
  }
}
