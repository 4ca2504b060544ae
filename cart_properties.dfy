/**
  What the cart handlers promise, stated on the abstract views `Qty` and `View`
  of the table (the quantity per owner and product): each handler keeps the
  table invariant (quantities at least 1, at most one row per line, fresh ids), and
  its effect on `View` is one key set, one key removed (for the as-written
  removal, possibly another owner's), or one owner's keys removed. The
  multi-request properties follow from these.
 */
module CartProperties {
  import opened LineStore
  import opened CartHandlers

  /** A request that passed authentication and validation, for the caller's line. */
  predicate Accepted(user: Option<int>, productId: Option<int>, quantity: Option<int>) {
    Authenticated(user) && !InvalidBody(productId, quantity)
  }

  /** `getCart` for a signed-in caller lists each of the caller's rows exactly once
      and no row of any other owner. */
  lemma GetCartSemantics(s: seq<CartItem>, nextId: int, u: int)
    requires Consistent(s, nextId)
    requires u != 0
    ensures var r := GetCart(s, Some(u));
            && r.Lines?
            && (forall x :: multiset(r.items)[x] == if x.userId == u then multiset(s)[x] else 0)
            && (forall x :: x in r.items ==> multiset(r.items)[x] == 1)
  {
    FindManyCount(s, ByOwner(u));
    CountOnce(s, nextId);
  }

  /** `addToCart`: the line's quantity grows by q, a row is created only when the
      line was absent, and no other line changes. */
  lemma AddToCartSemantics(s: seq<CartItem>, nextId: int, products: set<int>,
                           user: Option<int>, productId: Option<int>, quantity: Option<int>)
    requires Consistent(s, nextId)
    ensures var o := AddToCart(s, nextId, products, user, productId, quantity);
            Consistent(o.items, o.nextId)
    ensures var o := AddToCart(s, nextId, products, user, productId, quantity);
            Accepted(user, productId, quantity) && productId.value in products ==>
              var u, p, q := user.value, productId.value, quantity.value;
              && o.reply.Line?
              && o.reply.item.quantity == Qty(s, u, p) + q
              && View(o.items) == View(s)[(u, p) := Qty(s, u, p) + q]
              && FindMany(o.items, ByLine(u, p)) == [o.reply.item]
              && (Qty(s, u, p) == 0 ==>
                    o.reply.item == CartItem(nextId, u, p, q) && o.items == s + [o.reply.item] && o.nextId == nextId + 1)
              && (Qty(s, u, p) > 0 ==>
                    var i := FindFirst(s, ByLine(u, p)).value;
                    && FindMany(s, ByLine(u, p)) == [o.reply.item.(quantity := Qty(s, u, p))]
                    && o.items == s[i := s[i].(quantity := Qty(s, u, p) + q)]
                    && o.reply == Line(o.items[i])
                    && o.nextId == nextId)
  {
    if Accepted(user, productId, quantity) && productId.value in products {
      var u, p, q := user.value, productId.value, quantity.value;
      match FindFirst(s, ByLine(u, p))
      case Some(i) =>
        AddToExistingLine(s, nextId, products, u, p, q, i);
        AddToExistingRow(s, nextId, products, u, p, q, i);
      case None => AddToAbsentLine(s, nextId, products, u, p, q);
    }
  }

  /** addToCart when the caller already holds the line: the row is updated in place. */
  lemma AddToExistingLine(s: seq<CartItem>, nextId: int, products: set<int>, u: int, p: int, q: int, i: nat)
    requires Consistent(s, nextId)
    requires u != 0 && p != 0 && q >= 1 && p in products
    requires FindFirst(s, ByLine(u, p)) == Some(i)
    ensures var o := AddToCart(s, nextId, products, Some(u), Some(p), Some(q));
            && Consistent(o.items, o.nextId)
            && Qty(s, u, p) > 0
            && o.reply.Line?
            && o.reply.item.quantity == Qty(s, u, p) + q
            && View(o.items) == View(s)[(u, p) := Qty(s, u, p) + q]
            && o.items == s[i := s[i].(quantity := Qty(s, u, p) + q)]
            && o.reply == Line(o.items[i])
            && o.nextId == nextId
  {
    AddAt(s, nextId, products, u, p, q, i);
    RowAt(s, nextId, i);
    SetLine(s, nextId, i, u, p, s[i].quantity + q);
  }

  /** addToCart when the caller already holds the line: the reply is the caller's
      old row, same id, with the raised quantity, and it stays the line's only row. */
  lemma AddToExistingRow(s: seq<CartItem>, nextId: int, products: set<int>, u: int, p: int, q: int, i: nat)
    requires Consistent(s, nextId)
    requires u != 0 && p != 0 && q >= 1 && p in products
    requires FindFirst(s, ByLine(u, p)) == Some(i)
    ensures var o := AddToCart(s, nextId, products, Some(u), Some(p), Some(q));
            && o.reply.Line?
            && FindMany(o.items, ByLine(u, p)) == [o.reply.item]
            && FindMany(s, ByLine(u, p)) == [o.reply.item.(quantity := Qty(s, u, p))]
  {
    AddAt(s, nextId, products, u, p, q, i);
    RowAt(s, nextId, i);
    SetLineRows(s, nextId, i, u, p, s[i].quantity + q);
  }

  /** The accepted add for a present line, unfolded: the row of line (u, p) is updated by id. */
  lemma AddAt(s: seq<CartItem>, nextId: int, products: set<int>, u: int, p: int, q: int, i: nat)
    requires u != 0 && p != 0 && q >= 1 && p in products
    requires FindFirst(s, ByLine(u, p)) == Some(i)
    ensures s[i].userId == u && s[i].productId == p
    ensures AddToCart(s, nextId, products, Some(u), Some(p), Some(q))
            == Outcome(Line(s[i].(quantity := s[i].quantity + q)), UpdateMany(s, ById(s[i].id), s[i].quantity + q), nextId)
  {
  }

  /** addToCart when the caller does not hold the line: one row is created with the next id. */
  lemma AddToAbsentLine(s: seq<CartItem>, nextId: int, products: set<int>, u: int, p: int, q: int)
    requires Consistent(s, nextId)
    requires u != 0 && p != 0 && q >= 1 && p in products
    requires FindFirst(s, ByLine(u, p)).None?
    ensures var o := AddToCart(s, nextId, products, Some(u), Some(p), Some(q));
            && Consistent(o.items, o.nextId)
            && Qty(s, u, p) == 0
            && o.reply.Line?
            && o.reply.item.quantity == q
            && View(o.items) == View(s)[(u, p) := q]
            && FindMany(o.items, ByLine(u, p)) == [o.reply.item]
            && o.reply.item == CartItem(nextId, u, p, q) && o.items == s + [o.reply.item] && o.nextId == nextId + 1
  {
    NewLine(s, nextId, u, p, q);
    NewLineRows(s, nextId, u, p, q);
  }

  /** Two adds of the same product by the same owner leave one row holding the sum. */
  lemma AddTwiceCoalesces(s: seq<CartItem>, nextId: int, products: set<int>, u: int, p: int, q1: int, q2: int)
    requires Consistent(s, nextId)
    requires u != 0 && p != 0 && p in products && q1 >= 1 && q2 >= 1
    ensures var o1 := AddToCart(s, nextId, products, Some(u), Some(p), Some(q1));
            var o2 := AddToCart(o1.items, o1.nextId, products, Some(u), Some(p), Some(q2));
            && o2.reply.Line? && o2.reply.item.id == o1.reply.item.id
            && FindMany(o2.items, ByLine(u, p)) == [o2.reply.item]
            && o2.reply.item.quantity == Qty(s, u, p) + q1 + q2
  {
    var o1 := AddToCart(s, nextId, products, Some(u), Some(p), Some(q1));
    AddToCartSemantics(s, nextId, products, Some(u), Some(p), Some(q1));
    QtyZeroIffAbsent(s, nextId, u, p);
    ViewLookup(o1.items, u, p);
    AddToCartSemantics(o1.items, o1.nextId, products, Some(u), Some(p), Some(q2));
  }

  /** `increaseQuantity`: 404 and no change when the line is absent; otherwise the
      line grows by q and no other line changes. */
  lemma IncreaseQuantitySemantics(s: seq<CartItem>, nextId: int,
                                  user: Option<int>, productId: Option<int>, quantity: Option<int>)
    requires Consistent(s, nextId)
    ensures var o := IncreaseQuantity(s, nextId, user, productId, quantity);
            Consistent(o.items, o.nextId)
    ensures var o := IncreaseQuantity(s, nextId, user, productId, quantity);
            Accepted(user, productId, quantity) ==>
              var u, p, q := user.value, productId.value, quantity.value;
              && (Qty(s, u, p) == 0 ==> o == Outcome(Failed(NotFound), s, nextId))
              && (Qty(s, u, p) > 0 ==>
                    var i := FindFirst(s, ByLine(u, p)).value;
                    && o.reply.Line?
                    && o.reply.item.quantity == Qty(s, u, p) + q
                    && View(o.items) == View(s)[(u, p) := Qty(s, u, p) + q]
                    && o.items == s[i := s[i].(quantity := Qty(s, u, p) + q)]
                    && o.reply == Line(o.items[i])
                    && FindMany(o.items, ByLine(u, p)) == [o.reply.item])
  {
    if Accepted(user, productId, quantity) {
      var u, p, q := user.value, productId.value, quantity.value;
      match FindFirst(s, ByLine(u, p))
      case Some(i) =>
        IncreaseExistingLine(s, nextId, u, p, q, i);
        IncreaseExistingRow(s, nextId, u, p, q, i);
      case None =>
    }
  }

  /** increaseQuantity on a line the caller holds: its row is updated in place to old + q. */
  lemma IncreaseExistingLine(s: seq<CartItem>, nextId: int, u: int, p: int, q: int, i: nat)
    requires Consistent(s, nextId)
    requires u != 0 && p != 0 && q >= 1
    requires FindFirst(s, ByLine(u, p)) == Some(i)
    ensures var o := IncreaseQuantity(s, nextId, Some(u), Some(p), Some(q));
            && Consistent(o.items, o.nextId)
            && Qty(s, u, p) > 0
            && o.reply.Line?
            && o.reply.item.quantity == Qty(s, u, p) + q
            && View(o.items) == View(s)[(u, p) := Qty(s, u, p) + q]
            && o.items == s[i := s[i].(quantity := Qty(s, u, p) + q)]
            && o.reply == Line(o.items[i])
  {
    IncreaseAt(s, nextId, u, p, q, i);
    RowAt(s, nextId, i);
    SetLine(s, nextId, i, u, p, s[i].quantity + q);
  }

  /** increaseQuantity on a line the caller holds: the reply is the line's only row. */
  lemma IncreaseExistingRow(s: seq<CartItem>, nextId: int, u: int, p: int, q: int, i: nat)
    requires Consistent(s, nextId)
    requires u != 0 && p != 0 && q >= 1
    requires FindFirst(s, ByLine(u, p)) == Some(i)
    ensures var o := IncreaseQuantity(s, nextId, Some(u), Some(p), Some(q));
            o.reply.Line? && FindMany(o.items, ByLine(u, p)) == [o.reply.item]
  {
    IncreaseAt(s, nextId, u, p, q, i);
    RowAt(s, nextId, i);
    SetLineRows(s, nextId, i, u, p, s[i].quantity + q);
  }

  /** The accepted increase for a present line, unfolded: the row of line (u, p) is updated by id. */
  lemma IncreaseAt(s: seq<CartItem>, nextId: int, u: int, p: int, q: int, i: nat)
    requires u != 0 && p != 0 && q >= 1
    requires FindFirst(s, ByLine(u, p)) == Some(i)
    ensures s[i].userId == u && s[i].productId == p
    ensures IncreaseQuantity(s, nextId, Some(u), Some(p), Some(q))
            == Outcome(Line(s[i].(quantity := s[i].quantity + q)), UpdateMany(s, ById(s[i].id), s[i].quantity + q), nextId)
  {
  }

  /** `decreaseQuantity`: 404 and no change when the line is absent; otherwise the
      line keeps old - q when that is positive, and is deleted (reply
      `{ productId, quantity: 0 }`) when it is not; no other line changes. */
  lemma DecreaseQuantitySemantics(s: seq<CartItem>, nextId: int,
                                  user: Option<int>, productId: Option<int>, quantity: Option<int>)
    requires Consistent(s, nextId)
    ensures var o := DecreaseQuantity(s, nextId, user, productId, quantity);
            Consistent(o.items, o.nextId)
    ensures var o := DecreaseQuantity(s, nextId, user, productId, quantity);
            Accepted(user, productId, quantity) ==>
              var u, p, q := user.value, productId.value, quantity.value;
              && (Qty(s, u, p) == 0 ==> o == Outcome(Failed(NotFound), s, nextId))
              && (Qty(s, u, p) - q > 0 ==>
                    var i := FindFirst(s, ByLine(u, p)).value;
                    && o.reply.Line?
                    && o.reply.item.quantity == Qty(s, u, p) - q
                    && View(o.items) == View(s)[(u, p) := Qty(s, u, p) - q]
                    && o.items == s[i := s[i].(quantity := Qty(s, u, p) - q)]
                    && o.reply == Line(o.items[i])
                    && FindMany(o.items, ByLine(u, p)) == [o.reply.item])
              && (Qty(s, u, p) > 0 && Qty(s, u, p) - q <= 0 ==>
                    var i := FindFirst(s, ByLine(u, p)).value;
                    && o.reply == Emptied(p, 0)
                    && View(o.items) == View(s) - {(u, p)}
                    && FindMany(o.items, ByLine(u, p)) == []
                    && o.items == s[..i] + s[i + 1..])
  {
    if Accepted(user, productId, quantity) {
      var u, p, q := user.value, productId.value, quantity.value;
      match FindFirst(s, ByLine(u, p))
      case Some(i) =>
        if s[i].quantity - q > 0 {
          DecreaseKeepsLine(s, nextId, u, p, q, i);
          DecreaseKeepsRow(s, nextId, u, p, q, i);
        } else {
          DecreaseDropsLine(s, nextId, u, p, q, i);
        }
      case None =>
    }
  }

  /** decreaseQuantity leaving a positive remainder: the row is updated in place to old - q. */
  lemma DecreaseKeepsLine(s: seq<CartItem>, nextId: int, u: int, p: int, q: int, i: nat)
    requires Consistent(s, nextId)
    requires u != 0 && p != 0 && q >= 1
    requires FindFirst(s, ByLine(u, p)) == Some(i)
    requires s[i].quantity - q > 0
    ensures var o := DecreaseQuantity(s, nextId, Some(u), Some(p), Some(q));
            && Consistent(o.items, o.nextId)
            && Qty(s, u, p) - q > 0
            && o.reply.Line?
            && o.reply.item.quantity == Qty(s, u, p) - q
            && View(o.items) == View(s)[(u, p) := Qty(s, u, p) - q]
            && o.items == s[i := s[i].(quantity := Qty(s, u, p) - q)]
            && o.reply == Line(o.items[i])
  {
    DecreaseAt(s, nextId, u, p, q, i);
    RowAt(s, nextId, i);
    SetLine(s, nextId, i, u, p, s[i].quantity - q);
  }

  /** decreaseQuantity leaving a positive remainder: the reply is the line's only row. */
  lemma DecreaseKeepsRow(s: seq<CartItem>, nextId: int, u: int, p: int, q: int, i: nat)
    requires Consistent(s, nextId)
    requires u != 0 && p != 0 && q >= 1
    requires FindFirst(s, ByLine(u, p)) == Some(i)
    requires s[i].quantity - q > 0
    ensures var o := DecreaseQuantity(s, nextId, Some(u), Some(p), Some(q));
            o.reply.Line? && FindMany(o.items, ByLine(u, p)) == [o.reply.item]
  {
    DecreaseAt(s, nextId, u, p, q, i);
    SetLineRows(s, nextId, i, u, p, s[i].quantity - q);
  }

  /** decreaseQuantity to zero or below: the row is deleted and the reply is `{ productId, quantity: 0 }`. */
  lemma DecreaseDropsLine(s: seq<CartItem>, nextId: int, u: int, p: int, q: int, i: nat)
    requires Consistent(s, nextId)
    requires u != 0 && p != 0 && q >= 1
    requires FindFirst(s, ByLine(u, p)) == Some(i)
    requires s[i].quantity - q <= 0
    ensures var o := DecreaseQuantity(s, nextId, Some(u), Some(p), Some(q));
            && Consistent(o.items, o.nextId)
            && Qty(s, u, p) > 0 && Qty(s, u, p) - q <= 0
            && o.reply == Emptied(p, 0)
            && View(o.items) == View(s) - {(u, p)}
            && FindMany(o.items, ByLine(u, p)) == []
            && o.items == s[..i] + s[i + 1..]
            && |o.items| == |s| - 1
  {
    DecreaseAt(s, nextId, u, p, q, i);
    RowAt(s, nextId, i);
    DropLine(s, nextId, i, u, p);
  }

  /** The accepted decrease for a present line, unfolded: the row of line (u, p)
      is updated by id while old - q stays positive, and deleted by id otherwise. */
  lemma DecreaseAt(s: seq<CartItem>, nextId: int, u: int, p: int, q: int, i: nat)
    requires u != 0 && p != 0 && q >= 1
    requires FindFirst(s, ByLine(u, p)) == Some(i)
    ensures s[i].userId == u && s[i].productId == p
    ensures s[i].quantity - q > 0 ==>
              DecreaseQuantity(s, nextId, Some(u), Some(p), Some(q))
              == Outcome(Line(s[i].(quantity := s[i].quantity - q)), UpdateMany(s, ById(s[i].id), s[i].quantity - q), nextId)
    ensures s[i].quantity - q <= 0 ==>
              DecreaseQuantity(s, nextId, Some(u), Some(p), Some(q))
              == Outcome(Emptied(p, 0), DeleteMany(s, ById(s[i].id)), nextId)
  {
  }

  /** `removeFromCart` as written: it deletes the first row of the table whose
      product is p, whoever owns it, and leaves every other row where it was. */
  lemma RemoveFromCartSemantics(s: seq<CartItem>, nextId: int, u: int, p: int, i: int)
    requires Consistent(s, nextId)
    requires u != 0 && p != 0
    requires 0 <= i < |s| && s[i].productId == p
    requires forall j :: 0 <= j < i ==> s[j].productId != p
    ensures var o := RemoveFromCart(s, nextId, Some(u), Some(p));
            && o.reply == Removed(p)
            && o.items == s[..i] + s[i + 1..]
            && View(o.items) == View(s) - {(s[i].userId, p)}
            && Consistent(o.items, o.nextId)
  {
    assert FindFirst(s, ByProduct(p)) == Some(i);
    ConsistentIff(s, nextId);
    DeleteByIdAt(s, i);
    DropLine(s, nextId, i, s[i].userId, p);
  }

  /** The owner-unscoped lookup in action: when another owner's row for p comes
      first, the caller's request deletes that owner's line and leaves the
      caller's own line for p in place. */
  lemma RemoveFromCartCrossesOwners(s: seq<CartItem>, nextId: int, u: int, i: int)
    requires Consistent(s, nextId)
    requires u != 0 && 0 <= i < |s| && s[i].productId != 0 && s[i].userId != u
    requires forall j :: 0 <= j < i ==> s[j].productId != s[i].productId
    ensures var p, v := s[i].productId, s[i].userId;
            var o := RemoveFromCart(s, nextId, Some(u), Some(p));
            && o.reply == Removed(p)
            && Qty(s, v, p) >= 1
            && Qty(o.items, v, p) == 0
            && Qty(o.items, u, p) == Qty(s, u, p)
  {
    var p, v := s[i].productId, s[i].userId;
    RemoveFromCartSemantics(s, nextId, u, p, i);
    RowAt(s, nextId, i);
    var t := RemoveFromCart(s, nextId, Some(u), Some(p)).items;
    ViewLookup(s, v, p);
    ViewLookup(s, u, p);
    ViewLookup(t, v, p);
    ViewLookup(t, u, p);
  }

  /** A concrete table where the defect shows: owner 2's row for product 7 comes
      first, owner 1 asks to remove product 7, and owner 2's row is the one deleted. */
  lemma RemoveFromCartCounterexample()
    ensures var s := [CartItem(1, 2, 7, 3), CartItem(2, 1, 7, 1)];
            && Consistent(s, 3)
            && RemoveFromCart(s, 3, Some(1), Some(7)) == Outcome(Removed(7), [CartItem(2, 1, 7, 1)], 3)
  {
    var s := [CartItem(1, 2, 7, 3), CartItem(2, 1, 7, 1)];
    assert |s| == 2 && s[0] == CartItem(1, 2, 7, 3) && s[1] == CartItem(2, 1, 7, 1);
    assert Consistent(s, 3);
    RemoveFromCartSemantics(s, 3, 1, 7, 0);
    assert s[..0] + s[1..] == [CartItem(2, 1, 7, 1)];
  }

  /** Corrected removal: 404 and no change when the caller holds no line for p;
      otherwise exactly the caller's line for p is gone, and no other line of
      the caller or of any other owner changes. */
  lemma RemoveOwnFromCartSemantics(s: seq<CartItem>, nextId: int, u: int, p: int)
    requires Consistent(s, nextId)
    requires u != 0 && p != 0
    ensures var o := RemoveOwnFromCart(s, nextId, Some(u), Some(p));
            && Consistent(o.items, o.nextId)
            && (Qty(s, u, p) == 0 ==> o == Outcome(Failed(NotFound), s, nextId))
            && (Qty(s, u, p) > 0 ==>
                  && o.reply == Removed(p)
                  && View(o.items) == View(s) - {(u, p)}
                  && |o.items| == |s| - 1)
  {
    match FindFirst(s, ByLine(u, p))
    case Some(i) =>
      RowAt(s, nextId, i);
      DropLine(s, nextId, i, u, p);
    case None =>
  }

  /** `deleteAll`: every line of the caller is emptied, every line of every other
      owner keeps its quantity, and the caller's cart then reads back empty. */
  lemma DeleteAllSemantics(s: seq<CartItem>, nextId: int, u: int)
    requires Consistent(s, nextId)
    requires u != 0
    ensures var o := DeleteAll(s, nextId, Some(u));
            && Consistent(o.items, o.nextId)
            && View(o.items) == (map k | k in View(s) && k.0 != u :: View(s)[k])
            && GetCart(o.items, Some(u)) == Lines([])
  {
    var t := DeleteMany(s, ByOwner(u));
    DeleteManyConsistent(s, ByOwner(u), nextId);
    ConsistentIff(s, nextId);
    ConsistentIff(t, nextId);
    ViewPositive(s, nextId);
    forall a, b ensures Qty(t, a, b) == if a == u then 0 else Qty(s, a, b) {
      QtyAfterDeleteOwner(s, nextId, u, a, b);
    }
    ViewIs(t, nextId, map k | k in View(s) && k.0 != u :: View(s)[k]);
    forall k | 0 <= k < |t| ensures !Matches(ByOwner(u), t[k]) {
      assert t[k] in t;
    }
    FindManyNoMatch(t, ByOwner(u));
  }

  /** `deleteAll` twice is `deleteAll` once: the second call succeeds and changes nothing. */
  lemma DeleteAllIdempotent(s: seq<CartItem>, nextId: int, user: Option<int>)
    ensures var o := DeleteAll(s, nextId, user);
            DeleteAll(o.items, o.nextId, user) == o
  {
    if Authenticated(user) {
      DeleteManyIdempotent(s, ByOwner(user.value));
    }
  }

  /** The walk-through for one owner and product: add 3, add 2 (one row of 5),
      decrease by 5 (row removed, reply `{ productId, quantity: 0 }`), and then
      increase by 1 is a 404 on an empty table. */
  lemma AddAddDecreaseIncreaseScenario(products: set<int>, u: int, p: int)
    requires u != 0 && p != 0 && p in products
    ensures var o1 := AddToCart([], 1, products, Some(u), Some(p), Some(3));
            var o2 := AddToCart(o1.items, o1.nextId, products, Some(u), Some(p), Some(2));
            var o3 := DecreaseQuantity(o2.items, o2.nextId, Some(u), Some(p), Some(5));
            var o4 := IncreaseQuantity(o3.items, o3.nextId, Some(u), Some(p), Some(1));
            && o1.reply == Line(CartItem(1, u, p, 3))
            && o2.reply == Line(CartItem(1, u, p, 5))
            && o3 == Outcome(Emptied(p, 0), [], 2)
            && o4 == Outcome(Failed(NotFound), [], 2)
  {
  }
}
