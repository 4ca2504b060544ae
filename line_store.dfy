/**
  The cart-item table as the cart controller sees it through its data-access
  layer: a sequence of rows in storage order, the query filters the controller
  passes (`where: { ... }`), and the primitive reads and writes it issues
  (`findFirst`, `findMany`, `update`, `delete`, `deleteMany`, `create`).

  Two abstract views of the table carry every property: `Qty(s, u, p)`, the
  quantity stored for owner `u` and product `p` (0 when there is no such line),
  and `View(s)`, the whole table as a map from (owner, product) to quantity.
  Each write is described by how it changes `View`: one key set, one key
  removed, or one owner's keys removed, with every other key untouched.
 */
module LineStore {

  datatype Option<+T> = None | Some(value: T)

  /** One row of the cart-item table. */
  datatype CartItem = CartItem(id: int, userId: int, productId: int, quantity: int)

  /** A query filter: a field that is `None` places no constraint on the row. */
  datatype Where = Where(id: Option<int>, userId: Option<int>, productId: Option<int>)

  // The four filters the handlers pass: by id, by owner, by product, by (owner, product).
  function ById(id: int): Where { Where(Some(id), None, None) }
  function ByOwner(u: int): Where { Where(None, Some(u), None) }
  function ByProduct(p: int): Where { Where(None, None, Some(p)) }
  function ByLine(u: int, p: int): Where { Where(None, Some(u), Some(p)) }

  /** A row matches a filter when it agrees with every field the filter sets. */
  predicate Matches(w: Where, x: CartItem) {
    && (w.id.None? || w.id.value == x.id)
    && (w.userId.None? || w.userId.value == x.userId)
    && (w.productId.None? || w.productId.value == x.productId)
  }

  /** `findFirst`: the position of the first row that matches `w`, if any. */
  function FindFirst(s: seq<CartItem>, w: Where): (r: Option<nat>)
    ensures r.Some? ==> r.value < |s| && Matches(w, s[r.value])
    ensures r.Some? ==> forall j :: 0 <= j < r.value ==> !Matches(w, s[j])
    ensures r.None? <==> forall j :: 0 <= j < |s| ==> !Matches(w, s[j])
  {
    if s == [] then None
    else if Matches(w, s[0]) then Some(0)
    else match FindFirst(s[1..], w)
      case None => None
      case Some(k) => Some(k + 1)
  }

  /** `findMany`: the rows that match `w`, in storage order. */
  function FindMany(s: seq<CartItem>, w: Where): (r: seq<CartItem>)
    ensures |r| <= |s|
    ensures forall x :: x in r <==> x in s && Matches(w, x)
  {
    if s == [] then []
    else if Matches(w, s[0]) then [s[0]] + FindMany(s[1..], w)
    else FindMany(s[1..], w)
  }

  /** `delete` / `deleteMany`: the table without the rows that match `w`. */
  function DeleteMany(s: seq<CartItem>, w: Where): (r: seq<CartItem>)
    ensures |r| <= |s|
    ensures forall x :: x in r <==> x in s && !Matches(w, x)
  {
    if s == [] then []
    else if Matches(w, s[0]) then DeleteMany(s[1..], w)
    else [s[0]] + DeleteMany(s[1..], w)
  }

  /** `update` with `data: { quantity: q }`: rows that match `w` get quantity `q`. */
  function UpdateMany(s: seq<CartItem>, w: Where, q: int): seq<CartItem> {
    seq(|s|, i requires 0 <= i < |s| => if Matches(w, s[i]) then s[i].(quantity := q) else s[i])
  }

  /** `update` adds and drops no row and changes nothing but the quantity of the
      rows that match, which all get quantity `q`. */
  lemma UpdateManyShape(s: seq<CartItem>, w: Where, q: int)
    ensures var r := UpdateMany(s, w, q);
            && |r| == |s|
            && (forall i :: 0 <= i < |s| ==> r[i].id == s[i].id && r[i].userId == s[i].userId && r[i].productId == s[i].productId)
            && (forall i :: 0 <= i < |s| && !Matches(w, s[i]) ==> r[i] == s[i])
            && (forall i :: 0 <= i < |s| && Matches(w, s[i]) ==> r[i].quantity == q)
  {
  }

  // ---------------------------------------------------------------------------
  // The table invariant the cart engine has to maintain by itself

  /** Every stored quantity is at least 1. */
  predicate AllPositive(s: seq<CartItem>) {
    forall i :: 0 <= i < |s| ==> s[i].quantity >= 1
  }

  /** No two rows share an id. */
  predicate IdsUnique(s: seq<CartItem>) {
    forall i, j :: 0 <= i < j < |s| ==> s[i].id != s[j].id
  }

  /** Every id is below the counter the next `create` draws from. */
  predicate IdsBelow(s: seq<CartItem>, nextId: int) {
    forall i :: 0 <= i < |s| ==> s[i].id < nextId
  }

  /** At most one row per (owner, product). */
  predicate LinesUnique(s: seq<CartItem>) {
    forall i, j :: 0 <= i < j < |s| ==> s[i].userId != s[j].userId || s[i].productId != s[j].productId
  }

  /** Row `x` shares neither its id nor its line with any row of `r`. */
  predicate Fresh(x: CartItem, r: seq<CartItem>) {
    forall j :: 0 <= j < |r| ==> r[j].id != x.id && (r[j].userId != x.userId || r[j].productId != x.productId)
  }

  /** The table invariant, row by row: each row has a quantity of at least 1 and
      an id below the counter, and shares neither its id nor its line with any
      later row. */
  predicate Consistent(s: seq<CartItem>, nextId: int) {
    s == [] || (s[0].quantity >= 1 && s[0].id < nextId && Fresh(s[0], s[1..]) && Consistent(s[1..], nextId))
  }

  /** The row-by-row invariant is the four table-wide conditions together. */
  lemma {:induction false} ConsistentIff(s: seq<CartItem>, nextId: int)
    ensures Consistent(s, nextId) <==> AllPositive(s) && IdsUnique(s) && IdsBelow(s, nextId) && LinesUnique(s)
  {
    if s != [] {
      ConsistentIff(s[1..], nextId);
      var t := s[1..];
      if AllPositive(s) && IdsUnique(s) && IdsBelow(s, nextId) && LinesUnique(s) {
        forall j | 0 <= j < |t| ensures t[j].id != s[0].id && (t[j].userId != s[0].userId || t[j].productId != s[0].productId) {
          assert t[j] == s[j + 1];
        }
        assert AllPositive(t) && IdsUnique(t) && IdsBelow(t, nextId) && LinesUnique(t) by {
          forall i | 0 <= i < |t| ensures t[i] == s[i + 1] { }
        }
      }
      if Consistent(s, nextId) {
        forall i, j | 0 <= i < j < |s|
          ensures s[i].id != s[j].id
          ensures s[i].userId != s[j].userId || s[i].productId != s[j].productId
        {
          assert s[j] == t[j - 1];
          if i > 0 { assert s[i] == t[i - 1]; }
        }
        forall i | 0 <= i < |s| ensures s[i].quantity >= 1 && s[i].id < nextId {
          if i > 0 { assert s[i] == t[i - 1]; }
        }
      }
    }
  }

  /** Quantity of the (u, p) line, 0 when the cart holds no such line. */
  function Qty(s: seq<CartItem>, u: int, p: int): int {
    match FindFirst(s, ByLine(u, p))
    case None => 0
    case Some(i) => s[i].quantity
  }

  /** With every stored quantity at least 1, a line reads 0 exactly when the
      table has no row for it, and never reads below 0. */
  lemma QtyZeroIffAbsent(s: seq<CartItem>, nextId: int, u: int, p: int)
    requires Consistent(s, nextId)
    ensures Qty(s, u, p) >= 0
    ensures Qty(s, u, p) == 0 <==> forall j :: 0 <= j < |s| ==> !Matches(ByLine(u, p), s[j])
  {
    ConsistentIff(s, nextId);
    var r := FindFirst(s, ByLine(u, p));
    if r.Some? {
      assert s[r.value].quantity >= 1;
    }
  }

  /** The whole table as a map from each (owner, product) line it holds to that
      line's quantity. Where two rows share a line the earlier one wins, as it
      does for `findFirst`. */
  function View(s: seq<CartItem>): map<(int, int), int> {
    if s == [] then map[]
    else View(s[1..])[(s[0].userId, s[0].productId) := s[0].quantity]
  }

  /** The map view and the per-line view agree: a line is in the map exactly
      when `findFirst` finds a row for it, and then the map holds its quantity. */
  lemma {:induction false} ViewLookup(s: seq<CartItem>, u: int, p: int)
    ensures (u, p) in View(s) <==> FindFirst(s, ByLine(u, p)).Some?
    ensures Qty(s, u, p) == if (u, p) in View(s) then View(s)[(u, p)] else 0
  {
    if s != [] && !Matches(ByLine(u, p), s[0]) {
      ViewLookup(s[1..], u, p);
      match FindFirst(s[1..], ByLine(u, p))
      case None =>
      case Some(k) => assert s[k + 1] == s[1..][k];
    }
  }

  /** A table with positive quantities whose every line reads as in `m` has `m`
      as its map view, provided `m` holds no zero or negative entry. */
  lemma ViewIs(t: seq<CartItem>, nextId: int, m: map<(int, int), int>)
    requires Consistent(t, nextId)
    requires forall a, b :: Qty(t, a, b) == if (a, b) in m then m[(a, b)] else 0
    requires forall k :: k in m ==> m[k] >= 1
    ensures View(t) == m
  {
    forall k | k in View(t) ensures k in m && View(t)[k] == m[k] {
      ViewLookup(t, k.0, k.1);
      QtyZeroIffAbsent(t, nextId, k.0, k.1);
    }
    forall k | k in m ensures k in View(t) {
      ViewLookup(t, k.0, k.1);
      QtyZeroIffAbsent(t, nextId, k.0, k.1);
    }
  }

  /** In a table with positive quantities the map view holds only positive quantities,
      and a line reads 0 exactly when it is not in the map. */
  lemma ViewPositive(s: seq<CartItem>, nextId: int)
    requires Consistent(s, nextId)
    ensures forall k :: k in View(s) ==> View(s)[k] >= 1
    ensures forall a, b :: Qty(s, a, b) == if (a, b) in View(s) then View(s)[(a, b)] else 0
  {
    forall a, b ensures Qty(s, a, b) == if (a, b) in View(s) then View(s)[(a, b)] else 0 {
      ViewLookup(s, a, b);
      QtyZeroIffAbsent(s, nextId, a, b);
    }
    forall k | k in View(s) ensures View(s)[k] >= 1 {
      ViewLookup(s, k.0, k.1);
      QtyZeroIffAbsent(s, nextId, k.0, k.1);
    }
  }

  // ---------------------------------------------------------------------------
  // Lemmas about the primitives

  /** With at most one row per line, the quantity of a line is the quantity of its row. */
  lemma QtyAt(s: seq<CartItem>, i: int)
    requires LinesUnique(s)
    requires 0 <= i < |s|
    ensures Qty(s, s[i].userId, s[i].productId) == s[i].quantity
  {
    var r := FindFirst(s, ByLine(s[i].userId, s[i].productId));
    assert r.Some?;
  }

  /** In a consistent table every row holds at least 1, and that is what its line reads. */
  lemma RowAt(s: seq<CartItem>, nextId: int, i: int)
    requires Consistent(s, nextId)
    requires 0 <= i < |s|
    ensures s[i].quantity >= 1
    ensures Qty(s, s[i].userId, s[i].productId) == s[i].quantity
  {
    ConsistentIff(s, nextId);
    QtyAt(s, i);
  }

  /** With unique ids, deleting by the id of row `i` removes exactly row `i`. */
  lemma {:induction false} DeleteByIdAt(s: seq<CartItem>, i: int)
    requires IdsUnique(s)
    requires 0 <= i < |s|
    ensures DeleteMany(s, ById(s[i].id)) == s[..i] + s[i + 1..]
    decreases i
  {
    if i == 0 {
      DeleteNoMatch(s[1..], ById(s[0].id));
      assert s[..0] + s[1..] == s[1..];
    } else {
      var t := s[1..];
      assert IdsUnique(t);
      assert t[i - 1] == s[i];
      DeleteByIdAt(t, i - 1);
      assert s[..i] + s[i + 1..] == [s[0]] + (t[..i - 1] + t[i..]);
    }
  }

  /** Deleting with a filter that no row matches leaves the table as it is. */
  lemma {:induction false} DeleteNoMatch(s: seq<CartItem>, w: Where)
    requires forall j :: 0 <= j < |s| ==> !Matches(w, s[j])
    ensures DeleteMany(s, w) == s
  {
    if s != [] {
      DeleteNoMatch(s[1..], w);
      assert [s[0]] + s[1..] == s;
    }
  }

  /** Deleting twice with the same filter is the same as deleting once. */
  lemma {:induction false} DeleteManyIdempotent(s: seq<CartItem>, w: Where)
    ensures DeleteMany(DeleteMany(s, w), w) == DeleteMany(s, w)
  {
    var r := DeleteMany(s, w);
    forall j | 0 <= j < |r| ensures !Matches(w, r[j]) {
      assert r[j] in r;
    }
    DeleteNoMatch(r, w);
  }

  /** With at most one row per line, the rows of a line are exactly its one row. */
  lemma {:induction false} FindManyLineAt(s: seq<CartItem>, i: int)
    requires LinesUnique(s)
    requires 0 <= i < |s|
    ensures FindMany(s, ByLine(s[i].userId, s[i].productId)) == [s[i]]
    decreases i
  {
    var w := ByLine(s[i].userId, s[i].productId);
    if i == 0 {
      var t := s[1..];
      forall j | 0 <= j < |t| ensures !Matches(w, t[j]) {
        assert t[j] == s[j + 1];
      }
      FindManyNoMatch(t, w);
    } else {
      var t := s[1..];
      assert LinesUnique(t);
      assert t[i - 1] == s[i];
      FindManyLineAt(t, i - 1);
      assert !Matches(w, s[0]);
    }
  }

  /** A filter that no row matches finds nothing. */
  lemma {:induction false} FindManyNoMatch(s: seq<CartItem>, w: Where)
    requires forall j :: 0 <= j < |s| ==> !Matches(w, s[j])
    ensures FindMany(s, w) == []
  {
    if s != [] {
      FindManyNoMatch(s[1..], w);
    }
  }

  /** `findMany` returns each matching row as many times as the table holds it, and no other row. */
  lemma {:induction false} FindManyCount(s: seq<CartItem>, w: Where)
    ensures forall x :: multiset(FindMany(s, w))[x] == if Matches(w, x) then multiset(s)[x] else 0
  {
    if s != [] {
      FindManyCount(s[1..], w);
      assert s == [s[0]] + s[1..];
    }
  }

  /** `deleteMany` keeps each non-matching row as many times as the table holds it, and no other row. */
  lemma {:induction false} DeleteManyCount(s: seq<CartItem>, w: Where)
    ensures forall x :: multiset(DeleteMany(s, w))[x] == if Matches(w, x) then 0 else multiset(s)[x]
  {
    if s != [] {
      DeleteManyCount(s[1..], w);
      assert s == [s[0]] + s[1..];
    }
  }

  /** A consistent table holds each of its rows exactly once. */
  lemma {:induction false} CountOnce(s: seq<CartItem>, nextId: int)
    requires Consistent(s, nextId)
    ensures forall x :: x in s ==> multiset(s)[x] == 1
  {
    if s != [] {
      CountOnce(s[1..], nextId);
      assert s == [s[0]] + s[1..];
      assert s[0] !in s[1..];
    }
  }

  /** Deleting rows never breaks the table invariant. */
  lemma {:induction false} DeleteManyConsistent(s: seq<CartItem>, w: Where, nextId: int)
    requires Consistent(s, nextId)
    ensures Consistent(DeleteMany(s, w), nextId)
  {
    if s != [] {
      var t := s[1..];
      DeleteManyConsistent(t, w, nextId);
      var r := DeleteMany(t, w);
      if !Matches(w, s[0]) {
        forall j | 0 <= j < |r| ensures r[j].id != s[0].id && (r[j].userId != s[0].userId || r[j].productId != s[0].productId) {
          assert r[j] in t;
          var k :| 0 <= k < |t| && t[k] == r[j];
        }
        assert ([s[0]] + r)[1..] == r;
      }
    }
  }

  // ---------------------------------------------------------------------------
  // How each write changes the table invariant and the quantities

  /** With unique ids, updating by the id of row `i` changes row `i`'s quantity and nothing else. */
  lemma UpdateByIdAt(s: seq<CartItem>, i: int, q: int)
    requires IdsUnique(s)
    requires 0 <= i < |s|
    ensures UpdateMany(s, ById(s[i].id), q) == s[i := s[i].(quantity := q)]
  {
    UpdateManyShape(s, ById(s[i].id), q);
  }

  /** Setting the quantity of row `i` (found by its id) to at least 1 keeps the invariant. */
  lemma UpdateConsistent(s: seq<CartItem>, nextId: int, i: int, q: int)
    requires Consistent(s, nextId)
    requires 0 <= i < |s| && q >= 1
    ensures Consistent(UpdateMany(s, ById(s[i].id), q), nextId)
  {
    ConsistentIff(s, nextId);
    UpdateManyShape(s, ById(s[i].id), q);
    ConsistentIff(UpdateMany(s, ById(s[i].id), q), nextId);
  }

  /** Creating a row for a line the cart does not hold, with the next id, keeps the invariant. */
  lemma AppendConsistent(s: seq<CartItem>, nextId: int, u: int, p: int, q: int)
    requires Consistent(s, nextId)
    requires q >= 1
    requires forall j :: 0 <= j < |s| ==> !Matches(ByLine(u, p), s[j])
    ensures Consistent(s + [CartItem(nextId, u, p, q)], nextId + 1)
  {
    var r := s + [CartItem(nextId, u, p, q)];
    ConsistentIff(s, nextId);
    ConsistentIff(r, nextId + 1);
    forall a, b | 0 <= a < b < |r|
      ensures r[a].id != r[b].id
      ensures r[a].userId != r[b].userId || r[a].productId != r[b].productId
    {
      if b == |s| {
        assert !Matches(ByLine(u, p), s[a]);
      }
    }
  }

  /** Setting the quantity of row `i` changes the quantity of its line and of no other. */
  lemma QtyAfterUpdate(s: seq<CartItem>, i: int, q: int, a: int, b: int)
    requires IdsUnique(s) && LinesUnique(s)
    requires 0 <= i < |s|
    ensures Qty(UpdateMany(s, ById(s[i].id), q), a, b)
            == if a == s[i].userId && b == s[i].productId then q else Qty(s, a, b)
  {
    var r := UpdateMany(s, ById(s[i].id), q);
    UpdateManyShape(s, ById(s[i].id), q);
    assert LinesUnique(r);
    if a == s[i].userId && b == s[i].productId {
      QtyAt(r, i);
    } else if j :| 0 <= j < |s| && Matches(ByLine(a, b), s[j]) {
      QtyAt(s, j);
      QtyAt(r, j);
    } else {
      assert forall j :: 0 <= j < |r| ==> !Matches(ByLine(a, b), r[j]);
    }
  }

  /** Deleting row `i` by its id empties its line and changes no other. */
  lemma QtyAfterDelete(s: seq<CartItem>, i: int, a: int, b: int)
    requires IdsUnique(s) && LinesUnique(s)
    requires 0 <= i < |s|
    ensures Qty(DeleteMany(s, ById(s[i].id)), a, b)
            == if a == s[i].userId && b == s[i].productId then 0 else Qty(s, a, b)
  {
    DeleteByIdAt(s, i);
    RemoveAtShape(s, i);
    if a == s[i].userId && b == s[i].productId {
      QtyAfterRemoveSelf(s, i);
    } else {
      QtyAfterRemoveOther(s, i, a, b);
    }
  }

  /** Removing row i clears that row's line. */
  lemma QtyAfterRemoveSelf(s: seq<CartItem>, i: int)
    requires LinesUnique(s)
    requires 0 <= i < |s|
    ensures Qty(s[..i] + s[i + 1..], s[i].userId, s[i].productId) == 0
  {
    var r := s[..i] + s[i + 1..];
    RemoveAtShape(s, i);
    forall k | 0 <= k < |r| ensures !Matches(ByLine(s[i].userId, s[i].productId), r[k]) {
      if k >= i { assert r[k] == s[k + 1]; }
    }
  }

  /** Removing row i leaves every other line's quantity as it was. */
  lemma QtyAfterRemoveOther(s: seq<CartItem>, i: int, a: int, b: int)
    requires LinesUnique(s)
    requires 0 <= i < |s|
    requires a != s[i].userId || b != s[i].productId
    ensures Qty(s[..i] + s[i + 1..], a, b) == Qty(s, a, b)
  {
    var r := s[..i] + s[i + 1..];
    RemoveAtShape(s, i);
    if j :| 0 <= j < |s| && Matches(ByLine(a, b), s[j]) {
      var k := if j < i then j else j - 1;
      assert r[k] == s[j];
      QtyAt(s, j);
      QtyAt(r, k);
    } else {
      forall k | 0 <= k < |r| ensures !Matches(ByLine(a, b), r[k]) {
        if k >= i { assert r[k] == s[k + 1]; }
      }
    }
  }

  /** The table with row `i` cut out: the rows before it keep their place, the
      rows after it move up by one, and no two rows share a line. */
  lemma RemoveAtShape(s: seq<CartItem>, i: int)
    requires LinesUnique(s)
    requires 0 <= i < |s|
    ensures |s[..i] + s[i + 1..]| == |s| - 1
    ensures forall k :: 0 <= k < i ==> (s[..i] + s[i + 1..])[k] == s[k]
    ensures forall k :: i < k < |s| ==> (s[..i] + s[i + 1..])[k - 1] == s[k]
    ensures LinesUnique(s[..i] + s[i + 1..])
  {
    var r := s[..i] + s[i + 1..];
    forall c, d | 0 <= c < d < |r|
      ensures r[c].userId != r[d].userId || r[c].productId != r[d].productId
    {
      var c' := if c < i then c else c + 1;
      var d' := if d < i then d else d + 1;
      assert r[c] == s[c'] && r[d] == s[d'];
    }
  }

  /** Appending a row for a line the cart does not hold sets that line and no other. */
  lemma QtyAfterAppend(s: seq<CartItem>, x: CartItem, a: int, b: int)
    requires LinesUnique(s)
    requires forall j :: 0 <= j < |s| ==> !Matches(ByLine(x.userId, x.productId), s[j])
    ensures Qty(s + [x], a, b) == if a == x.userId && b == x.productId then x.quantity else Qty(s, a, b)
  {
    var r := s + [x];
    assert LinesUnique(r) by {
      forall c, d | 0 <= c < d < |r|
        ensures r[c].userId != r[d].userId || r[c].productId != r[d].productId
      {
        if d == |s| {
          assert !Matches(ByLine(x.userId, x.productId), s[c]);
        }
      }
    }
    if a == x.userId && b == x.productId {
      QtyAt(r, |s|);
    } else if j :| 0 <= j < |s| && Matches(ByLine(a, b), s[j]) {
      QtyAt(s, j);
      assert r[j] == s[j];
      QtyAt(r, j);
    } else {
      assert forall k :: 0 <= k < |r| ==> !Matches(ByLine(a, b), r[k]);
    }
  }

  /** Deleting every row of owner `u` empties all of u's lines and leaves every
      other owner's lines as they were. */
  lemma QtyAfterDeleteOwner(s: seq<CartItem>, nextId: int, u: int, a: int, b: int)
    requires Consistent(s, nextId)
    ensures Qty(DeleteMany(s, ByOwner(u)), a, b) == if a == u then 0 else Qty(s, a, b)
  {
    var r := DeleteMany(s, ByOwner(u));
    DeleteManyConsistent(s, ByOwner(u), nextId);
    ConsistentIff(s, nextId);
    ConsistentIff(r, nextId);
    if a == u {
      forall k | 0 <= k < |r| ensures !Matches(ByLine(a, b), r[k]) {
        assert r[k] in r;
      }
    } else if j :| 0 <= j < |s| && Matches(ByLine(a, b), s[j]) {
      assert s[j] in r;
      var k :| 0 <= k < |r| && r[k] == s[j];
      QtyAt(s, j);
      QtyAt(r, k);
    } else {
      forall k | 0 <= k < |r| ensures !Matches(ByLine(a, b), r[k]) {
        assert r[k] in s;
      }
    }
  }

  // ---------------------------------------------------------------------------
  // The three writes the handlers issue, each on the abstract view

  /** `update` of row `i`, the row of line (u, p), to quantity q >= 1: the line
      now holds q and no other line changes. */
  lemma SetLine(s: seq<CartItem>, nextId: int, i: int, u: int, p: int, q: int)
    requires Consistent(s, nextId)
    requires 0 <= i < |s| && s[i].userId == u && s[i].productId == p && q >= 1
    ensures var t := UpdateMany(s, ById(s[i].id), q);
            && Consistent(t, nextId)
            && t == s[i := s[i].(quantity := q)]
            && View(t) == View(s)[(u, p) := q]
  {
    var t := UpdateMany(s, ById(s[i].id), q);
    UpdateConsistent(s, nextId, i, q);
    ConsistentIff(s, nextId);
    UpdateByIdAt(s, i, q);
    ConsistentIff(t, nextId);
    ViewPositive(s, nextId);
    forall a, b ensures Qty(t, a, b) == if a == u && b == p then q else Qty(s, a, b) {
      QtyAfterUpdate(s, i, q, a, b);
    }
    ViewIs(t, nextId, View(s)[(u, p) := q]);
  }

  /** `delete` of row `i`, the row of line (u, p): the line is gone, no other line changes. */
  lemma DropLine(s: seq<CartItem>, nextId: int, i: int, u: int, p: int)
    requires Consistent(s, nextId)
    requires 0 <= i < |s| && s[i].userId == u && s[i].productId == p
    ensures var t := DeleteMany(s, ById(s[i].id));
            && Consistent(t, nextId)
            && t == s[..i] + s[i + 1..]
            && |t| == |s| - 1
            && FindMany(t, ByLine(u, p)) == []
            && View(t) == View(s) - {(u, p)}
  {
    var t := DeleteMany(s, ById(s[i].id));
    DeleteManyConsistent(s, ById(s[i].id), nextId);
    ConsistentIff(s, nextId);
    ConsistentIff(t, nextId);
    DeleteByIdAt(s, i);
    ViewPositive(s, nextId);
    forall a, b ensures Qty(t, a, b) == if a == u && b == p then 0 else Qty(s, a, b) {
      QtyAfterDelete(s, i, a, b);
    }
    ViewIs(t, nextId, View(s) - {(u, p)});
    forall k | 0 <= k < |t| ensures !Matches(ByLine(u, p), t[k]) {
      assert t[k] in t;
    }
    FindManyNoMatch(t, ByLine(u, p));
  }

  /** `create` of a row for the absent line (u, p): the line now holds q, no other line changes. */
  lemma NewLine(s: seq<CartItem>, nextId: int, u: int, p: int, q: int)
    requires Consistent(s, nextId)
    requires q >= 1
    requires forall j :: 0 <= j < |s| ==> !Matches(ByLine(u, p), s[j])
    ensures var t := s + [CartItem(nextId, u, p, q)];
            && Consistent(t, nextId + 1)
            && View(t) == View(s)[(u, p) := q]
  {
    var t := s + [CartItem(nextId, u, p, q)];
    AppendConsistent(s, nextId, u, p, q);
    ConsistentIff(s, nextId);
    ConsistentIff(t, nextId + 1);
    ViewPositive(s, nextId);
    forall a, b ensures Qty(t, a, b) == if a == u && b == p then q else Qty(s, a, b) {
      QtyAfterAppend(s, CartItem(nextId, u, p, q), a, b);
    }
    ViewIs(t, nextId + 1, View(s)[(u, p) := q]);
  }

  /** After `update` of row `i`, the row of line (u, p), that line still has exactly
      one row: the old row with its new quantity. */
  lemma SetLineRows(s: seq<CartItem>, nextId: int, i: int, u: int, p: int, q: int)
    requires Consistent(s, nextId)
    requires 0 <= i < |s| && s[i].userId == u && s[i].productId == p && q >= 1
    ensures FindMany(s, ByLine(u, p)) == [s[i]]
    ensures FindMany(UpdateMany(s, ById(s[i].id), q), ByLine(u, p)) == [s[i].(quantity := q)]
  {
    var t := UpdateMany(s, ById(s[i].id), q);
    UpdateConsistent(s, nextId, i, q);
    UpdateManyShape(s, ById(s[i].id), q);
    ConsistentIff(s, nextId);
    ConsistentIff(t, nextId);
    FindManyLineAt(s, i);
    FindManyLineAt(t, i);
  }

  /** After `create` of a row for the absent line (u, p), that row is the line's only row. */
  lemma NewLineRows(s: seq<CartItem>, nextId: int, u: int, p: int, q: int)
    requires Consistent(s, nextId)
    requires q >= 1
    requires forall j :: 0 <= j < |s| ==> !Matches(ByLine(u, p), s[j])
    ensures FindMany(s + [CartItem(nextId, u, p, q)], ByLine(u, p)) == [CartItem(nextId, u, p, q)]
  {
    var t := s + [CartItem(nextId, u, p, q)];
    AppendConsistent(s, nextId, u, p, q);
    ConsistentIff(t, nextId + 1);
    FindManyLineAt(t, |s|);
  }
}
