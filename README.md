# Cart engine of the e-commerce backend, in Dafny

This project models the cart controller of a small e-commerce backend. The controller
has six HTTP handlers: `getCart`, `addToCart`, `decreaseQuantity`, `increaseQuantity`,
`removeFromCart` and `deleteAll`. Each handler checks that the request is
authenticated (401), validates its input (400), looks up a row of the shared
cart-item table (404), and then updates, creates or deletes that row.

The model has four modules:

- `LineStore` (`line_store.dfy`) holds the cart-item table as a sequence of rows
  `CartItem(id, userId, productId, quantity)` in storage order. It also holds the
  query filter `Where`, where an absent field places no constraint, and the data-access
  primitives the handlers call: `findFirst`, `findMany`, `update`, `delete`/`deleteMany`
  and `create`. It defines the table invariant `Consistent`. Every stored quantity is at
  least 1, there is at most one row per (owner, product), and ids are unique and below the id
  counter. `Consistent` is stated row by row, and `ConsistentIff` proves it equal to
  those four table-wide conditions. The module also defines two abstract views of the
  table:
  - `Qty(s, u, p)`: the quantity owner `u` holds of product `p`, or 0 when there is no
    such row.
  - `View(s)`: the whole table as a map from (owner, product) to quantity.

  Each write is described by its effect on `View`: one key set, one key removed, or
  one owner's keys removed. Every other key keeps its value.
- `CartHandlers` (`cart_handlers.dfy`) defines each handler as a function. It maps the
  table before the request to the reply and the table after it.
- `CartProperties` (`cart_properties.dfy`) holds lemmas about those functions:
  - Every handler keeps the invariant.
  - Each handler's effect on `View` is one map change:
    - `addToCart`, `increaseQuantity` and `decreaseQuantity` set the caller's key or
      remove it.
    - `removeFromCart` removes one key, which may belong to another owner.
    - `deleteAll` removes all of the caller's keys.
  - For the single-row writes, the table after the request is also given row by row:
    the same rows with one quantity changed, or one row cut out.
  - Two adds coalesce into one row.
  - Decreasing to zero or below deletes the row.
  - Clearing is scoped to one owner and is idempotent.
  - The removal defect described under "Findings" is proved here.
- `CartController` (`cart_controller.dfy`) holds the class `Cart`, which owns the table
  (`items`), the id counter (`nextId`) and the set of existing product ids
  (`products`). Each handler is a method that reads the table and then reassigns it.
  Each method is proved to keep `Valid()` and to produce exactly the reply and new state
  of the handler function.

Request inputs are `Option<int>`: the authenticated user id, the body's `productId`
and `quantity`, and the route parameter after `parseInt`. A missing value, or NaN from
`parseInt`, is `None`. As in JavaScript, the value 0 also fails the `!x` tests.

The model follows the code as written:

- `increaseQuantity` and `decreaseQuantity` do not check that the product exists. Only
  `addToCart` does.
- `removeFromCart` looks the row up by product id alone, so a caller can remove another
  owner's row. See "Findings".
- Replies carry the bare row, without the product join.

## Model

| member | source | states |
|---|---|---|
| `LineStore.FindFirst` | src/controllers/cartController.ts:41-43 | the result is the position of a matching row with no matching row before it; it is absent exactly when no row matches |
| `LineStore.FindMany` | src/controllers/cartController.ts:11-14 | a row is in the result iff it is in the table and matches the filter, and the result is no longer than the table |
| `LineStore.FindManyCount` | src/controllers/cartController.ts:11-14 | the result holds each matching row exactly as many times as the table does, and no other row |
| `LineStore.DeleteMany` | src/controllers/cartController.ts:177-179 | a row remains iff it was in the table and does not match the filter |
| `LineStore.DeleteManyCount` | src/controllers/cartController.ts:177-179 | the result holds each non-matching row exactly as many times as the table does, and no matching row |
| `LineStore.UpdateManyShape` | src/controllers/cartController.ts:48-51 | an update adds and drops no row; ids, owners and products are kept; matching rows get the new quantity and every other row is untouched |
| `LineStore.UpdateByIdAt` | src/controllers/cartController.ts:48-51 | with unique ids, updating by the id of row i is exactly row i with its new quantity, every other row in place |
| `LineStore.ConsistentIff` | src/controllers/cartController.ts:41-56 | the row-by-row invariant holds iff every quantity is at least 1, ids are unique and below the counter, and no two rows share an (owner, product) line |
| `LineStore.QtyZeroIffAbsent` | src/controllers/cartController.ts:41-43 | in a consistent table a line never reads below 0, and it reads 0 exactly when no row matches it |
| `LineStore.ViewLookup` | src/controllers/cartController.ts:41-43 | a line is a key of the map view iff `findFirst` finds a row for it, and the map then holds that row's quantity |
| `LineStore.ViewIs` | src/controllers/cartController.ts:41-43 | a consistent table whose every line reads as in a map of positive quantities has exactly that map as its view |
| `LineStore.ViewPositive` | src/controllers/cartController.ts:41-43 | in a consistent table every quantity in the map view is at least 1, and a line reads 0 iff it is not a key |
| `LineStore.RowAt` | src/controllers/cartController.ts:41-43 | in a consistent table every row holds at least 1, and its line reads that row's quantity |
| `LineStore.CountOnce` | src/controllers/cartController.ts:41-56 | a consistent table holds each of its rows exactly once |
| `LineStore.DeleteByIdAt` | src/controllers/cartController.ts:160 | with unique ids, deleting by the id of row i removes exactly row i and keeps the order of the rest |
| `LineStore.DeleteManyConsistent` | src/controllers/cartController.ts:177-179 | deleting rows never breaks the table invariant |
| `LineStore.DeleteManyIdempotent` | src/controllers/cartController.ts:177-179 | deleting twice with one filter equals deleting once |
| `LineStore.FindManyLineAt` | src/controllers/cartController.ts:41-43 | with at most one row per line, the rows of a present line are exactly that one row |
| `LineStore.QtyAfterDeleteOwner` | src/controllers/cartController.ts:177-179 | after deleting every row of owner u, all of u's lines read 0 and every other owner's lines keep their quantities |
| `LineStore.SetLine` | src/controllers/cartController.ts:89-93 | an update of one row to a quantity of at least 1 keeps the invariant; the new table is the old one with only that row's quantity replaced, and the new map view is the old one with that line set to the new quantity |
| `LineStore.SetLineRows` | src/controllers/cartController.ts:48-51 | the updated line has exactly one row before and after the update: the same row, with only its quantity changed |
| `LineStore.DropLine` | src/controllers/cartController.ts:97 | a delete of one row by id keeps the invariant; the new table is the old one with that row cut out, the line has no row left, and the new map view is the old one without that line |
| `LineStore.NewLine` | src/controllers/cartController.ts:53-55 | creating a row for an absent line with the next id keeps the invariant (with the counter advanced), and the new map view is the old one with that line set to q |
| `LineStore.NewLineRows` | src/controllers/cartController.ts:53-55 | after the create, the created row is the only row of its line |
| `CartHandlers.Status` | src/controllers/cartController.ts:27-39 | 401 exactly for the unauthenticated failure, 400 exactly for the bad-request failure, 404 exactly for the not-found failure, and 200 for every reply that is not a failure |
| `CartProperties.GetCartSemantics` | src/controllers/cartController.ts:6-16 | for a signed-in caller over a consistent table, the reply holds each of the caller's rows exactly once, and no row of another owner |
| `CartHandlers.GetCart` | src/controllers/cartController.ts:6-16 | 401 iff there is no user; otherwise the reply holds exactly the caller's rows; the table is not an output |
| `CartHandlers.AddToCart` | src/controllers/cartController.ts:24-58 | 401 without a user, then 400 on a missing or zero product id or a quantity missing or below 1, then 404 iff the product does not exist; every failure leaves the table and counter unchanged; a success returns a row of the caller for that product |
| `CartHandlers.IncreaseQuantity` | src/controllers/cartController.ts:106-136 | same 401 and 400 checks; 404 iff the caller has no row for the product; failures change nothing; the counter never moves |
| `CartHandlers.DecreaseQuantity` | src/controllers/cartController.ts:66-99 | same 401 and 400 checks; 404 iff the caller has no row for the product; failures change nothing; a returned row belongs to the caller and the requested product and has a positive quantity; a removal reply is `{productId, quantity: 0}` |
| `CartHandlers.RemoveFromCart` | src/controllers/cartController.ts:143-162 | 401 without a user; 400 on a NaN or zero parameter; 404 iff no row of any owner has that product; failures change nothing; success echoes the product id |
| `CartHandlers.RemoveOwnFromCart` | src/controllers/cartController.ts:152-154 | corrected removal: as above, except that 404 holds iff the caller has no row for the product |
| `CartHandlers.DeleteAll` | src/controllers/cartController.ts:169-181 | 401 iff there is no user, and then the table is unchanged; otherwise exactly the rows of other owners remain |
| `CartProperties.AddToCartSemantics` | src/controllers/cartController.ts:41-56 | keeps the invariant; an accepted add for an existing product replies with the caller's row at old + q; the new map view is the old one with that line set to old + q; the reply is the line's only row. If the line was absent, the reply is a new row with the next id, the new table is the old one with that row appended, and the counter advances. Otherwise the reply is the stored row, keeping its id; the new table is the old one with only that row's quantity replaced; the counter is unchanged |
| `CartProperties.AddToExistingLine` | src/controllers/cartController.ts:47-51 | when the line exists, the new table is the old one with only that row's quantity raised to old + q; the reply is that stored row; the map view changes only at that line; the counter is unchanged |
| `CartProperties.AddToExistingRow` | src/controllers/cartController.ts:47-51 | when the line exists, the reply is the line's one old row with only its quantity raised, and it remains the line's only row |
| `CartProperties.AddToAbsentLine` | src/controllers/cartController.ts:52-55 | when the line is absent, the new table is the old one with one row appended, `CartItem(nextId, u, p, q)`, which is the reply; the counter advances and the map view gains just that line |
| `CartProperties.AddTwiceCoalesces` | src/controllers/cartController.ts:41-56 | two adds of q1 and q2 by one owner for one product leave exactly one row for that line, holding old + q1 + q2, with the same id both times |
| `CartProperties.IncreaseQuantitySemantics` | src/controllers/cartController.ts:119-134 | keeps the invariant; an absent line gives 404 and no change; otherwise the found row's quantity becomes old + q and no other row changes; the reply is that stored row, the line's only row; the map view changes only at that line |
| `CartProperties.IncreaseExistingLine` | src/controllers/cartController.ts:129-134 | for a present line, the new table is the old one with only that row's quantity replaced by old + q; the reply is that stored row; the map view changes only at that line |
| `CartProperties.IncreaseExistingRow` | src/controllers/cartController.ts:129-136 | for a present line, the reply is the line's only row after the update |
| `CartProperties.DecreaseQuantitySemantics` | src/controllers/cartController.ts:77-99 | keeps the invariant; an absent line gives 404 and no change. If old - q > 0, the found row's quantity becomes old - q, no other row changes, and the reply is that stored row, the line's only row. Otherwise the found row is cut out, the line drops out of the map view and has no rows, and the reply is `{productId, quantity: 0}` |
| `CartProperties.DecreaseKeepsLine` | src/controllers/cartController.ts:85-94 | a positive remainder is stored in place: the new table is the old one with only that row's quantity replaced; the reply is that stored row; the map view changes only at that line |
| `CartProperties.DecreaseKeepsRow` | src/controllers/cartController.ts:85-94 | with a positive remainder, the reply is the line's only row after the update |
| `CartProperties.DecreaseDropsLine` | src/controllers/cartController.ts:85-98 | a remainder of 0 or less cuts that row out of the table and removes the line from the map view, with every other row kept; the reply is `{productId, quantity: 0}` |
| `CartProperties.RemoveFromCartSemantics` | src/controllers/cartController.ts:152-162 | keeps the invariant; deletes exactly the first row whose product matches, whoever owns it, and leaves every other row in place; the map view loses that row's line |
| `CartProperties.RemoveFromCartCrossesOwners` | src/controllers/cartController.ts:152-160 | if another owner's row for p comes first, the caller's removal of p empties that owner's line and leaves the caller's own line unchanged |
| `CartProperties.RemoveFromCartCounterexample` | src/controllers/cartController.ts:152-160 | on a concrete consistent table, owner 1 removing product 7 deletes owner 2's row |
| `CartProperties.RemoveOwnFromCartSemantics` | src/controllers/cartController.ts:152-162 | corrected removal: 404 and no change when the caller has no line; otherwise the map view loses exactly the caller's line and one row is removed |
| `CartProperties.DeleteAllSemantics` | src/controllers/cartController.ts:177-181 | keeps the invariant; the new map view is the old one restricted to other owners' lines; getCart then returns an empty list |
| `CartProperties.DeleteAllIdempotent` | src/controllers/cartController.ts:177-181 | a second deleteAll returns the same reply and changes nothing |
| `CartProperties.AddAddDecreaseIncreaseScenario` | src/controllers/cartController.ts:24-141 | from an empty table: add 3 then add 2 gives one row of 5; decrease 5 removes it with `{productId, quantity: 0}`; a later increase is 404 |
| `CartController.Cart.GetCart` | src/controllers/cartController.ts:6-21 | changes nothing; without a user the reply is 401; otherwise it lists each of the caller's rows exactly once, and no other row |
| `CartController.Cart.AddToCart` | src/controllers/cartController.ts:24-63 | keeps `Valid()`; the reply, rows and id counter are those of `CartHandlers.AddToCart` on the old state |
| `CartController.Cart.DecreaseQuantity` | src/controllers/cartController.ts:66-104 | keeps `Valid()`; the reply and rows are those of `CartHandlers.DecreaseQuantity` on the old state |
| `CartController.Cart.IncreaseQuantity` | src/controllers/cartController.ts:106-141 | keeps `Valid()`; the reply and rows are those of `CartHandlers.IncreaseQuantity` on the old state |
| `CartController.Cart.RemoveFromCart` | src/controllers/cartController.ts:143-167 | keeps `Valid()`; the reply and rows are those of the as-written `CartHandlers.RemoveFromCart` |
| `CartController.Cart.RemoveOwnFromCart` | src/controllers/cartController.ts:152-154 | keeps `Valid()`; the reply and rows are those of the corrected `CartHandlers.RemoveOwnFromCart` |
| `CartController.Cart.DeleteAll` | src/controllers/cartController.ts:169-186 | keeps `Valid()`; the reply and rows are those of `CartHandlers.DeleteAll` |

## Findings

| source | as written | input that shows it | evidently intended | confidence | as-written member | corrected member |
|---|---|---|---|---|---|---|
| src/controllers/cartController.ts:152-154 | `removeFromCart` looks the row up by product id only. Its filter carries no owner. | A table holds row 1 (owner 2, product 7, quantity 3) and then row 2 (owner 1, product 7, quantity 1). Owner 1 requests removal of product 7. Owner 2's row is deleted, and owner 1's row stays. | The lookup is scoped by owner and product, so a removal only ever touches the caller's own line. | high (proved on the model, not executed) | `CartHandlers.RemoveFromCart`, `CartProperties.RemoveFromCartCounterexample`, `CartProperties.RemoveFromCartCrossesOwners` | `CartHandlers.RemoveOwnFromCart`, `CartProperties.RemoveOwnFromCartSemantics` |

## Left out

- Concurrency is not modelled. The handlers run one at a time, so the check-then-write race between the lookup and the write is not modelled. The "at most one row per (owner, product)" invariant holds only under this sequential model.
- The storage-failure paths are not modelled: the `catch` blocks that answer 500, and `console.error` logging. Quantities are unbounded integers, so a sum that overflows the database's 32-bit integer column is not modelled. In the running system that overflow would be a storage error.
- The `include: { product: true }` join is not modelled. Replies carry the bare cart row.
- Authentication middleware, token checks, Express routing, JSON parsing and response messages are outside the model. The authenticated user id is an input.
- `parseInt` on the route parameter is not modelled. The model takes its result, with `None` for NaN. JavaScript truthiness of non-integer or string bodies is not modelled either, because `productId` and `quantity` are integers here.
- `findFirst` without `orderBy` is modelled as the first match in storage order, which is the rows' order of creation. The database itself does not promise an order.
- The product catalogue is a fixed set of ids. Product listing and creation, and the user controller, are not part of this model.
