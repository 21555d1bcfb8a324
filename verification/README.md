# Cart state manager, modelled in Dafny

This project models the cart state manager of a small storefront
(`managers/CartManager.js`). The manager owns one state record: a visibility
flag `open` and the ordered list `items` of products placed in the cart. It
shows and hides the cart, answers whether a product (matched by `id`) is in
the cart and whether the cart has products, adds a product only when its id
is absent, removes every product with a given id, and clears the products or
the whole cart.

Files:

- `cart.dfy`, module `CartModel`: the `Product` and `CartState` datatypes, the
  invariant `Unique` (no two items share an id), and every operation as a pure
  transition function. `Find` and `Filter` model JavaScript's
  `Array.prototype.find` and `Array.prototype.filter` as the source uses them.
- `cart_lemmas.dfy`, module `CartLemmas`: properties that relate several calls
  (idempotence, commuting with the visibility flag, add/remove round trip,
  order preservation, one entry per id).
- `traces.dfy`, module `CartTraces`: sequences of calls; the invariant holds in
  every state a fresh manager can reach.
- `manager.dfy`, module `CartManagerClass`: a mutable class whose methods
  mirror the JavaScript API (`getState`, `open`, `close`, `productIsInTheCart`,
  `hasProducts`, `addProduct`, `removeProduct`, `clearProducts`, `clearCart`),
  each returning the new state.

A product is an `id` (a string, compared with strict equality) plus an opaque
payload of type `P`; the manager never looks at title, price or image.

Two facts about the code shape the model:

- `CartManager` stores bare products and no quantity, so the model has none.
- `removeProduct` filters out every item with the id. Under the invariant that is at most one (`CartLemmas.RemoveProductShortensByOne`); `CartModel.RemoveProduct` states the filtering behaviour for any state.

The mutating methods of `CartManagerClass.CartManager` (`Open`, `Close`,
`AddProduct`, `RemoveProduct`, `ClearProducts`, `ClearCart`) replace the held
state by the pure transition of `CartModel` and return it. Their contracts are
stated with `old(...)`, so they restate the API over the pure functions rather
than add new properties. `GetState`, `ProductIsInTheCart` and `HasProducts`
only read the held state; `hasProducts` is the length test of
`CartModel.HasProducts`.

## Model

| member | source | states |
|---|---|---|
| CartModel.Initial | managers/CartManager.js:3-13 | a new manager is closed, holds no product, and satisfies the uniqueness invariant |
| CartModel.Open | managers/CartManager.js:19-23 | `open` shows the cart and leaves the items as they were |
| CartModel.Close | managers/CartManager.js:25-29 | `close` hides the cart and leaves the items as they were |
| CartModel.Find | managers/CartManager.js:32 | the search yields nothing exactly when no item has the id; otherwise it yields the first item with that id |
| CartModel.ProductIsInTheCart | managers/CartManager.js:31-33 | the query holds exactly when some item has the product's id |
| CartModel.HasProducts | managers/CartManager.js:35-37 | the cart has products exactly when some id is in it |
| CartModel.AddProduct | managers/CartManager.js:39-45 | an absent product is appended at the end; a present id leaves the state unchanged; afterwards the id is in the cart; `open` is untouched; uniqueness is preserved |
| CartModel.Filter | managers/CartManager.js:48-50 | every kept item comes from the input and has another id; every input item with another id is kept; no item with the id remains; uniqueness is preserved; an absent id changes nothing |
| CartModel.RemoveProduct | managers/CartManager.js:47-53 | no item with the id remains, every other item stays, `open` is untouched, an absent id leaves the state unchanged, uniqueness is preserved |
| CartModel.ClearProducts | managers/CartManager.js:55-59 | the cart has no products afterwards and `open` is untouched |
| CartModel.ClearCart | managers/CartManager.js:61-66 | from any state, the result is the initial state: closed and empty |
| CartLemmas.OpenIdempotent | managers/CartManager.js:19-23 | opening twice equals opening once |
| CartLemmas.CloseIdempotent | managers/CartManager.js:25-29 | closing twice equals closing once |
| CartLemmas.CloseUndoesOpen | managers/CartManager.js:19-29 | closing right after opening restores a closed cart exactly |
| CartLemmas.VisibilityCommutesWithItems | managers/CartManager.js:19-59 | opening or closing commutes with adding, removing and clearing products |
| CartLemmas.ProductIsInTheCartByIdOnly | managers/CartManager.js:31-33 | two products with the same id get the same answer, whatever else they carry |
| CartLemmas.HasProductsIffSomeProduct | managers/CartManager.js:35-37 | the cart has products exactly when some product of it is reported in the cart |
| CartLemmas.UniqueCountAtMostOne | managers/CartManager.js:39-45 | under the invariant each id occurs at most once, and exactly once when present |
| CartLemmas.AddProductIdempotent | managers/CartManager.js:39-45 | adding the same product twice equals adding it once |
| CartLemmas.AddProductLeavesOneEntry | managers/CartManager.unit.spec.js:29-35 | after one or two adds of a product, a well-formed cart has exactly one entry with its id |
| CartLemmas.AddTwiceToFreshCart | managers/CartManager.unit.spec.js:29-35 | adding one product twice to a new cart leaves exactly that one item |
| CartLemmas.ReAddKeepsItems | managers/CartManager.js:39-45 | with A and B in the cart, adding A again keeps the items `[A, B]` |
| CartLemmas.AddProductKeepsPrefix | managers/CartManager.js:39-45 | earlier items stay a prefix in their order, and the length grows by one exactly when the id was absent |
| CartLemmas.FilterAppend | managers/CartManager.js:48-50 | removal distributes over concatenation, so the kept items keep their relative order |
| CartLemmas.RemoveProductSplits | managers/CartManager.js:47-53 | in a well-formed cart `a + [x] + b`, removing `x`'s id yields exactly `a + b` |
| CartLemmas.RemoveUndoesAdd | managers/CartManager.js:39-53 | removing a product just added to a cart that lacked it restores the original state |
| CartLemmas.RemoveProductIdempotent | managers/CartManager.js:47-53 | removing an id twice equals removing it once |
| CartLemmas.FilterCount | managers/CartManager.js:48-50 | removal shortens the items by the number of entries with that id |
| CartLemmas.RemoveProductShortensByOne | managers/CartManager.js:47-53 | in a well-formed cart, removing a present id shortens the items by one, and an absent id by none |
| CartLemmas.ClearCartIsClearThenClose | managers/CartManager.js:61-66 | clearing the cart equals closing first and then clearing the products, and leaves it closed and without products |
| CartTraces.Apply | managers/CartManager.js:19-66 | every state-changing call keeps the invariant; adding, removing and clearing products keep `open`; opening and closing keep the items |
| CartTraces.RunPreservesWellFormed | managers/CartManager.js:39-53 | any sequence of calls from a well-formed state ends in a well-formed state |
| CartTraces.ReachableStatesAreWellFormed | managers/CartManager.js:3-66 | no state a new manager can reach holds two items with the same id |
| CartTraces.ItemsIgnoreVisibility | managers/CartManager.js:19-29 | after any sequence of calls, the items do not depend on the starting value of `open` |
| CartTraces.ClearCartResets | managers/CartManager.js:61-66 | any session that ends with `clearCart` ends in the initial state |
| CartManagerClass.CartManager.constructor | managers/CartManager.js:11-13 | a new manager holds the initial state: closed, empty and well-formed |
| CartManagerClass.CartManager.GetState | managers/CartManager.js:15-17 | `getState` returns the manager's current state |
| CartManagerClass.CartManager.Open | managers/CartManager.js:19-23 | the held state becomes open with the same items, and that state is returned |
| CartManagerClass.CartManager.Close | managers/CartManager.js:25-29 | the held state becomes closed with the same items, and that state is returned |
| CartManagerClass.CartManager.ProductIsInTheCart | managers/CartManager.js:31-33 | the answer holds exactly when some held item has the product's id |
| CartManagerClass.CartManager.HasProducts | managers/CartManager.js:35-37 | the answer holds exactly when the held items are not empty |
| CartManagerClass.CartManager.AddProduct | managers/CartManager.js:39-45 | the held state becomes the result of adding the product, which is returned, and the invariant is kept |
| CartManagerClass.CartManager.RemoveProduct | managers/CartManager.js:47-53 | the held state becomes the result of removing the id, which is returned, and the invariant is kept |
| CartManagerClass.CartManager.ClearProducts | managers/CartManager.js:55-59 | the held items become empty, `open` is kept, and that state is returned |
| CartManagerClass.CartManager.ClearCart | managers/CartManager.js:61-66 | the held state becomes the initial state and is returned |

## Left out

- Reactivity: `Vue.observable` and the notification of observers (managers/CartManager.js:1,12) are framework plumbing; the state is plain data here. The JavaScript methods return the live state object, so a state returned earlier shows the effect of later calls; here each call returns a copy of the state as it was then.
- Shared initial state: the module-level `initialState` object is made reactive in place, so every `new CartManager()` shares one state object. The model gives each new manager a fresh closed, empty state and does not model sharing between instances.
- Product fields other than `id` (title, price, image) are an opaque payload.
- Non-object products: the `Product` type excludes `null` and `undefined` products and products without an `id`. In the source, `addProduct(null)` on an empty cart appends the value (the `find` callback at managers/CartManager.js:32 never runs), on a non-empty cart it throws a TypeError, and once such a value is in `items` every later `productIsInTheCart`, `addProduct` and `removeProduct` (managers/CartManager.js:49) throws a TypeError too.
- Search filtering, checkout orchestration and per-item quantity handling: their implementations (the product list page, the default layout, the cart item component) are not part of this model.
