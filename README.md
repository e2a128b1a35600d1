# Inventory system: a Dafny model

A model of the two classes of the inventory system in `sistema_inventario.py`,
together with proofs about them.

- `Producto` is modelled as the class `Products.Product`. A product is a
  validated record: a name that is stripped and never empty, a price that is
  never negative, and a quantity that is never negative. The name is a `const`
  field because nothing changes it after construction. The price and the
  quantity are mutable fields. Construction (`Product.Create`) and the two
  setters return the error they would raise instead of raising it.
- `Inventario` is modelled as the class `Inventory.Inventory`. Its field
  `products: seq<Product>` holds references to products in insertion order.
  Its invariant `Valid()` says that every product is valid and that no two
  names are equal after lower-casing. `Find` is the linear search with early
  return that the source performs. `Add` runs that search and appends only on
  a miss.
- The exceptions are values of `Outcomes.Error`. `Error.Kind()` says which
  Python exception each one is: the search miss is a `KeyError` and every
  other error is a `ValueError`.
- `Text.Trim` models `str.strip()` and `Text.Lower` models `str.lower()`, both
  over ASCII.
- Products are shared by reference. The `Sharing` module shows what follows:
  a product taken from the inventory and then updated through a setter is
  updated in the inventory, the inventory's invariant still holds, and the
  inventory's total changes by exactly the change in that product's value.

A duplicate name in `agregar_producto` raises `ValueError`, the same class
as the other validation failures, so `DuplicateName` has kind `ValueError`.
The search is a linear scan over the list; there is no index by name.

## Model

| member | source | states |
|---|---|---|
| Text.Trim | sistema_inventario.py:29 | `strip()`: the result is empty exactly when every character is whitespace, and otherwise it neither starts nor ends with whitespace |
| Text.TrimIsInfix | sistema_inventario.py:29 | the result of `strip()` is a contiguous part `s[a..b]` of the input, and every character outside it is whitespace |
| Text.TrimStart | sistema_inventario.py:29 | leading whitespace removed: the result is a suffix of the input, every dropped character is whitespace, and the result does not start with whitespace |
| Text.TrimEnd | sistema_inventario.py:29 | trailing whitespace removed: the result is a prefix of the input, every dropped character is whitespace, and the result does not end with whitespace |
| Text.TrimOfTrimmed | sistema_inventario.py:121 | a string that neither starts nor ends with whitespace is unchanged by `strip()`, so a stored name searched again is the same query |
| Text.TrimIdempotent | sistema_inventario.py:29 | stripping a stripped name changes nothing, so the stored name is a fixed point of `strip()` |
| Text.Lower | sistema_inventario.py:126 | `lower()` keeps the length of the string |
| Text.LowerSpec | sistema_inventario.py:126 | `lower()` maps each upper-case ASCII letter to its lower-case letter (code + 32) in the same place, keeps every other character, leaves no upper-case letter, and is idempotent |
| Text.LowerCharEqual | sistema_inventario.py:126 | two characters are equal after `lower()` exactly when they are equal or one is the upper-case form of the other |
| Text.LowerEqual | sistema_inventario.py:126 | two strings are equal after `lower()` exactly when they have the same length and agree character by character after `lower()`, which is the comparison the search makes |
| Outcomes.Error.Kind | sistema_inventario.py:107-128 | the Python exception class of each error: `KeyError` exactly for the search miss (line 128), `ValueError` for every other one (lines 31, 37, 43, 69, 77, 112, 123). This is why `agregar_producto` catches only the miss |
| Products.Validate | sistema_inventario.py:29-43 | construction succeeds exactly when the stripped name is non-empty, the price is >= 0 and the quantity is >= 0. The checks run in the source's order (name, price, quantity) and the first failure is the error. On success the name to store is the stripped input, which is a valid name |
| Products.Product.constructor | sistema_inventario.py:45-47 | the success path of construction: the stored name is the stripped input, the price and quantity are the inputs, and the product is valid |
| Products.Product.Create | sistema_inventario.py:19-47 | construction with its checks: the result is a fresh valid product exactly when the checks pass, and otherwise it is the error of the first failing check |
| Products.Product.UpdatePrice | sistema_inventario.py:61-70 | succeeds exactly when the new price is > 0, so 0 is refused although construction accepts it. On failure the error is `NonPositivePrice` and nothing changes. On success only the price changes. The product stays valid |
| Products.Product.UpdateQuantity | sistema_inventario.py:72-78 | succeeds exactly when the new quantity is >= 0. On failure the error is `NegativeNewQuantity` and nothing changes. On success only the quantity changes. The product stays valid |
| Products.Product.Value | sistema_inventario.py:80-82 | price × quantity is never negative for a valid product |
| Products.ValueIsZero | sistema_inventario.py:80-82 | the value of a valid product is zero exactly when its price or its quantity is zero |
| Inventory.FirstMatch | sistema_inventario.py:125-128 | the index of the first product in insertion order whose lower-cased name is the key; `None` exactly when no product matches |
| Inventory.FirstMatchIsOnlyMatch | sistema_inventario.py:97-112 | under the uniqueness invariant, any matching product is the first match, so the search's early return loses nothing |
| Inventory.FirstMatchAppend | sistema_inventario.py:110 | appending does not change an earlier match, and a lookup that missed before finds the appended product exactly when its name matches |
| Inventory.AppendKeepsInvariant | sistema_inventario.py:107-111 | appending a valid product whose name matches no held name keeps every product valid and the names unique up to case |
| Inventory.SumValuesAppend | sistema_inventario.py:132 | the left-to-right sum over a list with one more product is the old sum plus that product's value |
| Inventory.SumValuesNonNegative | sistema_inventario.py:132 | the sum of the values of valid products is never negative |
| Inventory.SumValuesConcat | sistema_inventario.py:132 | the sum over two lists placed one after the other is the sum of their sums |
| Inventory.SumValuesAround | sistema_inventario.py:132 | the sum splits around any position: the products before it, the product at it, and the products after it |
| Inventory.UniqueIsDistinct | sistema_inventario.py:97-112 | when the names are unique up to case, no product object is held twice |
| Inventory.SumValuesUnchanged | sistema_inventario.py:132 | the sum over products none of which changed between two states is the same in both |
| Inventory.SumValuesAfterUpdate | sistema_inventario.py:132 | when only one product, held once, changed between two states, the sum changes by exactly the change in its value |
| Inventory.AllValidAfterUpdate | sistema_inventario.py:61-78 | when only one product changed and it is still valid, every held product is still valid |
| Inventory.Inventory.constructor | sistema_inventario.py:94-95 | a new inventory is empty and valid |
| Inventory.Inventory.Find | sistema_inventario.py:114-128 | an empty stripped query fails with `EmptyQuery`. Otherwise the result is the first product in insertion order whose lower-cased name equals the lower-cased stripped query, or `NotFound` with the stripped query exactly when none matches. Nothing is modified |
| Inventory.Inventory.Add | sistema_inventario.py:97-112 | fails with `DuplicateName` exactly when a held name equals the new name up to case, and then the list is unchanged. Otherwise the new list is the old list with the product appended, and the product is then found at the end. The invariant is kept, and the total grows by the product's value. The search's `ValueError` for an empty query is proved impossible, so only its `KeyError` is caught |
| Inventory.Inventory.Append | sistema_inventario.py:110 | the append on a miss: given a valid product that matches no held name, the new list is the old one with the product at the end. The invariant is kept, the total grows by the product's value, and a search for the product's name finds it at the end |
| Inventory.Inventory.TotalValue | sistema_inventario.py:130-132 | the sum of the products' values is 0 for an empty inventory and never negative for a valid one |
| Inventory.Inventory.List | sistema_inventario.py:134-136 | the listing equals the held list in insertion order, and nothing is modified. A Dafny sequence is a value, so the copy is independent of the inventory, but the products in it are the same objects |
| Sharing.UpdateHeldPrice | sistema_inventario.py:61-70 | updating the price of a product the inventory holds succeeds exactly when the new price is > 0 and otherwise fails with `NonPositivePrice`. It keeps the inventory's list and invariant, the inventory sees the new price, the quantity is unchanged, and the inventory's total changes by exactly the change in the product's value |
| Sharing.UpdateHeldQuantity | sistema_inventario.py:72-78 | updating the quantity of a product the inventory holds succeeds exactly when the new quantity is >= 0 and otherwise fails with `NegativeNewQuantity`. It keeps the inventory's list and invariant, the inventory sees the new quantity, the price is unchanged, and the inventory's total changes by exactly the change in the product's value |

## Left out

- The interactive menu and the `__main__` block (sistema_inventario.py:139-208) are left out. They are console I/O: `input`, `print`, the menu loop, and `float()`/`int()` parsing of user text.
- `__str__` (sistema_inventario.py:84-88) is left out. It only formats text, with two decimals.
- The `isinstance` checks and their `TypeError`s are left out: a non-string name, a non-numeric or boolean price, a non-integer or boolean quantity, a non-`Producto` argument to `agregar_producto`, and a non-string query. Dafny's static types rule these inputs out.
- Prices are exact reals (`real`), not IEEE doubles. `float(precio)` conversion, rounding in `precio * cantidad`, and rounding in the running `sum` are not modelled.
- Products.Product.Create: a NaN price passes the check `precio < 0` (sistema_inventario.py:36) because every comparison with NaN is false, so the source stores it. A `real` has no NaN, so the model's invariant `price >= 0` is stronger than what the source guarantees for that input.
- Products.Product.UpdatePrice: a NaN new price passes the check `nuevo_precio <= 0` (sistema_inventario.py:68) and is stored. The model cannot express it, for the same reason.
- Products.Product.Create: `float(precio)` (sistema_inventario.py:46) raises `OverflowError` for an `int` price too large for a double. `UpdatePrice` has the same error at line 70. Neither is modelled.
- Products.Product.Value: `precio * cantidad` (sistema_inventario.py:82) raises `OverflowError` when the quantity is an `int` too large to convert to a double, and it gives infinity when the product overflows. Neither is modelled; the model's value is the exact product.
- Text.Trim: matches Python's `strip()` on ASCII only. Non-ASCII Unicode whitespace (for example U+00A0 or U+0085) is not stripped.
- Text.Lower: lower-cases only `A`-`Z`. Python's `lower()` also lower-cases non-ASCII letters, such as `Ñ` and accented vowels, which the model leaves as they are.
- The exception messages are reduced to the error constructors: the text is not modelled, only the name or query some of them carry.
- Inventory.Inventory.Add: its total-value clause sums the old list in the state after the call. The two states agree on every product because `Add` modifies only the inventory.
