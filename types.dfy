/** The catalog's record types and the one optional-value wrapper the card stack needs. */
module Types {

  /** The three catalog categories. */
  datatype CategoryId = Seaweed | Salads | Seafood

  /** A catalog entry. Only `id` and `price` matter to the card stack; the rest is carried along. */
  datatype Product = Product(
    id: string,
    name: string,
    description: string,
    price: real,
    weight: string,
    image: string,
    categoryId: CategoryId)

  /** A value that may be absent, as reading past the end of a JavaScript array gives `undefined`. */
  datatype Option<+T> = None | Some(value: T)

  /** `products[i]` with JavaScript's out-of-range behaviour: no product past the end. */
  function ProductAt(products: seq<Product>, i: nat): (r: Option<Product>)
    ensures r.Some? <==> i < |products|
    ensures r.Some? ==> r.value == products[i]
  {
    if i < |products| then Some(products[i]) else None
  }
}
