/** The catalogue's product record and the cart entry built from it. */
module Products {

  /** A catalogue product (its floating-point price is not modelled). */
  datatype Product = Product(id: string, name: string, category: string, image: string, description: string)

  /** `Product & { quantity }`: a product in the cart with its quantity. */
  datatype CartItem = CartItem(product: Product, quantity: int)
  {
    function Id(): string { product.id }
  }

  /** No two cart entries are for the same product id. */
  predicate UniqueIds(cart: seq<CartItem>)
  {
    forall i, j :: 0 <= i < j < |cart| ==> cart[i].Id() != cart[j].Id()
  }

  /** Some entry of the cart is for product `id`. */
  predicate HasId(cart: seq<CartItem>, id: string)
  {
    exists i :: 0 <= i < |cart| && cart[i].Id() == id
  }
}
