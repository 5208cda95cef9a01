/** The navigation bar's cart badge. */
module Navbar {
  import opened Products

  /** `cartItems.reduce((total, item) => total + item.quantity, 0)`: the
      quantities summed from the left. When every quantity is at least 1 the
      badge is at least the number of entries. */
  function ItemCount(cart: seq<CartItem>): (n: int)
    ensures (forall i :: 0 <= i < |cart| ==> cart[i].quantity >= 1) ==> n >= |cart|
    ensures (forall i :: 0 <= i < |cart| ==> cart[i].quantity >= 0) ==> n >= 0
  {
    if cart == [] then 0
    else
      assert forall i :: 0 <= i < |cart| - 1 ==> cart[..|cart| - 1][i] == cart[i];
      ItemCount(cart[..|cart| - 1]) + cart[|cart| - 1].quantity
  }

  /** An empty cart shows 0. */
  lemma ItemCountEmpty()
    ensures ItemCount([]) == 0
  {
  }

  /** The badge of two carts joined is the sum of their badges. */
  lemma {:induction false} ItemCountConcat(a: seq<CartItem>, b: seq<CartItem>)
    ensures ItemCount(a + b) == ItemCount(a) + ItemCount(b)
    decreases |b|
  {
    if b == [] {
      assert a + b == a;
    } else {
      var front := b[..|b| - 1];
      assert (a + b)[..|a + b| - 1] == a + front;
      ItemCountConcat(a, front);
    }
  }

  /** The badge of a one-entry cart is that entry's quantity. */
  lemma ItemCountSingle(x: CartItem)
    ensures ItemCount([x]) == x.quantity
  {
    assert [x][..0] == [];
  }

  /** Replacing one entry changes the badge by the difference of the two quantities. */
  lemma ItemCountUpdate(cart: seq<CartItem>, i: nat, x: CartItem)
    requires i < |cart|
    ensures ItemCount(cart[i := x]) == ItemCount(cart) - cart[i].quantity + x.quantity
  {
    assert cart == cart[..i] + [cart[i]] + cart[i + 1..];
    assert cart[i := x] == cart[..i] + [x] + cart[i + 1..];
    ItemCountConcat(cart[..i] + [cart[i]], cart[i + 1..]);
    ItemCountConcat(cart[..i] + [x], cart[i + 1..]);
    ItemCountConcat(cart[..i], [cart[i]]);
    ItemCountConcat(cart[..i], [x]);
    ItemCountSingle(cart[i]);
    ItemCountSingle(x);
  }
}
