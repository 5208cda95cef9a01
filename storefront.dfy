/** The storefront page: the category tabs over the catalogue and the
    add-to-cart handler. */
module Storefront {
  import opened Seqs
  import opened Products
  import opened Navbar

  /** The test `product.category === selectedCategory`. */
  function CategoryIs(category: string): Product -> bool
  {
    (p: Product) => p.category == category
  }

  /** `filteredProducts`: the whole catalogue for the tab "all", otherwise
      the products of the selected category. */
  function FilterByCategory(products: seq<Product>, category: string): (r: seq<Product>)
  {
    if category == "all" then products else Filter(products, CategoryIs(category))
  }

  /** The tab "all" shows the catalogue as it is; any other tab shows the
      products of that category, each as often as the catalogue lists it,
      nothing else, and in catalogue order. */
  lemma FilterByCategoryContents(products: seq<Product>, category: string)
    ensures category == "all" ==> FilterByCategory(products, category) == products
    ensures category != "all" ==> var r := FilterByCategory(products, category);
      && (forall x :: multiset(r)[x] == if x.category == category then multiset(products)[x] else 0)
      && IsSubsequence(r, products)
  {
    if category != "all" {
      FilterMultiset(products, CategoryIs(category));
      FilterIsSubsequence(products, CategoryIs(category));
    }
  }

  /** `handleAddToCart`: `findIndex` looks for an entry with the product's
      id; the first such entry has its quantity raised by 1, and when there is
      none the product is appended with quantity 1. */
  method AddToCart(prev: seq<CartItem>, p: Product) returns (next: seq<CartItem>)
    ensures HasId(prev, p.id) ==>
      exists i :: && 0 <= i < |prev| && prev[i].Id() == p.id
                  && (forall j :: 0 <= j < i ==> prev[j].Id() != p.id)
                  && next == prev[i := prev[i].(quantity := prev[i].quantity + 1)]
    ensures !HasId(prev, p.id) ==> next == prev + [CartItem(p, 1)]
    ensures |prev| <= |next| <= |prev| + 1
    ensures ItemCount(next) == ItemCount(prev) + 1
    ensures UniqueIds(prev) ==> UniqueIds(next)
    ensures HasId(next, p.id)
  {
    var i := 0;
    while i < |prev| && prev[i].Id() != p.id
      invariant 0 <= i <= |prev|
      invariant forall j :: 0 <= j < i ==> prev[j].Id() != p.id
    {
      i := i + 1;
    }
    if i < |prev| {
      next := prev[i := prev[i].(quantity := prev[i].quantity + 1)];
      ItemCountUpdate(prev, i, next[i]);
      assert next[i].Id() == p.id;
    } else {
      next := prev + [CartItem(p, 1)];
      ItemCountConcat(prev, [CartItem(p, 1)]);
      ItemCountSingle(CartItem(p, 1));
      assert next[|prev|].Id() == p.id;
    }
  }
}
