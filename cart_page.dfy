/** The cart page's three quantity handlers. Each maps or filters the cart
    into a new list. */
module CartPage {
  import opened Seqs
  import opened Products
  import opened Navbar

  /** `handleIncreaseQuantity`: every entry with the id gets one more. */
  function Increase(cart: seq<CartItem>, id: string): (r: seq<CartItem>)
    ensures |r| == |cart|
    ensures forall i :: 0 <= i < |cart| ==> r[i].product == cart[i].product
  {
    seq(|cart|, i requires 0 <= i < |cart| =>
      if cart[i].Id() == id then cart[i].(quantity := cart[i].quantity + 1) else cart[i])
  }

  /** `handleDecreaseQuantity`: every entry with the id and a quantity above
      1 gets one fewer; an entry at 1 (or below) is left alone. */
  function Decrease(cart: seq<CartItem>, id: string): (r: seq<CartItem>)
    ensures |r| == |cart|
    ensures forall i :: 0 <= i < |cart| ==> r[i].product == cart[i].product
    ensures forall i :: 0 <= i < |cart| && cart[i].quantity >= 1 ==> r[i].quantity >= 1
  {
    seq(|cart|, i requires 0 <= i < |cart| =>
      if cart[i].Id() == id && cart[i].quantity > 1 then cart[i].(quantity := cart[i].quantity - 1) else cart[i])
  }

  /** The test `item.id !== id`. */
  function IdIsNot(id: string): CartItem -> bool
  {
    (x: CartItem) => x.Id() != id
  }

  /** `handleRemoveItem`: the entries with the id are dropped. */
  function Remove(cart: seq<CartItem>, id: string): (r: seq<CartItem>)
  {
    Filter(cart, IdIsNot(id))
  }

  /** Increase touches only the entries with the id, and only their quantity;
      with unique ids it is a one-slot update and the badge grows by one. */
  lemma IncreaseEffect(cart: seq<CartItem>, id: string, i: nat)
    requires UniqueIds(cart) && i < |cart| && cart[i].Id() == id
    ensures Increase(cart, id) == cart[i := cart[i].(quantity := cart[i].quantity + 1)]
    ensures ItemCount(Increase(cart, id)) == ItemCount(cart) + 1
    ensures UniqueIds(Increase(cart, id))
  {
    var r := Increase(cart, id);
    var x := cart[i].(quantity := cart[i].quantity + 1);
    assert r == cart[i := x] by {
      forall j | 0 <= j < |cart| ensures r[j] == cart[i := x][j] {
        if j != i {
          assert cart[j].Id() != cart[i].Id();
        }
      }
    }
    assert forall j :: 0 <= j < |cart| ==> r[j].Id() == cart[j].Id();
    ItemCountUpdate(cart, i, x);
  }

  /** Decrease on the entry with the id, under unique ids: one fewer when
      the quantity is above 1, nothing at all when it is not. */
  lemma DecreaseEffect(cart: seq<CartItem>, id: string, i: nat)
    requires UniqueIds(cart) && i < |cart| && cart[i].Id() == id
    ensures cart[i].quantity > 1 ==> Decrease(cart, id) == cart[i := cart[i].(quantity := cart[i].quantity - 1)]
    ensures cart[i].quantity > 1 ==> ItemCount(Decrease(cart, id)) == ItemCount(cart) - 1
    ensures cart[i].quantity <= 1 ==> Decrease(cart, id) == cart
    ensures UniqueIds(Decrease(cart, id))
  {
    var r := Decrease(cart, id);
    var x := r[i];
    assert r == cart[i := x] by {
      forall j | 0 <= j < |cart| ensures r[j] == cart[i := x][j] {
        if j != i {
          assert cart[j].Id() != cart[i].Id();
        }
      }
    }
    assert forall j :: 0 <= j < |cart| ==> r[j].Id() == cart[j].Id();
    ItemCountUpdate(cart, i, x);
  }

  /** Remove keeps every entry without the id, in order and as often as
      before, and no entry with it. */
  lemma RemoveContents(cart: seq<CartItem>, id: string)
    ensures !HasId(Remove(cart, id), id)
    ensures forall x :: multiset(Remove(cart, id))[x] == if x.Id() != id then multiset(cart)[x] else 0
    ensures IsSubsequence(Remove(cart, id), cart)
    ensures UniqueIds(cart) ==> UniqueIds(Remove(cart, id))
  {
    var r := Remove(cart, id);
    FilterMultiset(cart, IdIsNot(id));
    FilterIsSubsequence(cart, IdIsNot(id));
    forall k | 0 <= k < |r| ensures r[k].Id() != id {
      assert r[k] in r;
    }
    if UniqueIds(cart) {
      RemoveKeepsUniqueIds(cart, id);
    }
  }

  /** Filtering keeps ids unique. */
  lemma {:induction false} RemoveKeepsUniqueIds(cart: seq<CartItem>, id: string)
    requires UniqueIds(cart)
    ensures UniqueIds(Remove(cart, id))
  {
    if cart != [] {
      var tail := cart[1..];
      assert UniqueIds(tail) by {
        forall i, j | 0 <= i < j < |tail| ensures tail[i].Id() != tail[j].Id() {
          assert tail[i] == cart[i + 1] && tail[j] == cart[j + 1];
        }
      }
      RemoveKeepsUniqueIds(tail, id);
      var r := Remove(cart, id);
      forall x | x in Remove(tail, id) ensures x.Id() != cart[0].Id() {
        assert x in tail;
        var k :| 0 <= k < |tail| && tail[k] == x;
        assert cart[k + 1] == x;
      }
      if IdIsNot(id)(cart[0]) {
        assert r == [cart[0]] + Remove(tail, id);
        forall i, j | 0 <= i < j < |r| ensures r[i].Id() != r[j].Id() {
          if i == 0 {
            assert r[j] in Remove(tail, id) by {
              assert r[j] == Remove(tail, id)[j - 1];
            }
          } else {
            assert r[i] == Remove(tail, id)[i - 1] && r[j] == Remove(tail, id)[j - 1];
          }
        }
      } else {
        assert r == Remove(tail, id);
      }
    }
  }

  /** Under unique ids removing the entry at `i` is cutting that slot out,
      which lowers the badge by its quantity. */
  lemma RemoveEffect(cart: seq<CartItem>, id: string, i: nat)
    requires UniqueIds(cart) && i < |cart| && cart[i].Id() == id
    ensures Remove(cart, id) == cart[..i] + cart[i + 1..]
    ensures ItemCount(Remove(cart, id)) == ItemCount(cart) - cart[i].quantity
  {
    OthersHaveOtherIds(cart, i);
    assert cart == cart[..i] + [cart[i]] + cart[i + 1..];
    RemoveSlot(cart[..i], cart[i], cart[i + 1..], id);
  }

  /** Under unique ids no entry before or after slot `i` shares its id. */
  lemma OthersHaveOtherIds(cart: seq<CartItem>, i: nat)
    requires UniqueIds(cart) && i < |cart|
    ensures forall x :: x in cart[..i] ==> x.Id() != cart[i].Id()
    ensures forall x :: x in cart[i + 1..] ==> x.Id() != cart[i].Id()
  {
    forall x | x in cart[..i] ensures x.Id() != cart[i].Id() {
      var j :| 0 <= j < i && cart[..i][j] == x;
      assert cart[j] == x;
    }
    forall x | x in cart[i + 1..] ensures x.Id() != cart[i].Id() {
      var j :| 0 <= j < |cart| - i - 1 && cart[i + 1..][j] == x;
      assert cart[i + 1 + j] == x;
    }
  }

  /** Removing the id from a cart where only the middle entry `x` has it. */
  lemma RemoveSlot(head: seq<CartItem>, x: CartItem, tail: seq<CartItem>, id: string)
    requires forall y :: y in head ==> IdIsNot(id)(y)
    requires forall y :: y in tail ==> IdIsNot(id)(y)
    requires x.Id() == id
    ensures Remove(head + [x] + tail, id) == head + tail
    ensures ItemCount(head + [x] + tail) == ItemCount(head + tail) + x.quantity
  {
    FilterCutsOne(head, x, tail, IdIsNot(id));
    ItemCountConcat(head + [x], tail);
    ItemCountConcat(head, [x]);
    ItemCountSingle(x);
    ItemCountConcat(head, tail);
  }

  /** An id the cart does not hold leaves all three handlers without effect. */
  lemma AbsentIdUnchanged(cart: seq<CartItem>, id: string)
    requires !HasId(cart, id)
    ensures Increase(cart, id) == cart
    ensures Decrease(cart, id) == cart
    ensures Remove(cart, id) == cart
  {
    FilterAll(cart, IdIsNot(id));
  }
}
