/**
 * The shopping cart as a value: an insertion-ordered sequence of line items,
 * at most one per product id, and the pure operations the cart handlers
 * apply to it (find-or-append, set quantity, remove, total).
 */
module Cart {
  import opened Wrappers
  import opened Seqs
  import opened Catalog

  /** A product in the cart: the product's fields, a quantity, and the cached first image. */
  datatype CartItem = CartItem(product: Product, quantity: int, image: Option<string>)

  /** `product.images[0]`, which is `undefined` when there are no images. */
  function FirstImage(p: Product): Option<string> {
    if p.images == [] then None else Some(p.images[0])
  }

  /** The line item `{ ...product, quantity: 1, image: product.images[0] }`. */
  function NewItem(p: Product): CartItem {
    CartItem(p, 1, FirstImage(p))
  }

  /** The product ids of the cart, in display order. */
  function Ids(cart: seq<CartItem>): seq<string> {
    seq(|cart|, k requires 0 <= k < |cart| => cart[k].product.id)
  }

  /** At most one line item per product id. */
  predicate UniqueIds(cart: seq<CartItem>) {
    Distinct(Ids(cart))
  }

  /** Every line item has a positive quantity. */
  predicate PositiveQuantities(cart: seq<CartItem>) {
    forall k :: 0 <= k < |cart| ==> cart[k].quantity > 0
  }

  /** `cart.find(item => item.id === id)`, as the index of the first such item. */
  function Find(cart: seq<CartItem>, id: string): (r: Option<nat>)
    ensures r.Some? ==> r.value < |cart| && cart[r.value].product.id == id
    ensures r.Some? ==> forall k :: 0 <= k < r.value ==> cart[k].product.id != id
    ensures r.None? <==> forall k :: 0 <= k < |cart| ==> cart[k].product.id != id
  {
    if cart == [] then None
    else if cart[0].product.id == id then Some(0)
    else match Find(cart[1..], id)
      case Some(k) => Some(k + 1)
      case None => None
  }

  /** In a cart with unique ids the item found is the only one with that id. */
  lemma FindUnique(cart: seq<CartItem>, id: string, k: nat)
    requires UniqueIds(cart) && Find(cart, id) == Some(k)
    ensures forall j :: 0 <= j < |cart| && j != k ==> cart[j].product.id != id
  {
    var ids := Ids(cart);
    forall j | 0 <= j < |cart| && j != k
      ensures cart[j].product.id != id
    {
      if j < k { assert ids[j] != ids[k]; } else { assert ids[k] != ids[j]; }
    }
  }

  /** `cart.map(item => item.id === id ? { ...item, quantity } : item)`. */
  function SetQuantity(cart: seq<CartItem>, id: string, quantity: int): (r: seq<CartItem>)
    ensures |r| == |cart|
    ensures Ids(r) == Ids(cart)
  {
    seq(|cart|, k requires 0 <= k < |cart| =>
      if cart[k].product.id == id then cart[k].(quantity := quantity) else cart[k])
  }

  /** `cart.map(item => item.id === id ? { ...item, quantity: item.quantity + 1 } : item)`. */
  function Increment(cart: seq<CartItem>, id: string): (r: seq<CartItem>)
    ensures |r| == |cart|
    ensures Ids(r) == Ids(cart)
  {
    seq(|cart|, k requires 0 <= k < |cart| =>
      if cart[k].product.id == id then cart[k].(quantity := cart[k].quantity + 1) else cart[k])
  }

  /** `addToCart`: increment the product's line item if there is one, otherwise append a new one. */
  function AddItem(cart: seq<CartItem>, p: Product): seq<CartItem> {
    match Find(cart, p.id)
    case Some(_) => Increment(cart, p.id)
    case None => cart + [NewItem(p)]
  }

  /** The filter callback `item => item.id !== id`. */
  function OtherThan(id: string): CartItem -> bool {
    (item: CartItem) => item.product.id != id
  }

  /** `removeFromCart`: `cart.filter(item => item.id !== id)`. */
  function RemoveItem(cart: seq<CartItem>, id: string): seq<CartItem> {
    Filter(cart, OtherThan(id))
  }

  /** `updateCartQuantity`: a non-positive quantity removes the item, any other is set. */
  function UpdateQuantity(cart: seq<CartItem>, id: string, quantity: int): seq<CartItem> {
    if quantity <= 0 then RemoveItem(cart, id) else SetQuantity(cart, id, quantity)
  }

  /** `cart.reduce((sum, item) => sum + item.quantity, 0)`. */
  function Total(cart: seq<CartItem>): int {
    if cart == [] then 0 else Total(cart[..|cart| - 1]) + cart[|cart| - 1].quantity
  }

  // ---- Totals ----

  /** The total of two carts laid end to end is the sum of their totals. */
  lemma {:induction false} TotalAppend(a: seq<CartItem>, b: seq<CartItem>)
    ensures Total(a + b) == Total(a) + Total(b)
  {
    if b == [] {
      assert a + b == a;
    } else {
      var init := b[..|b| - 1];
      assert (a + b)[..|a + b| - 1] == a + init;
      TotalAppend(a, init);
    }
  }

  /** Replacing one line item changes the total by the difference of the two quantities. */
  lemma TotalReplace(cart: seq<CartItem>, k: nat, item: CartItem)
    requires k < |cart|
    ensures Total(cart[k := item]) == Total(cart) - cart[k].quantity + item.quantity
  {
    assert cart == cart[..k] + [cart[k]] + cart[k + 1..];
    assert cart[k := item] == cart[..k] + [item] + cart[k + 1..];
    TotalAppend(cart[..k] + [cart[k]], cart[k + 1..]);
    TotalAppend(cart[..k], [cart[k]]);
    TotalAppend(cart[..k] + [item], cart[k + 1..]);
    TotalAppend(cart[..k], [item]);
    assert Total([cart[k]]) == cart[k].quantity by { assert [cart[k]][..0] == []; }
    assert Total([item]) == item.quantity by { assert [item][..0] == []; }
  }

  /** The total of a two-line cart with quantities 2 and 1 is 3. */
  lemma TotalExample(a: Product, b: Product)
    ensures Total([CartItem(a, 2, None), CartItem(b, 1, None)]) == 3
  {
    var cart := [CartItem(a, 2, None), CartItem(b, 1, None)];
    assert cart[..1] == [cart[0]];
    assert Total([cart[0]]) == 2 by { assert [cart[0]][..0] == []; }
  }

  // ---- Adding ----

  lemma IncrementOnly(cart: seq<CartItem>, id: string, k: nat)
    requires k < |cart| && cart[k].product.id == id
    requires forall j :: 0 <= j < |cart| && j != k ==> cart[j].product.id != id
    ensures Increment(cart, id) == cart[k := cart[k].(quantity := cart[k].quantity + 1)]
  {
  }

  /** Adding a product already in a cart with unique ids bumps that one line item by 1 and nothing else. */
  lemma AddExisting(cart: seq<CartItem>, p: Product, k: nat)
    requires UniqueIds(cart) && Find(cart, p.id) == Some(k)
    ensures AddItem(cart, p) == cart[k := cart[k].(quantity := cart[k].quantity + 1)]
  {
    FindUnique(cart, p.id, k);
    IncrementOnly(cart, p.id, k);
  }

  /** Adding a product not yet in the cart appends a line item with quantity 1 and its first image. */
  lemma AddNew(cart: seq<CartItem>, p: Product)
    requires Find(cart, p.id).None?
    ensures AddItem(cart, p) == cart + [CartItem(p, 1, FirstImage(p))]
  {
  }

  /** Adding keeps the ids unique and the display order: the product's id is appended only when new. */
  lemma AddKeepsIds(cart: seq<CartItem>, p: Product)
    ensures Ids(AddItem(cart, p)) == if Find(cart, p.id).Some? then Ids(cart) else Ids(cart) + [p.id]
    ensures UniqueIds(cart) ==> UniqueIds(AddItem(cart, p))
  {
    if Find(cart, p.id).None? {
      var r := AddItem(cart, p);
      assert Ids(r) == Ids(cart) + [p.id];
    }
  }

  /** The item count shown on the cart icon rises by exactly one with each add. */
  lemma AddTotal(cart: seq<CartItem>, p: Product)
    requires UniqueIds(cart)
    ensures Total(AddItem(cart, p)) == Total(cart) + 1
  {
    match Find(cart, p.id)
    case Some(k) =>
      AddExisting(cart, p, k);
      TotalReplace(cart, k, cart[k].(quantity := cart[k].quantity + 1));
    case None =>
      TotalAppend(cart, [NewItem(p)]);
      assert [NewItem(p)][..0] == [];
  }

  /** Adding the same product twice to an empty cart gives one line item of quantity 2. */
  lemma AddTwiceToEmpty(p: Product)
    ensures AddItem(AddItem([], p), p) == [CartItem(p, 2, FirstImage(p))]
  {
    assert AddItem([], p) == [NewItem(p)];
    assert Find([NewItem(p)], p.id) == Some(0);
  }

  // ---- Removing ----

  /** After removal no line item has the id, and every other item stays, as often as before and in its original order. */
  lemma RemoveDropsOnlyId(cart: seq<CartItem>, id: string)
    ensures forall item :: item in RemoveItem(cart, id) <==> item in cart && item.product.id != id
    ensures forall item :: multiset(RemoveItem(cart, id))[item] == if item.product.id != id then multiset(cart)[item] else 0
    ensures IsSubsequence(RemoveItem(cart, id), cart)
    ensures Find(cart, id).None? ==> RemoveItem(cart, id) == cart
  {
    FilterMembers(cart, OtherThan(id));
    FilterCounts(cart, OtherThan(id));
    FilterIsSubsequence(cart, OtherThan(id));
    if Find(cart, id).None? {
      forall item | item in cart ensures OtherThan(id)(item) {
        var k :| 0 <= k < |cart| && cart[k] == item;
      }
      FilterKeepsAll(cart, OtherThan(id));
    }
  }

  /** In a cart with unique ids, removing a present id deletes exactly the line item at its index. */
  lemma RemoveAt(cart: seq<CartItem>, id: string, k: nat)
    requires UniqueIds(cart) && Find(cart, id) == Some(k)
    ensures RemoveItem(cart, id) == cart[..k] + cart[k + 1..]
    ensures Total(RemoveItem(cart, id)) == Total(cart) - cart[k].quantity
  {
    FindUnique(cart, id, k);
    var keep := OtherThan(id);
    assert cart == cart[..k] + ([cart[k]] + cart[k + 1..]);
    FilterConcat(cart[..k], [cart[k]] + cart[k + 1..], keep);
    FilterConcat([cart[k]], cart[k + 1..], keep);
    FilterKeepsAll(cart[..k], keep);
    FilterKeepsAll(cart[k + 1..], keep);
    assert Filter([cart[k]], keep) == [] by { assert [cart[k]][1..] == []; }
    TotalAppend(cart[..k], cart[k + 1..]);
    TotalAppend(cart[..k], [cart[k]] + cart[k + 1..]);
    TotalAppend([cart[k]], cart[k + 1..]);
    assert Total([cart[k]]) == cart[k].quantity by { assert [cart[k]][..0] == []; }
  }

  /** Removal keeps the ids unique. */
  lemma {:induction false} RemoveKeepsUnique(cart: seq<CartItem>, id: string)
    requires UniqueIds(cart)
    ensures UniqueIds(RemoveItem(cart, id))
  {
    if cart != [] {
      var tail := cart[1..];
      assert Ids(tail) == Ids(cart)[1..];
      RemoveKeepsUnique(tail, id);
      var rest := RemoveItem(tail, id);
      FilterMembers(tail, OtherThan(id));
      if OtherThan(id)(cart[0]) {
        var r := [cart[0]] + rest;
        forall i, j | 0 <= i < j < |r| ensures Ids(r)[i] != Ids(r)[j] {
          if i == 0 {
            assert r[j] in rest;
            assert r[j] in tail;
            var m :| 0 <= m < |tail| && tail[m] == r[j];
            assert Ids(cart)[0] != Ids(cart)[m + 1];
          } else {
            assert Ids(rest)[i - 1] != Ids(rest)[j - 1];
          }
        }
      }
    }
  }

  // ---- Updating ----

  lemma SetQuantityOnly(cart: seq<CartItem>, id: string, quantity: int, k: nat)
    requires k < |cart| && cart[k].product.id == id
    requires forall j :: 0 <= j < |cart| && j != k ==> cart[j].product.id != id
    ensures SetQuantity(cart, id, quantity) == cart[k := cart[k].(quantity := quantity)]
  {
  }

  /** A positive quantity replaces the quantity of the one matching line item, leaving the rest. */
  lemma UpdateSetsQuantity(cart: seq<CartItem>, id: string, quantity: int, k: nat)
    requires quantity > 0 && UniqueIds(cart) && Find(cart, id) == Some(k)
    ensures UpdateQuantity(cart, id, quantity) == cart[k := cart[k].(quantity := quantity)]
    ensures Total(UpdateQuantity(cart, id, quantity)) == Total(cart) - cart[k].quantity + quantity
  {
    FindUnique(cart, id, k);
    SetQuantityOnly(cart, id, quantity, k);
    TotalReplace(cart, k, cart[k].(quantity := quantity));
  }

  /** Updating an id that is not in the cart with a positive quantity leaves the cart as it is. */
  lemma UpdateAbsentUnchanged(cart: seq<CartItem>, id: string, quantity: int)
    requires quantity > 0 && Find(cart, id).None?
    ensures UpdateQuantity(cart, id, quantity) == cart
  {
  }

  /** A quantity of zero or less gives the same cart as removing the id. */
  lemma UpdateNonPositiveRemoves(cart: seq<CartItem>, id: string, quantity: int)
    requires quantity <= 0
    ensures UpdateQuantity(cart, id, quantity) == RemoveItem(cart, id)
  {
  }

  /** Updating keeps the ids unique. */
  lemma UpdateKeepsUnique(cart: seq<CartItem>, id: string, quantity: int)
    requires UniqueIds(cart)
    ensures UniqueIds(UpdateQuantity(cart, id, quantity))
  {
    if quantity <= 0 { RemoveKeepsUnique(cart, id); }
  }

  /** Every cart operation keeps all quantities positive. */
  lemma OperationsKeepPositive(cart: seq<CartItem>, p: Product, id: string, quantity: int)
    requires PositiveQuantities(cart)
    ensures PositiveQuantities(AddItem(cart, p))
    ensures PositiveQuantities(UpdateQuantity(cart, id, quantity))
    ensures PositiveQuantities(RemoveItem(cart, id))
  {
    var removed := RemoveItem(cart, id);
    FilterMembers(cart, OtherThan(id));
    forall k | 0 <= k < |removed| ensures removed[k].quantity > 0 {
      assert removed[k] in removed;
      var m :| 0 <= m < |cart| && cart[m] == removed[k];
    }
  }
}
