/** The frontend's `products` slice: the catalogue the page shows, with a
    local stock decrement after a purchase. Reducers are written as functions
    from the old state to the new one. */
module ProductSlice {
  import opened Common

  /** A product as the frontend holds it; `price` is in cents. */
  datatype Item = Item(id: int, name: string, price: int, stock: int, description: string, imageUrl: Option<string>)

  datatype ProductState = ProductState(items: seq<Item>, loading: bool, error: Option<string>)

  function InitialState(): (s: ProductState)
    ensures s.items == [] && !s.loading && s.error.None?
  {
    ProductState([], false, None)
  }

  /** The position of the first item with that id, or `|items|` if there is none. */
  function FirstIndexOf(items: seq<Item>, id: int): (k: nat)
    ensures k <= |items|
    ensures k < |items| ==> items[k].id == id
    ensures forall i | 0 <= i < k :: items[i].id != id
  {
    if items == [] || items[0].id == id then 0 else 1 + FirstIndexOf(items[1..], id)
  }

  /** `items.find(p => p.id === id)` followed by `stock -= quantity` on what it
      found: only the first item with that id is touched. */
  function DecrementFirst(items: seq<Item>, id: int, quantity: int): (r: seq<Item>)
    ensures |r| == |items|
  {
    if items == [] then []
    else if items[0].id == id then [items[0].(stock := items[0].stock - quantity)] + items[1..]
    else [items[0]] + DecrementFirst(items[1..], id, quantity)
  }

  /** The first item with the id loses `quantity` units, with no lower bound;
      every other item, and every other field, stays as it was. */
  lemma {:induction false} DecrementFirstAt(items: seq<Item>, id: int, quantity: int, i: nat)
    requires i < |items|
    ensures var r, k := DecrementFirst(items, id, quantity), FirstIndexOf(items, id);
      && (i != k ==> r[i] == items[i])
      && (i == k ==> r[i] == items[i].(stock := items[i].stock - quantity))
    decreases |items|
  {
    if items[0].id != id && i > 0 {
      DecrementFirstAt(items[1..], id, quantity, i - 1);
    }
  }

  /** With no item of that id the list comes back unchanged. */
  lemma DecrementFirstNoMatch(items: seq<Item>, id: int, quantity: int)
    requires forall i | 0 <= i < |items| :: items[i].id != id
    ensures DecrementFirst(items, id, quantity) == items
  {
    var r := DecrementFirst(items, id, quantity);
    forall i | 0 <= i < |items|
      ensures r[i] == items[i]
    {
      DecrementFirstAt(items, id, quantity, i);
    }
  }

  /** The ids, and so the order of the list, never change. */
  lemma DecrementFirstKeepsIds(items: seq<Item>, id: int, quantity: int)
    ensures var r := DecrementFirst(items, id, quantity);
      forall i | 0 <= i < |items| :: r[i].id == items[i].id
  {
    var r := DecrementFirst(items, id, quantity);
    forall i | 0 <= i < |items|
      ensures r[i].id == items[i].id
    {
      DecrementFirstAt(items, id, quantity, i);
    }
  }

  /** Two decrements of the same product add up to one. */
  lemma {:induction false} DecrementFirstCompose(items: seq<Item>, id: int, a: int, b: int)
    ensures DecrementFirst(DecrementFirst(items, id, a), id, b) == DecrementFirst(items, id, a + b)
    decreases |items|
  {
    if items != [] && items[0].id != id {
      DecrementFirstCompose(items[1..], id, a, b);
      var once := DecrementFirst(items, id, a);
      assert once[0] == items[0] && once[1..] == DecrementFirst(items[1..], id, a);
    }
  }

  function TotalStock(items: seq<Item>): int
  {
    if items == [] then 0 else items[0].stock + TotalStock(items[1..])
  }

  /** The stock on the page drops by exactly `quantity` when the product is
      listed, and not at all otherwise. */
  lemma {:induction false} DecrementFirstTotal(items: seq<Item>, id: int, quantity: int)
    ensures TotalStock(DecrementFirst(items, id, quantity))
         == TotalStock(items) - (if FirstIndexOf(items, id) < |items| then quantity else 0)
    decreases |items|
  {
    if items != [] {
      var r := DecrementFirst(items, id, quantity);
      if items[0].id == id {
        assert r[1..] == items[1..];
      } else {
        DecrementFirstTotal(items[1..], id, quantity);
        assert r[1..] == DecrementFirst(items[1..], id, quantity);
      }
    }
  }

  /** The stock can go negative: 1 unit left and 3 bought leaves -2. */
  lemma DecrementFirstBelowZero()
    ensures DecrementFirst([Item(7, "Mouse", 2500, 1, "Inalámbrico", None)], 7, 3)
         == [Item(7, "Mouse", 2500, -2, "Inalámbrico", None)]
  {
  }

  /** `setProducts(xs)`: the catalogue becomes `xs`. */
  function SetProducts(s: ProductState, xs: seq<Item>): (t: ProductState)
    ensures t.items == xs && t.loading == s.loading && t.error == s.error
  {
    s.(items := xs)
  }

  /** `updateStock({ productId, quantity })`. */
  function UpdateStock(s: ProductState, productId: int, quantity: int): (t: ProductState)
    ensures |t.items| == |s.items| && t.loading == s.loading && t.error == s.error
  {
    s.(items := DecrementFirst(s.items, productId, quantity))
  }

  /** `setLoading(b)`. */
  function SetLoading(s: ProductState, b: bool): (t: ProductState)
    ensures t.loading == b && t.items == s.items && t.error == s.error
  {
    s.(loading := b)
  }

  /** `setError(e)`. */
  function SetError(s: ProductState, e: Option<string>): (t: ProductState)
    ensures t.error == e && t.items == s.items && t.loading == s.loading
  {
    s.(error := e)
  }

  /** `updateStock` for a product that is not listed leaves the state as it was. */
  lemma UpdateStockUnlisted(s: ProductState, productId: int, quantity: int)
    requires forall i | 0 <= i < |s.items| :: s.items[i].id != productId
    ensures UpdateStock(s, productId, quantity) == s
  {
    DecrementFirstNoMatch(s.items, productId, quantity);
  }
}
