/**
 Properties that relate several calls of the cart operations: idempotence,
 independence of the visibility flag from the items, the add/remove round
 trip, order preservation of removal and the one-entry-per-id guarantee.
 */
module CartLemmas {
  import opened CartModel

  /** Number of items of `items` that carry identifier `id`. */
  function CountId<P>(items: seq<Product<P>>, id: Id): nat {
    if |items| == 0 then 0
    else (if items[0].id == id then 1 else 0) + CountId(items[1..], id)
  }

  /** An identifier is counted exactly when some item carries it. */
  lemma {:induction false} CountIdPositive<P>(items: seq<Product<P>>, id: Id)
    ensures CountId(items, id) > 0 <==> HasId(items, id)
  {
    if |items| > 0 {
      assert items == [items[0]] + items[1..];
      HasIdCons(items[0], items[1..], id);
      CountIdPositive(items[1..], id);
    }
  }

  /** Under the cart's invariant every identifier occurs at most once. */
  lemma {:induction false} UniqueCountAtMostOne<P>(items: seq<Product<P>>, id: Id)
    requires Unique(items)
    ensures CountId(items, id) <= 1
    ensures CountId(items, id) == 1 <==> HasId(items, id)
  {
    CountIdPositive(items, id);
    if |items| > 0 {
      assert items == [items[0]] + items[1..];
      UniqueCons(items[0], items[1..]);
      UniqueCountAtMostOne(items[1..], id);
      if items[0].id == id {
        CountIdPositive(items[1..], id);
      }
    }
  }

  // ---------------------------------------------------------------------------
  // Visibility

  lemma OpenIdempotent<P>(s: CartState<P>)
    ensures Open(Open(s)) == Open(s)
  {
  }

  lemma CloseIdempotent<P>(s: CartState<P>)
    ensures Close(Close(s)) == Close(s)
  {
  }

  /** Closing after opening restores a closed cart exactly. */
  lemma CloseUndoesOpen<P>(s: CartState<P>)
    requires !s.open
    ensures Close(Open(s)) == s
  {
  }

  /** Showing or hiding the cart commutes with every item mutation. */
  lemma VisibilityCommutesWithItems<P>(s: CartState<P>, p: Product<P>, id: Id)
    ensures Open(AddProduct(s, p)) == AddProduct(Open(s), p)
    ensures Close(AddProduct(s, p)) == AddProduct(Close(s), p)
    ensures Open(RemoveProduct(s, id)) == RemoveProduct(Open(s), id)
    ensures Close(RemoveProduct(s, id)) == RemoveProduct(Close(s), id)
    ensures Open(ClearProducts(s)) == ClearProducts(Open(s))
    ensures Close(ClearProducts(s)) == ClearProducts(Close(s))
  {
  }

  // ---------------------------------------------------------------------------
  // Queries

  /** Membership looks at the identifier only, never at the rest of the product. */
  lemma ProductIsInTheCartByIdOnly<P>(s: CartState<P>, p: Product<P>, q: Product<P>)
    requires p.id == q.id
    ensures ProductIsInTheCart(s, p) == ProductIsInTheCart(s, q)
    ensures ProductIsInTheCart(s, p) <==> exists i :: 0 <= i < |s.items| && s.items[i].id == q.id
  {
  }

  /** A cart has products exactly when some product is in it. */
  lemma HasProductsIffSomeProduct<P>(s: CartState<P>)
    ensures HasProducts(s) <==> exists p :: p in s.items && ProductIsInTheCart(s, p)
  {
    if |s.items| > 0 {
      assert s.items[0] in s.items && ProductIsInTheCart(s, s.items[0]);
    }
  }

  // ---------------------------------------------------------------------------
  // Adding

  /** Adding the same product twice is the same as adding it once. */
  lemma AddProductIdempotent<P>(s: CartState<P>, p: Product<P>)
    ensures AddProduct(AddProduct(s, p), p) == AddProduct(s, p)
  {
  }

  /** After adding a product, a well-formed cart holds exactly one entry with its id. */
  lemma AddProductLeavesOneEntry<P>(s: CartState<P>, p: Product<P>)
    requires WellFormed(s)
    ensures CountId(AddProduct(s, p).items, p.id) == 1
    ensures CountId(AddProduct(AddProduct(s, p), p).items, p.id) == 1
  {
    var r := AddProduct(s, p);
    UniqueCountAtMostOne(r.items, p.id);
  }

  /** Adding one product twice to a fresh cart leaves a single item. */
  lemma AddTwiceToFreshCart<P>(p: Product<P>)
    ensures AddProduct(AddProduct(Initial(), p), p).items == [p]
  {
  }

  /** Re-adding a product already present keeps the cart's items and their order. */
  lemma ReAddKeepsItems<P>(a: Product<P>, b: Product<P>, o: bool)
    requires a.id != b.id
    ensures AddProduct(AddProduct(AddProduct(CartState(o, []), a), b), a).items == [a, b]
  {
    var s := AddProduct(AddProduct(CartState(o, []), a), b);
    assert s.items == [a, b];
    assert s.items[0].id == a.id;
  }

  /** Only appends: the previous items stay a prefix, in their order. */
  lemma AddProductKeepsPrefix<P>(s: CartState<P>, p: Product<P>)
    ensures AddProduct(s, p).items[..|s.items|] == s.items
    ensures |AddProduct(s, p).items| == |s.items| + (if ProductIsInTheCart(s, p) then 0 else 1)
  {
  }

  // ---------------------------------------------------------------------------
  // Removing

  /** Filtering distributes over concatenation, so removal keeps the relative order of what stays. */
  lemma {:induction false} FilterAppend<P>(a: seq<Product<P>>, b: seq<Product<P>>, id: Id)
    ensures Filter(a + b, id) == Filter(a, id) + Filter(b, id)
  {
    if |a| == 0 {
      assert a + b == b;
    } else {
      assert (a + b)[0] == a[0];
      assert (a + b)[1..] == a[1..] + b;
      FilterAppend(a[1..], b, id);
    }
  }

  /** In a unique sequence the id of one entry occurs on neither side of it. */
  lemma UniqueAround<P>(a: seq<Product<P>>, x: Product<P>, b: seq<Product<P>>)
    requires Unique(a + [x] + b)
    ensures !HasId(a, x.id) && !HasId(b, x.id)
  {
    var items := a + [x] + b;
    assert items[|a|] == x;
    forall k | 0 <= k < |a| ensures a[k].id != x.id {
      assert items[k] == a[k];
    }
    forall k | 0 <= k < |b| ensures b[k].id != x.id {
      assert items[|a| + 1 + k] == b[k];
    }
  }

  lemma FilterSingleton<P>(x: Product<P>)
    ensures Filter([x], x.id) == []
  {
    assert [x][1..] == [];
  }

  /** Removing the id of an entry takes out just that entry and leaves both sides in order. */
  lemma RemoveProductSplits<P>(o: bool, a: seq<Product<P>>, x: Product<P>, b: seq<Product<P>>)
    requires Unique(a + [x] + b)
    ensures RemoveProduct(CartState(o, a + [x] + b), x.id) == CartState(o, a + b)
  {
    UniqueAround(a, x, b);
    FilterSingleton(x);
    calc {
      Filter(a + [x] + b, x.id);
      { FilterAppend(a + [x], b, x.id); }
      Filter(a + [x], x.id) + Filter(b, x.id);
      { FilterAppend(a, [x], x.id); }
      Filter(a, x.id) + Filter([x], x.id) + Filter(b, x.id);
      a + [] + b;
    }
    assert a + [] + b == a + b;
  }

  /** Removing a product that was just added restores the cart. */
  lemma RemoveUndoesAdd<P>(s: CartState<P>, p: Product<P>)
    requires !ProductIsInTheCart(s, p)
    ensures RemoveProduct(AddProduct(s, p), p.id) == s
  {
    FilterAppend(s.items, [p], p.id);
    FilterSingleton(p);
    assert s.items + [] == s.items;
  }

  /** Removing the same id twice is the same as removing it once. */
  lemma RemoveProductIdempotent<P>(s: CartState<P>, id: Id)
    ensures RemoveProduct(RemoveProduct(s, id), id) == RemoveProduct(s, id)
  {
  }

  /** Removal drops exactly the entries that carry the id. */
  lemma {:induction false} FilterCount<P>(items: seq<Product<P>>, id: Id)
    ensures |Filter(items, id)| == |items| - CountId(items, id)
  {
    if |items| > 0 {
      FilterCount(items[1..], id);
    }
  }

  /** In a well-formed cart, removing a present id shortens the items by exactly one. */
  lemma RemoveProductShortensByOne<P>(s: CartState<P>, id: Id)
    requires WellFormed(s)
    ensures |RemoveProduct(s, id).items| == |s.items| - (if HasId(s.items, id) then 1 else 0)
  {
    FilterCount(s.items, id);
    UniqueCountAtMostOne(s.items, id);
  }

  // ---------------------------------------------------------------------------
  // Clearing

  /** Clearing the cart may close it first or last; either way it ends closed and empty. */
  lemma ClearCartIsClearThenClose<P>(s: CartState<P>)
    ensures ClearCart(s) == ClearProducts(Close(s))
    ensures !HasProducts(ClearCart(s)) && !ClearCart(s).open
  {
  }
}
