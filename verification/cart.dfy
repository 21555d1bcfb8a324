/**
 The cart state of the storefront and its transitions.

 A cart is a visibility flag plus the products placed in it, in insertion
 order. Products are identified by their `id` alone; everything else a product
 carries (title, price, image) is opaque to the cart and modelled as a payload
 of type `P`. Every operation of the cart manager is a pure function from the
 old state to the new one; the mutable wrapper lives in module CartManagerClass.
 */
module CartModel {

  /** Product identifiers are compared with JavaScript's strict equality on strings. */
  type Id = string

  datatype Product<P> = Product(id: Id, payload: P)

  datatype CartState<P> = CartState(open: bool, items: seq<Product<P>>)

  datatype Option<T> = None | Some(value: T)

  /** Some item of `items` carries identifier `id`. */
  ghost predicate HasId<P>(items: seq<Product<P>>, id: Id) {
    exists i :: 0 <= i < |items| && items[i].id == id
  }

  /** The cart's invariant: no two items share an identifier. */
  ghost predicate Unique<P>(items: seq<Product<P>>) {
    forall i, j :: 0 <= i < j < |items| ==> items[i].id != items[j].id
  }

  ghost predicate WellFormed<P>(s: CartState<P>) {
    Unique(s.items)
  }

  /** The state every new manager starts from: closed and empty. */
  function Initial<P>(): (s: CartState<P>)
    ensures !s.open
    ensures forall id :: !HasId(s.items, id)
    ensures WellFormed(s)
  {
    CartState(false, [])
  }

  /** Shows the cart; the items are left alone. */
  function Open<P>(s: CartState<P>): (r: CartState<P>)
    ensures r.open
    ensures r.items == s.items
  {
    s.(open := true)
  }

  /** Hides the cart; the items are left alone. */
  function Close<P>(s: CartState<P>): (r: CartState<P>)
    ensures !r.open
    ensures r.items == s.items
  {
    s.(open := false)
  }

  /**
   The first item whose identifier is `id`, as Array.prototype.find returns it,
   or None when there is none.
   */
  function Find<P>(items: seq<Product<P>>, id: Id): (r: Option<Product<P>>)
    ensures r.None? <==> !HasId(items, id)
    ensures r.Some? ==> r.value.id == id && r.value in items
    ensures r.Some? ==> exists i :: 0 <= i < |items| && items[i] == r.value
                                   && forall j :: 0 <= j < i ==> items[j].id != id
  {
    if |items| == 0 then None
    else if items[0].id == id then Some(items[0])
    else
      var r := Find(items[1..], id);
      assert HasId(items[1..], id) ==> HasId(items, id) by {
        if HasId(items[1..], id) {
          var k :| 0 <= k < |items[1..]| && items[1..][k].id == id;
          assert items[k + 1].id == id;
        }
      }
      assert r.Some? ==> exists i :: 0 <= i < |items| && items[i] == r.value
                                     && forall j :: 0 <= j < i ==> items[j].id != id by {
        if r.Some? {
          var k :| 0 <= k < |items[1..]| && items[1..][k] == r.value
                   && forall j :: 0 <= j < k ==> items[1..][j].id != id;
          assert items[k + 1] == r.value;
          forall j | 0 <= j < k + 1 ensures items[j].id != id {
            if j > 0 { assert items[j] == items[1..][j - 1]; }
          }
        }
      }
      r
  }

  /** Whether a product with the same identifier as `p` is already in the cart. */
  predicate ProductIsInTheCart<P>(s: CartState<P>, p: Product<P>)
    ensures ProductIsInTheCart(s, p) <==> HasId(s.items, p.id)
  {
    Find(s.items, p.id).Some?
  }

  /** Whether the cart holds at least one item. */
  predicate HasProducts<P>(s: CartState<P>)
    ensures HasProducts(s) <==> exists id :: HasId(s.items, id)
  {
    if |s.items| == 0 then false
    else assert HasId(s.items, s.items[0].id); true
  }

  /**
   Appends `p` at the end when its identifier is absent; otherwise the state is
   returned unchanged.
   */
  function AddProduct<P>(s: CartState<P>, p: Product<P>): (r: CartState<P>)
    ensures r.open == s.open
    ensures HasId(s.items, p.id) ==> r == s
    ensures !HasId(s.items, p.id) ==> r.items == s.items + [p]
    ensures HasId(r.items, p.id)
    ensures WellFormed(s) ==> WellFormed(r)
  {
    if !ProductIsInTheCart(s, p) then
      var r := s.(items := s.items + [p]);
      assert r.items[|s.items|].id == p.id;
      r
    else
      s
  }

  lemma HasIdCons<P>(x: Product<P>, rest: seq<Product<P>>, id: Id)
    ensures HasId([x] + rest, id) <==> x.id == id || HasId(rest, id)
  {
    var xs := [x] + rest;
    if x.id == id {
      assert xs[0].id == id;
    }
    if HasId(rest, id) {
      var k :| 0 <= k < |rest| && rest[k].id == id;
      assert xs[k + 1].id == id;
    }
    if HasId(xs, id) && x.id != id {
      var k :| 0 <= k < |xs| && xs[k].id == id;
      assert rest[k - 1].id == id;
    }
  }

  lemma UniqueCons<P>(x: Product<P>, rest: seq<Product<P>>)
    ensures Unique([x] + rest) <==> Unique(rest) && !HasId(rest, x.id)
  {
    var xs := [x] + rest;
    HasIdCons(x, rest, x.id);
    if Unique(xs) {
      forall i, j | 0 <= i < j < |rest| ensures rest[i].id != rest[j].id {
        assert xs[i + 1] == rest[i] && xs[j + 1] == rest[j];
      }
      forall k | 0 <= k < |rest| ensures rest[k].id != x.id {
        assert xs[0] == x && xs[k + 1] == rest[k];
        assert xs[0].id != xs[k + 1].id;
      }
    }
    if Unique(rest) && !HasId(rest, x.id) {
      forall i, j | 0 <= i < j < |xs| ensures xs[i].id != xs[j].id {
        if i == 0 {
          assert xs[j] == rest[j - 1];
        } else {
          assert xs[i] == rest[i - 1] && xs[j] == rest[j - 1];
        }
      }
    }
  }

  /**
   `r` is what filtering `items` by `id` must yield: every kept item comes from
   `items` and has another id, every item with another id is kept, no item with
   `id` remains, an absent id changes nothing, and uniqueness survives.
   */
  ghost predicate FilteredBy<P>(items: seq<Product<P>>, id: Id, r: seq<Product<P>>) {
    && (forall i :: 0 <= i < |r| ==> r[i] in items && r[i].id != id)
    && (forall i :: 0 <= i < |items| && items[i].id != id ==> items[i] in r)
    && !HasId(r, id)
    && (!HasId(items, id) ==> r == items)
    && (Unique(items) ==> Unique(r))
  }

  /** Filtering the tail and then looking at the head filters the whole sequence. */
  lemma FilteredByCons<P>(x: Product<P>, tail: seq<Product<P>>, id: Id, rest: seq<Product<P>>)
    requires FilteredBy(tail, id, rest)
    ensures FilteredBy([x] + tail, id, if x.id == id then rest else [x] + rest)
  {
    var items := [x] + tail;
    HasIdCons(x, tail, id);
    UniqueCons(x, tail);
    if x.id == id {
      forall i | 0 <= i < |items| && items[i].id != id ensures items[i] in rest {
        assert items[i] == tail[i - 1];
      }
    } else {
      var r := [x] + rest;
      HasIdCons(x, rest, id);
      UniqueCons(x, rest);
      if HasId(rest, x.id) {
        var k :| 0 <= k < |rest| && rest[k].id == x.id;
        var m :| 0 <= m < |tail| && tail[m] == rest[k];
      }
      forall i | 0 <= i < |items| && items[i].id != id ensures items[i] in r {
        if i > 0 { assert items[i] == tail[i - 1]; }
      }
    }
  }

  /**
   The items whose identifier differs from `id`, as Array.prototype.filter
   returns them. `FilteredBy` says which items are kept; that they keep their
   original order is CartLemmas.FilterAppend.
   */
  function Filter<P>(items: seq<Product<P>>, id: Id): (r: seq<Product<P>>)
    ensures FilteredBy(items, id, r)
  {
    if |items| == 0 then []
    else
      var x := items[0];
      var rest := Filter(items[1..], id);
      assert items == [x] + items[1..];
      FilteredByCons(x, items[1..], id, rest);
      if x.id == id then rest else [x] + rest
  }

  /** Drops every item whose identifier is `id`; absent identifiers are no error. */
  function RemoveProduct<P>(s: CartState<P>, id: Id): (r: CartState<P>)
    ensures r.open == s.open
    ensures !HasId(r.items, id)
    ensures forall i :: 0 <= i < |r.items| ==> r.items[i] in s.items && r.items[i].id != id
    ensures forall i :: 0 <= i < |s.items| && s.items[i].id != id ==> s.items[i] in r.items
    ensures !HasId(s.items, id) ==> r == s
    ensures WellFormed(s) ==> WellFormed(r)
  {
    s.(items := Filter(s.items, id))
  }

  /** Empties the cart and keeps its visibility. */
  function ClearProducts<P>(s: CartState<P>): (r: CartState<P>)
    ensures r.open == s.open
    ensures !HasProducts(r)
    ensures WellFormed(r)
  {
    s.(items := [])
  }

  /** Empties the cart and hides it: from any state the result is the initial state. */
  function ClearCart<P>(s: CartState<P>): (r: CartState<P>)
    ensures r == Initial()
  {
    Close(ClearProducts(s))
  }
}
