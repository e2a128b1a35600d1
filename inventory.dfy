/**
 * `Inventario`: products in insertion order, no two of them with names
 * equal after lower-casing. The inventory holds references: a product found
 * in it and then updated is updated in the inventory too.
 */
module Inventory {
  import opened Text
  import opened Outcomes
  import opened Products

  /** No two products have names equal after lower-casing. */
  predicate Unique(ps: seq<Product>) {
    forall i, j :: 0 <= i < j < |ps| ==> Lower(ps[i].name) != Lower(ps[j].name)
  }

  /** The position of the first product whose lower-cased name is `key`. */
  function FirstMatch(ps: seq<Product>, key: string): (r: Option<nat>)
    ensures r.Some? ==> r.value < |ps| && Lower(ps[r.value].name) == key
    ensures r.Some? ==> forall j :: 0 <= j < r.value ==> Lower(ps[j].name) != key
    ensures r.None? <==> forall j :: 0 <= j < |ps| ==> Lower(ps[j].name) != key
  {
    if ps == [] then None
    else if Lower(ps[0].name) == key then Some(0)
    else match FirstMatch(ps[1..], key)
      case None => None
      case Some(k) => Some(k + 1)
  }

  /** Under uniqueness the first match is the only one. */
  lemma FirstMatchIsOnlyMatch(ps: seq<Product>, key: string, j: nat)
    requires Unique(ps)
    requires FirstMatch(ps, key).Some?
    requires j < |ps| && Lower(ps[j].name) == key
    ensures FirstMatch(ps, key) == Some(j)
  {
  }

  /** Appending never changes an earlier match; a lookup that missed before
      finds the appended product exactly when its name matches. */
  lemma {:induction false} FirstMatchAppend(ps: seq<Product>, p: Product, key: string)
    ensures FirstMatch(ps + [p], key) ==
      if FirstMatch(ps, key).Some? then FirstMatch(ps, key)
      else if Lower(p.name) == key then Some(|ps|)
      else None
  {
    if ps != [] {
      assert (ps + [p])[1..] == ps[1..] + [p];
      FirstMatchAppend(ps[1..], p, key);
    }
  }

  /** Every product of `ps` is valid. */
  ghost predicate AllValid(ps: seq<Product>)
    reads ps
  {
    forall i :: 0 <= i < |ps| ==> ps[i].Valid()
  }

  /** Appending a valid product whose name matches none keeps every product
      valid and the names unique. */
  lemma AppendKeepsInvariant(ps: seq<Product>, p: Product)
    requires AllValid(ps) && Unique(ps) && p.Valid()
    requires FirstMatch(ps, Lower(p.name)).None?
    ensures AllValid(ps + [p]) && Unique(ps + [p])
  {
    var qs := ps + [p];
    forall i | 0 <= i < |qs| ensures qs[i].Valid() {
      if i < |ps| { assert qs[i] == ps[i]; }
    }
    forall i, j | 0 <= i < j < |qs| ensures Lower(qs[i].name) != Lower(qs[j].name) {
      assert qs[i] == ps[i];
      if j == |ps| { assert qs[j] == p; } else { assert qs[j] == ps[j]; }
    }
  }

  /** The sum of the products' values, added left to right from 0 as
      Python's `sum` does. */
  function SumValues(ps: seq<Product>): (r: real)
    reads ps
  {
    if ps == [] then 0.0 else SumValues(ps[..|ps| - 1]) + ps[|ps| - 1].Value()
  }

  /** The values of valid products are never negative, and neither is
      their sum. */
  lemma {:induction false} SumValuesNonNegative(ps: seq<Product>)
    ensures AllValid(ps) ==> SumValues(ps) >= 0.0
  {
    if ps != [] {
      SumValuesNonNegative(ps[..|ps| - 1]);
    }
  }

  /** Appending a product adds its value to the sum. */
  lemma SumValuesAppend(ps: seq<Product>, p: Product)
    ensures SumValues(ps + [p]) == SumValues(ps) + p.Value()
  {
  }

  /** Under uniqueness no product is held twice: equal references would
      have equal names. */
  lemma UniqueIsDistinct(ps: seq<Product>)
    requires Unique(ps)
    ensures forall i, j :: 0 <= i < j < |ps| ==> ps[i] != ps[j]
  {
  }

  /** A position at which `p` is held. */
  function IndexOf(ps: seq<Product>, p: Product): (k: nat)
    requires p in ps
    ensures k < |ps| && ps[k] == p
  {
    if ps[0] == p then 0 else 1 + IndexOf(ps[1..], p)
  }

  /** The sum over a concatenation is the sum of the two sums. */
  lemma {:induction false} SumValuesConcat(xs: seq<Product>, ys: seq<Product>)
    ensures SumValues(xs + ys) == SumValues(xs) + SumValues(ys)
  {
    if ys == [] {
      assert xs + ys == xs;
    } else {
      var init := ys[..|ys| - 1];
      SumValuesConcat(xs, init);
      assert (xs + ys)[..|xs + ys| - 1] == xs + init;
    }
  }

  /** The sum splits around any position: the products before it, the
      product at it, and the products after it. */
  lemma SumValuesAround(ps: seq<Product>, k: nat)
    requires k < |ps|
    ensures SumValues(ps) == SumValues(ps[..k]) + ps[k].Value() + SumValues(ps[k + 1..])
  {
    assert ps == ps[..k] + [ps[k]] + ps[k + 1..];
    SumValuesConcat(ps[..k] + [ps[k]], ps[k + 1..]);
    SumValuesAppend(ps[..k], ps[k]);
  }

  /** A sum over products none of which changed between two states is the
      same in both. */
  twostate lemma SumValuesUnchanged(ps: seq<Product>)
    requires forall i :: 0 <= i < |ps| ==> unchanged(ps[i])
    ensures SumValues(ps) == old(SumValues(ps))
  {
  }

  /** When only the product at `k` may have changed between two states, and
      it is held once, the sum changes by the change in its value. The split
      of the earlier sum around `k` is a premise, since it is a fact about
      the earlier state. */
  twostate lemma SumValuesAfterUpdate(ps: seq<Product>, new k: nat)
    requires k < |ps|
    requires forall i, j :: 0 <= i < j < |ps| ==> ps[i] != ps[j]
    requires forall i :: 0 <= i < |ps| && i != k ==> unchanged(ps[i])
    requires old(SumValues(ps)) ==
      old(SumValues(ps[..k])) + old(ps[k].Value()) + old(SumValues(ps[k + 1..]))
    ensures SumValues(ps) == old(SumValues(ps)) + (ps[k].Value() - old(ps[k].Value()))
  {
    SumValuesAround(ps, k);
    SumValuesUnchanged(ps[..k]);
    SumValuesUnchanged(ps[k + 1..]);
  }

  /** When only the product at `k` may have changed between two states and
      it is still valid, every product is still valid. */
  twostate lemma AllValidAfterUpdate(ps: seq<Product>, new k: nat)
    requires k < |ps|
    requires forall i :: 0 <= i < |ps| && i != k ==> unchanged(ps[i])
    requires old(AllValid(ps)) && ps[k].Valid()
    ensures AllValid(ps)
  {
    forall i | 0 <= i < |ps| ensures ps[i].Valid() {
      if i != k {
        assert old(ps[i].Valid());
      }
    }
  }

  class Inventory {
    /** The products, in insertion order. */
    var products: seq<Product>

    /** Every product is valid and the names are unique up to case. */
    ghost predicate Valid()
      reads this, products
    {
      AllValid(products) && Unique(products)
    }

    /** A new inventory is empty. */
    constructor ()
      ensures Valid() && products == []
    {
      products := [];
    }

    /** Looks a product up by name, ignoring case and surrounding whitespace:
        the first product, in insertion order, whose lower-cased name equals
        the lower-cased stripped query; an error when the stripped query is
        empty, and a miss when no product matches. Changes nothing. */
    method Find(query: string) returns (r: Result<Product>)
      ensures Trim(query) == [] ==> r == Failure(EmptyQuery)
      ensures Trim(query) != [] ==>
        r == match FirstMatch(products, Lower(Trim(query)))
             case Some(i) => Success(products[i])
             case None => Failure(NotFound(Trim(query)))
    {
      var normalised := Trim(query);
      if normalised == [] {
        return Failure(EmptyQuery);
      }
      var key := Lower(normalised);
      for i := 0 to |products|
        invariant forall j :: 0 <= j < i ==> Lower(products[j].name) != key
      {
        if Lower(products[i].name) == key {
          return Success(products[i]);
        }
      }
      return Failure(NotFound(normalised));
    }

    /** Appends `p` unless a product with the same name up to case is already
        held; on failure the products are left as they were. */
    method Add(p: Product) returns (r: Outcome)
      requires Valid() && p.Valid()
      modifies this
      ensures Valid()
      ensures r.Pass? <==> FirstMatch(old(products), Lower(p.name)).None?
      ensures r.Fail? ==> r.error == DuplicateName(p.name)
      ensures products == if r.Pass? then old(products) + [p] else old(products)
      ensures TotalValue() == SumValues(old(products)) + if r.Pass? then p.Value() else 0.0
      ensures r.Pass? ==> FirstMatch(products, Lower(p.name)) == Some(|products| - 1)
    {
      // The search is given a stored name, already stripped and non-empty,
      // so it cannot raise the ValueError for an empty query.
      assert Trim(p.name) == p.name != [];
      var found := Find(p.name);
      if found.Success? {
        return Fail(DuplicateName(p.name));
      }
      // Only the KeyError of a miss is caught.
      assert found.error.Kind() == KeyError;
      Append(p);
      return Pass;
    }

    /** The append of a product no held name matches: the list grows by
        that product at the end, the invariant is kept, the total grows by
        the product's value, and the product is found at the end. */
    method Append(p: Product)
      requires Valid() && p.Valid()
      requires FirstMatch(products, Lower(p.name)).None?
      modifies this
      ensures Valid()
      ensures products == old(products) + [p]
      ensures TotalValue() == SumValues(old(products)) + p.Value()
      ensures FirstMatch(products, Lower(p.name)) == Some(|products| - 1)
    {
      var before := products;
      products := before + [p];
      AppendKeepsInvariant(before, p);
      SumValuesAppend(before, p);
      FirstMatchAppend(before, p, Lower(p.name));
    }

    /** The total value of the inventory: 0 when empty, never negative. */
    function TotalValue(): (r: real)
      reads this, products
      ensures products == [] ==> r == 0.0
      ensures Valid() ==> r >= 0.0
    {
      SumValuesNonNegative(products);
      SumValues(products)
    }

    /** A copy of the list of products, in insertion order. */
    method List() returns (r: seq<Product>)
      ensures r == products
    {
      r := products;
    }
  }
}
