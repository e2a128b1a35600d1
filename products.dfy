/**
 * `Producto`: a product with a name, a price and a quantity, validated at
 * construction and by its two setters.
 */
module Products {
  import opened Text
  import opened Outcomes

  /** The value checks of the constructor, in the order it makes them
      (name, then price, then quantity); on success, the name to store. */
  function Validate(name: string, price: real, quantity: int): (r: Result<string>)
    ensures r.Success? <==> Trim(name) != [] && price >= 0.0 && quantity >= 0
    ensures r.Success? ==> r.value == Trim(name) && ValidName(r.value)
    ensures r == Failure(EmptyName) <==> forall i :: 0 <= i < |name| ==> IsSpace(name[i])
    ensures r == Failure(NegativePrice) <==> Trim(name) != [] && price < 0.0
    ensures r == Failure(NegativeQuantity) <==> Trim(name) != [] && price >= 0.0 && quantity < 0
  {
    var normalised := Trim(name);
    if normalised == [] then Failure(EmptyName)
    else if price < 0.0 then Failure(NegativePrice)
    else if quantity < 0 then Failure(NegativeQuantity)
    else
      TrimIdempotent(name);
      Success(normalised)
  }

  /** A stored name: non-empty and already stripped. */
  predicate ValidName(name: string) {
    name != [] && Trim(name) == name
  }

  class Product {
    /** The stripped name; it never changes after construction. */
    const name: string
    var price: real
    var quantity: int

    /** What every product satisfies from construction on. */
    ghost predicate Valid()
      reads this
    {
      ValidName(name) && price >= 0.0 && quantity >= 0
    }

    /** The success path of construction: the checks have passed. */
    constructor (name: string, price: real, quantity: int)
      requires Validate(name, price, quantity).Success?
      ensures Valid()
      ensures this.name == Trim(name) && this.price == price && this.quantity == quantity
    {
      this.name := Trim(name);
      this.price := price;
      this.quantity := quantity;
      TrimIdempotent(name);
    }

    /** Construction with its checks: a fresh valid product holding the
        stripped name and the given price and quantity, or the first check
        that failed. */
    static method Create(name: string, price: real, quantity: int) returns (r: Result<Product>)
      ensures r.Success? <==> Validate(name, price, quantity).Success?
      ensures r.Failure? ==> r.error == Validate(name, price, quantity).error
      ensures r.Success? ==> fresh(r.value) && r.value.Valid()
      ensures r.Success? ==>
        r.value.name == Trim(name) && r.value.price == price && r.value.quantity == quantity
    {
      var checked := Validate(name, price, quantity);
      if checked.Failure? {
        return Failure(checked.error);
      }
      var p := new Product(name, price, quantity);
      return Success(p);
    }

    /** Sets the price. Stricter than construction: the new price must be
        strictly positive. On failure nothing changes; on success only the
        price does. */
    method UpdatePrice(newPrice: real) returns (r: Outcome)
      requires Valid()
      modifies this
      ensures Valid()
      ensures r.Pass? <==> newPrice > 0.0
      ensures r.Fail? ==> r.error == NonPositivePrice
      ensures price == (if r.Pass? then newPrice else old(price))
      ensures quantity == old(quantity)
    {
      if newPrice <= 0.0 {
        return Fail(NonPositivePrice);
      }
      price := newPrice;
      return Pass;
    }

    /** Sets the quantity, which must not be negative. On failure nothing
        changes; on success only the quantity does. */
    method UpdateQuantity(newQuantity: int) returns (r: Outcome)
      requires Valid()
      modifies this
      ensures Valid()
      ensures r.Pass? <==> newQuantity >= 0
      ensures r.Fail? ==> r.error == NegativeNewQuantity
      ensures quantity == (if r.Pass? then newQuantity else old(quantity))
      ensures price == old(price)
    {
      if newQuantity < 0 {
        return Fail(NegativeNewQuantity);
      }
      quantity := newQuantity;
      return Pass;
    }

    /** Price times quantity; never negative for a valid product. */
    function Value(): (r: real)
      reads this
      ensures Valid() ==> r >= 0.0
    {
      price * quantity as real
    }
  }

  /** A valid product's value is zero exactly when it is out of stock or
      free. */
  lemma ValueIsZero(p: Product)
    requires p.Valid()
    ensures p.Value() == 0.0 <==> p.price == 0.0 || p.quantity == 0
  {
  }
}
