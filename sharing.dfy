/**
 * The inventory holds its products by reference: a product returned by a
 * search, or taken from the listing, and then updated is updated in the
 * inventory too. These clients show that such updates keep the inventory's
 * invariant, and what they do to its total value.
 */
module Sharing {
  import opened Outcomes
  import opened Products
  import opened Inventory

  /** Updating the price of a held product: the inventory keeps its list and
      its invariant, sees the new price, and its total changes by the
      product's change in value. */
  method UpdateHeldPrice(inv: Inventory, p: Product, newPrice: real) returns (r: Outcome)
    requires inv.Valid() && p in inv.products
    modifies p
    ensures inv.Valid() && inv.products == old(inv.products)
    ensures r.Pass? <==> newPrice > 0.0
    ensures r.Fail? ==> r.error == NonPositivePrice
    ensures p.price == (if r.Pass? then newPrice else old(p.price))
    ensures p.quantity == old(p.quantity)
    ensures inv.TotalValue() == old(inv.TotalValue()) + (p.Value() - old(p.Value()))
  {
    ghost var ps := inv.products;
    ghost var k := IndexOf(ps, p);
    UniqueIsDistinct(ps);
    SumValuesAround(ps, k);
    r := p.UpdatePrice(newPrice);
    SumValuesAfterUpdate(ps, k);
    AllValidAfterUpdate(ps, k);
  }

  /** Updating the quantity of a held product: the inventory keeps its list
      and its invariant, sees the new quantity, and its total changes by the
      product's change in value. */
  method UpdateHeldQuantity(inv: Inventory, p: Product, newQuantity: int) returns (r: Outcome)
    requires inv.Valid() && p in inv.products
    modifies p
    ensures inv.Valid() && inv.products == old(inv.products)
    ensures r.Pass? <==> newQuantity >= 0
    ensures r.Fail? ==> r.error == NegativeNewQuantity
    ensures p.quantity == (if r.Pass? then newQuantity else old(p.quantity))
    ensures p.price == old(p.price)
    ensures inv.TotalValue() == old(inv.TotalValue()) + (p.Value() - old(p.Value()))
  {
    ghost var ps := inv.products;
    ghost var k := IndexOf(ps, p);
    UniqueIsDistinct(ps);
    SumValuesAround(ps, k);
    r := p.UpdateQuantity(newQuantity);
    SumValuesAfterUpdate(ps, k);
    AllValidAfterUpdate(ps, k);
  }
}
