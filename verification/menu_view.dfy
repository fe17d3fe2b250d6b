/** Values the two menu pages derive in the same way: the items shown for the
    active category and the cart badge count. */
module MenuView {
  import opened Wrappers
  import opened Records
  import opened Seqs
  import opened CartSlice

  function InCategory(category: string): MenuItem -> bool
  {
    (m: MenuItem) => m.category == Some(category)
  }

  /** `filteredItems`: every item when no category is active (`null` or `''`),
      otherwise those whose `categoryId?._id` is the active category. */
  function FilterItems(items: seq<MenuItem>, activeCategory: Option<string>): (r: seq<MenuItem>)
    ensures |r| <= |items|
    ensures !Truthy(activeCategory) ==> r == items
    ensures Truthy(activeCategory) ==> forall k :: 0 <= k < |r| ==> r[k].category == activeCategory
  {
    if Truthy(activeCategory) then Filter(items, InCategory(activeCategory.value)) else items
  }

  /** `item.quantity`, the term of the badge count. */
  function Quantity(line: CartLine): int
  {
    line.quantity
  }

  /** `cartCount`: the sum of the line quantities. */
  function CartCount(items: seq<CartLine>): (r: int)
    ensures |items| == 0 ==> r == 0
    ensures (forall k :: 0 <= k < |items| ==> items[k].quantity >= 1) ==> r >= |items|
  {
    SumOfAtLeast(items, Quantity, 1);
    SumOf(items, Quantity)
  }

  /** With a category active the filter keeps exactly the items of that
      category, each as often as it occurs, in their original order; items
      without a category are never kept. */
  lemma FilterItemsExact(items: seq<MenuItem>, activeCategory: Option<string>)
    requires Truthy(activeCategory)
    ensures IsSubsequence(FilterItems(items, activeCategory), items)
    ensures forall m :: multiset(FilterItems(items, activeCategory))[m]
                        == if m.category == activeCategory then multiset(items)[m] else 0
  {
    FilterIsSubsequence(items, InCategory(activeCategory.value));
    FilterMultiset(items, InCategory(activeCategory.value));
  }

  /** Filtering by the same category twice is filtering once. */
  lemma FilterItemsIdempotent(items: seq<MenuItem>, activeCategory: Option<string>)
    ensures FilterItems(FilterItems(items, activeCategory), activeCategory) == FilterItems(items, activeCategory)
  {
    if Truthy(activeCategory) {
      FilterIdempotent(items, InCategory(activeCategory.value));
    }
  }

  /** An add raises the badge by the added quantity, whether it merges or appends. */
  lemma CountAfterAdd(c: Cart, menuItem: MenuItem, quantity: int)
    ensures CartCount(AddToCart(c, menuItem, quantity).items) == CartCount(c.items) + quantity
  {
    match FindLine(c.items, menuItem.id)
    case None =>
      SumOfAppendOne(c.items, CartLine(menuItem.id, menuItem, quantity, ""), Quantity);
    case Some(i) =>
      SumOfUpdate(c.items, i, c.items[i].(quantity := c.items[i].quantity + quantity), Quantity);
  }

  /** Removing a line of a valid cart lowers the badge by its quantity. */
  lemma CountAfterRemove(c: Cart, i: nat)
    requires DistinctIds(c.items)
    requires i < |c.items|
    ensures CartCount(RemoveFromCart(c, c.items[i].menuItemId).items) == CartCount(c.items) - c.items[i].quantity
  {
    RemovePresentLine(c, i);
    assert c.items == c.items[..i] + [c.items[i]] + c.items[i + 1..];
    SumOfConcat(c.items[..i] + [c.items[i]], c.items[i + 1..], Quantity);
    SumOfConcat(c.items[..i], [c.items[i]], Quantity);
    SumOfConcat(c.items[..i], c.items[i + 1..], Quantity);
    assert SumOf([c.items[i]], Quantity) == c.items[i].quantity by {
      assert [c.items[i]][..0] == [];
    }
  }

  /** Setting a line's quantity moves the badge by the difference. */
  lemma CountAfterUpdateQuantity(c: Cart, i: nat, quantity: int)
    requires DistinctIds(c.items)
    requires i < |c.items|
    ensures CartCount(UpdateQuantity(c, c.items[i].menuItemId, quantity).items)
            == CartCount(c.items) - c.items[i].quantity + quantity
  {
    var id := c.items[i].menuItemId;
    UpdateQuantityEffect(c, id, quantity);
    assert UpdateQuantity(c, id, quantity).items == c.items[i := c.items[i].(quantity := quantity)];
    SumOfUpdate(c.items, i, c.items[i].(quantity := quantity), Quantity);
  }
}
