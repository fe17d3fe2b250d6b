/** The cart reducer: an ordered sequence of lines keyed by menu-item id plus
    an optional table association that is written through to one
    local-storage slot. Every reducer is a pure function of the state and the
    action payload. */
module CartSlice {
  import opened Wrappers
  import opened Records
  import opened Seqs
  import TableStorage

  /** One cart line; `menuItem` is the item as it was when first added. */
  datatype CartLine = CartLine(menuItemId: string, menuItem: MenuItem, quantity: int, note: string)

  /** The `cart` slice of the Redux state. */
  datatype Cart = Cart(items: seq<CartLine>, tableNumber: Option<string>, tableId: Option<string>)

  /** The slice together with the local-storage slot its table reducers write to. */
  datatype Store = Store(cart: Cart, slot: TableStorage.Slot)

  predicate HasLine(items: seq<CartLine>, id: string)
  {
    exists i :: 0 <= i < |items| && items[i].menuItemId == id
  }

  /** At most one line per menu-item id. */
  predicate DistinctIds(items: seq<CartLine>)
  {
    forall i, j :: 0 <= i < j < |items| ==> items[i].menuItemId != items[j].menuItemId
  }

  /** Each line is keyed by the id of the item it carries. */
  predicate KeyedByItem(items: seq<CartLine>)
  {
    forall i :: 0 <= i < |items| ==> items[i].menuItemId == items[i].menuItem.id
  }

  predicate Valid(c: Cart)
  {
    DistinctIds(c.items) && KeyedByItem(c.items)
  }

  /** `items.find(item => item.menuItemId === id)`, as an index: the first
      matching line, or `None` when no line has that id. */
  function FindLine(items: seq<CartLine>, id: string): (r: Option<nat>)
    ensures r.Some? ==> r.value < |items| && items[r.value].menuItemId == id
    ensures r.Some? ==> forall k :: 0 <= k < r.value ==> items[k].menuItemId != id
    ensures r.None? <==> !HasLine(items, id)
  {
    if |items| == 0 then None
    else if items[0].menuItemId == id then Some(0)
    else match FindLine(items[1..], id)
      case None => None
      case Some(k) => Some(k + 1)
  }

  /** The state at start-up: no lines, and the table pair read back from the slot. */
  function InitialState(slot: TableStorage.Slot): (r: Cart)
    ensures r.items == [] && Valid(r)
    ensures slot.None? || slot == Some(TableStorage.Unreadable) ==> r == Cart([], None, None)
    ensures r.tableNumber.None? || Truthy(r.tableNumber)
    ensures r.tableId.None? || Truthy(r.tableId)
  {
    var t := TableStorage.Load(slot);
    Cart([], t.tableNumber, t.tableId)
  }

  /** `addToCart`: merge into the line with the item's id, or append a new one. */
  function AddToCart(c: Cart, menuItem: MenuItem, quantity: int): (r: Cart)
    ensures r.tableNumber == c.tableNumber && r.tableId == c.tableId
    ensures HasLine(r.items, menuItem.id)
    ensures Valid(c) ==> Valid(r)
  {
    match FindLine(c.items, menuItem.id)
    case Some(i) =>
      var items := c.items[i := c.items[i].(quantity := c.items[i].quantity + quantity)];
      assert items[i].menuItemId == menuItem.id;
      c.(items := items)
    case None =>
      var items := c.items + [CartLine(menuItem.id, menuItem, quantity, "")];
      assert items[|c.items|].menuItemId == menuItem.id;
      c.(items := items)
  }

  function OtherThan(id: string): CartLine -> bool
  {
    (line: CartLine) => line.menuItemId != id
  }

  /** `removeFromCart`: keep the lines whose id differs. */
  function RemoveFromCart(c: Cart, id: string): (r: Cart)
    ensures r.tableNumber == c.tableNumber && r.tableId == c.tableId
    ensures !HasLine(r.items, id)
    ensures |r.items| <= |c.items|
    ensures Valid(c) ==> Valid(r)
  {
    FilterKeepsDistinct(c.items, id);
    c.(items := Filter(c.items, OtherThan(id)))
  }

  /** `updateQuantity`: overwrite the quantity of the first line with that id.
      The value is stored as given; nothing clamps it. */
  function UpdateQuantity(c: Cart, id: string, quantity: int): (r: Cart)
    ensures r.tableNumber == c.tableNumber && r.tableId == c.tableId
    ensures |r.items| == |c.items|
    ensures forall k :: 0 <= k < |r.items| ==>
              r.items[k].menuItemId == c.items[k].menuItemId &&
              r.items[k].menuItem == c.items[k].menuItem &&
              r.items[k].note == c.items[k].note
    ensures Valid(c) ==> Valid(r)
  {
    match FindLine(c.items, id)
    case Some(i) => c.(items := c.items[i := c.items[i].(quantity := quantity)])
    case None => c
  }

  /** `updateNote`: overwrite the note of the first line with that id. */
  function UpdateNote(c: Cart, id: string, note: string): (r: Cart)
    ensures r.tableNumber == c.tableNumber && r.tableId == c.tableId
    ensures |r.items| == |c.items|
    ensures forall k :: 0 <= k < |r.items| ==>
              r.items[k].menuItemId == c.items[k].menuItemId &&
              r.items[k].menuItem == c.items[k].menuItem &&
              r.items[k].quantity == c.items[k].quantity
    ensures Valid(c) ==> Valid(r)
  {
    match FindLine(c.items, id)
    case Some(i) => c.(items := c.items[i := c.items[i].(note := note)])
    case None => c
  }

  /** `setTable`: store the pair in the slice and write it through to the slot;
      a failed write (`storageOk == false`) is swallowed. */
  function SetTable(s: Store, number: Option<string>, id: Option<string>, storageOk: bool): (r: Store)
    ensures r.cart.items == s.cart.items
    ensures r.cart.tableNumber == number && r.cart.tableId == id
    ensures storageOk ==> r.slot == Some(TableStorage.TableRecord(number, id))
    ensures !storageOk ==> r.slot == s.slot
  {
    Store(s.cart.(tableNumber := number, tableId := id), TableStorage.Save(s.slot, number, id, storageOk))
  }

  /** `clearTable`: forget the pair and remove the slot; a failed removal is swallowed. */
  function ClearTable(s: Store, storageOk: bool): (r: Store)
    ensures r.cart.items == s.cart.items
    ensures r.cart.tableNumber.None? && r.cart.tableId.None?
    ensures storageOk ==> r.slot.None?
    ensures !storageOk ==> r.slot == s.slot
  {
    Store(s.cart.(tableNumber := None, tableId := None), TableStorage.Remove(s.slot, storageOk))
  }

  /** `clearCart`: drop every line, keep the table. */
  function ClearCart(c: Cart): (r: Cart)
    ensures r.items == []
    ensures r.tableNumber == c.tableNumber && r.tableId == c.tableId
  {
    c.(items := [])
  }

  /** A page reload: the slice is rebuilt from the slot alone. */
  function Reload(s: Store): Store
  {
    Store(InitialState(s.slot), s.slot)
  }

  // ---------------------------------------------------------------------------
  // Facts about single reducers

  lemma {:induction false} FilterKeepsDistinct(items: seq<CartLine>, id: string)
    ensures DistinctIds(items) ==> DistinctIds(Filter(items, OtherThan(id)))
    ensures KeyedByItem(items) ==> KeyedByItem(Filter(items, OtherThan(id)))
  {
    if |items| > 0 {
      FilterKeepsDistinct(items[1..], id);
      var rest := Filter(items[1..], OtherThan(id));
      if DistinctIds(items) {
        assert DistinctIds(items[1..]);
        forall k | 0 <= k < |rest|
          ensures rest[k].menuItemId != items[0].menuItemId
        {
          var j :| 0 <= j < |items[1..]| && items[1..][j] == rest[k];
          assert items[j + 1] == rest[k];
        }
      }
    }
  }

  /** In a cart with distinct ids, the line found for an id is the one carrying it. */
  lemma FindDistinct(items: seq<CartLine>, i: nat)
    requires DistinctIds(items)
    requires i < |items|
    ensures FindLine(items, items[i].menuItemId) == Some(i)
  {
    assert HasLine(items, items[i].menuItemId);
  }

  /** Changing the found line, keeping its id, leaves it the found line. */
  lemma FindAfterUpdate(items: seq<CartLine>, i: nat, x: CartLine, id: string)
    requires FindLine(items, id) == Some(i)
    requires x.menuItemId == id
    ensures i < |items| && FindLine(items[i := x], id) == Some(i)
  {
    var updated := items[i := x];
    assert updated[i].menuItemId == id;
    assert forall k :: 0 <= k < i ==> updated[k] == items[k];
  }

  /** `addToCart` of an item whose line is found at `i` raises that line. */
  lemma MergeAt(c: Cart, menuItem: MenuItem, quantity: int, i: nat)
    requires FindLine(c.items, menuItem.id) == Some(i)
    ensures AddToCart(c, menuItem, quantity).items
            == c.items[i := c.items[i].(quantity := c.items[i].quantity + quantity)]
  {
  }

  /** A line appended after lines with other ids is the one found for its id. */
  lemma FindAppended(prefix: seq<CartLine>, line: CartLine)
    requires !HasLine(prefix, line.menuItemId)
    ensures FindLine(prefix + [line], line.menuItemId) == Some(|prefix|)
  {
    var items := prefix + [line];
    assert items[|prefix|].menuItemId == line.menuItemId;
    assert forall k :: 0 <= k < |prefix| ==> items[k] == prefix[k];
  }

  /** Adding an item that is not in the cart appends one line at the end with
      the given quantity and an empty note; the existing lines are untouched. */
  lemma AddNewItemAppends(c: Cart, menuItem: MenuItem, quantity: int)
    requires !HasLine(c.items, menuItem.id)
    ensures var r := AddToCart(c, menuItem, quantity);
            |r.items| == |c.items| + 1 &&
            r.items[..|c.items|] == c.items &&
            r.items[|c.items|] == CartLine(menuItem.id, menuItem, quantity, "")
  {
  }

  /** Adding an item already in a valid cart raises only that line's quantity
      by the given amount; the line keeps the item snapshot it was created
      with, and the other lines, their order and the table stay as they were. */
  lemma AddExistingItemMerges(c: Cart, menuItem: MenuItem, quantity: int)
    requires DistinctIds(c.items)
    requires HasLine(c.items, menuItem.id)
    ensures var r := AddToCart(c, menuItem, quantity);
            |r.items| == |c.items| &&
            forall k :: 0 <= k < |c.items| ==>
              r.items[k] == if c.items[k].menuItemId == menuItem.id
                            then c.items[k].(quantity := c.items[k].quantity + quantity)
                            else c.items[k]
  {
  }

  /** `count` consecutive `addToCart` dispatches of the same item. */
  function AddRepeatedly(c: Cart, menuItem: MenuItem, quantities: seq<int>): Cart
  {
    if |quantities| == 0 then c
    else AddToCart(AddRepeatedly(c, menuItem, quantities[..|quantities| - 1]), menuItem, quantities[|quantities| - 1])
  }

  lemma AddRepeatedlyLast(c: Cart, menuItem: MenuItem, quantities: seq<int>)
    requires |quantities| > 0
    ensures AddRepeatedly(c, menuItem, quantities)
            == AddToCart(AddRepeatedly(c, menuItem, quantities[..|quantities| - 1]), menuItem, quantities[|quantities| - 1])
  {
  }

  /** However many times an item that was not in the cart is added, the cart
      ends with exactly one new line for it, appended after the old lines,
      whose quantity is the sum of all added quantities. */
  lemma {:induction false} AddRepeatedlyNewItem(c: Cart, menuItem: MenuItem, quantities: seq<int>)
    requires !HasLine(c.items, menuItem.id)
    requires |quantities| > 0
    ensures AddRepeatedly(c, menuItem, quantities).items
            == c.items + [CartLine(menuItem.id, menuItem, SumOf(quantities, Identity), "")]
  {
    var n := |quantities| - 1;
    var before := AddRepeatedly(c, menuItem, quantities[..n]);
    if n == 0 {
      assert quantities[..n] == [];
      assert SumOf(quantities, Identity) == quantities[0];
    } else {
      AddRepeatedlyNewItem(c, menuItem, quantities[..n]);
      var line := CartLine(menuItem.id, menuItem, SumOf(quantities[..n], Identity), "");
      FindAppended(c.items, line);
      var merged := line.(quantity := SumOf(quantities, Identity));
      assert before.items[|c.items| := merged] == c.items + [merged];
    }
  }

  /** Repeated adds of an item whose line is at `i` (the first line with its
      id, as in every reachable cart) leave the line count and order alone and
      raise that one line by the sum. */
  lemma {:induction false} AddRepeatedlyExistingItem(c: Cart, menuItem: MenuItem, quantities: seq<int>, i: nat)
    requires FindLine(c.items, menuItem.id) == Some(i)
    ensures i < |c.items|
    ensures var r := AddRepeatedly(c, menuItem, quantities).items;
            && |r| == |c.items|
            && r[i] == c.items[i].(quantity := c.items[i].quantity + SumOf(quantities, Identity))
            && (forall k :: 0 <= k < |r| && k != i ==> r[k] == c.items[k])
            && FindLine(r, menuItem.id) == Some(i)
  {
    var n := |quantities|;
    if n > 0 {
      var q := quantities[n - 1];
      var before := AddRepeatedly(c, menuItem, quantities[..n - 1]);
      AddRepeatedlyExistingItem(c, menuItem, quantities[..n - 1], i);
      AddRepeatedlyLast(c, menuItem, quantities);
      MergeAt(before, menuItem, q, i);
      var b := before.items;
      FindAfterUpdate(b, i, b[i].(quantity := b[i].quantity + q), menuItem.id);
    }
  }

  /** Removing an id present in a valid cart deletes exactly that line; the
      lines before and after it keep their order. */
  lemma RemovePresentLine(c: Cart, i: nat)
    requires DistinctIds(c.items)
    requires i < |c.items|
    ensures RemoveFromCart(c, c.items[i].menuItemId).items == c.items[..i] + c.items[i + 1..]
  {
    var id := c.items[i].menuItemId;
    var keep := OtherThan(id);
    var pre, post := c.items[..i], c.items[i + 1..];
    assert c.items == pre + [c.items[i]] + post;
    forall k | 0 <= k < |pre| ensures keep(pre[k]) {
      assert pre[k] == c.items[k];
    }
    forall k | 0 <= k < |post| ensures keep(post[k]) {
      assert post[k] == c.items[i + 1 + k];
    }
    FilterDropsOne(pre, c.items[i], post, keep);
  }

  /** Removing an id no line carries changes nothing. */
  lemma RemoveAbsentLine(c: Cart, id: string)
    requires !HasLine(c.items, id)
    ensures RemoveFromCart(c, id) == c
  {
    FilterKeepsAll(c.items, OtherThan(id));
  }

  /** Removal is idempotent: a second removal of the same id is a no-op. */
  lemma RemoveIdempotent(c: Cart, id: string)
    ensures RemoveFromCart(RemoveFromCart(c, id), id) == RemoveFromCart(c, id)
  {
    FilterIdempotent(c.items, OtherThan(id));
  }

  /** In any cart, removal keeps the other lines in their relative order and
      with their multiplicities, and drops every line with the id. */
  lemma RemoveKeepsOthersInOrder(c: Cart, id: string)
    ensures IsSubsequence(RemoveFromCart(c, id).items, c.items)
    ensures forall line :: multiset(RemoveFromCart(c, id).items)[line]
                           == if line.menuItemId != id then multiset(c.items)[line] else 0
  {
    FilterIsSubsequence(c.items, OtherThan(id));
    FilterMultiset(c.items, OtherThan(id));
  }

  /** In a valid cart `updateQuantity` replaces the quantity of the line with
      that id, whatever the value (zero and negatives included), and touches
      nothing else; with no such line it is a no-op. */
  lemma UpdateQuantityEffect(c: Cart, id: string, quantity: int)
    requires DistinctIds(c.items)
    ensures var r := UpdateQuantity(c, id, quantity);
            |r.items| == |c.items| &&
            forall k :: 0 <= k < |c.items| ==>
              r.items[k] == if c.items[k].menuItemId == id then c.items[k].(quantity := quantity) else c.items[k]
    ensures !HasLine(c.items, id) ==> UpdateQuantity(c, id, quantity) == c
  {
  }

  /** In a valid cart `updateNote` replaces the note of the line with that id
      and touches nothing else; with no such line it is a no-op. */
  lemma UpdateNoteEffect(c: Cart, id: string, note: string)
    requires DistinctIds(c.items)
    ensures var r := UpdateNote(c, id, note);
            |r.items| == |c.items| &&
            forall k :: 0 <= k < |c.items| ==>
              r.items[k] == if c.items[k].menuItemId == id then c.items[k].(note := note) else c.items[k]
    ensures !HasLine(c.items, id) ==> UpdateNote(c, id, note) == c
  {
  }

  /** After `setTable` succeeds in writing the slot, a reload restores each
      table field that was truthy and reads a falsy one back as `null`; the
      lines are never persisted. */
  lemma SetTableThenReload(s: Store, number: Option<string>, id: Option<string>)
    ensures var r := Reload(SetTable(s, number, id, true));
            r.cart == Cart([], OrNull(number), OrNull(id))
    ensures Truthy(number) && Truthy(id) ==>
              Reload(SetTable(s, number, id, true)).cart == Cart([], number, id)
  {
  }

  /** After `clearTable` succeeds in removing the slot, a reload finds no table;
      when the removal fails, a reload brings back whatever the slot held. */
  lemma ClearTableThenReload(s: Store)
    ensures Reload(ClearTable(s, true)).cart == Cart([], None, None)
    ensures Reload(ClearTable(s, false)).cart == InitialState(s.slot)
  {
  }

  // ---------------------------------------------------------------------------
  // The reducer as a whole

  /** The actions of the slice. The table actions carry whether the storage
      call they make succeeds. */
  datatype Action =
    | AddItem(menuItem: MenuItem, quantity: int)
    | RemoveItem(menuItemId: string)
    | SetQuantity(menuItemId: string, quantity: int)
    | SetNote(menuItemId: string, note: string)
    | SelectTable(number: Option<string>, id: Option<string>, storageOk: bool)
    | DeselectTable(storageOk: bool)
    | EmptyCart

  function Reduce(s: Store, a: Action): (r: Store)
    ensures Valid(s.cart) ==> Valid(r.cart)
    ensures !a.SelectTable? && !a.DeselectTable? ==> r.slot == s.slot
  {
    match a
    case AddItem(m, q) => s.(cart := AddToCart(s.cart, m, q))
    case RemoveItem(id) => s.(cart := RemoveFromCart(s.cart, id))
    case SetQuantity(id, q) => s.(cart := UpdateQuantity(s.cart, id, q))
    case SetNote(id, n) => s.(cart := UpdateNote(s.cart, id, n))
    case SelectTable(n, id, ok) => SetTable(s, n, id, ok)
    case DeselectTable(ok) => ClearTable(s, ok)
    case EmptyCart => s.(cart := ClearCart(s.cart))
  }

  function Run(s: Store, actions: seq<Action>): Store
  {
    if |actions| == 0 then s else Reduce(Run(s, actions[..|actions| - 1]), actions[|actions| - 1])
  }

  /** Starting from any slot, every sequence of actions keeps at most one line
      per menu-item id, each keyed by its own item. */
  lemma {:induction false} RunKeepsValid(slot: TableStorage.Slot, actions: seq<Action>)
    ensures Valid(Run(Store(InitialState(slot), slot), actions).cart)
  {
    if |actions| > 0 {
      RunKeepsValid(slot, actions[..|actions| - 1]);
    }
  }

  /** Lines never reach the slot: a reload starts with an empty cart (true of
      `Reload` by construction, whatever came before), and actions other than
      the two table actions leave the slot as it was. */
  lemma {:induction false} RunThenReload(s: Store, actions: seq<Action>)
    ensures Reload(Run(s, actions)).cart.items == []
    ensures (forall k :: 0 <= k < |actions| ==> !actions[k].SelectTable? && !actions[k].DeselectTable?) ==>
              Run(s, actions).slot == s.slot
  {
    if |actions| > 0 {
      RunThenReload(s, actions[..|actions| - 1]);
    }
  }
}
