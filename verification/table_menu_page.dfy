/** The table-scoped menu page reached from a QR code: it binds the loaded
    table to the cart and refuses adds until a table is loaded. */
module TableMenuPage {
  import opened Wrappers
  import opened Records
  import opened CartSlice
  import MenuView
  import MenuItemCard
  import Checkout
  import TableStorage

  /** `currentTable.id || currentTable._id`. */
  function TableIdOf(t: Table): (r: Option<string>)
    ensures Truthy(r) <==> Truthy(t.id) || Truthy(t.dbId)
    ensures Truthy(t.id) ==> r == t.id
    ensures !Truthy(t.id) ==> r == t.dbId
  {
    if Truthy(t.id) then t.id else t.dbId
  }

  /** The effect run when `currentTable` becomes available. */
  function OnTableLoaded(s: Store, t: Table, storageOk: bool): (r: Store)
    ensures r.cart.items == s.cart.items
    ensures r.cart.tableNumber == t.number
    ensures r.cart.tableId == TableIdOf(t)
    ensures storageOk ==> r.slot == Some(TableStorage.TableRecord(t.number, TableIdOf(t)))
    ensures !storageOk ==> r.slot == s.slot
  {
    SetTable(s, t.number, TableIdOf(t), storageOk)
  }

  /** `handleAddToCart`: refused without a loaded table, otherwise one unit. */
  function HandleAddToCart(currentTable: Option<Table>, c: Cart, item: MenuItem): (r: Cart)
    ensures currentTable.None? ==> r == c
    ensures currentTable.Some? ==> HasLine(r.items, item.id)
    ensures currentTable.Some? ==> MenuView.CartCount(r.items) == MenuView.CartCount(c.items) + 1
    ensures Valid(c) ==> Valid(r)
  {
    MenuView.CountAfterAdd(c, item, 1);
    if currentTable.None? then c else AddToCart(c, item, 1)
  }

  /** A click on a card's add button on this page: the card calls the handler
      with its stepper quantity, which the handler ignores. Whatever the
      stepper shows, an accepted click adds exactly one unit; an unavailable
      item or a missing table leaves the cart alone. */
  function ClickAdd(currentTable: Option<Table>, c: Cart, st: MenuItemCard.Stepper, item: MenuItem): (r: (Cart, MenuItemCard.Stepper))
    ensures item.available && currentTable.Some? ==>
              MenuView.CartCount(r.0.items) == MenuView.CartCount(c.items) + 1 && HasLine(r.0.items, item.id)
    ensures !item.available || currentTable.None? ==> r.0 == c
    ensures item.available ==> r.1 == MenuItemCard.Initial
    ensures !item.available ==> r.1 == st
    ensures Valid(c) ==> Valid(r.0)
  {
    var res := MenuItemCard.HandleAdd(st, item);
    match res.callback
    case None => (c, res.stepper)
    case Some(_) => (HandleAddToCart(currentTable, c, item), res.stepper)
  }

  /** Once a table is loaded into the cart, a checkout of a non-empty cart is
      refused for a missing table exactly when neither `id` nor `_id` is
      truthy, and otherwise sends the id `TableIdOf` picked. */
  lemma LoadedTableEnablesCheckout(s: Store, t: Table, storageOk: bool, paid: bool, txn: string)
    requires |s.cart.items| > 0
    ensures var o := Checkout.Snapshot(OnTableLoaded(s, t, storageOk).cart, paid, txn);
            (o == Failure(Checkout.NoTableSelected) <==> !Truthy(t.id) && !Truthy(t.dbId)) &&
            (o.Success? ==> o.value.tableId == (if Truthy(t.id) then t.id.value else t.dbId.value))
  {
  }
}
