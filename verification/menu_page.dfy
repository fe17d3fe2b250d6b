/** The general menu page, browsed without a table. */
module MenuPage {
  import opened Records
  import opened CartSlice
  import MenuView
  import MenuItemCard

  /** `handleAddToCart`: no table guard; always one unit. */
  function HandleAddToCart(c: Cart, item: MenuItem): (r: Cart)
    ensures HasLine(r.items, item.id)
    ensures MenuView.CartCount(r.items) == MenuView.CartCount(c.items) + 1
    ensures r.tableNumber == c.tableNumber && r.tableId == c.tableId
    ensures Valid(c) ==> Valid(r)
  {
    MenuView.CountAfterAdd(c, item, 1);
    AddToCart(c, item, 1)
  }

  /** A click on a card's add button on this page. An available item always
      adds exactly one unit, whatever the stepper shows, and the stepper
      returns to 1; an unavailable one changes nothing. */
  function ClickAdd(c: Cart, st: MenuItemCard.Stepper, item: MenuItem): (r: (Cart, MenuItemCard.Stepper))
    ensures item.available ==>
              MenuView.CartCount(r.0.items) == MenuView.CartCount(c.items) + 1 && HasLine(r.0.items, item.id) &&
              r.1 == MenuItemCard.Initial
    ensures !item.available ==> r == (c, st)
    ensures r.0.tableNumber == c.tableNumber && r.0.tableId == c.tableId
    ensures Valid(c) ==> Valid(r.0)
  {
    var res := MenuItemCard.HandleAdd(st, item);
    match res.callback
    case None => (c, res.stepper)
    case Some(_) => (HandleAddToCart(c, item), res.stepper)
  }
}
