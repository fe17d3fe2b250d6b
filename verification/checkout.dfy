/** The cart drawer: its displayed total, the checkout that turns the cart into
    an order snapshot and submits it, and the per-line quantity buttons. */
module Checkout {
  import opened Wrappers
  import opened Records
  import opened Seqs
  import opened CartSlice

  /** `item.menuItem.price * item.quantity`, the term of every total. */
  function LineTotal(line: CartLine): int
  {
    line.menuItem.price * line.quantity
  }

  /** The total shown in the drawer footer; recomputed from the lines on every read. */
  function Total(items: seq<CartLine>): (r: int)
    ensures |items| == 0 ==> r == 0
    ensures (forall k :: 0 <= k < |items| ==> items[k].menuItem.price >= 0 && items[k].quantity >= 0) ==> r >= 0
  {
    SumOfAtLeast(items, LineTotal, 0);
    SumOf(items, LineTotal)
  }

  /** One entry of the snapshot's `items`. */
  datatype OrderLine = OrderLine(menuItemId: string, quantity: int, note: string, price: int)

  /** The fields added when the order was paid through the (simulated) gateway. */
  datatype Payment = Payment(paymentStatus: string, paymentMethod: string, specialInstructions: string)

  /** The order record sent to the order-creation endpoint. */
  datatype Order = Order(tableId: string, items: seq<OrderLine>, subtotal: int, total: int, payment: Option<Payment>)

  /** Why a checkout is refused before anything is sent. */
  datatype Refusal = CartIsEmpty | NoTableSelected

  /** How the order-creation request settles. */
  datatype Outcome = Created | Failed

  const PaidStatus: string := "paid"
  const PaidMethod: string := "digital"
  const PaidNotePrefix: string := "Paid via Razorpay (Dummy) - TXN-"

  function ToOrderLine(line: CartLine): OrderLine
  {
    OrderLine(line.menuItemId, line.quantity, line.note, line.menuItem.price)
  }

  function OrderLineTotal(line: OrderLine): int
  {
    line.price * line.quantity
  }

  function OrderLines(items: seq<CartLine>): seq<OrderLine>
  {
    seq(|items|, k requires 0 <= k < |items| => ToOrderLine(items[k]))
  }

  /** The snapshot `handleCheckout` builds: refused for an empty cart first,
      then for a falsy table id. `txn` is the random transaction suffix. */
  function Snapshot(c: Cart, paid: bool, txn: string): (r: Result<Order, Refusal>)
    ensures |c.items| == 0 ==> r == Failure(CartIsEmpty)
    ensures |c.items| > 0 && !Truthy(c.tableId) ==> r == Failure(NoTableSelected)
    ensures r.Success? <==> |c.items| > 0 && Truthy(c.tableId)
    ensures r.Success? ==> r.value.tableId == c.tableId.value && r.value.tableId != ""
    ensures r.Success? ==> r.value.subtotal == r.value.total == SumOf(r.value.items, OrderLineTotal)
    ensures r.Success? ==> (r.value.payment.Some? <==> paid)
  {
    if |c.items| == 0 then Failure(CartIsEmpty)
    else if !Truthy(c.tableId) then Failure(NoTableSelected)
    else
      var lines := OrderLines(c.items);
      SnapshotTotalMatchesCart(c.items);
      var payment := if paid then Some(Payment(PaidStatus, PaidMethod, PaidNotePrefix + txn)) else None;
      Success(Order(c.tableId.value, lines, Total(c.items), Total(c.items), payment))
  }

  /** What `handleCheckout` sent, if anything, and the cart after it settles. */
  datatype CheckoutResult = CheckoutResult(sent: Option<Order>, cart: Cart)

  /** The continuation after `createOrder` settles: on success the lines are
      cleared, on failure the cart is left for a retry. */
  function Settle(current: Cart, outcome: Outcome): (r: Cart)
    ensures r.tableNumber == current.tableNumber && r.tableId == current.tableId
    ensures outcome.Created? ==> r.items == []
    ensures outcome.Failed? ==> r == current
  {
    if outcome.Created? then ClearCart(current) else current
  }

  /** `handleCheckout`: guard, build the snapshot, submit it, settle. */
  function HandleCheckout(c: Cart, paid: bool, txn: string, outcome: Outcome): (r: CheckoutResult)
    ensures r.sent.None? <==> |c.items| == 0 || !Truthy(c.tableId)
    ensures r.sent.None? ==> r.cart == c
    ensures r.sent.Some? ==> Snapshot(c, paid, txn) == Success(r.sent.value)
    ensures r.sent.Some? && outcome.Created? ==> r.cart == Cart([], c.tableNumber, c.tableId)
    ensures outcome.Failed? ==> r.cart == c
  {
    match Snapshot(c, paid, txn)
    case Failure(_) => CheckoutResult(None, c)
    case Success(order) => CheckoutResult(Some(order), Settle(c, outcome))
  }

  /** The continuation clears the cart as it stands when the response arrives:
      a line added while the request was in flight is dropped as well, although
      the submitted snapshot did not contain it. */
  lemma SettleDropsLinesAddedInFlight(c: Cart, menuItem: MenuItem, paid: bool, txn: string)
    requires Snapshot(c, paid, txn).Success?
    requires !HasLine(c.items, menuItem.id)
    ensures var sent := Snapshot(c, paid, txn).value;
            forall k :: 0 <= k < |sent.items| ==> sent.items[k].menuItemId != menuItem.id
    ensures !HasLine(Settle(AddToCart(c, menuItem, 1), Created).items, menuItem.id)
  {
  }

  function Max(a: int, b: int): int
  {
    if a < b then b else a
  }

  /** The "-" button of the line at index `i`. */
  function DecreaseButton(c: Cart, i: nat): (r: Cart)
    requires i < |c.items|
    ensures r.tableNumber == c.tableNumber && r.tableId == c.tableId
    ensures |r.items| == |c.items|
    ensures forall k :: 0 <= k < |c.items| ==>
              r.items[k] == c.items[k] ||
              (c.items[k].menuItemId == c.items[i].menuItemId &&
               r.items[k] == c.items[k].(quantity := Max(1, c.items[i].quantity - 1)))
    ensures forall k :: 0 <= k < |c.items| ==> r.items[k].quantity >= 1 || r.items[k] == c.items[k]
    ensures Valid(c) ==> Valid(r)
  {
    UpdateQuantity(c, c.items[i].menuItemId, Max(1, c.items[i].quantity - 1))
  }

  /** The "+" button of the line at index `i`. */
  function IncreaseButton(c: Cart, i: nat): (r: Cart)
    requires i < |c.items|
    ensures r.tableNumber == c.tableNumber && r.tableId == c.tableId
    ensures |r.items| == |c.items|
    ensures forall k :: 0 <= k < |c.items| ==>
              r.items[k] == c.items[k] ||
              (c.items[k].menuItemId == c.items[i].menuItemId &&
               r.items[k] == c.items[k].(quantity := c.items[i].quantity + 1))
    ensures Valid(c) ==> Valid(r)
  {
    UpdateQuantity(c, c.items[i].menuItemId, c.items[i].quantity + 1)
  }

  // ---------------------------------------------------------------------------

  lemma SnapshotTotalMatchesCart(items: seq<CartLine>)
    ensures SumOf(OrderLines(items), OrderLineTotal) == Total(items)
  {
    SumOfPointwise(OrderLines(items), OrderLineTotal, items, LineTotal);
  }

  /** The snapshot's lines follow the cart's lines one for one, in order,
      copying id, quantity, note and the price captured in the line. */
  lemma SnapshotCopiesLines(c: Cart, paid: bool, txn: string)
    requires Snapshot(c, paid, txn).Success?
    ensures var o := Snapshot(c, paid, txn).value;
            |o.items| == |c.items| &&
            forall k :: 0 <= k < |c.items| ==>
              o.items[k].menuItemId == c.items[k].menuItemId &&
              o.items[k].quantity == c.items[k].quantity &&
              o.items[k].note == c.items[k].note &&
              o.items[k].price == c.items[k].menuItem.price
  {
  }

  /** Subtotal and total are one number: the total the drawer displays. */
  lemma SnapshotTotalsAreDisplayedTotal(c: Cart, paid: bool, txn: string)
    requires Snapshot(c, paid, txn).Success?
    ensures Snapshot(c, paid, txn).value.subtotal == Total(c.items)
    ensures Snapshot(c, paid, txn).value.total == Total(c.items)
  {
    SnapshotTotalMatchesCart(c.items);
  }

  /** A paid checkout marks the order paid by the digital method; an unpaid one
      carries no payment fields at all. */
  lemma SnapshotPaymentFields(c: Cart, paid: bool, txn: string)
    requires Snapshot(c, paid, txn).Success?
    ensures var o := Snapshot(c, paid, txn).value;
            paid ==> o.payment.Some? && o.payment.value.paymentStatus == "paid" &&
                     o.payment.value.paymentMethod == "digital"
    ensures !paid ==> Snapshot(c, paid, txn).value.payment.None?
  {
  }

  /** The "-" button never takes a line below 1, lowers it by one above 1, and
      changes nothing at 1; other lines are untouched. */
  lemma DecreaseButtonEffect(c: Cart, i: nat)
    requires DistinctIds(c.items)
    requires i < |c.items|
    ensures var r := DecreaseButton(c, i);
            |r.items| == |c.items| &&
            r.items[i].quantity >= 1 &&
            (c.items[i].quantity > 1 ==> r.items[i].quantity == c.items[i].quantity - 1) &&
            (c.items[i].quantity <= 1 ==> r.items[i].quantity == 1) &&
            r.items[i].menuItemId == c.items[i].menuItemId &&
            forall k :: 0 <= k < |c.items| && k != i ==> r.items[k] == c.items[k]
    ensures c.items[i].quantity == 1 ==> DecreaseButton(c, i) == c
  {
    UpdateQuantityEffect(c, c.items[i].menuItemId, Max(1, c.items[i].quantity - 1));
    if c.items[i].quantity == 1 {
      assert c.items[i].(quantity := 1) == c.items[i];
      assert DecreaseButton(c, i).items == c.items;
    }
  }

  /** The "+" button raises its line by one and leaves the other lines alone. */
  lemma IncreaseButtonEffect(c: Cart, i: nat)
    requires DistinctIds(c.items)
    requires i < |c.items|
    ensures var r := IncreaseButton(c, i);
            |r.items| == |c.items| &&
            r.items[i] == c.items[i].(quantity := c.items[i].quantity + 1) &&
            forall k :: 0 <= k < |c.items| && k != i ==> r.items[k] == c.items[k]
  {
    UpdateQuantityEffect(c, c.items[i].menuItemId, c.items[i].quantity + 1);
  }

  /** Setting the quantity of a line moves the total by the price times the
      change, whatever the new value. */
  lemma TotalAfterUpdateQuantity(c: Cart, i: nat, quantity: int)
    requires DistinctIds(c.items)
    requires i < |c.items|
    ensures Total(UpdateQuantity(c, c.items[i].menuItemId, quantity).items)
            == Total(c.items) + c.items[i].menuItem.price * (quantity - c.items[i].quantity)
  {
    var line := c.items[i];
    FindDistinct(c.items, i);
    assert UpdateQuantity(c, line.menuItemId, quantity).items == c.items[i := line.(quantity := quantity)];
    SumOfUpdate(c.items, i, line.(quantity := quantity), LineTotal);
    LineTotalAfterQuantity(line, quantity);
  }

  /** A line's total moves by its price times the change in quantity. */
  lemma LineTotalAfterQuantity(line: CartLine, quantity: int)
    ensures LineTotal(line.(quantity := quantity)) == LineTotal(line) + line.menuItem.price * (quantity - line.quantity)
  {
    var p := line.menuItem.price;
    assert p * quantity == p * line.quantity + p * (quantity - line.quantity);
  }

  /** Adding `quantity` of an item raises the total by that quantity times the
      price captured in the line: the new item's price for a new line, the
      line's original price for a merged one. */
  lemma TotalAfterAdd(c: Cart, menuItem: MenuItem, quantity: int)
    requires DistinctIds(c.items)
    ensures !HasLine(c.items, menuItem.id) ==>
              Total(AddToCart(c, menuItem, quantity).items) == Total(c.items) + menuItem.price * quantity
    ensures forall i :: 0 <= i < |c.items| && c.items[i].menuItemId == menuItem.id ==>
              Total(AddToCart(c, menuItem, quantity).items) == Total(c.items) + c.items[i].menuItem.price * quantity
  {
    match FindLine(c.items, menuItem.id)
    case None =>
      SumOfAppendOne(c.items, CartLine(menuItem.id, menuItem, quantity, ""), LineTotal);
    case Some(i) =>
      var line := c.items[i];
      SumOfUpdate(c.items, i, line.(quantity := line.quantity + quantity), LineTotal);
      assert LineTotal(line.(quantity := line.quantity + quantity)) == LineTotal(line) + line.menuItem.price * quantity;
  }

  /** Removing a line of a valid cart lowers the total by that line's total. */
  lemma TotalAfterRemove(c: Cart, i: nat)
    requires DistinctIds(c.items)
    requires i < |c.items|
    ensures Total(RemoveFromCart(c, c.items[i].menuItemId).items) == Total(c.items) - LineTotal(c.items[i])
  {
    RemovePresentLine(c, i);
    assert c.items == c.items[..i] + [c.items[i]] + c.items[i + 1..];
    SumOfConcat(c.items[..i] + [c.items[i]], c.items[i + 1..], LineTotal);
    SumOfConcat(c.items[..i], [c.items[i]], LineTotal);
    SumOfConcat(c.items[..i], c.items[i + 1..], LineTotal);
    assert SumOf([c.items[i]], LineTotal) == LineTotal(c.items[i]) by {
      assert [c.items[i]][..0] == [];
    }
  }
}
