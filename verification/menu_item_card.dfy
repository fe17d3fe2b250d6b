/** The menu-item card: a local quantity stepper and the add button that hands
    the item to the page's add-to-cart handler. */
module MenuItemCard {
  import opened Wrappers
  import opened Records

  /** The card's `quantity` state. */
  datatype Stepper = Stepper(quantity: int)

  /** `useState(1)`. */
  const Initial: Stepper := Stepper(1)

  /** The "-" button: `Math.max(1, quantity - 1)`. */
  function Decrement(st: Stepper): (r: Stepper)
    ensures r.quantity >= 1
    ensures st.quantity > 1 ==> r.quantity == st.quantity - 1
    ensures st.quantity <= 1 ==> r.quantity == 1
  {
    Stepper(if st.quantity - 1 < 1 then 1 else st.quantity - 1)
  }

  /** The "+" button. */
  function Increment(st: Stepper): (r: Stepper)
    ensures st.quantity >= 1 ==> r.quantity > 1
  {
    Stepper(st.quantity + 1)
  }

  /** What `handleAdd` does: the new stepper state, and the quantity passed to
      `onAddToCart` when the callback is called. */
  datatype AddResult = AddResult(stepper: Stepper, callback: Option<int>)

  /** `handleAdd`: an unavailable item only raises an error toast; otherwise
      the callback receives the current quantity and the stepper resets. */
  function HandleAdd(st: Stepper, item: MenuItem): (r: AddResult)
    ensures !item.available ==> r == AddResult(st, None)
    ensures item.available ==> r.callback == Some(st.quantity) && r.stepper == Initial
  {
    if !item.available then AddResult(st, None) else AddResult(Initial, Some(st.quantity))
  }

  datatype Event = MinusClicked | PlusClicked | AddClicked

  function Step(st: Stepper, item: MenuItem, e: Event): Stepper
  {
    match e
    case MinusClicked => Decrement(st)
    case PlusClicked => Increment(st)
    case AddClicked => HandleAdd(st, item).stepper
  }

  function RunEvents(st: Stepper, item: MenuItem, events: seq<Event>): Stepper
  {
    if |events| == 0 then st else Step(RunEvents(st, item, events[..|events| - 1]), item, events[|events| - 1])
  }

  /** From its initial state, whatever the clicks, the stepper never shows a
      quantity below 1. */
  lemma {:induction false} QuantityStaysPositive(item: MenuItem, events: seq<Event>)
    ensures RunEvents(Initial, item, events).quantity >= 1
  {
    if |events| > 0 {
      QuantityStaysPositive(item, events[..|events| - 1]);
    }
  }

  /** "-" undoes "+" from any valid quantity, which pins "+" to one step up. */
  lemma DecrementUndoesIncrement(st: Stepper)
    requires st.quantity >= 1
    ensures Decrement(Increment(st)) == st
  {
  }

  /** "+" undoes "-" above 1. */
  lemma IncrementUndoesDecrement(st: Stepper)
    requires st.quantity > 1
    ensures Increment(Decrement(st)) == st
  {
  }

  /** "-" at 1 changes nothing. */
  lemma DecrementFixpoint(st: Stepper)
    requires st.quantity == 1
    ensures Decrement(st) == st
  {
  }
}
