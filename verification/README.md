# Restaurant ordering client: cart, checkout and table-slug model

A Dafny model of the logic in a single-page restaurant ordering client: the
Redux **cart slice** (an ordered list of lines keyed by menu-item id, plus a
table association written through to one local-storage slot), the **cart
drawer's checkout** (guards, order snapshot, post-submission transition, the
per-line ± buttons and the displayed total), the **QR scanner's slug
extraction** and navigation decisions, the **menu pages'** derived values
(category filter, badge count, add-to-cart guard, table-id choice) and the
**menu-item card's** quantity stepper.

Everything is modelled as immutable datatypes and pure functions:

| file | module | models |
|---|---|---|
| wrappers.dfy | `Wrappers` | `Option` (for `null`/`undefined`) and `Result` |
| seqs.dfy | `Seqs` | `Array.filter` (`Filter`) and `Array.reduce` sums (`SumOf`) with their laws |
| records.dfy | `Records` | menu item and table records; JavaScript truthiness of optional strings |
| table_storage.dfy | `TableStorage` | the `cartTable` local-storage slot and the start-up loader |
| cart_slice.dfy | `CartSlice` | the seven reducers, the whole reducer, page reload |
| checkout.dfy | `Checkout` | `handleCheckout`, the total, the ± buttons |
| qr_scanner.dfy | `QrScanner` | `String.prototype.trim`, the two slug regexes, `parseSlugFromText`, navigation |
| menu_view.dfy | `MenuView` | `filteredItems` and `cartCount`, written identically on both menu pages |
| table_menu_page.dfy | `TableMenuPage` | table binding and the guarded add-to-cart |
| menu_page.dfy | `MenuPage` | the unguarded add-to-cart |
| menu_item_card.dfy | `MenuItemCard` | the quantity stepper and `handleAdd` |
| scenarios.dfy | `Scenarios` | concrete runs stated as lemmas |

Modelling conventions:

- A JavaScript value that may be `null` or `undefined` is an `Option`; a
  string-or-null is *truthy* when it is present and not `''` (`Records.Truthy`).
- Prices, totals and quantities are unbounded integers; prices are in the
  smallest currency unit.
- `items.find(...)` is `CartSlice.FindLine`: the index of the **first** line
  with the id. `items.filter(...)` is `Seqs.Filter`; `items.reduce(sum + …, 0)`
  is `Seqs.SumOf`, folded from the left as `reduce` does.
- The local-storage slot is `Option<Stored>`: `None` when the key is absent,
  `Unreadable` when the stored text is empty, does not parse, or is not an
  object, and `TableRecord(number, id)` otherwise. A write or removal that
  throws is swallowed by the source; the table reducers take a `storageOk`
  flag, and a failed call leaves the slot as it was.
- `createOrder` is an opaque outcome (`Checkout.Outcome`: `Created` or
  `Failed`); the random transaction suffix of a paid order is a parameter.
- The regex `/\/m\/([^/?#]+)/i` matches at the leftmost position `p` where
  `/m/` occurs (with `m` in either ASCII case) and at least one character
  other than `/`, `?`, `#` follows; the capture is the longest such run
  (`QrScanner.MatchesAt`, `FirstMatch`, `SegmentLength`). Without the `u`
  flag, the only characters that match the letters of `m` and `table`
  case-insensitively are their two ASCII cases, so ASCII lower-casing is exact
  here. The whitespace `trim` removes is the ECMAScript WhiteSpace and
  LineTerminator set, listed code point by code point.

The model follows the code as written; in particular:

- `addToCart` accepts any quantity, and `updateQuantity` stores any value,
  0 and negatives included; only the ± buttons clamp.
- The table number is whatever the loaded table carries; the model treats it
  as a string, like the persisted record.
- The badge count and the filter are computed separately, but identically, by
  each menu page. They are defined once in `MenuView`.

Observations the lemmas make explicit:

- A QR code whose `/m/` segment is blank (`…/m/ `) navigates to `/table/ `,
  because the scan path only tests the slug for emptiness, while typing the
  same blank by hand does not navigate (`Scenarios.BlankScannedSegmentNavigates`,
  `Scenarios.BlankManualEntryStays`).
- After a successful submission the cart is cleared as it stands when the
  response arrives, so a line added while the request was in flight is
  dropped although it was not ordered (`Checkout.SettleDropsLinesAddedInFlight`).
- A merged add keeps the item snapshot of the existing line, so the total
  rises by the *old* price times the quantity (`Checkout.TotalAfterAdd`).

## Model

| member | source | states |
|---|---|---|
| `TableStorage.Load` | src/store/slices/cartSlice.js:4-18 | an absent or unreadable slot yields no table; a stored field comes back unchanged when truthy and as `null` when falsy, so every restored field is either `null` or truthy |
| `TableStorage.Save` | src/store/slices/cartSlice.js:56-61 | a successful save read back by the loader gives each truthy value unchanged and `null` for a falsy one; a failed save leaves the slot as it was |
| `TableStorage.Remove` | src/store/slices/cartSlice.js:66-68 | after a successful removal the loader finds no table; a failed removal leaves the slot as it was |
| `CartSlice.FindLine` | src/store/slices/cartSlice.js:23 | the index found carries the id and no earlier line does; nothing is found exactly when no line has the id |
| `CartSlice.InitialState` | src/store/slices/cartSlice.js:4-19 | the cart starts with no lines and satisfies the invariant; a missing or unreadable slot gives both table fields `null` |
| `CartSlice.AddToCart` | src/store/slices/cartSlice.js:21-35 | the item is in the cart afterwards, the table is untouched, and at most one line per id is preserved |
| `CartSlice.AddNewItemAppends` | src/store/slices/cartSlice.js:27-33 | an item not yet in the cart gets one new line at the end with the given quantity and note `''`; earlier lines are unchanged |
| `CartSlice.AddExistingItemMerges` | src/store/slices/cartSlice.js:23-26 | an item already present raises only its own line by the quantity; line count, order, other lines and the line's item snapshot are unchanged |
| `CartSlice.AddRepeatedlyNewItem` | src/store/slices/cartSlice.js:21-35 | any number of adds of a new item end with exactly one appended line whose quantity is the sum of the added quantities |
| `CartSlice.AddRepeatedlyExistingItem` | src/store/slices/cartSlice.js:23-26 | repeated adds of an item raise the first line with its id by the sum of the quantities, change no other line and keep that line the one found for the id |
| `CartSlice.RemoveFromCart` | src/store/slices/cartSlice.js:36-38 | no line with the id remains, the cart does not grow, the table is untouched, the invariant is kept |
| `CartSlice.RemovePresentLine` | src/store/slices/cartSlice.js:36-38 | removing a present id deletes exactly that line and keeps the lines before and after in order |
| `CartSlice.RemoveAbsentLine` | src/store/slices/cartSlice.js:36-38 | removing an id no line carries is a no-op |
| `CartSlice.RemoveIdempotent` | src/store/slices/cartSlice.js:36-38 | a second removal of the same id changes nothing |
| `CartSlice.RemoveKeepsOthersInOrder` | src/store/slices/cartSlice.js:37 | in any cart the result is a subsequence of the lines holding every other-id line as often as before and none with the id |
| `CartSlice.UpdateQuantity` | src/store/slices/cartSlice.js:39-45 | only quantities can change: ids, item snapshots, notes, length and table are kept, and so is the invariant |
| `CartSlice.UpdateQuantityEffect` | src/store/slices/cartSlice.js:39-45 | the line with the id gets exactly the given quantity (0 and negatives too), every other line is unchanged, and an absent id is a no-op |
| `CartSlice.UpdateNote` | src/store/slices/cartSlice.js:46-52 | only notes can change: ids, item snapshots, quantities, length and table are kept |
| `CartSlice.UpdateNoteEffect` | src/store/slices/cartSlice.js:46-52 | the line with the id gets the given note, every other line is unchanged, and an absent id is a no-op |
| `CartSlice.SetTable` | src/store/slices/cartSlice.js:53-62 | the slice holds the given pair, the lines are untouched, and the slot holds the pair unless the write failed |
| `CartSlice.ClearTable` | src/store/slices/cartSlice.js:63-69 | both table fields become `null`, the lines are untouched, and the slot is removed unless the removal failed |
| `CartSlice.ClearCart` | src/store/slices/cartSlice.js:70-73 | the lines are emptied and the table pair is kept |
| `CartSlice.SetTableThenReload` | src/store/slices/cartSlice.js:53-62 | after a successful `setTable`, a reload restores each truthy table field, turns a falsy one into `null`, and starts with no lines |
| `CartSlice.ClearTableThenReload` | src/store/slices/cartSlice.js:63-69 | after a successful `clearTable` a reload has no table; after a failed removal it restores what the slot held |
| `CartSlice.Reduce` | src/store/slices/cartSlice.js:20-74 | every action keeps at most one line per id; only the two table actions touch the slot |
| `CartSlice.RunKeepsValid` | src/store/slices/cartSlice.js:21-73 | from start-up, any sequence of actions keeps the ids pairwise distinct and each line keyed by its item |
| `CartSlice.RunThenReload` | src/store/slices/cartSlice.js:13-19 | lines are never persisted: a reload after any actions starts empty, and actions other than the table ones leave the slot alone |
| `Checkout.Snapshot` | src/Components/utils/Cart.jsx:19-55 | an empty cart is refused first, then a falsy table id; otherwise the order carries the table id, subtotal equals total equals the sum of price × quantity over the order's own lines, and payment fields exist exactly when paid |
| `Checkout.SnapshotCopiesLines` | src/Components/utils/Cart.jsx:33-38 | the order lines follow the cart lines one for one, copying id, quantity, note and the line's captured price |
| `Checkout.SnapshotTotalsAreDisplayedTotal` | src/Components/utils/Cart.jsx:39-46 | subtotal and total both equal the total the drawer displays (lines 129-132) |
| `Checkout.SnapshotPaymentFields` | src/Components/utils/Cart.jsx:49-55 | a paid order has status `paid` and method `digital`; an unpaid one has no payment fields |
| `Checkout.Total` | src/Components/utils/Cart.jsx:129-132 | an empty cart totals 0, and a cart of non-negative prices and quantities never totals below 0; `Checkout.TotalAfterAdd`, `TotalAfterRemove` and `TotalAfterUpdateQuantity` state how each reducer moves it |
| `Checkout.Settle` | src/Components/utils/Cart.jsx:57-66 | success empties the lines and keeps the table; failure leaves the cart as it was |
| `Checkout.HandleCheckout` | src/Components/utils/Cart.jsx:19-67 | nothing is sent exactly when the cart is empty or the table id is falsy, and then the cart is unchanged; what is sent is the cart's snapshot, so the `Snapshot` rows apply to it; a sent order clears only the lines on success and nothing on failure |
| `Checkout.SettleDropsLinesAddedInFlight` | src/Components/utils/Cart.jsx:57-62 | a line added while the request is in flight is not in the sent order but is gone after a successful settle |
| `Checkout.DecreaseButton` | src/Components/utils/Cart.jsx:199 | in any cart, only lines with the clicked line's id may change, each to `max(1, quantity - 1)` of the clicked line; lengths, table and the invariant are kept |
| `Checkout.IncreaseButton` | src/Components/utils/Cart.jsx:206 | in any cart, only lines with the clicked line's id may change, each to the clicked line's quantity plus one; lengths, table and the invariant are kept |
| `Checkout.DecreaseButtonEffect` | src/Components/utils/Cart.jsx:199 | the minus button never leaves a line below 1, lowers it by one above 1, is a fixpoint at 1, and leaves other lines alone |
| `Checkout.IncreaseButtonEffect` | src/Components/utils/Cart.jsx:206 | the plus button raises its line by one and leaves other lines alone |
| `Checkout.TotalAfterUpdateQuantity` | src/Components/utils/Cart.jsx:129-132 | setting a quantity moves the total by the line's price times the change |
| `Checkout.TotalAfterAdd` | src/Components/utils/Cart.jsx:129-132 | an add raises the total by the quantity times the price captured in the line (the old price for a merge) |
| `Checkout.TotalAfterRemove` | src/Components/utils/Cart.jsx:129-132 | removing a line lowers the total by that line's price × quantity |
| `QrScanner.Trim` | src/pages/QRScanner.jsx:23 | the result is the input stripped of surrounding whitespace: padded by whitespace on both sides to give the input, with no whitespace at its own ends |
| `QrScanner.TrimCharacterized` | src/pages/QRScanner.jsx:23 | that description determines the trim uniquely: any string padded out to the input by whitespace, with no whitespace at its own ends, is the trim |
| `QrScanner.TrimIdempotent` | src/pages/QRScanner.jsx:23 | trimming twice equals trimming once |
| `QrScanner.TrimEmptyIff` | src/pages/QRScanner.jsx:31 | the trimmed text is empty exactly when the input is all whitespace |
| `QrScanner.SegmentLength` | src/pages/QRScanner.jsx:17 | the captured run consists of characters other than `/`, `?`, `#` and is followed by one of them or the end (greedy `+`) |
| `QrScanner.Capture` | src/pages/QRScanner.jsx:17-21 | a group is captured exactly when some position matches, and it is a non-empty run without `/`, `?`, `#`; `QrScanner.CaptureIsSegment` adds that it is the maximal run after the leftmost match |
| `QrScanner.FirstMatch` | src/pages/QRScanner.jsx:17 | the position found matches and no earlier one does; none is found only when no position matches |
| `QrScanner.ParseSlug` | src/pages/QRScanner.jsx:14-27 | the slug is either the trimmed text or a non-empty run without `/`, `?`, `#` |
| `QrScanner.ParseSlugFromM` | src/pages/QRScanner.jsx:17-18 | with an `/m/` match, the slug is the maximal segment after the leftmost one, whatever `/table/` matches exist |
| `QrScanner.ParseSlugFromTable` | src/pages/QRScanner.jsx:20-21 | only when no `/m/` match exists, the slug is the maximal segment after the leftmost `/table/` |
| `QrScanner.ParseSlugFallback` | src/pages/QRScanner.jsx:23 | with neither pattern matching, the slug is the trimmed input |
| `QrScanner.ManualEntry` | src/pages/QRScanner.jsx:29-36 | navigation happens exactly when the typed slug has a non-whitespace character, and goes to `/table/` + the trimmed slug |
| `QrScanner.ScanNavigates` | src/pages/QRScanner.jsx:73-76 | the parsed slug is non-empty exactly when a pattern matches or the text has a non-whitespace character |
| `QrScanner.AfterScan` | src/pages/QRScanner.jsx:73-76 | a scan navigates exactly when a pattern matches or the raw value has a non-whitespace character, to `/table/` + the parsed slug |
| `MenuView.CartCount` | src/pages/TableMenuPage.jsx:55 | an empty cart counts 0, and with every quantity at least 1 the badge is at least the number of lines; the same expression is at src/pages/MenuPage.jsx:34 |
| `MenuView.FilterItems` | src/pages/TableMenuPage.jsx:51-53 | with no active category all items are returned in order; with one, every kept item belongs to it |
| `MenuView.FilterItemsExact` | src/pages/MenuPage.jsx:30-32 | with an active category the result is a subsequence holding every item of that category as often as it occurs and nothing else, so items without a category are excluded |
| `MenuView.FilterItemsIdempotent` | src/pages/MenuPage.jsx:30-32 | filtering twice by the same category equals filtering once |
| `MenuView.CountAfterAdd` | src/pages/TableMenuPage.jsx:55 | an add raises the sum of line quantities by the added quantity, merged or appended |
| `MenuView.CountAfterRemove` | src/pages/MenuPage.jsx:34 | removing a line lowers the badge by that line's quantity |
| `MenuView.CountAfterUpdateQuantity` | src/pages/TableMenuPage.jsx:55 | setting a quantity moves the badge by the difference |
| `TableMenuPage.TableIdOf` | src/pages/TableMenuPage.jsx:33-34 | the id is `id` when truthy and `_id` otherwise; it is truthy exactly when one of the two is |
| `TableMenuPage.OnTableLoaded` | src/pages/TableMenuPage.jsx:30-35 | loading a table stores its number and `id || _id` as the table id, writes that pair to the slot unless the write fails, and leaves the lines alone |
| `TableMenuPage.HandleAddToCart` | src/pages/TableMenuPage.jsx:42-49 | without a loaded table the cart is unchanged; with one the item is present and the badge rises by exactly 1 |
| `TableMenuPage.ClickAdd` | src/pages/TableMenuPage.jsx:42-47 | the card's add button wired to this page's handler (line 165): whatever quantity the stepper passes, an accepted click adds one unit; an unavailable item or a missing table leaves the cart alone; the stepper resets exactly when the item is available |
| `TableMenuPage.LoadedTableEnablesCheckout` | src/pages/TableMenuPage.jsx:33-34 | after a table loads, checkout of a non-empty cart is refused for a missing table exactly when neither `id` nor `_id` is truthy, and otherwise sends the chosen id |
| `MenuPage.HandleAddToCart` | src/pages/MenuPage.jsx:25-28 | with no table guard, the item is present afterwards, the badge rises by exactly 1 and the table is untouched |
| `MenuPage.ClickAdd` | src/pages/MenuPage.jsx:25-28 | the card's add button wired to this page's handler (line 126): an available item adds exactly one unit whatever the stepper shows and resets it to 1; an unavailable one changes nothing |
| `MenuItemCard.Decrement` | src/Components/utils/MenuItem.jsx:75 | the minus step never goes below 1, lowers by one above 1 and gives 1 otherwise |
| `MenuItemCard.Increment` | src/Components/utils/MenuItem.jsx:82 | the plus step from a valid quantity gives more than 1 |
| `MenuItemCard.DecrementUndoesIncrement` | src/Components/utils/MenuItem.jsx:75-82 | from any valid quantity the minus step undoes the plus step, which with `Decrement`'s contract fixes the plus step at one up |
| `MenuItemCard.IncrementUndoesDecrement` | src/Components/utils/MenuItem.jsx:75-82 | above 1 the plus step undoes the minus step |
| `MenuItemCard.DecrementFixpoint` | src/Components/utils/MenuItem.jsx:75 | the minus step at 1 changes nothing |
| `MenuItemCard.HandleAdd` | src/Components/utils/MenuItem.jsx:7-14 | an unavailable item neither calls back nor changes the quantity; otherwise the callback gets the current quantity and the stepper resets to 1 |
| `MenuItemCard.QuantityStaysPositive` | src/Components/utils/MenuItem.jsx:75-82 | from the initial 1, any sequence of minus, plus and add clicks keeps the quantity at least 1 |
| `Scenarios.TwoAddsMerge` | src/store/slices/cartSlice.js:21-35 | adding 2 then 3 of an item priced 10 gives one line of 5 and a total of 50 |
| `Scenarios.ZeroQuantityIsStored` | src/store/slices/cartSlice.js:39-45 | setting a line's quantity to 0 keeps the line at 0 and makes the total 0 |
| `Scenarios.ClearItemsKeepsTable` | src/store/slices/cartSlice.js:70-73 | choosing a table, adding an item and clearing leaves no lines and the same table |
| `Scenarios.MenuSegmentWins` | src/pages/QRScanner.jsx:17-21 | in `/table/x/M/y` the `/M/` segment `y` wins over the earlier `/table/` one |
| `Scenarios.BlankSegmentParses` | src/pages/QRScanner.jsx:17-18 | the segment after `/m/` may be a single space |
| `Scenarios.BlankScannedSegmentNavigates` | src/pages/QRScanner.jsx:73-76 | scanning `/m/ ` navigates to `/table/ ` |
| `Scenarios.BlankManualEntryStays` | src/pages/QRScanner.jsx:29-36 | typing a single space does not navigate |

## Left out

- Rendering, Tailwind classes, toasts and the drawer/modal open state: presentation only.
- The network thunks and their loading and error fields (`menuSlice`, `orderSlice`, `tableSlice`): remote API calls whose reducers only assign fields. `createOrder` is an opaque `Created`/`Failed` outcome, and the created order record kept for the bill is not modelled.
- The `isLoading`/`paying` flags that disable the checkout buttons: they only affect which clicks the UI accepts.
- The admin screens, the admin dashboard and navigation, `invoice.js`, routing and store wiring: form submission, socket updates, an HTML popup with float formatting, and framework plumbing.
- The Razorpay script loading, the server payment order, the 2-second simulated payment and `Math.random`: foreign SDK calls, timers and randomness. Both payment paths end in `handleCheckout({ paid: true })`, which is modelled with the transaction suffix as a parameter.
- The camera, `BarcodeDetector` and the `requestAnimationFrame` loop, and `stopCamera`: browser device APIs. Only the parse and navigate decisions are modelled.
- The `catch` branch of `parseSlugFromText`: it is only reached when the input is not a string, and the model's input is always a string.
- Floating-point money and `toFixed`: prices and totals are integers in the smallest unit, and JavaScript's loss of precision above 2^53 is not modelled.
- JSON encoding: the slot holds the decoded record directly.
- A `localStorage.getItem` that throws at start-up: the loader then yields `null`, exactly as for an absent key, so the model represents it by the `None` slot rather than as a separate read failure.
- The timing of the in-flight submission: `Checkout.Settle` takes whatever cart exists when the response arrives, but the interleaving of events is not modelled.
- Table numbers that are JavaScript numbers: a number `0` would be falsy like `''`, and the model uses strings only.
- CartSlice.AddExistingItemMerges: stated for carts with distinct ids, the only carts the reducers reach (`CartSlice.RunKeepsValid`); on other carts the source updates the first matching line, as `CartSlice.FindLine` states.
- CartSlice.RemovePresentLine: stated for carts with distinct ids; `CartSlice.RemoveKeepsOthersInOrder` covers every cart.
- CartSlice.UpdateQuantityEffect: stated for carts with distinct ids; on other carts only the first matching line changes.
- CartSlice.UpdateNoteEffect: stated for carts with distinct ids; on other carts only the first matching line changes.
- Checkout.DecreaseButtonEffect: stated for carts with distinct ids, the only ones the reducers reach; the button dispatches by id, so on other carts it acts on the first line with that id.
- Checkout.IncreaseButtonEffect: stated for carts with distinct ids, for the same reason.
- Checkout.TotalAfterUpdateQuantity: stated for carts with distinct ids, for the same reason.
- Checkout.TotalAfterAdd: stated for carts with distinct ids, for the same reason.
- Checkout.TotalAfterRemove: stated for carts with distinct ids; on other carts every line with the id goes.
- MenuView.CountAfterRemove: stated for carts with distinct ids, for the same reason.
- MenuView.CountAfterUpdateQuantity: stated for carts with distinct ids, for the same reason.
