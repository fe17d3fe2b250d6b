/** Concrete runs of the cart and the slug parser, stated as lemmas. */
module Scenarios {
  import opened Wrappers
  import opened Records
  import opened CartSlice
  import Checkout
  import QrScanner

  const ItemA: MenuItem := MenuItem("A", "Item A", 10, None, true)
  const ItemB: MenuItem := MenuItem("B", "Item B", 5, None, true)

  /** Adding 2 and then 3 of one item leaves one line of 5, worth 50. */
  lemma TwoAddsMerge()
    ensures var c := AddToCart(AddToCart(Cart([], None, None), ItemA, 2), ItemA, 3);
            c.items == [CartLine("A", ItemA, 5, "")] && Checkout.Total(c.items) == 50
  {
    var c0 := Cart([], None, None);
    var c1 := AddToCart(c0, ItemA, 2);
    AddNewItemAppends(c0, ItemA, 2);
    assert c1.items == [CartLine("A", ItemA, 2, "")];
    assert FindLine(c1.items, ItemA.id) == Some(0);
    var c := AddToCart(c1, ItemA, 3);
    assert c.items == [CartLine("A", ItemA, 5, "")];
    Seqs.SumOfSingleton(c.items[0], Checkout.LineTotal);
  }

  /** Setting a line's quantity to 0 keeps the line, at quantity 0, and the total drops to 0. */
  lemma ZeroQuantityIsStored()
    ensures var c := UpdateQuantity(AddToCart(Cart([], None, None), ItemB, 1), "B", 0);
            c.items == [CartLine("B", ItemB, 0, "")] && Checkout.Total(c.items) == 0
  {
    var c0 := Cart([], None, None);
    var c1 := AddToCart(c0, ItemB, 1);
    AddNewItemAppends(c0, ItemB, 1);
    assert c1.items == [CartLine("B", ItemB, 1, "")];
    UpdateQuantityEffect(c1, "B", 0);
    var c := UpdateQuantity(c1, "B", 0);
    assert c.items == [CartLine("B", ItemB, 0, "")];
    Seqs.SumOfSingleton(c.items[0], Checkout.LineTotal);
  }

  /** Clearing the items after choosing a table keeps the table. */
  lemma ClearItemsKeepsTable(slot: TableStorage.Slot)
    ensures var s := SetTable(Store(InitialState(slot), slot), Some("T1"), Some("t-1"), true);
            var c := ClearCart(AddToCart(s.cart, ItemA, 1));
            c == Cart([], Some("T1"), Some("t-1"))
  {
  }

  /** An `/m/` segment wins over an earlier `/table/` one and is matched
      case-insensitively. */
  lemma MenuSegmentWins()
    ensures QrScanner.ParseSlug("/table/x/M/y") == "y"
  {
    var s := "/table/x/M/y";
    assert QrScanner.MatchesAt(s, 8, QrScanner.MPattern);
    forall q: nat | q < 8 ensures !QrScanner.MatchesAt(s, q, QrScanner.MPattern) {
      if q == 0 { assert s[1] == 't'; }
      else if q == 1 { assert s[2] == 'a'; }
      else if q == 2 { assert s[3] == 'b'; }
      else if q == 3 { assert s[4] == 'l'; }
      else if q == 4 { assert s[5] == 'e'; }
      else if q == 5 { assert s[6] == '/'; }
      else if q == 6 { assert s[7] == 'x'; }
      else { assert s[8] == '/'; }
      assert QrScanner.MPattern[1] == 'm';
      assert QrScanner.Lower(s[q + 1]) != 'm';
    }
    QrScanner.ParseSlugFromM(s, 8);
  }

  /** The segment after `/m/` may be blank: it is any run of characters other
      than `/`, `?` and `#`. */
  lemma BlankSegmentParses()
    ensures QrScanner.ParseSlug("/m/ ") == " "
  {
    var s := "/m/ ";
    assert QrScanner.MatchesAt(s, 0, QrScanner.MPattern);
    QrScanner.ParseSlugFromM(s, 0);
    var g := QrScanner.ParseSlug(s);
    assert |g| == 1;
    assert g == s[3..4];
  }

  /** A scanned `/m/` followed by a blank segment still navigates. */
  lemma BlankScannedSegmentNavigates()
    ensures QrScanner.AfterScan(Some("/m/ ")) == QrScanner.NavigateTo("/table/ ")
  {
    BlankSegmentParses();
    assert QrScanner.TableRoute + " " == "/table/ ";
  }

  /** The same blank typed by hand does not navigate. */
  lemma BlankManualEntryStays()
    ensures QrScanner.ManualEntry(" ") == QrScanner.Stay
  {
    assert QrScanner.IsWhitespace(" "[0]);
  }
}
