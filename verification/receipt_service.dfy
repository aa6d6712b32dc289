/** `ReceiptService`: the receipt aggregate. Each operation is one atomic
    transition of the store; a failed operation returns the exception it
    raises and leaves the store as it was. */
module ReceiptService {
  import opened Wrappers
  import opened Domain
  import opened Seqs
  import opened Persistence
  import ModelsValidator

  /** The discounted unit price frozen on a new line: the price less a
      whole-percent discount, in exact decimal arithmetic. */
  function DiscountedPrice(price: Money, discount: int): (r: Money)
    ensures discount == 0 ==> r == price
    ensures discount == 100 ==> r == 0.0
  {
    price * (100 - discount) as real / 100.0
  }

  /** A discount between 0 and 100 percent keeps the discounted price between
      zero and the undiscounted price. */
  lemma DiscountedPriceBounds(price: Money, discount: int)
    requires price >= 0.0 && 0 <= discount <= 100
    ensures 0.0 <= DiscountedPrice(price, discount) <= price
  {
    var f := (100 - discount) as real / 100.0;
    assert 0.0 <= f <= 1.0;
    assert DiscountedPrice(price, discount) == price * f;
    assert price - price * f == price * (1.0 - f);
    assert price * (1.0 - f) >= 0.0 && price * f >= 0.0;
  }

  /** `AddProductAsync`: put `quantity` units of a product on a receipt. A
      product already on the receipt has its line's quantity raised; otherwise
      a new line freezes the product's price and the customer's discount. */
  function AddProduct(s: Store, productId: Id, receiptId: Id, quantity: int): (r: Result<Store, Error>)
    ensures r.Success? <==>
      && receiptId in s.receipts && quantity > 0
      && (HasLine(s.lines, receiptId, productId)
          || (productId in s.products && s.receipts[receiptId].customerId in s.customers))
    ensures receiptId !in s.receipts ==> r == Failure(Market(ReceiptNotFound))
    ensures receiptId in s.receipts && quantity <= 0 ==> r == Failure(Market(NonPositiveQuantity))
    ensures r.Failure? && receiptId in s.receipts && quantity > 0 ==>
      r.error == (if productId !in s.products then Market(ProductNotFound) else NullReference)
    ensures r.Success? ==> OnlyLinesChange(s, r.value)
  {
    if receiptId !in s.receipts then Failure(Market(ReceiptNotFound))
    else if quantity <= 0 then Failure(Market(NonPositiveQuantity))
    else
      match FindLine(s.lines, receiptId, productId)
      case Some(i) =>
        var line := s.lines[i];
        Success(s.(lines := s.lines[i := line.(quantity := line.quantity + quantity)]))
      case None =>
        if productId !in s.products then Failure(Market(ProductNotFound))
        else
          var customerId := s.receipts[receiptId].customerId;
          if customerId !in s.customers then Failure(NullReference)
          else
            var price := s.products[productId].price;
            var discount := s.customers[customerId].discountValue;
            Success(s.(lines := s.lines + [Line(receiptId, productId, price, DiscountedPrice(price, discount), quantity)]))
  }

  /** `Quantity += quantity` as the source computes it on 32-bit `int`
      quantities with unchecked arithmetic: the sum wraps modulo 2^32. */
  function MergedQuantityAsWritten(before: int, quantity: int): (r: int)
    requires -0x8000_0000 <= before < 0x8000_0000 && -0x8000_0000 <= quantity < 0x8000_0000
    ensures -0x8000_0000 <= r < 0x8000_0000
    ensures (r - (before + quantity)) % 0x1_0000_0000 == 0
  {
    var sum := before + quantity;
    if sum >= 0x8000_0000 then sum - 0x1_0000_0000
    else if sum < -0x8000_0000 then sum + 0x1_0000_0000
    else sum
  }

  /** The wrap-around lets a merge turn a full line's quantity negative. */
  lemma MergedQuantityAsWrittenGoesNegative()
    ensures MergedQuantityAsWritten(0x7FFF_FFFF, 1) == -0x8000_0000
    ensures MergedQuantityAsWritten(0x7FFF_FFFF, 1) < 0
  {
  }

  /** Adding a product not yet on the receipt creates exactly one line, with the
      requested quantity, the product's price and the discounted price, and
      leaves every other line and the invariant intact. */
  lemma AddProductNewLine(s: Store, productId: Id, receiptId: Id, quantity: int)
    requires Valid(s)
    requires receiptId in s.receipts && quantity > 0 && productId in s.products
    requires s.receipts[receiptId].customerId in s.customers
    requires !HasLine(s.lines, receiptId, productId)
    ensures AddProduct(s, productId, receiptId, quantity).Success?
    ensures var s' := AddProduct(s, productId, receiptId, quantity).value;
      var price := s.products[productId].price;
      var discount := s.customers[s.receipts[receiptId].customerId].discountValue;
      && LineFor(s'.lines, receiptId, productId)
         == Some(Line(receiptId, productId, price, price * (100 - discount) as real / 100.0, quantity))
      && |s'.lines| == |s.lines| + 1
      && (forall rid, pid :: !(rid == receiptId && pid == productId) ==>
            LineFor(s'.lines, rid, pid) == LineFor(s.lines, rid, pid))
      && Valid(s')
  {
    var s' := AddProduct(s, productId, receiptId, quantity).value;
    var l := s'.lines[|s.lines|];
    assert s'.lines == s.lines + [l];
    FindLineAppend(s.lines, l, receiptId, productId);
    forall rid, pid | !(rid == receiptId && pid == productId)
      ensures LineFor(s'.lines, rid, pid) == LineFor(s.lines, rid, pid)
    {
      FindLineAppend(s.lines, l, rid, pid);
    }
  }

  /** Adding a product already on the receipt raises that line's quantity by
      `quantity`, keeps its frozen prices, creates no line, needs neither the
      product nor the customer, and leaves every other line intact. */
  lemma AddProductMerge(s: Store, productId: Id, receiptId: Id, quantity: int)
    requires Valid(s)
    requires receiptId in s.receipts && quantity > 0
    requires HasLine(s.lines, receiptId, productId)
    ensures AddProduct(s, productId, receiptId, quantity).Success?
    ensures var s' := AddProduct(s, productId, receiptId, quantity).value;
      var before := LineFor(s.lines, receiptId, productId).value;
      && LineFor(s'.lines, receiptId, productId) == Some(before.(quantity := before.quantity + quantity))
      && before.quantity + quantity > before.quantity > 0
      && |s'.lines| == |s.lines|
      && (forall rid, pid :: !(rid == receiptId && pid == productId) ==>
            LineFor(s'.lines, rid, pid) == LineFor(s.lines, rid, pid))
      && Valid(s')
  {
    var s' := AddProduct(s, productId, receiptId, quantity).value;
    var i := FindLine(s.lines, receiptId, productId).value;
    var l' := s.lines[i].(quantity := s.lines[i].quantity + quantity);
    assert s'.lines == s.lines[i := l'];
    FindLineReplace(s.lines, i, l', receiptId, productId);
    forall rid, pid | !(rid == receiptId && pid == productId)
      ensures LineFor(s'.lines, rid, pid) == LineFor(s.lines, rid, pid)
    {
      FindLineReplace(s.lines, i, l', rid, pid);
    }
    assert s.lines[i] in s.lines;
    forall l | l in s'.lines ensures l.quantity > 0 && l.receiptId in s'.receipts {
      var k :| 0 <= k < |s'.lines| && s'.lines[k] == l;
      if k != i {
        assert s.lines[k] in s.lines;
      }
    }
    assert UniqueKeys(s'.lines) by {
      forall a, b | 0 <= a < b < |s'.lines|
        ensures !Matches(s'.lines[b], s'.lines[a].receiptId, s'.lines[a].productId)
      {
        assert !Matches(s.lines[b], s.lines[a].receiptId, s.lines[a].productId);
      }
    }
  }

  /** A successful add keeps the state invariant. */
  lemma AddProductPreservesValid(s: Store, productId: Id, receiptId: Id, quantity: int)
    requires Valid(s) && AddProduct(s, productId, receiptId, quantity).Success?
    ensures Valid(AddProduct(s, productId, receiptId, quantity).value)
  {
    if HasLine(s.lines, receiptId, productId) {
      AddProductMerge(s, productId, receiptId, quantity);
    } else {
      AddProductNewLine(s, productId, receiptId, quantity);
    }
  }

  /** `RemoveProductAsync`: take `quantity` units of a product off a receipt;
      a line left with no units is deleted. */
  function RemoveProduct(s: Store, productId: Id, receiptId: Id, quantity: int): (r: Result<Store, Error>)
    ensures r.Success? <==> quantity > 0 && receiptId in s.receipts && HasLine(s.lines, receiptId, productId)
    ensures quantity <= 0 ==> r == Failure(Market(NonPositiveQuantity))
    ensures quantity > 0 && receiptId !in s.receipts ==> r == Failure(Market(ReceiptNotFound))
    ensures quantity > 0 && receiptId in s.receipts && r.Failure? ==> r.error == Market(LineNotFound)
    ensures r.Success? ==> OnlyLinesChange(s, r.value)
  {
    if quantity <= 0 then Failure(Market(NonPositiveQuantity))
    else if receiptId !in s.receipts then Failure(Market(ReceiptNotFound))
    else
      match FindLine(s.lines, receiptId, productId)
      case None => Failure(Market(LineNotFound))
      case Some(i) =>
        var line := s.lines[i];
        if line.quantity <= quantity then Success(s.(lines := s.lines[..i] + s.lines[i + 1..]))
        else Success(s.(lines := s.lines[i := line.(quantity := line.quantity - quantity)]))
  }

  /** Removing at least a line's quantity deletes that line and no other. */
  lemma RemoveProductDeletes(s: Store, productId: Id, receiptId: Id, quantity: int)
    requires Valid(s)
    requires receiptId in s.receipts && HasLine(s.lines, receiptId, productId)
    requires quantity >= LineFor(s.lines, receiptId, productId).value.quantity
    ensures RemoveProduct(s, productId, receiptId, quantity).Success?
    ensures var s' := RemoveProduct(s, productId, receiptId, quantity).value;
      && LineFor(s'.lines, receiptId, productId) == None
      && |s'.lines| == |s.lines| - 1
      && (forall rid, pid :: !(rid == receiptId && pid == productId) ==>
            LineFor(s'.lines, rid, pid) == LineFor(s.lines, rid, pid))
      && Valid(s')
  {
    var s' := RemoveProduct(s, productId, receiptId, quantity).value;
    var i := FindLine(s.lines, receiptId, productId).value;
    assert s'.lines == s.lines[..i] + s.lines[i + 1..];
    forall rid, pid | !(rid == receiptId && pid == productId)
      ensures LineFor(s'.lines, rid, pid) == LineFor(s.lines, rid, pid)
    {
      LineForDelete(s.lines, i, rid, pid);
    }
    DeleteIsSubsequence(s.lines, i);
    SubsequenceMembers(s'.lines, s.lines);
    SubsequenceUniqueKeys(s'.lines, s.lines);
    forall l | l in s'.lines ensures !Matches(l, receiptId, productId) {
      var k :| 0 <= k < |s'.lines| && s'.lines[k] == l;
      if k < i {
        assert s.lines[k] == l;
      } else {
        assert s.lines[k + 1] == l;
        assert !Matches(s.lines[k + 1], s.lines[i].receiptId, s.lines[i].productId);
      }
    }
  }

  /** Removing fewer units than a line holds lowers its quantity, which stays
      positive, and leaves every other line intact. */
  lemma RemoveProductDecrements(s: Store, productId: Id, receiptId: Id, quantity: int)
    requires Valid(s)
    requires receiptId in s.receipts && HasLine(s.lines, receiptId, productId)
    requires 0 < quantity < LineFor(s.lines, receiptId, productId).value.quantity
    ensures RemoveProduct(s, productId, receiptId, quantity).Success?
    ensures var s' := RemoveProduct(s, productId, receiptId, quantity).value;
      var before := LineFor(s.lines, receiptId, productId).value;
      && LineFor(s'.lines, receiptId, productId) == Some(before.(quantity := before.quantity - quantity))
      && before.quantity - quantity > 0
      && |s'.lines| == |s.lines|
      && (forall rid, pid :: !(rid == receiptId && pid == productId) ==>
            LineFor(s'.lines, rid, pid) == LineFor(s.lines, rid, pid))
      && Valid(s')
  {
    var s' := RemoveProduct(s, productId, receiptId, quantity).value;
    var i := FindLine(s.lines, receiptId, productId).value;
    var l' := s.lines[i].(quantity := s.lines[i].quantity - quantity);
    assert s'.lines == s.lines[i := l'];
    FindLineReplace(s.lines, i, l', receiptId, productId);
    forall rid, pid | !(rid == receiptId && pid == productId)
      ensures LineFor(s'.lines, rid, pid) == LineFor(s.lines, rid, pid)
    {
      FindLineReplace(s.lines, i, l', rid, pid);
    }
    forall l | l in s'.lines ensures l.quantity > 0 && l.receiptId in s'.receipts {
      var k :| 0 <= k < |s'.lines| && s'.lines[k] == l;
      if k != i {
        assert s.lines[k] in s.lines;
      } else {
        assert s.lines[i] in s.lines;
      }
    }
    assert UniqueKeys(s'.lines) by {
      forall a, b | 0 <= a < b < |s'.lines|
        ensures !Matches(s'.lines[b], s'.lines[a].receiptId, s'.lines[a].productId)
      {
        assert !Matches(s.lines[b], s.lines[a].receiptId, s.lines[a].productId);
      }
    }
  }

  /** A successful remove keeps the state invariant. */
  lemma RemoveProductPreservesValid(s: Store, productId: Id, receiptId: Id, quantity: int)
    requires Valid(s) && RemoveProduct(s, productId, receiptId, quantity).Success?
    ensures Valid(RemoveProduct(s, productId, receiptId, quantity).value)
  {
    if quantity >= LineFor(s.lines, receiptId, productId).value.quantity {
      RemoveProductDeletes(s, productId, receiptId, quantity);
    } else {
      RemoveProductDecrements(s, productId, receiptId, quantity);
    }
  }

  /** `CheckOutAsync`: mark a receipt as checked out. */
  function CheckOut(s: Store, receiptId: Id): (r: Result<Store, Error>)
    ensures r.Failure? <==> receiptId !in s.receipts
    ensures r.Failure? ==> r.error == Market(ReceiptNotFound)
    ensures r.Success? ==>
      && r.value.lines == s.lines && r.value.customers == s.customers
      && r.value.products == s.products && r.value.categories == s.categories
      && r.value.receipts.Keys == s.receipts.Keys
      && r.value.receipts[receiptId].isCheckedOut
      && r.value.receipts[receiptId].(isCheckedOut := false) == s.receipts[receiptId].(isCheckedOut := false)
      && (forall id :: id in s.receipts && id != receiptId ==> r.value.receipts[id] == s.receipts[id])
  {
    if receiptId !in s.receipts then Failure(Market(ReceiptNotFound))
    else Success(s.(receipts := s.receipts[receiptId := s.receipts[receiptId].(isCheckedOut := true)]))
  }

  /** Checking out twice is checking out once; a checked-out receipt stays valid. */
  lemma CheckOutIdempotent(s: Store, receiptId: Id)
    requires CheckOut(s, receiptId).Success?
    ensures CheckOut(CheckOut(s, receiptId).value, receiptId) == CheckOut(s, receiptId)
    ensures Valid(s) ==> Valid(CheckOut(s, receiptId).value)
  {
    var s1 := CheckOut(s, receiptId).value;
    var s2 := CheckOut(s1, receiptId).value;
    assert s2.receipts == s1.receipts;
  }

  /** Adding and removing lines neither read nor change the checked-out flag:
      both answer the same whatever the flag's value, and checkout does not
      block them. */
  lemma LineOperationsIgnoreCheckout(s: Store, productId: Id, receiptId: Id, quantity: int, flag: bool)
    requires receiptId in s.receipts
    ensures var t := s.(receipts := s.receipts[receiptId := s.receipts[receiptId].(isCheckedOut := flag)]);
      && AddProduct(t, productId, receiptId, quantity).Success? == AddProduct(s, productId, receiptId, quantity).Success?
      && (AddProduct(t, productId, receiptId, quantity).Success? ==>
            AddProduct(t, productId, receiptId, quantity).value.lines == AddProduct(s, productId, receiptId, quantity).value.lines
            && AddProduct(t, productId, receiptId, quantity).value.receipts[receiptId].isCheckedOut == flag)
      && RemoveProduct(t, productId, receiptId, quantity).Success? == RemoveProduct(s, productId, receiptId, quantity).Success?
      && (RemoveProduct(t, productId, receiptId, quantity).Success? ==>
            RemoveProduct(t, productId, receiptId, quantity).value.lines == RemoveProduct(s, productId, receiptId, quantity).value.lines
            && RemoveProduct(t, productId, receiptId, quantity).value.receipts[receiptId].isCheckedOut == flag)
  {
  }

  /** `ToPayAsync`: the amount owed on a receipt, Σ quantity × discounted unit price. */
  function ToPay(s: Store, receiptId: Id): (r: Result<Money, Error>)
    ensures r.Failure? <==> receiptId !in s.receipts
    ensures r.Failure? ==> r.error == Market(ReceiptNotFound)
    ensures r.Success? && (forall l :: l in s.lines ==> l.receiptId != receiptId) ==> r.value == 0.0
  {
    if receiptId !in s.receipts then Failure(Market(ReceiptNotFound))
    else
      NoLinesNoAmount(s.lines, receiptId);
      Success(Total(s, receiptId))
  }

  /** A receipt without lines owes nothing. */
  lemma NoLinesNoAmount(lines: seq<Line>, receiptId: Id)
    ensures (forall l :: l in lines ==> l.receiptId != receiptId) ==> Amount(LinesOf(lines, receiptId)) == 0.0
  {
    if forall l :: l in lines ==> l.receiptId != receiptId {
      FilterNone(lines, (l: Line) => l.receiptId == receiptId);
    }
  }

  /** On a valid store whose lines carry non-negative discounted prices, the amount owed is non-negative. */
  lemma ToPayNonNegative(s: Store, receiptId: Id)
    requires Valid(s) && receiptId in s.receipts
    requires forall l :: l in s.lines ==> l.discountUnitPrice >= 0.0
    ensures ToPay(s, receiptId).value >= 0.0
  {
    AmountNonNegative(LinesOf(s.lines, receiptId));
  }

  /** Appending a line adds its amount to its own receipt and nothing to the others. */
  lemma AppendLineAmount(lines: seq<Line>, l: Line, receiptId: Id)
    ensures Amount(LinesOf(lines + [l], receiptId)) ==
      Amount(LinesOf(lines, receiptId)) + (if l.receiptId == receiptId then Amount([l]) else 0.0)
  {
    SplitAmount2(lines, [l], receiptId);
    LinesOfSingle(l, receiptId);
  }

  /** Every receipt other than `receiptId` owes the same in `s'` as in `s`. */
  ghost predicate OtherTotalsUnchanged(s: Store, s': Store, receiptId: Id) {
    forall rid :: rid != receiptId && rid in s.receipts ==> ToPay(s', rid) == ToPay(s, rid)
  }

  /** Adding `quantity` units raises the receipt's amount owed by `quantity`
      times the line's discounted price, and no other receipt's amount. */
  lemma AddProductTotal(s: Store, s': Store, productId: Id, receiptId: Id, quantity: int)
    requires AddProduct(s, productId, receiptId, quantity) == Success(s')
    ensures && LineFor(s'.lines, receiptId, productId).Some?
            && ToPay(s', receiptId).value ==
                 ToPay(s, receiptId).value + Charge(quantity, LineFor(s'.lines, receiptId, productId).value.discountUnitPrice)
    ensures OtherTotalsUnchanged(s, s', receiptId)
  {
    match FindLine(s.lines, receiptId, productId)
    case Some(i) =>
      var l' := s.lines[i].(quantity := s.lines[i].quantity + quantity);
      assert s'.lines == s.lines[i := l'];
      FindLineReplace(s.lines, i, l', receiptId, productId);
      MergeAmount(s.lines, i, l', quantity);
      MergeOtherTotals(s, s', i, l');
      PaymentShift(s, s', receiptId, Charge(quantity, l'.discountUnitPrice));
      assert LineFor(s'.lines, receiptId, productId) == Some(l');
    case None =>
      var l := s'.lines[|s.lines|];
      assert s'.lines == s.lines + [l];
      FindLineAppend(s.lines, l, receiptId, productId);
      assert l.receiptId == receiptId && l.quantity == quantity;
      AppendLineTotal(s, s', l);
      AmountSingle(l);
      PaymentShift(s, s', receiptId, Amount([l]));
      assert LineFor(s'.lines, receiptId, productId) == Some(l);
  }

  /** Appending a row adds its amount to its receipt's total and nothing to the others. */
  lemma AppendLineTotal(s: Store, s': Store, l: Line)
    requires s'.lines == s.lines + [l]
    ensures Total(s', l.receiptId) == Total(s, l.receiptId) + Amount([l])
    ensures forall rid :: rid != l.receiptId ==> Total(s', rid) == Total(s, rid)
  {
    AppendLineAmount(s.lines, l, l.receiptId);
    forall rid | rid != l.receiptId ensures Total(s', rid) == Total(s, rid) {
      AppendLineAmount(s.lines, l, rid);
    }
  }

  /** Lifts a change of one receipt's `Total` by `delta`, all other totals
      being unchanged, to the answers of `ToPay`. */
  lemma PaymentShift(s: Store, s': Store, receiptId: Id, delta: Money)
    requires s'.receipts == s.receipts && receiptId in s.receipts
    requires Total(s', receiptId) == Total(s, receiptId) + delta
    requires forall rid :: rid != receiptId ==> Total(s', rid) == Total(s, rid)
    ensures ToPay(s', receiptId).value == ToPay(s, receiptId).value + delta
    ensures OtherTotalsUnchanged(s, s', receiptId)
  {
    forall rid | rid != receiptId && rid in s.receipts ensures ToPay(s', rid) == ToPay(s, rid) {
      assert ToPay(s', rid) == Success(Total(s', rid));
      assert ToPay(s, rid) == Success(Total(s, rid));
    }
    assert ToPay(s', receiptId) == Success(Total(s', receiptId));
    assert ToPay(s, receiptId) == Success(Total(s, receiptId));
  }

  /** Raising or lowering the quantity of row `i` by `delta` units changes its
      receipt's amount by `delta` times the row's discounted price. */
  lemma MergeAmount(lines: seq<Line>, i: nat, l': Line, delta: int)
    requires i < |lines|
    requires l' == lines[i].(quantity := lines[i].quantity + delta)
    ensures Amount(LinesOf(lines[i := l'], l'.receiptId)) ==
      Amount(LinesOf(lines, l'.receiptId)) + Charge(delta, l'.discountUnitPrice)
  {
    ReplaceLineAmount(lines, i, l', l'.receiptId);
    AmountShift(lines[i], delta);
  }

  /** Replacing row `i` by a row of the same receipt leaves every other receipt's total alone. */
  lemma MergeOtherTotals(s: Store, s': Store, i: nat, l': Line)
    requires i < |s.lines| && l'.receiptId == s.lines[i].receiptId && s'.lines == s.lines[i := l']
    ensures forall rid :: rid != l'.receiptId ==> Total(s', rid) == Total(s, rid)
  {
    forall rid | rid != l'.receiptId ensures Total(s', rid) == Total(s, rid) {
      ReplaceLineAmount(s.lines, i, l', rid);
    }
  }

  /** Removing `quantity` units lowers the receipt's amount owed by the units
      actually taken off (at most the line's quantity) times the line's
      discounted price, and no other receipt's amount. */
  lemma RemoveProductTotal(s: Store, productId: Id, receiptId: Id, quantity: int)
    requires RemoveProduct(s, productId, receiptId, quantity).Success?
    ensures var s' := RemoveProduct(s, productId, receiptId, quantity).value;
      var before := LineFor(s.lines, receiptId, productId).value;
      var taken := if quantity < before.quantity then quantity else before.quantity;
      && ToPay(s', receiptId).value == ToPay(s, receiptId).value - Charge(taken, before.discountUnitPrice)
      && OtherTotalsUnchanged(s, s', receiptId)
  {
    var s' := RemoveProduct(s, productId, receiptId, quantity).value;
    var i := FindLine(s.lines, receiptId, productId).value;
    var before := s.lines[i];
    if before.quantity <= quantity {
      assert s'.lines == s.lines[..i] + s.lines[i + 1..];
      DeleteLineTotals(s, s', i);
      AmountSingle(before);
      PaymentShift(s, s', receiptId, -Amount([before]));
    } else {
      var l' := before.(quantity := before.quantity + (-quantity));
      assert s'.lines == s.lines[i := l'];
      MergeAmount(s.lines, i, l', -quantity);
      MergeOtherTotals(s, s', i, l');
      ChargeSplit(0, quantity, before.discountUnitPrice);
      PaymentShift(s, s', receiptId, Charge(-quantity, before.discountUnitPrice));
    }
  }

  /** Deleting row `i` takes its amount off its receipt's total and nothing off the others. */
  lemma DeleteLineTotals(s: Store, s': Store, i: nat)
    requires i < |s.lines| && s'.lines == s.lines[..i] + s.lines[i + 1..]
    ensures Total(s', s.lines[i].receiptId) == Total(s, s.lines[i].receiptId) - Amount([s.lines[i]])
    ensures forall rid :: rid != s.lines[i].receiptId ==> Total(s', rid) == Total(s, rid)
  {
    DeleteLineAmount(s.lines, i, s.lines[i].receiptId);
    forall rid | rid != s.lines[i].receiptId ensures Total(s', rid) == Total(s, rid) {
      DeleteLineAmount(s.lines, i, rid);
    }
  }

  /** A worked sale: a customer with a 10% discount buys three, then two
      more, of a product priced 100, then returns all five. */
  lemma SaleScenario()
    ensures var person := Person(1, Some("Ann"), Some("Lee"), 0);
      var s := Store(map[1 := Customer(1, person, 10)], map[], map[7 := Product(7, 1, Some("Tea"), 100.0)],
                     map[5 := Receipt(5, 1, 0, false)], []);
      var s1 := AddProduct(s, 7, 5, 3).value;
      var s2 := AddProduct(s1, 7, 5, 2).value;
      var s3 := RemoveProduct(s2, 7, 5, 5).value;
      && s1.lines == [Line(5, 7, 100.0, 90.0, 3)] && ToPay(s1, 5) == Success(270.0)
      && s2.lines == [Line(5, 7, 100.0, 90.0, 5)] && ToPay(s2, 5) == Success(450.0)
      && s3.lines == [] && ToPay(s3, 5) == Success(0.0)
  {
    var person := Person(1, Some("Ann"), Some("Lee"), 0);
    var s := Store(map[1 := Customer(1, person, 10)], map[], map[7 := Product(7, 1, Some("Tea"), 100.0)],
                   map[5 := Receipt(5, 1, 0, false)], []);
    var l1 := Line(5, 7, 100.0, 90.0, 3);
    assert AddProduct(s, 7, 5, 3).value.lines == [l1];
    var s1 := AddProduct(s, 7, 5, 3).value;
    AmountSingle(l1);
    assert LinesOf(s1.lines, 5) == [l1];
    var l2 := Line(5, 7, 100.0, 90.0, 5);
    assert FindLine(s1.lines, 5, 7) == Some(0);
    var s2 := AddProduct(s1, 7, 5, 2).value;
    assert s2.lines == [l2];
    AmountSingle(l2);
    assert LinesOf(s2.lines, 5) == [l2];
    assert FindLine(s2.lines, 5, 7) == Some(0);
  }

  /** The validator puts no upper bound on a discount: a customer it accepts
      with a 150% discount buys one unit at 100 and owes -50, and the line the
      service stores breaks the detail rules. */
  lemma DiscountAboveHundred()
    ensures var birth := Dates.DateTime(1990, 6, 1, 0, 0, 0);
      var s := Store(map[1 := Customer(1, Person(1, Some("Ann"), Some("Lee"), birth), 150)], map[],
                     map[7 := Product(7, 1, Some("Tea"), 100.0)], map[5 := Receipt(5, 1, 0, false)], []);
      var s1 := AddProduct(s, 7, 5, 1).value;
      && ModelsValidator.CustomerIsValid(CustomerModel(1, Some("Ann"), Some("Lee"), birth, 150))
      && s1.lines == [Line(5, 7, 100.0, -50.0, 1)]
      && ToPay(s1, 5) == Success(-50.0)
      && !ModelsValidator.DetailIsValid(DetailModel(0, 5, 7, 100.0, -50.0, 1))
  {
    var birth := Dates.DateTime(1990, 6, 1, 0, 0, 0);
    var s := Store(map[1 := Customer(1, Person(1, Some("Ann"), Some("Lee"), birth), 150)], map[],
                   map[7 := Product(7, 1, Some("Tea"), 100.0)], map[5 := Receipt(5, 1, 0, false)], []);
    var l := Line(5, 7, 100.0, -50.0, 1);
    assert AddProduct(s, 7, 5, 1).value.lines == [l];
    var s1 := AddProduct(s, 7, 5, 1).value;
    AmountSingle(l);
    assert LinesOf(s1.lines, 5) == [l];
  }


  /** `GetReceiptsByPeriodAsync`: the receipts of the listing `all` whose
      operation date lies in [startDate, endDate], comparing full timestamps. */
  function ReceiptsByPeriod(all: seq<Receipt>, startDate: Dates.Ticks, endDate: Dates.Ticks): (r: seq<Receipt>)
    ensures forall rc :: rc in r <==> rc in all && startDate <= rc.operationDate <= endDate
  {
    Filter(all, (rc: Receipt) => rc.operationDate >= startDate && rc.operationDate <= endDate)
  }

  /** Over a listing of the whole receipts table, a receipt is in the answer
      exactly when it is stored and dated within the period. */
  lemma ReceiptsByPeriodOverStore(s: Store, all: seq<Receipt>, startDate: Dates.Ticks, endDate: Dates.Ticks)
    requires ListsTable(all, s.receipts)
    ensures forall rc :: rc in ReceiptsByPeriod(all, startDate, endDate) <==>
      rc in s.receipts.Values && startDate <= rc.operationDate <= endDate
  {
  }

  /** The period filter keeps the listing's order, and an inverted period is empty. */
  lemma ReceiptsByPeriodOrder(all: seq<Receipt>, startDate: Dates.Ticks, endDate: Dates.Ticks)
    ensures IsSubsequence(ReceiptsByPeriod(all, startDate, endDate), all)
    ensures startDate > endDate ==> ReceiptsByPeriod(all, startDate, endDate) == []
  {
    var inPeriod := (rc: Receipt) => rc.operationDate >= startDate && rc.operationDate <= endDate;
    FilterIsSubsequence(all, inPeriod);
    if startDate > endDate {
      FilterNone(all, inPeriod);
    }
  }

  /** `DeleteAsync`: delete a receipt together with all of its lines. */
  function Delete(s: Store, receiptId: Id): (r: Result<Store, Error>)
    ensures r.Failure? <==> receiptId !in s.receipts
    ensures r.Failure? ==> r.error == Market(ReceiptNotFound)
    ensures r.Success? ==>
      && r.value.receipts.Keys == s.receipts.Keys - {receiptId}
      && (forall id :: id in r.value.receipts ==> r.value.receipts[id] == s.receipts[id])
      && (forall l :: l in r.value.lines <==> l in s.lines && l.receiptId != receiptId)
      && r.value.customers == s.customers && r.value.products == s.products
      && r.value.categories == s.categories
  {
    if receiptId !in s.receipts then Failure(Market(ReceiptNotFound))
    else Success(s.(receipts := s.receipts - {receiptId},
                    lines := Filter(s.lines, (l: Line) => l.receiptId != receiptId)))
  }

  /** Deleting a receipt leaves it no lines, leaves every other receipt's
      lines (in order) and amount owed as they were, and keeps the invariant. */
  lemma DeleteCascades(s: Store, receiptId: Id)
    requires Valid(s) && receiptId in s.receipts
    ensures var s' := Delete(s, receiptId).value;
      && LinesOf(s'.lines, receiptId) == []
      && (forall rid :: rid != receiptId ==> LinesOf(s'.lines, rid) == LinesOf(s.lines, rid))
      && (forall rid :: rid != receiptId && rid in s.receipts ==> ToPay(s', rid) == ToPay(s, rid))
      && Valid(s')
  {
    var s' := Delete(s, receiptId).value;
    var keep := (l: Line) => l.receiptId != receiptId;
    FilterNone(s'.lines, (l: Line) => l.receiptId == receiptId);
    forall rid | rid != receiptId ensures LinesOf(s'.lines, rid) == LinesOf(s.lines, rid) {
      DropOtherReceipt(s.lines, receiptId, rid);
    }
    FilterIsSubsequence(s.lines, keep);
    SubsequenceUniqueKeys(s'.lines, s.lines);
  }

  /** Dropping the lines of one receipt does not change the lines of another. */
  lemma {:induction false} DropOtherReceipt(lines: seq<Line>, dropped: Id, rid: Id)
    requires rid != dropped
    ensures LinesOf(Filter(lines, (l: Line) => l.receiptId != dropped), rid) == LinesOf(lines, rid)
  {
    if |lines| > 0 {
      DropOtherReceipt(lines[1..], dropped, rid);
    }
  }

  /** `GetByIdAsync`: the receipt, or `MarketException` when it is missing. */
  function GetById(s: Store, receiptId: Id): (r: Result<Receipt, Error>)
    ensures r.Failure? <==> receiptId !in s.receipts
    ensures r.Failure? ==> r.error == Market(ReceiptNotFound)
    ensures r.Success? ==> r.value == s.receipts[receiptId]
    ensures r.Success? && Valid(s) ==> r.value.id == receiptId
  {
    if receiptId !in s.receipts then Failure(Market(ReceiptNotFound)) else Success(s.receipts[receiptId])
  }

  /** `GetReceiptDetailsAsync`: the receipt's lines, or `MarketException` when it is missing. */
  function GetReceiptDetails(s: Store, receiptId: Id): (r: Result<seq<Line>, Error>)
    ensures r.Failure? <==> receiptId !in s.receipts
    ensures r.Failure? ==> r.error == Market(ReceiptNotFound)
    ensures r.Success? ==> forall l :: l in r.value <==> l in s.lines && l.receiptId == receiptId
    ensures r.Success? && Valid(s) ==> forall i, j :: 0 <= i < j < |r.value| ==> r.value[i].productId != r.value[j].productId
  {
    if receiptId !in s.receipts then Failure(Market(ReceiptNotFound))
    else
      LinesOfUniqueProducts(s, receiptId);
      Success(LinesOf(s.lines, receiptId))
  }

  /** In a valid store a receipt has at most one line per product. */
  lemma LinesOfUniqueProducts(s: Store, receiptId: Id)
    ensures Valid(s) ==>
      var r := LinesOf(s.lines, receiptId);
      forall i, j :: 0 <= i < j < |r| ==> r[i].productId != r[j].productId
  {
    if Valid(s) {
      var r := LinesOf(s.lines, receiptId);
      FilterIsSubsequence(s.lines, (l: Line) => l.receiptId == receiptId);
      SubsequenceUniqueKeys(r, s.lines);
      forall i, j | 0 <= i < j < |r| ensures r[i].productId != r[j].productId {
        assert r[i] in r && r[j] in r;
        assert !Matches(r[j], r[i].receiptId, r[i].productId);
      }
    }
  }

  /** `AddAsync`: persist a new receipt once it passes validation. The save
      fails when the id is taken or the receipt's customer is not stored (the
      foreign key of the `Customer` navigation). */
  function Add(s: Store, model: Option<Receipt>): (r: Result<Store, Error>)
    ensures r.Success? <==>
      model.Some? && ModelsValidator.ReceiptIsValid(model.value) && model.value.id !in s.receipts
      && model.value.customerId in s.customers
    ensures model.None? ==> r == Failure(Market(ModelIsNull))
    ensures model.Some? && !ModelsValidator.ReceiptIsValid(model.value) ==> r.Failure? && r.error.Market?
    ensures r.Success? ==> r.value == s.(receipts := s.receipts[model.value.id := model.value])
    ensures r.Failure? && model.Some? && ModelsValidator.ReceiptIsValid(model.value) ==> r.error == Persistence
  {
    var verdict := ModelsValidator.IsValidModel(if model.None? then None else Some(ModelsValidator.OfReceipt(model.value)));
    if verdict.Failure? then Failure(verdict.error)
    else if !verdict.value then Success(s)
    else if model.value.id in s.receipts || model.value.customerId !in s.customers then Failure(Persistence)
    else Success(s.(receipts := s.receipts[model.value.id := model.value]))
  }

  /** `UpdateAsync`: overwrite a stored receipt with a model that passes
      validation. The save fails when no row has its id or its customer is
      not stored. */
  function Update(s: Store, model: Option<Receipt>): (r: Result<Store, Error>)
    ensures r.Success? <==>
      model.Some? && ModelsValidator.ReceiptIsValid(model.value) && model.value.id in s.receipts
      && model.value.customerId in s.customers
    ensures model.None? ==> r == Failure(Market(ModelIsNull))
    ensures model.Some? && !ModelsValidator.ReceiptIsValid(model.value) ==> r.Failure? && r.error.Market?
    ensures r.Success? ==> r.value == s.(receipts := s.receipts[model.value.id := model.value])
    ensures r.Failure? && model.Some? && ModelsValidator.ReceiptIsValid(model.value) ==> r.error == Persistence
  {
    var verdict := ModelsValidator.IsValidModel(if model.None? then None else Some(ModelsValidator.OfReceipt(model.value)));
    if verdict.Failure? then Failure(verdict.error)
    else if !verdict.value then Success(s)
    else if model.value.id !in s.receipts || model.value.customerId !in s.customers then Failure(Persistence)
    else Success(s.(receipts := s.receipts[model.value.id := model.value]))
  }

  /** A receipt read back after a successful add or update is the model that
      was written; every other receipt reads back as before; no line changes;
      and the invariant is kept. */
  lemma WriteThenRead(s: Store, model: Option<Receipt>)
    requires Add(s, model).Success? || Update(s, model).Success?
    ensures var s' := if Add(s, model).Success? then Add(s, model).value else Update(s, model).value;
      && GetById(s', model.value.id) == Success(model.value)
      && (forall id :: id != model.value.id ==> GetById(s', id) == GetById(s, id))
      && s'.lines == s.lines
      && (Valid(s) ==> Valid(s'))
  {
  }
}
