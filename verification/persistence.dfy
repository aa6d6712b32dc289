/** The database as one immutable value: a finite map per entity table, and
    the `ReceiptsDetails` table as a sequence of rows whose composite key
    (ReceiptId, ProductId) is an invariant the receipt operations keep. */
module Persistence {
  import opened Wrappers
  import opened Domain
  import opened Seqs

  datatype Store = Store(
    customers: map<Id, Customer>,
    categories: map<Id, Category>,
    products: map<Id, Product>,
    receipts: map<Id, Receipt>,
    lines: seq<Line>)

  /** `l` is the row of product `productId` on receipt `receiptId`. */
  predicate Matches(l: Line, receiptId: Id, productId: Id) {
    l.receiptId == receiptId && l.productId == productId
  }

  /** No two rows of the table share a (ReceiptId, ProductId) key. */
  ghost predicate UniqueKeys(lines: seq<Line>) {
    forall i, j :: 0 <= i < j < |lines| ==> !Matches(lines[j], lines[i].receiptId, lines[i].productId)
  }

  /** The state invariant: the composite key of the lines table, positive line
      quantities, lines only of existing receipts, and every map keyed by the
      id of the record it holds. */
  ghost predicate Valid(s: Store) {
    && UniqueKeys(s.lines)
    && (forall l :: l in s.lines ==> l.quantity > 0 && l.receiptId in s.receipts)
    && (forall id :: id in s.customers ==> s.customers[id].id == id)
    && (forall id :: id in s.categories ==> s.categories[id].id == id)
    && (forall id :: id in s.products ==> s.products[id].id == id)
    && (forall id :: id in s.receipts ==> s.receipts[id].id == id)
  }

  /** The listing `all` holds exactly the records of `table`: what a query
      over the whole table returns, in an order the database leaves open. */
  ghost predicate ListsTable<T(!new)>(all: seq<T>, table: map<Id, T>) {
    forall x :: x in all <==> x in table.Values
  }

  /** Only the lines table differs between `s` and `s'`. */
  predicate OnlyLinesChange(s: Store, s': Store) {
    s'.customers == s.customers && s'.categories == s.categories
    && s'.products == s.products && s'.receipts == s.receipts
  }

  /** Some row of the table is the line of `productId` on `receiptId`. */
  ghost predicate HasLine(lines: seq<Line>, receiptId: Id, productId: Id) {
    exists l :: l in lines && Matches(l, receiptId, productId)
  }

  /** Position of the first row for (receiptId, productId): `FirstOrDefault`. */
  function FindLine(lines: seq<Line>, receiptId: Id, productId: Id): (r: Option<nat>)
    ensures r.Some? ==> r.value < |lines| && Matches(lines[r.value], receiptId, productId)
    ensures r.Some? ==> forall j :: 0 <= j < r.value ==> !Matches(lines[j], receiptId, productId)
    ensures r.None? <==> !HasLine(lines, receiptId, productId)
  {
    if |lines| == 0 then None
    else if Matches(lines[0], receiptId, productId) then Some(0)
    else
      match FindLine(lines[1..], receiptId, productId)
      case None => None
      case Some(i) => Some(i + 1)
  }

  /** The row for (receiptId, productId), or null. */
  function LineFor(lines: seq<Line>, receiptId: Id, productId: Id): (r: Option<Line>)
    ensures r.Some? ==> r.value in lines && Matches(r.value, receiptId, productId)
    ensures r.None? <==> !HasLine(lines, receiptId, productId)
  {
    match FindLine(lines, receiptId, productId)
    case None => None
    case Some(i) => Some(lines[i])
  }

  /** The `ReceiptDetails` collection of a receipt: its rows in table order. */
  function LinesOf(lines: seq<Line>, receiptId: Id): (r: seq<Line>)
    ensures forall l :: l in r <==> l in lines && l.receiptId == receiptId
  {
    Filter(lines, (l: Line) => l.receiptId == receiptId)
  }

  /** The price of `quantity` units at `unitPrice` each. */
  function Charge(quantity: int, unitPrice: Money): Money {
    quantity as real * unitPrice
  }

  /** Σ quantity × discounted unit price over `lines`. */
  function Amount(lines: seq<Line>): Money {
    if |lines| == 0 then 0.0
    else Charge(lines[0].quantity, lines[0].discountUnitPrice) + Amount(lines[1..])
  }

  /** The amount owed on a receipt. */
  function Total(s: Store, receiptId: Id): Money {
    Amount(LinesOf(s.lines, receiptId))
  }

  // ---------------------------------------------------------------------
  // Facts about the lines table used by the receipt operations.

  /** The amount of a single row is its quantity charged at its discounted price. */
  lemma AmountSingle(l: Line)
    ensures Amount([l]) == Charge(l.quantity, l.discountUnitPrice)
  {
    assert [l][1..] == [];
  }

  /** Charging for `quantity + delta` units is charging for `quantity` units
      and then for `delta` more. */
  lemma ChargeSplit(quantity: int, delta: int, unitPrice: Money)
    ensures Charge(quantity + delta, unitPrice) == Charge(quantity, unitPrice) + Charge(delta, unitPrice)
    ensures Charge(-delta, unitPrice) == -Charge(delta, unitPrice)
  {
  }

  /** Changing a row's quantity by `delta` changes its amount by the charge for `delta` units. */
  lemma AmountShift(l: Line, delta: int)
    ensures Amount([l.(quantity := l.quantity + delta)]) == Amount([l]) + Charge(delta, l.discountUnitPrice)
  {
    AmountSingle(l);
    AmountSingle(l.(quantity := l.quantity + delta));
    ChargeSplit(l.quantity, delta, l.discountUnitPrice);
  }

  /** A single row belongs to its own receipt's rows and to no other. */
  lemma LinesOfSingle(l: Line, receiptId: Id)
    ensures LinesOf([l], receiptId) == if l.receiptId == receiptId then [l] else []
  {
  }

  lemma {:induction false} AmountAppend(a: seq<Line>, b: seq<Line>)
    ensures Amount(a + b) == Amount(a) + Amount(b)
  {
    if |a| == 0 {
      assert a + b == b;
    } else {
      assert (a + b)[1..] == a[1..] + b;
      AmountAppend(a[1..], b);
    }
  }

  /** Amount of a receipt whose lines all have positive quantity and a
      non-negative discounted price is non-negative. */
  lemma {:induction false} AmountNonNegative(lines: seq<Line>)
    requires forall l :: l in lines ==> l.quantity > 0 && l.discountUnitPrice >= 0.0
    ensures Amount(lines) >= 0.0
  {
    if |lines| > 0 {
      assert lines[0] in lines;
      assert forall l :: l in lines[1..] ==> l in lines;
      AmountNonNegative(lines[1..]);
    }
  }

  /** The lines of `receiptId` in `a + b` are its lines in `a` followed by those in `b`. */
  lemma LinesOfAppend(a: seq<Line>, b: seq<Line>, receiptId: Id)
    ensures LinesOf(a + b, receiptId) == LinesOf(a, receiptId) + LinesOf(b, receiptId)
  {
    FilterAppend(a, b, (l: Line) => l.receiptId == receiptId);
  }

  /** The amount of a receipt over `pre + [x] + post` splits into the three parts. */
  lemma SplitAmount(pre: seq<Line>, x: Line, post: seq<Line>, receiptId: Id)
    ensures Amount(LinesOf(pre + [x] + post, receiptId)) ==
      Amount(LinesOf(pre, receiptId))
      + (if x.receiptId == receiptId then Amount([x]) else 0.0)
      + Amount(LinesOf(post, receiptId))
  {
    LinesOfAppend(pre + [x], post, receiptId);
    LinesOfAppend(pre, [x], receiptId);
    var a, m, c := LinesOf(pre, receiptId), LinesOf([x], receiptId), LinesOf(post, receiptId);
    assert m == (if x.receiptId == receiptId then [x] else []);
    AmountAppend(a + m, c);
    AmountAppend(a, m);
  }

  /** The amount of a receipt over `pre + post` splits into the two parts. */
  lemma SplitAmount2(pre: seq<Line>, post: seq<Line>, receiptId: Id)
    ensures Amount(LinesOf(pre + post, receiptId)) ==
      Amount(LinesOf(pre, receiptId)) + Amount(LinesOf(post, receiptId))
  {
    LinesOfAppend(pre, post, receiptId);
    AmountAppend(LinesOf(pre, receiptId), LinesOf(post, receiptId));
  }

  /** Replacing row `i` by a row of the same receipt changes that receipt's
      amount by the difference of the two rows' amounts, and no other
      receipt's amount. */
  lemma ReplaceLineAmount(lines: seq<Line>, i: nat, l': Line, receiptId: Id)
    requires i < |lines| && l'.receiptId == lines[i].receiptId
    ensures Amount(LinesOf(lines[i := l'], receiptId)) ==
      Amount(LinesOf(lines, receiptId))
      + (if receiptId == l'.receiptId then Amount([l']) - Amount([lines[i]]) else 0.0)
  {
    var pre, post := lines[..i], lines[i + 1..];
    assert lines == pre + [lines[i]] + post;
    assert lines[i := l'] == pre + [l'] + post;
    SplitAmount(pre, lines[i], post, receiptId);
    SplitAmount(pre, l', post, receiptId);
  }

  /** Deleting row `i` lowers its receipt's amount by that row's amount and
      leaves every other receipt's amount alone. */
  lemma DeleteLineAmount(lines: seq<Line>, i: nat, receiptId: Id)
    requires i < |lines|
    ensures Amount(LinesOf(lines[..i] + lines[i + 1..], receiptId)) ==
      Amount(LinesOf(lines, receiptId))
      - (if receiptId == lines[i].receiptId then Amount([lines[i]]) else 0.0)
  {
    var pre, post := lines[..i], lines[i + 1..];
    assert lines == pre + [lines[i]] + post;
    SplitAmount(pre, lines[i], post, receiptId);
    SplitAmount2(pre, post, receiptId);
  }

  /** Appending a row keeps every earlier answer of the lookup and answers the
      new row's key with the new row when the key was absent. */
  lemma {:induction false} FindLineAppend(lines: seq<Line>, l: Line, receiptId: Id, productId: Id)
    ensures FindLine(lines + [l], receiptId, productId) ==
      (if FindLine(lines, receiptId, productId).Some? then FindLine(lines, receiptId, productId)
       else if Matches(l, receiptId, productId) then Some(|lines|) else None)
  {
    if |lines| > 0 {
      assert (lines + [l])[1..] == lines[1..] + [l];
      FindLineAppend(lines[1..], l, receiptId, productId);
    }
  }

  /** Replacing a row by one that agrees with it on matching the key leaves the
      lookup's position unchanged. */
  lemma {:induction false} FindLineReplace(lines: seq<Line>, i: nat, l': Line, receiptId: Id, productId: Id)
    requires i < |lines|
    requires Matches(l', receiptId, productId) == Matches(lines[i], receiptId, productId)
    ensures FindLine(lines[i := l'], receiptId, productId) == FindLine(lines, receiptId, productId)
  {
    if i > 0 {
      assert lines[i := l'][1..] == lines[1..][i - 1 := l'];
      FindLineReplace(lines[1..], i - 1, l', receiptId, productId);
    }
  }

  /** Deleting a row that does not match the key leaves the lookup's row unchanged. */
  lemma {:induction false} LineForDelete(lines: seq<Line>, i: nat, receiptId: Id, productId: Id)
    requires i < |lines| && !Matches(lines[i], receiptId, productId)
    ensures LineFor(lines[..i] + lines[i + 1..], receiptId, productId) == LineFor(lines, receiptId, productId)
  {
    if i > 0 {
      var rest := lines[1..];
      assert (lines[..i] + lines[i + 1..])[0] == lines[0];
      assert (lines[..i] + lines[i + 1..])[1..] == rest[..i - 1] + rest[i..];
      LineForDelete(rest, i - 1, receiptId, productId);
    } else {
      assert lines[..i] + lines[i + 1..] == lines[1..];
    }
  }

  /** Taking a subsequence of a table keeps its keys unique. */
  lemma {:induction false} SubsequenceUniqueKeys(a: seq<Line>, b: seq<Line>)
    requires IsSubsequence(a, b) && UniqueKeys(b)
    ensures UniqueKeys(a)
    decreases |b|
  {
    if |a| > 0 {
      assert UniqueKeys(b[1..]) by {
        forall i, j | 0 <= i < j < |b[1..]|
          ensures !Matches(b[1..][j], b[1..][i].receiptId, b[1..][i].productId)
        {
          assert b[1..][i] == b[i + 1] && b[1..][j] == b[j + 1];
        }
      }
      if a[0] == b[0] {
        SubsequenceUniqueKeys(a[1..], b[1..]);
        SubsequenceMembers(a[1..], b[1..]);
        forall i, j | 0 <= i < j < |a| ensures !Matches(a[j], a[i].receiptId, a[i].productId) {
          if i == 0 {
            assert a[j] == a[1..][j - 1];
            assert a[j] in a[1..];
            var k :| 0 <= k < |b[1..]| && b[1..][k] == a[j];
            assert b[k + 1] == a[j];
          } else {
            assert a[i] == a[1..][i - 1] && a[j] == a[1..][j - 1];
          }
        }
      } else {
        SubsequenceUniqueKeys(a, b[1..]);
      }
    }
  }

  /** Deleting row `i` leaves a subsequence of the table. */
  lemma {:induction false} DeleteIsSubsequence(lines: seq<Line>, i: nat)
    requires i < |lines|
    ensures IsSubsequence(lines[..i] + lines[i + 1..], lines)
  {
    var r := lines[..i] + lines[i + 1..];
    if i == 0 {
      assert r == lines[1..];
      FilterIsSubsequence(lines[1..], (l: Line) => true);
      FilterAll(lines[1..], (l: Line) => true);
      SubsequenceWeaken(r, lines);
    } else {
      DeleteIsSubsequence(lines[1..], i - 1);
      assert r[0] == lines[0];
      assert r[1..] == lines[1..][..i - 1] + lines[1..][i..];
    }
  }
}
