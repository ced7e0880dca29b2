/**
 * The arithmetic of checkout: the subtotal of the priced cart lines, 8% tax,
 * the flat shipping fee waived above 50, the order total, the order items
 * written per line and the stock each line leaves behind. Amounts are exact
 * reals and are not rounded, as in the service.
 */
module Pricing {
  import opened Schema

  const TaxRate: real := 0.08
  /** Shipping is free for a subtotal strictly above this amount. */
  const FreeShippingAbove: real := 50.0
  const ShippingFee: real := 9.99

  /** A cart line joined with its book as read at checkout time (the snapshot). */
  datatype PricedLine = PricedLine(bookId: Id, title: string, price: real, stock: int, quantity: int)

  /** `price × quantity` of one line. */
  function LineTotal(l: PricedLine): real {
    l.price * l.quantity as real
  }

  /** The sum of the line totals, accumulated in cart order. */
  function Subtotal(lines: seq<PricedLine>): real {
    if lines == [] then 0.0 else Subtotal(lines[..|lines| - 1]) + LineTotal(lines[|lines| - 1])
  }

  function Tax(subtotal: real): real {
    subtotal * TaxRate
  }

  function ShippingCost(subtotal: real): real {
    if subtotal > FreeShippingAbove then 0.0 else ShippingFee
  }

  /** The four amounts stored on an order. */
  datatype Totals = Totals(subtotal: real, tax: real, shippingCost: real, totalAmount: real)

  function ComputeTotals(subtotal: real): Totals {
    var tax := Tax(subtotal);
    var shipping := ShippingCost(subtotal);
    Totals(subtotal, tax, shipping, subtotal + tax + shipping)
  }

  /** Shipping is waived exactly when the subtotal exceeds 50; a subtotal of exactly 50 pays the fee. */
  lemma ShippingRule(subtotal: real)
    ensures ShippingCost(subtotal) == 0.0 <==> subtotal > 50.0
    ensures ShippingCost(subtotal) != 0.0 ==> ShippingCost(subtotal) == 9.99
    ensures ShippingCost(50.0) == 9.99
  {
  }

  /** The total is the subtotal, 8% tax on it and the shipping fee, with no rounding. */
  lemma TotalsRule(subtotal: real)
    ensures ComputeTotals(subtotal).tax == 0.08 * subtotal
    ensures ComputeTotals(subtotal).totalAmount == 1.08 * subtotal + ShippingCost(subtotal)
  {
  }

  /** Two copies at 20.00: subtotal 40.00, tax 3.20, shipping 9.99, total 53.19. */
  lemma ExampleTwoAtTwenty(id: Id, title: string, stock: int)
    ensures ComputeTotals(Subtotal([PricedLine(id, title, 20.0, stock, 2)])) == Totals(40.0, 3.2, 9.99, 53.19)
  {
    assert [PricedLine(id, title, 20.0, stock, 2)][..0] == [];
  }

  /** One copy at 60.00: subtotal 60.00, tax 4.80, free shipping, total 64.80. */
  lemma ExampleOneAtSixty(id: Id, title: string, stock: int)
    ensures ComputeTotals(Subtotal([PricedLine(id, title, 60.0, stock, 1)])) == Totals(60.0, 4.8, 0.0, 64.8)
  {
    assert [PricedLine(id, title, 60.0, stock, 1)][..0] == [];
  }

  /** The order item written for one line: the book's current price and `price × quantity`. */
  function ItemFor(orderId: Id, l: PricedLine): OrderItem {
    OrderItem(orderId, l.bookId, l.quantity, l.price, LineTotal(l))
  }

  /** The order items of an order, one per cart line, in cart order. */
  function Items(orderId: Id, lines: seq<PricedLine>): (items: seq<OrderItem>)
    ensures |items| == |lines|
  {
    if lines == [] then [] else Items(orderId, lines[..|lines| - 1]) + [ItemFor(orderId, lines[|lines| - 1])]
  }

  /**
   * The item of each line belongs to the order and records the line's book,
   * quantity, unit price and `price × quantity`.
   */
  lemma {:induction false} ItemsAt(orderId: Id, lines: seq<PricedLine>, i: nat)
    requires i < |lines|
    ensures var item := Items(orderId, lines)[i];
      && item.orderId == orderId
      && item.bookId == lines[i].bookId
      && item.quantity == lines[i].quantity
      && item.unitPrice == lines[i].price
      && item.totalPrice == lines[i].price * lines[i].quantity as real
  {
    if i < |lines| - 1 {
      ItemsAt(orderId, lines[..|lines| - 1], i);
    }
  }

  /** The sum of the items' `totalPrice`. */
  function SumTotalPrice(items: seq<OrderItem>): real {
    if items == [] then 0.0 else SumTotalPrice(items[..|items| - 1]) + items[|items| - 1].totalPrice
  }

  /** The items' total prices add up to the order's subtotal. */
  lemma {:induction false} ItemsSumToSubtotal(orderId: Id, lines: seq<PricedLine>)
    ensures SumTotalPrice(Items(orderId, lines)) == Subtotal(lines)
  {
    if lines != [] {
      var items := Items(orderId, lines);
      assert items[..|items| - 1] == Items(orderId, lines[..|lines| - 1]);
      ItemsSumToSubtotal(orderId, lines[..|lines| - 1]);
    }
  }

  /** No two lines are for the same book. */
  predicate DistinctBooks(lines: seq<PricedLine>) {
    forall i, j :: 0 <= i < j < |lines| ==> lines[i].bookId != lines[j].bookId
  }

  /**
   * The Books table after `UPDATE Books SET stock = snapshot stock − quantity
   * WHERE ID = bookId` for each line in turn; an update of a missing row
   * changes nothing.
   */
  function StockAfter(books: map<Id, Book>, lines: seq<PricedLine>): (r: map<Id, Book>)
    ensures r.Keys == books.Keys
  {
    if lines == [] then books
    else
      var prev := StockAfter(books, lines[..|lines| - 1]);
      var l := lines[|lines| - 1];
      if l.bookId in prev then prev[l.bookId := prev[l.bookId].(stock := l.stock - l.quantity)] else prev
  }

  /** Checkout changes the stock of books and no other field. */
  lemma {:induction false} StockAfterOnlyStock(books: map<Id, Book>, lines: seq<PricedLine>, k: Id)
    requires k in books
    ensures StockAfter(books, lines)[k] == books[k].(stock := StockAfter(books, lines)[k].stock)
  {
    if lines != [] {
      StockAfterOnlyStock(books, lines[..|lines| - 1], k);
    }
  }

  /**
   * With one line per book, each line's book ends with the snapshot stock minus
   * the line's quantity, and a book that no line names is untouched.
   */
  lemma {:induction false} StockAfterDistinct(books: map<Id, Book>, lines: seq<PricedLine>)
    requires DistinctBooks(lines)
    ensures forall i :: 0 <= i < |lines| && lines[i].bookId in books ==>
      StockAfter(books, lines)[lines[i].bookId].stock == lines[i].stock - lines[i].quantity
    ensures forall k :: k in books && (forall i :: 0 <= i < |lines| ==> lines[i].bookId != k) ==>
      StockAfter(books, lines)[k] == books[k]
  {
    if lines != [] {
      var init := lines[..|lines| - 1];
      assert DistinctBooks(init);
      StockAfterDistinct(books, init);
      forall i | 0 <= i < |init| ensures init[i] == lines[i] && init[i].bookId != lines[|lines| - 1].bookId { }
    }
  }

  /** Why one line per book matters: two lines for the same book both subtract from the same snapshot. */
  lemma StockAfterDuplicateLines(b: Book)
    requires b.stock == 5
    ensures StockAfter(map[b.id := b], [PricedLine(b.id, b.title, b.price, 5, 1), PricedLine(b.id, b.title, b.price, 5, 1)])[b.id].stock == 4
  {
    var l := PricedLine(b.id, b.title, b.price, 5, 1);
    assert [l, l][..1] == [l];
    assert [l][..0] == [];
  }
}
