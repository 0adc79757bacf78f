/** The order document of models/Orders.model.js: its line items, the totals
    and payment figures its save hooks derive, the wholesale switch, and the
    transactional `addPayment` that also moves the customer's balances.

    A loaded document is an `OrderDoc` whose fields the methods assign, with
    the three pieces of Mongoose change tracking the hooks consult: `isNew`,
    "order_items was modified" and "payments_received was modified". The
    database is an `OrdersDb` holding the saved orders by id and the customer
    records. Amounts are integers. */
module Orders {
  import opened Common
  import Customers

  datatype PriceType = Retail | Wholesale

  datatype OrderStatus = Pending | PartiallyPaid | FullyPaid | Cancelled

  datatype PaymentMethod = Cash | Card | OnlinePayment | OtherMethod

  /** One line of an order. `itemTotal` is `None` until the item's save hook
      has run. */
  datatype OrderItem = OrderItem(
    item: string,
    quantity: int,
    priceType: PriceType,
    appliedPrice: int,
    discountAmount: int,
    itemTotal: Option<int>)

  datatype Payment = Payment(amount: int, paymentDate: int, methodUsed: Option<PaymentMethod>, notes: Option<string>)

  /** The persisted fields of an order together with its change-tracking
      flags, as one value. */
  datatype OrderState = OrderState(
    invoiceId: string,
    customer: string,
    items: seq<OrderItem>,
    isWholesale: bool,
    subtotal: int,
    totalDiscount: int,
    totalPrice: int,
    payments: seq<Payment>,
    paidAmount: int,
    outstandingAmount: int,
    status: OrderStatus,
    isNew: bool,
    itemsModified: bool,
    paymentsModified: bool)

  // ---------------------------------------------------------------------
  // Item totals and the order's folds

  /** `(applied_price - discount_amount) * quantity`, with no clamping. */
  function LineTotal(it: OrderItem): int {
    (it.appliedPrice - it.discountAmount) * it.quantity
  }

  /** The item's pre('save') hook. */
  function WithItemTotal(it: OrderItem): OrderItem {
    it.(itemTotal := Some(LineTotal(it)))
  }

  /** An item whose stored total differs from what its hook computes, so the
      hook's assignment marks the order's items as modified. */
  predicate Stale(it: OrderItem) {
    it.itemTotal != Some(LineTotal(it))
  }

  function ItemsWithTotals(items: seq<OrderItem>): (r: seq<OrderItem>)
    ensures |r| == |items|
    ensures forall i :: 0 <= i < |items| ==> r[i] == WithItemTotal(items[i])
  {
    seq(|items|, i requires 0 <= i < |items| => WithItemTotal(items[i]))
  }

  /** Sum of `applied_price * quantity`. */
  function Subtotal(items: seq<OrderItem>): int {
    if |items| == 0 then 0
    else Subtotal(items[..|items| - 1]) + items[|items| - 1].appliedPrice * items[|items| - 1].quantity
  }

  /** Sum of `discount_amount * quantity`. */
  function TotalDiscount(items: seq<OrderItem>): int {
    if |items| == 0 then 0
    else TotalDiscount(items[..|items| - 1]) + items[|items| - 1].discountAmount * items[|items| - 1].quantity
  }

  /** An item's stored total, or the computed one when it has none yet. */
  function TotalOrComputed(it: OrderItem): int {
    match it.itemTotal
    case Some(t) => t
    case None => LineTotal(it)
  }

  /** Sum of the item totals, before the floor at zero. */
  function ItemsTotal(items: seq<OrderItem>): int {
    if |items| == 0 then 0
    else ItemsTotal(items[..|items| - 1]) + TotalOrComputed(items[|items| - 1])
  }

  /** Sum of the amounts received. */
  function PaidAmount(ps: seq<Payment>): int {
    if |ps| == 0 then 0
    else PaidAmount(ps[..|ps| - 1]) + ps[|ps| - 1].amount
  }

  /** Every stored item total is absent or agrees with its line. */
  predicate TotalsCurrent(items: seq<OrderItem>) {
    forall i :: 0 <= i < |items| ==> items[i].itemTotal.None? || !Stale(items[i])
  }

  /** With item totals that are absent or current, the order total is the
      subtotal less the total discount. */
  lemma {:induction false} ItemsTotalIsSubtotalLessDiscount(items: seq<OrderItem>)
    requires TotalsCurrent(items)
    ensures ItemsTotal(items) == Subtotal(items) - TotalDiscount(items)
  {
    if |items| > 0 {
      var init := items[..|items| - 1];
      var last := items[|items| - 1];
      assert TotalsCurrent(init) by {
        forall i | 0 <= i < |init| ensures init[i].itemTotal.None? || !Stale(init[i]) {
          assert init[i] == items[i];
        }
      }
      ItemsTotalIsSubtotalLessDiscount(init);
      assert TotalOrComputed(last) == LineTotal(last);
      assert (last.appliedPrice - last.discountAmount) * last.quantity
          == last.appliedPrice * last.quantity - last.discountAmount * last.quantity;
    }
  }

  /** Two item lists with the same prices, discounts and quantities line by
      line. */
  predicate SamePricing(a: seq<OrderItem>, b: seq<OrderItem>) {
    |a| == |b| &&
    forall i :: 0 <= i < |a| ==>
      a[i].appliedPrice == b[i].appliedPrice && a[i].discountAmount == b[i].discountAmount && a[i].quantity == b[i].quantity
  }

  /** The subtotal and the total discount depend only on prices, discounts
      and quantities. */
  lemma {:induction false} SamePricingSameSums(a: seq<OrderItem>, b: seq<OrderItem>)
    requires SamePricing(a, b)
    ensures Subtotal(a) == Subtotal(b)
    ensures TotalDiscount(a) == TotalDiscount(b)
  {
    if |a| > 0 {
      var n := |a| - 1;
      assert SamePricing(a[..n], b[..n]) by {
        forall i | 0 <= i < n
          ensures a[..n][i].appliedPrice == b[..n][i].appliedPrice && a[..n][i].discountAmount == b[..n][i].discountAmount
            && a[..n][i].quantity == b[..n][i].quantity
        {
          assert a[..n][i] == a[i] && b[..n][i] == b[i];
        }
      }
      SamePricingSameSums(a[..n], b[..n]);
    }
  }

  // ---------------------------------------------------------------------
  // Order status

  /** The status chain of the order's save hook, branch by branch. */
  function StatusChain(paid: int, outstanding: int, total: int): (s: OrderStatus)
    ensures s != Cancelled
    ensures outstanding == total - paid ==> s == StatusTable(total, paid)
  {
    if paid <= 0 && total > 0 then Pending
    else if outstanding <= 0 && total > 0 then FullyPaid
    else if paid > 0 && outstanding > 0 then PartiallyPaid
    else Pending
  }

  /** What the chain amounts to once the outstanding amount is total less
      paid: nothing is due or nothing is paid — Pending; paid in full or
      over — Fully Paid; otherwise Partially Paid. */
  function StatusTable(total: int, paid: int): OrderStatus {
    if total <= 0 || paid <= 0 then Pending
    else if paid >= total then FullyPaid
    else PartiallyPaid
  }

  function Rank(s: OrderStatus): int {
    match s
    case Pending => 0
    case PartiallyPaid => 1
    case FullyPaid => 2
    case Cancelled => 3
  }

  /** Receiving more money never moves an order back along
      Pending → Partially Paid → Fully Paid. */
  lemma StatusNeverRegresses(total: int, paid: int, more: int)
    requires more >= 0
    ensures Rank(StatusTable(total, paid)) <= Rank(StatusTable(total, paid + more))
  {
  }

  // ---------------------------------------------------------------------
  // The save hooks as a function of the document's state

  /** Both pre('save') hooks: first every item's hook, then the order's. The
      order's hook recomputes the totals when the document is new or its
      items were modified (which the item hooks themselves cause when they
      change a stored total), and then the payment figures and status when
      the document is new, its payments were modified or the total price
      just changed. */
  function AfterHooks(s: OrderState): OrderState {
    OrderHook(ItemHooks(s), s.totalPrice)
  }

  /** Every item's hook: set the item total, marking the items modified
      when any stored total changes. */
  function ItemHooks(s: OrderState): OrderState {
    s.(items := ItemsWithTotals(s.items),
       itemsModified := s.itemsModified || exists i :: 0 <= i < |s.items| && Stale(s.items[i]))
  }

  /** The order's hook; `priceBefore` is the total price before the hook,
      against which "total_price was modified" is judged. */
  function OrderHook(s: OrderState, priceBefore: int): OrderState {
    var s1 :=
      if s.isNew || s.itemsModified then
        s.(subtotal := Subtotal(s.items), totalDiscount := TotalDiscount(s.items), totalPrice := Max0(ItemsTotal(s.items)))
      else
        s;
    if s1.isNew || s1.paymentsModified || s1.totalPrice != priceBefore then
      var paid := PaidAmount(s1.payments);
      s1.(paidAmount := paid, outstandingAmount := s1.totalPrice - paid,
          status := StatusChain(paid, s1.totalPrice - paid, s1.totalPrice))
    else
      s1
  }

  /** The document after a successful save: no longer new, nothing modified. */
  function Saved(s: OrderState): OrderState {
    s.(isNew := false, itemsModified := false, paymentsModified := false)
  }

  /** On a new order or one whose items changed, the hooks set every item
      total to its line value and derive subtotal, discount and total from
      the items, the total being the subtotal less the discount, floored at
      zero. */
  lemma HooksComputeTotals(s: OrderState)
    requires s.isNew || s.itemsModified
    ensures |AfterHooks(s).items| == |s.items|
    ensures forall i :: 0 <= i < |s.items| ==> AfterHooks(s).items[i].itemTotal == Some(LineTotal(s.items[i]))
    ensures AfterHooks(s).subtotal == Subtotal(s.items)
    ensures AfterHooks(s).totalDiscount == TotalDiscount(s.items)
    ensures AfterHooks(s).totalPrice == Max0(Subtotal(s.items) - TotalDiscount(s.items))
  {
    var items := ItemsWithTotals(s.items);
    SamePricingSameSums(items, s.items);
    ItemsTotalIsSubtotalLessDiscount(items);
  }

  /** On a new order or one with a new payment, the hooks set the paid amount
      to the sum received, the outstanding amount to total less paid (which
      goes negative on an overpayment) and the status by `StatusTable`. */
  lemma HooksDerivePayments(s: OrderState)
    requires s.isNew || s.paymentsModified
    ensures AfterHooks(s).paidAmount == PaidAmount(s.payments)
    ensures AfterHooks(s).outstandingAmount == AfterHooks(s).totalPrice - PaidAmount(s.payments)
    ensures AfterHooks(s).status == StatusTable(AfterHooks(s).totalPrice, PaidAmount(s.payments))
    ensures AfterHooks(s).status != Cancelled
  {
  }

  /** The hooks never touch the invoice, the customer, the wholesale flag or
      the payments, and change an item only in its total. */
  lemma HooksKeepInputs(s: OrderState)
    ensures AfterHooks(s).invoiceId == s.invoiceId && AfterHooks(s).customer == s.customer
    ensures AfterHooks(s).isWholesale == s.isWholesale && AfterHooks(s).payments == s.payments
    ensures AfterHooks(s).isNew == s.isNew && AfterHooks(s).paymentsModified == s.paymentsModified
    ensures |AfterHooks(s).items| == |s.items|
    ensures forall i :: 0 <= i < |s.items| ==> AfterHooks(s).items[i].(itemTotal := s.items[i].itemTotal) == s.items[i]
  {
  }

  /** Saving a document that was just saved, without changing it, changes
      nothing: the saved state is a fixed point of the hooks. */
  lemma {:induction false} ResaveIsNoOp(s: OrderState)
    ensures AfterHooks(Saved(AfterHooks(s))) == Saved(AfterHooks(s))
  {
    var t := Saved(AfterHooks(s));
    assert ItemsWithTotals(t.items) == t.items by {
      forall i | 0 <= i < |t.items| ensures ItemsWithTotals(t.items)[i] == t.items[i] {
        assert t.items[i] == WithItemTotal(s.items[i]);
      }
    }
    assert !exists i :: 0 <= i < |t.items| && Stale(t.items[i]) by {
      forall i | 0 <= i < |t.items| ensures !Stale(t.items[i]) {
        assert t.items[i] == WithItemTotal(s.items[i]);
      }
    }
  }

  /** An order of one item at 100 that receives 120 is Fully Paid with
      -20 outstanding. */
  lemma OverpaymentLeavesNegativeOutstanding()
    ensures
      var s := OrderState("INV-1", "c1", [OrderItem("i1", 1, Retail, 100, 0, Some(100))], false, 100, 0, 100,
                          [Payment(120, 0, Some(Cash), None)], 0, 100, Pending, false, false, true);
      AfterHooks(s).outstandingAmount == -20 && AfterHooks(s).status == FullyPaid && AfterHooks(s).paidAmount == 120
  {
    var s := OrderState("INV-1", "c1", [OrderItem("i1", 1, Retail, 100, 0, Some(100))], false, 100, 0, 100,
                        [Payment(120, 0, Some(Cash), None)], 0, 100, Pending, false, false, true);
    var ps := s.payments;
    assert ps[..0] == [];
    assert PaidAmount(ps) == 120;
  }

  /** A save that only adds payments, on a loaded order whose items carry
      their current totals, leaves the items and the three totals as they
      were, and derives the payment figures from the unchanged total. */
  lemma {:induction false} PaymentsOnlySaveKeepsTotals(s: OrderState)
    requires !s.isNew && !s.itemsModified
    requires forall i :: 0 <= i < |s.items| ==> !Stale(s.items[i])
    ensures AfterHooks(s).items == s.items
    ensures AfterHooks(s).subtotal == s.subtotal
    ensures AfterHooks(s).totalDiscount == s.totalDiscount
    ensures AfterHooks(s).totalPrice == s.totalPrice
    ensures s.paymentsModified ==>
      AfterHooks(s).paidAmount == PaidAmount(s.payments) &&
      AfterHooks(s).outstandingAmount == s.totalPrice - PaidAmount(s.payments)
  {
    assert ItemsWithTotals(s.items) == s.items by {
      forall i | 0 <= i < |s.items| ensures ItemsWithTotals(s.items)[i] == s.items[i] {
        assert !Stale(s.items[i]);
      }
    }
    assert !ItemHooks(s).itemsModified;
  }

  /** A new order worth nothing stays Pending. */
  lemma FreeOrderIsPending(s: OrderState)
    requires s.isNew && Subtotal(s.items) - TotalDiscount(s.items) <= 0
    ensures AfterHooks(s).totalPrice == 0 && AfterHooks(s).status == Pending
  {
    HooksComputeTotals(s);
  }

  // ---------------------------------------------------------------------
  // Validation and uniqueness

  /** The schema validators, which Mongoose runs before the pre('save')
      hooks on every path the document holds, loaded ones included:
      required invoice, customer and item references, quantity at least 1,
      applied price, discount and payment amounts not negative, and the
      derived fields as they stand before the hooks (a loaded order's stored
      item totals, sums, paid and outstanding amounts) not negative. */
  predicate InputsValid(s: OrderState) {
    s.invoiceId != "" && s.customer != "" &&
    (forall i :: 0 <= i < |s.items| ==>
      s.items[i].item != "" && s.items[i].quantity >= 1 && s.items[i].appliedPrice >= 0 && s.items[i].discountAmount >= 0) &&
    (forall i :: 0 <= i < |s.items| ==> s.items[i].itemTotal.Some? ==> s.items[i].itemTotal.value >= 0) &&
    s.subtotal >= 0 && s.totalDiscount >= 0 && s.totalPrice >= 0 &&
    s.paidAmount >= 0 && s.outstandingAmount >= 0 &&
    (forall i :: 0 <= i < |s.payments| ==> s.payments[i].amount >= 0)
  }

  /** An overpaid order, stored with a negative outstanding amount, fails
      validation on its next save, whatever that save would compute. */
  lemma OverpaidOrderFailsNextSave(s: OrderState)
    requires s.outstandingAmount < 0
    ensures !InputsValid(s)
  {
  }

  /** Another saved order already holds the invoice id (the unique index). */
  predicate InvoiceTaken(orders: map<string, OrderState>, id: string, invoiceId: string) {
    exists k :: k in orders && k != id && orders[k].invoiceId == invoiceId
  }

  /** With valid inputs no line total is negative, so the total price is
      exactly the subtotal less the discount. */
  lemma {:induction false} ValidItemsHaveNonNegativeTotal(items: seq<OrderItem>)
    requires forall i :: 0 <= i < |items| ==> items[i].quantity >= 1 && items[i].appliedPrice >= 0 && items[i].discountAmount >= 0
    requires forall i :: 0 <= i < |items| ==> items[i].discountAmount <= items[i].appliedPrice
    ensures Subtotal(items) - TotalDiscount(items) >= 0
  {
    if |items| > 0 {
      var n := |items| - 1;
      ValidItemsHaveNonNegativeTotal(items[..n]);
      var last := items[n];
      assert last.appliedPrice * last.quantity - last.discountAmount * last.quantity
          == (last.appliedPrice - last.discountAmount) * last.quantity;
    }
  }

  datatype PaymentOutcome = Recorded | Failed(message: string)

  const ValidationFailed := "Orders validation failed"
  const DuplicateInvoice := "E11000 duplicate key error: invoice_id"
  const CustomerNotFound := "Customer not found for this order."

  /** The database the order model talks to: saved orders by id and the
      customer records. */
  class OrdersDb {
    var orders: map<string, OrderState>
    var customers: seq<Customers.Customer>

    constructor (customers: seq<Customers.Customer>)
      ensures this.orders == map[] && this.customers == customers
    {
      this.orders := map[];
      this.customers := customers;
    }

    /** Commits the transaction of a payment: the saved order and the
        customer at index `k` credited with `amount`, whose outstanding
        balance is floored at zero. */
    method Commit(id: string, order: OrderState, k: nat, amount: int)
      requires k < |customers|
      modifies this
      ensures orders == old(orders)[id := order]
      ensures customers == old(customers)[k := Customers.AfterPayment(old(customers)[k], amount)]
    {
      var c := customers[k];
      var out := c.cOutstandingAmt - amount;
      if out < 0 {
        out := 0;
      }
      c := c.(cPaidAmount := c.cPaidAmount + amount, cOutstandingAmt := out);
      orders := orders[id := order];
      customers := customers[k := c];
    }
  }

  /** One loaded or newly built order document. */
  class OrderDoc {
    const id: string
    var invoiceId: string
    var customer: string
    var orderItems: seq<OrderItem>
    var isWholesale: bool
    var subtotal: int
    var totalDiscount: int
    var totalPrice: int
    var paymentsReceived: seq<Payment>
    var orderPaidAmount: int
    var orderOutstandingAmount: int
    var orderStatus: OrderStatus
    var isNew: bool
    var itemsModified: bool
    var paymentsModified: bool

    function State(): OrderState
      reads this
    {
      OrderState(invoiceId, customer, orderItems, isWholesale, subtotal, totalDiscount, totalPrice,
                 paymentsReceived, orderPaidAmount, orderOutstandingAmount, orderStatus,
                 isNew, itemsModified, paymentsModified)
    }

    /** `new Orders({...})`: a new document with the schema defaults. */
    constructor (id: string, invoiceId: string, customer: string, items: seq<OrderItem>, payments: seq<Payment>)
      ensures this.id == id
      ensures State() == OrderState(invoiceId, customer, items, false, 0, 0, 0, payments, 0, 0, Pending, true, false, false)
    {
      this.id := id;
      this.invoiceId := invoiceId;
      this.customer := customer;
      this.orderItems := items;
      this.isWholesale := false;
      this.subtotal := 0;
      this.totalDiscount := 0;
      this.totalPrice := 0;
      this.paymentsReceived := payments;
      this.orderPaidAmount := 0;
      this.orderOutstandingAmount := 0;
      this.orderStatus := Pending;
      this.isNew := true;
      this.itemsModified := false;
      this.paymentsModified := false;
    }

    /** Runs the item hooks and then the order hook on this document. */
    method RunSaveHooks()
      modifies this
      ensures State() == AfterHooks(old(State()))
    {
      var priceBefore := totalPrice;
      RunItemHooks();
      RunOrderHook(priceBefore);
    }

    method RunItemHooks()
      modifies this
      ensures State() == ItemHooks(old(State()))
    {
      var i := 0;
      while i < |orderItems|
        invariant 0 <= i <= |orderItems| == |old(orderItems)|
        invariant forall j :: 0 <= j < i ==> orderItems[j] == WithItemTotal(old(orderItems)[j])
        invariant forall j :: i <= j < |orderItems| ==> orderItems[j] == old(orderItems)[j]
        invariant itemsModified == (old(itemsModified) || exists j :: 0 <= j < i && Stale(old(orderItems)[j]))
        invariant State() == old(State()).(items := orderItems, itemsModified := itemsModified)
      {
        var total := LineTotal(orderItems[i]);
        if orderItems[i].itemTotal != Some(total) {
          orderItems := orderItems[i := orderItems[i].(itemTotal := Some(total))];
          itemsModified := true;
        }
        i := i + 1;
      }
      assert orderItems == ItemsWithTotals(old(orderItems));
    }

    method RunOrderHook(priceBefore: int)
      modifies this
      ensures State() == OrderHook(old(State()), priceBefore)
    {
      RecomputeTotals();
      RecomputePayments(priceBefore);
    }

    /** The hook's first block: totals from the items. */
    method RecomputeTotals()
      modifies this
      ensures State() == if old(isNew || itemsModified) then
        old(State()).(subtotal := Subtotal(orderItems), totalDiscount := TotalDiscount(orderItems),
                      totalPrice := Max0(ItemsTotal(orderItems)))
        else old(State())
    {
      if isNew || itemsModified {
        subtotal := Subtotal(orderItems);
        totalDiscount := TotalDiscount(orderItems);
        totalPrice := Max0(ItemsTotal(orderItems));
      }
    }

    /** The hook's second block: payment figures and status. */
    method RecomputePayments(priceBefore: int)
      modifies this
      ensures State() == if old(isNew || paymentsModified || totalPrice != priceBefore) then
        var paid := PaidAmount(paymentsReceived);
        old(State()).(paidAmount := paid, outstandingAmount := totalPrice - paid,
                      status := StatusChain(paid, totalPrice - paid, totalPrice))
        else old(State())
    {
      if isNew || paymentsModified || totalPrice != priceBefore {
        var paid := PaidAmount(paymentsReceived);
        var outstanding := totalPrice - paid;
        var status;
        if paid <= 0 && totalPrice > 0 {
          status := Pending;
        } else if outstanding <= 0 && totalPrice > 0 {
          status := FullyPaid;
        } else if paid > 0 && outstanding > 0 {
          status := PartiallyPaid;
        } else {
          status := Pending;
        }
        orderPaidAmount, orderOutstandingAmount, orderStatus := paid, outstanding, status;
      }
    }

    method MarkSaved()
      modifies this
      ensures State() == Saved(old(State()))
    {
      isNew := false;
      itemsModified := false;
      paymentsModified := false;
    }

    /** `order.save()`: validation first, then the hooks, then the write. A
        rejected save leaves the document and the database as they were. */
    method Save(db: OrdersDb) returns (ok: bool)
      modifies this, db
      ensures ok <==> InputsValid(old(State())) && !InvoiceTaken(old(db.orders), id, old(invoiceId))
      ensures ok ==> State() == Saved(AfterHooks(old(State()))) && db.orders == old(db.orders)[id := State()]
      ensures !ok ==> State() == old(State()) && db.orders == old(db.orders)
      ensures db.customers == old(db.customers)
    {
      if !InputsValid(State()) || InvoiceTaken(db.orders, id, invoiceId) {
        return false;
      }
      RunSaveHooks();
      MarkSaved();
      db.orders := db.orders[id := State()];
      ok := true;
    }

    /** `applyWholesalePricing()`: marks the order wholesale and every item's
        price type wholesale, in memory; prices are left as they are. */
    method ApplyWholesalePricing()
      modifies this
      ensures isWholesale
      ensures orderItems == AsWholesale(old(orderItems))
      ensures itemsModified == (old(itemsModified) || exists j :: 0 <= j < |old(orderItems)| && old(orderItems)[j].priceType != Wholesale)
      ensures State() == old(State()).(isWholesale := true, items := orderItems, itemsModified := itemsModified)
    {
      isWholesale := true;
      var i := 0;
      while i < |orderItems|
        invariant 0 <= i <= |orderItems| == |old(orderItems)|
        invariant forall j :: 0 <= j < i ==> orderItems[j] == old(orderItems)[j].(priceType := Wholesale)
        invariant forall j :: i <= j < |orderItems| ==> orderItems[j] == old(orderItems)[j]
        invariant itemsModified == (old(itemsModified) || exists j :: 0 <= j < i && old(orderItems)[j].priceType != Wholesale)
        invariant State() == old(State()).(isWholesale := true, items := orderItems, itemsModified := itemsModified)
      {
        if orderItems[i].priceType != Wholesale {
          orderItems := orderItems[i := orderItems[i].(priceType := Wholesale)];
          itemsModified := true;
        }
        i := i + 1;
      }
      assert orderItems == AsWholesale(old(orderItems));
    }

    /** `addPayment(details)`: appends the payment (dated `now` when no date
        is given) and, in one transaction, saves the order and adds the
        amount to the customer's paid total while taking it off their
        outstanding balance, floored at zero. Any failure aborts the
        transaction: the database keeps both records as they were. */
    method AddPayment(amount: int, methodUsed: Option<PaymentMethod>, notes: Option<string>, paymentDate: Option<int>,
                      now: int, db: OrdersDb) returns (outcome: PaymentOutcome)
      modifies this, db
      ensures paymentsReceived == old(paymentsReceived) + [Payment(amount, paymentDate.GetOr(now), methodUsed, notes)]
      ensures outcome == Recorded <==>
        InputsValid(old(State()).(payments := paymentsReceived, paymentsModified := true)) &&
        !InvoiceTaken(old(db.orders), id, old(invoiceId)) &&
        IndexOf(old(db.customers), Customers.CustomerKey, old(customer)).Some?
      ensures !InputsValid(old(State()).(payments := paymentsReceived, paymentsModified := true)) ==>
        outcome == Failed(ValidationFailed)
      ensures (InputsValid(old(State()).(payments := paymentsReceived, paymentsModified := true)) &&
               InvoiceTaken(old(db.orders), id, old(invoiceId))) ==>
        outcome == Failed(DuplicateInvoice)
      ensures (InputsValid(old(State()).(payments := paymentsReceived, paymentsModified := true)) &&
               !InvoiceTaken(old(db.orders), id, old(invoiceId)) &&
               IndexOf(old(db.customers), Customers.CustomerKey, old(customer)).None?) ==>
        outcome == Failed(CustomerNotFound)
      ensures outcome.Failed? ==> db.orders == old(db.orders) && db.customers == old(db.customers)
      ensures outcome == Recorded ==>
        State() == Saved(AfterHooks(old(State()).(payments := paymentsReceived, paymentsModified := true))) &&
        db.orders == old(db.orders)[id := State()] &&
        var k := IndexOf(old(db.customers), Customers.CustomerKey, old(customer)).value;
        db.customers == old(db.customers)[k := Customers.AfterPayment(old(db.customers)[k], amount)]
    {
      PushPayment(Payment(amount, paymentDate.GetOr(now), methodUsed, notes));
      if !InputsValid(State()) {
        return Failed(ValidationFailed);
      }
      if InvoiceTaken(db.orders, id, invoiceId) {
        return Failed(DuplicateInvoice);
      }
      ghost var pushed := State();
      RunSaveHooks();
      MarkSaved();
      assert State() == Saved(AfterHooks(pushed));
      var k := IndexOf(db.customers, Customers.CustomerKey, customer);
      if k.None? {
        return Failed(CustomerNotFound);
      }
      db.Commit(id, State(), k.value, amount);
      outcome := Recorded;
    }

    /** `payments_received.push(...)`, which marks the payments modified. */
    method PushPayment(p: Payment)
      modifies this
      ensures State() == old(State()).(payments := old(paymentsReceived) + [p], paymentsModified := true)
    {
      paymentsReceived := paymentsReceived + [p];
      paymentsModified := true;
    }
  }

  /** Every item switched to the wholesale price type. */
  function AsWholesale(items: seq<OrderItem>): (r: seq<OrderItem>)
    ensures |r| == |items|
    ensures forall i :: 0 <= i < |items| ==> r[i] == items[i].(priceType := Wholesale)
  {
    seq(|items|, i requires 0 <= i < |items| => items[i].(priceType := Wholesale))
  }

  /** Switching to wholesale changes no price: once saved, the order's
      subtotal, discount and total are what they were at retail. */
  lemma WholesaleKeepsTotals(items: seq<OrderItem>)
    ensures SamePricing(AsWholesale(items), items)
    ensures Subtotal(AsWholesale(items)) == Subtotal(items)
    ensures TotalDiscount(AsWholesale(items)) == TotalDiscount(items)
  {
    SamePricingSameSums(AsWholesale(items), items);
  }

  /** A payment recorded against an order raises the order's paid amount by
      exactly the payment. */
  lemma {:induction false} PaymentAddsToPaid(ps: seq<Payment>, p: Payment)
    ensures PaidAmount(ps + [p]) == PaidAmount(ps) + p.amount
  {
    assert (ps + [p])[..|ps|] == ps;
  }
}
