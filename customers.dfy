/** Customer accounts and the balance bookkeeping of
    controllers/customersController.js. The handlers treat a customer's
    `orders` as embedded records carrying `_id` and `total_price`, and keep
    `cOutstandingAmt` / `cPaidAmount` by direct arithmetic. */
module Customers {
  import opened Common

  /** An order as embedded in a customer: its `_id` text, its `total_price`
      (absent when the record never had one) and any other fields. */
  datatype EmbeddedOrder = EmbeddedOrder(id: string, totalPrice: Option<int>, rest: map<string, string>)

  /** One key of an order-update body, in `Object.keys` order. */
  datatype OrderField = IdField(id: string) | TotalPriceField(total: int) | OtherField(key: string, value: string)

  datatype Customer = Customer(
    id: string,
    cName: string,
    cNIC: string,
    cPhone: string,
    cAddress: Input<string>,
    cPaidAmount: int,
    cOutstandingAmt: int,
    orders: seq<EmbeddedOrder>)

  function CustomerKey(c: Customer): string { c.id }
  function OrderKey(o: EmbeddedOrder): string { o.id }

  /** `order.total_price || 0`. */
  function TotalOrZero(o: EmbeddedOrder): int {
    o.totalPrice.GetOr(0)
  }

  // ---------------------------------------------------------------------
  // Uniqueness of NIC and phone

  /** `Customer.findOne({ $or: [{ cNIC }, { cPhone }] })` finds someone.
      An absent or null field is sent as `null`, which no stored customer
      matches because both fields are required. */
  predicate NicOrPhoneTaken(cs: seq<Customer>, nic: Input<string>, phone: Input<string>) {
    exists i :: 0 <= i < |cs| &&
      ((nic.Given? && cs[i].cNIC == nic.value) || (phone.Given? && cs[i].cPhone == phone.value))
  }

  /** The update-time query: a customer other than `id` holding a supplied
      (truthy) NIC or phone. */
  predicate TakenByOther(cs: seq<Customer>, id: string, nic: Input<string>, phone: Input<string>) {
    exists i :: 0 <= i < |cs| && cs[i].id != id &&
      ((StrTruthy(nic) && cs[i].cNIC == nic.value) || (StrTruthy(phone) && cs[i].cPhone == phone.value))
  }

  /** The unique indexes on `_id`, `cNIC` and `cPhone`, and the required
      string fields, as every stored collection satisfies them. */
  ghost predicate WellFormed(cs: seq<Customer>) {
    && (forall i :: 0 <= i < |cs| ==> cs[i].cName != "" && cs[i].cNIC != "" && cs[i].cPhone != "")
    && (forall i, j :: 0 <= i < j < |cs| ==>
          cs[i].id != cs[j].id && cs[i].cNIC != cs[j].cNIC && cs[i].cPhone != cs[j].cPhone)
  }

  /** A customer's own NIC and phone never block its own update: only
      another record can. */
  lemma {:induction false} OwnRecordNeverClashes(cs: seq<Customer>, k: nat, nic: Input<string>, phone: Input<string>)
    requires WellFormed(cs) && k < |cs|
    requires !StrTruthy(nic) || cs[k].cNIC == nic.value
    requires !StrTruthy(phone) || cs[k].cPhone == phone.value
    ensures !TakenByOther(cs, cs[k].id, nic, phone)
  {
    forall i | 0 <= i < |cs| && cs[i].id != cs[k].id
      ensures !((StrTruthy(nic) && cs[i].cNIC == nic.value) || (StrTruthy(phone) && cs[i].cPhone == phone.value))
    {
      if i < k {
        assert cs[i].cNIC != cs[k].cNIC && cs[i].cPhone != cs[k].cPhone;
      } else {
        assert i != k;
        assert cs[k].cNIC != cs[i].cNIC && cs[k].cPhone != cs[i].cPhone;
      }
    }
  }

  /** Editing a customer's orders or balances, and nothing that is
      indexed, keeps the collection well formed. */
  lemma BalanceEditKeepsWellFormed(cs: seq<Customer>, k: nat, c: Customer)
    requires WellFormed(cs) && k < |cs|
    requires c.id == cs[k].id && c.cName == cs[k].cName && c.cNIC == cs[k].cNIC && c.cPhone == cs[k].cPhone
    ensures WellFormed(cs[k := c])
  {
    var r := cs[k := c];
    forall i, j | 0 <= i < j < |r| ensures r[i].id != r[j].id && r[i].cNIC != r[j].cNIC && r[i].cPhone != r[j].cPhone {
      assert r[i].id == cs[i].id && r[i].cNIC == cs[i].cNIC && r[i].cPhone == cs[i].cPhone;
      assert r[j].id == cs[j].id && r[j].cNIC == cs[j].cNIC && r[j].cPhone == cs[j].cPhone;
    }
  }

  // ---------------------------------------------------------------------
  // Updating an embedded order field by field

  function ApplyField(o: EmbeddedOrder, f: OrderField): EmbeddedOrder {
    match f
    case IdField(i) => o.(id := i)
    case TotalPriceField(t) => o.(totalPrice := Some(t))
    case OtherField(k, v) => o.(rest := o.rest[k := v])
  }

  /** `Object.keys(body).forEach(key => order[key] = body[key])`. */
  function ApplyPatch(o: EmbeddedOrder, patch: seq<OrderField>): EmbeddedOrder
    decreases |patch|
  {
    if |patch| == 0 then o else ApplyField(ApplyPatch(o, patch[..|patch| - 1]), patch[|patch| - 1])
  }

  /** The last `total_price` a body assigns, if any. */
  function LastTotal(patch: seq<OrderField>): Option<int>
    decreases |patch|
  {
    if |patch| == 0 then None
    else if patch[|patch| - 1].TotalPriceField? then Some(patch[|patch| - 1].total)
    else LastTotal(patch[..|patch| - 1])
  }

  /** After the copy loop the order's total is the last one the body gave,
      or the order's own when the body gave none. */
  lemma {:induction false} PatchedTotal(o: EmbeddedOrder, patch: seq<OrderField>)
    ensures ApplyPatch(o, patch).totalPrice ==
      (if LastTotal(patch).Some? then LastTotal(patch) else o.totalPrice)
    decreases |patch|
  {
    if |patch| > 0 {
      PatchedTotal(o, patch[..|patch| - 1]);
    }
  }

  /** `cOutstandingAmt` after an embedded order's total goes from `oldTotal`
      (already defaulted to 0) to `newTotal`; `None` when the new total is
      absent, since `old - oldTotal + undefined` is NaN and the save fails. */
  function OutstandingAfterOrderEdit(out: int, oldTotal: int, newTotal: Option<int>): (r: Option<int>)
    ensures r.None? <==> newTotal.None?
    ensures newTotal == Some(oldTotal) ==> r == Some(out)
    ensures newTotal.Some? ==> r.value - out == newTotal.value - oldTotal
  {
    match newTotal
    case None => None
    case Some(n) => if n != oldTotal then Some(out - oldTotal + n) else Some(out)
  }

  /** A body that does not mention `total_price` leaves the customer's
      outstanding balance as it was (for an order that had a total). */
  lemma EditWithoutTotalKeepsOutstanding(out: int, o: EmbeddedOrder, patch: seq<OrderField>)
    requires o.totalPrice.Some? && LastTotal(patch).None?
    ensures OutstandingAfterOrderEdit(out, TotalOrZero(o), ApplyPatch(o, patch).totalPrice) == Some(out)
  {
    PatchedTotal(o, patch);
  }

  // ---------------------------------------------------------------------
  // Payments

  /** `cPaidAmount += amount; cOutstandingAmt = Math.max(0, cOutstandingAmt - amount)`. */
  function AfterPayment(c: Customer, amount: int): (r: Customer)
    ensures r.cPaidAmount - c.cPaidAmount == amount
    ensures r.cOutstandingAmt >= 0
    ensures c.cOutstandingAmt >= amount ==> c.cOutstandingAmt - r.cOutstandingAmt == amount
    ensures c.cOutstandingAmt < amount ==> r.cOutstandingAmt == 0
    ensures r.(cPaidAmount := c.cPaidAmount, cOutstandingAmt := c.cOutstandingAmt) == c
  {
    c.(cPaidAmount := c.cPaidAmount + amount, cOutstandingAmt := Max0(c.cOutstandingAmt - amount))
  }

  // ---------------------------------------------------------------------
  // The outstanding-balance report

  /** The query `{ cOutstandingAmt: { $gt: 0 } }`, in collection order. */
  function WithBalance(cs: seq<Customer>): (r: seq<Customer>)
    ensures forall c :: c in r <==> c in cs && c.cOutstandingAmt > 0
    ensures forall c :: multiset(r)[c] == (if c.cOutstandingAmt > 0 then multiset(cs)[c] else 0)
    ensures |r| <= |cs|
  {
    if |cs| == 0 then []
    else
      assert cs == [cs[0]] + cs[1..];
      assert multiset(cs) == multiset{cs[0]} + multiset(cs[1..]);
      if cs[0].cOutstandingAmt > 0 then [cs[0]] + WithBalance(cs[1..])
      else
        assert forall c :: c in cs <==> c == cs[0] || c in cs[1..];
        WithBalance(cs[1..])
  }

  function DescendingOutstanding(c: Customer): int { -c.cOutstandingAmt }

  /** `getCustomersWithOutstandingBalance`: exactly the customers who owe
      something, largest balance first. */
  function OutstandingReport(cs: seq<Customer>): (r: seq<Customer>)
    ensures forall c :: c in r <==> c in cs && c.cOutstandingAmt > 0
    ensures multiset(r) == multiset(WithBalance(cs))
    ensures forall i, j :: 0 <= i < j < |r| ==> r[i].cOutstandingAmt >= r[j].cOutstandingAmt
  {
    var r := SortBy(WithBalance(cs), DescendingOutstanding);
    assert forall c :: c in r <==> c in WithBalance(cs) by {
      forall c ensures c in r <==> c in WithBalance(cs) {
        MemberOfSorted(WithBalance(cs), DescendingOutstanding, c);
      }
    }
    assert forall i, j :: 0 <= i < j < |r| ==> DescendingOutstanding(r[i]) <= DescendingOutstanding(r[j]);
    r
  }

  // ---------------------------------------------------------------------
  // The collection and its handlers

  class CustomerCollection {
    var customers: seq<Customer>

    ghost predicate Valid()
      reads this
    {
      WellFormed(customers)
    }

    constructor ()
      ensures customers == [] && Valid()
    {
      customers := [];
    }

    /** `createCustomer`: 400 when the NIC or phone is already used; 500 when
        a required field is missing (the save's validation fails); otherwise
        the new customer is appended with balances defaulted to 0. */
    method CreateCustomer(newId: string, cName: Input<string>, cNIC: Input<string>, cPhone: Input<string>,
                          cAddress: Input<string>, cPaidAmount: Input<int>, cOutstandingAmt: Input<int>)
      returns (reply: Reply)
      requires Valid()
      requires forall i :: 0 <= i < |customers| ==> customers[i].id != newId
      modifies this
      ensures Valid()
      ensures NicOrPhoneTaken(old(customers), cNIC, cPhone) ==>
        reply.code == 400 && customers == old(customers)
      ensures (!NicOrPhoneTaken(old(customers), cNIC, cPhone) &&
               !(StrTruthy(cName) && StrTruthy(cNIC) && StrTruthy(cPhone))) ==>
        reply.code == 500 && customers == old(customers)
      ensures reply.code == 201 <==>
        !NicOrPhoneTaken(old(customers), cNIC, cPhone) && StrTruthy(cName) && StrTruthy(cNIC) && StrTruthy(cPhone)
      ensures reply.code == 201 ==>
        customers == old(customers) +
          [Customer(newId, cName.value, cNIC.value, cPhone.value, cAddress, OrZero(cPaidAmount), OrZero(cOutstandingAmt), [])]
    {
      if NicOrPhoneTaken(customers, cNIC, cPhone) {
        return Reply(400, "Customer with this NIC or phone number already exists");
      }
      if !(StrTruthy(cName) && StrTruthy(cNIC) && StrTruthy(cPhone)) {
        return Reply(500, "Error creating customer");
      }
      var c := Customer(newId, cName.value, cNIC.value, cPhone.value, cAddress,
                        OrZero(cPaidAmount), OrZero(cOutstandingAmt), []);
      customers := customers + [c];
      reply := Reply(201, "Customer created successfully");
    }

    /** `updateCustomer`. A malformed id fails the cast (500); a supplied NIC
        or phone held by another customer gives 400; a required field sent
        empty or null fails the update validators (500); an unknown id gives
        404; otherwise every supplied field is overwritten. */
    method UpdateCustomer(id: string, cName: Input<string>, cNIC: Input<string>, cPhone: Input<string>,
                          cAddress: Input<string>, cPaidAmount: Input<int>, cOutstandingAmt: Input<int>)
      returns (reply: Reply)
      requires Valid()
      modifies this
      ensures Valid()
      ensures reply.code != 200 ==> customers == old(customers)
      ensures !IsObjectIdText(id) ==> reply.code == 500
      ensures IsObjectIdText(id) && TakenByOther(old(customers), id, cNIC, cPhone) ==> reply.code == 400
      ensures reply.code == 200 ==>
        IsObjectIdText(id) && !TakenByOther(old(customers), id, cNIC, cPhone) &&
        UpdateValid(cName, cNIC, cPhone, cPaidAmount, cOutstandingAmt)
      ensures reply.code == 404 <==>
        IsObjectIdText(id) && !TakenByOther(old(customers), id, cNIC, cPhone) &&
        UpdateValid(cName, cNIC, cPhone, cPaidAmount, cOutstandingAmt) &&
        IndexOf(old(customers), CustomerKey, id).None?
      ensures (IsObjectIdText(id) && !TakenByOther(old(customers), id, cNIC, cPhone) &&
               UpdateValid(cName, cNIC, cPhone, cPaidAmount, cOutstandingAmt) &&
               IndexOf(old(customers), CustomerKey, id).Some?) ==> reply.code == 200
      ensures reply.code == 200 ==>
        IndexOf(old(customers), CustomerKey, id).Some? &&
        var k := IndexOf(old(customers), CustomerKey, id).value;
        customers == old(customers)[k := Updated(old(customers)[k], cName, cNIC, cPhone, cAddress, cPaidAmount, cOutstandingAmt)]
    {
      if !IsObjectIdText(id) {
        return Reply(500, "Error updating customer");
      }
      if StrTruthy(cNIC) || StrTruthy(cPhone) {
        if TakenByOther(customers, id, cNIC, cPhone) {
          return Reply(400, "NIC or phone number already used by another customer");
        }
      }
      if !UpdateValid(cName, cNIC, cPhone, cPaidAmount, cOutstandingAmt) {
        return Reply(500, "Error updating customer");
      }
      var k := IndexOf(customers, CustomerKey, id);
      if k.None? {
        return Reply(404, "Customer not found");
      }
      var c := Updated(customers[k.value], cName, cNIC, cPhone, cAddress, cPaidAmount, cOutstandingAmt);
      UpdateKeepsWellFormed(customers, k.value, cName, cNIC, cPhone, cAddress, cPaidAmount, cOutstandingAmt);
      customers := customers[k.value := c];
      reply := Reply(200, "Customer updated successfully");
    }

    /** `addOrderToCustomer`: appends the order and, when its total is
        positive, adds the total to the customer's outstanding balance. */
    method AddOrderToCustomer(id: string, order: EmbeddedOrder) returns (reply: Reply)
      requires Valid()
      modifies this
      ensures Valid()
      ensures reply.code != 200 ==> customers == old(customers)
      ensures !IsObjectIdText(id) ==> reply.code == 500
      ensures reply.code == 404 <==> IsObjectIdText(id) && IndexOf(old(customers), CustomerKey, id).None?
      ensures IsObjectIdText(id) && IndexOf(old(customers), CustomerKey, id).Some? ==> reply.code == 200
      ensures reply.code == 200 ==>
        var k := IndexOf(old(customers), CustomerKey, id).value;
        var c := old(customers)[k];
        customers == old(customers)[k := c.(
          orders := c.orders + [order],
          cOutstandingAmt := if order.totalPrice.Some? && order.totalPrice.value > 0
                             then c.cOutstandingAmt + order.totalPrice.value
                             else c.cOutstandingAmt)]
    {
      if !IsObjectIdText(id) {
        return Reply(500, "Error adding order to customer");
      }
      var k := IndexOf(customers, CustomerKey, id);
      if k.None? {
        return Reply(404, "Customer not found");
      }
      var c := customers[k.value];
      c := c.(orders := c.orders + [order]);
      if order.totalPrice.Some? && order.totalPrice.value > 0 {
        c := c.(cOutstandingAmt := c.cOutstandingAmt + order.totalPrice.value);
      }
      BalanceEditKeepsWellFormed(customers, k.value, c);
      customers := customers[k.value := c];
      reply := Reply(200, "Order added to customer successfully");
    }

    /** `updateCustomerOrder`: copies the body into the first order with the
        given id, then moves the outstanding balance by the change of that
        order's total. */
    method UpdateCustomerOrder(id: string, orderId: string, patch: seq<OrderField>) returns (reply: Reply)
      requires Valid()
      modifies this
      ensures Valid()
      ensures reply.code != 200 ==> customers == old(customers)
      ensures !IsObjectIdText(id) ==> reply.code == 500
      ensures IsObjectIdText(id) && IndexOf(old(customers), CustomerKey, id).None? ==> reply.code == 404
      ensures reply.code == 200 ==>
        IsObjectIdText(id) && IndexOf(old(customers), CustomerKey, id).Some? &&
        var k := IndexOf(old(customers), CustomerKey, id).value;
        var c := old(customers)[k];
        IndexOf(c.orders, OrderKey, orderId).Some? &&
        var j := IndexOf(c.orders, OrderKey, orderId).value;
        var o := ApplyPatch(c.orders[j], patch);
        OutstandingAfterOrderEdit(c.cOutstandingAmt, TotalOrZero(c.orders[j]), o.totalPrice).Some? &&
        customers == old(customers)[k := c.(
          orders := c.orders[j := o],
          cOutstandingAmt := OutstandingAfterOrderEdit(c.cOutstandingAmt, TotalOrZero(c.orders[j]), o.totalPrice).value)]
      ensures IsObjectIdText(id) && IndexOf(old(customers), CustomerKey, id).Some? ==>
        var c := old(customers)[IndexOf(old(customers), CustomerKey, id).value];
        (reply.code == 404 <==> IndexOf(c.orders, OrderKey, orderId).None?)
      ensures IsObjectIdText(id) && IndexOf(old(customers), CustomerKey, id).Some? ==>
        var c := old(customers)[IndexOf(old(customers), CustomerKey, id).value];
        IndexOf(c.orders, OrderKey, orderId).Some? ==>
          var o := c.orders[IndexOf(c.orders, OrderKey, orderId).value];
          var newOut := OutstandingAfterOrderEdit(c.cOutstandingAmt, TotalOrZero(o), ApplyPatch(o, patch).totalPrice);
          reply.code == (if newOut.Some? then 200 else 500)
    {
      if !IsObjectIdText(id) {
        return Reply(500, "Error updating customer order");
      }
      var k := IndexOf(customers, CustomerKey, id);
      if k.None? {
        return Reply(404, "Customer not found");
      }
      var c := customers[k.value];
      var j := IndexOf(c.orders, OrderKey, orderId);
      if j.None? {
        return Reply(404, "Order not found for this customer");
      }
      var oldTotal := TotalOrZero(c.orders[j.value]);
      var order := c.orders[j.value];
      var i := 0;
      while i < |patch|
        invariant 0 <= i <= |patch|
        invariant order == ApplyPatch(c.orders[j.value], patch[..i])
      {
        assert patch[..i + 1][..i] == patch[..i];
        order := ApplyField(order, patch[i]);
        i := i + 1;
      }
      assert patch[..|patch|] == patch;
      var newOut := OutstandingAfterOrderEdit(c.cOutstandingAmt, oldTotal, order.totalPrice);
      if newOut.None? {
        // the balance became NaN and the save's cast rejects it
        return Reply(500, "Error updating customer order");
      }
      c := c.(orders := c.orders[j.value := order], cOutstandingAmt := newOut.value);
      BalanceEditKeepsWellFormed(customers, k.value, c);
      customers := customers[k.value := c];
      reply := Reply(200, "Order updated successfully");
    }

    /** `deleteCustomerOrder`: removes the first order with the given id,
        keeping the others in order, and lowers the outstanding balance by
        its total (or 0) with no floor. */
    method DeleteCustomerOrder(id: string, orderId: string) returns (reply: Reply)
      requires Valid()
      modifies this
      ensures Valid()
      ensures reply.code != 200 ==> customers == old(customers)
      ensures !IsObjectIdText(id) ==> reply.code == 500
      ensures IsObjectIdText(id) && IndexOf(old(customers), CustomerKey, id).None? ==> reply.code == 404
      ensures IsObjectIdText(id) && IndexOf(old(customers), CustomerKey, id).Some? ==>
        var k := IndexOf(old(customers), CustomerKey, id).value;
        var c := old(customers)[k];
        match IndexOf(c.orders, OrderKey, orderId)
        case None => reply.code == 404
        case Some(j) =>
          reply.code == 200 &&
          customers == old(customers)[k := c.(
            orders := c.orders[..j] + c.orders[j + 1..],
            cOutstandingAmt := c.cOutstandingAmt - TotalOrZero(c.orders[j]))]
    {
      if !IsObjectIdText(id) {
        return Reply(500, "Error removing order from customer");
      }
      var k := IndexOf(customers, CustomerKey, id);
      if k.None? {
        return Reply(404, "Customer not found");
      }
      var c := customers[k.value];
      var j := IndexOf(c.orders, OrderKey, orderId);
      if j.None? {
        return Reply(404, "Order not found for this customer");
      }
      c := c.(cOutstandingAmt := c.cOutstandingAmt - TotalOrZero(c.orders[j.value]));
      c := c.(orders := c.orders[..j.value] + c.orders[j.value + 1..]);
      BalanceEditKeepsWellFormed(customers, k.value, c);
      customers := customers[k.value := c];
      reply := Reply(200, "Order removed from customer successfully");
    }

    /** `updateCustomerPayment`: rejects a missing, NaN or non-positive
        amount with 400 before looking anyone up; otherwise adds the amount
        to the paid total and takes it off the outstanding balance, floored
        at 0. */
    method UpdateCustomerPayment(id: string, paymentAmount: Input<int>) returns (reply: Reply)
      requires Valid()
      modifies this
      ensures Valid()
      ensures reply.code != 200 ==> customers == old(customers)
      ensures !(NumTruthy(paymentAmount) && paymentAmount.value > 0) ==> reply.code == 400
      ensures NumTruthy(paymentAmount) && paymentAmount.value > 0 ==>
        if !IsObjectIdText(id) then reply.code == 500
        else match IndexOf(old(customers), CustomerKey, id)
          case None => reply.code == 404
          case Some(k) =>
            reply.code == 200 &&
            customers == old(customers)[k := AfterPayment(old(customers)[k], paymentAmount.value)]
    {
      if !NumTruthy(paymentAmount) || paymentAmount.value <= 0 {
        return Reply(400, "Valid payment amount is required");
      }
      if !IsObjectIdText(id) {
        return Reply(500, "Error updating customer payment");
      }
      var k := IndexOf(customers, CustomerKey, id);
      if k.None? {
        return Reply(404, "Customer not found");
      }
      var c := customers[k.value];
      c := c.(cPaidAmount := c.cPaidAmount + paymentAmount.value);
      c := c.(cOutstandingAmt := Max0(c.cOutstandingAmt - paymentAmount.value));
      BalanceEditKeepsWellFormed(customers, k.value, c);
      customers := customers[k.value := c];
      reply := Reply(200, "Customer payment updated successfully");
    }
  }

  // ---------------------------------------------------------------------
  // The update document of `updateCustomer`

  /** The update validators: required strings may not be set empty or null,
      required numbers may not be set null. */
  predicate UpdateValid(cName: Input<string>, cNIC: Input<string>, cPhone: Input<string>,
                        cPaidAmount: Input<int>, cOutstandingAmt: Input<int>) {
    && (cName.Undefined? || StrTruthy(cName))
    && (cNIC.Undefined? || StrTruthy(cNIC))
    && (cPhone.Undefined? || StrTruthy(cPhone))
    && !cPaidAmount.Null? && !cOutstandingAmt.Null?
  }

  /** `findByIdAndUpdate` with the body's fields: absent ones are left alone. */
  function Updated(c: Customer, cName: Input<string>, cNIC: Input<string>, cPhone: Input<string>,
                   cAddress: Input<string>, cPaidAmount: Input<int>, cOutstandingAmt: Input<int>): Customer
    requires UpdateValid(cName, cNIC, cPhone, cPaidAmount, cOutstandingAmt)
  {
    c.(cName := if cName.Given? then cName.value else c.cName,
       cNIC := if cNIC.Given? then cNIC.value else c.cNIC,
       cPhone := if cPhone.Given? then cPhone.value else c.cPhone,
       cAddress := if cAddress.Undefined? then c.cAddress else cAddress,
       cPaidAmount := if cPaidAmount.Given? then cPaidAmount.value else c.cPaidAmount,
       cOutstandingAmt := if cOutstandingAmt.Given? then cOutstandingAmt.value else c.cOutstandingAmt)
  }

  /** An update that passed the uniqueness query keeps NIC and phone unique. */
  lemma {:induction false} UpdateKeepsWellFormed(cs: seq<Customer>, k: nat, cName: Input<string>, cNIC: Input<string>,
                                                 cPhone: Input<string>, cAddress: Input<string>,
                                                 cPaidAmount: Input<int>, cOutstandingAmt: Input<int>)
    requires WellFormed(cs) && k < |cs|
    requires UpdateValid(cName, cNIC, cPhone, cPaidAmount, cOutstandingAmt)
    requires !TakenByOther(cs, cs[k].id, cNIC, cPhone)
    ensures WellFormed(cs[k := Updated(cs[k], cName, cNIC, cPhone, cAddress, cPaidAmount, cOutstandingAmt)])
  {
    var c := Updated(cs[k], cName, cNIC, cPhone, cAddress, cPaidAmount, cOutstandingAmt);
    var cs' := cs[k := c];
    forall i, j | 0 <= i < j < |cs'|
      ensures cs'[i].id != cs'[j].id && cs'[i].cNIC != cs'[j].cNIC && cs'[i].cPhone != cs'[j].cPhone
    {
      if i == k || j == k {
        var other := if i == k then j else i;
        assert cs'[other] == cs[other];
        assert cs[other].id != cs[k].id by {
          if other < k { assert cs[other].id != cs[k].id; } else { assert cs[k].id != cs[other].id; }
        }
        assert !((StrTruthy(cNIC) && cs[other].cNIC == cNIC.value) || (StrTruthy(cPhone) && cs[other].cPhone == cPhone.value));
        if other < k {
          assert cs[other].cNIC != cs[k].cNIC && cs[other].cPhone != cs[k].cPhone;
        } else {
          assert cs[k].cNIC != cs[other].cNIC && cs[k].cPhone != cs[other].cPhone;
        }
      }
    }
  }
}
