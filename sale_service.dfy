/**
 * SaleService: creating, amending, deleting and re-statusing sales, keeping
 * the owning customers' totalPurchaseValue in step with every amount.
 *
 * Each operation is one transaction: when it throws, the store is unchanged.
 */
module SaleService {
  import opened Domain
  import opened Collections
  import opened Ledger
  import opened Store

  /**
   * The customers whose record updateSale rewrites (new total, updatedAt):
   * the sale's customer when the amount changes, and both the old and the
   * new customer when the sale moves to another one.
   */
  function LedgerTouched(before: Sale, patch: SalePatch): set<CustomerId> {
    if before.customer.None? then {}
    else
      (if patch.amount.Some? then {before.customer.value} else {})
      + (if patch.customer.Some? && patch.customer != before.customer
         then {before.customer.value, patch.customer.value} else {})
  }

  /**
   * addSale: resolves the customer, adds the amount to its total whatever the
   * sale's status, resolves the sales rep, defaults the status to COMPLETED,
   * and stores the sale under the next id.
   */
  method AddSale(db: Crm, input: SaleInput, now: Timestamp) returns (r: Result<Sale>)
    requires db.Valid()
    modifies db
    ensures db.Valid()
    ensures r.Err? ==> unchanged(db)
    ensures input.customer !in old(db.customers) ==> r == Err(CustomerNotFound)
    ensures (input.customer in old(db.customers) && old(db.customers)[input.customer].totalPurchaseValue.None?)
      ==> r == Err(NullTotal)
    ensures (input.customer in old(db.customers) && old(db.customers)[input.customer].totalPurchaseValue.Some?
             && input.salesRep !in old(db.users)) ==> r == Err(UserNotFound)
    ensures (input.customer in old(db.customers) && old(db.customers)[input.customer].totalPurchaseValue.Some?
             && input.salesRep in old(db.users) && input.saleDate.None?) ==> r == Err(NullSaleDate)
    ensures r.Ok? ==>
      && r.value.id == old(db.nextSaleId)
      && r.value.amount == input.amount
      && r.value.status == input.status.GetOr(Completed)
      && Some(r.value.saleDate) == input.saleDate
      && r.value.description == input.description
      && r.value.customer == Some(input.customer)
      && r.value.salesRep == Some(input.salesRep)
      && r.value.createdAt == now && r.value.updatedAt == now
    ensures r.Ok? ==>
      && db.customers == Credit(old(db.customers), input.customer, input.amount)
      && db.sales == old(db.sales)[r.value.id := r.value]
      && db.nextSaleId == old(db.nextSaleId) + 1
      && db.users == old(db.users) && db.interactions == old(db.interactions)
      && db.nextCustomerId == old(db.nextCustomerId) && db.nextUserId == old(db.nextUserId)
      && db.nextInteractionId == old(db.nextInteractionId)
    ensures r.Ok? <==> input.customer in old(db.customers) && old(db.customers)[input.customer].totalPurchaseValue.Some?
                       && input.salesRep in old(db.users) && input.saleDate.Some?
  {
    if input.customer !in db.customers {
      return Err(CustomerNotFound);
    }
    if db.customers[input.customer].totalPurchaseValue.None? {
      return Err(NullTotal);
    }
    if input.salesRep !in db.users {
      return Err(UserNotFound);
    }
    if input.saleDate.None? {
      return Err(NullSaleDate);
    }
    var sale := Sale(db.nextSaleId, input.amount, input.saleDate.value, input.status.GetOr(Completed),
                     input.description, Some(input.customer), Some(input.salesRep), now, now);
    AddSaleKeepsStore(db.customers, db.users, db.sales, db.interactions,
                      db.nextCustomerId, db.nextUserId, db.nextSaleId, db.nextInteractionId, sale);
    db.customers := Credit(db.customers, input.customer, input.amount);
    db.sales := db.sales[sale.id := sale];
    db.nextSaleId := db.nextSaleId + 1;
    r := Ok(sale);
  }

  lemma AddSaleKeepsStore(customers: map<CustomerId, Customer>, users: map<UserId, User>,
                          sales: map<SaleId, Sale>, interactions: map<InteractionId, Interaction>,
                          nc: nat, nu: nat, ns: nat, ni: nat, s: Sale)
    requires StoreOk(customers, users, sales, interactions, nc, nu, ns, ni)
    requires s.id == ns && s.customer.Some? && s.customer.value in customers && Resolves(s.salesRep, users)
    ensures StoreOk(Credit(customers, s.customer.value, s.amount), users, sales[s.id := s], interactions,
                    nc, nu, ns + 1, ni)
  {
    var customers' := Credit(customers, s.customer.value, s.amount);
    CustomersOkAfterPut(customers, nc, s.customer.value, customers'[s.customer.value]);
    RefsKeptByKeptCustomers(customers, customers', users, sales, ns, interactions, ni);
    SalesOkAfterPut(sales, ns, ns + 1, customers', users, s);
    assert InteractionsOk(interactions, ni, customers', users);
  }

  /**
   * Ledger invariant of addSale: crediting the customer with the new sale's
   * amount keeps every drift, and raises the sum of all totals by the amount.
   */
  lemma AddSaleKeepsLedger(customers: map<CustomerId, Customer>, sales: map<SaleId, Sale>, s: Sale)
    requires s.id !in sales && s.customer.Some? && s.customer.value in customers
    ensures DriftKept(customers, sales, Credit(customers, s.customer.value, s.amount), sales[s.id := s])
    ensures GrandTotal(Credit(customers, s.customer.value, s.amount)) == GrandTotal(customers) + s.amount
  {
    DriftKeptByPut(customers, Credit(customers, s.customer.value, s.amount), sales, s.id, s);
    CreditMovesGrandTotal(customers, s.customer.value, s.amount);
  }

  /**
   * The amount step of updateSale: the sale's customer absorbs new - old and
   * is stamped; nothing else changes.
   */
  function Reprice(customers: map<CustomerId, Customer>, sale: Sale, amount: Money, now: Timestamp)
    : (r: Result<map<CustomerId, Customer>>)
    requires Resolves(sale.customer, customers)
    ensures r.Err? <==> sale.customer.None?
    ensures r.Err? ==> r.error == MissingCustomerReference
    ensures r.Ok? ==> r.value.Keys == customers.Keys
    ensures r.Ok? ==> forall c :: c in customers ==>
      TotalOf(r.value[c]) == TotalOf(customers[c]) - Contrib(sale, c) + Contrib(sale.(amount := amount), c)
    ensures r.Ok? ==> forall c :: c in customers ==>
      r.value[c] == if Some(c) == sale.customer
                    then customers[c].(totalPurchaseValue := r.value[c].totalPurchaseValue, updatedAt := now)
                    else customers[c]
  {
    if sale.customer.None? then Err(MissingCustomerReference)
    else
      var cid := sale.customer.value;
      var customer := customers[cid];
      Ok(customers[cid := customer.(totalPurchaseValue := Some(TotalOf(customer) - sale.amount + amount),
                                    updatedAt := now)])
  }

  /** The customers a reassignment of `sale` to `to` rewrites: none when `to` is already its customer. */
  function Moved(sale: Sale, to: CustomerId): set<CustomerId>
    requires sale.customer.Some?
  {
    if sale.customer.value == to then {} else {sale.customer.value, to}
  }

  /**
   * The customer step of updateSale: a different customer takes the sale's
   * amount over from the old one, and both are stamped.
   */
  function Reassign(customers: map<CustomerId, Customer>, sale: Sale, to: CustomerId, now: Timestamp)
    : (r: Result<map<CustomerId, Customer>>)
    requires Resolves(sale.customer, customers)
    ensures sale.customer.None? ==> r == Err(MissingCustomerReference)
    ensures sale.customer.Some? ==> (r.Err? <==> to != sale.customer.value && to !in customers)
    ensures sale.customer.Some? && r.Err? ==> r.error == CustomerNotFound
    ensures r.Ok? ==> r.value.Keys == customers.Keys
    ensures r.Ok? ==> forall c :: c in customers ==>
      TotalOf(r.value[c]) == TotalOf(customers[c]) - Contrib(sale, c) + Contrib(sale.(customer := Some(to)), c)
    ensures r.Ok? ==> forall c :: c in customers ==>
      r.value[c] == if c in Moved(sale, to)
                    then customers[c].(totalPurchaseValue := r.value[c].totalPurchaseValue, updatedAt := now)
                    else customers[c]
  {
    if sale.customer.None? then Err(MissingCustomerReference)
    else if sale.customer.value == to then Ok(customers)
    else if to !in customers then Err(CustomerNotFound)
    else
      var from := sale.customer.value;
      var left := customers[from := customers[from].(totalPurchaseValue := Some(TotalOf(customers[from]) - sale.amount),
                                                     updatedAt := now)];
      Ok(left[to := left[to].(totalPurchaseValue := Some(TotalOf(left[to]) + sale.amount), updatedAt := now)])
  }

  /** The sale as updateSale's ledger steps see it: the patched amount and customer. */
  function Repointed(before: Sale, patch: SalePatch): Sale {
    before.(amount := patch.amount.GetOr(before.amount),
            customer := if patch.customer.Some? then patch.customer else before.customer)
  }

  /**
   * The sale updateSale saves: every non-null field of the patch replaces the
   * stored one, and updatedAt is stamped.
   */
  function PatchedSale(before: Sale, patch: SalePatch, now: Timestamp): Sale {
    Repointed(before, patch).(
      status := patch.status.GetOr(before.status),
      salesRep := if patch.salesRep.Some? then patch.salesRep else before.salesRep,
      description := if patch.description.Some? then patch.description else before.description,
      saleDate := patch.saleDate.GetOr(before.saleDate),
      updatedAt := now)
  }

  /**
   * The customers table after updateSale's amount step and customer step, in
   * that order (the customer step moves the already updated amount).
   */
  function PatchLedger(customers: map<CustomerId, Customer>, before: Sale, patch: SalePatch, now: Timestamp)
    : (r: Result<map<CustomerId, Customer>>)
    requires Resolves(before.customer, customers)
    ensures before.customer.None? ==>
      (r.Err? <==> patch.amount.Some? || patch.customer.Some?) && (r.Err? ==> r.error == MissingCustomerReference)
    ensures before.customer.Some? ==>
      (r.Err? <==> patch.customer.Some? && patch.customer != before.customer && patch.customer.value !in customers)
      && (r.Err? ==> r.error == CustomerNotFound)
    ensures r.Ok? ==> r.value.Keys == customers.Keys
    ensures r.Ok? ==> forall c :: c in customers ==>
      TotalOf(r.value[c]) == TotalOf(customers[c]) - Contrib(before, c) + Contrib(Repointed(before, patch), c)
    ensures r.Ok? ==> forall c :: c in customers ==>
      r.value[c] == if c in LedgerTouched(before, patch)
                    then customers[c].(totalPurchaseValue := r.value[c].totalPurchaseValue, updatedAt := now)
                    else customers[c]
  {
    var repriced := if patch.amount.Some? then Reprice(customers, before, patch.amount.value, now) else Ok(customers);
    if repriced.Err? then repriced
    else
      var sale := before.(amount := patch.amount.GetOr(before.amount));
      if patch.customer.Some? then Reassign(repriced.value, sale, patch.customer.value, now)
      else repriced
  }

  /**
   * updateSale: applies the non-null fields of the patch. The ledger steps
   * come first (PatchLedger), then the sales rep must resolve.
   */
  method UpdateSale(db: Crm, id: SaleId, patch: SalePatch, now: Timestamp) returns (r: Result<Sale>)
    requires db.Valid()
    modifies db
    ensures db.Valid()
    ensures r.Err? ==> unchanged(db)
    ensures id !in old(db.sales) ==> r == Err(SaleNotFound)
    ensures id in old(db.sales) ==>
      var ledger := PatchLedger(old(db.customers), old(db.sales)[id], patch, now);
      && (ledger.Err? ==> r == Err(ledger.error))
      && (ledger.Ok? && patch.salesRep.Some? && patch.salesRep.value !in old(db.users) ==> r == Err(UserNotFound))
      && (ledger.Ok? && (patch.salesRep.Some? ==> patch.salesRep.value in old(db.users)) ==>
            && r == Ok(PatchedSale(old(db.sales)[id], patch, now))
            && db.customers == ledger.value
            && db.sales == old(db.sales)[id := r.value])
    ensures r.Ok? ==>
      && db.users == old(db.users) && db.interactions == old(db.interactions)
      && db.nextCustomerId == old(db.nextCustomerId) && db.nextUserId == old(db.nextUserId)
      && db.nextSaleId == old(db.nextSaleId) && db.nextInteractionId == old(db.nextInteractionId)
  {
    if id !in db.sales {
      return Err(SaleNotFound);
    }
    var before := db.sales[id];
    var ledger := PatchLedger(db.customers, before, patch, now);
    if ledger.Err? {
      return Err(ledger.error);
    }
    if patch.salesRep.Some? && patch.salesRep.value !in db.users {
      return Err(UserNotFound);
    }
    var sale := PatchedSale(before, patch, now);
    UpdateSaleKeepsStore(db.customers, db.users, db.sales, db.interactions,
                         db.nextCustomerId, db.nextUserId, db.nextSaleId, db.nextInteractionId, id, patch, now);
    db.customers := ledger.value;
    db.sales := db.sales[id := sale];
    r := Ok(sale);
  }

  lemma UpdateSaleKeepsStore(customers: map<CustomerId, Customer>, users: map<UserId, User>,
                             sales: map<SaleId, Sale>, interactions: map<InteractionId, Interaction>,
                             nc: nat, nu: nat, ns: nat, ni: nat, id: SaleId, patch: SalePatch, now: Timestamp)
    requires StoreOk(customers, users, sales, interactions, nc, nu, ns, ni)
    requires id in sales && PatchLedger(customers, sales[id], patch, now).Ok?
    requires patch.salesRep.Some? ==> patch.salesRep.value in users
    ensures StoreOk(PatchLedger(customers, sales[id], patch, now).value, users,
                    sales[id := PatchedSale(sales[id], patch, now)], interactions, nc, nu, ns, ni)
  {
    var customers' := PatchLedger(customers, sales[id], patch, now).value;
    CustomersOkAfterRestamp(customers, customers', nc);
    RefsKeptByKeptCustomers(customers, customers', users, sales, ns, interactions, ni);
    SalesOkAfterPut(sales, ns, ns, customers', users, PatchedSale(sales[id], patch, now));
  }

  /**
   * Ledger invariant of updateSale: the customers PatchLedger produces keep
   * every drift once the patched sale is stored, and the sum of all totals
   * moves by exactly the change in the sale's amount (a reassignment alone
   * leaves it unchanged).
   */
  lemma UpdateSaleKeepsLedger(customers: map<CustomerId, Customer>, sales: map<SaleId, Sale>,
                              id: SaleId, patch: SalePatch, now: Timestamp)
    requires id in sales && Resolves(sales[id].customer, customers)
    requires PatchLedger(customers, sales[id], patch, now).Ok?
    ensures DriftKept(customers, sales, PatchLedger(customers, sales[id], patch, now).value,
                      sales[id := PatchedSale(sales[id], patch, now)])
    ensures GrandTotal(PatchLedger(customers, sales[id], patch, now).value)
      == GrandTotal(customers) + PatchedSale(sales[id], patch, now).amount - sales[id].amount
  {
    var before := sales[id];
    var after := PatchedSale(before, patch, now);
    var customers' := PatchLedger(customers, before, patch, now).value;
    assert forall c :: Contrib(after, c) == Contrib(Repointed(before, patch), c);
    DriftKeptByPut(customers, customers', sales, id, after);
    if before.customer.Some? {
      GrandTotalAfterTwo(customers, customers', before.customer.value, after.customer.value);
    } else {
      assert customers' == customers;
    }
  }

  /**
   * deleteSale: takes the sale's amount off its customer's total and removes
   * the sale. The source dereferences the sale's customer unconditionally, so
   * a sale without one is outside the operation's domain.
   */
  method DeleteSale(db: Crm, id: SaleId) returns (r: Result<()>)
    requires db.Valid()
    requires id in db.sales ==> db.sales[id].customer.Some?
    modifies db
    ensures db.Valid()
    ensures r.Err? ==> unchanged(db)
    ensures id !in old(db.sales) <==> r == Err(SaleNotFound)
    ensures id in old(db.sales) ==>
      var gone := old(db.sales)[id];
      && gone.customer.value in old(db.customers)
      && (old(db.customers)[gone.customer.value].totalPurchaseValue.None? <==> r == Err(NullTotal))
      && (old(db.customers)[gone.customer.value].totalPurchaseValue.Some? <==> r.Ok?)
      && (r.Ok? ==>
            && db.sales == old(db.sales) - {id}
            && db.customers == Credit(old(db.customers), gone.customer.value, -gone.amount))
    ensures r.Ok? ==>
      && db.users == old(db.users) && db.interactions == old(db.interactions)
      && db.nextCustomerId == old(db.nextCustomerId) && db.nextUserId == old(db.nextUserId)
      && db.nextSaleId == old(db.nextSaleId) && db.nextInteractionId == old(db.nextInteractionId)
  {
    if id !in db.sales {
      return Err(SaleNotFound);
    }
    var sale := db.sales[id];
    var cid := sale.customer.value;
    if db.customers[cid].totalPurchaseValue.None? {
      return Err(NullTotal);
    }
    DeleteSaleKeepsStore(db.customers, db.users, db.sales, db.interactions,
                         db.nextCustomerId, db.nextUserId, db.nextSaleId, db.nextInteractionId, id);
    db.customers := Credit(db.customers, cid, -sale.amount);
    db.sales := db.sales - {id};
    r := Ok(());
  }

  lemma DeleteSaleKeepsStore(customers: map<CustomerId, Customer>, users: map<UserId, User>,
                             sales: map<SaleId, Sale>, interactions: map<InteractionId, Interaction>,
                             nc: nat, nu: nat, ns: nat, ni: nat, id: SaleId)
    requires StoreOk(customers, users, sales, interactions, nc, nu, ns, ni)
    requires id in sales && sales[id].customer.Some?
    ensures StoreOk(Credit(customers, sales[id].customer.value, -sales[id].amount), users, sales - {id},
                    interactions, nc, nu, ns, ni)
  {
    var customers' := Credit(customers, sales[id].customer.value, -sales[id].amount);
    CustomersOkAfterPut(customers, nc, sales[id].customer.value, customers'[sales[id].customer.value]);
    RefsKeptByKeptCustomers(customers, customers', users, sales, ns, interactions, ni);
  }

  /**
   * deleteSale undoes addSale: crediting a customer with a new sale's amount
   * and then debiting it again, with the sale stored and then removed, gives
   * back every total and the sales table.
   */
  lemma DeleteUndoesAdd(customers: map<CustomerId, Customer>, sales: map<SaleId, Sale>, s: Sale)
    requires s.id !in sales && s.customer.Some? && s.customer.value in customers
    ensures var credited := Credit(customers, s.customer.value, s.amount);
            var restored := Credit(credited, s.customer.value, -s.amount);
            && restored.Keys == customers.Keys
            && (forall c :: c in customers ==> TotalOf(restored[c]) == TotalOf(customers[c]))
            && (sales[s.id := s] - {s.id}) == sales
  {
    assert (sales[s.id := s] - {s.id}).Keys == sales.Keys;
  }

  /** The shared body of the status operations: overwrite status and updatedAt, nothing else. */
  method ApplySaleStatus(db: Crm, id: SaleId, status: SaleStatus, now: Timestamp) returns (r: Result<Sale>)
    requires db.Valid()
    modifies db
    ensures db.Valid()
    ensures id !in old(db.sales) <==> r == Err(SaleNotFound)
    ensures id in old(db.sales) <==> r.Ok?
    ensures r.Err? ==> unchanged(db)
    ensures r.Ok? ==>
      && r.value == old(db.sales)[id].(status := status, updatedAt := now)
      && db.sales == old(db.sales)[id := r.value]
      && db.customers == old(db.customers) && db.users == old(db.users) && db.interactions == old(db.interactions)
      && db.nextCustomerId == old(db.nextCustomerId) && db.nextUserId == old(db.nextUserId)
      && db.nextSaleId == old(db.nextSaleId) && db.nextInteractionId == old(db.nextInteractionId)
  {
    if id !in db.sales {
      return Err(SaleNotFound);
    }
    var sale := db.sales[id].(status := status, updatedAt := now);
    db.sales := db.sales[id := sale];
    r := Ok(sale);
  }

  /** updateSaleStatus: any status may follow any other. */
  method UpdateSaleStatus(db: Crm, id: SaleId, status: SaleStatus, now: Timestamp) returns (r: Result<Sale>)
    requires db.Valid()
    modifies db
    ensures db.Valid()
    ensures id !in old(db.sales) <==> r == Err(SaleNotFound)
    ensures id in old(db.sales) <==> r.Ok?
    ensures r.Err? ==> unchanged(db)
    ensures r.Ok? ==>
      && r.value == old(db.sales)[id].(status := status, updatedAt := now)
      && db.sales == old(db.sales)[id := r.value]
      && db.customers == old(db.customers) && db.users == old(db.users) && db.interactions == old(db.interactions)
      && db.nextCustomerId == old(db.nextCustomerId) && db.nextUserId == old(db.nextUserId)
      && db.nextSaleId == old(db.nextSaleId) && db.nextInteractionId == old(db.nextInteractionId)
  {
    r := ApplySaleStatus(db, id, status, now);
  }

  method MarkSaleAsCompleted(db: Crm, id: SaleId, now: Timestamp) returns (r: Result<Sale>)
    requires db.Valid()
    modifies db
    ensures db.Valid()
    ensures id !in old(db.sales) <==> r == Err(SaleNotFound)
    ensures id in old(db.sales) <==> r.Ok?
    ensures r.Err? ==> unchanged(db)
    ensures r.Ok? ==>
      && r.value == old(db.sales)[id].(status := Completed, updatedAt := now)
      && db.sales == old(db.sales)[id := r.value]
      && db.customers == old(db.customers) && db.users == old(db.users) && db.interactions == old(db.interactions)
      && db.nextCustomerId == old(db.nextCustomerId) && db.nextUserId == old(db.nextUserId)
      && db.nextSaleId == old(db.nextSaleId) && db.nextInteractionId == old(db.nextInteractionId)
  {
    r := ApplySaleStatus(db, id, Completed, now);
  }

  method MarkSaleAsCanceled(db: Crm, id: SaleId, now: Timestamp) returns (r: Result<Sale>)
    requires db.Valid()
    modifies db
    ensures db.Valid()
    ensures id !in old(db.sales) <==> r == Err(SaleNotFound)
    ensures id in old(db.sales) <==> r.Ok?
    ensures r.Err? ==> unchanged(db)
    ensures r.Ok? ==>
      && r.value == old(db.sales)[id].(status := Canceled, updatedAt := now)
      && db.sales == old(db.sales)[id := r.value]
      && db.customers == old(db.customers) && db.users == old(db.users) && db.interactions == old(db.interactions)
      && db.nextCustomerId == old(db.nextCustomerId) && db.nextUserId == old(db.nextUserId)
      && db.nextSaleId == old(db.nextSaleId) && db.nextInteractionId == old(db.nextInteractionId)
  {
    r := ApplySaleStatus(db, id, Canceled, now);
  }

  method MarkSaleAsPending(db: Crm, id: SaleId, now: Timestamp) returns (r: Result<Sale>)
    requires db.Valid()
    modifies db
    ensures db.Valid()
    ensures id !in old(db.sales) <==> r == Err(SaleNotFound)
    ensures id in old(db.sales) <==> r.Ok?
    ensures r.Err? ==> unchanged(db)
    ensures r.Ok? ==>
      && r.value == old(db.sales)[id].(status := Pending, updatedAt := now)
      && db.sales == old(db.sales)[id := r.value]
      && db.customers == old(db.customers) && db.users == old(db.users) && db.interactions == old(db.interactions)
      && db.nextCustomerId == old(db.nextCustomerId) && db.nextUserId == old(db.nextUserId)
      && db.nextSaleId == old(db.nextSaleId) && db.nextInteractionId == old(db.nextInteractionId)
  {
    r := ApplySaleStatus(db, id, Pending, now);
  }

  /** getSaleById. */
  function GetSaleById(db: Crm, id: SaleId): (r: Result<Sale>)
    reads db
    requires db.Valid()
    ensures r.Err? <==> id !in db.sales
    ensures r.Err? ==> r.error == SaleNotFound
    ensures r.Ok? ==> r.value in db.sales.Values && r.value.id == id
  {
    if id in db.sales then Ok(db.sales[id]) else Err(SaleNotFound)
  }

  /** getSaleByCustomerId: the customer must exist; its sales in id order. */
  function GetSaleByCustomerId(db: Crm, cid: CustomerId): (r: Result<seq<Sale>>)
    reads db
    requires db.Valid()
    ensures r.Err? <==> cid !in db.customers
    ensures r.Err? ==> r.error == CustomerNotFound
    ensures r.Ok? ==> forall s :: s in r.value <==> s in db.sales.Values && s.customer == Some(cid)
    ensures r.Ok? ==> |r.value| == |set k | k in db.sales && db.sales[k].customer == Some(cid)|
  {
    if cid !in db.customers then Err(CustomerNotFound)
    else
      CustomerSalesCount(db.sales, db.nextSaleId, cid);
      Ok(Filter(db.AllSales(), BelongsTo(cid)))
  }

  /** The listing of a customer's sales has one entry per stored sale that references it. */
  lemma CustomerSalesCount(sales: map<SaleId, Sale>, next: nat, cid: CustomerId)
    requires forall k :: k in sales ==> k < next
    ensures |Filter(InKeyOrder(sales, next), BelongsTo(cid))| == |set k | k in sales && sales[k].customer == Some(cid)|
  {
    FilterInKeyOrderLength(sales, next, BelongsTo(cid));
    assert KeysWhere(sales, next, BelongsTo(cid)) == set k | k in sales && sales[k].customer == Some(cid);
  }

  /** getSaleByRepId: the sales rep must exist; the rep's sales in id order. */
  function GetSaleByRepId(db: Crm, rid: UserId): (r: Result<seq<Sale>>)
    reads db
    requires db.Valid()
    ensures r.Err? <==> rid !in db.users
    ensures r.Err? ==> r.error == UserNotFound
    ensures r.Ok? ==> forall s :: s in r.value <==> s in db.sales.Values && s.salesRep == Some(rid)
    ensures r.Ok? ==> |r.value| == |set k | k in db.sales && db.sales[k].salesRep == Some(rid)|
  {
    if rid !in db.users then Err(UserNotFound)
    else Ok(GetSalesByRepId(db, rid))
  }

  /** getSalesByRepId: the same query without the rep check; an unknown rep has no sales. */
  function GetSalesByRepId(db: Crm, rid: UserId): (r: seq<Sale>)
    reads db
    requires db.Valid()
    ensures forall s :: s in r <==> s in db.sales.Values && s.salesRep == Some(rid)
    ensures |r| == |set k | k in db.sales && db.sales[k].salesRep == Some(rid)|
    ensures rid !in db.users ==> r == []
  {
    var r := Filter(db.AllSales(), SoldBy(rid));
    RepSalesCount(db.sales, db.nextSaleId, rid);
    assert r == [] || r[0] in r;
    r
  }

  /** The sale was made by rep `rid`: the filter of findBySalesRep_Id. */
  function SoldBy(rid: UserId): Sale -> bool {
    (s: Sale) => s.salesRep == Some(rid)
  }

  /** The listing of a rep's sales has one entry per stored sale that names the rep. */
  lemma RepSalesCount(sales: map<SaleId, Sale>, next: nat, rid: UserId)
    requires forall k :: k in sales ==> k < next
    ensures |Filter(InKeyOrder(sales, next), SoldBy(rid))| == |set k | k in sales && sales[k].salesRep == Some(rid)|
  {
    FilterInKeyOrderLength(sales, next, SoldBy(rid));
    assert KeysWhere(sales, next, SoldBy(rid)) == set k | k in sales && sales[k].salesRep == Some(rid);
  }

  /** getSalesByStatus. */
  function GetSalesByStatus(db: Crm, status: SaleStatus): (r: seq<Sale>)
    reads db
    requires db.Valid()
    ensures forall s :: s in r <==> s in db.sales.Values && s.status == status
    ensures |r| == |set k | k in db.sales && db.sales[k].status == status|
  {
    StatusSalesCount(db.sales, db.nextSaleId, status);
    Filter(db.AllSales(), HasStatus(status))
  }

  /** The sale is in status `status`: the filter of findByStatus. */
  function HasStatus(status: SaleStatus): Sale -> bool {
    (s: Sale) => s.status == status
  }

  /** The listing of the sales in one status has one entry per stored sale in it. */
  lemma StatusSalesCount(sales: map<SaleId, Sale>, next: nat, status: SaleStatus)
    requires forall k :: k in sales ==> k < next
    ensures |Filter(InKeyOrder(sales, next), HasStatus(status))| == |set k | k in sales && sales[k].status == status|
  {
    FilterInKeyOrderLength(sales, next, HasStatus(status));
    assert KeysWhere(sales, next, HasStatus(status)) == set k | k in sales && sales[k].status == status;
  }

  /** getCompletedSales: SaleNotFound when there are none. */
  function GetCompletedSales(db: Crm): (r: Result<seq<Sale>>)
    reads db
    requires db.Valid()
    ensures r.Err? <==> forall s :: s in db.sales.Values ==> s.status != Completed
    ensures r.Err? ==> r.error == SaleNotFound
    ensures r.Ok? ==> r.value != [] && forall s :: s in r.value <==> s in db.sales.Values && s.status == Completed
    ensures r.Ok? ==> |r.value| == |set k | k in db.sales && db.sales[k].status == Completed|
  {
    var completed := GetSalesByStatus(db, Completed);
    if completed == [] then Err(SaleNotFound) else assert completed[0] in completed; Ok(completed)
  }

  /** getCanceledSales: SaleNotFound when there are none. */
  function GetCanceledSales(db: Crm): (r: Result<seq<Sale>>)
    reads db
    requires db.Valid()
    ensures r.Err? <==> forall s :: s in db.sales.Values ==> s.status != Canceled
    ensures r.Err? ==> r.error == SaleNotFound
    ensures r.Ok? ==> r.value != [] && forall s :: s in r.value <==> s in db.sales.Values && s.status == Canceled
    ensures r.Ok? ==> |r.value| == |set k | k in db.sales && db.sales[k].status == Canceled|
  {
    var canceled := GetSalesByStatus(db, Canceled);
    if canceled == [] then Err(SaleNotFound) else assert canceled[0] in canceled; Ok(canceled)
  }
}
