/**
 * CustomerService: customer records, their unique email and their
 * ACTIVE/INACTIVE status. Each writing operation is one transaction; a
 * write the database rejects (a duplicate email) leaves the store unchanged.
 */
module CustomerService {
  import opened Domain
  import opened Collections
  import opened Store

  /** The record a patch produces: every non-null field replaces the stored one; company and address are never patched. */
  function PatchedCustomer(c: Customer, patch: CustomerPatch, now: Timestamp): (r: Customer)
    ensures r.id == c.id && r.company == c.company && r.address == c.address && r.createdAt == c.createdAt
    ensures r.updatedAt == now
    ensures patch.email.None? ==> r.email == c.email
    ensures patch.email.Some? ==> r.email == patch.email.value
    ensures patch.firstName.None? ==> r.firstName == c.firstName
    ensures patch.firstName.Some? ==> r.firstName == patch.firstName.value
    ensures patch.lastName.None? ==> r.lastName == c.lastName
    ensures patch.lastName.Some? ==> r.lastName == patch.lastName.value
    ensures patch.status.None? ==> r.status == c.status
    ensures patch.status.Some? ==> r.status == patch.status.value
    ensures patch.phoneNumber.None? ==> r.phoneNumber == c.phoneNumber
    ensures patch.phoneNumber.Some? ==> r.phoneNumber == patch.phoneNumber
    ensures patch.totalPurchaseValue.None? ==> r.totalPurchaseValue == c.totalPurchaseValue
    ensures patch.totalPurchaseValue.Some? ==> r.totalPurchaseValue == patch.totalPurchaseValue
    ensures patch == CustomerPatch(None, None, None, None, None, None) ==> r == c.(updatedAt := now)
  {
    c.(firstName := patch.firstName.GetOr(c.firstName),
       lastName := patch.lastName.GetOr(c.lastName),
       email := patch.email.GetOr(c.email),
       status := patch.status.GetOr(c.status),
       phoneNumber := if patch.phoneNumber.Some? then patch.phoneNumber else c.phoneNumber,
       totalPurchaseValue := if patch.totalPurchaseValue.Some? then patch.totalPurchaseValue else c.totalPurchaseValue,
       updatedAt := now)
  }

  /**
   * createCustomer: stamps both timestamps, forces ACTIVE and saves under the
   * next id. The total purchase value is stored as given, null included.
   */
  method CreateCustomer(db: Crm, input: CustomerInput, now: Timestamp) returns (r: Result<Customer>)
    requires db.Valid()
    modifies db
    ensures db.Valid()
    ensures r.Err? ==> unchanged(db)
    ensures r.Err? <==> EmailTaken(old(db.customers), input.email, None)
    ensures r.Err? ==> r.error == DuplicateEmail
    ensures r.Ok? ==>
      && r.value == Customer(old(db.nextCustomerId), input.firstName, input.lastName, input.email, input.phoneNumber,
                             input.company, input.address, Active, input.totalPurchaseValue, now, now)
      && db.customers == old(db.customers)[r.value.id := r.value]
      && db.nextCustomerId == old(db.nextCustomerId) + 1
      && db.users == old(db.users) && db.sales == old(db.sales) && db.interactions == old(db.interactions)
      && db.nextUserId == old(db.nextUserId) && db.nextSaleId == old(db.nextSaleId)
      && db.nextInteractionId == old(db.nextInteractionId)
  {
    if EmailTaken(db.customers, input.email, None) {
      return Err(DuplicateEmail);
    }
    var customer := Customer(db.nextCustomerId, input.firstName, input.lastName, input.email, input.phoneNumber,
                             input.company, input.address, Active, input.totalPurchaseValue, now, now);
    CreateCustomerKeepsStore(db.customers, db.users, db.sales, db.interactions,
                             db.nextCustomerId, db.nextUserId, db.nextSaleId, db.nextInteractionId, customer);
    db.customers := db.customers[customer.id := customer];
    db.nextCustomerId := db.nextCustomerId + 1;
    r := Ok(customer);
  }

  lemma CreateCustomerKeepsStore(customers: map<CustomerId, Customer>, users: map<UserId, User>,
                                 sales: map<SaleId, Sale>, interactions: map<InteractionId, Interaction>,
                                 nc: nat, nu: nat, ns: nat, ni: nat, c: Customer)
    requires StoreOk(customers, users, sales, interactions, nc, nu, ns, ni)
    requires c.id == nc && !EmailTaken(customers, c.email, None)
    ensures StoreOk(customers[c.id := c], users, sales, interactions, nc + 1, nu, ns, ni)
  {
    var customers' := customers[c.id := c];
    forall a, b | a in customers' && b in customers' && a != b
      ensures CustomerEmail(customers', a) != CustomerEmail(customers', b)
    {
      if a != c.id && b != c.id {
        assert CustomerEmail(customers, a) != CustomerEmail(customers, b);
      }
    }
    RefsKeptByKeptCustomers(customers, customers', users, sales, ns, interactions, ni);
  }

  /** findById. */
  function FindById(db: Crm, id: CustomerId): (r: Option<Customer>)
    reads db
    requires db.Valid()
    ensures r.Some? <==> id in db.customers
    ensures r.Some? ==> r.value in db.customers.Values && r.value.id == id
  {
    if id in db.customers then Some(db.customers[id]) else None
  }

  /** findByEmail: the email column is unique, so at most one customer matches. */
  function FindByEmail(db: Crm, email: string): (r: Option<Customer>)
    reads db
    requires db.Valid()
    ensures r.Some? <==> EmailTaken(db.customers, email, None)
    ensures r.Some? ==> r.value in db.customers.Values && r.value.email == email
    ensures r.Some? ==> forall k :: k in db.customers && db.customers[k].email == email ==> db.customers[k] == r.value
  {
    var matching := Filter(db.AllCustomers(), (c: Customer) => c.email == email);
    if matching == [] then
      assert forall k :: k in db.customers ==> db.customers[k].email != email by {
        forall k | k in db.customers
          ensures db.customers[k].email != email
        {
          assert db.customers[k] in db.AllCustomers();
        }
      }
      None
    else
      var found := matching[0];
      assert found in matching;
      assert forall k :: k in db.customers && db.customers[k].email == email ==> db.customers[k] == found by {
        var j :| j in db.customers && db.customers[j] == found;
        forall k | k in db.customers && db.customers[k].email == email
          ensures db.customers[k] == found
        {
          assert CustomerEmail(db.customers, k) == CustomerEmail(db.customers, j);
        }
      }
      Some(found)
  }

  /**
   * updateCustomer: applies the non-null fields, stamps updatedAt; an email
   * already used by another customer violates the unique column.
   */
  method UpdateCustomer(db: Crm, id: CustomerId, patch: CustomerPatch, now: Timestamp) returns (r: Result<Customer>)
    requires db.Valid()
    modifies db
    ensures db.Valid()
    ensures r.Err? ==> unchanged(db)
    ensures id !in old(db.customers) <==> r == Err(CustomerNotFound)
    ensures id in old(db.customers) ==>
      && (patch.email.Some? && EmailTaken(old(db.customers), patch.email.value, Some(id)) <==> r == Err(DuplicateEmail))
      && (!(patch.email.Some? && EmailTaken(old(db.customers), patch.email.value, Some(id))) <==> r.Ok?)
      && (r.Ok? ==>
            && r.value == PatchedCustomer(old(db.customers)[id], patch, now)
            && db.customers == old(db.customers)[id := r.value])
    ensures r.Ok? ==>
      && db.users == old(db.users) && db.sales == old(db.sales) && db.interactions == old(db.interactions)
      && db.nextCustomerId == old(db.nextCustomerId) && db.nextUserId == old(db.nextUserId)
      && db.nextSaleId == old(db.nextSaleId) && db.nextInteractionId == old(db.nextInteractionId)
  {
    if id !in db.customers {
      return Err(CustomerNotFound);
    }
    if patch.email.Some? && EmailTaken(db.customers, patch.email.value, Some(id)) {
      return Err(DuplicateEmail);
    }
    var customer := PatchedCustomer(db.customers[id], patch, now);
    UpdateCustomerKeepsStore(db.customers, db.users, db.sales, db.interactions,
                             db.nextCustomerId, db.nextUserId, db.nextSaleId, db.nextInteractionId, customer);
    db.customers := db.customers[id := customer];
    r := Ok(customer);
  }

  lemma UpdateCustomerKeepsStore(customers: map<CustomerId, Customer>, users: map<UserId, User>,
                                 sales: map<SaleId, Sale>, interactions: map<InteractionId, Interaction>,
                                 nc: nat, nu: nat, ns: nat, ni: nat, c: Customer)
    requires StoreOk(customers, users, sales, interactions, nc, nu, ns, ni)
    requires c.id in customers && customers[c.id].id == c.id
    requires c.email == customers[c.id].email || !EmailTaken(customers, c.email, Some(c.id))
    ensures StoreOk(customers[c.id := c], users, sales, interactions, nc, nu, ns, ni)
  {
    var customers' := customers[c.id := c];
    forall a, b | a in customers' && b in customers' && a != b
      ensures CustomerEmail(customers', a) != CustomerEmail(customers', b)
    {
      if c.email == customers[c.id].email || (a != c.id && b != c.id) {
        assert CustomerEmail(customers', a) == CustomerEmail(customers, a);
        assert CustomerEmail(customers', b) == CustomerEmail(customers, b);
      }
    }
    RefsKeptByKeptCustomers(customers, customers', users, sales, ns, interactions, ni);
  }

  /**
   * deleteCustomer: removes the row when it exists (a missing id is ignored);
   * the sales and interactions that referenced it lose their customer.
   */
  method DeleteCustomer(db: Crm, id: CustomerId)
    requires db.Valid()
    modifies db
    ensures db.Valid()
    ensures id !in old(db.customers) ==> unchanged(db)
    ensures id in old(db.customers) ==>
      && db.customers == old(db.customers) - {id}
      && db.sales == UnlinkSalesFromCustomer(old(db.sales), id)
      && db.interactions == UnlinkInteractionsFromCustomer(old(db.interactions), id)
      && db.users == old(db.users)
      && db.nextCustomerId == old(db.nextCustomerId) && db.nextUserId == old(db.nextUserId)
      && db.nextSaleId == old(db.nextSaleId) && db.nextInteractionId == old(db.nextInteractionId)
  {
    if id in db.customers {
      DeleteCustomerKeepsStore(db.customers, db.users, db.sales, db.interactions,
                               db.nextCustomerId, db.nextUserId, db.nextSaleId, db.nextInteractionId, id);
      db.customers := db.customers - {id};
      db.sales := UnlinkSalesFromCustomer(db.sales, id);
      db.interactions := UnlinkInteractionsFromCustomer(db.interactions, id);
    }
  }

  lemma DeleteCustomerKeepsStore(customers: map<CustomerId, Customer>, users: map<UserId, User>,
                                 sales: map<SaleId, Sale>, interactions: map<InteractionId, Interaction>,
                                 nc: nat, nu: nat, ns: nat, ni: nat, id: CustomerId)
    requires StoreOk(customers, users, sales, interactions, nc, nu, ns, ni)
    ensures StoreOk(customers - {id}, users, UnlinkSalesFromCustomer(sales, id),
                    UnlinkInteractionsFromCustomer(interactions, id), nc, nu, ns, ni)
  {
    var customers' := customers - {id};
    forall a, b | a in customers' && b in customers' && a != b
      ensures CustomerEmail(customers', a) != CustomerEmail(customers', b)
    {
      assert CustomerEmail(customers, a) != CustomerEmail(customers, b);
    }
  }

  /**
   * After deleteCustomer no sale or interaction refers to the customer, and
   * every other reference is as it was.
   */
  lemma DeleteCustomerUnlinks(sales: map<SaleId, Sale>, interactions: map<InteractionId, Interaction>, id: CustomerId)
    ensures UnlinkSalesFromCustomer(sales, id).Keys == sales.Keys
    ensures forall k :: k in sales ==>
      && UnlinkSalesFromCustomer(sales, id)[k].customer != Some(id)
      && (sales[k].customer != Some(id) ==> UnlinkSalesFromCustomer(sales, id)[k] == sales[k])
      && UnlinkSalesFromCustomer(sales, id)[k] == sales[k].(customer := UnlinkSalesFromCustomer(sales, id)[k].customer)
    ensures UnlinkInteractionsFromCustomer(interactions, id).Keys == interactions.Keys
    ensures forall k :: k in interactions ==>
      && UnlinkInteractionsFromCustomer(interactions, id)[k].customer != Some(id)
      && (interactions[k].customer != Some(id) ==> UnlinkInteractionsFromCustomer(interactions, id)[k] == interactions[k])
  {
  }

  /** getTotalCount: the repository's row count, which is the length of findAll. */
  function GetTotalCount(db: Crm): (r: nat)
    reads db
    requires db.Valid()
    ensures r == |db.AllCustomers()|
  {
    |db.customers|
  }

  /** findActiveCustomers: the ACTIVE customers, in id order. */
  function FindActiveCustomers(db: Crm): (r: seq<Customer>)
    reads db
    requires db.Valid()
    ensures forall c :: c in r <==> c in db.customers.Values && c.status == Active
    ensures |r| == |set k | k in db.customers && db.customers[k].status == Active|
  {
    ActiveCount(db.customers, db.nextCustomerId);
    Filter(db.AllCustomers(), IsActive)
  }

  /** The filter of findByStatus(ACTIVE). */
  function IsActive(c: Customer): bool {
    c.status == Active
  }

  /** The listing of the ACTIVE customers has one entry per stored ACTIVE customer. */
  lemma ActiveCount(customers: map<CustomerId, Customer>, next: nat)
    requires forall k :: k in customers ==> k < next
    ensures |Filter(InKeyOrder(customers, next), IsActive)| == |set k | k in customers && customers[k].status == Active|
  {
    FilterInKeyOrderLength(customers, next, IsActive);
    assert KeysWhere(customers, next, IsActive) == set k | k in customers && customers[k].status == Active;
  }

  /**
   * deactivateCustomer: an ACTIVE customer becomes INACTIVE and is stamped;
   * deactivating an INACTIVE customer fails.
   */
  method DeactivateCustomer(db: Crm, id: CustomerId, now: Timestamp) returns (r: Result<Customer>)
    requires db.Valid()
    modifies db
    ensures db.Valid()
    ensures r.Err? ==> unchanged(db)
    ensures id !in old(db.customers) <==> r == Err(CustomerNotFound)
    ensures id in old(db.customers) ==>
      && (old(db.customers)[id].status == Inactive <==> r == Err(AlreadyInactive))
      && (old(db.customers)[id].status == Active <==> r.Ok?)
      && (r.Ok? ==>
            && r.value == old(db.customers)[id].(status := Inactive, updatedAt := now)
            && db.customers == old(db.customers)[id := r.value])
    ensures r.Ok? ==>
      && db.users == old(db.users) && db.sales == old(db.sales) && db.interactions == old(db.interactions)
      && db.nextCustomerId == old(db.nextCustomerId) && db.nextUserId == old(db.nextUserId)
      && db.nextSaleId == old(db.nextSaleId) && db.nextInteractionId == old(db.nextInteractionId)
  {
    if id !in db.customers {
      return Err(CustomerNotFound);
    }
    var customer := db.customers[id];
    if customer.status == Inactive {
      return Err(AlreadyInactive);
    }
    customer := customer.(status := Inactive, updatedAt := now);
    CustomersOkAfterPut(db.customers, db.nextCustomerId, id, customer);
    RefsKeptByKeptCustomers(db.customers, db.customers[id := customer], db.users, db.sales, db.nextSaleId,
                               db.interactions, db.nextInteractionId);
    db.customers := db.customers[id := customer];
    r := Ok(customer);
  }

  /** A deactivated customer drops out of findActiveCustomers, and nobody else does. */
  lemma DeactivatedIsNotActive(db: Crm, id: CustomerId, before: map<CustomerId, Customer>, now: Timestamp)
    requires db.Valid() && id in before && before[id].status == Active
    requires db.customers == before[id := before[id].(status := Inactive, updatedAt := now)]
    ensures db.customers[id] !in FindActiveCustomers(db)
    ensures forall k :: k in before && k != id && before[k].status == Active ==> before[k] in FindActiveCustomers(db)
  {
    forall k | k in before && k != id && before[k].status == Active
      ensures before[k] in FindActiveCustomers(db)
    {
      assert db.customers[k] == before[k];
    }
  }
}
