/**
 * The four JPA repositories as one in-memory store: a map per entity from id
 * to record, plus the next IDENTITY value of each table.
 *
 * Valid() holds what the database schema guarantees: keys below the IDENTITY
 * counters, every reference resolving (each foreign key is ON DELETE SET NULL),
 * and the unique columns (customer email; user name, email and password).
 */
module Store {
  import opened Domain
  import opened Collections

  /** A nullable reference is null or names a stored row. */
  predicate Resolves<V>(ref: Option<nat>, m: map<nat, V>) {
    ref.Some? ==> ref.value in m
  }

  /**
   * The unique columns are compared only through these accessors, so that the
   * uniqueness invariants are consulted where a proof names them and not at
   * every record update.
   */
  function CustomerEmail(customers: map<CustomerId, Customer>, k: CustomerId): string
    requires k in customers
  {
    customers[k].email
  }

  /** users.user_name, users.email and users.password, the user table's unique columns. */
  function UserColumns(users: map<UserId, User>, k: UserId): (string, string, string)
    requires k in users
  {
    (users[k].userName, users[k].email, users[k].password)
  }

  predicate UniqueColumnsDiffer(x: (string, string, string), y: (string, string, string)) {
    x.0 != y.0 && x.1 != y.1 && x.2 != y.2
  }

  ghost predicate CustomersOk(customers: map<CustomerId, Customer>, next: nat) {
    && (forall k :: k in customers ==> k < next && customers[k].id == k)
    && (forall a, b {:trigger CustomerEmail(customers, a), CustomerEmail(customers, b)} ::
          a in customers && b in customers && a != b ==> CustomerEmail(customers, a) != CustomerEmail(customers, b))
  }

  ghost predicate UsersOk(users: map<UserId, User>, next: nat) {
    && (forall k :: k in users ==> k < next && users[k].id == k && Resolves(users[k].manager, users))
    && (forall a, b {:trigger UserColumns(users, a), UserColumns(users, b)} ::
          a in users && b in users && a != b ==> UniqueColumnsDiffer(UserColumns(users, a), UserColumns(users, b)))
  }

  ghost predicate SalesOk(sales: map<SaleId, Sale>, next: nat,
                          customers: map<CustomerId, Customer>, users: map<UserId, User>) {
    forall k :: k in sales ==>
      && k < next && sales[k].id == k
      && Resolves(sales[k].customer, customers)
      && Resolves(sales[k].salesRep, users)
  }

  ghost predicate InteractionsOk(interactions: map<InteractionId, Interaction>, next: nat,
                                 customers: map<CustomerId, Customer>, users: map<UserId, User>) {
    forall k :: k in interactions ==>
      && k < next && interactions[k].id == k
      && Resolves(interactions[k].customer, customers)
      && Resolves(interactions[k].performedBy, users)
  }

  /** Another customer than `except` already uses `email`. */
  predicate EmailTaken(customers: map<CustomerId, Customer>, email: string, except: Option<CustomerId>) {
    exists k :: k in customers && Some(k) != except && customers[k].email == email
  }

  /** ON DELETE SET NULL for sale_details.customer_id. */
  function UnlinkSalesFromCustomer(sales: map<SaleId, Sale>, id: CustomerId): map<SaleId, Sale> {
    map k | k in sales :: if sales[k].customer == Some(id) then sales[k].(customer := None) else sales[k]
  }

  /** ON DELETE SET NULL for customer_interactions.customer_id. */
  function UnlinkInteractionsFromCustomer(interactions: map<InteractionId, Interaction>, id: CustomerId)
    : map<InteractionId, Interaction>
  {
    map k | k in interactions ::
      if interactions[k].customer == Some(id) then interactions[k].(customer := None) else interactions[k]
  }

  /** ON DELETE SET NULL for sale_details.sales_rep_id. */
  function UnlinkSalesFromUser(sales: map<SaleId, Sale>, id: UserId): map<SaleId, Sale> {
    map k | k in sales :: if sales[k].salesRep == Some(id) then sales[k].(salesRep := None) else sales[k]
  }

  /** ON DELETE SET NULL for customer_interactions.user_id. */
  function UnlinkInteractionsFromUser(interactions: map<InteractionId, Interaction>, id: UserId)
    : map<InteractionId, Interaction>
  {
    map k | k in interactions ::
      if interactions[k].performedBy == Some(id) then interactions[k].(performedBy := None) else interactions[k]
  }

  /** ON DELETE SET NULL for users.manager_id. */
  function UnlinkManager(users: map<UserId, User>, id: UserId): map<UserId, User> {
    map k | k in users :: if users[k].manager == Some(id) then users[k].(manager := None) else users[k]
  }

  /** The schema's guarantees over a whole store state. */
  ghost predicate StoreOk(customers: map<CustomerId, Customer>, users: map<UserId, User>,
                          sales: map<SaleId, Sale>, interactions: map<InteractionId, Interaction>,
                          nextCustomer: nat, nextUser: nat, nextSale: nat, nextInteraction: nat)
  {
    && CustomersOk(customers, nextCustomer)
    && UsersOk(users, nextUser)
    && SalesOk(sales, nextSale, customers, users)
    && InteractionsOk(interactions, nextInteraction, customers, users)
  }

  /** Rewriting one customer keeps its id and email unique columns intact. */
  lemma CustomersOkAfterPut(customers: map<CustomerId, Customer>, next: nat, id: CustomerId, c: Customer)
    requires CustomersOk(customers, next) && id in customers
    requires c.id == id && c.email == customers[id].email
    ensures CustomersOk(customers[id := c], next)
  {
    var customers' := customers[id := c];
    forall a, b | a in customers' && b in customers' && a != b
      ensures CustomerEmail(customers', a) != CustomerEmail(customers', b)
    {
      assert CustomerEmail(customers', a) == CustomerEmail(customers, a);
      assert CustomerEmail(customers', b) == CustomerEmail(customers, b);
    }
  }

  /** Rewriting customers' totals and timestamps keeps the key, id and email columns intact. */
  lemma CustomersOkAfterRestamp(customers: map<CustomerId, Customer>, customers': map<CustomerId, Customer>, next: nat)
    requires CustomersOk(customers, next) && customers'.Keys == customers.Keys
    requires forall c :: c in customers ==> customers'[c].id == customers[c].id && customers'[c].email == customers[c].email
    ensures CustomersOk(customers', next)
  {
    forall a, b | a in customers' && b in customers' && a != b
      ensures CustomerEmail(customers', a) != CustomerEmail(customers', b)
    {
      assert CustomerEmail(customers', a) == CustomerEmail(customers, a);
      assert CustomerEmail(customers', b) == CustomerEmail(customers, b);
    }
  }

  /** References into a customer table stay resolved while none of its keys is removed. */
  lemma RefsKeptByKeptCustomers(customers: map<CustomerId, Customer>, customers': map<CustomerId, Customer>,
                                   users: map<UserId, User>,
                                   sales: map<SaleId, Sale>, nextSale: nat,
                                   interactions: map<InteractionId, Interaction>, nextInteraction: nat)
    requires customers.Keys <= customers'.Keys
    requires SalesOk(sales, nextSale, customers, users)
    requires InteractionsOk(interactions, nextInteraction, customers, users)
    ensures SalesOk(sales, nextSale, customers', users)
    ensures InteractionsOk(interactions, nextInteraction, customers', users)
  {
    assert forall k :: k in sales ==> Resolves(sales[k].customer, customers');
    assert forall k :: k in interactions ==> Resolves(interactions[k].customer, customers');
  }

  /** References into a user table stay resolved while none of its keys is removed. */
  lemma RefsKeptByKeptUsers(customers: map<CustomerId, Customer>,
                            users: map<UserId, User>, users': map<UserId, User>,
                            sales: map<SaleId, Sale>, nextSale: nat,
                            interactions: map<InteractionId, Interaction>, nextInteraction: nat)
    requires users.Keys <= users'.Keys
    requires SalesOk(sales, nextSale, customers, users)
    requires InteractionsOk(interactions, nextInteraction, customers, users)
    ensures SalesOk(sales, nextSale, customers, users')
    ensures InteractionsOk(interactions, nextInteraction, customers, users')
  {
    assert forall k :: k in sales ==> Resolves(sales[k].salesRep, users');
    assert forall k :: k in interactions ==> Resolves(interactions[k].performedBy, users');
  }

  /** Storing a sale whose id is its key and whose references resolve. */
  lemma SalesOkAfterPut(sales: map<SaleId, Sale>, next: nat, next': nat,
                        customers: map<CustomerId, Customer>, users: map<UserId, User>, s: Sale)
    requires SalesOk(sales, next, customers, users) && next <= next' && s.id < next'
    requires Resolves(s.customer, customers) && Resolves(s.salesRep, users)
    ensures SalesOk(sales[s.id := s], next', customers, users)
  {
  }

  /** Storing an interaction whose id is its key and whose references resolve. */
  lemma InteractionsOkAfterPut(interactions: map<InteractionId, Interaction>, next: nat, next': nat,
                               customers: map<CustomerId, Customer>, users: map<UserId, User>, i: Interaction)
    requires InteractionsOk(interactions, next, customers, users) && next <= next' && i.id < next'
    requires Resolves(i.customer, customers) && Resolves(i.performedBy, users)
    ensures InteractionsOk(interactions[i.id := i], next', customers, users)
  {
  }

  class Crm {
    var customers: map<CustomerId, Customer>
    var users: map<UserId, User>
    var sales: map<SaleId, Sale>
    var interactions: map<InteractionId, Interaction>
    var nextCustomerId: nat
    var nextUserId: nat
    var nextSaleId: nat
    var nextInteractionId: nat

    ghost predicate Valid()
      reads this
    {
      StoreOk(customers, users, sales, interactions, nextCustomerId, nextUserId, nextSaleId, nextInteractionId)
    }

    constructor ()
      ensures Valid()
      ensures customers == map[] && users == map[] && sales == map[] && interactions == map[]
    {
      customers, users, sales, interactions := map[], map[], map[], map[];
      nextCustomerId, nextUserId, nextSaleId, nextInteractionId := 0, 0, 0, 0;
    }

    /** customerRepository.findAll(): every stored customer, in id order. */
    function AllCustomers(): (r: seq<Customer>)
      reads this
      requires Valid()
      ensures forall c :: c in r <==> c in customers.Values
      ensures |r| == |customers|
    {
      InKeyOrderLength(customers, nextCustomerId);
      assert KeysBelow(customers, nextCustomerId) == customers.Keys;
      InKeyOrder(customers, nextCustomerId)
    }

    /** userRepository.findAll(): every stored user, in id order. */
    function AllUsers(): (r: seq<User>)
      reads this
      requires Valid()
      ensures forall u :: u in r <==> u in users.Values
      ensures |r| == |users|
    {
      InKeyOrderLength(users, nextUserId);
      assert KeysBelow(users, nextUserId) == users.Keys;
      InKeyOrder(users, nextUserId)
    }

    /** saleRepository.findAll(): every stored sale, in id order. */
    function AllSales(): (r: seq<Sale>)
      reads this
      requires Valid()
      ensures forall s :: s in r <==> s in sales.Values
      ensures |r| == |sales|
    {
      InKeyOrderLength(sales, nextSaleId);
      assert KeysBelow(sales, nextSaleId) == sales.Keys;
      InKeyOrder(sales, nextSaleId)
    }

    /** customerInteractionRepository.findAll(): every stored interaction, in id order. */
    function AllInteractions(): (r: seq<Interaction>)
      reads this
      requires Valid()
      ensures forall i :: i in r <==> i in interactions.Values
      ensures |r| == |interactions|
    {
      InKeyOrderLength(interactions, nextInteractionId);
      assert KeysBelow(interactions, nextInteractionId) == interactions.Keys;
      InKeyOrder(interactions, nextInteractionId)
    }
  }
}
