/**
 * The purchase ledger: each customer's stored totalPurchaseValue against the
 * sum of the amounts of the sales that reference it.
 *
 * The two need not agree (seed data and CustomerService.updateCustomer can set
 * any total), so the ledger's invariant is that sale operations never change
 * their difference, the customer's Drift.
 */
module Ledger {
  import opened Domain
  import opened Collections

  /** A customer's total as the sale operations read it: a null total counts as zero. */
  function TotalOf(c: Customer): Money {
    c.totalPurchaseValue.GetOr(0)
  }

  /** What sale `s` contributes to customer `c`'s total. */
  function Contrib(s: Sale, c: CustomerId): Money {
    if s.customer == Some(c) then s.amount else 0
  }

  function ContribTo(c: CustomerId): Sale -> Money {
    s => Contrib(s, c)
  }

  /** The sum of the amounts of the sales referencing customer `c`, whatever their status. */
  ghost function Owned(sales: map<SaleId, Sale>, c: CustomerId): Money {
    SumBy(sales, ContribTo(c))
  }

  /** A sale's amount, as the reports sum it. */
  function AmountOf(s: Sale): Money {
    s.amount
  }

  /** The sale references customer `c`: the filter of saleRepository.findSaleByCustomer_Id. */
  function BelongsTo(c: CustomerId): Sale -> bool {
    (s: Sale) => s.customer == Some(c)
  }

  /** Summing the amounts of the sales of `c` in a listing is summing every sale's contribution to `c`. */
  lemma {:induction false} ListedContrib(xs: seq<Sale>, c: CustomerId)
    ensures SumSeq(Filter(xs, BelongsTo(c)), AmountOf) == SumSeq(xs, ContribTo(c))
  {
    if xs != [] {
      var head := if BelongsTo(c)(xs[0]) then [xs[0]] else [];
      ListedContrib(xs[1..], c);
      SumSeqAppend(head, Filter(xs[1..], BelongsTo(c)), AmountOf);
      if head != [] {
        assert head[1..] == [];
      }
    }
  }

  /**
   * The revenue of a customer's sales, summed over the repository listing,
   * is the amount the ledger says the customer owns.
   */
  lemma OwnedByListing(sales: map<SaleId, Sale>, next: nat, c: CustomerId)
    requires forall k :: k in sales ==> k < next
    ensures SumSeq(Filter(InKeyOrder(sales, next), BelongsTo(c)), AmountOf) == Owned(sales, c)
  {
    ListedContrib(InKeyOrder(sales, next), c);
    SumSeqInKeyOrder(sales, next, ContribTo(c));
    assert Below(sales, next) == sales;
  }

  /** Stored total minus owned sales: what the sale operations keep constant. */
  ghost function Drift(customers: map<CustomerId, Customer>, sales: map<SaleId, Sale>, c: CustomerId): Money
    requires c in customers
  {
    TotalOf(customers[c]) - Owned(sales, c)
  }

  /** No customer of the first state loses its row or changes its drift in the second. */
  ghost predicate DriftKept(customers: map<CustomerId, Customer>, sales: map<SaleId, Sale>,
                            customers': map<CustomerId, Customer>, sales': map<SaleId, Sale>)
  {
    forall c {:trigger Drift(customers, sales, c)} :: c in customers ==> c in customers' && Drift(customers', sales', c) == Drift(customers, sales, c)
  }

  /** The sum of all customers' totals. */
  ghost function GrandTotal(customers: map<CustomerId, Customer>): Money {
    SumBy(customers, TotalOf)
  }

  /** Adds `delta` to customer `id`'s total, a null total counting as zero. */
  function Credit(customers: map<CustomerId, Customer>, id: CustomerId, delta: Money): (r: map<CustomerId, Customer>)
    requires id in customers
    ensures r.Keys == customers.Keys
    ensures TotalOf(r[id]) == TotalOf(customers[id]) + delta
    ensures forall c :: c in customers && c != id ==> r[c] == customers[c]
  {
    customers[id := customers[id].(totalPurchaseValue := Some(TotalOf(customers[id]) + delta))]
  }

  /** Crediting one customer moves the sum of all totals by the same delta. */
  lemma CreditMovesGrandTotal(customers: map<CustomerId, Customer>, id: CustomerId, delta: Money)
    requires id in customers
    ensures GrandTotal(Credit(customers, id, delta)) == GrandTotal(customers) + delta
  {
    SumByPut(customers, TotalOf, id, Credit(customers, id, delta)[id]);
  }

  /** Storing a sale under key `k` trades the old record's contribution for the new one's. */
  lemma OwnedAfterPut(sales: map<SaleId, Sale>, k: SaleId, s: Sale, c: CustomerId)
    ensures Owned(sales[k := s], c) == Owned(sales, c) - (if k in sales then Contrib(sales[k], c) else 0) + Contrib(s, c)
  {
    SumByPut(sales, ContribTo(c), k, s);
  }

  /** Removing a sale takes away exactly its contribution. */
  lemma OwnedAfterRemove(sales: map<SaleId, Sale>, k: SaleId, c: CustomerId)
    requires k in sales
    ensures Owned(sales - {k}, c) == Owned(sales, c) - Contrib(sales[k], c)
  {
    SumByRemove(sales, ContribTo(c), k);
  }

  /**
   * Ledger invariant for storing a sale (creation or update): if every
   * customer's total moves by the change in what that sale contributes to it,
   * no customer's drift changes.
   */
  lemma DriftKeptByPut(customers: map<CustomerId, Customer>, customers': map<CustomerId, Customer>,
                       sales: map<SaleId, Sale>, k: SaleId, s: Sale)
    requires customers'.Keys == customers.Keys
    requires forall c :: c in customers ==>
      TotalOf(customers'[c]) == TotalOf(customers[c]) - (if k in sales then Contrib(sales[k], c) else 0) + Contrib(s, c)
    ensures DriftKept(customers, sales, customers', sales[k := s])
  {
    forall c | c in customers
      ensures Drift(customers', sales[k := s], c) == Drift(customers, sales, c)
    {
      OwnedAfterPut(sales, k, s, c);
    }
  }

  /** Ledger invariant for deleting a sale whose amount is taken off its customer. */
  lemma DriftKeptByRemove(customers: map<CustomerId, Customer>, sales: map<SaleId, Sale>, k: SaleId)
    requires k in sales && sales[k].customer.Some? && sales[k].customer.value in customers
    ensures DriftKept(customers, sales, Credit(customers, sales[k].customer.value, -sales[k].amount), sales - {k})
    ensures GrandTotal(Credit(customers, sales[k].customer.value, -sales[k].amount)) == GrandTotal(customers) - sales[k].amount
  {
    CreditMovesGrandTotal(customers, sales[k].customer.value, -sales[k].amount);
    var customers' := Credit(customers, sales[k].customer.value, -sales[k].amount);
    forall c | c in customers
      ensures Drift(customers', sales - {k}, c) == Drift(customers, sales, c)
    {
      OwnedAfterRemove(sales, k, c);
    }
  }

  /** Changing at most two customers moves the grand total by exactly their changes. */
  lemma GrandTotalAfterTwo(customers: map<CustomerId, Customer>, customers': map<CustomerId, Customer>,
                           a: CustomerId, b: CustomerId)
    requires a in customers && b in customers && customers'.Keys == customers.Keys
    requires forall c :: c in customers && c != a && c != b ==> customers'[c] == customers[c]
    ensures GrandTotal(customers') == GrandTotal(customers)
      + (TotalOf(customers'[a]) - TotalOf(customers[a]))
      + (if a != b then TotalOf(customers'[b]) - TotalOf(customers[b]) else 0)
  {
    var mid := customers[a := customers'[a]];
    SumByPut(customers, TotalOf, a, customers'[a]);
    SumByPut(mid, TotalOf, b, customers'[b]);
    assert mid[b := customers'[b]] == customers';
  }

  /**
   * Moving an amount from one customer to another leaves the sum of all
   * customer totals unchanged.
   */
  lemma ReassignKeepsGrandTotal(customers: map<CustomerId, Customer>, customers': map<CustomerId, Customer>,
                                a: CustomerId, b: CustomerId)
    requires a in customers && b in customers && a != b && customers'.Keys == customers.Keys
    requires forall c :: c in customers && c != a && c != b ==> customers'[c] == customers[c]
    requires TotalOf(customers'[a]) + TotalOf(customers'[b]) == TotalOf(customers[a]) + TotalOf(customers[b])
    ensures GrandTotal(customers') == GrandTotal(customers)
  {
    GrandTotalAfterTwo(customers, customers', a, b);
  }
}
