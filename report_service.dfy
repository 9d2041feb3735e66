/**
 * ReportService: read-only aggregates over the store: revenue sums, the
 * half-up average, latest and largest sales, per-key counts, the last
 * activity date and the customer value grade, assembled into the dashboard,
 * customer activity and sales trend reports.
 *
 * The clock enters as parameters: `since` is now minus three months, and
 * `monthOf` is LocalDateTime.getMonth.
 */
module ReportService {
  import opened Domain
  import opened Collections
  import opened Sorting
  import opened Ledger
  import opened Store
  import SaleService
  import InteractionService

  /** calculateTotalRevenue: BigDecimal.ZERO plus every amount, front to back. */
  function Revenue(sales: seq<Sale>): Money {
    SumSeq(sales, AmountOf)
  }

  /** Revenue is additive over concatenation, and zero for no sales. */
  lemma RevenueAppend(xs: seq<Sale>, ys: seq<Sale>)
    ensures Revenue(xs + ys) == Revenue(xs) + Revenue(ys)
    ensures Revenue([]) == 0
  {
    SumSeqAppend(xs, ys, AmountOf);
  }

  /** Revenue does not depend on the order the sales are listed in. */
  lemma {:induction false} RevenueIgnoresOrder(xs: seq<Sale>, ys: seq<Sale>)
    requires multiset(xs) == multiset(ys)
    ensures Revenue(xs) == Revenue(ys)
  {
    SumSeqIgnoresOrder(xs, ys, AmountOf);
  }

  function Abs(x: int): nat {
    if x < 0 then -x else x
  }

  /**
   * `q` is `n / d` rounded to the nearest integer, a tie rounded away from
   * zero: ROUND_HALF_UP.
   */
  predicate RoundsHalfUp(n: int, d: int, q: int) {
    && 2 * Abs(n - q * d) <= d
    && (2 * Abs(n - q * d) == d ==> Abs(q * d) > Abs(n))
  }

  /**
   * BigDecimal.divide(d, 2, ROUND_HALF_UP) on an amount in hundredths: the
   * quotient in hundredths nearest to n / d, a tie rounded away from zero.
   */
  function DivideHalfUp(n: int, d: int): (q: int)
    requires d > 0
    ensures 2 * Abs(n - q * d) <= d
    ensures 2 * Abs(n - q * d) == d ==> Abs(q * d) > Abs(n)
    ensures n >= 0 ==> q >= 0
    ensures n <= 0 ==> q <= 0
  {
    var m: int := HalfUpMagnitude(Abs(n), d);
    if n < 0 then -m else m
  }

  /** Rounds a / d to the nearest natural number, a tie upwards. */
  function HalfUpMagnitude(a: nat, d: int): (m: nat)
    requires d > 0
    ensures 2 * m * d <= 2 * a + d < 2 * m * d + 2 * d
  {
    var m := (2 * a + d) / (2 * d);
    assert 2 * a + d == (2 * d) * m + (2 * a + d) % (2 * d);
    m
  }

  /** The averageSaleValue of the dashboard: absent for no sales. */
  function AverageSaleValue(sales: seq<Sale>): (r: Option<Money>)
    ensures r.None? <==> sales == []
    ensures r.Some? ==> 2 * Abs(Revenue(sales) - r.value * |sales|) <= |sales|
  {
    if sales == [] then None else Some(DivideHalfUp(Revenue(sales), |sales|))
  }

  /** The average rounds half-up: at an exact tie it is the neighbour further from zero. */
  lemma AverageRoundsHalfUp(sales: seq<Sale>)
    ensures AverageSaleValue(sales).Some? ==> RoundsHalfUp(Revenue(sales), |sales|, AverageSaleValue(sales).value)
  {
    if sales != [] {
      var q := DivideHalfUp(Revenue(sales), |sales|);
      assert RoundsHalfUp(Revenue(sales), |sales|, q);
    }
  }

  /** The sort key of getRecentSales. */
  function SaleDate(s: Sale): int {
    s.saleDate
  }

  /** getRecentSales: the `limit` latest sales, latest first. */
  function RecentSales(sales: seq<Sale>, limit: nat): (r: seq<Sale>)
    ensures |r| == if limit < |sales| then limit else |sales|
    ensures SortedDesc(r, SaleDate)
    ensures multiset(r) <= multiset(sales)
    ensures forall x, y :: x in sales && x !in r && y in r ==> SaleDate(x) <= SaleDate(y)
  {
    TopBySelectsLargest(sales, SaleDate, limit);
    TopBy(sales, SaleDate, limit)
  }

  /** getTopSales: the `limit` largest sales, largest first. */
  function TopSales(sales: seq<Sale>, limit: nat): (r: seq<Sale>)
    ensures |r| == if limit < |sales| then limit else |sales|
    ensures SortedDesc(r, AmountOf)
    ensures multiset(r) <= multiset(sales)
    ensures forall x, y :: x in sales && x !in r && y in r ==> AmountOf(x) <= AmountOf(y)
  {
    TopBySelectsLargest(sales, AmountOf, limit);
    TopBy(sales, AmountOf, limit)
  }

  /** The recent-interactions list of the activity report. */
  function RecentInteractions(interactions: seq<Interaction>, limit: nat): (r: seq<Interaction>)
    ensures |r| == if limit < |interactions| then limit else |interactions|
    ensures SortedDesc(r, InteractionService.InteractionDate)
    ensures multiset(r) <= multiset(interactions)
    ensures forall x, y :: x in interactions && x !in r && y in r ==> InteractionService.InteractionDate(x) <= InteractionService.InteractionDate(y)
  {
    TopBySelectsLargest(interactions, InteractionService.InteractionDate, limit);
    TopBy(interactions, InteractionService.InteractionDate, limit)
  }

  /** The customer has a sale dated strictly after `since`. */
  predicate SoldSince(sales: map<SaleId, Sale>, c: CustomerId, since: int) {
    exists k :: k in sales && sales[k].customer == Some(c) && sales[k].saleDate > since
  }

  /**
   * hasRecentActivity: some sale of the customer is after `since`; a lookup
   * that fails counts as no activity.
   */
  function HasRecentActivity(db: Crm, c: Customer, since: int): (r: bool)
    reads db
    requires db.Valid()
    ensures r <==> c.id in db.customers && SoldSince(db.sales, c.id, since)
  {
    match SaleService.GetSaleByCustomerId(db, c.id)
    case Err(_) => false
    case Ok(sales) =>
      var recent := Filter(sales, (s: Sale) => s.saleDate > since);
      assert SoldSince(db.sales, c.id, since) ==> recent != [] by {
        if SoldSince(db.sales, c.id, since) {
          var k :| k in db.sales && db.sales[k].customer == Some(c.id) && db.sales[k].saleDate > since;
          assert db.sales[k] in recent;
        }
      }
      assert recent != [] ==> SoldSince(db.sales, c.id, since) by {
        if recent != [] {
          assert recent[0] in recent;
          var k :| k in db.sales && db.sales[k] == recent[0];
        }
      }
      recent != []
  }

  /** The ids of the customers with recent activity. */
  function ActiveCustomerIds(db: Crm, since: int): set<CustomerId>
    reads db
    requires db.Valid()
  {
    set k | k in db.customers && HasRecentActivity(db, db.customers[k], since)
  }

  /** getActiveCustomers: how many stored customers have a sale after `since`. */
  function ActiveCustomers(db: Crm, since: int): (r: nat)
    reads db
    requires db.Valid()
    ensures r == |ActiveCustomerIds(db, since)|
    ensures r <= |db.customers|
    ensures r == 0 <==> forall c :: c in db.customers.Values ==> !HasRecentActivity(db, c, since)
  {
    var customers, sales := db.customers, db.sales;
    var p := (c: Customer) => c.id in customers && SoldSince(sales, c.id, since);
    var active := Filter(db.AllCustomers(), p);
    assert active == [] || active[0] in active;
    FilterInKeyOrderLength(customers, db.nextCustomerId, p);
    assert KeysWhere(customers, db.nextCustomerId, p) == ActiveCustomerIds(db, since);
    |active|
  }

  /** How many elements of `xs` have key `k`. */
  function CountOf<T, K(==, !new)>(xs: seq<T>, key: T -> K, k: K): nat {
    if xs == [] then 0 else (if key(xs[0]) == k then 1 else 0) + CountOf(xs[1..], key, k)
  }

  /** Collectors.groupingBy(key, counting()): each key that occurs, with its number of occurrences. */
  function GroupCount<T, K(==, !new)>(xs: seq<T>, key: T -> K): (r: map<K, nat>)
    ensures forall k :: k in r <==> CountOf(xs, key, k) > 0
    ensures forall k :: k in r ==> r[k] == CountOf(xs, key, k)
  {
    if xs == [] then map[]
    else
      var m := GroupCount(xs[1..], key);
      var k := key(xs[0]);
      m[k := (if k in m then m[k] else 0) + 1]
  }

  function CountWeight(n: nat): int {
    n
  }

  /** The counts of a grouping add up to the number of elements grouped. */
  lemma {:induction false} GroupCountTotal<T, K(!new)>(xs: seq<T>, key: T -> K)
    ensures SumBy(GroupCount(xs, key), CountWeight) == |xs|
  {
    if xs != [] {
      var m := GroupCount(xs[1..], key);
      var k := key(xs[0]);
      GroupCountTotal(xs[1..], key);
      SumByPut(m, CountWeight, k, (if k in m then m[k] else 0) + 1);
    }
  }

  /** CountOf, for a predicate that picks out one key, is the length of the filter by it. */
  lemma {:induction false} CountOfIsFilterLength<T(!new), K(!new)>(xs: seq<T>, key: T -> K, k: K, p: T -> bool)
    requires forall x :: p(x) <==> key(x) == k
    ensures CountOf(xs, key, k) == |Filter(xs, p)|
  {
    if xs != [] {
      CountOfIsFilterLength(xs[1..], key, k, p);
    }
  }

  /** The grouping key of groupInteractionsByType. */
  function KindOf(i: Interaction): InteractionType {
    i.kind
  }

  function OfKind(t: InteractionType): Interaction -> bool {
    (i: Interaction) => i.kind == t
  }

  /** groupInteractionsByType. */
  function InteractionsByType(interactions: seq<Interaction>): (r: map<InteractionType, nat>)
    ensures forall t :: t in r <==> exists i :: i in interactions && i.kind == t
    ensures forall t :: t in r ==> r[t] == |Filter(interactions, OfKind(t))| > 0
    ensures SumBy(r, CountWeight) == |interactions|
  {
    var r := GroupCount(interactions, KindOf);
    GroupCountTotal(interactions, KindOf);
    CountPositive(interactions, KindOf);
    forall t | t in r
      ensures r[t] == |Filter(interactions, OfKind(t))|
    {
      CountOfIsFilterLength(interactions, KindOf, t, OfKind(t));
    }
    r
  }

  /** A key is counted exactly when some element carries it. */
  lemma {:induction false} CountPositive<T, K(!new)>(xs: seq<T>, key: T -> K)
    ensures forall k :: CountOf(xs, key, k) > 0 <==> exists x :: x in xs && key(x) == k
  {
    if xs != [] {
      CountPositive(xs[1..], key);
      assert forall x :: x in xs <==> x == xs[0] || x in xs[1..];
    }
  }

  datatype Month = January | February | March | April | May | June
                 | July | August | September | October | November | December

  /** groupSalesByMonth, with the month of a sale date given by `monthOf`. */
  function SalesByMonth(sales: seq<Sale>, monthOf: Timestamp -> Month): (r: map<Month, nat>)
    ensures forall mo :: mo in r <==> exists s :: s in sales && monthOf(s.saleDate) == mo
    ensures forall mo :: mo in r ==> r[mo] == |Filter(sales, InMonth(monthOf, mo))| > 0
    ensures SumBy(r, CountWeight) == |sales|
  {
    var r := GroupCount(sales, MonthKey(monthOf));
    GroupCountTotal(sales, MonthKey(monthOf));
    CountPositive(sales, MonthKey(monthOf));
    forall mo | mo in r
      ensures r[mo] == |Filter(sales, InMonth(monthOf, mo))|
    {
      CountOfIsFilterLength(sales, MonthKey(monthOf), mo, InMonth(monthOf, mo));
    }
    r
  }

  /** The grouping key of groupSalesByMonth. */
  function MonthKey(monthOf: Timestamp -> Month): Sale -> Month {
    (s: Sale) => monthOf(s.saleDate)
  }

  function InMonth(monthOf: Timestamp -> Month, mo: Month): Sale -> bool {
    (s: Sale) => monthOf(s.saleDate) == mo
  }

  /** The stream max of some dates, or LocalDateTime.MIN when there are none. */
  function Latest(dates: seq<Timestamp>): (r: Timestamp)
    ensures forall i :: 0 <= i < |dates| ==> dates[i] <= r
    ensures r == MinTimestamp || r in dates
  {
    if dates == [] then MinTimestamp
    else
      var rest := Latest(dates[1..]);
      if dates[0] >= rest then dates[0] else rest
  }

  function SaleDates(sales: seq<Sale>): seq<Timestamp> {
    seq(|sales|, i requires 0 <= i < |sales| => sales[i].saleDate)
  }

  function InteractionDates(interactions: seq<Interaction>): seq<Timestamp> {
    seq(|interactions|, i requires 0 <= i < |interactions| => interactions[i].interactionDate)
  }

  /**
   * getLastActivityDate: the later of the latest sale date and the latest
   * interaction date, MIN when both lists are empty.
   */
  function LastActivity(sales: seq<Sale>, interactions: seq<Interaction>): (r: Timestamp)
    ensures forall s :: s in sales ==> s.saleDate <= r
    ensures forall i :: i in interactions ==> i.interactionDate <= r
    ensures || r == MinTimestamp
            || (exists s :: s in sales && s.saleDate == r)
            || (exists i :: i in interactions && i.interactionDate == r)
  {
    var saleDates := SaleDates(sales);
    var interactionDates := InteractionDates(interactions);
    var lastSale := Latest(saleDates);
    var lastInteraction := Latest(interactionDates);
    assert forall s :: s in sales ==> s.saleDate <= lastSale by {
      forall s | s in sales ensures s.saleDate <= lastSale {
        var i :| 0 <= i < |sales| && sales[i] == s;
        assert saleDates[i] == s.saleDate;
      }
    }
    assert forall x :: x in interactions ==> x.interactionDate <= lastInteraction by {
      forall x | x in interactions ensures x.interactionDate <= lastInteraction {
        var i :| 0 <= i < |interactions| && interactions[i] == x;
        assert interactionDates[i] == x.interactionDate;
      }
    }
    if lastSale > lastInteraction then
      assert lastSale != MinTimestamp;
      var i :| 0 <= i < |saleDates| && saleDates[i] == lastSale;
      assert sales[i] in sales;
      lastSale
    else
      if lastInteraction != MinTimestamp then
        var i :| 0 <= i < |interactionDates| && interactionDates[i] == lastInteraction;
        assert interactions[i] in interactions;
        lastInteraction
      else
        lastInteraction
  }

  datatype CustomerValue = HighValue | MediumValue | LowValue

  /** 10000 and 5000, in hundredths. */
  const HighRevenue: Money := 1000000
  const MediumRevenue: Money := 500000

  /** calculateCustomerValue, from the revenue and the number of interactions. */
  function ValueOf(revenue: Money, engagement: nat): (v: CustomerValue)
    ensures v == HighValue <==> revenue > HighRevenue && engagement > 5
    ensures v == LowValue <==> revenue <= MediumRevenue && engagement <= 3
  {
    if revenue > HighRevenue && engagement > 5 then HighValue
    else if revenue > MediumRevenue || engagement > 3 then MediumValue
    else LowValue
  }

  function Rank(v: CustomerValue): nat {
    match v
    case LowValue => 0
    case MediumValue => 1
    case HighValue => 2
  }

  /** More revenue and more interactions never lower the grade. */
  lemma ValueIsMonotone(revenue: Money, engagement: nat, revenue': Money, engagement': nat)
    requires revenue <= revenue' && engagement <= engagement'
    ensures Rank(ValueOf(revenue, engagement)) <= Rank(ValueOf(revenue', engagement'))
  {
  }

  datatype Dashboard = Dashboard(
    totalCustomers: nat,
    totalSales: nat,
    totalInteractions: nat,
    totalRevenue: Money,
    averageSaleValue: Option<Money>,
    recentSales: seq<Sale>,
    activeCustomers: nat)

  /** getDashboardReport. */
  function GetDashboardReport(db: Crm, since: int): (r: Dashboard)
    reads db
    requires db.Valid()
    ensures r.totalCustomers == |db.customers| && r.totalSales == |db.sales|
    ensures r.totalInteractions == |db.interactions|
    ensures r.totalRevenue == SumBy(db.sales, AmountOf)
    ensures r.averageSaleValue.None? <==> r.totalSales == 0
    ensures r.averageSaleValue.Some? ==>
      2 * Abs(r.totalRevenue - r.averageSaleValue.value * r.totalSales) <= r.totalSales
    ensures |r.recentSales| == if 5 < |db.sales| then 5 else |db.sales|
    ensures SortedDesc(r.recentSales, SaleDate)
    ensures multiset(r.recentSales) <= multiset(db.AllSales())
    ensures |db.sales| <= 5 ==> forall s :: s in db.sales.Values ==> s in r.recentSales
    ensures forall s :: s in r.recentSales ==> s in db.sales.Values
    ensures forall x, y :: x in db.sales.Values && x !in r.recentSales && y in r.recentSales ==> SaleDate(x) <= SaleDate(y)
    ensures r.activeCustomers == |ActiveCustomerIds(db, since)|
    ensures r.activeCustomers <= r.totalCustomers
  {
    var sales := db.AllSales();
    SumListing(db.sales, db.nextSaleId, AmountOf);
    var recent := LatestStoredSales(db, 5);
    Dashboard(|db.AllCustomers()|, |sales|, |db.AllInteractions()|, Revenue(sales),
              AverageSaleValue(sales), recent, ActiveCustomers(db, since))
  }

  /** The dashboard's recent sales: getRecentSales over every stored sale. */
  function LatestStoredSales(db: Crm, limit: nat): (r: seq<Sale>)
    reads db
    requires db.Valid()
    ensures |r| == if limit < |db.sales| then limit else |db.sales|
    ensures SortedDesc(r, SaleDate)
    ensures multiset(r) <= multiset(db.AllSales())
    ensures |db.sales| <= limit ==> forall s :: s in db.sales.Values ==> s in r
    ensures forall s :: s in r ==> s in db.sales.Values
    ensures forall x, y :: x in db.sales.Values && x !in r && y in r ==> SaleDate(x) <= SaleDate(y)
  {
    var sales := db.AllSales();
    TopByOfPool(sales, db.sales.Values, SaleDate, limit);
    RecentSales(sales, limit)
  }

  /** The dashboard's average is the revenue per sale rounded half-up, a tie away from zero. */
  lemma DashboardAverageRoundsHalfUp(db: Crm, since: int)
    requires db.Valid()
    ensures var r := GetDashboardReport(db, since);
      r.averageSaleValue.Some? ==> RoundsHalfUp(r.totalRevenue, r.totalSales, r.averageSaleValue.value)
  {
    AverageRoundsHalfUp(db.AllSales());
  }

  datatype ActivityReport = ActivityReport(
    customer: Customer,
    totalSales: nat,
    totalRevenue: Money,
    salesHistory: seq<Sale>,
    totalInteractions: nat,
    interactionsByType: map<InteractionType, nat>,
    recentInteractions: seq<Interaction>,
    lastActivity: Timestamp,
    customerValue: CustomerValue)

  /** The activity report assembled from one customer's sale and interaction listings. */
  function AssembleActivity(c: Customer, sales: seq<Sale>, interactions: seq<Interaction>): (a: ActivityReport)
    ensures a.customer == c && a.salesHistory == sales && a.totalSales == |sales|
    ensures a.totalRevenue == Revenue(sales) && a.totalInteractions == |interactions|
    ensures a.totalInteractions == SumBy(a.interactionsByType, CountWeight)
    ensures a.interactionsByType == InteractionsByType(interactions)
    ensures forall t :: t in a.interactionsByType <==> exists i :: i in interactions && i.kind == t
    ensures |a.recentInteractions| == if 5 < |interactions| then 5 else |interactions|
    ensures SortedDesc(a.recentInteractions, InteractionService.InteractionDate)
    ensures multiset(a.recentInteractions) <= multiset(interactions)
    ensures forall x, y :: x in interactions && x !in a.recentInteractions && y in a.recentInteractions
                           ==> InteractionService.InteractionDate(x) <= InteractionService.InteractionDate(y)
    ensures forall s :: s in sales ==> s.saleDate <= a.lastActivity
    ensures forall i :: i in interactions ==> i.interactionDate <= a.lastActivity
    ensures || a.lastActivity == MinTimestamp
            || (exists s :: s in sales && s.saleDate == a.lastActivity)
            || (exists i :: i in interactions && i.interactionDate == a.lastActivity)
    ensures a.customerValue == ValueOf(a.totalRevenue, a.totalInteractions)
  {
    var revenue := Revenue(sales);
    ActivityReport(c, |sales|, revenue, sales, |interactions|, InteractionsByType(interactions),
                   RecentInteractions(interactions, 5), LastActivity(sales, interactions),
                   ValueOf(revenue, |interactions|))
  }

  /**
   * getCustomerActivityReport: an unknown customer fails; otherwise its sales,
   * their revenue, its interactions by type, the five latest, the last
   * activity and the value grade.
   */
  function GetCustomerActivityReport(db: Crm, cid: CustomerId): (r: Result<ActivityReport>)
    reads db
    requires db.Valid()
    ensures r.Err? <==> cid !in db.customers
    ensures r.Err? ==> r.error == ReportCustomerMissing
    ensures r.Ok? ==>
      var a := r.value;
      && a.customer == db.customers[cid]
      && (forall s :: s in a.salesHistory <==> s in db.sales.Values && s.customer == Some(cid))
      && a.totalSales == |a.salesHistory|
      && a.totalSales == |set k | k in db.sales && db.sales[k].customer == Some(cid)|
      && a.totalRevenue == Owned(db.sales, cid)
      && a.totalInteractions == |set k | k in db.interactions && db.interactions[k].customer == Some(cid)|
      && a.totalInteractions == SumBy(a.interactionsByType, CountWeight)
      && |a.recentInteractions| == (if 5 < a.totalInteractions then 5 else a.totalInteractions)
      && multiset(a.recentInteractions) <= multiset(InteractionService.GetInteractionsByCustomerId(db, cid).value)
      && SortedDesc(a.recentInteractions, InteractionService.InteractionDate)
      && (forall s :: s in a.salesHistory ==> s.saleDate <= a.lastActivity)
      && a.customerValue == ValueOf(a.totalRevenue, a.totalInteractions)
  {
    if cid !in db.customers then Err(ReportCustomerMissing)
    else
      var sales := SaleService.GetSaleByCustomerId(db, cid).value;
      var interactions := InteractionService.GetInteractionsByCustomerId(db, cid).value;
      OwnedByListing(db.sales, db.nextSaleId, cid);
      Ok(AssembleActivity(db.customers[cid], sales, interactions))
  }

  /**
   * The interaction side of the activity report: the type keys are exactly
   * the kinds of the customer's interactions and the recent list holds the
   * customer's latest interactions.
   */
  lemma ActivityReportInteractions(db: Crm, cid: CustomerId)
    requires db.Valid() && cid in db.customers
    ensures var a := GetCustomerActivityReport(db, cid).value;
      && (forall t :: t in a.interactionsByType <==>
            exists i :: i in db.interactions.Values && i.customer == Some(cid) && i.kind == t)
      && (forall i :: i in a.recentInteractions ==> i in db.interactions.Values && i.customer == Some(cid))
      && (forall x, y :: x in db.interactions.Values && x.customer == Some(cid) && x !in a.recentInteractions
                         && y in a.recentInteractions
                         ==> InteractionService.InteractionDate(x) <= InteractionService.InteractionDate(y))
      && (a.totalInteractions <= 5 ==>
            forall i :: i in db.interactions.Values && i.customer == Some(cid) ==> i in a.recentInteractions)
      && (forall t :: t in a.interactionsByType ==>
            a.interactionsByType[t]
            == |set k | k in db.interactions && db.interactions[k].customer == Some(cid) && db.interactions[k].kind == t|
            > 0)
  {
    var interactions := InteractionService.GetInteractionsByCustomerId(db, cid).value;
    var a := GetCustomerActivityReport(db, cid).value;
    assert forall i :: i in a.recentInteractions ==> i in interactions by {
      forall i | i in a.recentInteractions ensures i in interactions {
        assert multiset(a.recentInteractions)[i] > 0;
      }
    }
    SubMultisetOfSameSize(a.recentInteractions, interactions);
    forall t | t in a.interactionsByType
      ensures a.interactionsByType[t]
           == |set k | k in db.interactions && db.interactions[k].customer == Some(cid) && db.interactions[k].kind == t|
    {
      CustomerKindCount(db.interactions, db.nextInteractionId, cid, t);
    }
  }

  /** Of the customer and of kind `t`: the two filters of the activity report, taken together. */
  function OfCustomerAndKind(cid: CustomerId, t: InteractionType): Interaction -> bool {
    (i: Interaction) => i.customer == Some(cid) && i.kind == t
  }

  /** A customer's interactions of one kind: one per stored interaction of the customer with that kind. */
  lemma CustomerKindCount(interactions: map<InteractionId, Interaction>, next: nat, cid: CustomerId, t: InteractionType)
    requires forall k :: k in interactions ==> k < next
    ensures |Filter(Filter(InKeyOrder(interactions, next), InteractionService.AboutCustomer(cid)), OfKind(t))|
         == |set k | k in interactions && interactions[k].customer == Some(cid) && interactions[k].kind == t|
  {
    FilterFilter(InKeyOrder(interactions, next), InteractionService.AboutCustomer(cid), OfKind(t), OfCustomerAndKind(cid, t));
    FilterInKeyOrderLength(interactions, next, OfCustomerAndKind(cid, t));
    CustomerKindKeys(interactions, next, cid, t);
  }

  /** The keys of the customer's interactions of kind `t`, written out as a set. */
  lemma CustomerKindKeys(interactions: map<InteractionId, Interaction>, next: nat, cid: CustomerId, t: InteractionType)
    requires forall k :: k in interactions ==> k < next
    ensures KeysWhere(interactions, next, OfCustomerAndKind(cid, t))
         == set k | k in interactions && interactions[k].customer == Some(cid) && interactions[k].kind == t
  {
  }

  /**
   * The last activity of the report is the latest date among the customer's
   * sales and interactions, MIN when it has neither.
   */
  lemma ActivityReportLastActivity(db: Crm, cid: CustomerId)
    requires db.Valid() && cid in db.customers
    ensures var a := GetCustomerActivityReport(db, cid).value;
      && (forall i :: i in db.interactions.Values && i.customer == Some(cid) ==> i.interactionDate <= a.lastActivity)
      && (|| a.lastActivity == MinTimestamp
          || (exists s :: s in a.salesHistory && s.saleDate == a.lastActivity)
          || (exists i :: i in db.interactions.Values && i.customer == Some(cid) && i.interactionDate == a.lastActivity))
  {
    var interactions := InteractionService.GetInteractionsByCustomerId(db, cid).value;
    assert forall i :: i in interactions <==> i in db.interactions.Values && i.customer == Some(cid);
  }

  /** The sales of one month: one per stored sale whose date falls in it. */
  lemma MonthCount(sales: map<SaleId, Sale>, next: nat, monthOf: Timestamp -> Month, mo: Month)
    requires forall k :: k in sales ==> k < next
    ensures |Filter(InKeyOrder(sales, next), InMonth(monthOf, mo))|
         == |set k | k in sales && monthOf(sales[k].saleDate) == mo|
  {
    FilterInKeyOrderLength(sales, next, InMonth(monthOf, mo));
    assert KeysWhere(sales, next, InMonth(monthOf, mo)) == set k | k in sales && monthOf(sales[k].saleDate) == mo;
  }

  /** Where a customer's ledger drift is zero, the activity report's revenue is its stored total. */
  lemma ReportRevenueMatchesLedger(db: Crm, cid: CustomerId)
    requires db.Valid() && cid in db.customers && Drift(db.customers, db.sales, cid) == 0
    ensures GetCustomerActivityReport(db, cid).Ok?
    ensures GetCustomerActivityReport(db, cid).value.totalRevenue == TotalOf(db.customers[cid])
  {
  }

  datatype SalesTrends = SalesTrends(
    totalSales: nat,
    totalRevenue: Money,
    salesByMonth: map<Month, nat>,
    topSales: seq<Sale>)

  /** getSalesTrendsReport. */
  function GetSalesTrendsReport(db: Crm, monthOf: Timestamp -> Month): (r: SalesTrends)
    reads db
    requires db.Valid()
    ensures r.totalSales == |db.sales|
    ensures r.totalRevenue == SumBy(db.sales, AmountOf)
    ensures SumBy(r.salesByMonth, CountWeight) == r.totalSales
    ensures forall mo :: mo in r.salesByMonth <==> exists s :: s in db.sales.Values && monthOf(s.saleDate) == mo
    ensures forall mo :: mo in r.salesByMonth ==>
      r.salesByMonth[mo] == |set k | k in db.sales && monthOf(db.sales[k].saleDate) == mo| > 0
    ensures |r.topSales| == if 10 < |db.sales| then 10 else |db.sales|
    ensures SortedDesc(r.topSales, AmountOf)
    ensures multiset(r.topSales) <= multiset(db.AllSales())
    ensures |db.sales| <= 10 ==> forall s :: s in db.sales.Values ==> s in r.topSales
    ensures forall s :: s in r.topSales ==> s in db.sales.Values
    ensures forall x, y :: x in db.sales.Values && x !in r.topSales && y in r.topSales ==> AmountOf(x) <= AmountOf(y)
  {
    var sales := db.AllSales();
    SumListing(db.sales, db.nextSaleId, AmountOf);
    var top := TopSales(sales, 10);
    TopByOfPool(sales, db.sales.Values, AmountOf, 10);
    var byMonth := SalesByMonth(sales, monthOf);
    forall mo | mo in byMonth
      ensures byMonth[mo] == |set k | k in db.sales && monthOf(db.sales[k].saleDate) == mo|
    {
      MonthCount(db.sales, db.nextSaleId, monthOf, mo);
    }
    SalesTrends(|sales|, Revenue(sales), byMonth, top)
  }
}
