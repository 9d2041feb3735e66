# CRM service layer in Dafny

This project models the service layer of a Spring Boot CRM backend. The backend keeps
customers, users (sales reps, managers, admins, support staff), sales and customer
interactions. The model covers five services:

- **SaleService** records, amends, deletes and re-statuses sales. Every amount that
  enters, changes or leaves keeps the owning customer's `totalPurchaseValue` in step.
- **CustomerService**, **UserService** and **CustomerInteractionService** handle creation
  with defaults, partial ("null means unchanged") updates, not-found and duplicate checks,
  status changes, the login check `validateUser`, and deletes.
- **ReportService** builds the dashboard, customer-activity and sales-trend reports from
  these pure pieces: revenue, the half-up average, latest-N and largest-N, group-by counts,
  the last activity date and the customer value grade.

The modules, one per file:

- `Domain` (domain.dfy): the entities as datatypes. Nullable Java fields are `Option`.
  Amounts are integers in hundredths. They are integers because `BigDecimal` arithmetic
  is exact. They are in hundredths because the amount and total columns (Sale.java:18-19,
  Customer.java:33) declare no scale, so the default `numeric(38,2)` column keeps two
  decimals, and the dashboard average is divided to two places. Timestamps are
  integers, with `MinTimestamp` standing for `LocalDateTime.MIN`. Service exceptions are an
  `Error` datatype inside a `Result`.
- `Store` (store.dfy): class `Crm` holds the four repositories as maps from id to record,
  plus the next IDENTITY value of each table. `Valid()` holds when:
  - every key is below its counter, and each record's id is its key;
  - every reference resolves (the schema sets references to NULL on delete);
  - the unique columns are unique: customer email; user name, email and password.
- `Ledger` (ledger.dfy): the purchase ledger. `Drift(c)` is customer `c`'s stored total
  minus the amounts of the sales that reference it. The sale operations keep every drift
  constant. It need not be zero: seed data and `updateCustomer` can set any total.
- `Collections` and `Sorting` (collections.dfy, sorting.dfy): sums over maps and sequences,
  the repository listing in id order, filtering, and the stable descending sort with
  `limit` that the streams perform.
- `SaleService`, `CustomerService`, `UserService`, `InteractionService`, `ReportService`:
  one module per service.

State-changing operations are methods on a `Crm` with `modifies db`. Each method states:

- its error cases;
- that an error leaves the store unchanged, because every service call is one transaction;
- its new state, in terms of specification functions (`Credit`, `PatchLedger`,
  `PatchedCustomer`, `PatchedUser`, `PatchedInteraction`, the `Unlink…` functions).

Value-level lemmas beside each method prove that the method keeps `Valid()` and the ledger
invariant. Lookups and reports are functions that read `db`.

Two behaviours of the code are easy to miss, and the model keeps both.
`addSale` never defaults a null sale date, so such a sale is refused (`NullSaleDate`).
`createCustomer` never initialises `totalPurchaseValue`, so a customer created without one
makes the next `addSale` or `deleteSale` on it fail (`NullTotal`). `updateSale` reads a
null total as zero.

## Model

| member | source | states |
|---|---|---|
| SaleService.AddSale | src/main/java/org/assignment/crm/service/SaleService.java:38-79 | An unknown customer gives CustomerNotFound. A null total gives NullTotal. An unknown rep gives UserNotFound. A null date gives NullSaleDate. It succeeds exactly when none of these holds, and any error leaves the store unchanged. On success the sale gets the next id, status COMPLETED when none is given, and `now` timestamps. The customer is credited with the amount whatever the status, and no other table or counter changes. |
| SaleService.AddSaleKeepsLedger | src/main/java/org/assignment/crm/service/SaleService.java:54-55 | Crediting the customer with a new sale's amount keeps every customer's drift, and raises the sum of all totals by exactly the amount. |
| SaleService.Reprice | src/main/java/org/assignment/crm/service/SaleService.java:155-176 | The amount step of updateSale: the sale's customer total becomes total − old + new, and that customer is stamped. No other customer changes. A sale without a customer fails. |
| SaleService.Reassign | src/main/java/org/assignment/crm/service/SaleService.java:187-218 | The customer step: a different customer takes the sale's current amount over from the old one. Moving to the same customer changes nothing. An unknown new customer gives CustomerNotFound. |
| SaleService.PatchLedger | src/main/java/org/assignment/crm/service/SaleService.java:152-218 | The amount step followed by the customer step. Every total moves by the change in what the sale contributes to it. Only the customers in LedgerTouched are rewritten. Errors are exactly a missing customer reference or an unknown new customer. |
| SaleService.UpdateSale | src/main/java/org/assignment/crm/service/SaleService.java:149-253 | A missing sale gives SaleNotFound. Then come the ledger errors, then an unknown new rep (UserNotFound), and each error leaves the store unchanged. Otherwise the customers are PatchLedger's result and the sale is the patch applied to the non-null fields. |
| SaleService.UpdateSaleKeepsLedger | src/main/java/org/assignment/crm/service/SaleService.java:155-218 | updateSale keeps every drift. The sum of all totals moves by new − old amount, so a pure reassignment leaves it unchanged. |
| Ledger.ReassignKeepsGrandTotal | src/main/java/org/assignment/crm/service/SaleService.java:187-218 | Moving an amount between two customers leaves the sum of all customer totals unchanged. |
| Ledger.DriftKeptByPut | src/main/java/org/assignment/crm/service/SaleService.java:155-218 | Storing a sale while every total moves by the change in that sale's contribution keeps every drift. |
| Ledger.DriftKeptByRemove | src/main/java/org/assignment/crm/service/SaleService.java:255-273 | Deleting a sale and debiting its customer keeps every drift, and lowers the sum of all totals by the amount. |
| Ledger.CreditMovesGrandTotal | src/main/java/org/assignment/crm/service/SaleService.java:54-55 | Crediting one customer moves the sum of all totals by the same delta. |
| Ledger.Credit | src/main/java/org/assignment/crm/service/SaleService.java:54-55 | Adds the delta to one customer's total, a null total counting as zero. Every other customer is unchanged. |
| SaleService.DeleteSale | src/main/java/org/assignment/crm/service/SaleService.java:255-273 | SaleNotFound exactly for a missing sale. NullTotal exactly when its customer has a null total. It succeeds in every other case, and an error leaves the store unchanged. On success the sale is removed, its customer is debited by its amount, and nothing else changes. |
| SaleService.DeleteUndoesAdd | src/main/java/org/assignment/crm/service/SaleService.java:255-264 | Deleting a freshly added sale restores every customer total and the sales table. |
| SaleService.ApplySaleStatus | src/main/java/org/assignment/crm/service/SaleService.java:299-318 | SaleNotFound exactly for a missing sale, and it succeeds exactly for a stored one. The status is overwritten with no guard. Only the sale's status and updatedAt change; the other tables and every id counter are kept. |
| SaleService.UpdateSaleStatus | src/main/java/org/assignment/crm/service/SaleService.java:294-297 | Any status may follow any other. It succeeds exactly for a stored sale, and only that sale's status and updatedAt change. |
| SaleService.MarkSaleAsCompleted | src/main/java/org/assignment/crm/service/SaleService.java:276-279 | Succeeds exactly for a stored sale and sets COMPLETED. Otherwise SaleNotFound. Only that sale's status and updatedAt change; the other tables and every id counter are kept. |
| SaleService.MarkSaleAsCanceled | src/main/java/org/assignment/crm/service/SaleService.java:282-285 | Succeeds exactly for a stored sale and sets CANCELED. Otherwise SaleNotFound. Only that sale's status and updatedAt change; the other tables and every id counter are kept. |
| SaleService.MarkSaleAsPending | src/main/java/org/assignment/crm/service/SaleService.java:288-291 | Succeeds exactly for a stored sale and sets PENDING. Otherwise SaleNotFound. Only that sale's status and updatedAt change; the other tables and every id counter are kept. |
| SaleService.GetSaleById | src/main/java/org/assignment/crm/service/SaleService.java:94-108 | The stored sale with that id, or SaleNotFound exactly when there is none. |
| SaleService.GetSaleByRepId | src/main/java/org/assignment/crm/service/SaleService.java:111-127 | UserNotFound exactly when the rep is unknown. Otherwise exactly the stored sales of that rep, one entry per such sale. |
| SaleService.GetSaleByCustomerId | src/main/java/org/assignment/crm/service/SaleService.java:130-146 | CustomerNotFound exactly when the customer is unknown. Otherwise exactly the stored sales of that customer, one entry per such sale. |
| SaleService.GetSalesByStatus | src/main/java/org/assignment/crm/service/SaleService.java:321-331 | Exactly the stored sales with that status, one entry per such sale. |
| SaleService.GetCompletedSales | src/main/java/org/assignment/crm/service/SaleService.java:334-352 | SaleNotFound exactly when no sale is COMPLETED. Otherwise a non-empty list of exactly those sales, one entry per sale. |
| SaleService.GetCanceledSales | src/main/java/org/assignment/crm/service/SaleService.java:355-373 | SaleNotFound exactly when no sale is CANCELED. Otherwise a non-empty list of exactly those sales, one entry per sale. |
| SaleService.GetSalesByRepId | src/main/java/org/assignment/crm/service/SaleService.java:376-378 | Exactly the stored sales of that rep, one entry per such sale, with no rep check. An unknown rep has none. |
| SaleService.RepSalesCount | src/main/java/org/assignment/crm/service/SaleService.java:376-378 | The listing of a rep's sales has exactly one entry per stored sale that names the rep. |
| SaleService.StatusSalesCount | src/main/java/org/assignment/crm/service/SaleService.java:321-331 | The listing of the sales in one status has exactly one entry per stored sale in that status. |
| Store.Crm.AllSales | src/main/java/org/assignment/crm/service/SaleService.java:81-91 | Lists exactly the stored sales, one entry per row. |
| Store.Crm.AllCustomers | src/main/java/org/assignment/crm/service/CustomerService.java:46-57 | Lists exactly the stored customers, one entry per row. |
| Store.Crm.AllUsers | src/main/java/org/assignment/crm/service/UserService.java:84-95 | Lists exactly the stored users, one entry per row. |
| Store.Crm.AllInteractions | src/main/java/org/assignment/crm/service/CustomerInteractionService.java:74-85 | Lists exactly the stored interactions, one entry per row. |
| CustomerService.CreateCustomer | src/main/java/org/assignment/crm/service/CustomerService.java:25-44 | DuplicateEmail exactly when the email is taken, with the store unchanged. Otherwise a new customer under the next id, status ACTIVE, both timestamps `now`. |
| CustomerService.FindById | src/main/java/org/assignment/crm/service/CustomerService.java:59-75 | Present exactly when the id is stored, and then it is that record. |
| CustomerService.FindByEmail | src/main/java/org/assignment/crm/service/CustomerService.java:77-93 | Present exactly when some customer has the email. The result is the only such customer. |
| CustomerService.PatchedCustomer | src/main/java/org/assignment/crm/service/CustomerService.java:99-138 | Id, company, address and createdAt are kept and updatedAt is `now`. Each of firstName, lastName, email, status, phoneNumber and totalPurchaseValue is kept when the patch leaves it null and replaced when the patch carries it; a carried total overwrites the stored one directly. An empty patch only restamps. |
| CustomerService.UpdateCustomer | src/main/java/org/assignment/crm/service/CustomerService.java:95-154 | CustomerNotFound exactly for a missing id. For a stored customer, DuplicateEmail exactly when the patch carries an email that another customer has, and success in every other case. Otherwise the patched record, including a directly overwritten total, is stored. |
| CustomerService.DeleteCustomer | src/main/java/org/assignment/crm/service/CustomerService.java:156-177 | A missing id changes nothing and raises nothing. Otherwise the customer is removed, and its sales and interactions lose their reference to it. |
| CustomerService.DeleteCustomerUnlinks | src/main/java/org/assignment/crm/service/CustomerService.java:156-177 | After the delete no sale or interaction references the customer. Every other field of every row is kept. |
| CustomerService.GetTotalCount | src/main/java/org/assignment/crm/service/CustomerService.java:179-190 | The count equals the length of the listing of all customers. |
| CustomerService.FindActiveCustomers | src/main/java/org/assignment/crm/service/CustomerService.java:192-205 | Exactly the stored customers whose status is ACTIVE, one entry per such customer. |
| CustomerService.ActiveCount | src/main/java/org/assignment/crm/service/CustomerService.java:192-205 | The listing of the ACTIVE customers has exactly one entry per stored ACTIVE customer. |
| CustomerService.DeactivateCustomer | src/main/java/org/assignment/crm/service/CustomerService.java:207-233 | CustomerNotFound exactly for a missing id. For a stored customer, success exactly when it is ACTIVE and AlreadyInactive exactly when it is INACTIVE, so a second call fails. On success the status becomes INACTIVE and updatedAt `now`. |
| CustomerService.DeactivatedIsNotActive | src/main/java/org/assignment/crm/service/CustomerService.java:207-233 | After a deactivation the customer is no longer among the active customers, and every other active customer still is. |
| UserService.CreateUser | src/main/java/org/assignment/crm/service/UserService.java:32-65 | A taken user name gives UserNameExists. Then an unknown manager is refused. Then a clash on the unique columns gives UserNameExists. Any error leaves the store unchanged. Otherwise: ACTIVE, the role defaults to SALES_REP only when null, and the password is stored encoded. |
| UserService.FindByUserName | src/main/java/org/assignment/crm/service/UserService.java:97-112 | Present exactly when the name is taken. The result is the only user with it. |
| UserService.PatchedUser | src/main/java/org/assignment/crm/service/UserService.java:135-173 | Id, user name, manager and createdAt are kept and updatedAt is `now`. Each of firstname, lastName, email, role and status is kept when the patch leaves it null and replaced when the patch carries it. The password changes only for a non-blank patch password, to its encoding. An empty patch only restamps. |
| UserService.BlankPasswordKeepsHash | src/main/java/org/assignment/crm/service/UserService.java:170-173 | A missing or blank patch password keeps the stored hash, whatever the encoder. |
| UserService.UpdateUser | src/main/java/org/assignment/crm/service/UserService.java:131-188 | UserNotFound exactly for a missing id. For a stored user, success exactly when the patched unique columns clash with no other user; a clash is refused and leaves the store unchanged. On success the patched user is stored. |
| UserService.DeleteUser | src/main/java/org/assignment/crm/service/UserService.java:190-207 | UserNotFound exactly for a missing id, success exactly for a stored one. On success the user is removed, and its reports, sales and interactions lose their reference to it. |
| UserService.DeleteUserUnlinks | src/main/java/org/assignment/crm/service/UserService.java:190-207 | After the delete no user, sale or interaction references the deleted user, and only that user's row is gone. |
| UserService.ValidateUser | src/main/java/org/assignment/crm/service/UserService.java:209-238 | True exactly when some user has the name, is ACTIVE, and the password matches its hash. |
| UserService.InactiveNeverValidates | src/main/java/org/assignment/crm/service/UserService.java:213-233 | A user who is not ACTIVE never validates, whatever the password matcher answers. |
| UserService.SetUserStatus | src/main/java/org/assignment/crm/service/UserService.java:240-288 | UserNotFound exactly for a missing id, success exactly for a stored one. The status is set with no already-in-state guard, and only status and updatedAt change. |
| UserService.ActivateUser | src/main/java/org/assignment/crm/service/UserService.java:240-263 | Succeeds exactly for a stored user and sets ACTIVE unconditionally. Otherwise UserNotFound. |
| UserService.DeactivateUser | src/main/java/org/assignment/crm/service/UserService.java:265-288 | Succeeds exactly for a stored user and sets INACTIVE unconditionally. Otherwise UserNotFound. |
| InteractionService.AddCustomerInteraction | src/main/java/org/assignment/crm/service/CustomerInteractionService.java:36-72 | CustomerNotFound exactly for an unknown customer, then UserNotFound for an unknown performer. It succeeds exactly when both exist. Then a null date becomes `now`, a null type EMAIL, and the interaction is stored under the next id. |
| InteractionService.PatchedInteractionFields | src/main/java/org/assignment/crm/service/CustomerInteractionService.java:165-201 | Each field changes exactly when the patch carries it. Id and createdTime are kept, and an empty patch only restamps. |
| InteractionService.UpdateCustomerInteraction | src/main/java/org/assignment/crm/service/CustomerInteractionService.java:161-217 | Not-found for a missing id, then CustomerNotFound for an unknown new customer, then UserNotFound for an unknown new performer, each with the store unchanged. For a stored interaction it succeeds exactly when every reference the patch carries resolves, and the patched interaction is stored. |
| InteractionService.DeleteCustomerInteraction | src/main/java/org/assignment/crm/service/CustomerInteractionService.java:219-238 | Not-found exactly for a missing id, success exactly for a stored one. On success exactly that interaction is removed. |
| InteractionService.GetRecentInteractions | src/main/java/org/assignment/crm/service/CustomerInteractionService.java:253-269 | A negative limit is refused. Otherwise min(limit, stored count) interactions, latest first, drawn without repetition from the stored ones (a sub-multiset of the listing). When there are at most `limit`, every stored interaction is in the result. None left out is later than one kept. |
| InteractionService.GetInteractionsByCustomerId | src/main/java/org/assignment/crm/service/CustomerInteractionService.java:106-125 | CustomerNotFound exactly for an unknown customer. Otherwise exactly its interactions, one entry per such interaction. |
| InteractionService.GetInteractionsByUserId | src/main/java/org/assignment/crm/service/CustomerInteractionService.java:127-146 | UserNotFound exactly for an unknown user. Otherwise exactly the interactions it performed, one entry per such interaction. |
| InteractionService.PerformerInteractionsCount | src/main/java/org/assignment/crm/service/CustomerInteractionService.java:127-146 | The listing of a user's interactions has exactly one entry per stored interaction it performed. |
| Sorting.SortDesc | src/main/java/org/assignment/crm/service/ReportService.java:178-184 | The sort is a permutation of its input, in non-increasing key order. |
| Sorting.SortDescIsStable | src/main/java/org/assignment/crm/service/ReportService.java:178-184 | Elements with equal keys keep their input order, as Stream.sorted promises. |
| Sorting.TopBy | src/main/java/org/assignment/crm/service/ReportService.java:322-328 | Sort then limit: exactly min(n, |xs|) elements, sorted, a sub-multiset of the input. |
| Sorting.TopBySelectsLargest | src/main/java/org/assignment/crm/service/ReportService.java:322-328 | No element left out has a larger key than an element kept. |
| Sorting.TopByOfPool | src/main/java/org/assignment/crm/service/ReportService.java:322-328 | For a listing of exactly a pool: the kept elements are in the pool, none left out outranks one kept, and the whole pool is kept when it fits. |
| Collections.SubMultisetOfSameSize | src/main/java/org/assignment/crm/service/ReportService.java:178-184 | A sub-multiset as long as the whole is the whole, so a limit that cuts nothing keeps every element. |
| ReportService.RevenueAppend | src/main/java/org/assignment/crm/service/ReportService.java:164-176 | Revenue is zero for no sales and additive over concatenation. |
| ReportService.RevenueIgnoresOrder | src/main/java/org/assignment/crm/service/ReportService.java:164-176 | Revenue is the same for any ordering of the same sales. |
| Collections.SumSeqIgnoresOrder | src/main/java/org/assignment/crm/service/ReportService.java:164-176 | A weighted sum is the same for any ordering of the same elements. |
| Collections.FilterInKeyOrderLength | src/main/java/org/assignment/crm/service/SaleService.java:130-146 | Filtering the id-order listing keeps exactly one entry per stored row that satisfies the filter. |
| Collections.FilterFilter | src/main/java/org/assignment/crm/service/ReportService.java:101-105 | Filtering by one predicate and then another is filtering once by their conjunction. |
| ReportService.DivideHalfUp | src/main/java/org/assignment/crm/service/ReportService.java:52-58 | The quotient is within half a unit of n/d, a tie rounds away from zero, and the sign is that of n. |
| ReportService.AverageSaleValue | src/main/java/org/assignment/crm/service/ReportService.java:52-58 | Absent exactly when there are no sales. Otherwise revenue ÷ count to hundredths, within half a hundredth; the tie rule is AverageRoundsHalfUp. |
| ReportService.AverageRoundsHalfUp | src/main/java/org/assignment/crm/service/ReportService.java:52-58 | The average is revenue ÷ count rounded half-up: within half a hundredth, and at an exact tie the neighbour further from zero, as ROUND_HALF_UP does. |
| ReportService.RecentSales | src/main/java/org/assignment/crm/service/ReportService.java:178-191 | Exactly min(limit, |sales|) sales from the input without repetition, latest first, and none left out is later than one kept. |
| ReportService.TopSales | src/main/java/org/assignment/crm/service/ReportService.java:322-335 | Exactly min(limit, |sales|) sales from the input without repetition, largest first, and none left out is larger than one kept. |
| ReportService.RecentInteractions | src/main/java/org/assignment/crm/service/ReportService.java:240-253 | Exactly min(limit, |interactions|) interactions from the input without repetition, latest first, and none left out is later than one kept. |
| ReportService.HasRecentActivity | src/main/java/org/assignment/crm/service/ReportService.java:208-222 | True exactly when the customer exists and has a sale strictly after `since`. A failing lookup counts as no activity. |
| ReportService.ActiveCustomers | src/main/java/org/assignment/crm/service/ReportService.java:193-206 | Exactly the number of stored customers with a sale strictly after `since` (ActiveCustomerIds). Hence never more than the number of customers, and zero exactly when no customer has recent activity. |
| ReportService.GroupCount | src/main/java/org/assignment/crm/service/ReportService.java:224-238 | A key is present exactly when it occurs, with its number of occurrences. |
| ReportService.GroupCountTotal | src/main/java/org/assignment/crm/service/ReportService.java:224-238 | The counts of a grouping add up to the input length. |
| ReportService.CountPositive | src/main/java/org/assignment/crm/service/ReportService.java:224-238 | A key has a positive count exactly when some element carries it. |
| ReportService.CountOfIsFilterLength | src/main/java/org/assignment/crm/service/ReportService.java:224-238 | The count grouped under a key equals the length of the sub-list filtered to that key. |
| ReportService.InteractionsByType | src/main/java/org/assignment/crm/service/ReportService.java:224-238 | The keys are exactly the occurring types. Each count is the number of interactions of that type, which is positive. The counts sum to the number of interactions. |
| ReportService.SalesByMonth | src/main/java/org/assignment/crm/service/ReportService.java:306-320 | The keys are exactly the occurring months. Each count is the number of sales in that month, which is positive. The counts sum to the number of sales. |
| ReportService.Latest | src/main/java/org/assignment/crm/service/ReportService.java:255-279 | The result is at least every date, and is MIN or one of the dates. |
| ReportService.LastActivity | src/main/java/org/assignment/crm/service/ReportService.java:255-279 | The result is at least every sale and interaction date, and is MIN or one of those dates. |
| ReportService.ValueOf | src/main/java/org/assignment/crm/service/ReportService.java:281-304 | HIGH exactly when revenue > 10000 and interactions > 5. LOW exactly when revenue ≤ 5000 and interactions ≤ 3. MEDIUM otherwise. |
| ReportService.ValueIsMonotone | src/main/java/org/assignment/crm/service/ReportService.java:281-304 | More revenue and more interactions never lower the grade. |
| ReportService.GetDashboardReport | src/main/java/org/assignment/crm/service/ReportService.java:31-76 | The counts equal the table sizes. The revenue is the sum of all amounts. The average is absent exactly without sales and otherwise within half a hundredth (the tie rule is DashboardAverageRoundsHalfUp). The recent sales are the five latest stored sales: exactly min(5, sale count) of them, a sub-multiset of the listing, every stored sale when there are at most five, latest first, and none left out is later than one kept. The active count is exactly the number of customers with a sale after `since`. |
| ReportService.DashboardAverageRoundsHalfUp | src/main/java/org/assignment/crm/service/ReportService.java:52-58 | The dashboard's averageSaleValue is totalRevenue ÷ totalSales rounded half-up, a tie away from zero. |
| ReportService.LatestStoredSales | src/main/java/org/assignment/crm/service/ReportService.java:60-61 | The recent sales of the dashboard: exactly min(limit, sale count) stored sales without repetition, all of them when there are few enough, latest first, and none left out is later than one kept. |
| ReportService.GetCustomerActivityReport | src/main/java/org/assignment/crm/service/ReportService.java:78-130 | Fails exactly for an unknown customer. The sales history is exactly its sales, and totalSales and totalInteractions are the numbers of its stored sales and interactions. The revenue is the ledger's Owned amount for it, and the type counts sum to totalInteractions (each count is in ActivityReportInteractions). The recent list holds exactly min(5, totalInteractions) of the customer's interactions as a sub-multiset of its listing, latest first. The last activity bounds its sale dates, and the grade is ValueOf of the totals. |
| ReportService.ActivityReportInteractions | src/main/java/org/assignment/crm/service/ReportService.java:101-108 | The type keys of the activity report are exactly the kinds of the customer's interactions, and each type's count is the number of the customer's stored interactions of that kind, which is positive. The recent interactions are the customer's, none of its interactions left out is later than one kept, and every one of them is kept when it has at most 5. |
| ReportService.CustomerKindCount | src/main/java/org/assignment/crm/service/ReportService.java:101-105 | The customer's interactions filtered by one kind are exactly as many as its stored interactions of that kind. |
| ReportService.ActivityReportLastActivity | src/main/java/org/assignment/crm/service/ReportService.java:113-114 | The last activity is at least every interaction date of the customer, and is MIN, one of its sale dates or one of its interaction dates. |
| SaleService.CustomerSalesCount | src/main/java/org/assignment/crm/service/SaleService.java:130-146 | The listing of a customer's sales has exactly one entry per stored sale that references it. |
| InteractionService.CustomerInteractionsCount | src/main/java/org/assignment/crm/service/CustomerInteractionService.java:106-125 | The listing of a customer's interactions has exactly one entry per stored interaction that concerns it. |
| ReportService.ReportRevenueMatchesLedger | src/main/java/org/assignment/crm/service/ReportService.java:78-130 | When a customer's drift is zero, the report's revenue equals its stored totalPurchaseValue. |
| ReportService.GetSalesTrendsReport | src/main/java/org/assignment/crm/service/ReportService.java:132-162 | totalSales is the sale count and the revenue is the sum of all amounts. A month is a key exactly when some sale falls in it, and its count is the number of stored sales in it, which is positive. The counts sum to the sale count. The top sales are the ten largest: exactly min(10, sale count) of them, a sub-multiset of the listing, every stored sale when there are at most ten, largest first, and none left out is larger. |
| ReportService.MonthCount | src/main/java/org/assignment/crm/service/ReportService.java:306-320 | The sales of one month in the listing are exactly as many as the stored sales dated in that month. |

## Left out

- Controllers, security configuration and role checks. They route HTTP requests to the services and add nothing to the service rules.
- Logging. It is observability only.
- The seed data initialiser. It only shows that a stored total need not match the customer's sales, which is why `Drift` is not required to be zero.
- Concurrency, transaction isolation and lazy loading. Each service call is one atomic step of the model.
- Password hashing. BCrypt's `encode` and `matches` are function parameters of `CreateUser`, `UpdateUser` and `ValidateUser`. Each call's `encode` stands for the salted encoder at that moment. BCrypt salts every hash, so in the source two users with the same raw password get different hashes and never clash on the unique `password` column. Passing one deterministic `encode` to two `CreateUser` calls with the same raw password makes the second fail with `UserNameExists`, which the source would not do.
- The clock. `now` is a parameter of every operation that stamps a record. The dashboard's "three months ago" is the parameter `since`. The month of a timestamp is the parameter `monthOf` of the sales-trend report.
- Null strings on required columns (customer first and last name and email; user name, email and password). These are `string` values, not `Option`, since the database would refuse a null. Optional text such as an interaction's notes is an `Option`.
- Null references and amounts on inputs. In `addSale` a null customer, sales rep or amount throws a NullPointerException (SaleService.java:48, 60, 54). In `addCustomerInteraction` a null customer or performer does the same (CustomerInteractionService.java:50, 53). The input types carry a plain id and amount, so these cases cannot be stated.
- The remaining interaction and user lookups: by id, by type, the interaction count, findById, findByEmail and findAll. They are repository reads with no rule beyond those modelled by the lookups above.
- UserService.CreateUser: reports an unknown manager as `UnknownManager`, raised before saving with the store unchanged. In the source the database refuses the foreign key with a DataIntegrityViolationException, and the first catch (UserService.java:55-57) turns that into `UserNameExists`. The model renames this case `UnknownManager` and checks it before the unique columns.
- SaleService.AddSale: reports an unknown customer as `CustomerNotFound` and an unknown sales rep as `UserNotFound`. The source throws a plain `RuntimeException` in both cases (SaleService.java:51, 63), not its CustomerNotFound or UserNotFound exceptions.
- UserService.UpdateUser: reports a unique-column clash as `UniqueViolation`. The source lets the database's constraint exception escape unchanged.
- ReportService.GetCustomerActivityReport: the unknown-customer case is the error `ReportCustomerMissing`. The source throws a plain `RuntimeException("Customer not found")`.
- ReportService.SalesByMonth: counts are unbounded naturals. The source narrows each `Long` count with `intValue`, which only matters past 2^31 sales in one month.
- SaleService.DeleteSale: requires that the sale references a customer. The source dereferences the reference unconditionally and would throw a NullPointerException otherwise.
- SaleService.UpdateSale: does not model the source's second lookup of the old customer in the amount branch. Both steps act on the same customer row, as the managed entity does in the source.
- Sub-hundredth amounts. An input amount with more than two decimals is added to the in-memory total at full precision and rounded only when the column stores it, which can shift a drift by a fraction of a cent. The model's amounts are whole hundredths, so it cannot express that.
- Sorting.SortDescIsStable: stability is stated key class by key class (WithKey), not as one "stable permutation" predicate.
