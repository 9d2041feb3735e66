/**
 * Entities, enumerations, patches and errors of the CRM backend.
 *
 * Every persisted record is a value here; the repositories that hold them
 * are maps in module Store.  A nullable Java field becomes an `Option`.
 */
module Domain {

  type CustomerId = nat
  type UserId = nat
  type SaleId = nat
  type InteractionId = nat

  /** A BigDecimal amount, as an exact integer count of hundredths. */
  type Money = int

  /** LocalDateTime.MIN (-999999999-01-01T00:00) as seconds from the epoch. */
  const MinTimestamp: int := -31557014167219200

  /** A LocalDateTime as seconds from the epoch; nothing is earlier than MIN. */
  type Timestamp = t: int | MinTimestamp <= t witness MinTimestamp

  datatype Option<+T> = None | Some(value: T) {
    function GetOr(default: T): T {
      match this
      case Some(v) => v
      case None => default
    }
  }

  datatype CustomerStatus = Active | Inactive
  datatype UserRole = Admin | Manager | SalesRep | Support
  datatype UserStatus = UserActive | UserInactive
  datatype SaleStatus = Pending | Completed | Canceled
  datatype InteractionType = Call | Email | Meeting | SupportTicket

  datatype Customer = Customer(
    id: CustomerId,
    firstName: string,
    lastName: string,
    email: string,
    phoneNumber: Option<string>,
    company: Option<string>,
    address: Option<string>,
    status: CustomerStatus,
    totalPurchaseValue: Option<Money>,
    createdAt: Timestamp,
    updatedAt: Timestamp)

  datatype User = User(
    id: UserId,
    userName: string,
    email: string,
    password: string,
    firstname: Option<string>,
    lastName: Option<string>,
    role: UserRole,
    status: UserStatus,
    manager: Option<UserId>,
    createdAt: Timestamp,
    updatedAt: Timestamp)

  datatype Sale = Sale(
    id: SaleId,
    amount: Money,
    saleDate: Timestamp,
    status: SaleStatus,
    description: Option<string>,
    customer: Option<CustomerId>,
    salesRep: Option<UserId>,
    createdAt: Timestamp,
    updatedAt: Timestamp)

  datatype Interaction = Interaction(
    id: InteractionId,
    kind: InteractionType,
    interactionDate: Timestamp,
    notes: Option<string>,
    customer: Option<CustomerId>,
    performedBy: Option<UserId>,
    createdTime: Timestamp,
    updateTime: Timestamp)

  /** The request body of a sale creation: the references are ids to resolve. */
  datatype SaleInput = SaleInput(
    amount: Money,
    saleDate: Option<Timestamp>,
    status: Option<SaleStatus>,
    description: Option<string>,
    customer: CustomerId,
    salesRep: UserId)

  /** A partial sale update: `None` leaves the stored field as it is. */
  datatype SalePatch = SalePatch(
    amount: Option<Money>,
    status: Option<SaleStatus>,
    customer: Option<CustomerId>,
    salesRep: Option<UserId>,
    description: Option<string>,
    saleDate: Option<Timestamp>)

  datatype CustomerInput = CustomerInput(
    firstName: string,
    lastName: string,
    email: string,
    phoneNumber: Option<string>,
    company: Option<string>,
    address: Option<string>,
    totalPurchaseValue: Option<Money>)

  datatype CustomerPatch = CustomerPatch(
    firstName: Option<string>,
    lastName: Option<string>,
    email: Option<string>,
    status: Option<CustomerStatus>,
    phoneNumber: Option<string>,
    totalPurchaseValue: Option<Money>)

  datatype UserInput = UserInput(
    userName: string,
    email: string,
    password: string,
    firstname: Option<string>,
    lastName: Option<string>,
    role: Option<UserRole>,
    manager: Option<UserId>)

  datatype UserPatch = UserPatch(
    firstname: Option<string>,
    lastName: Option<string>,
    email: Option<string>,
    role: Option<UserRole>,
    status: Option<UserStatus>,
    password: Option<string>)

  datatype InteractionInput = InteractionInput(
    kind: Option<InteractionType>,
    interactionDate: Option<Timestamp>,
    notes: Option<string>,
    customer: CustomerId,
    performedBy: UserId)

  datatype InteractionPatch = InteractionPatch(
    kind: Option<InteractionType>,
    notes: Option<string>,
    interactionDate: Option<Timestamp>,
    customer: Option<CustomerId>,
    performedBy: Option<UserId>)

  /** What a service call throws; a thrown call leaves the store as it was. */
  datatype Error =
    | SaleNotFound
    | CustomerNotFound
    | UserNotFound
    | InteractionNotFound
    | UserNameExists
    | AlreadyInactive
    | MissingCustomerReference   // IllegalStateException: the sale has no customer
    | NullTotal                  // NullPointerException on a null totalPurchaseValue
    | NullSaleDate               // the non-nullable sale_date column rejects the insert
    | DuplicateEmail             // the unique email column rejects the write
    | UniqueViolation            // a unique column of the user table rejects the update
    | UnknownManager             // the manager_id foreign key rejects the insert
    | NegativeLimit              // Stream.limit rejects a negative size
    | ReportCustomerMissing      // the activity report's RuntimeException for an unknown customer

  datatype Result<+T> = Ok(value: T) | Err(error: Error)

  /** String.trim().isEmpty(): trim drops every character up to U+0020. */
  predicate IsBlank(s: string) {
    forall i :: 0 <= i < |s| ==> s[i] <= ' '
  }
}
