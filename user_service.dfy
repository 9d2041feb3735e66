/**
 * UserService: application users, their unique columns (user name, email,
 * password hash), their ACTIVE/INACTIVE status and the login check.
 *
 * The password encoder is a parameter: `encode` hashes a raw password and
 * `matches(raw, hash)` checks one against a stored hash.
 */
module UserService {
  import opened Domain
  import opened Collections
  import opened Store

  /** Some user other than `except` already holds one of the unique column values `cols`. */
  predicate ClashesWith(users: map<UserId, User>, cols: (string, string, string), except: Option<UserId>) {
    exists k :: k in users && Some(k) != except &&
      (users[k].userName == cols.0 || users[k].email == cols.1 || users[k].password == cols.2)
  }

  predicate UserNameTaken(users: map<UserId, User>, userName: string) {
    exists k :: k in users && users[k].userName == userName
  }

  /** Storing user `u` under its own id: its manager resolves and its unique columns clash with nobody else. */
  lemma UserPutKeepsStore(customers: map<CustomerId, Customer>, users: map<UserId, User>,
                          sales: map<SaleId, Sale>, interactions: map<InteractionId, Interaction>,
                          nc: nat, nu: nat, ns: nat, ni: nat, u: User)
    requires StoreOk(customers, users, sales, interactions, nc, nu, ns, ni)
    requires u.id < nu && Resolves(u.manager, users)
    requires u.id in users ==> users[u.id].id == u.id
    requires (u.id in users && (u.userName, u.email, u.password) == UserColumns(users, u.id))
          || !ClashesWith(users, (u.userName, u.email, u.password), Some(u.id))
    ensures StoreOk(customers, users[u.id := u], sales, interactions, nc, nu, ns, ni)
  {
    var users' := users[u.id := u];
    forall a, b | a in users' && b in users' && a != b
      ensures UniqueColumnsDiffer(UserColumns(users', a), UserColumns(users', b))
    {
      if (u.id in users && (u.userName, u.email, u.password) == UserColumns(users, u.id)) || (a != u.id && b != u.id) {
        assert UserColumns(users', a) == UserColumns(users, a);
        assert UserColumns(users', b) == UserColumns(users, b);
      }
    }
    RefsKeptByKeptUsers(customers, users, users', sales, ns, interactions, ni);
  }

  /**
   * createUser: a taken user name is refused before anything is written; the
   * password is stored hashed, the status forced to ACTIVE, the role defaults
   * to SALES_REP. A violation of the other unique columns at insert is
   * reported as UserNameExists too.
   */
  method CreateUser(db: Crm, input: UserInput, encode: string -> string, now: Timestamp) returns (r: Result<User>)
    requires db.Valid()
    modifies db
    ensures db.Valid()
    ensures r.Err? ==> unchanged(db)
    ensures UserNameTaken(old(db.users), input.userName) ==> r == Err(UserNameExists)
    ensures (!UserNameTaken(old(db.users), input.userName) && !Resolves(input.manager, old(db.users)))
            ==> r == Err(UnknownManager)
    ensures (Resolves(input.manager, old(db.users))
             && ClashesWith(old(db.users), (input.userName, input.email, encode(input.password)), None))
            ==> r == Err(UserNameExists)
    ensures r.Ok? <==> Resolves(input.manager, old(db.users))
                       && !ClashesWith(old(db.users), (input.userName, input.email, encode(input.password)), None)
    ensures r.Ok? ==>
      && r.value == User(old(db.nextUserId), input.userName, input.email, encode(input.password),
                         input.firstname, input.lastName, input.role.GetOr(SalesRep), UserActive,
                         input.manager, now, now)
      && db.users == old(db.users)[r.value.id := r.value]
      && db.nextUserId == old(db.nextUserId) + 1
      && db.customers == old(db.customers) && db.sales == old(db.sales) && db.interactions == old(db.interactions)
      && db.nextCustomerId == old(db.nextCustomerId) && db.nextSaleId == old(db.nextSaleId)
      && db.nextInteractionId == old(db.nextInteractionId)
  {
    if UserNameTaken(db.users, input.userName) {
      return Err(UserNameExists);
    }
    if !Resolves(input.manager, db.users) {
      return Err(UnknownManager);
    }
    var user := User(db.nextUserId, input.userName, input.email, encode(input.password),
                     input.firstname, input.lastName, input.role.GetOr(SalesRep), UserActive,
                     input.manager, now, now);
    if ClashesWith(db.users, (user.userName, user.email, user.password), None) {
      return Err(UserNameExists);
    }
    UserPutKeepsStore(db.customers, db.users, db.sales, db.interactions,
                      db.nextCustomerId, db.nextUserId + 1, db.nextSaleId, db.nextInteractionId, user);
    db.users := db.users[user.id := user];
    db.nextUserId := db.nextUserId + 1;
    r := Ok(user);
  }

  /** findByUserName: the user name column is unique, so at most one user matches. */
  function FindByUserName(db: Crm, userName: string): (r: Option<User>)
    reads db
    requires db.Valid()
    ensures r.Some? <==> UserNameTaken(db.users, userName)
    ensures r.Some? ==> r.value in db.users.Values && r.value.userName == userName
    ensures r.Some? ==> forall k :: k in db.users && db.users[k].userName == userName ==> db.users[k] == r.value
  {
    var matching := Filter(db.AllUsers(), (u: User) => u.userName == userName);
    if matching == [] then
      assert forall k :: k in db.users ==> db.users[k].userName != userName by {
        forall k | k in db.users
          ensures db.users[k].userName != userName
        {
          assert db.users[k] in db.AllUsers();
        }
      }
      None
    else
      var found := matching[0];
      assert found in matching;
      assert forall k :: k in db.users && db.users[k].userName == userName ==> db.users[k] == found by {
        var j :| j in db.users && db.users[j] == found;
        forall k | k in db.users && db.users[k].userName == userName
          ensures db.users[k] == found
        {
          assert UserColumns(db.users, k).0 == UserColumns(db.users, j).0;
        }
      }
      Some(found)
  }

  /** The record updateUser stores: non-null fields replace the stored ones; a blank password is ignored. */
  function PatchedUser(u: User, patch: UserPatch, encode: string -> string, now: Timestamp): (r: User)
    ensures r.id == u.id && r.userName == u.userName && r.manager == u.manager && r.createdAt == u.createdAt
    ensures r.updatedAt == now
    ensures r.password == (if patch.password.Some? && !IsBlank(patch.password.value)
                           then encode(patch.password.value) else u.password)
    ensures patch.firstname.None? ==> r.firstname == u.firstname
    ensures patch.firstname.Some? ==> r.firstname == patch.firstname
    ensures patch.lastName.None? ==> r.lastName == u.lastName
    ensures patch.lastName.Some? ==> r.lastName == patch.lastName
    ensures patch.email.None? ==> r.email == u.email
    ensures patch.email.Some? ==> r.email == patch.email.value
    ensures patch.role.None? ==> r.role == u.role
    ensures patch.role.Some? ==> r.role == patch.role.value
    ensures patch.status.None? ==> r.status == u.status
    ensures patch.status.Some? ==> r.status == patch.status.value
    ensures patch == UserPatch(None, None, None, None, None, None) ==> r == u.(updatedAt := now)
  {
    u.(firstname := if patch.firstname.Some? then patch.firstname else u.firstname,
       lastName := if patch.lastName.Some? then patch.lastName else u.lastName,
       email := patch.email.GetOr(u.email),
       role := patch.role.GetOr(u.role),
       status := patch.status.GetOr(u.status),
       password := if patch.password.Some? && !IsBlank(patch.password.value)
                   then encode(patch.password.value) else u.password,
       updatedAt := now)
  }

  /**
   * updateUser: patches the stored user; the save fails when the new email or
   * password hash is another user's.
   */
  method UpdateUser(db: Crm, id: UserId, patch: UserPatch, encode: string -> string, now: Timestamp)
    returns (r: Result<User>)
    requires db.Valid()
    modifies db
    ensures db.Valid()
    ensures r.Err? ==> unchanged(db)
    ensures id !in old(db.users) <==> r == Err(UserNotFound)
    ensures id in old(db.users) ==>
      var u := PatchedUser(old(db.users)[id], patch, encode, now);
      && (ClashesWith(old(db.users), (u.userName, u.email, u.password), Some(id)) <==> r == Err(UniqueViolation))
      && (!ClashesWith(old(db.users), (u.userName, u.email, u.password), Some(id)) <==> r.Ok?)
      && (r.Ok? ==> r.value == u && db.users == old(db.users)[id := u])
    ensures r.Ok? ==>
      && db.customers == old(db.customers) && db.sales == old(db.sales) && db.interactions == old(db.interactions)
      && db.nextCustomerId == old(db.nextCustomerId) && db.nextUserId == old(db.nextUserId)
      && db.nextSaleId == old(db.nextSaleId) && db.nextInteractionId == old(db.nextInteractionId)
  {
    if id !in db.users {
      return Err(UserNotFound);
    }
    var user := PatchedUser(db.users[id], patch, encode, now);
    if ClashesWith(db.users, (user.userName, user.email, user.password), Some(id)) {
      return Err(UniqueViolation);
    }
    UserPutKeepsStore(db.customers, db.users, db.sales, db.interactions,
                      db.nextCustomerId, db.nextUserId, db.nextSaleId, db.nextInteractionId, user);
    db.users := db.users[id := user];
    r := Ok(user);
  }

  /** An update without a usable password keeps the stored hash, whatever the encoder. */
  lemma BlankPasswordKeepsHash(u: User, patch: UserPatch, encode: string -> string, now: Timestamp)
    requires patch.password.None? || IsBlank(patch.password.value)
    ensures PatchedUser(u, patch, encode, now).password == u.password
    ensures forall encode' :: PatchedUser(u, patch, encode', now) == PatchedUser(u, patch, encode, now)
  {
  }

  /**
   * deleteUser: a missing id is refused; otherwise the row goes, and the
   * sales, interactions and users that referenced it lose that reference.
   */
  method DeleteUser(db: Crm, id: UserId) returns (r: Result<()>)
    requires db.Valid()
    modifies db
    ensures db.Valid()
    ensures r.Err? ==> unchanged(db)
    ensures id !in old(db.users) <==> r == Err(UserNotFound)
    ensures id in old(db.users) <==> r.Ok?
    ensures r.Ok? ==>
      && db.users == UnlinkManager(old(db.users) - {id}, id)
      && db.sales == UnlinkSalesFromUser(old(db.sales), id)
      && db.interactions == UnlinkInteractionsFromUser(old(db.interactions), id)
      && db.customers == old(db.customers)
      && db.nextCustomerId == old(db.nextCustomerId) && db.nextUserId == old(db.nextUserId)
      && db.nextSaleId == old(db.nextSaleId) && db.nextInteractionId == old(db.nextInteractionId)
  {
    if id !in db.users {
      return Err(UserNotFound);
    }
    DeleteUserKeepsStore(db.customers, db.users, db.sales, db.interactions,
                         db.nextCustomerId, db.nextUserId, db.nextSaleId, db.nextInteractionId, id);
    db.users := UnlinkManager(db.users - {id}, id);
    db.sales := UnlinkSalesFromUser(db.sales, id);
    db.interactions := UnlinkInteractionsFromUser(db.interactions, id);
    r := Ok(());
  }

  lemma DeleteUserKeepsStore(customers: map<CustomerId, Customer>, users: map<UserId, User>,
                             sales: map<SaleId, Sale>, interactions: map<InteractionId, Interaction>,
                             nc: nat, nu: nat, ns: nat, ni: nat, id: UserId)
    requires StoreOk(customers, users, sales, interactions, nc, nu, ns, ni)
    ensures StoreOk(customers, UnlinkManager(users - {id}, id), UnlinkSalesFromUser(sales, id),
                    UnlinkInteractionsFromUser(interactions, id), nc, nu, ns, ni)
  {
    var users' := UnlinkManager(users - {id}, id);
    forall a, b | a in users' && b in users' && a != b
      ensures UniqueColumnsDiffer(UserColumns(users', a), UserColumns(users', b))
    {
      assert UserColumns(users', a) == UserColumns(users, a);
      assert UserColumns(users', b) == UserColumns(users, b);
    }
  }

  /** After deleteUser nothing refers to the deleted user. */
  lemma DeleteUserUnlinks(users: map<UserId, User>, sales: map<SaleId, Sale>,
                          interactions: map<InteractionId, Interaction>, id: UserId)
    ensures forall k :: k in UnlinkManager(users - {id}, id) ==> UnlinkManager(users - {id}, id)[k].manager != Some(id)
    ensures forall k :: k in UnlinkSalesFromUser(sales, id) ==> UnlinkSalesFromUser(sales, id)[k].salesRep != Some(id)
    ensures forall k :: k in UnlinkInteractionsFromUser(interactions, id) ==>
      UnlinkInteractionsFromUser(interactions, id)[k].performedBy != Some(id)
    ensures UnlinkManager(users - {id}, id).Keys == users.Keys - {id}
  {
  }

  /**
   * validateUser: true exactly when a user of that name exists, is ACTIVE and
   * its stored hash matches the given password.
   */
  function ValidateUser(db: Crm, userName: string, password: string, matches: (string, string) -> bool): (r: bool)
    reads db
    requires db.Valid()
    ensures r <==> exists k :: k in db.users && db.users[k].userName == userName
                              && db.users[k].status == UserActive && matches(password, db.users[k].password)
  {
    var found := FindByUserName(db, userName);
    found.Some? && found.value.status == UserActive && matches(password, found.value.password)
  }

  /** For an unknown or inactive user the answer is false, whatever the password matcher says. */
  lemma InactiveNeverValidates(db: Crm, userName: string, password: string, matches: (string, string) -> bool)
    requires db.Valid()
    requires forall k :: k in db.users && db.users[k].userName == userName ==> db.users[k].status == UserInactive
    ensures !ValidateUser(db, userName, password, matches)
  {
    var found := FindByUserName(db, userName);
    if found.Some? {
      var k :| k in db.users && db.users[k] == found.value;
      assert db.users[k].status == UserInactive;
    }
  }

  /** The shared body of activateUser and deactivateUser: no guard on the current status. */
  method SetUserStatus(db: Crm, id: UserId, status: UserStatus, now: Timestamp) returns (r: Result<User>)
    requires db.Valid()
    modifies db
    ensures db.Valid()
    ensures r.Err? ==> unchanged(db)
    ensures id !in old(db.users) <==> r == Err(UserNotFound)
    ensures id in old(db.users) <==> r.Ok?
    ensures r.Ok? ==>
      && r.value == old(db.users)[id].(status := status, updatedAt := now)
      && db.users == old(db.users)[id := r.value]
      && db.customers == old(db.customers) && db.sales == old(db.sales) && db.interactions == old(db.interactions)
      && db.nextCustomerId == old(db.nextCustomerId) && db.nextUserId == old(db.nextUserId)
      && db.nextSaleId == old(db.nextSaleId) && db.nextInteractionId == old(db.nextInteractionId)
  {
    if id !in db.users {
      return Err(UserNotFound);
    }
    var user := db.users[id].(status := status, updatedAt := now);
    assert (user.userName, user.email, user.password) == UserColumns(db.users, id);
    UserPutKeepsStore(db.customers, db.users, db.sales, db.interactions,
                      db.nextCustomerId, db.nextUserId, db.nextSaleId, db.nextInteractionId, user);
    db.users := db.users[id := user];
    r := Ok(user);
  }

  /** activateUser. */
  method ActivateUser(db: Crm, id: UserId, now: Timestamp) returns (r: Result<User>)
    requires db.Valid()
    modifies db
    ensures db.Valid()
    ensures r.Err? ==> unchanged(db)
    ensures id !in old(db.users) <==> r == Err(UserNotFound)
    ensures id in old(db.users) <==> r.Ok?
    ensures r.Ok? ==>
      && r.value == old(db.users)[id].(status := UserActive, updatedAt := now)
      && db.users == old(db.users)[id := r.value]
      && db.customers == old(db.customers) && db.sales == old(db.sales) && db.interactions == old(db.interactions)
      && db.nextCustomerId == old(db.nextCustomerId) && db.nextUserId == old(db.nextUserId)
      && db.nextSaleId == old(db.nextSaleId) && db.nextInteractionId == old(db.nextInteractionId)
  {
    r := SetUserStatus(db, id, UserActive, now);
  }

  /** deactivateUser. */
  method DeactivateUser(db: Crm, id: UserId, now: Timestamp) returns (r: Result<User>)
    requires db.Valid()
    modifies db
    ensures db.Valid()
    ensures r.Err? ==> unchanged(db)
    ensures id !in old(db.users) <==> r == Err(UserNotFound)
    ensures id in old(db.users) <==> r.Ok?
    ensures r.Ok? ==>
      && r.value == old(db.users)[id].(status := UserInactive, updatedAt := now)
      && db.users == old(db.users)[id := r.value]
      && db.customers == old(db.customers) && db.sales == old(db.sales) && db.interactions == old(db.interactions)
      && db.nextCustomerId == old(db.nextCustomerId) && db.nextUserId == old(db.nextUserId)
      && db.nextSaleId == old(db.nextSaleId) && db.nextInteractionId == old(db.nextInteractionId)
  {
    r := SetUserStatus(db, id, UserInactive, now);
  }
}
