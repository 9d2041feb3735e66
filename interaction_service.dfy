/**
 * CustomerInteractionService: calls, emails, meetings and support tickets
 * logged against a customer by a user.
 */
module InteractionService {
  import opened Domain
  import opened Collections
  import opened Sorting
  import opened Store

  /** The sort key of getRecentInteractions. */
  function InteractionDate(i: Interaction): int {
    i.interactionDate
  }

  /**
   * addCustomerInteraction: a null date becomes now and a null type EMAIL;
   * the customer must resolve, then the user; both timestamps are now.
   */
  method AddCustomerInteraction(db: Crm, input: InteractionInput, now: Timestamp) returns (r: Result<Interaction>)
    requires db.Valid()
    modifies db
    ensures db.Valid()
    ensures r.Err? ==> unchanged(db)
    ensures input.customer !in old(db.customers) <==> r == Err(CustomerNotFound)
    ensures (input.customer in old(db.customers) && input.performedBy !in old(db.users)) <==> r == Err(UserNotFound)
    ensures (input.customer in old(db.customers) && input.performedBy in old(db.users)) <==> r.Ok?
    ensures r.Ok? ==>
      && r.value == Interaction(old(db.nextInteractionId), input.kind.GetOr(Email), input.interactionDate.GetOr(now),
                                input.notes, Some(input.customer), Some(input.performedBy), now, now)
      && db.interactions == old(db.interactions)[r.value.id := r.value]
      && db.nextInteractionId == old(db.nextInteractionId) + 1
      && db.customers == old(db.customers) && db.users == old(db.users) && db.sales == old(db.sales)
      && db.nextCustomerId == old(db.nextCustomerId) && db.nextUserId == old(db.nextUserId)
      && db.nextSaleId == old(db.nextSaleId)
  {
    if input.customer !in db.customers {
      return Err(CustomerNotFound);
    }
    if input.performedBy !in db.users {
      return Err(UserNotFound);
    }
    var interaction := Interaction(db.nextInteractionId, input.kind.GetOr(Email), input.interactionDate.GetOr(now),
                                   input.notes, Some(input.customer), Some(input.performedBy), now, now);
    InteractionsOkAfterPut(db.interactions, db.nextInteractionId, db.nextInteractionId + 1,
                           db.customers, db.users, interaction);
    db.interactions := db.interactions[interaction.id := interaction];
    db.nextInteractionId := db.nextInteractionId + 1;
    r := Ok(interaction);
  }

  /** The record updateCustomerInteraction stores: non-null patch fields replace the stored ones. */
  function PatchedInteraction(i: Interaction, patch: InteractionPatch, now: Timestamp): Interaction {
    i.(kind := patch.kind.GetOr(i.kind),
       notes := if patch.notes.Some? then patch.notes else i.notes,
       interactionDate := patch.interactionDate.GetOr(i.interactionDate),
       customer := if patch.customer.Some? then patch.customer else i.customer,
       performedBy := if patch.performedBy.Some? then patch.performedBy else i.performedBy,
       updateTime := now)
  }

  /** A patch only changes the fields it carries; creation data and the id never change. */
  lemma PatchedInteractionFields(i: Interaction, patch: InteractionPatch, now: Timestamp)
    ensures var p := PatchedInteraction(i, patch, now);
      && p.id == i.id && p.createdTime == i.createdTime && p.updateTime == now
      && (patch.kind.None? ==> p.kind == i.kind) && (patch.kind.Some? ==> p.kind == patch.kind.value)
      && (patch.notes.None? ==> p.notes == i.notes) && (patch.notes.Some? ==> p.notes == patch.notes)
      && (patch.interactionDate.None? ==> p.interactionDate == i.interactionDate)
      && (patch.interactionDate.Some? ==> p.interactionDate == patch.interactionDate.value)
      && (patch.customer.None? ==> p.customer == i.customer) && (patch.customer.Some? ==> p.customer == patch.customer)
      && (patch.performedBy.None? ==> p.performedBy == i.performedBy)
      && (patch.performedBy.Some? ==> p.performedBy == patch.performedBy)
    ensures patch == InteractionPatch(None, None, None, None, None) ==> PatchedInteraction(i, patch, now) == i.(updateTime := now)
  {
  }

  /**
   * updateCustomerInteraction: a missing interaction, then an unknown new
   * customer, then an unknown new user, abort the update.
   */
  method UpdateCustomerInteraction(db: Crm, id: InteractionId, patch: InteractionPatch, now: Timestamp)
    returns (r: Result<Interaction>)
    requires db.Valid()
    modifies db
    ensures db.Valid()
    ensures r.Err? ==> unchanged(db)
    ensures id !in old(db.interactions) <==> r == Err(InteractionNotFound)
    ensures id in old(db.interactions) ==>
      && (!Resolves(patch.customer, old(db.customers)) <==> r == Err(CustomerNotFound))
      && (Resolves(patch.customer, old(db.customers)) && !Resolves(patch.performedBy, old(db.users))
          <==> r == Err(UserNotFound))
      && (Resolves(patch.customer, old(db.customers)) && Resolves(patch.performedBy, old(db.users)) <==> r.Ok?)
      && (r.Ok? ==>
            && r.value == PatchedInteraction(old(db.interactions)[id], patch, now)
            && db.interactions == old(db.interactions)[id := r.value])
    ensures r.Ok? ==>
      && db.customers == old(db.customers) && db.users == old(db.users) && db.sales == old(db.sales)
      && db.nextCustomerId == old(db.nextCustomerId) && db.nextUserId == old(db.nextUserId)
      && db.nextSaleId == old(db.nextSaleId) && db.nextInteractionId == old(db.nextInteractionId)
  {
    if id !in db.interactions {
      return Err(InteractionNotFound);
    }
    if !Resolves(patch.customer, db.customers) {
      return Err(CustomerNotFound);
    }
    if !Resolves(patch.performedBy, db.users) {
      return Err(UserNotFound);
    }
    var interaction := PatchedInteraction(db.interactions[id], patch, now);
    InteractionsOkAfterPut(db.interactions, db.nextInteractionId, db.nextInteractionId,
                           db.customers, db.users, interaction);
    db.interactions := db.interactions[id := interaction];
    r := Ok(interaction);
  }

  /** deleteCustomerInteraction: removes exactly that interaction. */
  method DeleteCustomerInteraction(db: Crm, id: InteractionId) returns (r: Result<()>)
    requires db.Valid()
    modifies db
    ensures db.Valid()
    ensures r.Err? ==> unchanged(db)
    ensures id !in old(db.interactions) <==> r == Err(InteractionNotFound)
    ensures id in old(db.interactions) <==> r.Ok?
    ensures r.Ok? ==>
      && db.interactions == old(db.interactions) - {id}
      && db.customers == old(db.customers) && db.users == old(db.users) && db.sales == old(db.sales)
      && db.nextCustomerId == old(db.nextCustomerId) && db.nextUserId == old(db.nextUserId)
      && db.nextSaleId == old(db.nextSaleId) && db.nextInteractionId == old(db.nextInteractionId)
  {
    if id !in db.interactions {
      return Err(InteractionNotFound);
    }
    db.interactions := db.interactions - {id};
    r := Ok(());
  }

  /**
   * getRecentInteractions: the `limit` latest interactions, latest first;
   * a negative limit is refused by Stream.limit.
   */
  function GetRecentInteractions(db: Crm, limit: int): (r: Result<seq<Interaction>>)
    reads db
    requires db.Valid()
    ensures r.Err? <==> limit < 0
    ensures r.Err? ==> r.error == NegativeLimit
    ensures r.Ok? ==>
      && |r.value| == (if limit < |db.interactions| then limit else |db.interactions|)
      && SortedDesc(r.value, InteractionDate)
      && multiset(r.value) <= multiset(db.AllInteractions())
      && (|db.interactions| <= limit ==> forall i :: i in db.interactions.Values ==> i in r.value)
      && (forall i :: i in r.value ==> i in db.interactions.Values)
      && (forall i, j :: i in db.interactions.Values && i !in r.value && j in r.value
                         ==> InteractionDate(i) <= InteractionDate(j))
  {
    if limit < 0 then Err(NegativeLimit)
    else
      var all := db.AllInteractions();
      var recent := TopBy(all, InteractionDate, limit);
      TopByOfPool(all, db.interactions.Values, InteractionDate, limit);
      Ok(recent)
  }

  /** The interaction concerns customer `c`: the filter of findByCustomer_Id. */
  function AboutCustomer(c: CustomerId): Interaction -> bool {
    (i: Interaction) => i.customer == Some(c)
  }

  /** getInteractionsByCustomerId: the customer must exist. */
  function GetInteractionsByCustomerId(db: Crm, cid: CustomerId): (r: Result<seq<Interaction>>)
    reads db
    requires db.Valid()
    ensures r.Err? <==> cid !in db.customers
    ensures r.Err? ==> r.error == CustomerNotFound
    ensures r.Ok? ==> forall i :: i in r.value <==> i in db.interactions.Values && i.customer == Some(cid)
    ensures r.Ok? ==> |r.value| == |set k | k in db.interactions && db.interactions[k].customer == Some(cid)|
  {
    if cid !in db.customers then Err(CustomerNotFound)
    else
      CustomerInteractionsCount(db.interactions, db.nextInteractionId, cid);
      Ok(Filter(db.AllInteractions(), AboutCustomer(cid)))
  }

  /** The listing of a customer's interactions has one entry per stored interaction that concerns it. */
  lemma CustomerInteractionsCount(interactions: map<InteractionId, Interaction>, next: nat, cid: CustomerId)
    requires forall k :: k in interactions ==> k < next
    ensures |Filter(InKeyOrder(interactions, next), AboutCustomer(cid))|
         == |set k | k in interactions && interactions[k].customer == Some(cid)|
  {
    FilterInKeyOrderLength(interactions, next, AboutCustomer(cid));
    assert KeysWhere(interactions, next, AboutCustomer(cid))
        == set k | k in interactions && interactions[k].customer == Some(cid);
  }

  /** getInteractionsByUserId: the user must exist. */
  function GetInteractionsByUserId(db: Crm, uid: UserId): (r: Result<seq<Interaction>>)
    reads db
    requires db.Valid()
    ensures r.Err? <==> uid !in db.users
    ensures r.Err? ==> r.error == UserNotFound
    ensures r.Ok? ==> forall i :: i in r.value <==> i in db.interactions.Values && i.performedBy == Some(uid)
    ensures r.Ok? ==> |r.value| == |set k | k in db.interactions && db.interactions[k].performedBy == Some(uid)|
  {
    if uid !in db.users then Err(UserNotFound)
    else
      PerformerInteractionsCount(db.interactions, db.nextInteractionId, uid);
      Ok(Filter(db.AllInteractions(), PerformedBy(uid)))
  }

  /** The interaction was performed by user `u`: the filter of findByPerformedBy_Id. */
  function PerformedBy(u: UserId): Interaction -> bool {
    (i: Interaction) => i.performedBy == Some(u)
  }

  /** The listing of a user's interactions has one entry per stored interaction it performed. */
  lemma PerformerInteractionsCount(interactions: map<InteractionId, Interaction>, next: nat, uid: UserId)
    requires forall k :: k in interactions ==> k < next
    ensures |Filter(InKeyOrder(interactions, next), PerformedBy(uid))|
         == |set k | k in interactions && interactions[k].performedBy == Some(uid)|
  {
    FilterInKeyOrderLength(interactions, next, PerformedBy(uid));
    assert KeysWhere(interactions, next, PerformedBy(uid))
        == set k | k in interactions && interactions[k].performedBy == Some(uid);
  }
}
