/**
 * The stored estate records and the actions that run over them.
 *
 * An action runs a loop over the records of a batch; any error aborts the
 * transaction, so either the whole loop takes effect or nothing does.
 * `Run` is that loop, written as a fold over the batch, and the action
 * bodies (cancel, sold, the delete guard, accept, refuse) are its steps.
 */
module EstateRecords {
  import opened EstateCommon
  import opened EstateProperty
  import opened EstatePropertyOffer

  /** The stored records: properties by id, and offers, the id of an offer being its index. */
  datatype Db = Db(properties: map<PropertyId, Property>, offers: seq<Offer>)

  /** No two offers of the same property are accepted. */
  predicate AtMostOneAccepted(offers: seq<Offer>) {
    forall i, j |
      0 <= i < |offers| && 0 <= j < |offers| && i != j &&
      offers[i].status == Accepted && offers[j].status == Accepted
      :: offers[i].propertyId != offers[j].propertyId
  }

  /** What the database constraints and the accept guard keep true of stored records. */
  predicate Consistent(d: Db) {
    && (forall id | id in d.properties ::
          d.properties[id].expectedPrice > 0 && d.properties[id].sellingPrice >= 0)
    && (forall i | 0 <= i < |d.offers| :: d.offers[i].price > 0)
    && AtMostOneAccepted(d.offers)
  }

  // ---------------------------------------------------------------------
  // The loop over a batch of records

  /** Continue with `step` on `k` unless an earlier step failed. */
  function Then<K>(r: Result<Db>, step: (Db, K) -> Result<Db>, k: K): Result<Db> {
    match r
    case Failure(e) => Failure(e)
    case Success(d) => step(d, k)
  }

  /** `step` applied to each id of the batch in turn, stopping at the first error. */
  function Run<K>(d: Db, ids: seq<K>, step: (Db, K) -> Result<Db>): Result<Db>
    decreases |ids|
  {
    if ids == [] then Success(d)
    else Then(Run(d, ids[..|ids| - 1], step), step, ids[|ids| - 1])
  }

  lemma RunExtend<K>(d: Db, ids: seq<K>, step: (Db, K) -> Result<Db>, i: nat)
    requires i < |ids|
    ensures Run(d, ids[..i + 1], step) == Then(Run(d, ids[..i], step), step, ids[i])
  {
    assert ids[..i + 1][..i] == ids[..i];
  }

  /** Once a prefix of the batch has failed, the whole batch fails with that error. */
  lemma {:induction false} RunAbort<K>(d: Db, ids: seq<K>, step: (Db, K) -> Result<Db>, i: nat)
    requires i <= |ids| && Run(d, ids[..i], step).Failure?
    ensures Run(d, ids, step) == Run(d, ids[..i], step)
    decreases |ids|
  {
    if i == |ids| {
      assert ids[..i] == ids;
    } else {
      var init := ids[..|ids| - 1];
      assert init[..i] == ids[..i];
      RunAbort(d, init, step, i);
    }
  }

  /** A step that keeps the records consistent and keeps the set of property ids. */
  ghost predicate KeepsConsistent<K(!new)>(step: (Db, K) -> Result<Db>) {
    forall d: Db, k: K {:trigger step(d, k)} ::
      Consistent(d) && step(d, k).Success? ==>
        Consistent(step(d, k).value) && step(d, k).value.properties.Keys == d.properties.Keys
  }

  lemma {:induction false} RunKeepsConsistent<K(!new)>(d: Db, ids: seq<K>, step: (Db, K) -> Result<Db>)
    requires Consistent(d) && KeepsConsistent(step)
    ensures Run(d, ids, step).Success? ==>
      Consistent(Run(d, ids, step).value) && Run(d, ids, step).value.properties.Keys == d.properties.Keys
    decreases |ids|
  {
    if ids != [] {
      RunKeepsConsistent(d, ids[..|ids| - 1], step);
    }
  }

  // ---------------------------------------------------------------------
  // Cancel and sold

  /** One iteration over a property record: fetch it, apply `f`, store the result. */
  function UpdateProperty(d: Db, id: PropertyId, f: Property -> Result<Property>): Result<Db> {
    if id !in d.properties then Failure(MissingRecord)
    else match f(d.properties[id])
      case Failure(e) => Failure(e)
      case Success(p) => Success(d.(properties := d.properties[id := p]))
  }

  function CancelStep(d: Db, id: PropertyId): Result<Db> {
    UpdateProperty(d, id, Cancel)
  }

  function SoldStep(d: Db, id: PropertyId): Result<Db> {
    UpdateProperty(d, id, MarkSold)
  }

  /** One guarded iteration: missing, refused, or the record moved to `target`. */
  lemma GuardedStep(d: Db, id: PropertyId, step: (Db, PropertyId) -> Result<Db>,
                    f: Property -> Result<Property>, forbidden: State, target: State, err: Error)
    requires forall d': Db, id': PropertyId :: step(d', id') == UpdateProperty(d', id', f)
    requires forall p: Property :: f(p) == SetStateUnless(p, forbidden, target, err)
    ensures id !in d.properties ==> step(d, id) == Failure(MissingRecord)
    ensures id in d.properties && d.properties[id].state == forbidden ==> step(d, id) == Failure(err)
    ensures id in d.properties && d.properties[id].state != forbidden ==>
      step(d, id) == Success(d.(properties := d.properties[id := d.properties[id].(state := target)]))
  {
    assert step(d, id) == UpdateProperty(d, id, f);
    if id in d.properties {
      assert f(d.properties[id]) == SetStateUnless(d.properties[id], forbidden, target, err);
    }
  }

  /** A successful guarded batch changes the state of its records and nothing else. */
  lemma {:induction false} GuardedRunEffect(d: Db, ids: seq<PropertyId>, step: (Db, PropertyId) -> Result<Db>,
                                            f: Property -> Result<Property>, forbidden: State, target: State, err: Error)
    requires forall d': Db, id: PropertyId :: step(d', id) == UpdateProperty(d', id, f)
    requires forall p: Property :: f(p) == SetStateUnless(p, forbidden, target, err)
    ensures Run(d, ids, step).Success? ==>
      var d' := Run(d, ids, step).value;
      && d'.offers == d.offers
      && d'.properties.Keys == d.properties.Keys
      && forall id | id in d.properties ::
           d'.properties[id] == if id in ids then d.properties[id].(state := target) else d.properties[id]
    decreases |ids|
  {
    if ids != [] && Run(d, ids, step).Success? {
      var init, last := ids[..|ids| - 1], ids[|ids| - 1];
      assert ids == init + [last];
      GuardedRunEffect(d, init, step, f, forbidden, target, err);
      var d0 := Run(d, init, step).value;
      GuardedStep(d0, last, step, f, forbidden, target, err);
      var d' := Run(d, ids, step).value;
      forall id | id in d.properties
        ensures d'.properties[id] == if id in ids then d.properties[id].(state := target) else d.properties[id]
      {
        assert id in ids <==> id in init || id == last;
      }
    }
  }

  /** A guarded batch over existing records can only fail with the guard's error. */
  lemma {:induction false} GuardedRunError(d: Db, ids: seq<PropertyId>, step: (Db, PropertyId) -> Result<Db>,
                                           f: Property -> Result<Property>, forbidden: State, target: State, err: Error)
    requires forall d': Db, id: PropertyId :: step(d', id) == UpdateProperty(d', id, f)
    requires forall p: Property :: f(p) == SetStateUnless(p, forbidden, target, err)
    ensures Run(d, ids, step).Failure? && (forall i | 0 <= i < |ids| :: ids[i] in d.properties) ==>
      Run(d, ids, step).error == err
    decreases |ids|
  {
    if ids != [] {
      var init, last := ids[..|ids| - 1], ids[|ids| - 1];
      assert ids == init + [last];
      GuardedRunError(d, init, step, f, forbidden, target, err);
      GuardedRunEffect(d, init, step, f, forbidden, target, err);
      if Run(d, init, step).Success? && last in d.properties {
        GuardedStep(Run(d, init, step).value, last, step, f, forbidden, target, err);
      }
    }
  }

  /** A guarded batch succeeds exactly when every record exists and none is in `forbidden`. */
  lemma {:induction false} GuardedRunSucceeds(d: Db, ids: seq<PropertyId>, step: (Db, PropertyId) -> Result<Db>,
                                              f: Property -> Result<Property>, forbidden: State, target: State, err: Error)
    requires forbidden != target
    requires forall d': Db, id: PropertyId :: step(d', id) == UpdateProperty(d', id, f)
    requires forall p: Property :: f(p) == SetStateUnless(p, forbidden, target, err)
    ensures Run(d, ids, step).Success? <==>
      forall i | 0 <= i < |ids| :: ids[i] in d.properties && d.properties[ids[i]].state != forbidden
    decreases |ids|
  {
    if ids != [] {
      var init, last := ids[..|ids| - 1], ids[|ids| - 1];
      assert ids == init + [last];
      GuardedRunSucceeds(d, init, step, f, forbidden, target, err);
      GuardedRunEffect(d, init, step, f, forbidden, target, err);
      if Run(d, init, step).Success? {
        var d0 := Run(d, init, step).value;
        GuardedStep(d0, last, step, f, forbidden, target, err);
        if last in d.properties {
          assert d0.properties[last].state != forbidden <==> d.properties[last].state != forbidden;
        }
      }
    }
  }

  /**
   * A batch that moves every record to `target` unless one is in `forbidden`
   * fails exactly when a record is missing or in `forbidden`; otherwise it
   * changes the state of the records of the batch and nothing else.
   */
  lemma GuardedRun(d: Db, ids: seq<PropertyId>, step: (Db, PropertyId) -> Result<Db>,
                   f: Property -> Result<Property>, forbidden: State, target: State, err: Error)
    requires forbidden != target
    requires forall d': Db, id: PropertyId :: step(d', id) == UpdateProperty(d', id, f)
    requires forall p: Property :: f(p) == SetStateUnless(p, forbidden, target, err)
    ensures Run(d, ids, step).Success? <==>
      forall i | 0 <= i < |ids| :: ids[i] in d.properties && d.properties[ids[i]].state != forbidden
    ensures Run(d, ids, step).Failure? && (forall i | 0 <= i < |ids| :: ids[i] in d.properties) ==>
      Run(d, ids, step).error == err
    ensures Run(d, ids, step).Success? ==>
      var d' := Run(d, ids, step).value;
      && d'.offers == d.offers
      && d'.properties.Keys == d.properties.Keys
      && forall id | id in d.properties ::
           d'.properties[id] == if id in ids then d.properties[id].(state := target) else d.properties[id]
  {
    GuardedRunSucceeds(d, ids, step, f, forbidden, target, err);
    GuardedRunError(d, ids, step, f, forbidden, target, err);
    GuardedRunEffect(d, ids, step, f, forbidden, target, err);
  }

  /** Cancel: refused if any record of the batch is sold; otherwise each becomes canceled. */
  lemma CancelBatch(d: Db, ids: seq<PropertyId>)
    ensures Run(d, ids, CancelStep).Success? <==>
      forall i | 0 <= i < |ids| :: ids[i] in d.properties && d.properties[ids[i]].state != Sold
    ensures Run(d, ids, CancelStep).Failure? && (forall i | 0 <= i < |ids| :: ids[i] in d.properties) ==>
      Run(d, ids, CancelStep).error == SoldCannotBeCanceled
    ensures Run(d, ids, CancelStep).Success? ==>
      var d' := Run(d, ids, CancelStep).value;
      && d'.offers == d.offers
      && d'.properties.Keys == d.properties.Keys
      && forall id | id in d.properties ::
           d'.properties[id] == if id in ids then d.properties[id].(state := Canceled) else d.properties[id]
  {
    GuardedRun(d, ids, CancelStep, Cancel, Sold, Canceled, SoldCannotBeCanceled);
  }

  /** Sold: refused if any record of the batch is canceled; otherwise each becomes sold. */
  lemma SoldBatch(d: Db, ids: seq<PropertyId>)
    ensures Run(d, ids, SoldStep).Success? <==>
      forall i | 0 <= i < |ids| :: ids[i] in d.properties && d.properties[ids[i]].state != Canceled
    ensures Run(d, ids, SoldStep).Failure? && (forall i | 0 <= i < |ids| :: ids[i] in d.properties) ==>
      Run(d, ids, SoldStep).error == CanceledCannotBeSold
    ensures Run(d, ids, SoldStep).Success? ==>
      var d' := Run(d, ids, SoldStep).value;
      && d'.offers == d.offers
      && d'.properties.Keys == d.properties.Keys
      && forall id | id in d.properties ::
           d'.properties[id] == if id in ids then d.properties[id].(state := Sold) else d.properties[id]
  {
    GuardedRun(d, ids, SoldStep, MarkSold, Canceled, Sold, CanceledCannotBeSold);
  }

  lemma CancelAndSoldKeepConsistent()
    ensures KeepsConsistent(CancelStep)
    ensures KeepsConsistent(SoldStep)
  {
  }

  // ---------------------------------------------------------------------
  // Delete

  /** The guard loop of delete: it writes nothing. */
  function DeleteCheckStep(d: Db, id: PropertyId): Result<Db> {
    if id !in d.properties then Failure(MissingRecord)
    else if !Deletable(d.properties[id]) then Failure(NotDeletable)
    else Success(d)
  }

  /** Delete: the guard over the whole batch, then removal of all of its records. */
  function Unlinked(d: Db, ids: seq<PropertyId>): Result<Db> {
    match Run(d, ids, DeleteCheckStep)
    case Failure(e) => Failure(e)
    case Success(_) => Success(d.(properties := d.properties - (set id | id in ids)))
  }

  lemma {:induction false} DeleteCheckRun(d: Db, ids: seq<PropertyId>)
    ensures Run(d, ids, DeleteCheckStep).Success? <==>
      forall i | 0 <= i < |ids| :: ids[i] in d.properties && Deletable(d.properties[ids[i]])
    ensures Run(d, ids, DeleteCheckStep).Success? ==> Run(d, ids, DeleteCheckStep).value == d
    decreases |ids|
  {
    if ids != [] {
      var init := ids[..|ids| - 1];
      assert ids == init + [ids[|ids| - 1]];
      DeleteCheckRun(d, init);
    }
  }

  /**
   * Delete succeeds only if every record of the batch is new or canceled;
   * then exactly those records are gone, and otherwise nothing is.
   */
  lemma UnlinkSpec(d: Db, ids: seq<PropertyId>)
    ensures Unlinked(d, ids).Success? <==>
      forall i | 0 <= i < |ids| :: ids[i] in d.properties && Deletable(d.properties[ids[i]])
    ensures Unlinked(d, ids).Success? ==>
      var d' := Unlinked(d, ids).value;
      && d'.offers == d.offers
      && (forall i | 0 <= i < |ids| :: ids[i] !in d'.properties)
      && (forall id | id in d.properties && id !in ids :: id in d'.properties && d'.properties[id] == d.properties[id])
      && d'.properties.Keys <= d.properties.Keys
    ensures Consistent(d) && Unlinked(d, ids).Success? ==> Consistent(Unlinked(d, ids).value)
  {
    DeleteCheckRun(d, ids);
  }

  // ---------------------------------------------------------------------
  // Best price

  /** The prices of the offers of property `pid`, in offer order. */
  function PricesOf(offers: seq<Offer>, pid: PropertyId): seq<Cents>
    decreases |offers|
  {
    if offers == [] then []
    else
      var init := PricesOf(offers[..|offers| - 1], pid);
      var last := offers[|offers| - 1];
      if last.propertyId == pid then init + [last.price] else init
  }

  /** The derived best price of property `pid`. */
  function BestPriceOf(d: Db, pid: PropertyId): Cents {
    BestPrice(PricesOf(d.offers, pid))
  }

  lemma {:induction false} PricesOfSpec(offers: seq<Offer>, pid: PropertyId)
    ensures forall j | 0 <= j < |offers| && offers[j].propertyId == pid :: offers[j].price in PricesOf(offers, pid)
    ensures forall x | x in PricesOf(offers, pid) ::
      exists j | 0 <= j < |offers| :: offers[j].propertyId == pid && offers[j].price == x
    decreases |offers|
  {
    if offers != [] {
      var init := offers[..|offers| - 1];
      PricesOfSpec(init, pid);
      assert forall j | 0 <= j < |init| :: init[j] == offers[j];
    }
  }

  /**
   * The best price is at least the price of every offer of the property, is
   * the price of one of them when there is any, and is 0 when there is none.
   */
  lemma BestPriceOfSpec(d: Db, pid: PropertyId)
    ensures forall j | 0 <= j < |d.offers| && d.offers[j].propertyId == pid :: d.offers[j].price <= BestPriceOf(d, pid)
    ensures (exists j | 0 <= j < |d.offers| :: d.offers[j].propertyId == pid) ==>
      exists j | 0 <= j < |d.offers| :: d.offers[j].propertyId == pid && d.offers[j].price == BestPriceOf(d, pid)
    ensures (forall j | 0 <= j < |d.offers| :: d.offers[j].propertyId != pid) ==> BestPriceOf(d, pid) == 0
  {
    var prices := PricesOf(d.offers, pid);
    PricesOfSpec(d.offers, pid);
    if prices != [] {
      assert prices[0] in prices;
    }
  }

  // ---------------------------------------------------------------------
  // Accept and refuse

  /** Some offer of property `pid` other than `oid` is accepted. */
  predicate OtherAccepted(offers: seq<Offer>, pid: PropertyId, oid: OfferId) {
    exists j | 0 <= j < |offers| :: j != oid && offers[j].propertyId == pid && offers[j].status == Accepted
  }

  /** One iteration of accept: the guard, then the offer and its property are written together. */
  function AcceptStep(d: Db, oid: OfferId): Result<Db> {
    if oid >= |d.offers| then Failure(MissingRecord)
    else
      var o := d.offers[oid];
      if o.propertyId !in d.properties then Failure(MissingRecord)
      else if OtherAccepted(d.offers, o.propertyId, oid) then Failure(OfferAlreadyAccepted)
      else
        var p := d.properties[o.propertyId];
        Success(Db(
          d.properties[o.propertyId := p.(sellingPrice := o.price, buyer := Some(o.partner), state := OfferAccepted)],
          d.offers[oid := o.(status := Accepted)]))
  }

  /**
   * Accept fails when another offer of the same property is accepted (the
   * offer itself may be accepted again).  Otherwise it accepts the offer and
   * copies its price and partner into the property, which becomes
   * offer_accepted; nothing else changes.
   */
  lemma AcceptStepSpec(d: Db, oid: OfferId)
    ensures AcceptStep(d, oid).Success? <==>
      oid < |d.offers| && d.offers[oid].propertyId in d.properties &&
      !OtherAccepted(d.offers, d.offers[oid].propertyId, oid)
    ensures AcceptStep(d, oid).Success? ==>
      var o, d' := d.offers[oid], AcceptStep(d, oid).value;
      && |d'.offers| == |d.offers|
      && d'.offers[oid] == o.(status := Accepted)
      && (forall j | 0 <= j < |d.offers| && j != oid :: d'.offers[j] == d.offers[j])
      && d'.properties.Keys == d.properties.Keys
      && d'.properties[o.propertyId].sellingPrice == o.price
      && d'.properties[o.propertyId].buyer == Some(o.partner)
      && d'.properties[o.propertyId].state == OfferAccepted
      && d'.properties[o.propertyId] == d.properties[o.propertyId].(
           sellingPrice := o.price, buyer := Some(o.partner), state := OfferAccepted)
      && (forall id | id in d.properties && id != o.propertyId :: d'.properties[id] == d.properties[id])
  {
  }

  lemma AcceptStepKeepsConsistent(d: Db, oid: OfferId)
    requires Consistent(d) && AcceptStep(d, oid).Success?
    ensures Consistent(AcceptStep(d, oid).value)
    ensures AcceptStep(d, oid).value.properties.Keys == d.properties.Keys
  {
    AcceptStepSpec(d, oid);
  }

  lemma AcceptKeepsConsistent()
    ensures KeepsConsistent(AcceptStep)
  {
    forall d: Db, oid: OfferId | Consistent(d) && AcceptStep(d, oid).Success?
      ensures Consistent(AcceptStep(d, oid).value) && AcceptStep(d, oid).value.properties.Keys == d.properties.Keys
    {
      AcceptStepKeepsConsistent(d, oid);
    }
  }

  /** Accepting two different offers of one property in one batch is refused. */
  lemma AcceptTwoSiblingsFails(d: Db, a: OfferId, b: OfferId)
    requires a != b && a < |d.offers| && b < |d.offers|
    requires d.offers[a].propertyId == d.offers[b].propertyId
    ensures Run(d, [a, b], AcceptStep).Failure?
  {
    assert [a, b][..1] == [a];
    var none: seq<OfferId> := [];
    assert [a][..0] == none;
    assert Run(d, [a], AcceptStep) == Then(Run(d, none, AcceptStep), AcceptStep, a) == AcceptStep(d, a);
    assert Run(d, [a, b], AcceptStep) == Then(AcceptStep(d, a), AcceptStep, b);
    AcceptStepSpec(d, a);
    if AcceptStep(d, a).Success? {
      var d1 := AcceptStep(d, a).value;
      assert d1.offers[a].status == Accepted && d1.offers[b].propertyId == d1.offers[a].propertyId;
      assert OtherAccepted(d1.offers, d1.offers[b].propertyId, b);
    }
  }

  /** After an accept, the selling price is the price of an offer of the property, at most its best price. */
  lemma AcceptedPriceWithinBest(d: Db, oid: OfferId)
    requires AcceptStep(d, oid).Success?
    ensures
      var pid, d' := d.offers[oid].propertyId, AcceptStep(d, oid).value;
      d'.properties[pid].sellingPrice == d'.offers[oid].price &&
      d'.properties[pid].sellingPrice <= BestPriceOf(d', pid)
  {
    var d' := AcceptStep(d, oid).value;
    BestPriceOfSpec(d', d.offers[oid].propertyId);
  }

  /** One iteration of refuse: only the offer's status is written. */
  function RefuseStep(d: Db, oid: OfferId): Result<Db> {
    if oid >= |d.offers| then Failure(MissingRecord)
    else Success(d.(offers := d.offers[oid := d.offers[oid].(status := Refused)]))
  }

  /** Refuse marks each offer of the batch refused; properties and all other offers are unchanged. */
  lemma {:induction false} RefuseBatch(d: Db, ids: seq<OfferId>)
    ensures Run(d, ids, RefuseStep).Success? <==> forall i | 0 <= i < |ids| :: ids[i] < |d.offers|
    ensures Run(d, ids, RefuseStep).Success? ==>
      var d' := Run(d, ids, RefuseStep).value;
      && d'.properties == d.properties
      && |d'.offers| == |d.offers|
      && forall j | 0 <= j < |d.offers| ::
           d'.offers[j] == if j in ids then d.offers[j].(status := Refused) else d.offers[j]
    decreases |ids|
  {
    if ids != [] {
      var init, last := ids[..|ids| - 1], ids[|ids| - 1];
      assert ids == init + [last];
      RefuseBatch(d, init);
    }
  }

  /**
   * Refusing keeps the records consistent.  It does not touch the property,
   * so a refused offer that was accepted leaves the sale data in place.
   */
  lemma RefuseKeepsConsistent()
    ensures KeepsConsistent(RefuseStep)
  {
  }

  // ---------------------------------------------------------------------
  // Creating an offer

  /** Some offer of property `pid` has a price strictly above `price`. */
  predicate HigherOfferExists(offers: seq<Offer>, pid: PropertyId, price: Cents) {
    exists j | 0 <= j < |offers| :: offers[j].propertyId == pid && offers[j].price > price
  }

  /**
   * Creating an offer: the property must exist and no offer of it may be
   * higher; the property is then put in offer_received, whatever its state.
   * The record itself gets its defaults, and its price must pass the CHECK
   * constraint and the 90% check.
   */
  function AddOffer(d: Db, vals: OfferVals, today: Day): Result<Db> {
    if vals.propertyId.Some? && vals.propertyId.value !in d.properties then Failure(MissingRecord)
    else if vals.propertyId.Some? && vals.price.Some? &&
            HigherOfferExists(d.offers, vals.propertyId.value, vals.price.value) then Failure(OfferBelowExisting)
    else if vals.propertyId.None? || vals.partner.None? then Failure(RequiredFieldMissing)
    else
      var pid := vals.propertyId.value;
      var price := vals.price.GetOr(0);
      if price <= 0 then Failure(ConstraintViolated)
      else if !CheckPrice(price, d.properties[pid].expectedPrice) then Failure(PriceBelowNinetyPercent)
      else
        var created := Offer(price, Unset, vals.partner.value, pid,
                             vals.validity.GetOr(DefaultValidity), Some(today), None);
        Success(Db(d.properties[pid := d.properties[pid].(state := OfferReceived)],
                   d.offers + [ComputeDateDeadline(created, today)]))
  }

  /**
   * When an offer can be created, and what creating it does: the property
   * becomes offer_received whatever its prior state (sold and accepted
   * included), and exactly one offer is appended.
   */
  lemma AddOfferSpec(d: Db, vals: OfferVals, today: Day)
    ensures AddOffer(d, vals, today).Success? <==>
      && vals.propertyId.Some? && vals.propertyId.value in d.properties
      && vals.partner.Some? && vals.price.Some? && vals.price.value > 0
      && !HigherOfferExists(d.offers, vals.propertyId.value, vals.price.value)
      && CheckPrice(vals.price.value, d.properties[vals.propertyId.value].expectedPrice)
    ensures vals.propertyId.Some? && vals.propertyId.value in d.properties && vals.price.Some? &&
            HigherOfferExists(d.offers, vals.propertyId.value, vals.price.value) ==>
      AddOffer(d, vals, today) == Failure(OfferBelowExisting)
    ensures AddOffer(d, vals, today).Success? ==>
      var pid, d' := vals.propertyId.value, AddOffer(d, vals, today).value;
      var validity := vals.validity.GetOr(DefaultValidity);
      && d'.properties == d.properties[pid := d.properties[pid].(state := OfferReceived)]
      && d'.offers == d.offers + [Offer(vals.price.value, Unset, vals.partner.value, pid,
                                        validity, Some(today), Some(today + validity))]
  {
  }

  /** A created offer is the new best offer of its property. */
  lemma AddOfferBecomesBest(d: Db, vals: OfferVals, today: Day)
    requires AddOffer(d, vals, today).Success?
    ensures BestPriceOf(AddOffer(d, vals, today).value, vals.propertyId.value) == vals.price.value
  {
    var pid, price := vals.propertyId.value, vals.price.value;
    var d' := AddOffer(d, vals, today).value;
    assert d'.offers[..|d.offers|] == d.offers;
    assert PricesOf(d'.offers, pid) == PricesOf(d.offers, pid) + [price];
    PricesOfSpec(d.offers, pid);
  }

  lemma AddOfferKeepsConsistent(d: Db, vals: OfferVals, today: Day)
    requires Consistent(d) && AddOffer(d, vals, today).Success?
    ensures Consistent(AddOffer(d, vals, today).value)
    ensures AddOffer(d, vals, today).value.properties.Keys == d.properties.Keys
  {
    var d' := AddOffer(d, vals, today).value;
    assert forall i | 0 <= i < |d.offers| :: d'.offers[i] == d.offers[i];
  }

  /** The transaction of an action: its result is committed, or on error nothing changes. */
  predicate Transaction(before: Db, res: Result<Db>, after: Db, r: Outcome) {
    match res
    case Success(d) => after == d && r == Pass
    case Failure(e) => after == before && r == Fail(e)
  }
}
