/**
 * The estate database as a mutable object, and the workflow actions as
 * methods on it.  Each action loops over the records of its batch and
 * writes them in place; on an error it restores the records it started
 * from, as the transaction rollback does, so that the action takes effect
 * completely or not at all.  Every action is proved to do what the
 * corresponding function of EstateRecords or EstateAccount describes, and
 * to keep the records consistent.
 */
module EstateStore {
  import opened EstateCommon
  import opened EstateProperty
  import opened EstatePropertyOffer
  import opened EstateRecords
  import opened EstateAccount

  class Estate {
    var properties: map<PropertyId, Property>
    var offers: seq<Offer>
    var nextPropertyId: PropertyId  // the id sequence of the property table

    function Records(): Db
      reads this
    {
      Db(properties, offers)
    }

    ghost predicate Valid()
      reads this
    {
      Consistent(Records()) && forall id | id in properties :: id < nextPropertyId
    }

    constructor ()
      ensures Valid() && properties == map[] && offers == []
    {
      properties, offers, nextPropertyId := map[], [], 0;
    }

    /** Creating a property: a fresh id, the field defaults and the price constraints. */
    method CreateProperty(vals: PropertyVals, today: Day, user: UserId) returns (r: Result<PropertyId>)
      requires Valid()
      modifies this
      ensures Valid() && offers == old(offers)
      ensures match NewProperty(vals, today, user)
        case Failure(e) => r == Failure(e) && properties == old(properties)
        case Success(p) =>
          && r == Success(old(nextPropertyId))
          && old(nextPropertyId) !in old(properties)
          && properties == old(properties)[old(nextPropertyId) := p]
    {
      var created := NewProperty(vals, today, user);
      if created.Failure? {
        return Failure(created.error);
      }
      r := Success(nextPropertyId);
      properties := properties[nextPropertyId := created.value];
      nextPropertyId := nextPropertyId + 1;
    }

    /** Cancel every property of the batch; a sold one aborts the action. */
    method ActionCancel(ids: seq<PropertyId>) returns (r: Outcome)
      requires Valid()
      modifies this
      ensures Valid() && nextPropertyId == old(nextPropertyId)
      ensures Transaction(old(Records()), Run(old(Records()), ids, CancelStep), Records(), r)
    {
      var savepoint := Records();
      for i := 0 to |ids|
        invariant Run(savepoint, ids[..i], CancelStep) == Success(Records())
        invariant offers == savepoint.offers && nextPropertyId == old(nextPropertyId)
      {
        RunExtend(savepoint, ids, CancelStep, i);
        var id := ids[i];
        if id !in properties {
          RunAbort(savepoint, ids, CancelStep, i + 1);
          properties := savepoint.properties;
          return Fail(MissingRecord);
        }
        if properties[id].state == Sold {
          RunAbort(savepoint, ids, CancelStep, i + 1);
          properties := savepoint.properties;
          return Fail(SoldCannotBeCanceled);
        }
        properties := properties[id := properties[id].(state := Canceled)];
      }
      assert ids[..|ids|] == ids;
      CancelAndSoldKeepConsistent();
      RunKeepsConsistent(savepoint, ids, CancelStep);
      r := Pass;
    }

    /** Mark every property of the batch sold; a canceled one aborts the action. */
    method ActionSold(ids: seq<PropertyId>) returns (r: Outcome)
      requires Valid()
      modifies this
      ensures Valid() && nextPropertyId == old(nextPropertyId)
      ensures Transaction(old(Records()), Run(old(Records()), ids, SoldStep), Records(), r)
    {
      var savepoint := Records();
      for i := 0 to |ids|
        invariant Run(savepoint, ids[..i], SoldStep) == Success(Records())
        invariant offers == savepoint.offers && nextPropertyId == old(nextPropertyId)
      {
        RunExtend(savepoint, ids, SoldStep, i);
        var id := ids[i];
        if id !in properties {
          RunAbort(savepoint, ids, SoldStep, i + 1);
          properties := savepoint.properties;
          return Fail(MissingRecord);
        }
        if properties[id].state == Canceled {
          RunAbort(savepoint, ids, SoldStep, i + 1);
          properties := savepoint.properties;
          return Fail(CanceledCannotBeSold);
        }
        properties := properties[id := properties[id].(state := Sold)];
      }
      assert ids[..|ids|] == ids;
      CancelAndSoldKeepConsistent();
      RunKeepsConsistent(savepoint, ids, SoldStep);
      r := Pass;
    }

    /** Delete the properties of the batch, provided each is new or canceled. */
    method Unlink(ids: seq<PropertyId>) returns (r: Outcome)
      requires Valid()
      modifies this
      ensures Valid() && nextPropertyId == old(nextPropertyId)
      ensures Transaction(old(Records()), Unlinked(old(Records()), ids), Records(), r)
    {
      for i := 0 to |ids|
        invariant Run(Records(), ids[..i], DeleteCheckStep) == Success(Records())
        invariant Records() == old(Records()) && nextPropertyId == old(nextPropertyId)
      {
        RunExtend(Records(), ids, DeleteCheckStep, i);
        var id := ids[i];
        if id !in properties {
          RunAbort(Records(), ids, DeleteCheckStep, i + 1);
          return Fail(MissingRecord);
        }
        if !Deletable(properties[id]) {
          RunAbort(Records(), ids, DeleteCheckStep, i + 1);
          return Fail(NotDeletable);
        }
      }
      assert ids[..|ids|] == ids;
      UnlinkSpec(Records(), ids);
      properties := properties - (set id | id in ids);
      r := Pass;
    }

    /**
     * Create an offer: refused when a higher offer of the property exists;
     * the property is put in offer_received before the record is created.
     */
    method CreateOffer(vals: OfferVals, today: Day) returns (r: Result<OfferId>)
      requires Valid()
      modifies this
      ensures Valid() && nextPropertyId == old(nextPropertyId)
      ensures match AddOffer(old(Records()), vals, today)
        case Failure(e) => r == Failure(e) && Records() == old(Records())
        case Success(d) => r == Success(|old(offers)|) && Records() == d
    {
      var savepoint := Records();
      if vals.propertyId.Some? {
        var pid := vals.propertyId.value;
        if pid !in properties {
          return Failure(MissingRecord);
        }
        if vals.price.Some? && HigherOfferExists(offers, pid, vals.price.value) {
          return Failure(OfferBelowExisting);
        }
        properties := properties[pid := properties[pid].(state := OfferReceived)];
      }
      // the record itself: required fields, the CHECK constraint, the price check
      if vals.propertyId.None? || vals.partner.None? {
        properties := savepoint.properties;
        return Failure(RequiredFieldMissing);
      }
      var pid := vals.propertyId.value;
      var price := vals.price.GetOr(0);
      if price <= 0 {
        properties := savepoint.properties;
        return Failure(ConstraintViolated);
      }
      if !CheckPrice(price, properties[pid].expectedPrice) {
        properties := savepoint.properties;
        return Failure(PriceBelowNinetyPercent);
      }
      var created := Offer(price, Unset, vals.partner.value, pid,
                           vals.validity.GetOr(DefaultValidity), Some(today), None);
      r := Success(|offers|);
      offers := offers + [ComputeDateDeadline(created, today)];
      AddOfferKeepsConsistent(savepoint, vals, today);
    }

    /**
     * Accept every offer of the batch: refused when another offer of the same
     * property is accepted; otherwise the offer and its property are updated.
     */
    method ActionAccepted(ids: seq<OfferId>) returns (r: Outcome)
      requires Valid()
      modifies this
      ensures Valid() && nextPropertyId == old(nextPropertyId)
      ensures Transaction(old(Records()), Run(old(Records()), ids, AcceptStep), Records(), r)
    {
      var savepoint := Records();
      for i := 0 to |ids|
        invariant Run(savepoint, ids[..i], AcceptStep) == Success(Records())
        invariant nextPropertyId == old(nextPropertyId)
      {
        RunExtend(savepoint, ids, AcceptStep, i);
        var oid := ids[i];
        if oid >= |offers| || offers[oid].propertyId !in properties {
          RunAbort(savepoint, ids, AcceptStep, i + 1);
          properties, offers := savepoint.properties, savepoint.offers;
          return Fail(MissingRecord);
        }
        var offer := offers[oid];
        if OtherAccepted(offers, offer.propertyId, oid) {
          RunAbort(savepoint, ids, AcceptStep, i + 1);
          properties, offers := savepoint.properties, savepoint.offers;
          return Fail(OfferAlreadyAccepted);
        }
        offers := offers[oid := offer.(status := Accepted)];
        var p := properties[offer.propertyId];
        properties := properties[offer.propertyId :=
          p.(sellingPrice := offer.price, buyer := Some(offer.partner), state := OfferAccepted)];
      }
      assert ids[..|ids|] == ids;
      AcceptKeepsConsistent();
      RunKeepsConsistent(savepoint, ids, AcceptStep);
      r := Pass;
    }

    /** Refuse every offer of the batch; nothing else is written. */
    method ActionRefused(ids: seq<OfferId>) returns (r: Outcome)
      requires Valid()
      modifies this
      ensures Valid() && nextPropertyId == old(nextPropertyId)
      ensures Transaction(old(Records()), Run(old(Records()), ids, RefuseStep), Records(), r)
    {
      var savepoint := Records();
      for i := 0 to |ids|
        invariant Run(savepoint, ids[..i], RefuseStep) == Success(Records())
        invariant properties == savepoint.properties && nextPropertyId == old(nextPropertyId)
      {
        RunExtend(savepoint, ids, RefuseStep, i);
        var oid := ids[i];
        if oid >= |offers| {
          RunAbort(savepoint, ids, RefuseStep, i + 1);
          offers := savepoint.offers;
          return Fail(MissingRecord);
        }
        offers := offers[oid := offers[oid].(status := Refused)];
      }
      assert ids[..|ids|] == ids;
      RefuseKeepsConsistent();
      RunKeepsConsistent(savepoint, ids, RefuseStep);
      r := Pass;
    }

    /**
     * The sold action as extended by invoicing: every record needs a selling
     * price and a buyer and gets an invoice; then the base sold action runs.
     * A refused sale returns no invoice.
     */
    method ActionSoldWithInvoice(ids: seq<PropertyId>) returns (r: Result<seq<Invoice>>)
      requires Valid()
      modifies this
      ensures Valid() && nextPropertyId == old(nextPropertyId)
      ensures match SellWithInvoice(old(Records()), ids)
        case Failure(e) => r == Failure(e) && Records() == old(Records())
        case Success(sale) => r == Success(sale.1) && Records() == sale.0
    {
      var invoices: seq<Invoice> := [];
      for i := 0 to |ids|
        invariant Invoices(properties, ids[..i]) == Success(invoices)
        invariant Records() == old(Records()) && nextPropertyId == old(nextPropertyId)
      {
        assert ids[..i + 1][..i] == ids[..i];
        var id := ids[i];
        if id !in properties {
          InvoicesAbort(properties, ids, i + 1);
          return Failure(MissingRecord);
        }
        var p := properties[id];
        if !ReadyForSale(p) {
          InvoicesAbort(properties, ids, i + 1);
          return Failure(SaleDataMissing);
        }
        invoices := invoices + [InvoiceFor(p).value];
      }
      assert ids[..|ids|] == ids;
      var sold := ActionSold(ids);
      if sold.Fail? {
        return Failure(sold.error);
      }
      r := Success(invoices);
    }
  }
}
