/**
 * The offer record: its fields, the two-way relation between its validity
 * (in days) and its deadline, and the 90% price check against the
 * property's expected price.
 */
module EstatePropertyOffer {
  import opened EstateCommon

  /** `Unset` is the empty selection an offer starts with. */
  datatype OfferStatus = Unset | Accepted | Refused

  datatype Offer = Offer(
    price: Cents,
    status: OfferStatus,
    partner: PartnerId,
    propertyId: PropertyId,
    validity: int,
    createDate: Option<Day>,
    dateDeadline: Option<Day>)

  /** What a caller supplies when creating an offer; `None` is an absent key. */
  datatype OfferVals = OfferVals(
    propertyId: Option<PropertyId>,
    price: Option<Cents>,
    partner: Option<PartnerId>,
    validity: Option<int>)

  const DefaultValidity := 7

  /**
   * The deadline computed from the validity: counted from the creation
   * date, or from today while the record has none.
   */
  function ComputeDateDeadline(o: Offer, today: Day): Offer {
    var start := if o.createDate.Some? then o.createDate.value else today;
    o.(dateDeadline := Some(start + o.validity))
  }

  /** The inverse: an edited deadline recomputes the validity, when both dates exist. */
  function InverseDateDeadline(o: Offer): Offer {
    if o.dateDeadline.Some? && o.createDate.Some? then
      o.(validity := o.dateDeadline.value - o.createDate.value)
    else o
  }

  lemma DeadlineFromValidity(o: Offer, today: Day)
    ensures ComputeDateDeadline(o, today).dateDeadline ==
      Some(if o.createDate.Some? then o.createDate.value + o.validity else today + o.validity)
    ensures ComputeDateDeadline(o, today).validity == o.validity
  {
  }

  /** Writing the validity and reading back the deadline loses nothing. */
  lemma ValidityRoundTrip(o: Offer, today: Day)
    requires o.createDate.Some?
    ensures InverseDateDeadline(ComputeDateDeadline(o, today)) == ComputeDateDeadline(o, today)
  {
  }

  /**
   * Writing the deadline sets the validity to the days since creation, and
   * recomputing the deadline from that validity gives the written deadline back.
   */
  lemma DeadlineRoundTrip(o: Offer, today: Day)
    requires o.createDate.Some? && o.dateDeadline.Some?
    ensures InverseDateDeadline(o) == o.(validity := o.dateDeadline.value - o.createDate.value)
    ensures ComputeDateDeadline(InverseDateDeadline(o), today) == InverseDateDeadline(o)
  {
    assert o.dateDeadline == Some(o.dateDeadline.value);
  }

  /**
   * A validity of 10 days puts the deadline 10 days after creation; moving
   * the deadline to 5 days after creation makes the validity 5.
   */
  lemma DeadlineExample(o: Offer, today: Day)
    requires o.createDate.Some? && o.validity == 10
    ensures ComputeDateDeadline(o, today).dateDeadline == Some(o.createDate.value + 10)
    ensures InverseDateDeadline(ComputeDateDeadline(o, today).(dateDeadline := Some(o.createDate.value + 5))).validity == 5
  {
  }

  /** Without a creation date or without a deadline the inverse does nothing. */
  lemma InverseWithoutDates(o: Offer)
    requires o.createDate.None? || o.dateDeadline.None?
    ensures InverseDateDeadline(o) == o
  {
  }

  /**
   * 90% of the expected price at two decimals, that is in whole cents,
   * rounded half away from zero.
   */
  function NinetyPercent(expectedPrice: Cents): (r: Cents)
    ensures expectedPrice >= 0 ==> 9 * expectedPrice - 5 < 10 * r <= 9 * expectedPrice + 5
  {
    if expectedPrice >= 0 then (9 * expectedPrice + 5) / 10
    else -((9 * -expectedPrice + 5) / 10)
  }

  /**
   * The price check: with a nonzero expected price, an offer is rejected when
   * it is below 90% of that price after both are rounded to the cent, that
   * is when it is half a cent or more below 90%.  An offer of exactly 90%
   * passes, and so does one less than half a cent below it.
   */
  function CheckPrice(price: Cents, expectedPrice: Cents): (ok: bool)
    ensures expectedPrice == 0 ==> ok
    ensures expectedPrice > 0 ==> (ok <==> 10 * price + 5 > 9 * expectedPrice)
  {
    expectedPrice == 0 || price >= NinetyPercent(expectedPrice)
  }

  /**
   * The boundary at an expected price of 100,000.00, and an offer of 0.06
   * against 0.07, which passes because 90% of 0.07 rounds to 0.06.
   */
  lemma CheckPriceBoundary()
    ensures !CheckPrice(8_999_999, 10_000_000)
    ensures CheckPrice(9_000_000, 10_000_000)
    ensures CheckPrice(6, 7) && !CheckPrice(5, 7)
  {
  }
}
