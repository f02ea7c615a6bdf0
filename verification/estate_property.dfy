/**
 * The property record of the estate workflow: its fields, the values it
 * is created with, its two derived values (total area and best price),
 * the garden defaults and the per-record guards of cancel, sold and delete.
 */
module EstateProperty {
  import opened EstateCommon

  /** The sales pipeline; exactly one state at a time. */
  datatype State = New | OfferReceived | OfferAccepted | Sold | Canceled

  datatype Orientation = North | South | East | West

  datatype Property = Property(
    name: string,
    expectedPrice: Cents,
    sellingPrice: Cents,
    bedrooms: int,
    livingArea: int,
    garden: bool,
    gardenArea: int,
    gardenOrientation: Option<Orientation>,
    active: bool,
    dateAvailability: Day,
    salesperson: Option<UserId>,
    buyer: Option<PartnerId>,
    state: State)

  /**
   * What a caller supplies when creating a property; `None` is an absent key,
   * which leaves the field to its default.  A salesperson given as
   * `Some(None)` is an explicitly empty one.
   */
  datatype PropertyVals = PropertyVals(
    name: Option<string>,
    expectedPrice: Option<Cents>,
    sellingPrice: Option<Cents>,
    bedrooms: Option<int>,
    livingArea: int,
    garden: bool,
    gardenArea: int,
    gardenOrientation: Option<Orientation>,
    active: Option<bool>,
    dateAvailability: Option<Day>,
    salesperson: Option<Option<UserId>>,
    buyer: Option<PartnerId>,
    state: Option<State>)

  const DefaultBedrooms := 2
  const AvailabilityDelay := 90

  /**
   * A new property record: the required fields, the defaults of the fields
   * the caller leaves out, and the two price CHECK constraints.
   */
  function NewProperty(vals: PropertyVals, today: Day, user: UserId): (r: Result<Property>)
    ensures r.Success? <==>
      && vals.name.Some?
      && vals.expectedPrice.Some? && vals.expectedPrice.value > 0
      && vals.sellingPrice.GetOr(0) >= 0
    ensures vals.name.None? || vals.expectedPrice.None? ==> r == Failure(RequiredFieldMissing)
    ensures r.Failure? && vals.name.Some? && vals.expectedPrice.Some? ==> r == Failure(ConstraintViolated)
    ensures r.Success? ==>
      && r.value.name == vals.name.value
      && r.value.expectedPrice == vals.expectedPrice.value
      && r.value.sellingPrice == vals.sellingPrice.GetOr(0)
      && r.value.bedrooms == vals.bedrooms.GetOr(DefaultBedrooms)
      && r.value.livingArea == vals.livingArea
      && r.value.garden == vals.garden
      && r.value.gardenArea == vals.gardenArea
      && r.value.gardenOrientation == vals.gardenOrientation
      && r.value.state == vals.state.GetOr(New)
      && r.value.buyer == vals.buyer
      && r.value.salesperson == vals.salesperson.GetOr(Some(user))
      && r.value.active == vals.active.GetOr(true)
      && r.value.dateAvailability == vals.dateAvailability.GetOr(today + AvailabilityDelay)
  {
    if vals.name.None? || vals.expectedPrice.None? then Failure(RequiredFieldMissing)
    else if vals.expectedPrice.value <= 0 || vals.sellingPrice.GetOr(0) < 0 then Failure(ConstraintViolated)
    else Success(Property(
      vals.name.value, vals.expectedPrice.value, vals.sellingPrice.GetOr(0),
      vals.bedrooms.GetOr(DefaultBedrooms), vals.livingArea, vals.garden, vals.gardenArea,
      vals.gardenOrientation, vals.active.GetOr(true),
      vals.dateAvailability.GetOr(today + AvailabilityDelay),
      vals.salesperson.GetOr(Some(user)), vals.buyer, vals.state.GetOr(New)))
  }

  /**
   * A property created from a name and a positive expected price alone is
   * new, active, unsold, without buyer, available in 90 days and assigned
   * to the acting user.
   */
  lemma NewPropertyDefaults(vals: PropertyVals, today: Day, user: UserId)
    requires vals.name.Some? && vals.expectedPrice.Some? && vals.expectedPrice.value > 0
    requires vals.sellingPrice.None? && vals.active.None? && vals.dateAvailability.None?
    requires vals.salesperson.None? && vals.buyer.None? && vals.state.None?
    ensures NewProperty(vals, today, user).Success?
    ensures
      var p := NewProperty(vals, today, user).value;
      && p.state == New && p.sellingPrice == 0 && p.buyer == None
      && p.salesperson == Some(user) && p.active && p.dateAvailability == today + 90
  {
  }

  /** The derived total area. */
  function TotalArea(p: Property): int {
    p.livingArea + p.gardenArea
  }

  /**
   * The derived best price of a property, given the prices of its offers:
   * the largest of them, or 0 when there is none.
   */
  function BestPrice(prices: seq<Cents>): (best: Cents)
    ensures prices == [] ==> best == 0
    ensures forall i | 0 <= i < |prices| :: prices[i] <= best
    ensures prices != [] ==> best in prices
    decreases |prices|
  {
    if |prices| == 0 then 0
    else if |prices| == 1 then prices[0]
    else
      var rest := BestPrice(prices[..|prices| - 1]);
      var last := prices[|prices| - 1];
      if last > rest then last else rest
  }

  /**
   * The form's reaction to toggling the garden flag: defaults when the
   * garden is switched on, cleared values when it is switched off.
   */
  function OnchangeGarden(p: Property): (q: Property)
    ensures p.garden ==> q.gardenArea == 10 && q.gardenOrientation == Some(North)
    ensures !p.garden ==> q.gardenArea == 0 && q.gardenOrientation == None
    ensures q == p.(gardenArea := q.gardenArea, gardenOrientation := q.gardenOrientation)
  {
    if p.garden then p.(gardenArea := 10, gardenOrientation := Some(North))
    else p.(gardenArea := 0, gardenOrientation := None)
  }

  lemma TotalAreaAfterGardenToggle(p: Property)
    ensures TotalArea(OnchangeGarden(p)) == p.livingArea + (if p.garden then 10 else 0)
  {
  }

  /** Moving one record to `target`, refused when it is in `forbidden`. */
  function SetStateUnless(p: Property, forbidden: State, target: State, err: Error): Result<Property> {
    if p.state == forbidden then Failure(err) else Success(p.(state := target))
  }

  /** The body of the cancel loop for one record. */
  function Cancel(p: Property): Result<Property> {
    SetStateUnless(p, Sold, Canceled, SoldCannotBeCanceled)
  }

  /** The body of the base sold loop for one record. */
  function MarkSold(p: Property): Result<Property> {
    SetStateUnless(p, Canceled, Sold, CanceledCannotBeSold)
  }

  /** The guard of the delete loop: only new and canceled properties may go. */
  predicate Deletable(p: Property) {
    p.state == New || p.state == Canceled
  }
}
