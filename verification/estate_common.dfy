/**
 * Values shared by the estate modules: record identifiers, money, dates,
 * and the errors the sales workflow raises.
 *
 * Money is kept in whole cents and dates as day numbers, so the
 * two-decimal comparisons of the workflow become exact integer ones.
 */
module EstateCommon {

  /** Database identifiers of records. */
  type PropertyId = nat
  type OfferId = nat
  type PartnerId = nat
  type UserId = nat

  /** An amount of money in cents. */
  type Cents = int

  /** A calendar date as a day number. */
  type Day = int

  datatype Option<T> = None | Some(value: T) {
    function GetOr(default: T): T {
      if Some? then value else default
    }
  }

  /** Every way an action of the workflow can abort its transaction. */
  datatype Error =
    | MissingRecord            // a record of the batch, or the property of an offer, does not exist
    | RequiredFieldMissing     // a required field is left empty on create
    | ConstraintViolated       // a database CHECK constraint fails
    | SoldCannotBeCanceled
    | CanceledCannotBeSold
    | NotDeletable
    | OfferBelowExisting
    | OfferAlreadyAccepted
    | PriceBelowNinetyPercent
    | SaleDataMissing

  datatype Result<T> = Success(value: T) | Failure(error: Error)

  /** The result of an action that returns nothing. */
  datatype Outcome = Pass | Fail(error: Error)
}
