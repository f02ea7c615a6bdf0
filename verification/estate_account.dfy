/**
 * Selling with invoicing: the sold action as extended by the accounting
 * module.  Every record of the batch must have a selling price and a buyer;
 * an invoice is built for each, and then the base sold action runs.  The
 * action is one transaction, so a refused sale leaves no invoice behind.
 */
module EstateAccount {
  import opened EstateCommon
  import opened EstateProperty
  import opened EstateRecords

  datatype MoveType = OutInvoice

  /** An invoice line; its unit price is in cents and need not be a whole number of them. */
  datatype InvoiceLine = InvoiceLine(name: string, quantity: int, priceUnit: real)

  datatype Invoice = Invoice(partner: PartnerId, moveType: MoveType, lines: seq<InvoiceLine>)

  const CommissionRate: real := 0.06
  const AdministrativeFee: real := 10000.0  // 100.00 in cents

  /** The guard: a nonzero selling price and a buyer. */
  predicate ReadyForSale(p: Property) {
    p.sellingPrice != 0 && p.buyer.Some?
  }

  /** The invoice of one record, or the guard's error. */
  function InvoiceFor(p: Property): Result<Invoice> {
    if !ReadyForSale(p) then Failure(SaleDataMissing)
    else Success(Invoice(p.buyer.value, OutInvoice, [
      InvoiceLine("Commission (6%) for property " + p.name, 1, p.sellingPrice as real * CommissionRate),
      InvoiceLine("Administrative Fees", 1, AdministrativeFee)]))
  }

  /** The invoicing loop over the batch, stopping at the first error. */
  function Invoices(props: map<PropertyId, Property>, ids: seq<PropertyId>): Result<seq<Invoice>>
    decreases |ids|
  {
    if ids == [] then Success([])
    else match Invoices(props, ids[..|ids| - 1])
      case Failure(e) => Failure(e)
      case Success(invoices) =>
        var id := ids[|ids| - 1];
        if id !in props then Failure(MissingRecord)
        else match InvoiceFor(props[id])
          case Failure(e) => Failure(e)
          case Success(invoice) => Success(invoices + [invoice])
  }

  /** Once a prefix of the batch fails to invoice, the whole batch fails with that error. */
  lemma {:induction false} InvoicesAbort(props: map<PropertyId, Property>, ids: seq<PropertyId>, i: nat)
    requires i <= |ids| && Invoices(props, ids[..i]).Failure?
    ensures Invoices(props, ids) == Invoices(props, ids[..i])
    decreases |ids|
  {
    if i == |ids| {
      assert ids[..i] == ids;
    } else {
      var init := ids[..|ids| - 1];
      assert init[..i] == ids[..i];
      InvoicesAbort(props, init, i);
    }
  }

  /** The whole action: invoicing first, then the base sold loop. */
  function SellWithInvoice(d: Db, ids: seq<PropertyId>): Result<(Db, seq<Invoice>)> {
    match Invoices(d.properties, ids)
    case Failure(e) => Failure(e)
    case Success(invoices) =>
      match Run(d, ids, SoldStep)
      case Failure(e) => Failure(e)
      case Success(d') => Success((d', invoices))
  }

  /** The invoice of a sale: to the buyer, a 6% commission line named after the property, then a 100.00 fee line. */
  predicate IsSaleInvoice(invoice: Invoice, p: Property) {
    && p.buyer.Some?
    && invoice.partner == p.buyer.value
    && invoice.moveType == OutInvoice
    && |invoice.lines| == 2
    && invoice.lines[0].name == "Commission (6%) for property " + p.name
    && invoice.lines[0].quantity == 1
    && invoice.lines[0].priceUnit == p.sellingPrice as real * 6.0 / 100.0
    && invoice.lines[1].name == "Administrative Fees"
    && invoice.lines[1].quantity == 1
    && invoice.lines[1].priceUnit == 10000.0
  }

  /**
   * Invoicing succeeds exactly when every record exists and has a selling
   * price and a buyer; it then yields one sale invoice per record, in order.
   */
  lemma {:induction false} InvoicesSpec(props: map<PropertyId, Property>, ids: seq<PropertyId>)
    ensures Invoices(props, ids).Success? <==>
      forall i | 0 <= i < |ids| :: ids[i] in props && ReadyForSale(props[ids[i]])
    ensures Invoices(props, ids).Failure? && (forall i | 0 <= i < |ids| :: ids[i] in props) ==>
      Invoices(props, ids).error == SaleDataMissing
    ensures Invoices(props, ids).Success? ==>
      var invoices := Invoices(props, ids).value;
      |invoices| == |ids| && forall i | 0 <= i < |ids| :: IsSaleInvoice(invoices[i], props[ids[i]])
    decreases |ids|
  {
    if ids != [] {
      var init := ids[..|ids| - 1];
      assert ids == init + [ids[|ids| - 1]];
      InvoicesSpec(props, init);
    }
  }

  /**
   * Selling with invoicing succeeds exactly when every record has a selling
   * price and a buyer and none is canceled.  Then every record is sold,
   * nothing else changes, and each record has its sale invoice.  A missing
   * price or buyer is reported before a canceled record, wherever it is in
   * the batch.
   */
  lemma SellWithInvoiceSpec(d: Db, ids: seq<PropertyId>)
    ensures SellWithInvoice(d, ids).Success? <==>
      forall i | 0 <= i < |ids| ::
        ids[i] in d.properties && ReadyForSale(d.properties[ids[i]]) && d.properties[ids[i]].state != Canceled
    ensures (forall i | 0 <= i < |ids| :: ids[i] in d.properties) &&
            (exists i | 0 <= i < |ids| :: !ReadyForSale(d.properties[ids[i]])) ==>
      SellWithInvoice(d, ids) == Failure(SaleDataMissing)
    ensures (forall i | 0 <= i < |ids| :: ids[i] in d.properties && ReadyForSale(d.properties[ids[i]])) &&
            (exists i | 0 <= i < |ids| :: d.properties[ids[i]].state == Canceled) ==>
      SellWithInvoice(d, ids) == Failure(CanceledCannotBeSold)
    ensures SellWithInvoice(d, ids).Success? ==>
      var (d', invoices) := SellWithInvoice(d, ids).value;
      && d'.offers == d.offers
      && d'.properties.Keys == d.properties.Keys
      && (forall id | id in d.properties ::
            d'.properties[id] == if id in ids then d.properties[id].(state := Sold) else d.properties[id])
      && |invoices| == |ids|
      && (forall i | 0 <= i < |ids| :: IsSaleInvoice(invoices[i], d.properties[ids[i]]))
  {
    InvoicesSpec(d.properties, ids);
    SoldBatch(d, ids);
  }

  /** A sale at 100,000.00 is invoiced 6,000.00 of commission and 100.00 of fees. */
  lemma CommissionExample(p: Property)
    requires p.sellingPrice == 10_000_000 && p.buyer.Some?
    ensures InvoiceFor(p).Success?
    ensures InvoiceFor(p).value.lines[0].priceUnit == 600_000.0
    ensures InvoiceFor(p).value.lines[1].priceUnit == 10_000.0
  {
  }
}
