/** The invoice of the early `invoice` package: a string status and no
    line items, built by `createInvoice`. */
module EarlyInvoice {
  import opened Wrappers
  import Invoices

  const InvoiceOpen := "open"
  const InvoiceIssued := "issued"
  const InvoiceClosed := "closed"

  datatype Invoice = Invoice(
    id: string,
    customerName: string,
    date: Option<Invoices.Time>,
    status: string,
    createdAt: Invoices.Time,
    updatedAt: Invoices.Time)

  /** Go's zero `Invoice{}`: empty strings, nil issue date, zero times. */
  const ZeroInvoice := Invoice("", "", None, "", 0, 0)

  /** A freshly created invoice: open, not yet issued, never updated. */
  ghost predicate IsFresh(inv: Invoice, now: Invoices.Time)
  {
    && inv.status == InvoiceOpen
    && inv.date.None?
    && inv.createdAt == now
    && inv.updatedAt == inv.createdAt
  }

  /** `createInvoice`: the given ID and customer kept verbatim, both timestamps
      read from the one clock reading `now`. */
  function CreateInvoice(id: string, customer: string, now: Invoices.Time): (inv: Invoice)
    ensures inv.id == id && inv.customerName == customer
    ensures IsFresh(inv, now)
  {
    Invoice(id, customer, None, InvoiceOpen, now, now)
  }
}
