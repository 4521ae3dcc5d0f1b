/** The invoice entity as the storage adapters see it: an int-coded status,
    a sequence of line items and an optional issue date. Clock readings are
    integer ticks. */
module Invoices {
  import opened Wrappers

  /** A clock reading; `time.Time` in the source. */
  type Time = int

  /** The int-coded invoice status; the adapters only convert it to and
      from `int`, so no particular codes are assumed. */
  newtype Status = int

  datatype Item = Item(
    id: string,
    productName: string,
    price: int,
    qty: int,
    createdAt: Time)

  datatype Invoice = Invoice(
    id: string,
    customerName: string,
    date: Option<Time>,
    status: Status,
    items: seq<Item>,
    createdAt: Time,
    updatedAt: Time)
}
