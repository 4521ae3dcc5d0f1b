/** The in-memory storage adapter: one map from invoice ID to invoice. The
    mutex guarding it is not modelled; every operation is atomic. */
module MemoryStorage {
  import opened Wrappers
  import opened Invoices
  import Text
  import StoragePort

  datatype Memory = Memory(records: map<string, Invoice>)

  /** The store after a write, and the error the write returned. */
  datatype Written = Written(store: Memory, err: Option<string>)

  function ErrExists(id: string): string
  {
    "ID " + Text.Quote(id) + " exists"
  }

  function ErrNotFound(id: string): string
  {
    "invoice " + Text.Quote(id) + " not found"
  }

  /** `New`: a store in which no invoice is found. */
  function New(): (m: Memory)
    ensures forall id :: FindInvoice(m, id) == Ok(None)
  {
    Memory(map[])
  }

  function AddInvoice(m: Memory, inv: Invoice): (r: Written)
    ensures StoragePort.AddContract(m.records, inv, r.store.records, r.err, true)
    ensures inv.id in m.records ==> r.err == Some(ErrExists(inv.id))
  {
    if inv.id in m.records then Written(m, Some(ErrExists(inv.id)))
    else Written(Memory(m.records[inv.id := inv]), None)
  }

  function FindInvoice(m: Memory, id: string): (r: Result<Option<Invoice>>)
    ensures StoragePort.FindContract(m.records, id, r, true)
  {
    if id in m.records then Ok(Some(m.records[id])) else Ok(None)
  }

  function UpdateInvoice(m: Memory, inv: Invoice, now: Time): (r: Written)
    ensures StoragePort.UpdateContract(m.records, inv, now, r.store.records, r.err, true)
    ensures inv.id !in m.records ==> r.err == Some(ErrNotFound(inv.id))
    ensures r.err.None? ==> r.store.records[inv.id].createdAt == m.records[inv.id].createdAt
  {
    if inv.id !in m.records then Written(m, Some(ErrNotFound(inv.id)))
    else
      var stored := inv.(createdAt := m.records[inv.id].createdAt, updatedAt := now);
      Written(Memory(m.records[inv.id := stored]), None)
  }

  /** An added invoice is found again; adding the same ID a second time fails. */
  lemma AddThenFind(m: Memory, inv: Invoice)
    requires inv.id !in m.records
    ensures AddInvoice(m, inv).err.None?
    ensures FindInvoice(AddInvoice(m, inv).store, inv.id) == Ok(Some(inv))
    ensures AddInvoice(AddInvoice(m, inv).store, inv).err == Some(ErrExists(inv.id))
  {
  }

  /** Add and Update touch only the entry for `inv.ID`: every other lookup is
      unchanged, Add grows the key set by at most that ID, Update keeps it. */
  lemma WritesTouchOneKey(m: Memory, inv: Invoice, now: Time)
    ensures forall id :: id != inv.id ==>
      FindInvoice(AddInvoice(m, inv).store, id) == FindInvoice(m, id) &&
      FindInvoice(UpdateInvoice(m, inv, now).store, id) == FindInvoice(m, id)
    ensures AddInvoice(m, inv).store.records.Keys <= m.records.Keys + {inv.id}
    ensures |AddInvoice(m, inv).store.records| <= |m.records| + 1
    ensures UpdateInvoice(m, inv, now).store.records.Keys == m.records.Keys
  {
  }

  /** After an update the found invoice carries the caller's fields, the
      original `CreatedAt`, and an `UpdatedAt` later than the caller's
      whenever the clock has moved on. */
  lemma UpdateThenFind(m: Memory, inv: Invoice, now: Time)
    requires inv.id in m.records
    requires inv.updatedAt < now
    ensures var found := FindInvoice(UpdateInvoice(m, inv, now).store, inv.id);
      && found.Ok? && found.value.Some?
      && found.value.value.customerName == inv.customerName
      && found.value.value.items == inv.items
      && found.value.value.createdAt == m.records[inv.id].createdAt
      && found.value.value.updatedAt > inv.updatedAt
  {
  }
}
