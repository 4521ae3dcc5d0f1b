/** The early invoice service. Its invoices live in one package-level map,
    modelled here as explicit state: `None` is the nil map before the first
    creation. The ID generator and the clock are parameters; the mutex is not
    modelled, every operation is atomic. */
module EarlyService {
  import opened Wrappers
  import Invoices
  import opened EarlyInvoice
  import Text

  type Registry = Option<map<string, Invoice>>

  const ErrNotImplemented := "not implemented"

  /** The invoices a registry holds; a nil map holds none. */
  function Contents(reg: Registry): (invoices: map<string, Invoice>)
    ensures reg.None? ==> |invoices| == 0
    ensures reg.Some? ==> invoices == reg.value
  {
    if reg.None? then map[] else reg.value
  }

  function ErrStoreExists(id: string): string
  {
    "store invoice: ID " + Text.Quote(id) + " exists"
  }

  /** The registry after an operation, the invoice returned and the error. */
  datatype Created = Created(registry: Registry, inv: Invoice, err: Option<string>)

  /** `CreateInvoice`: build an open invoice under the generated ID `genId`
      and store it unless that ID is taken. */
  function CreateInvoice(reg: Registry, genId: string, customer: string, now: Invoices.Time): (r: Created)
    ensures genId in Contents(reg) <==> r.err.Some?
    ensures r.err.Some? ==>
      r.registry == reg && r.inv == ZeroInvoice && r.err.value == ErrStoreExists(genId)
    ensures r.err.None? ==>
      && r.inv.id == genId && r.inv.customerName == customer && IsFresh(r.inv, now)
      && r.registry.Some?
      && Contents(r.registry) == Contents(reg)[genId := r.inv]
  {
    var inv := EarlyInvoice.CreateInvoice(genId, customer, now);
    var invoices := Contents(reg);
    if inv.id in invoices then Created(reg, ZeroInvoice, Some(ErrStoreExists(inv.id)))
    else Created(Some(invoices[inv.id := inv]), inv, None)
  }

  /** `ViewInvoice`: the stored invoice, or `(nil, nil)` for an unknown ID. */
  function ViewInvoice(reg: Registry, id: string): (r: Result<Option<Invoice>>)
    ensures r.Ok?
    ensures r.value.None? <==> id !in Contents(reg)
    ensures r.value.Some? ==> r.value.value == Contents(reg)[id]
  {
    if reg.None? then Ok(None)
    else if id !in reg.value then Ok(None)
    else Ok(Some(reg.value[id]))
  }

  /** The registry after an operation that only reports an error. */
  datatype Step = Step(registry: Registry, err: Option<string>)

  /** `UpdateInvoiceCustomer`: not implemented. */
  function UpdateInvoiceCustomer(reg: Registry, id: string, name: string): (r: Step)
    ensures r.err == Some(ErrNotImplemented) && r.registry == reg
  {
    Step(reg, Some(ErrNotImplemented))
  }

  /** `CancelInvoice`: not implemented. */
  function CancelInvoice(reg: Registry, id: string): (r: Step)
    ensures r.err == Some(ErrNotImplemented) && r.registry == reg
  {
    Step(reg, Some(ErrNotImplemented))
  }

  /** `PayInvoice`: not implemented. */
  function PayInvoice(reg: Registry, id: string): (r: Step)
    ensures r.err == Some(ErrNotImplemented) && r.registry == reg
  {
    Step(reg, Some(ErrNotImplemented))
  }

  /** A created invoice is what a later view returns; views of other IDs are
      unaffected, and creating again under the same ID fails. */
  lemma CreateThenView(reg: Registry, genId: string, customer: string, now: Invoices.Time, other: string)
    requires genId !in Contents(reg)
    requires other != genId
    ensures var c := CreateInvoice(reg, genId, customer, now);
      && ViewInvoice(c.registry, genId) == Ok(Some(c.inv))
      && ViewInvoice(c.registry, other) == ViewInvoice(reg, other)
      && CreateInvoice(c.registry, genId, customer, now).err == Some(ErrStoreExists(genId))
  {
  }

  /** The nil map behaves as an empty one: nothing is viewed, and creation always succeeds. */
  lemma NilRegistryIsEmpty(id: string, genId: string, customer: string, now: Invoices.Time)
    ensures ViewInvoice(None, id) == Ok(None)
    ensures CreateInvoice(None, genId, customer, now).err.None?
    ensures CreateInvoice(None, genId, customer, now) == CreateInvoice(Some(map[]), genId, customer, now)
  {
  }
}
