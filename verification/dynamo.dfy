/** The DynamoDB storage adapter. The remote table is modelled as a map from
    partition key to the flat record stored under it; `PutItem` is a
    conditional write evaluated atomically against the record currently under
    the key. Transport failures are parameters (`fault`), as is a stored
    record the SDK cannot decode (`corrupt`); the attribute-map encoding of
    the AWS SDK is otherwise abstracted away. */
module DynamoStorage {
  import opened Wrappers
  import opened Invoices
  import Text
  import StoragePort
  import MemoryStorage

  const KeyDelim := "#"
  const InvoicePKPrefix := "INVOICE"
  const ErrUnknownUnmarshalSource := "unknown unmarshal source"

  /** The flat record of an item, `dItem`. */
  datatype DItem = DItem(
    id: string,
    productName: string,
    price: int,
    qty: int,
    createdAt: Time)

  /** The flat record of an invoice, `dInvoice`, with its partition key and an int status. */
  datatype DInvoice = DInvoice(
    pk: string,
    id: string,
    customerName: string,
    date: Option<Time>,
    status: int,
    items: seq<DItem>,
    createdAt: Time,
    updatedAt: Time)

  // ---------------------------------------------------------------------------
  // Partition key

  /** `dInvoicePartitionKey`: the prefix, the delimiter, then the ID. */
  function PartitionKey(id: string): (pk: string)
    ensures |pk| == |id| + 8
    ensures pk[..8] == "INVOICE#" && pk[8..] == id
  {
    InvoicePKPrefix + KeyDelim + id
  }

  /** Distinct IDs never share a partition key. */
  lemma PartitionKeyInjective(a: string, b: string)
    ensures PartitionKey(a) == PartitionKey(b) <==> a == b
  {
  }

  // ---------------------------------------------------------------------------
  // Mapping between the domain entity and the flat record

  /** `InvoiceItemMarshal`: a flat item back to a domain item. */
  function ItemMarshal(di: DItem): (item: Item)
    ensures ItemUnmarshal(item) == di
  {
    Item(di.id, di.productName, di.price, di.qty, di.createdAt)
  }

  /** `invoiceItemUnmarshal`: a domain item to its flat record. */
  function ItemUnmarshal(item: Item): DItem
  {
    DItem(item.id, item.productName, item.price, item.qty, item.createdAt)
  }

  /** Every domain item survives the trip through its flat record. */
  lemma ItemRoundTrip(item: Item)
    ensures ItemMarshal(ItemUnmarshal(item)) == item
  {
  }

  /** The loop of `InvoiceMarshal`: every flat item converted, in order. */
  function ItemsMarshal(ds: seq<DItem>): (items: seq<Item>)
    ensures |items| == |ds|
    ensures forall i :: 0 <= i < |ds| ==> items[i] == ItemMarshal(ds[i])
  {
    if |ds| == 0 then [] else [ItemMarshal(ds[0])] + ItemsMarshal(ds[1..])
  }

  /** The loop of `invoiceUnmarshal`: every domain item converted, in order. */
  function ItemsUnmarshal(items: seq<Item>): (ds: seq<DItem>)
    ensures |ds| == |items|
    ensures forall i :: 0 <= i < |items| ==> ds[i] == ItemUnmarshal(items[i])
  {
    if |items| == 0 then [] else [ItemUnmarshal(items[0])] + ItemsUnmarshal(items[1..])
  }

  /** `InvoiceMarshal`: a flat record back to the domain invoice; the partition key is dropped. */
  function InvoiceMarshal(d: DInvoice): (inv: Invoice)
    ensures inv.id == d.id && |inv.items| == |d.items|
  {
    Invoice(d.id, d.customerName, d.date, d.status as Status, ItemsMarshal(d.items), d.createdAt, d.updatedAt)
  }

  /** `invoiceUnmarshal`: the flat record of an invoice, always keyed by the invoice's partition key. */
  function InvoiceUnmarshal(inv: Invoice): (d: DInvoice)
    ensures d.pk == PartitionKey(inv.id)
    ensures d.id == inv.id && |d.items| == |inv.items|
  {
    DInvoice(PartitionKey(inv.id), inv.id, inv.customerName, inv.date, inv.status as int,
             ItemsUnmarshal(inv.items), inv.createdAt, inv.updatedAt)
  }

  /** Every invoice, with or without issue date and items, survives the round trip. */
  lemma RoundTrip(inv: Invoice)
    ensures InvoiceMarshal(InvoiceUnmarshal(inv)) == inv
  {
  }

  /** A flat record survives the trip through the domain exactly when it sits
      under its own invoice's partition key. */
  lemma RecordRoundTrip(d: DInvoice)
    ensures InvoiceUnmarshal(InvoiceMarshal(d)) == d <==> d.pk == PartitionKey(d.id)
  {
  }

  /** Distinct invoices map to distinct flat records. */
  lemma UnmarshalInjective(a: Invoice, b: Invoice)
    ensures InvoiceUnmarshal(a) == InvoiceUnmarshal(b) <==> a == b
  {
  }

  // ---------------------------------------------------------------------------
  // Decoding

  /** The `Item` attribute map of a `GetItem` output: empty, one that the SDK
      decodes into `record`, or one it cannot decode (`reason` is its error). */
  datatype AttributeMap = Empty | Encoded(record: DInvoice) | Undecodable(reason: string)

  datatype GetItemOutput = GetItemOutput(item: AttributeMap)

  /** The dynamic type of the value handed to `unmarshalDinvoice`. */
  datatype UnmarshalSource =
    | FromInvoice(inv: Invoice)
    | FromGetItemOutput(output: Option<GetItemOutput>)
    | FromOther

  /** `getItemOutputUnmarshal`: a nil output or an empty item decodes to nothing;
      a decoding failure is reported with the decoder's own error. */
  function GetItemOutputUnmarshal(output: Option<GetItemOutput>): (r: Result<Option<DInvoice>>)
    ensures r == Ok(None) <==> output.None? || output.value.item.Empty?
    ensures r.Err? <==> output.Some? && output.value.item.Undecodable?
    ensures output.Some? && output.value.item.Undecodable? ==> r == Err(output.value.item.reason)
    ensures forall d :: r == Ok(Some(d)) <==> output == Some(GetItemOutput(Encoded(d)))
  {
    if output.None? || output.value.item.Empty? then Ok(None)
    else match output.value.item
      case Undecodable(reason) => Err(reason)
      case Encoded(d) => Ok(Some(d))
  }

  /** `unmarshalDinvoice`: dispatch on the dynamic type of the source. */
  function UnmarshalDinvoice(v: UnmarshalSource): (r: Result<Option<DInvoice>>)
    ensures v.FromOther? <==> r == Err(ErrUnknownUnmarshalSource) && !v.FromGetItemOutput?
    ensures v.FromInvoice? ==>
      r.Ok? && r.value.Some? && r.value.value.pk == PartitionKey(v.inv.id) && InvoiceMarshal(r.value.value) == v.inv
    ensures v.FromGetItemOutput? ==> r == GetItemOutputUnmarshal(v.output)
  {
    match v
    case FromInvoice(inv) =>
      RoundTrip(inv);
      Ok(Some(InvoiceUnmarshal(inv)))
    case FromGetItemOutput(output) => GetItemOutputUnmarshal(output)
    case FromOther => Err(ErrUnknownUnmarshalSource)
  }

  // ---------------------------------------------------------------------------
  // The remote table and its conditional write

  type Table = map<string, DInvoice>

  /** Every record sits under its own key, which is its invoice's partition key. */
  ghost predicate TableValid(t: Table)
  {
    forall k :: k in t ==> t[k].pk == k && k == PartitionKey(t[k].id)
  }

  /** The condition expression of a put: `id <> v` or `id = v`, evaluated
      against the record currently under the key; an absent record has no
      `id`, so `<>` holds and `=` fails. */
  datatype Condition = IdNotEqual(v: string) | IdEqual(v: string)

  function Holds(c: Condition, existing: Option<DInvoice>): bool
  {
    match c
    case IdNotEqual(v) => existing.None? || existing.value.id != v
    case IdEqual(v) => existing.Some? && existing.value.id == v
  }

  /** Against the same record, exactly one of `id <> v` and `id = v` holds. */
  lemma ConditionsComplementary(v: string, existing: Option<DInvoice>)
    ensures Holds(IdNotEqual(v), existing) <==> !Holds(IdEqual(v), existing)
  {
  }

  function Lookup(t: Table, key: string): Option<DInvoice>
  {
    if key in t then Some(t[key]) else None
  }

  /** The errors a client call can report. */
  datatype ClientError = ConditionalCheckFailed | RequestFailed(msg: string)

  /** How a request can go wrong between the client and the service.
      `Failed`: the client reports `msg`; `applied` tells whether the
      service had carried out the request before the failure reached the
      client (a lost reply, say). `Retried`: the reply to the first attempt
      was lost after the service had evaluated it, and the client sent the
      same request once more and reports the answer to that second attempt. */
  datatype RequestFault = Failed(msg: string, applied: bool) | Retried

  datatype PutResult = PutResult(table: Table, err: Option<ClientError>)

  /** One evaluation of a put by the service: a full overwrite under
      `item.pk` if the condition holds against the record currently there. */
  function Attempt(t: Table, item: DInvoice, cond: Condition): (r: PutResult)
    ensures r.err.None? <==> Holds(cond, Lookup(t, item.pk))
    ensures r.err.None? ==> r.table == t[item.pk := item]
    ensures r.err.Some? ==> r.err == Some(ConditionalCheckFailed) && r.table == t
  {
    if Holds(cond, Lookup(t, item.pk)) then PutResult(t[item.pk := item], None)
    else PutResult(t, Some(ConditionalCheckFailed))
  }

  /** The remote `PutItem`. A failed request reports its own error whether or
      not it was carried out; a retried one is evaluated twice, the second
      time against what the first attempt left. */
  function PutItem(t: Table, item: DInvoice, cond: Condition, fault: Option<RequestFault>): (r: PutResult)
    ensures fault.None? ==> (r.err.None? <==> Holds(cond, Lookup(t, item.pk)))
    ensures r.err.None? ==> r.table == t[item.pk := item]
    ensures r.table == t || r.table == t[item.pk := item]
    ensures !Holds(cond, Lookup(t, item.pk)) ==> r.table == t
    ensures fault.Some? && fault.value.Failed? ==> r.err == Some(RequestFailed(fault.value.msg))
    ensures fault.Some? && fault.value.Failed? && !fault.value.applied ==> r.table == t
    ensures fault.None? && r.err.Some? ==> r.err == Some(ConditionalCheckFailed) && r.table == t
    ensures fault == Some(Retried) ==> r.table == (if Holds(cond, Lookup(t, item.pk)) then t[item.pk := item] else t)
    ensures fault == Some(Retried) && cond == IdNotEqual(item.id) ==> r.err == Some(ConditionalCheckFailed)
    ensures fault == Some(Retried) && cond == IdEqual(item.id) ==> (r.err.None? <==> Holds(cond, Lookup(t, item.pk)))
  {
    match fault
    case None => Attempt(t, item, cond)
    case Some(Failed(msg, applied)) =>
      PutResult(if applied then Attempt(t, item, cond).table else t, Some(RequestFailed(msg)))
    case Some(Retried) => Attempt(Attempt(t, item, cond).table, item, cond)
  }

  /** The remote `GetItem` by partition key: a missing record yields an empty
      item, and a present one comes back as stored, or as attributes the SDK
      cannot decode when `corrupt` names the decoder's error. */
  function GetItem(t: Table, key: string, fault: Option<string>, corrupt: Option<string>): (r: Result<GetItemOutput>)
    ensures r.Err? <==> fault.Some?
    ensures r.Err? ==> r.error == fault.value
    ensures r.Ok? ==> (r.value.item.Empty? <==> key !in t)
    ensures r.Ok? && key in t && corrupt.None? ==> r.value.item == Encoded(t[key])
    ensures r.Ok? && key in t && corrupt.Some? ==> r.value.item == Undecodable(corrupt.value)
  {
    if fault.Some? then Err(fault.value)
    else if key !in t then Ok(GetItemOutput(Empty))
    else if corrupt.Some? then Ok(GetItemOutput(Undecodable(corrupt.value)))
    else Ok(GetItemOutput(Encoded(t[key])))
  }

  /** `isConditionalCheckError`: only the service's conditional-check code
      counts; a request that failed for any other reason does not. */
  function IsConditionalCheckError(err: Option<ClientError>): (b: bool)
    ensures b <==> err.Some? && !err.value.RequestFailed?
  {
    err == Some(ConditionalCheckFailed)
  }

  // ---------------------------------------------------------------------------
  // The adapter

  /** `upsertInvoice`: put the invoice's flat record under its partition key, guarded by `cond`. */
  function Upsert(t: Table, inv: Invoice, cond: Condition, fault: Option<RequestFault>): (r: PutResult)
    ensures fault.None? ==> (r.err.None? <==> Holds(cond, Lookup(t, PartitionKey(inv.id))))
    ensures r.err.None? ==> r.table == t[PartitionKey(inv.id) := InvoiceUnmarshal(inv)]
    ensures r.table == t || r.table == t[PartitionKey(inv.id) := InvoiceUnmarshal(inv)]
    ensures !Holds(cond, Lookup(t, PartitionKey(inv.id))) ==> r.table == t
    ensures fault.Some? && fault.value.Failed? ==> r.err == Some(RequestFailed(fault.value.msg))
    ensures fault.Some? && fault.value.Failed? && !fault.value.applied ==> r.table == t
    ensures fault.None? && r.err.Some? ==> r.err == Some(ConditionalCheckFailed) && r.table == t
    ensures fault == Some(Retried) ==>
      r.table == (if Holds(cond, Lookup(t, PartitionKey(inv.id))) then t[PartitionKey(inv.id) := InvoiceUnmarshal(inv)] else t)
    ensures fault == Some(Retried) && cond == IdNotEqual(inv.id) ==> r.err == Some(ConditionalCheckFailed)
    ensures fault == Some(Retried) && cond == IdEqual(inv.id) ==>
      (r.err.None? <==> Holds(cond, Lookup(t, PartitionKey(inv.id))))
  {
    PutItem(t, InvoiceUnmarshal(inv), cond, fault)
  }

  datatype Written = Written(table: Table, err: Option<string>)

  function ErrExists(id: string): string
  {
    "invoice " + Text.Quote(id) + " exists"
  }

  function ErrNotFound(id: string): string
  {
    "invoice " + Text.Quote(id) + " not found"
  }

  /** The abstract contents of a valid table: each record, as a domain invoice, under its ID. */
  ghost function View(t: Table): StoragePort.Records
    requires TableValid(t)
  {
    map k | k in t :: t[k].id := InvoiceMarshal(t[k])
  }

  /** An ID is in the view exactly when its partition key is in the table. */
  lemma ViewLookup(t: Table, id: string)
    requires TableValid(t)
    ensures id in View(t) <==> PartitionKey(id) in t
    ensures id in View(t) ==> View(t)[id] == InvoiceMarshal(t[PartitionKey(id)])
  {
  }

  /** Writing an invoice's flat record keeps the table valid and updates the view at its ID only. */
  lemma ViewWrite(t: Table, inv: Invoice)
    requires TableValid(t)
    ensures TableValid(t[PartitionKey(inv.id) := InvoiceUnmarshal(inv)])
    ensures View(t[PartitionKey(inv.id) := InvoiceUnmarshal(inv)]) == View(t)[inv.id := inv]
  {
    var t' := t[PartitionKey(inv.id) := InvoiceUnmarshal(inv)];
    RoundTrip(inv);
    forall id
      ensures id in View(t') <==> id in View(t)[inv.id := inv]
      ensures id in View(t') ==> View(t')[id] == View(t)[inv.id := inv][id]
    {
      ViewLookup(t', id);
      ViewLookup(t, id);
      PartitionKeyInjective(id, inv.id);
    }
  }

  /** On a valid table, the `<>` condition holds exactly when no record has
      this ID, the `=` condition exactly when one has, and a write of the
      invoice's record updates the view at its ID only. */
  lemma WriteFacts(t: Table, inv: Invoice)
    ensures TableValid(t) ==>
      && (Holds(IdNotEqual(inv.id), Lookup(t, PartitionKey(inv.id))) <==> inv.id !in View(t))
      && (Holds(IdEqual(inv.id), Lookup(t, PartitionKey(inv.id))) <==> inv.id in View(t))
      && TableValid(t[PartitionKey(inv.id) := InvoiceUnmarshal(inv)])
      && View(t[PartitionKey(inv.id) := InvoiceUnmarshal(inv)]) == View(t)[inv.id := inv]
  {
    if TableValid(t) {
      ViewLookup(t, inv.id);
      ViewWrite(t, inv);
    }
  }

  /** `AddInvoice`: write the full record only if no record with this ID exists. */
  function AddInvoice(t: Table, inv: Invoice, fault: Option<RequestFault>): (r: Written)
    ensures TableValid(t) ==> TableValid(r.table)
    ensures TableValid(t) ==> StoragePort.AddContract(View(t), inv, View(r.table), r.err, fault.None?)
    ensures TableValid(t) && fault.None? && inv.id in View(t) ==> r.err == Some(ErrExists(inv.id))
    ensures fault.Some? && fault.value.Failed? ==> r.err == Some(fault.value.msg)
    ensures fault.Some? && fault.value.Failed? && !fault.value.applied ==> r.table == t
    ensures fault == Some(Retried) ==> r.err == Some(ErrExists(inv.id))
    ensures TableValid(t) && fault == Some(Retried) ==> View(r.table) == View(t)[inv.id := inv] || inv.id in View(t)
    ensures r.table == t || r.table == t[PartitionKey(inv.id) := InvoiceUnmarshal(inv)]
    ensures r.err.None? ==> r.table == t[PartitionKey(inv.id) := InvoiceUnmarshal(inv)]
  {
    WriteFacts(t, inv);
    var put := Upsert(t, inv, IdNotEqual(inv.id), fault);
    if IsConditionalCheckError(put.err) then Written(put.table, Some(ErrExists(inv.id)))
    else if put.err.None? then Written(put.table, None)
    else Written(put.table, Some(put.err.value.msg))
  }

  /** `FindInvoice`: a direct read of the record under the ID's partition key.
      A record the SDK cannot decode (`corrupt`) fails with the decoder's error. */
  function FindInvoice(t: Table, id: string, fault: Option<string>, corrupt: Option<string>): (r: Result<Option<Invoice>>)
    ensures TableValid(t) ==> StoragePort.FindContract(View(t), id, r, fault.None? && corrupt.None?)
    ensures fault.Some? ==> r == Err(fault.value)
    ensures fault.None? && PartitionKey(id) in t && corrupt.Some? ==> r == Err(corrupt.value)
    ensures r.Ok? && r.value.Some? ==> PartitionKey(id) in t && r.value.value == InvoiceMarshal(t[PartitionKey(id)])
    ensures fault.None? && PartitionKey(id) !in t ==> r == Ok(None)
  {
    match GetItem(t, PartitionKey(id), fault, corrupt)
    case Err(e) => Err(e)
    case Ok(output) =>
      match UnmarshalDinvoice(FromGetItemOutput(Some(output)))
      case Err(e) => Err(e)
      case Ok(None) => Ok(None)
      case Ok(Some(d)) => Ok(Some(InvoiceMarshal(d)))
  }

  /** `UpdateInvoice`: stamp `UpdatedAt := now` and write the full record only
      if a record with this ID exists. `CreatedAt` is the caller's, not the stored one. */
  function UpdateInvoice(t: Table, inv: Invoice, now: Time, fault: Option<RequestFault>): (r: Written)
    ensures TableValid(t) ==> TableValid(r.table)
    ensures TableValid(t) ==> StoragePort.UpdateContract(View(t), inv, now, View(r.table), r.err, fault.None? || fault == Some(Retried))
    ensures TableValid(t) && (fault.None? || fault == Some(Retried)) && inv.id !in View(t) ==> r.err == Some(ErrNotFound(inv.id))
    ensures TableValid(t) && r.err.None? ==> View(r.table)[inv.id].createdAt == inv.createdAt
    ensures fault.Some? && fault.value.Failed? ==> r.err == Some(fault.value.msg)
    ensures fault.Some? && fault.value.Failed? && !fault.value.applied ==> r.table == t
    ensures r.table == t || r.table == t[PartitionKey(inv.id) := InvoiceUnmarshal(inv.(updatedAt := now))]
    ensures r.err.None? ==> r.table == t[PartitionKey(inv.id) := InvoiceUnmarshal(inv.(updatedAt := now))]
  {
    var stamped := inv.(updatedAt := now);
    WriteFacts(t, stamped);
    var put := Upsert(t, stamped, IdEqual(inv.id), fault);
    if IsConditionalCheckError(put.err) then Written(put.table, Some(ErrNotFound(inv.id)))
    else if put.err.None? then Written(put.table, None)
    else Written(put.table, Some(put.err.value.msg))
  }

  /** An invoice added to the table is found again, and a second add of it fails. */
  lemma AddThenFind(t: Table, inv: Invoice)
    requires TableValid(t)
    requires PartitionKey(inv.id) !in t
    ensures AddInvoice(t, inv, None).err.None?
    ensures FindInvoice(AddInvoice(t, inv, None).table, inv.id, None, None) == Ok(Some(inv))
    ensures AddInvoice(AddInvoice(t, inv, None).table, inv, None).err == Some(ErrExists(inv.id))
  {
  }

  /** A write whose reply was lost may still have been carried out: the add
      reports the transport error, yet the invoice is there to be found. */
  lemma LostReplyStillWrites(t: Table, inv: Invoice, msg: string)
    requires TableValid(t)
    requires PartitionKey(inv.id) !in t
    ensures AddInvoice(t, inv, Some(Failed(msg, true))).err == Some(msg)
    ensures FindInvoice(AddInvoice(t, inv, Some(Failed(msg, true))).table, inv.id, None, None) == Ok(Some(inv))
  {
  }

  /** An add whose first reply was lost and whose retry then met its own
      write reports `invoice "<id>" exists` for an ID that was absent, yet
      the invoice is there to be found. */
  lemma RetriedAddReportsExists(t: Table, inv: Invoice)
    requires TableValid(t)
    requires PartitionKey(inv.id) !in t
    ensures AddInvoice(t, inv, Some(Retried)).err == Some(ErrExists(inv.id))
    ensures FindInvoice(AddInvoice(t, inv, Some(Retried)).table, inv.id, None, None) == Ok(Some(inv))
  {
  }

  /** The two backends word a duplicate add differently: `ID "<id>" exists`
      in memory, `invoice "<id>" exists` here, for every ID. */
  lemma DuplicateWordingDiffers(id: string)
    ensures ErrExists(id) != MemoryStorage.ErrExists(id)
  {
    assert ErrExists(id)[0] != MemoryStorage.ErrExists(id)[0];
  }
}
