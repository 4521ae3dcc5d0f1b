# go-invoice storage core, modelled in Dafny

This project models the storage side of `go-invoice`:

- the `Storage` port (add, find by ID, update) and its two adapters, the
  in-process map and the DynamoDB adapter with conditional puts;
- the early `invoice` package: the string-status invoice, `createInvoice`, and the
  service that keeps invoices in a package-level map;
- the storage factory;
- the command registry and line dispatch of the CLI.

Everything is pure functions over explicit state. The clock (`now`), the ID
generator (`genId`), transport failures of the remote service (`fault`) and
a stored record the SDK cannot decode (`corrupt`) are parameters.

Two invoice types appear because the repository snapshot holds two
generations:

- `EarlyInvoice.Invoice` has a string status and no items. It is the type of
  `invoice/invoice.go` and `invoice/service.go`.
- `Invoices.Invoice` has an int-coded status, a sequence of items and an
  optional issue date. It is the type the adapters read and write.

The port has no Dafny trait. Instead, `StoragePort` holds three contracts
(`AddContract`, `FindContract`, `UpdateContract`) stated over an abstract map
from ID to invoice. Every adapter operation carries the matching contract in
its `ensures`. The memory adapter is stated on its own map. The DynamoDB
adapter is stated on `View(table)`, the table read back as domain invoices.
The view is defined whenever every record sits under `INVOICE#<its id>`,
and every write keeps that invariant.

Each contract has a `healthy` flag. The in-process map is always healthy. A
DynamoDB call is healthy when it has no transport fault and, for a read, the
record decodes. Two kinds of put fault are modelled (`RequestFault`):

- `Failed(msg, applied)`: the client reports `msg`, and the service may
  still have carried out the put (a reply lost after the write).
- `Retried`: the reply to the first attempt was lost, and the client sent
  the put again. The second attempt meets what the first one left. An add
  then reports `invoice "<id>" exists` even when the ID was absent and the
  add itself wrote it. An update behaves as if nothing had gone wrong, so it
  still counts as healthy.

For an unhealthy call the contracts allow either the old contents or the
written ones. Even then an add never overwrites an existing ID and an update
never creates a missing one, because the service checks the put's condition.

The two adapters differ where the source differs:

- Memory's update copies the stored `CreatedAt` into the caller's invoice and
  stamps `UpdatedAt` from the clock (storage/memory/memory.go:53-54).
- DynamoDB's `UpdateInvoice` stamps `UpdatedAt` itself (storage/dynamo/dynamo.go:205).
  It reads nothing before the conditional put, so it writes the caller's
  `CreatedAt`. In both adapters the `now` parameter is the clock reading.
- Memory's duplicate error is `ID "<id>" exists` (storage/memory/memory.go:26).
  DynamoDB's is `invoice "<id>" exists` (storage/dynamo/dynamo.go:161).
  `DynamoStorage.DuplicateWordingDiffers` states that the two never agree.
  The shared test invoice/storage_test.go:43 expects the memory wording from
  every backend, so with `TEST_STORAGE=dynamo` that assertion would fail. The
  port contract demands an error on a duplicate but does not fix its text.

The service in invoice/service.go does not go through the `Storage` port. It
keeps invoices in its own package-level map (lines 11-14). Three of its five
operations only return `not implemented`.

## Model

| member | source | states |
|---|---|---|
| `Text.Quote` | storage/memory/memory.go:26 | Go's `%q` of a plain string wraps it in double quotes and keeps it verbatim inside |
| `Text.SplitFirst` | cli/cli.go:86-87 | `SplitN(s, sep, 2)`: a sep-free head and, exactly when `sep` occurs, a tail; head, sep and tail rebuild `s` |
| `Text.Split` | cli/cli.go:99 | `strings.Split` returns at least one piece and no piece contains the separator |
| `Text.JoinSplit` | cli/cli.go:97-100 | joining the pieces of a split gives back the original argument text |
| `Text.SplitJoin` | cli/cli.go:97-100 | splitting a join of separator-free pieces gives back the pieces, empty ones included |
| `Text.IndexAfterFreePrefix` | cli/cli.go:86 | the first delimiter after a delimiter-free prefix is the one that ends it |
| `Text.PadRight` | cli/cli.go:11 | `%-25s` left-justifies the text in at least 25 columns, padding with spaces only |
| `StoragePort.Stamped` | invoice/storage.go:6 | an updated record is the caller's invoice with `UpdatedAt` set to the clock reading; the backend chooses `CreatedAt` |
| `StoragePort.Replaced` | invoice/storage.go:6 | the contents after an update differ from those before only at the invoice's ID, which holds the stamped invoice |
| `StoragePort.AddContract` | invoice/storage.go:4 | add inserts an absent ID and fails on a present one without touching it; on a healthy backend it fails exactly on a present ID and a failure changes nothing; at most the one ID changes |
| `StoragePort.FindContract` | invoice/storage.go:5 | find is `(nil, nil)` exactly for an absent ID and the stored invoice otherwise; a healthy backend never fails |
| `StoragePort.UpdateContract` | invoice/storage.go:6 | update replaces a present ID with the stamped invoice and fails on an absent one without adding it; on a healthy backend it fails exactly on an absent ID and a failure changes nothing |
| `StoragePort.AddDeterminate` | invoice/storage.go:4 | on a healthy backend the add contract fixes both the outcome and the contents |
| `StoragePort.UpdateDeterminate` | invoice/storage.go:6 | on a healthy backend the update contract fixes the outcome, and the contents up to the backend's `CreatedAt` |
| `StoragePort.OtherIdsUntouched` | invoice/storage.go:3-7 | under either write contract, healthy or not, every other ID keeps its presence and its record |
| `MemoryStorage.New` | storage/memory/memory.go:18-20 | a new store finds nothing: every lookup is `(nil, nil)` |
| `MemoryStorage.AddInvoice` | storage/memory/memory.go:22-30 | satisfies the port's add contract; a duplicate ID fails with `ID "<id>" exists` and leaves the store unchanged |
| `MemoryStorage.FindInvoice` | storage/memory/memory.go:32-42 | satisfies the port's find contract: `(nil, nil)` exactly for an absent ID, never an error |
| `MemoryStorage.UpdateInvoice` | storage/memory/memory.go:44-58 | satisfies the port's update contract; an absent ID fails with `invoice "<id>" not found`; the stored `CreatedAt` is kept and `UpdatedAt` is the clock reading |
| `MemoryStorage.AddThenFind` | storage/memory/memory_test.go:11-51 | an invoice added under a fresh ID is found again, and adding it a second time fails |
| `MemoryStorage.WritesTouchOneKey` | storage/memory/memory.go:22-58 | add and update change no lookup but the one for `inv.ID`; add grows the key set by at most that ID, update keeps it |
| `MemoryStorage.UpdateThenFind` | storage/memory/memory_test.go:65-91 | after an update the found invoice has the new customer and items, the original `CreatedAt`, and an `UpdatedAt` after the caller's |
| `DynamoStorage.PartitionKey` | storage/dynamo/dynamo.go:98-101 | the key is `INVOICE#` followed by the ID |
| `DynamoStorage.PartitionKeyInjective` | storage/dynamo/dynamo.go:18-21 | two IDs share a partition key only if they are equal |
| `DynamoStorage.ItemMarshal` | storage/dynamo/dynamo.go:111-119 | a flat item converts to a domain item that converts back to the same flat item |
| `DynamoStorage.ItemUnmarshal` | storage/dynamo/dynamo.go:121-129 | a domain item becomes its flat record field by field |
| `DynamoStorage.ItemRoundTrip` | storage/dynamo/dynamo.go:111-129 | a domain item survives the trip through its flat record |
| `DynamoStorage.ItemsMarshal` | storage/dynamo/dynamo.go:34-39 | the flat items convert one by one, order and count preserved |
| `DynamoStorage.ItemsUnmarshal` | storage/dynamo/dynamo.go:52-57 | the domain items convert one by one, order and count preserved |
| `DynamoStorage.InvoiceMarshal` | storage/dynamo/dynamo.go:34-50 | the domain invoice keeps the record's ID and number of items |
| `DynamoStorage.InvoiceUnmarshal` | storage/dynamo/dynamo.go:52-70 | the record always sits under the ID's partition key and keeps the ID and number of items |
| `DynamoStorage.RoundTrip` | storage/dynamo/dynamo_test.go:24-39 | every invoice, with or without issue date and items, survives the round trip through its record |
| `DynamoStorage.RecordRoundTrip` | storage/dynamo/dynamo.go:34-70 | a record survives the opposite trip exactly when its key is its own invoice's partition key |
| `DynamoStorage.UnmarshalInjective` | storage/dynamo/dynamo.go:52-70 | distinct invoices get distinct records |
| `DynamoStorage.GetItemOutputUnmarshal` | storage/dynamo/dynamo.go:72-83 | a nil output or empty item decodes to `(nil, nil)`, an undecodable item to exactly the decoder's error, an encoded record to that record |
| `DynamoStorage.UnmarshalDinvoice` | storage/dynamo/dynamo.go:85-96 | an invoice source always decodes to a record under its partition key that maps back to it; an unknown source fails with `unknown unmarshal source` |
| `DynamoStorage.TableValid` | storage/dynamo/dynamo.go:59-61 | every record sits under its own key, and that key is its invoice's partition key |
| `DynamoStorage.Holds` | storage/dynamo/dynamo.go:151 | `id <> v` holds for an absent record or one with another ID; `id = v` only for a record with that ID |
| `DynamoStorage.ConditionsComplementary` | storage/dynamo/dynamo.go:197 | against the same record, exactly one of `id <> v` and `id = v` holds |
| `DynamoStorage.Attempt` | storage/dynamo/dynamo.go:226-234 | one evaluation of a conditional put: it succeeds exactly when the condition holds and then overwrites the whole record; otherwise it reports the conditional-check failure and writes nothing |
| `DynamoStorage.PutItem` | storage/dynamo/dynamo.go:226-235 | without a fault the put succeeds exactly when the condition holds, and then overwrites the whole record; a failed condition never writes; a failed request reports its own error and writes only if the service carried it out; a retried put leaves the table a single put would, reports a conditional failure for `id <> v` on its own ID, and for `id = v` succeeds exactly when a single put would |
| `DynamoStorage.GetItem` | storage/dynamo/dynamo.go:174-182 | fails exactly on a transport fault, with its error; otherwise the item is empty exactly for an absent key, and a present record comes back as stored or, when corrupt, as attributes carrying the decoder's error |
| `DynamoStorage.IsConditionalCheckError` | storage/dynamo/dynamo.go:238-242 | only the service's conditional-check failure counts; a request error does not |
| `DynamoStorage.Upsert` | storage/dynamo/dynamo.go:214-236 | the same contract as the put, for the record of `inv` under `PK(inv.ID)`: success without a fault exactly when the condition holds; the table ends either unchanged or with that record; unchanged whenever the condition fails or a failed request was not carried out; a retried `id <> v` put always reports the conditional failure |
| `DynamoStorage.ViewLookup` | storage/dynamo/dynamo.go:167-168 | on a valid table an ID has an invoice exactly when its partition key has a record, and that record is what is returned |
| `DynamoStorage.View` | storage/dynamo/dynamo.go:167-194 | the contents of a valid table as the port sees them: each record, as a domain invoice, under its ID |
| `DynamoStorage.ViewWrite` | storage/dynamo/dynamo.go:59-61 | writing an invoice's record keeps every record under its own key and changes the view at that ID only |
| `DynamoStorage.WriteFacts` | storage/dynamo/dynamo.go:150-212 | on a valid table, `id <> v` holds exactly when no invoice has the ID, `id = v` exactly when one has, and writing the record keeps the table valid and changes the view at that ID only |
| `DynamoStorage.AddInvoice` | storage/dynamo/dynamo.go:150-165 | keeps the table invariant; satisfies the port's add contract (healthy without a fault); a failed check gives `invoice "<id>" exists`, and so does every retried add; a client error comes back verbatim; the table changes at most at `PK(inv.ID)`, and not at all for a request that was not carried out |
| `DynamoStorage.FindInvoice` | storage/dynamo/dynamo.go:167-194 | reads only `PK(id)`; satisfies the port's find contract (healthy without a fault and with a decodable record); an absent key gives `(nil, nil)`; a client error and a decoding error come back verbatim |
| `DynamoStorage.UpdateInvoice` | storage/dynamo/dynamo.go:196-212 | keeps the table invariant; satisfies the port's update contract with `UpdatedAt := now`, as a healthy backend also when the put was retried; `CreatedAt` is the caller's, not restored; a failed check gives `invoice "<id>" not found`; a client error comes back verbatim |
| `DynamoStorage.AddThenFind` | storage/dynamo/dynamo.go:150-194 | an invoice added to the table is found again unchanged, and adding it again fails with `invoice "<id>" exists` |
| `DynamoStorage.LostReplyStillWrites` | storage/dynamo/dynamo.go:159-164 | an add whose reply is lost after the write reports the transport error, yet the invoice is then found |
| `DynamoStorage.RetriedAddReportsExists` | storage/dynamo/dynamo.go:159-164 | an add of an absent ID whose retry meets its own first write reports `invoice "<id>" exists`, yet the invoice is then found |
| `DynamoStorage.DuplicateWordingDiffers` | storage/dynamo/dynamo.go:160-162 | DynamoDB's duplicate-add error differs from memory's `ID "<id>" exists` for every ID |
| `EarlyInvoice.CreateInvoice` | invoice/invoice.go:20-29 | the ID and customer are stored verbatim; the invoice is open, has no issue date, and `CreatedAt == UpdatedAt == now` |
| `EarlyService.Contents` | invoice/service.go:24-40 | the nil map holds no invoices; otherwise the contents are the map |
| `EarlyService.CreateInvoice` | invoice/service.go:18-33 | fails exactly when the generated ID is taken, returning the zero invoice, `store invoice: ID "<id>" exists` and the unchanged map; otherwise the map gains exactly `id -> inv` and `inv` is fresh |
| `EarlyService.ViewInvoice` | invoice/service.go:35-46 | never fails; `(nil, nil)` exactly for an absent ID (also for the nil map), otherwise the stored invoice |
| `EarlyService.UpdateInvoiceCustomer` | invoice/service.go:48-50 | always fails with `not implemented` and changes nothing |
| `EarlyService.CancelInvoice` | invoice/service.go:52-54 | always fails with `not implemented` and changes nothing |
| `EarlyService.PayInvoice` | invoice/service.go:56-58 | always fails with `not implemented` and changes nothing |
| `EarlyService.CreateThenView` | invoice/service.go:18-46 | a created invoice is what viewing its ID returns; other views are unaffected; creating under the same ID again fails |
| `EarlyService.NilRegistryIsEmpty` | invoice/service.go:24-40 | the nil map behaves as an empty map for both view and create |
| `StorageFactory.Factory` | storage/storage.go:10-17 | exactly one of storage and error is set; `"memory"` gives an empty in-memory store; any other kind gives `unknown storage "<kind>"` |
| `CommandLine.NewCli` | cli/cli.go:50-52 | a new CLI satisfies the registry invariant, and its help lists only `help` and `exit` |
| `CommandLine.Valid` | cli/cli.go:65-77 | the map's keys are the ordered names, each name appears once and indexes its own command, and none is empty or reserved |
| `CommandLine.Handle` | cli/cli.go:54-78 | refuses empty name, empty description, nil runner, a duplicate, then a reserved name, in that order and with those messages; otherwise it maps the name and appends the command after all earlier ones |
| `CommandLine.HandlePreservesValid` | cli/cli.go:65-77 | registration keeps the map keys equal to the ordered names, the names distinct, and none empty or reserved |
| `CommandLine.ParseLine` | cli/cli.go:86-100 | the name has no space; arguments exist exactly when the line has a space, have no comma, and rebuild the line after the name and the space |
| `CommandLine.ParseOfJoin` | cli/cli.go:86-100 | any space-free name and non-empty comma-free argument list, joined into a line, parse back to themselves |
| `CommandLine.Dispatch` | cli/cli.go:89-105 | `exit`, then `help`, then a registered name, then unknown; a registered command gets the parsed arguments |
| `CommandLine.UnknownMessage` | cli/cli.go:126-128 | the unknown-command message holds the quoted name and ends the line |
| `CommandLine.Reply` | cli/cli.go:89-105 | `Run` writes nothing itself for exit and for a registered command, the help text for `help`, and the unknown-command message otherwise |
| `CommandLine.HandleThenDispatch` | cli/cli.go:65-101 | a name is reported unknown until it is registered, and afterwards a line naming it runs the new command with the line's arguments |
| `CommandLine.UpToExit` | cli/cli.go:89-92 | the actions taken are a prefix of those read, with no exit before the last, ending in an exit whenever lines remain unread, and all of them when none is an exit |
| `CommandLine.Session` | cli/cli.go:80-108 | one action per line in order, stopping right after the first exit line and not before |
| `CommandLine.CommandHelp` | cli/cli.go:111-113 | one help line per registered command, in the given order |
| `CommandLine.HelpLine` | cli/cli.go:11 | `%-25s%s\n`: the name, spaces up to column 25 (or none for a longer name), the description, then a newline |
| `CommandLine.HelpText` | cli/cli.go:110-116 | the help lists the commands in registration order, then `help`, then `exit` |
| `CommandLine.HandleExtendsHelp` | cli/cli.go:72-77 | a registration inserts its help line after the earlier commands and before `help` and `exit`, leaving the other lines unchanged |

## Left out

- `StorageFactory` interface (invoice/storage.go:9-11): no type in packages `storage`, `storage/memory` or `storage/dynamo` implements it. The `storage.Memory` and `storage.NewDynamo` that invoice/storage_test.go uses (lines 22-24) are not defined in storage/storage.go.
- `dynamo.New`: it only stores a client and a table name. The table name has no effect in the model.
- The `expression` builder and `dynamodbattribute.MarshalMap`: they are treated as never failing, because the condition and key they are given are always well formed. The SDK attribute encoding is abstracted to `AttributeMap`.
- `DynamoStorage.Holds`: a condition against an absent record is taken as `<>` holding and `=` failing. This follows DynamoDB's documented behaviour for comparisons with a missing attribute; storage/dynamo/dynamo.go relies on it without stating it.
- `Text.Quote`: does not model the escaping `%q` applies to quotes, backslashes and non-printable characters. Every quoted text (IDs, storage kinds, unknown command names) is exact only when it has no such characters.
- Mutexes (`sync.RWMutex` in storage/memory/memory.go and invoice/service.go): every operation is modelled as atomic. The concurrent same-ID add race is not modelled.
- `time.Now()` and `uuid.NewString()`: they become the parameters `now` and `genId`. Times are integer ticks and the issue date is `Option<Time>`. The zero `time.Time` is tick 0.
- Go `int` widths: status, price and quantity are unbounded integers. The adapters only copy them, so no wrap-around can arise.
- `CommandLine.Handle`: a nil runner is only the nil interface (`None`). A typed-nil runner wrapped in the interface is not distinguished.
- CLI I/O (`bufio.Scanner`, the `io.Writer`, the prompt, the opening help prompt, the exit channel, runner output): only registration, parsing, dispatch and the help lines are modelled.
- `main.go` and `cli/commands.go`: a stdin loop, signal handling and a static print table, with no logic beyond the CLI's help order.
- The invoice lifecycle (issue, pay, cancel, add and delete item, item validation) and `NewInvoice`/`AddItem`/`Equal`: the tests call them, but invoice/invoice.go defines only the early `Invoice` and `createInvoice`.
- The test doubles under `test/` and all `_test.go` files: they are used only as evidence for the properties above.
- Go aliasing: the model has value semantics. Memory stores the caller's `Items` slice and `Date` pointer (storage/memory/memory.go:28 and :55). `FindInvoice` returns a copy that shares them (storage/memory/memory.go:36-41). The DynamoDB mapping copies the `Date` pointer (storage/dynamo/dynamo.go:44 and :64). In the memory store, a caller that mutates those after a call changes the stored invoice; the model cannot express that. DynamoDB aliases nothing it stores: the record is encoded inside the call (storage/dynamo/dynamo.go:221), and a found invoice comes from a freshly decoded record (storage/dynamo/dynamo.go:184-192).
- `DynamoStorage.PutItem`: a failed request is either not carried out at all or carried out in full, with its condition checked. A partial write is not modelled. A retry is modelled once (`Retried`); a third attempt would meet the same record as the second and is not modelled separately.
- `DynamoStorage.GetItem`: reads are taken as strongly consistent: a read sees the latest write under the key. The request at storage/dynamo/dynamo.go:174-177 sets no `ConsistentRead`, so DynamoDB's default eventually consistent read applies, and a read right after a write may return the earlier record or none.
- `DynamoStorage.FindInvoice`: its find contract holds as stated only under strongly consistent reads; an eventually consistent read may return the earlier record or `(nil, nil)` without any error.
- `DynamoStorage.AddThenFind`: the find right after the add is taken as a strongly consistent read; with the default read of storage/dynamo/dynamo.go:174-177 it may return `(nil, nil)`.
- `DynamoStorage.LostReplyStillWrites`: the find after the add is taken as a strongly consistent read, as for `AddThenFind`.
- `DynamoStorage.RetriedAddReportsExists`: the find after the add is taken as a strongly consistent read, as for `AddThenFind`.
- `DynamoStorage.GetItem`: whether a stored record decodes is a parameter (`corrupt`), not derived from its attributes. Records the model writes always decode.
- Go strings are byte sequences; the model's strings are sequences of characters. The two agree on valid UTF-8, and `%-25s` counts runes as the model counts characters. An input line that is not valid UTF-8 (cli/cli.go:84-86) has no counterpart in the model.
- `MemoryStorage.Memory`: a store always holds a map, as one built by `New` (storage/memory/memory.go:18-20) does. The zero value `memory.Memory{}` has a nil map, on which `AddInvoice` panics (storage/memory/memory.go:28); outside the tests the only store is built by `New`, in storage/storage.go:13.
- `DynamoStorage.GetItem`: a successful call always yields an output. A client that answers `(nil, nil)`, which the `API` interface (storage/dynamo/dynamo.go:131-134) permits but the AWS SDK never does, would make `FindInvoice` return `(nil, nil)` through storage/dynamo/dynamo.go:73-75; the model does not produce that reply, though `GetItemOutputUnmarshal` handles a nil output.
