/** The storage factory: a backend chosen by name. */
module StorageFactory {
  import opened Wrappers
  import Text
  import MemoryStorage

  /** The storage (nil when `None`) and the error the factory returned. */
  datatype Made = Made(storage: Option<MemoryStorage.Memory>, err: Option<string>)

  function ErrUnknownStorage(kind: string): string
  {
    "unknown storage " + Text.Quote(kind)
  }

  /** `Factory`: `"memory"` yields an empty in-memory store; any other kind is an error. */
  function Factory(kind: string): (r: Made)
    ensures r.storage.Some? != r.err.Some?
    ensures r.storage.Some? <==> kind == "memory"
    ensures r.storage.Some? ==> forall id :: MemoryStorage.FindInvoice(r.storage.value, id) == Ok(None)
    ensures r.err.Some? ==> r.err.value == ErrUnknownStorage(kind)
  {
    if kind == "memory" then Made(Some(MemoryStorage.New()), None)
    else Made(None, Some(ErrUnknownStorage(kind)))
  }
}
