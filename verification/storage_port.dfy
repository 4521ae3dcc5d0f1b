/** The `Storage` port every backend implements: add, find by ID, update.
    Each contract is stated over the backend's abstract contents, a map from
    invoice ID to invoice. `healthy` is false when the backend itself may
    have failed (an unreachable remote service); the in-process map is
    always healthy. A backend that is not healthy may report an error for a
    write it nevertheless applied, but it never writes anything else. */
module StoragePort {
  import opened Wrappers
  import opened Invoices

  type Records = map<string, Invoice>

  /** `stored` is the caller's `inv` with `UpdatedAt` stamped to `now`;
      the backend chooses `CreatedAt`. */
  ghost predicate Stamped(stored: Invoice, inv: Invoice, now: Time)
  {
    stored == inv.(createdAt := stored.createdAt, updatedAt := now)
  }

  /** `after` is `before` with the record under `inv.id` replaced by a stamped copy of `inv`. */
  ghost predicate Replaced(before: Records, inv: Invoice, now: Time, after: Records)
  {
    inv.id in after && after == before[inv.id := after[inv.id]] && Stamped(after[inv.id], inv, now)
  }

  /** `AddInvoice`: insert if absent, fail on a duplicate ID and leave the
      existing record alone; on a healthy backend a failure changes nothing. */
  ghost predicate AddContract(before: Records, inv: Invoice, after: Records, err: Option<string>, healthy: bool)
  {
    && (inv.id in before ==> err.Some? && after == before)
    && (healthy ==> (err.Some? <==> inv.id in before))
    && (err.None? ==> after == before[inv.id := inv])
    && (after == before || after == before[inv.id := inv])
    && (healthy && err.Some? ==> after == before)
  }

  /** `FindInvoice`: `(nil, nil)` exactly when the ID is absent, otherwise the stored invoice. */
  ghost predicate FindContract(records: Records, id: string, r: Result<Option<Invoice>>, healthy: bool)
  {
    && (healthy ==> r.Ok?)
    && (r.Ok? ==> r.value == if id in records then Some(records[id]) else None)
  }

  /** `UpdateInvoice`: replace if present, fail on an absent ID and add
      nothing; on a healthy backend a failure changes nothing. */
  ghost predicate UpdateContract(before: Records, inv: Invoice, now: Time, after: Records, err: Option<string>, healthy: bool)
  {
    && (inv.id !in before ==> err.Some? && after == before)
    && (healthy ==> (err.Some? <==> inv.id !in before))
    && (err.None? ==> Replaced(before, inv, now, after))
    && (after == before || Replaced(before, inv, now, after))
    && (healthy && err.Some? ==> after == before)
  }

  /** On a healthy backend the add contract fixes the outcome: two results
      that both meet it agree on whether they failed and on the contents. */
  lemma AddDeterminate(before: Records, inv: Invoice, a1: Records, e1: Option<string>, a2: Records, e2: Option<string>)
    requires AddContract(before, inv, a1, e1, true) && AddContract(before, inv, a2, e2, true)
    ensures e1.Some? == e2.Some? && a1 == a2
  {
  }

  /** On a healthy backend the update contract fixes the outcome up to the
      backend's choice of `CreatedAt`. */
  lemma UpdateDeterminate(before: Records, inv: Invoice, now: Time, a1: Records, e1: Option<string>, a2: Records, e2: Option<string>)
    requires UpdateContract(before, inv, now, a1, e1, true) && UpdateContract(before, inv, now, a2, e2, true)
    ensures e1.Some? == e2.Some?
    ensures e1.None? ==> a1.Keys == a2.Keys && a1[inv.id] == a2[inv.id].(createdAt := a1[inv.id].createdAt)
    ensures e1.Some? ==> a1 == a2
  {
  }

  /** Whatever a backend does, an ID other than the written one keeps its record. */
  lemma OtherIdsUntouched(before: Records, inv: Invoice, now: Time, after: Records, err: Option<string>, healthy: bool, id: string)
    requires id != inv.id
    ensures AddContract(before, inv, after, err, healthy) ==> (id in after <==> id in before)
    ensures UpdateContract(before, inv, now, after, err, healthy) ==> (id in after <==> id in before)
    ensures AddContract(before, inv, after, err, healthy) && id in before ==> after[id] == before[id]
    ensures UpdateContract(before, inv, now, after, err, healthy) && id in before ==> after[id] == before[id]
  {
  }
}
