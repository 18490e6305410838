/** The controller lease (packages/controller-lease/src/index.ts) over its reference store
    (packages/controller-lease/src/testing.ts), one call at a time. */
module Lease {
  import opened Wrappers

  const LEASE_EXPIRY_MS := 45000

  type Workspace = string
  type Controller = string

  datatype Record = Record(controller: Controller, user: string, expiresAt: Instant, updatedAt: Instant)

  type Row = Option<Record>

  datatype LeaseError = AlreadyHeld(holder: Option<Controller>) | NotOwner | NotFound | Expired | DuplicateKey

  // ---------------------------------------------------------------- one row

  function Fresh(controller: Controller, user: string, now: Instant): Record {
    Record(controller, user, now + LEASE_EXPIRY_MS, now)
  }

  /** Not expired as of `now`; a lease that ends at `now` has expired. */
  predicate Active(row: Row, now: Instant) {
    row.Some? && now < row.value.expiresAt
  }

  predicate Owns(row: Row, controller: Controller) {
    row.Some? && row.value.controller == controller
  }

  /** The condition of `extendIfOwner`. */
  predicate Extendable(row: Row, controller: Controller, now: Instant) {
    Owns(row, controller) && Active(row, now)
  }

  function Extend(row: Row, controller: Controller, now: Instant): Row {
    if Extendable(row, controller, now)
    then Some(row.value.(expiresAt := now + LEASE_EXPIRY_MS, updatedAt := now)) else row
  }

  /** The typed error of a failed heartbeat, from the row as read after the failure. */
  function Classify(row: Row, controller: Controller, now: Instant): LeaseError {
    if row.None? then NotFound
    else if row.value.controller != controller then NotOwner
    else if row.value.expiresAt <= now then Expired
    else NotOwner
  }

  // ---------------------------------------------------------------- the store

  type Table = map<Workspace, Record>

  function RowOf(table: Table, workspace: Workspace): Row {
    if workspace in table then Some(table[workspace]) else None
  }

  class InMemoryLeaseStore {
    var data: Table

    constructor ()
      ensures data == map[]
    {
      data := map[];
    }

    method UpsertIfExpired(workspace: Workspace, record: Record, now: Instant) returns (stored: Row)
      modifies this
      ensures stored == if workspace in old(data) && now < old(data)[workspace].expiresAt then None else Some(record)
      ensures data == if stored.Some? then old(data)[workspace := record] else old(data)
    {
      if workspace in data && data[workspace].expiresAt > now {
        return None;
      }
      data := data[workspace := record];
      stored := Some(record);
    }

    method ExtendIfOwner(workspace: Workspace, controller: Controller, extendTo: Instant, now: Instant)
      returns (updated: Row)
      modifies this
      ensures updated.Some? <==> workspace in old(data) && old(data)[workspace].controller == controller
                                 && now < old(data)[workspace].expiresAt
      ensures updated.Some? ==> updated.value == Record(controller, old(data)[workspace].user, extendTo, now)
      ensures data == if updated.Some? then old(data)[workspace := updated.value] else old(data)
    {
      if workspace !in data || data[workspace].controller != controller || data[workspace].expiresAt <= now {
        return None;
      }
      var record := data[workspace].(expiresAt := extendTo, updatedAt := now);
      data := data[workspace := record];
      updated := Some(record);
    }

    /** Runs `body` on the live table and goes back to the snapshot when it throws. */
    method Transaction(body: Table -> (Table, bool)) returns (ok: bool)
      modifies this
      ensures ok == body(old(data)).1
      ensures data == if ok then body(old(data)).0 else old(data)
    {
      var snapshot := data;
      var written := body(data);
      data := written.0;
      ok := written.1;
      if !ok {
        data := snapshot;
      }
    }

    method Insert(workspace: Workspace, record: Record) returns (ok: bool)
      modifies this
      ensures ok <==> workspace !in old(data)
      ensures data == if ok then old(data)[workspace := record] else old(data)
    {
      ok := workspace !in data;
      if ok {
        data := data[workspace := record];
      }
    }
  }

  // ---------------------------------------------------------------- the service

  class ControllerLeaseService {
    const store: InMemoryLeaseStore

    constructor (store: InMemoryLeaseStore)
      ensures this.store == store
    {
      this.store := store;
    }

    /** Exactly the row's previous state decides; a refusal names the holder and changes nothing. */
    method Acquire(workspace: Workspace, controller: Controller, user: string, now: Instant)
      returns (r: Result<Record, LeaseError>)
      modifies store
      ensures if workspace in old(store.data) && now < old(store.data)[workspace].expiresAt then
                r == Err(AlreadyHeld(Some(old(store.data)[workspace].controller))) && store.data == old(store.data)
              else
                && r == Ok(Record(controller, user, now + 45000, now))
                && store.data == old(store.data)[workspace := r.value]
    {
      var stored := store.UpsertIfExpired(workspace, Fresh(controller, user, now), now);
      if stored.None? {
        var holder := RowOf(store.data, workspace);
        return Err(AlreadyHeld(if holder.Some? then Some(holder.value.controller) else None));
      }
      r := Ok(stored.value);
    }

    /** A heartbeat extends exactly an unexpired lease of its own; each refusal states its cause. */
    method Heartbeat(workspace: Workspace, controller: Controller, now: Instant)
      returns (r: Result<Record, LeaseError>)
      modifies store
      ensures if workspace !in old(store.data) then r == Err(NotFound) && store.data == old(store.data)
              else
                var before := old(store.data)[workspace];
                if before.controller != controller then r == Err(NotOwner) && store.data == old(store.data)
                else if before.expiresAt <= now then r == Err(Expired) && store.data == old(store.data)
                else
                  && r == Ok(Record(controller, before.user, now + 45000, now))
                  && store.data == old(store.data)[workspace := r.value]
    {
      var updated := store.ExtendIfOwner(workspace, controller, now + LEASE_EXPIRY_MS, now);
      if updated.Some? {
        return Ok(updated.value);
      }
      r := Err(Classify(RowOf(store.data, workspace), controller, now));
    }

    method Release(workspace: Workspace, controller: Controller) returns (r: Result<(), LeaseError>)
      modifies store
      ensures r == if workspace !in old(store.data) then Err(NotFound)
                   else if old(store.data)[workspace].controller != controller then Err(NotOwner) else Ok(())
      ensures store.data == if r.Ok? then old(store.data) - {workspace} else old(store.data)
    {
      var existing := RowOf(store.data, workspace);
      if existing.None? {
        return Err(NotFound);
      }
      if existing.value.controller != controller {
        return Err(NotOwner);
      }
      store.data := store.data - {workspace};
      r := Ok(());
    }

    /** A takeover always installs the new controller and names whom it demoted. */
    method Takeover(workspace: Workspace, controller: Controller, user: string, now: Instant)
      returns (lease: Record, previous: Option<(Controller, string)>)
      modifies store
      ensures lease == Record(controller, user, now + 45000, now)
      ensures store.data == old(store.data)[workspace := lease]
      ensures previous == if workspace in old(store.data)
                          then Some((old(store.data)[workspace].controller, old(store.data)[workspace].user)) else None
    {
      var existing := RowOf(store.data, workspace);
      lease := Fresh(controller, user, now);
      previous := if existing.Some? then Some((existing.value.controller, existing.value.user)) else None;
      if existing.Some? {
        store.data := store.data[workspace := lease];
      } else {
        var inserted := store.Insert(workspace, lease);
      }
    }

    method GetActive(workspace: Workspace, now: Instant) returns (lease: Row)
      ensures lease == if workspace in store.data && now < store.data[workspace].expiresAt
                       then Some(store.data[workspace]) else None
    {
      lease := RowOf(store.data, workspace);
      if lease.Some? && lease.value.expiresAt <= now {
        lease := None;
      }
    }
  }
}
