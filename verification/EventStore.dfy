// store.EventStore: events saved under their ID, each row kept by the tenant
// that saved it first.
module EventStore {
  import opened Text

  datatype Event = Event(id: string, tenantID: string, source: string, fingerprint: string, alertStatus: string)

  type Rows = map<string, Event>

  // Events without a tenant are the default tenant's.
  function OwnerOf(tenant: string): string { if tenant == "" then "default" else tenant }

  function Inserted(e: Event): Event { e.(tenantID := OwnerOf(e.tenantID)) }

  // A write without a status keeps the one that is there.
  function Updated(row: Event, e: Event): Event {
    row.(fingerprint := e.fingerprint, alertStatus := if e.alertStatus == "" then row.alertStatus else e.alertStatus)
  }

  // SaveEvent, when the database does not fail: insert, or update the tenant's
  // own row. Another tenant's row is left as it is, and that is no error.
  function SaveRow(rows: Rows, e: Event): Rows {
    if e.id !in rows then rows[e.id := Inserted(e)]
    else if rows[e.id].tenantID != OwnerOf(e.tenantID) then rows
    else rows[e.id := Updated(rows[e.id], e)]
  }

  // What one save leaves: the first tenant's row with the first tenant's ID and
  // source, his last fingerprint and status in it, and every other row as it was.
  ghost predicate LeavesRow(rows: Rows, rows': Rows, e: Event) {
    && (forall id :: id != e.id ==> (id in rows' <==> id in rows) && (id in rows ==> rows'[id] == rows[id]))
    && e.id in rows'
    && var row, owner := rows'[e.id], if e.tenantID == "" then "default" else e.tenantID;
       if e.id !in rows then row == Event(e.id, owner, e.source, e.fingerprint, e.alertStatus)
       else if rows[e.id].tenantID != owner then row == rows[e.id]
       else
         && row.id == rows[e.id].id && row.tenantID == owner && row.source == rows[e.id].source
         && row.fingerprint == e.fingerprint
         && row.alertStatus == if e.alertStatus == "" then rows[e.id].alertStatus else e.alertStatus
  }

  lemma SaveLeavesRow(rows: Rows, e: Event)
    ensures LeavesRow(rows, SaveRow(rows, e), e)
  {
  }

  function SaveAll(rows: Rows, es: seq<Event>): Rows
    decreases |es|
  {
    if es == [] then rows else SaveAll(SaveRow(rows, es[0]), es[1..])
  }

  lemma {:induction false} SaveAllAppend(rows: Rows, xs: seq<Event>, ys: seq<Event>)
    ensures SaveAll(rows, xs + ys) == SaveAll(SaveAll(rows, xs), ys)
    decreases |xs|
  {
    hide SaveRow;
    if xs == [] {
      assert xs + ys == ys;
    } else {
      assert (xs + ys)[1..] == xs[1..] + ys;
      SaveAllAppend(SaveRow(rows, xs[0]), xs[1..], ys);
    }
  }

  // Whatever is saved, no row is lost and none ever changes its tenant.
  lemma {:induction false} OwnersAreKept(rows: Rows, es: seq<Event>)
    ensures forall id :: id in rows ==>
              id in SaveAll(rows, es) && SaveAll(rows, es)[id].tenantID == rows[id].tenantID
    decreases |es|
  {
    if es != [] {
      OwnersAreKept(SaveRow(rows, es[0]), es[1..]);
    }
  }

  // An event and the same one with another status, saved one after the other,
  // leave what the second alone would have left.
  lemma SavedTwice(rows: Rows, e: Event, status: string)
    requires status != ""
    ensures SaveRow(SaveRow(rows, e), e.(alertStatus := status)) == SaveRow(rows, e.(alertStatus := status))
  {
  }
}
