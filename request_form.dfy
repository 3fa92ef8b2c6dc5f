/**
 * The tenant portal's maintenance request form: pick a name (which fills in the room) and
 * describe the issue; submitting files an open ticket for the tenant's room.
 */
module RequestForm {
  import opened Common
  import opened Text
  import opened Schema
  import opened Portal
  import Store

  /** The row `handleSubmit` inserts: the tenant's name and room, the trimmed issue, status open. */
  function TicketFor(tenantName: string, roomId: int, issue: string): RequestInsert
  {
    RequestInsert(Some(tenantName), Trim(issue), Some(roomId), Open)
  }

  /** Every ticket the form files (the guard has seen a non-blank issue) is open, carries the
      tenant's name and room, and has a non-empty issue that is already trimmed: no white space at
      either end, so trimming it again changes nothing. */
  lemma FiledTicket(tenantName: string, roomId: int, issue: string)
    requires Trim(issue) != ""
    ensures var r := TicketFor(tenantName, roomId, issue);
      && r.tenantName == Some(tenantName) && r.roomId == Some(roomId) && r.status == Open
      && r.issue != "" && !IsSpace(r.issue[0]) && !IsSpace(r.issue[|r.issue| - 1])
      && Trim(r.issue) == r.issue
  {
    TrimHasNoEdgeSpace(issue);
    TrimIdempotent(issue);
  }

  class MaintenanceRequestForm {
    var tenants: seq<PortalTenant>
    var selectedTenantId: string
    var selection: Selection
    var issue: string
    var submitting: bool
    var success: bool

    constructor ()
      ensures tenants == [] && selectedTenantId == "" && selection == Cleared && issue == ""
      ensures !submitting && !success
    {
      tenants, selectedTenantId, selection, issue := [], "", Cleared, "";
      submitting, success := false, false;
    }

    /** `fetchTenants`: the rows replace the list when the read succeeds. */
    method FetchTenants(response: Response<seq<PortalTenant>>)
      modifies this`tenants
      ensures tenants == if response.Data? then response.rows else old(tenants)
    {
      if response.Data? {
        tenants := response.rows;
      }
    }

    /** `handleTenantChange`: the pick is kept, the success notice goes, and the fields are filled
        in from the picked tenant. */
    method HandleTenantChange(tenantId: string)
      modifies this`selectedTenantId, this`success, this`selection
      ensures selectedTenantId == tenantId && !success
      ensures selection == AutoFill(tenants, tenantId)
    {
      selectedTenantId := tenantId;
      success := false;
      selection := AutoFill(tenants, tenantId);
    }

    method EditIssue(text: string)
      modifies this`issue
      ensures issue == text
    {
      issue := text;
    }

    /** The submit guard: a tenant name, a room id other than 0, and an issue that is not blank. */
    predicate CanSubmit()
      reads this
    {
      selection.tenantName != "" && HasRoomId(selection) && Trim(issue) != ""
    }

    /** `handleSubmit`. Without everything the guard asks for, nothing happens. Otherwise the ticket
        is inserted (its outcome is not looked at), the form resets and reports success, and the
        submitting flag is down again. */
    method HandleSubmit(db: Store.Database, now: int, insertOk: bool)
      requires db.Valid()
      modifies this`selectedTenantId, this`selection, this`issue, this`submitting, this`success
      modifies db`requests, db`nextId
      ensures db.Valid()
      ensures !old(CanSubmit()) ==>
        && db.requests == old(db.requests) && db.nextId == old(db.nextId)
        && selectedTenantId == old(selectedTenantId) && selection == old(selection)
        && issue == old(issue) && success == old(success) && submitting == old(submitting)
      ensures old(CanSubmit()) ==>
        && db.requests == (if insertOk
                           then old(db.requests) + [RequestRecord(old(db.nextId), now,
                                  TicketFor(old(selection.tenantName), old(selection.roomId.value), old(issue)))]
                           else old(db.requests))
        && db.nextId == old(db.nextId) + (if insertOk then 1 else 0)
        && selectedTenantId == "" && selection == Cleared && issue == "" && success && !submitting
    {
      if !CanSubmit() {
        return;
      }
      submitting := true;
      db.InsertRequest(TicketFor(selection.tenantName, selection.roomId.value, issue), now, insertOk);
      selectedTenantId, selection, issue := "", Cleared, "";
      success := true;
      submitting := false;
    }
  }
}
