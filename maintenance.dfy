/**
 * The staff maintenance screen: the list of tickets with a status select on each, and an inline
 * form that files a ticket for a room.
 */
module Maintenance {
  import opened Common
  import opened Text
  import opened Schema
  import Store

  /** A row of the tickets read: `id, issue, status` and the joined `room:rooms(room_no)`. */
  datatype RequestRow = RequestRow(id: int, issue: string, status: RequestStatus, room: Option<string>)

  /** A row of the rooms read: `id, room_no`. */
  datatype RoomChoice = RoomChoice(id: int, roomNo: string)

  /** The form's guard: `!issue || !roomId` turns the submit away. */
  predicate CanAdd(issue: string, roomId: string)
  {
    issue != "" && roomId != ""
  }

  /** The row `addRequest` inserts: the issue as typed, `Number(roomId)` as the room (a NaN goes out
      as null), status open, and no tenant name. */
  function StaffTicket(issue: string, roomId: string): RequestInsert
  {
    RequestInsert(None, issue, ToNumber(roomId), Open)
  }

  /** Picking a room option files the ticket for that room: the option value is the room id as
      text, which reads back as the id; the issue is stored exactly as typed. */
  lemma PickedRoomRecorded(rooms: seq<RoomChoice>, k: nat, issue: string)
    requires k < |rooms| && rooms[k].id >= 0
    ensures CanAdd(issue, IntToDecimal(rooms[k].id)) <==> issue != ""
    ensures StaffTicket(issue, IntToDecimal(rooms[k].id)) == RequestInsert(None, issue, Some(rooms[k].id), Open)
  {
    NumberOfDecimal(rooms[k].id);
  }

  /** Unlike the portal form, the staff form neither trims nor rejects a white-space issue: a
      single space is filed as the issue. */
  lemma SpaceIssueFiled(roomId: string)
    requires roomId != ""
    ensures CanAdd(" ", roomId) && StaffTicket(" ", roomId).issue == " "
    ensures Trim(" ") == ""
  {
    TrimEmptyIffBlank(" ");
  }

  class MaintenanceTable {
    var requests: seq<RequestRow>
    var showForm: bool
    var issue: string
    var roomId: string
    var rooms: seq<RoomChoice>

    constructor ()
      ensures requests == [] && !showForm && issue == "" && roomId == "" && rooms == []
    {
      requests, showForm, issue, roomId, rooms := [], false, "", "", [];
    }

    /** `fetchRequests`: the rows replace the list when the read succeeds. */
    method FetchRequests(response: Response<seq<RequestRow>>)
      modifies this`requests
      ensures requests == if response.Data? then response.rows else old(requests)
    {
      if response.Data? {
        requests := response.rows;
      }
    }

    /** `fetchRooms`: the rows replace the room options when the read succeeds. */
    method FetchRooms(response: Response<seq<RoomChoice>>)
      modifies this`rooms
      ensures rooms == if response.Data? then response.rows else old(rooms)
    {
      if response.Data? {
        rooms := response.rows;
      }
    }

    /** The "+ Add Request" button. */
    method OpenForm()
      modifies this`showForm
      ensures showForm
    {
      showForm := true;
    }

    /** The form's "Cancel" button: the form closes and keeps what was typed. */
    method CancelForm()
      modifies this`showForm
      ensures !showForm
    {
      showForm := false;
    }

    method EditIssue(text: string)
      modifies this`issue
      ensures issue == text
    {
      issue := text;
    }

    method SelectRoom(value: string)
      modifies this`roomId
      ensures roomId == value
    {
      roomId := value;
    }

    /** `addRequest`: without an issue and a room nothing happens; otherwise the ticket is inserted
        (its outcome is not looked at), and the form clears and closes. The refresh that follows
        is `FetchRequests`. */
    method AddRequest(db: Store.Database, now: int, insertOk: bool)
      requires db.Valid()
      modifies this`issue, this`roomId, this`showForm, db`requests, db`nextId
      ensures db.Valid()
      ensures !CanAdd(old(issue), old(roomId)) ==>
        && issue == old(issue) && roomId == old(roomId) && showForm == old(showForm)
        && db.requests == old(db.requests) && db.nextId == old(db.nextId)
      ensures CanAdd(old(issue), old(roomId)) ==>
        && db.requests == (if insertOk
                           then old(db.requests) + [RequestRecord(old(db.nextId), now, StaffTicket(old(issue), old(roomId)))]
                           else old(db.requests))
        && db.nextId == old(db.nextId) + (if insertOk then 1 else 0)
        && issue == "" && roomId == "" && !showForm
    {
      if issue == "" || roomId == "" {
        return;
      }
      db.InsertRequest(StaffTicket(issue, roomId), now, insertOk);
      issue, roomId := "", "";
      showForm := false;
    }

    /** `updateStatus`: the status of the ticket with that id is set (outcome not looked at); the
        refresh that follows is `FetchRequests`. */
    method UpdateStatus(db: Store.Database, id: int, s: RequestStatus, updateOk: bool)
      modifies db`requests
      ensures db.requests == if updateOk then Store.SetRequestStatus(old(db.requests), id, s) else old(db.requests)
    {
      db.UpdateRequestStatus(id, s, updateOk);
    }

    /** The "No maintenance requests" row shows exactly when the list is empty. */
    function ShowsEmptyNotice(): bool
      reads this
    {
      |requests| == 0
    }
  }
}
