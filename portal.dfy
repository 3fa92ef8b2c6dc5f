/**
 * The tenant portal's name picker, shared by the payment proof form and the maintenance request
 * form: picking a name fills in the tenant's name, room id and room number, or clears them.
 */
module Portal {
  import opened Common
  import opened Text

  /** A row of the portal's tenants read: `id, name, room_id` and the joined `room:rooms(room_no)`. */
  datatype PortalTenant = PortalTenant(id: int, name: string, roomId: Option<int>, room: Option<string>)

  /** The three fields the picker fills in: tenant name, room id and the shown room number. */
  datatype Selection = Selection(tenantName: string, roomId: Option<int>, roomNo: string)

  /** The fields when no tenant with a room is picked. */
  const Cleared := Selection("", None, "")

  /** `tenants.find(t => t.id === Number(tenantId))`: the position of the first tenant whose id
      equals the number the picked value reads as (a value reading as NaN matches no one). */
  function FindTenant(tenants: seq<PortalTenant>, tenantId: string): (r: Option<nat>)
    ensures r.Some? ==>
      && r.value < |tenants| && ToNumber(tenantId) == Some(tenants[r.value].id)
      && forall j :: 0 <= j < r.value ==> ToNumber(tenantId) != Some(tenants[j].id)
    ensures r.None? ==> forall j :: 0 <= j < |tenants| ==> ToNumber(tenantId) != Some(tenants[j].id)
    decreases |tenants|
  {
    if tenants == [] then None
    else if ToNumber(tenantId) == Some(tenants[0].id) then Some(0)
    else match FindTenant(tenants[1..], tenantId)
      case Some(k) => Some(k + 1)
      case None => None
  }

  /** `handleTenantChange`'s effect on the three fields: the first matching tenant's name, room id
      and room number when it has a room; cleared when no tenant matches or the match has no room. */
  function AutoFill(tenants: seq<PortalTenant>, tenantId: string): (sel: Selection)
    ensures sel != Cleared ==>
      exists k :: 0 <= k < |tenants| && ToNumber(tenantId) == Some(tenants[k].id) && tenants[k].room.Some?
        && sel == Selection(tenants[k].name, tenants[k].roomId, tenants[k].room.value)
    ensures (forall k :: 0 <= k < |tenants| ==> ToNumber(tenantId) != Some(tenants[k].id)) ==> sel == Cleared
    ensures forall k ::
      (&& 0 <= k < |tenants| && ToNumber(tenantId) == Some(tenants[k].id)
       && (forall j :: 0 <= j < k ==> ToNumber(tenantId) != Some(tenants[j].id))) ==>
      sel == if tenants[k].room.Some? then Selection(tenants[k].name, tenants[k].roomId, tenants[k].room.value)
             else Cleared
  {
    match FindTenant(tenants, tenantId)
    case Some(k) =>
      var t := tenants[k];
      if t.room.Some? then Selection(t.name, t.roomId, t.room.value) else Cleared
    case None => Cleared
  }

  /** Picking the option of a tenant with a room fills in that tenant's fields: the option value is
      the tenant's id as text, which reads back as the id. (Ids are distinct, as the primary key
      makes them.) */
  lemma PickingOptionFillsTenant(tenants: seq<PortalTenant>, k: nat)
    requires k < |tenants| && tenants[k].id >= 0 && tenants[k].room.Some?
    requires forall i, j :: 0 <= i < j < |tenants| ==> tenants[i].id != tenants[j].id
    ensures AutoFill(tenants, IntToDecimal(tenants[k].id)) ==
      Selection(tenants[k].name, tenants[k].roomId, tenants[k].room.value)
  {
    NumberOfDecimal(tenants[k].id);
    var f := FindTenant(tenants, IntToDecimal(tenants[k].id));
    assert f == Some(k);
  }

  /** Picking the option of a tenant without a room clears the fields. */
  lemma PickingRoomlessTenantClears(tenants: seq<PortalTenant>, k: nat)
    requires k < |tenants| && tenants[k].id >= 0 && tenants[k].room.None?
    requires forall i, j :: 0 <= i < j < |tenants| ==> tenants[i].id != tenants[j].id
    ensures AutoFill(tenants, IntToDecimal(tenants[k].id)) == Cleared
  {
    NumberOfDecimal(tenants[k].id);
    var f := FindTenant(tenants, IntToDecimal(tenants[k].id));
    assert f == Some(k);
  }

  /** Going back to "Select your name" (the value "") clears the fields as long as no tenant has
      id 0: `Number("")` is 0, so the blank option would pick a tenant with id 0. */
  lemma BlankOptionClears(tenants: seq<PortalTenant>)
    requires forall k :: 0 <= k < |tenants| ==> tenants[k].id != 0
    ensures AutoFill(tenants, "") == Cleared
  {
    assert ToNumber("") == Some(0);
  }

  /** ... and picks the first tenant with id 0 when there is one. */
  lemma BlankOptionReadsAsZero(tenants: seq<PortalTenant>, k: nat)
    requires k < |tenants| && tenants[k].id == 0 && tenants[k].room.Some?
    requires forall j :: 0 <= j < k ==> tenants[j].id != 0
    ensures AutoFill(tenants, "") == Selection(tenants[k].name, tenants[k].roomId, tenants[k].room.value)
  {
    assert ToNumber("") == Some(0);
    var f := FindTenant(tenants, "");
    assert f == Some(k);
  }

  /** `!roomId`: a missing room id and the room id 0 both count as no room. */
  predicate HasRoomId(sel: Selection)
  {
    sel.roomId.Some? && sel.roomId.value != 0
  }
}
