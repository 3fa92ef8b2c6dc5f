/**
 * The tenant portal's payment proof form: pick a name (which fills in the room), a month and a
 * file; submitting uploads the file under the room's folder and records the proof for the month.
 */
module ProofForm {
  import opened Common
  import opened Text
  import opened Schema
  import opened Portal
  import Months
  import Store

  /** `${roomId}/${month}_${Date.now()}.${ext}`, with `ext` the text after the file name's last dot. */
  function StoragePath(roomId: int, month: string, now: nat, fileName: string): string
  {
    IntToDecimal(roomId) + "/" + month + "_" + NatToDecimal(now) + "." + Extension(fileName)
  }

  /** The stored object keeps the uploaded file's extension. */
  lemma StoragePathKeepsExtension(roomId: int, month: string, now: nat, fileName: string)
    ensures Extension(StoragePath(roomId, month, now, fileName)) == Extension(fileName)
  {
    var stem := IntToDecimal(roomId) + "/" + month + "_" + NatToDecimal(now);
    assert StoragePath(roomId, month, now, fileName) == stem + "." + Extension(fileName);
    ExtensionOfSuffix(stem, Extension(fileName));
  }

  /** The stored object lies in the folder named after the room id. */
  lemma StoragePathInRoomFolder(roomId: int, month: string, now: nat, fileName: string)
    ensures Split(StoragePath(roomId, month, now, fileName), '/')[0] == IntToDecimal(roomId)
  {
    var room := IntToDecimal(roomId);
    var rest := month + "_" + NatToDecimal(now) + "." + Extension(fileName);
    assert StoragePath(roomId, month, now, fileName) == room + ['/'] + rest;
    assert '/' !in room by {
      var digits := NatToDecimal(if roomId < 0 then -roomId else roomId);
      assert forall i :: 0 <= i < |digits| ==> IsDigit(digits[i]);
    }
    SplitAfterPiece(room, rest, '/');
  }

  class PaymentProofForm {
    /** The current calendar year, read once when the module loads. */
    const year: nat
    var tenants: seq<PortalTenant>
    var selectedTenantId: string
    var selection: Selection
    var month: string
    var file: Option<UploadFile>
    var submitting: bool
    var success: bool

    constructor (year: nat)
      ensures this.year == year && tenants == [] && selectedTenantId == "" && selection == Cleared
      ensures month == "" && file == None && !submitting && !success
    {
      this.year := year;
      tenants, selectedTenantId, selection := [], "", Cleared;
      month, file := "", None;
      submitting, success := false, false;
    }

    /** The month select's option values, January first; each stores as the ledger's value for the
        same month, so proofs and payments of a month meet. */
    function MonthOptions(): (ms: seq<string>)
      reads this
      ensures |ms| == 12
      ensures forall i :: 0 <= i < 12 ==> Months.StoredMonth(ms[i]) == Months.LedgerMonths(year)[i]
    {
      Months.PortalMonths(year)
    }

    /** `fetchTenants`: the rows replace the list when the read succeeds. */
    method FetchTenants(response: Response<seq<PortalTenant>>)
      modifies this`tenants
      ensures tenants == if response.Data? then response.rows else old(tenants)
    {
      if response.Data? {
        tenants := response.rows;
      }
    }

    /** `handleTenantChange`: the pick is kept, the success notice goes, and the fields are filled
        in from the picked tenant. */
    method HandleTenantChange(tenantId: string)
      modifies this`selectedTenantId, this`success, this`selection
      ensures selectedTenantId == tenantId && !success
      ensures selection == AutoFill(tenants, tenantId)
    {
      selectedTenantId := tenantId;
      success := false;
      selection := AutoFill(tenants, tenantId);
    }

    method SelectMonth(m: string)
      modifies this`month
      ensures month == m
    {
      month := m;
    }

    method ChooseFile(f: Option<UploadFile>)
      modifies this`file
      ensures file == f
    {
      file := f;
    }

    /** The submit guard: a file, a room id other than 0, a month and a tenant name. */
    predicate CanSubmit()
      reads this
    {
      file.Some? && HasRoomId(selection) && month != "" && selection.tenantName != ""
    }

    /** `handleSubmit`. Without everything the guard asks for, nothing happens. Otherwise the file
        is uploaded to `StoragePath`; a failed upload stops there (the form keeps its fields).
        After an upload the proof row is inserted with the month as `YYYY-MM-01` and the public URL
        of the path; whatever the insert's outcome, the form resets and reports success.
        `urlOf` is the bucket's public URL of a path. */
    method HandleSubmit(db: Store.Database, now: nat, uploadOk: bool, insertOk: bool, urlOf: string -> string)
      modifies this`selectedTenantId, this`selection, this`month, this`file, this`submitting, this`success
      modifies db`bucket, db`proofs
      ensures !old(CanSubmit()) ==>
        && db.bucket == old(db.bucket) && db.proofs == old(db.proofs)
        && selectedTenantId == old(selectedTenantId) && selection == old(selection)
        && month == old(month) && file == old(file) && success == old(success)
        && submitting == old(submitting)
      ensures old(CanSubmit()) ==>
        var path := StoragePath(old(selection.roomId.value), old(month), now, old(file.value.name));
        && !submitting
        && db.bucket == (if uploadOk then old(db.bucket)[path := old(file.value)] else old(db.bucket))
        && (!uploadOk ==>
              && db.proofs == old(db.proofs)
              && selectedTenantId == old(selectedTenantId) && selection == old(selection)
              && month == old(month) && file == old(file) && success == old(success))
        && (uploadOk ==>
              && db.proofs == (if insertOk then old(db.proofs) + [ProofRecord(old(selection.tenantName),
                                 old(selection.roomId.value), Months.StoredMonth(old(month)), urlOf(path))]
                               else old(db.proofs))
              && selectedTenantId == "" && selection == Cleared && month == "" && file == None && success)
    {
      if !CanSubmit() {
        return;
      }
      submitting := true;
      var path := StoragePath(selection.roomId.value, month, now, file.value.name);
      db.Upload(path, file.value, uploadOk);
      if uploadOk {
        var record := ProofRecord(selection.tenantName, selection.roomId.value, Months.StoredMonth(month), urlOf(path));
        db.InsertProof(record, insertOk);
        selectedTenantId, selection := "", Cleared;
        month, file := "", None;
        success := true;
      }
      submitting := false;
    }
  }
}
