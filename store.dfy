/**
 * The hosted database and object storage as the components write to them. Each write takes the
 * outcome the backend reported (`ok`); a failed write changes nothing. Ids come from one counter
 * shared by all tables.
 */
module Store {
  import opened Common
  import opened Schema
  import Ledger

  /** `from("tenants").delete().eq("id", id)`: the rows with that id go, the rest stay in order
      (`RemoveTenantKeepsOrder`). */
  function RemoveTenant(ts: seq<TenantRecord>, id: int): (r: seq<TenantRecord>)
    ensures forall t :: t in r <==> t in ts && t.id != id
    ensures |r| <= |ts|
    decreases |ts|
  {
    if ts == [] then []
    else
      var rest := RemoveTenant(ts[1..], id);
      assert forall t :: t in ts <==> t == ts[0] || t in ts[1..];
      if ts[0].id == id then rest else [ts[0]] + rest
  }

  /** Deleting distributes over concatenation: the rows that stay keep their relative order. */
  lemma {:induction false} RemoveTenantKeepsOrder(a: seq<TenantRecord>, b: seq<TenantRecord>, id: int)
    ensures RemoveTenant(a + b, id) == RemoveTenant(a, id) + RemoveTenant(b, id)
    decreases |a|
  {
    if a != [] {
      assert (a + b)[1..] == a[1..] + b;
      RemoveTenantKeepsOrder(a[1..], b, id);
    } else {
      assert a + b == b;
    }
  }

  /** The `room_id` column of `tenants`. */
  function RoomIdColumn(ts: seq<TenantRecord>): (c: seq<Option<int>>)
    ensures |c| == |ts|
    ensures forall i :: 0 <= i < |ts| ==> c[i] == ts[i].fields.roomId
  {
    seq(|ts|, i requires 0 <= i < |ts| => ts[i].fields.roomId)
  }

  /** `from("maintenance_requests").update({ status }).eq("id", id)`: the rows with that id take
      the status; nothing else in any row changes. */
  function SetRequestStatus(rs: seq<RequestRecord>, id: int, s: RequestStatus): (r: seq<RequestRecord>)
    ensures |r| == |rs|
    ensures forall i :: 0 <= i < |rs| ==>
      r[i] == rs[i].(fields := rs[i].fields.(status := r[i].fields.status))
    ensures forall i :: 0 <= i < |rs| ==>
      r[i].fields.status == if rs[i].id == id then s else rs[i].fields.status
  {
    seq(|rs|, i requires 0 <= i < |rs| =>
      if rs[i].id == id then rs[i].(fields := rs[i].fields.(status := s)) else rs[i])
  }

  /** Any ticket status can be set from any other: the update has no transition rule. */
  lemma RequestStatusReachable(rs: seq<RequestRecord>, k: nat, s: RequestStatus)
    requires k < |rs|
    ensures SetRequestStatus(rs, rs[k].id, s)[k].fields.status == s
    ensures SetRequestStatus(rs, rs[k].id, s)[k].fields.issue == rs[k].fields.issue
  {
  }

  /** The backend: the four tables the components write, the `payment-proofs` bucket (path to
      file), and the id counter. The `rooms` table is only read, so it enters as a parameter of
      the reads. */
  class Database {
    var tenants: seq<TenantRecord>
    var payments: seq<PaymentRecord>
    var proofs: seq<ProofRecord>
    var requests: seq<RequestRecord>
    var bucket: map<string, UploadFile>
    var nextId: int

    /** The payments table never holds two rows for one `(tenant_id, month)`. */
    ghost predicate Valid()
      reads this
    {
      Ledger.Valid(payments, nextId)
    }

    constructor ()
      ensures Valid()
      ensures tenants == [] && payments == [] && proofs == [] && requests == []
      ensures bucket == map[] && nextId == 1
    {
      tenants, payments, proofs, requests := [], [], [], [];
      bucket := map[];
      nextId := 1;
    }

    /** `from("tenants").insert([row])` */
    method InsertTenant(row: TenantInsert, ok: bool)
      requires Valid()
      modifies this`tenants, this`nextId
      ensures Valid()
      ensures ok ==> tenants == old(tenants) + [TenantRecord(old(nextId), row)] && nextId == old(nextId) + 1
      ensures !ok ==> tenants == old(tenants) && nextId == old(nextId)
    {
      if ok {
        tenants := tenants + [TenantRecord(nextId, row)];
        nextId := nextId + 1;
      }
    }

    /** `from("tenants").delete().eq("id", id)` */
    method DeleteTenant(id: int, ok: bool)
      modifies this`tenants
      ensures tenants == if ok then RemoveTenant(old(tenants), id) else old(tenants)
    {
      if ok {
        tenants := RemoveTenant(tenants, id);
      }
    }

    /** `from("payments").upsert(batch, { onConflict: "tenant_id,month" })` */
    method UpsertPayments(batch: seq<NewPayment>, ok: bool)
      requires Valid()
      modifies this`payments, this`nextId
      ensures Valid()
      ensures (payments, nextId) == if ok then Ledger.Upsert(old(payments), batch, old(nextId))
                                    else (old(payments), old(nextId))
    {
      if ok {
        Ledger.UpsertValid(payments, batch, nextId);
        var (t, n) := Ledger.Upsert(payments, batch, nextId);
        payments, nextId := t, n;
      }
    }

    /** `from("payments").update({ status }).eq("id", id)` */
    method UpdatePaymentStatus(id: int, s: PaymentStatus, ok: bool)
      requires Valid()
      modifies this`payments
      ensures Valid()
      ensures payments == if ok then Ledger.SetStatus(old(payments), id, s) else old(payments)
    {
      if ok {
        Ledger.SetStatusValid(payments, nextId, id, s);
        payments := Ledger.SetStatus(payments, id, s);
      }
    }

    /** `storage.from("payment-proofs").upload(path, file)` */
    method Upload(path: string, file: UploadFile, ok: bool)
      modifies this`bucket
      ensures bucket == if ok then old(bucket)[path := file] else old(bucket)
    {
      if ok {
        bucket := bucket[path := file];
      }
    }

    /** `from("payment_proofs").insert(record)` */
    method InsertProof(record: ProofRecord, ok: bool)
      modifies this`proofs
      ensures proofs == if ok then old(proofs) + [record] else old(proofs)
    {
      if ok {
        proofs := proofs + [record];
      }
    }

    /** `from("maintenance_requests").insert(row)`, stamped `created_at = now`. */
    method InsertRequest(row: RequestInsert, now: int, ok: bool)
      requires Valid()
      modifies this`requests, this`nextId
      ensures Valid()
      ensures ok ==> requests == old(requests) + [RequestRecord(old(nextId), now, row)] && nextId == old(nextId) + 1
      ensures !ok ==> requests == old(requests) && nextId == old(nextId)
    {
      if ok {
        requests := requests + [RequestRecord(nextId, now, row)];
        nextId := nextId + 1;
      }
    }

    /** `from("maintenance_requests").update({ status }).eq("id", id)` */
    method UpdateRequestStatus(id: int, s: RequestStatus, ok: bool)
      modifies this`requests
      ensures requests == if ok then SetRequestStatus(old(requests), id, s) else old(requests)
    {
      if ok {
        requests := SetRequestStatus(requests, id, s);
      }
    }
  }
}
