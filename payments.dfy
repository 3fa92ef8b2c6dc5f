/**
 * The monthly rent ledger screen: the month picker, the list of the month's payments with each
 * tenant's uploaded proof attached by room, generation of the month's payments for every tenant,
 * and status updates.
 */
module Payments {
  import opened Common
  import opened Schema
  import Ledger
  import Months
  import Store

  /** The fixed monthly rent every generated payment asks for. */
  const Amount := 10000

  /** The joined `tenant:tenants(name, room_id)` of a payment. */
  datatype PaymentTenant = PaymentTenant(name: string, roomId: Option<int>)

  /** A row of the payments read: `id, month, amount, status` and the joined tenant. */
  datatype PaymentRow = PaymentRow(id: int, month: string, amount: int, status: PaymentStatus, tenant: PaymentTenant)

  /** A listed payment: the row read and the proof link attached to it, if any. */
  datatype Payment = Payment(row: PaymentRow, proof: Option<string>)

  /** A row of the proofs read: `room_id, file_url`. */
  datatype ProofLink = ProofLink(roomId: int, fileUrl: string)

  // ---------------------------------------------------------------- attaching proofs

  /** `pr.room_id === p.tenant.room_id`: a tenant without a room matches no proof. */
  predicate Matches(pr: ProofLink, p: Payment)
  {
    p.row.tenant.roomId == Some(pr.roomId)
  }

  /** `proofs.find(...)`: the position of the first proof for the payment's room. */
  function FindProof(proofs: seq<ProofLink>, p: Payment): (r: Option<nat>)
    ensures r.Some? ==>
      && r.value < |proofs| && Matches(proofs[r.value], p)
      && forall j :: 0 <= j < r.value ==> !Matches(proofs[j], p)
    ensures r.None? ==> forall j :: 0 <= j < |proofs| ==> !Matches(proofs[j], p)
    decreases |proofs|
  {
    if proofs == [] then None
    else if Matches(proofs[0], p) then Some(0)
    else match FindProof(proofs[1..], p)
      case Some(k) => Some(k + 1)
      case None => None
  }

  /** The payments with the proofs attached: every row is kept as it is, and a payment gets the
      link of the first proof for its room, or none when no proof is for its room. */
  function Merge(ps: seq<Payment>, proofs: seq<ProofLink>): (r: seq<Payment>)
    ensures |r| == |ps|
    ensures forall i :: 0 <= i < |ps| ==> r[i].row == ps[i].row
    ensures forall i :: 0 <= i < |ps| ==>
      (r[i].proof.None? <==> forall k :: 0 <= k < |proofs| ==> !Matches(proofs[k], ps[i]))
    ensures forall i :: 0 <= i < |ps| && r[i].proof.Some? ==>
      exists k :: 0 <= k < |proofs| && Matches(proofs[k], ps[i]) && r[i].proof.value == proofs[k].fileUrl
        && forall j :: 0 <= j < k ==> !Matches(proofs[j], ps[i])
  {
    seq(|ps|, i requires 0 <= i < |ps| =>
      match FindProof(proofs, ps[i])
      case Some(k) => ps[i].(proof := Some(proofs[k].fileUrl))
      case None => ps[i].(proof := None))
  }

  /** Attaching the same proofs again changes nothing: the link depends only on the row. */
  lemma MergeIdempotent(ps: seq<Payment>, proofs: seq<ProofLink>)
    ensures Merge(Merge(ps, proofs), proofs) == Merge(ps, proofs)
  {
    var m := Merge(ps, proofs);
    var mm := Merge(m, proofs);
    forall i | 0 <= i < |ps| ensures mm[i] == m[i] {
      assert forall k :: 0 <= k < |proofs| ==> (Matches(proofs[k], m[i]) <==> Matches(proofs[k], ps[i]));
      assert FindProof(proofs, m[i]) == FindProof(proofs, ps[i]) by {
        FindProofByRoom(proofs, m[i], ps[i]);
      }
    }
  }

  /** The proof found for a payment depends only on its tenant's room. */
  lemma {:induction false} FindProofByRoom(proofs: seq<ProofLink>, p: Payment, q: Payment)
    requires p.row.tenant.roomId == q.row.tenant.roomId
    ensures FindProof(proofs, p) == FindProof(proofs, q)
    decreases |proofs|
  {
    if proofs != [] {
      FindProofByRoom(proofs[1..], p, q);
    }
  }

  /** The payments as a read lists them: no proof is attached yet (the read selects none). */
  function Unmerged(rows: seq<PaymentRow>): (ps: seq<Payment>)
    ensures |ps| == |rows|
    ensures forall i :: 0 <= i < |rows| ==> ps[i].row == rows[i] && ps[i].proof.None?
  {
    seq(|rows|, i requires 0 <= i < |rows| => Payment(rows[i], None))
  }

  // ---------------------------------------------------------------- generation

  /** The upsert batch `generatePayments` sends: one pending row of the fixed amount per tenant. */
  function GenerationRows(ids: seq<int>, month: string): (rows: seq<NewPayment>)
    ensures |rows| == |ids|
    ensures forall k :: 0 <= k < |ids| ==> rows[k] == NewPayment(ids[k], month, Amount, Pending)
  {
    seq(|ids|, k requires 0 <= k < |ids| => NewPayment(ids[k], month, Amount, Pending))
  }

  /** Every row of the batch asks for the fixed amount and pending, and its conflict keys are
      exactly the tenant ids paired with the month. */
  lemma GenerationBatch(ids: seq<int>, month: string)
    ensures Ledger.Uniform(GenerationRows(ids, month), Amount, Pending)
    ensures forall key :: key in Ledger.BatchKeys(GenerationRows(ids, month)) <==> key.1 == month && key.0 in ids
  {
    var rows := GenerationRows(ids, month);
    forall key ensures key in Ledger.BatchKeys(rows) <==> key.1 == month && key.0 in ids {
      if key.1 == month && key.0 in ids {
        var k :| 0 <= k < |ids| && ids[k] == key.0;
        assert rows[k] in rows;
      }
    }
  }

  /** The rows a first generation appends: tenant `ids[k]` gets id `next + k`. */
  function FreshRecords(ids: seq<int>, month: string, next: int): (t: seq<PaymentRecord>)
    ensures |t| == |ids|
    ensures forall k :: 0 <= k < |ids| ==> t[k] == PaymentRecord(next + k, ids[k], month, Amount, Pending)
  {
    seq(|ids|, k requires 0 <= k < |ids| => PaymentRecord(next + k, ids[k], month, Amount, Pending))
  }

  ghost predicate Distinct(ids: seq<int>)
  {
    forall i, j :: 0 <= i < j < |ids| ==> ids[i] != ids[j]
  }

  /** The batch for a non-empty id list is the first tenant's row, then the batch for the rest. */
  lemma GenerationRowsCons(ids: seq<int>, month: string)
    requires ids != []
    ensures GenerationRows(ids, month)[0] == NewPayment(ids[0], month, Amount, Pending)
    ensures GenerationRows(ids, month)[1..] == GenerationRows(ids[1..], month)
  {
  }

  /** The fresh rows for a non-empty id list are the first tenant's row, then the rest's. */
  lemma FreshRecordsCons(ids: seq<int>, month: string, next: int)
    requires ids != []
    ensures FreshRecords(ids, month, next) ==
      [PaymentRecord(next, ids[0], month, Amount, Pending)] + FreshRecords(ids[1..], month, next + 1)
  {
  }

  lemma AppendAssociative<T>(a: seq<T>, b: seq<T>, c: seq<T>)
    ensures (a + b) + c == a + (b + c)
  {
  }

  lemma DistinctTail(ids: seq<int>)
    requires ids != [] && Distinct(ids)
    ensures Distinct(ids[1..])
    ensures forall k :: 0 <= k < |ids| - 1 ==> ids[1..][k] != ids[0]
  {
    var tail := ids[1..];
    forall i, j | 0 <= i < j < |tail| ensures tail[i] != tail[j] {
      assert tail[i] == ids[i + 1] && tail[j] == ids[j + 1];
    }
  }

  /** Appending the first tenant's fresh row keeps every later tenant's key out of the table. */
  lemma FreshKeysAfterAppend(t: seq<PaymentRecord>, ids: seq<int>, month: string, next: int)
    requires ids != [] && Distinct(ids)
    requires forall i, k :: 0 <= i < |t| && 0 <= k < |ids| ==> Ledger.KeyOf(t[i]) != (ids[k], month)
    ensures var t1 := t + [PaymentRecord(next, ids[0], month, Amount, Pending)];
      forall i, k :: 0 <= i < |t1| && 0 <= k < |ids| - 1 ==> Ledger.KeyOf(t1[i]) != (ids[1..][k], month)
  {
    var t1 := t + [PaymentRecord(next, ids[0], month, Amount, Pending)];
    var tail := ids[1..];
    forall i, k | 0 <= i < |t1| && 0 <= k < |tail| ensures Ledger.KeyOf(t1[i]) != (tail[k], month) {
      assert tail[k] == ids[k + 1];
      if i < |t| {
        assert t1[i] == t[i];
      }
    }
  }

  /** Generating a month no tenant has a payment for appends exactly one pending row of the fixed
      amount per tenant, in the order the tenant ids came, under fresh consecutive ids; every
      row already in the table stays as it was. */
  lemma {:induction false} GenerateFresh(t: seq<PaymentRecord>, ids: seq<int>, month: string, next: int)
    requires Distinct(ids)
    requires forall i, k :: 0 <= i < |t| && 0 <= k < |ids| ==> Ledger.KeyOf(t[i]) != (ids[k], month)
    ensures Ledger.Upsert(t, GenerationRows(ids, month), next) == (t + FreshRecords(ids, month, next), next + |ids|)
    decreases |ids|
  {
    var rows := GenerationRows(ids, month);
    if ids == [] {
      assert t + FreshRecords(ids, month, next) == t;
    } else {
      var rec := PaymentRecord(next, ids[0], month, Amount, Pending);
      var tail := ids[1..];
      GenerationRowsCons(ids, month);
      FreshRecordsCons(ids, month, next);
      DistinctTail(ids);
      assert Ledger.FindKey(t, Ledger.BatchKey(rows[0])) == None by {
        assert forall i :: 0 <= i < |t| ==> Ledger.KeyOf(t[i]) != (ids[0], month);
      }
      var t1 := t + [rec];
      assert Ledger.UpsertOne(t, rows[0], next) == (t1, next + 1);
      FreshKeysAfterAppend(t, ids, month, next);
      GenerateFresh(t1, tail, month, next + 1);
      AppendAssociative(t, [rec], FreshRecords(tail, month, next + 1));
    }
  }

  /** Whatever the table holds, generation leaves every tenant with a row for the month; rows of
      the month for those tenants are reset to the fixed amount and pending (a paid status is
      overwritten), all other rows stay as they were, and the appended rows are new pending rows
      of the fixed amount for those tenants; the table invariant is kept. */
  lemma GenerateCovers(t: seq<PaymentRecord>, ids: seq<int>, month: string, next: int)
    requires Ledger.Valid(t, next)
    ensures var (t1, n1) := Ledger.Upsert(t, GenerationRows(ids, month), next);
      && Ledger.Valid(t1, n1)
      && (forall k :: 0 <= k < |ids| ==> Ledger.HasKey(t1, (ids[k], month)))
      && |t| <= |t1|
      && (forall i :: 0 <= i < |t| ==>
            t1[i] == if t[i].month == month && t[i].tenantId in ids
                     then t[i].(amount := Amount, status := Pending) else t[i])
      && (forall i :: |t| <= i < |t1| ==>
            t1[i].month == month && t1[i].tenantId in ids && t1[i].amount == Amount && t1[i].status == Pending)
  {
    var rows := GenerationRows(ids, month);
    GenerationBatch(ids, month);
    Ledger.UpsertSpec(t, rows, next, Amount, Pending);
    forall k | 0 <= k < |ids| ensures (ids[k], month) in Ledger.BatchKeys(rows) {
      assert ids[k] in ids;
    }
  }

  /** Generating a month twice leaves the table and the id counter as the first generation left
      them. */
  lemma GenerateTwice(t: seq<PaymentRecord>, ids: seq<int>, month: string, next: int)
    requires Ledger.Valid(t, next)
    ensures var (t1, n1) := Ledger.Upsert(t, GenerationRows(ids, month), next);
      Ledger.Upsert(t1, GenerationRows(ids, month), n1) == (t1, n1)
  {
    Ledger.UpsertIdempotent(t, GenerationRows(ids, month), next, Amount, Pending);
  }

  // ---------------------------------------------------------------- the screen's state

  class PaymentsTable {
    /** The current calendar year, read once when the screen renders. */
    const year: nat
    var month: string
    var payments: seq<Payment>
    var hasPayments: bool
    var proofs: seq<ProofLink>

    /** `hasPayments` says whether the list is non-empty. */
    ghost predicate Valid()
      reads this
    {
      hasPayments <==> |payments| > 0
    }

    constructor (year: nat)
      ensures Valid()
      ensures this.year == year && month == "" && payments == [] && !hasPayments && proofs == []
    {
      this.year := year;
      month, payments, hasPayments, proofs := "", [], false, [];
    }

    /** The month picker's option values, January first. */
    function MonthOptions(): (ms: seq<string>)
      reads this
      ensures |ms| == 12
      ensures forall i :: 0 <= i < 12 ==> Months.ParseLedgerMonth(ms[i]) == Some((year, i + 1))
    {
      Months.LedgerMonthsDistinct(year);
      Months.LedgerMonths(year)
    }

    /** A pick in the month select. Picking the blank option clears the list; picking a month
        leaves it to the two reads that follow (`FetchPayments`, `FetchProofs`). */
    method SelectMonth(m: string)
      requires Valid()
      modifies this`month, this`payments, this`hasPayments
      ensures Valid()
      ensures month == m
      ensures m == "" ==> payments == [] && !hasPayments
      ensures m != "" ==> payments == old(payments) && hasPayments == old(hasPayments)
    {
      month := m;
      if m == "" {
        payments, hasPayments := [], false;
      }
    }

    /** `fetchPayments`: a successful read replaces the list, with no proof attached (nothing
        re-attaches proofs until the proofs are read again); a failed read empties it. */
    method FetchPayments(response: Response<seq<PaymentRow>>)
      requires Valid()
      modifies this`payments, this`hasPayments
      ensures Valid()
      ensures payments == if response.Data? then Unmerged(response.rows) else []
      ensures forall i :: 0 <= i < |payments| ==> payments[i].proof.None?
    {
      if response.Data? {
        payments := Unmerged(response.rows);
        hasPayments := |response.rows| > 0;
      } else {
        payments, hasPayments := [], false;
      }
    }

    /** `fetchProofs` and the effect that follows it: the proofs read (none on a failure) replace
        the proofs, and unless the list or the proofs are empty every payment gets its proof link. */
    method FetchProofs(response: Response<seq<ProofLink>>)
      requires Valid()
      modifies this`proofs, this`payments
      ensures Valid()
      ensures proofs == if response.Data? then response.rows else []
      ensures payments == if |old(payments)| == 0 || |proofs| == 0 then old(payments) else Merge(old(payments), proofs)
    {
      proofs := if response.Data? then response.rows else [];
      if |payments| == 0 || |proofs| == 0 {
        return;
      }
      payments := Merge(payments, proofs);
    }

    /** Whether "Generate Payments" is enabled: a month is picked and it has no payments yet. */
    function CanGenerate(): bool
      reads this
    {
      month != "" && !hasPayments
    }

    /** `generatePayments`: nothing happens unless generation is enabled and the tenant ids are
        read; otherwise the batch for every tenant id is upserted (its outcome is not looked at).
        The refresh that follows is `FetchPayments`. */
    method GeneratePayments(db: Store.Database, tenantIds: Response<seq<int>>, upsertOk: bool)
      requires db.Valid()
      modifies db`payments, db`nextId
      ensures db.Valid()
      ensures (db.payments, db.nextId) ==
        if CanGenerate() && tenantIds.Data? && upsertOk
        then Ledger.Upsert(old(db.payments), GenerationRows(tenantIds.rows, month), old(db.nextId))
        else (old(db.payments), old(db.nextId))
    {
      if month == "" || hasPayments {
        return;
      }
      if tenantIds.Error? {
        return;
      }
      var rows := GenerationRows(tenantIds.rows, month);
      db.UpsertPayments(rows, upsertOk);
    }

    /** `updateStatus`: the status of the payment with that id is set (outcome not looked at);
        the refresh that follows is `FetchPayments`. */
    method UpdateStatus(db: Store.Database, id: int, s: PaymentStatus, updateOk: bool)
      requires db.Valid()
      modifies db`payments
      ensures db.Valid()
      ensures db.payments == if updateOk then Ledger.SetStatus(old(db.payments), id, s) else old(db.payments)
    {
      db.UpdatePaymentStatus(id, s, updateOk);
    }

    /** The "No payments for selected month" row shows when a month is picked and the list is
        empty. */
    function ShowsEmptyNotice(): bool
      reads this
    {
      |payments| == 0 && month != ""
    }
  }
}
