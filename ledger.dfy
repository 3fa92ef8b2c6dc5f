/**
 * The `payments` table as the ledger writes it: an upsert whose conflict target is
 * `(tenant_id, month)`, and a status update by id. The table keeps the invariant that no two
 * rows share a `(tenant_id, month)` key and that every id is below the next id to hand out.
 */
module Ledger {
  import opened Common
  import opened Schema

  type Key = (int, string)

  function KeyOf(r: PaymentRecord): Key { (r.tenantId, r.month) }

  function BatchKey(p: NewPayment): Key { (p.tenantId, p.month) }

  /** The conflict keys of an upsert batch. */
  function BatchKeys(batch: seq<NewPayment>): set<Key>
  {
    set p | p in batch :: BatchKey(p)
  }

  /** No two rows share a `(tenant_id, month)` key. */
  ghost predicate UniqueKeys(t: seq<PaymentRecord>)
  {
    forall i, j :: 0 <= i < j < |t| ==> KeyOf(t[i]) != KeyOf(t[j])
  }

  ghost predicate IdsBelow(t: seq<PaymentRecord>, next: int)
  {
    forall i :: 0 <= i < |t| ==> t[i].id < next
  }

  /** The table invariant. */
  ghost predicate Valid(t: seq<PaymentRecord>, next: int)
  {
    UniqueKeys(t) && IdsBelow(t, next)
  }

  ghost predicate HasKey(t: seq<PaymentRecord>, k: Key)
  {
    exists i :: 0 <= i < |t| && KeyOf(t[i]) == k
  }

  /** The position of the row with key `k`, if any. */
  function FindKey(t: seq<PaymentRecord>, k: Key): (r: Option<nat>)
    ensures r.Some? ==> r.value < |t| && KeyOf(t[r.value]) == k
    ensures r.None? ==> forall i :: 0 <= i < |t| ==> KeyOf(t[i]) != k
    decreases |t|
  {
    if t == [] then None
    else if KeyOf(t[0]) == k then Some(0)
    else match FindKey(t[1..], k)
      case Some(i) => Some(i + 1)
      case None => None
  }

  /** One row of the upsert: a row with the same key takes the new amount and status and keeps
      its id and place; otherwise the row is appended under the next id. */
  function UpsertOne(t: seq<PaymentRecord>, p: NewPayment, next: int): (seq<PaymentRecord>, int)
  {
    match FindKey(t, BatchKey(p))
    case Some(i) => (t[i := t[i].(amount := p.amount, status := p.status)], next)
    case None => (t + [PaymentRecord(next, p.tenantId, p.month, p.amount, p.status)], next + 1)
  }

  /** `upsert(rows, { onConflict: "tenant_id,month" })`, the rows taken in order; returns the
      new table and the next id. */
  function Upsert(t: seq<PaymentRecord>, batch: seq<NewPayment>, next: int): (seq<PaymentRecord>, int)
    decreases |batch|
  {
    if batch == [] then (t, next)
    else
      var (t1, n1) := UpsertOne(t, batch[0], next);
      Upsert(t1, batch[1..], n1)
  }

  lemma UpsertOneValid(t: seq<PaymentRecord>, p: NewPayment, next: int)
    requires Valid(t, next)
    ensures var (t1, n1) := UpsertOne(t, p, next);
      Valid(t1, n1) && n1 - next == |t1| - |t|
      && forall i :: 0 <= i < |t| ==> KeyOf(t1[i]) == KeyOf(t[i]) && t1[i].id == t[i].id
  {
  }

  /** Every upsert keeps the table invariant: it never creates a second row for a key, and the
      id counter advances by the number of rows it appends. */
  lemma {:induction false} UpsertValid(t: seq<PaymentRecord>, batch: seq<NewPayment>, next: int)
    requires Valid(t, next)
    ensures var (t1, n1) := Upsert(t, batch, next);
      Valid(t1, n1) && |t| <= |t1| && n1 - next == |t1| - |t|
      && forall i :: 0 <= i < |t| ==> KeyOf(t1[i]) == KeyOf(t[i]) && t1[i].id == t[i].id
    decreases |batch|
  {
    if batch != [] {
      var (t1, n1) := UpsertOne(t, batch[0], next);
      UpsertOneValid(t, batch[0], next);
      UpsertValid(t1, batch[1..], n1);
    }
  }

  /** Every row of the batch asks for the same amount and status. */
  ghost predicate Uniform(batch: seq<NewPayment>, amount: int, status: PaymentStatus)
  {
    forall p :: p in batch ==> p.amount == amount && p.status == status
  }

  /** What an upsert of a uniform batch does to a table `t`, giving `t'`: rows whose key is in the
      batch take the amount and status, other rows stay as they were, in place; the appended rows
      carry batch keys that `t` did not have; every batch key ends up in the table. */
  ghost predicate UpsertResult(t: seq<PaymentRecord>, batch: seq<NewPayment>, amount: int, status: PaymentStatus,
                               t': seq<PaymentRecord>)
  {
    && |t| <= |t'|
    && (forall i :: 0 <= i < |t| ==>
          t'[i] == if KeyOf(t[i]) in BatchKeys(batch) then t[i].(amount := amount, status := status) else t[i])
    && (forall i :: |t| <= i < |t'| ==>
          KeyOf(t'[i]) in BatchKeys(batch) && !HasKey(t, KeyOf(t'[i]))
          && t'[i].amount == amount && t'[i].status == status)
    && (forall k :: k in BatchKeys(batch) ==> HasKey(t', k))
  }

  lemma UpsertOneResult(t: seq<PaymentRecord>, p: NewPayment, next: int, amount: int, status: PaymentStatus)
    requires Valid(t, next) && p.amount == amount && p.status == status
    ensures UpsertResult(t, [p], amount, status, UpsertOne(t, p, next).0)
  {
    var t1 := UpsertOne(t, p, next).0;
    assert BatchKeys([p]) == {BatchKey(p)};
    match FindKey(t, BatchKey(p))
    case Some(i) =>
      assert KeyOf(t1[i]) == BatchKey(p);
    case None =>
      assert KeyOf(t1[|t|]) == BatchKey(p);
  }

  lemma ComposeResults(t: seq<PaymentRecord>, t1: seq<PaymentRecord>, t2: seq<PaymentRecord>,
                       batch: seq<NewPayment>, amount: int, status: PaymentStatus)
    requires batch != []
    requires UpsertResult(t, [batch[0]], amount, status, t1)
    requires UpsertResult(t1, batch[1..], amount, status, t2)
    ensures UpsertResult(t, batch, amount, status, t2)
  {
    var p, rest := batch[0], batch[1..];
    assert BatchKeys(batch) == BatchKeys([p]) + BatchKeys(rest) by {
      assert batch == [p] + rest;
      assert forall q :: q in batch <==> q == p || q in rest;
    }
    forall i | 0 <= i < |t| ensures KeyOf(t1[i]) == KeyOf(t[i]) { }
    forall k | HasKey(t, k) ensures HasKey(t1, k) {
      var i :| 0 <= i < |t| && KeyOf(t[i]) == k;
      assert KeyOf(t1[i]) == k;
    }
    forall k | HasKey(t1, k) ensures HasKey(t2, k) {
      var i :| 0 <= i < |t1| && KeyOf(t1[i]) == k;
      assert KeyOf(t2[i]) == k;
    }
  }

  /** The upsert of a uniform batch has exactly the effect `UpsertResult` describes, and keeps the
      table invariant. */
  lemma {:induction false} UpsertSpec(t: seq<PaymentRecord>, batch: seq<NewPayment>, next: int,
                                      amount: int, status: PaymentStatus)
    requires Valid(t, next) && Uniform(batch, amount, status)
    ensures var (t1, n1) := Upsert(t, batch, next);
      Valid(t1, n1) && UpsertResult(t, batch, amount, status, t1)
    decreases |batch|
  {
    UpsertValid(t, batch, next);
    if batch != [] {
      var (t1, n1) := UpsertOne(t, batch[0], next);
      UpsertOneValid(t, batch[0], next);
      UpsertOneResult(t, batch[0], next, amount, status);
      UpsertSpec(t1, batch[1..], n1, amount, status);
      ComposeResults(t, t1, Upsert(t1, batch[1..], n1).0, batch, amount, status);
    }
  }

  /** An upsert whose every key is already in the table appends nothing and uses no id. */
  lemma {:induction false} UpsertInPlace(t: seq<PaymentRecord>, batch: seq<NewPayment>, next: int)
    requires forall p :: p in batch ==> HasKey(t, BatchKey(p))
    ensures Upsert(t, batch, next).1 == next && |Upsert(t, batch, next).0| == |t|
    decreases |batch|
  {
    if batch != [] {
      var k := BatchKey(batch[0]);
      assert FindKey(t, k).Some?;
      var (t1, n1) := UpsertOne(t, batch[0], next);
      assert n1 == next && |t1| == |t|;
      forall p | p in batch[1..] ensures HasKey(t1, BatchKey(p)) {
        var i :| 0 <= i < |t| && KeyOf(t[i]) == BatchKey(p);
        assert KeyOf(t1[i]) == BatchKey(p);
      }
      UpsertInPlace(t1, batch[1..], n1);
    }
  }

  /** Repeating an upsert of a uniform batch changes nothing: no row is added, none is altered,
      and no id is used up. */
  lemma UpsertIdempotent(t: seq<PaymentRecord>, batch: seq<NewPayment>, next: int,
                         amount: int, status: PaymentStatus)
    requires Valid(t, next) && Uniform(batch, amount, status)
    ensures var (t1, n1) := Upsert(t, batch, next); Upsert(t1, batch, n1) == (t1, n1)
  {
    var (t1, n1) := Upsert(t, batch, next);
    UpsertSpec(t, batch, next, amount, status);
    UpsertSpec(t1, batch, n1, amount, status);
    UpsertValid(t1, batch, n1);
    var (t2, n2) := Upsert(t1, batch, n1);
    assert forall p :: p in batch ==> BatchKey(p) in BatchKeys(batch);
    UpsertInPlace(t1, batch, n1);
    forall i | 0 <= i < |t1| ensures t2[i] == t1[i] {
      if KeyOf(t1[i]) in BatchKeys(batch) {
        if i < |t| {
          assert KeyOf(t1[i]) == KeyOf(t[i]);
        }
      }
    }
    assert t2 == t1;
  }

  /** `update({ status }).eq("id", id)` */
  function SetStatus(t: seq<PaymentRecord>, id: int, s: PaymentStatus): (r: seq<PaymentRecord>)
    ensures |r| == |t|
    ensures forall i :: 0 <= i < |t| ==> r[i].(status := t[i].status) == t[i]
    ensures forall i :: 0 <= i < |t| ==> r[i].status == if t[i].id == id then s else t[i].status
  {
    seq(|t|, i requires 0 <= i < |t| => if t[i].id == id then t[i].(status := s) else t[i])
  }

  /** A status update keeps the table invariant, since the status is not part of the key. */
  lemma SetStatusValid(t: seq<PaymentRecord>, next: int, id: int, s: PaymentStatus)
    requires Valid(t, next)
    ensures Valid(SetStatus(t, id, s), next)
  {
    var r := SetStatus(t, id, s);
    assert forall i :: 0 <= i < |t| ==> KeyOf(r[i]) == KeyOf(t[i]) && r[i].id == t[i].id;
  }
}
