/**
 * The rows of the hosted database's tables, as the components insert and read them:
 * `rooms`, `tenants`, `payments`, `payment_proofs`, `maintenance_requests`, and the objects of
 * the `payment-proofs` storage bucket.
 */
module Schema {
  import opened Common

  /** A row of `rooms`. */
  datatype Room = Room(id: int, roomNo: string, floor: int, extraFacilities: Option<string>)

  /** The columns an insert into `tenants` sends. */
  datatype TenantInsert = TenantInsert(
    name: string,
    phone: Option<string>,
    email: Option<string>,
    address: Option<string>,
    roomId: Option<int>,
    depositAmount: int,
    depositPaid: bool)

  /** A stored row of `tenants`: the inserted columns under the id the database gave it. */
  datatype TenantRecord = TenantRecord(id: int, fields: TenantInsert)

  /** The values of `payments.status`. */
  datatype PaymentStatus = Pending | Paid | Late

  /** A stored row of `payments`. */
  datatype PaymentRecord = PaymentRecord(id: int, tenantId: int, month: string, amount: int, status: PaymentStatus)

  /** A row of a `payments` upsert (no id: the database keeps or assigns it). */
  datatype NewPayment = NewPayment(tenantId: int, month: string, amount: int, status: PaymentStatus)

  /** A row of `payment_proofs`. */
  datatype ProofRecord = ProofRecord(tenantName: string, roomId: int, month: string, fileUrl: string)

  /** The values of `maintenance_requests.status`. */
  datatype RequestStatus = Open | InProgress | Resolved

  /** The columns an insert into `maintenance_requests` sends; the staff form sends no tenant name. */
  datatype RequestInsert = RequestInsert(tenantName: Option<string>, issue: string, roomId: Option<int>, status: RequestStatus)

  /** A stored row of `maintenance_requests`, with its id and `created_at` stamp. */
  datatype RequestRecord = RequestRecord(id: int, createdAt: int, fields: RequestInsert)

  /** A file chosen in the browser; only its name matters to the code. */
  datatype UploadFile = UploadFile(name: string)
}
