/** The service's vocabulary: enumerations, stored rows and error values. */
module Domain {
  datatype Option<+T> = None | Some(value: T) {
    function GetOr(default: T): T {
      if Some? then value else default
    }
  }

  /** Identifiers are row numbers: the source draws fresh uuids, and a fresh number per table is one. */
  type RequestId = nat

  /** A balance belongs to one employee at one location. */
  datatype Key = Key(employee: string, location: string)

  datatype RequestStatus =
    | Draft
    | PendingApproval
    | Approved
    | Committed
    | Rejected
    | Cancelled
    | CancellationPending
    | Failed

  datatype RequestAction =
    | Submit
    | Approve
    | Reject
    | Cancel
    | HcmCommitted
    | HcmRejected
    | HcmCreditDone

  /** The enum's other two phases, RELEASE and HCM_ADJUSTMENT, are never written by the service. */
  datatype LedgerPhase = Reserve | Commit

  datatype LedgerState = Active | Released | Reconciled

  datatype Direction = Debit | Credit

  datatype OutboxStatus = Pending | Inflight | Done | Retrying | Dead

  datatype EventType =
    | PlainReconciled
    | BalanceIncreased
    | BalanceDecreased
    | OverAllocated
    | DriftDetected

  /** `debit:<id>` and `credit:<id>` are the service's keys; any other caller of HCM uses a foreign one. */
  datatype IdempotencyKey =
    | DebitOf(requestId: RequestId)
    | CreditOf(requestId: RequestId)
    | Foreign(name: string)

  datatype Request = Request(id: RequestId, key: Key, days: int, status: RequestStatus, hcmRef: Option<nat>)

  datatype LedgerRow = LedgerRow(
    id: nat, requestId: RequestId, key: Key, amount: int,
    phase: LedgerPhase, state: LedgerState, hcmVersion: Option<nat>)

  /** OutboxStatus.FAILED is called Retrying here, to keep it apart from a failed request. */
  datatype Message = Message(
    id: nat, requestId: RequestId, direction: Direction, idempotencyKey: IdempotencyKey,
    key: Key, amount: int, status: OutboxStatus, attempts: nat, nextAttemptAt: Option<int>)

  datatype Balance = Balance(hcmBalance: int, lastReconciledVersion: nat)

  datatype Event = Event(eventType: EventType, key: Key, delta: int)

  datatype DomainError =
    | RequestNotFound
    | IllegalTransition(from: RequestStatus, action: RequestAction)
    | InsufficientBalance(requested: int, available: int)

  datatype Result<+T> = Ok(value: T) | Err(error: DomainError)

  const MAX_ATTEMPTS := 5
  const BASE_BACKOFF_MS := 200
  const CLAIM_LIMIT := 50

  /** The whole database. One transaction maps a store to a store. */
  datatype Store = Store(
    requests: seq<Request>,
    ledger: seq<LedgerRow>,
    outbox: seq<Message>,
    balances: map<Key, Balance>,
    events: seq<Event>)

  /** The tables the services update in place. */
  class Database {
    var requests: seq<Request>
    var ledger: seq<LedgerRow>
    var outbox: seq<Message>
    var balances: map<Key, Balance>
    var events: seq<Event>

    function Contents(): Store
      reads this
    {
      Store(requests, ledger, outbox, balances, events)
    }

    constructor ()
      ensures Contents() == Store([], [], [], map[], [])
    {
      requests, ledger, outbox, balances, events := [], [], [], map[], [];
    }
  }
}
