/** The transactional outbox: messages, claims and bounded retry. */
module Outbox {
  import opened Domain
  import opened Tables

  function Enqueue(st: Store, id: RequestId, direction: Direction, idempotencyKey: IdempotencyKey,
                   key: Key, amount: int): Store
  {
    st.(outbox := st.outbox + [Message(|st.outbox|, id, direction, idempotencyKey, key, amount, Pending, 0, None)])
  }

  /** Pending, or failed with an elapsed backoff. */
  predicate IsDue(m: Message, now: int) {
    m.status.Pending? || (m.status.Retrying? && m.nextAttemptAt.Some? && m.nextAttemptAt.value <= now)
  }

  function DueAt(now: int): Message -> bool {
    (m: Message) => IsDue(m, now)
  }

  /** The oldest due messages, at most `limit` of them. */
  function Due(outbox: seq<Message>, now: int, limit: nat): (r: seq<Message>)
    ensures |r| <= limit
    ensures forall m :: m in r ==> m in outbox && IsDue(m, now)
  {
    var due := Select(outbox, DueAt(now));
    var r := if |due| <= limit then due else due[..limit];
    assert forall m :: m in r ==> m in due;
    r
  }

  /** A message is claimed exactly if it is due and fewer older ones are due than the claim takes. */
  lemma ClaimedExactly(outbox: seq<Message>, now: int, limit: nat, at: nat)
    requires forall i :: 0 <= i < |outbox| ==> outbox[i].id == i
    requires at < |outbox|
    ensures var m := outbox[at];
      outbox[at] in Due(outbox, now, limit) <==>
        && (m.status.Pending? || (m.status.Retrying? && m.nextAttemptAt.Some? && m.nextAttemptAt.value <= now))
        && |SelectFirst(outbox, at, DueAt(now))| < limit
  {
    var due, r := Select(outbox, DueAt(now)), Due(outbox, now, limit);
    SelectOrdered(outbox, DueAt(now), (m: Message) => m.id);
    if IsDue(outbox[at], now) {
      var p := |SelectFirst(outbox, at, DueAt(now))|;
      SelectPosition(outbox, |outbox|, at, DueAt(now));
      assert due[p] == outbox[at];
      if p < limit { assert r[p] in r; }
      if outbox[at] in r {
        var j :| 0 <= j < |r| && r[j] == outbox[at];
        assert due[j] == due[p];
      }
    }
  }

  /** Messages are claimed oldest first. */
  lemma OldestFirst(outbox: seq<Message>, now: int, limit: nat, i: nat, j: nat)
    requires forall i :: 0 <= i < |outbox| ==> outbox[i].id == i
    requires i < j < |Due(outbox, now, limit)|
    ensures Due(outbox, now, limit)[i].id < Due(outbox, now, limit)[j].id
  {
    SelectOrdered(outbox, DueAt(now), (m: Message) => m.id);
    var due := Select(outbox, DueAt(now));
    assert due[i] == Due(outbox, now, limit)[i] && due[j] == Due(outbox, now, limit)[j];
  }

  function Ids(messages: seq<Message>): set<nat> {
    set m | m in messages :: m.id
  }

  function ClaimIds(ids: set<nat>): Message -> Message {
    (m: Message) => if m.id in ids then m.(status := Inflight, nextAttemptAt := None) else m
  }

  function AsClaimed(): Message -> Message {
    (m: Message) => m.(status := Inflight)
  }

  /** Mark the due messages in flight and hand out copies of them. */
  function ClaimDue(st: Store, now: int, limit: nat): (Store, seq<Message>) {
    var due := Due(st.outbox, now, limit);
    if due == [] then (st, [])
    else (st.(outbox := Update(st.outbox, ClaimIds(Ids(due)))), Update(due, AsClaimed()))
  }

  function SetDone(id: nat): Message -> Message {
    (m: Message) => if m.id == id then m.(status := Done) else m
  }

  function SetDead(id: nat): Message -> Message {
    (m: Message) => if m.id == id then m.(status := Dead) else m
  }

  function Power2(n: nat): nat {
    if n == 0 then 1 else 2 * Power2(n - 1)
  }

  function Backoff(attempts: nat): nat
    requires attempts >= 1
  {
    BASE_BACKOFF_MS * Power2(attempts - 1)
  }

  /** The attempt count comes from the claimed copy, not from the stored row. */
  function SetRetry(id: nat, attempts: nat, now: int): Message -> Message
    requires attempts >= 1
  {
    (m: Message) =>
      if m.id != id then m
      else if attempts >= MAX_ATTEMPTS then m.(status := Dead, attempts := attempts)
      else m.(status := Retrying, attempts := attempts, nextAttemptAt := Some(now + Backoff(attempts)))
  }

  function StopQueued(id: RequestId): Message -> Message {
    (m: Message) =>
      if m.requestId == id && (m.status.Pending? || m.status.Retrying?) then m.(status := Dead) else m
  }

  function MarkDone(st: Store, id: nat): Store {
    st.(outbox := Update(st.outbox, SetDone(id)))
  }

  function MarkRejected(st: Store, id: nat): Store {
    st.(outbox := Update(st.outbox, SetDead(id)))
  }

  function MarkRetryOrDead(st: Store, claimed: Message, now: int): Store {
    st.(outbox := Update(st.outbox, SetRetry(claimed.id, claimed.attempts + 1, now)))
  }

  function CancelPendingForRequest(st: Store, id: RequestId): Store {
    st.(outbox := Update(st.outbox, StopQueued(id)))
  }

  /** The row after the `failures`-th failure settled at `now`: buried at the fifth, else waiting ever longer. */
  ghost predicate FailedAt(m: Message, m': Message, failures: nat, now: int) {
    if failures >= 5 then m' == m.(status := Dead, attempts := failures)
    else
      && m'.nextAttemptAt.Some? && m' == m.(status := Retrying, attempts := failures, nextAttemptAt := m'.nextAttemptAt)
      && m'.nextAttemptAt.value - now ==
           (if failures == 1 then 200 else if failures == 2 then 400 else if failures == 3 then 800 else 1600)
  }

  /** A failed try is counted from the claimed copy; the row is buried at the fifth and waits after each before. */
  lemma RetryExactly(st: Store, claimed: Message, now: int)
    requires forall i :: 0 <= i < |st.outbox| ==> st.outbox[i].id == i
    ensures var st' := MarkRetryOrDead(st, claimed, now);
      && st' == st.(outbox := st'.outbox) && |st'.outbox| == |st.outbox|
      && (forall i :: 0 <= i < |st.outbox| && i != claimed.id ==> st'.outbox[i] == st.outbox[i])
      && (claimed.id < |st.outbox| ==>
            FailedAt(st.outbox[claimed.id], st'.outbox[claimed.id], claimed.attempts + 1, now))
  {
    assert Power2(0) == 1 && Power2(1) == 2 && Power2(2) == 4 && Power2(3) == 8;
  }

  /** A claim marks the due rows it takes in flight, without their next attempt, and copies keep theirs. */
  lemma ClaimExactly(st: Store, now: int, limit: nat)
    requires forall i :: 0 <= i < |st.outbox| ==> st.outbox[i].id == i
    ensures var (st', claimed) := ClaimDue(st, now, limit);
      var due := Due(st.outbox, now, limit);
      && st' == st.(outbox := st'.outbox) && |st'.outbox| == |st.outbox| && |claimed| == |due|
      && (forall i :: 0 <= i < |st.outbox| ==>
            st'.outbox[i] ==
              if st.outbox[i] in due then st.outbox[i].(status := Inflight, nextAttemptAt := None) else st.outbox[i])
      && (forall j :: 0 <= j < |due| ==> claimed[j] == due[j].(status := Inflight))
  {
    var due := Due(st.outbox, now, limit);
    forall i | 0 <= i < |st.outbox| ensures i in Ids(due) <==> st.outbox[i] in due {
      if i in Ids(due) {
        var m :| m in due && m.id == i;
        assert m in st.outbox;
      }
    }
  }

  /** A drain claims what is due, fifty messages at most. */
  lemma FiftyAtATime(st: Store, now: int)
    ensures var due := |Select(st.outbox, DueAt(now))|;
      |ClaimDue(st, now, CLAIM_LIMIT).1| == if due <= 50 then due else 50
  {
  }

  class OutboxService {
    const db: Database

    constructor (db: Database)
      ensures this.db == db
    {
      this.db := db;
    }

    method Append(id: RequestId, direction: Direction, idempotencyKey: IdempotencyKey, key: Key, amount: int)
      modifies db`outbox
      ensures db.Contents() == Enqueue(old(db.Contents()), id, direction, idempotencyKey, key, amount)
    {
      db.outbox := db.outbox + [Message(|db.outbox|, id, direction, idempotencyKey, key, amount, Pending, 0, None)];
    }

    method Claim(now: int, limit: nat := CLAIM_LIMIT) returns (claimed: seq<Message>)
      modifies db`outbox
      ensures (db.Contents(), claimed) == ClaimDue(old(db.Contents()), now, limit)
    {
      var due := Due(db.outbox, now, limit);
      if |due| == 0 { return []; }
      db.outbox := Update(db.outbox, ClaimIds(Ids(due)));
      claimed := Update(due, AsClaimed());
    }

    method Complete(id: nat)
      modifies db`outbox
      ensures db.Contents() == MarkDone(old(db.Contents()), id)
    {
      db.outbox := Update(db.outbox, SetDone(id));
    }

    method RetryOrBury(claimed: Message, now: int) returns (status: OutboxStatus)
      modifies db`outbox
      ensures db.Contents() == MarkRetryOrDead(old(db.Contents()), claimed, now)
      ensures status == if claimed.attempts >= 4 then Dead else Retrying
    {
      var attempts := claimed.attempts + 1;
      db.outbox := Update(db.outbox, SetRetry(claimed.id, attempts, now));
      status := if attempts >= MAX_ATTEMPTS then Dead else Retrying;
    }

    method StopRequest(id: RequestId)
      modifies db`outbox
      ensures db.Contents() == CancelPendingForRequest(old(db.Contents()), id)
    {
      db.outbox := Update(db.outbox, StopQueued(id));
    }

    method Bury(id: nat)
      modifies db`outbox
      ensures db.Contents() == MarkRejected(old(db.Contents()), id)
    {
      db.outbox := Update(db.outbox, SetDead(id));
    }
  }
}
