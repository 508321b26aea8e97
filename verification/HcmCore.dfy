/**
 * The HCM engine: an idempotent, versioned authority with injected faults.
 *
 * `Hcm` is its abstract state. The log of a key lists every balance it ever had, version 1 first,
 * so a genuine snapshot is a pair (BalanceAt(h, k, v), v). `commands` remembers which command used
 * up each idempotency key. Both are history: the class keeps them as ghost fields.
 */
module HcmCore {
  import opened Domain

  datatype Command = Command(key: Key, amount: int, direction: Direction, idempotencyKey: IdempotencyKey)

  datatype Ack = Ack(hcmRef: nat, balance: int, version: nat, applied: bool)

  datatype RefusalCode = InsufficientFunds | InvalidDimensions

  datatype Reply = Acked(ack: Ack, replayed: bool) | Refused(code: RefusalCode) | Unavailable

  datatype Faults = Faults(
    failuresToInject: int,
    invalidDimensions: set<Key>,
    autoCreateUnknown: bool,
    silentOverdraw: bool,
    ghostSuccess: bool)

  const DEFAULT_FAULTS := Faults(0, {}, true, false, false)

  datatype Cause = Outside | Applied(idempotencyKey: IdempotencyKey)

  datatype Entry = Entry(cause: Cause, balance: int)

  datatype Hcm = Hcm(
    log: map<Key, seq<Entry>>,
    applied: map<IdempotencyKey, Ack>,
    commands: map<IdempotencyKey, Command>,
    faults: Faults,
    refSeq: nat)

  const EMPTY_HCM := Hcm(map[], map[], map[], DEFAULT_FAULTS, 0)

  datatype BalanceRow = BalanceRow(balance: int, version: nat)

  function Log(h: Hcm, k: Key): seq<Entry> {
    if k in h.log then h.log[k] else []
  }

  function Version(h: Hcm, k: Key): nat {
    |Log(h, k)|
  }

  /** The balance of `k` at version `v`; version 0 stands for a key HCM has never seen. */
  function BalanceAt(h: Hcm, k: Key, v: nat): int
    requires v <= Version(h, k)
  {
    if v == 0 then 0 else Log(h, k)[v - 1].balance
  }

  function CurrentBalance(h: Hcm, k: Key): int {
    BalanceAt(h, k, Version(h, k))
  }

  function Signed(c: Command): int {
    if c.direction.Debit? then -c.amount else c.amount
  }

  /** One write: the version rises by one. */
  function Record(h: Hcm, k: Key, cause: Cause, balance: int): Hcm {
    h.(log := h.log[k := Log(h, k) + [Entry(cause, balance)]])
  }

  function Seed(h: Hcm, k: Key, balance: int): Hcm {
    Record(h, k, Outside, balance)
  }

  function Adjust(h: Hcm, k: Key, delta: int): Hcm {
    if Version(h, k) == 0 then h else Record(h, k, Outside, CurrentBalance(h, k) + delta)
  }

  /** Reading an unknown key creates it when HCM is configured to. */
  function Touch(h: Hcm, k: Key): Hcm {
    if Version(h, k) == 0 && h.faults.autoCreateUnknown then Seed(h, k, 0) else h
  }

  function GetBalance(h: Hcm, k: Key): (Hcm, Option<BalanceRow>) {
    if k in h.faults.invalidDimensions then (h, None)
    else
      var h := Touch(h, k);
      (h, if Version(h, k) == 0 then None else Some(BalanceRow(CurrentBalance(h, k), Version(h, k))))
  }

  function Acknowledge(h: Hcm, c: Command, applied: bool): (Hcm, Reply) {
    var ack := Ack(h.refSeq + 1, CurrentBalance(h, c.key), Version(h, c.key), applied);
    (h.(applied := h.applied[c.idempotencyKey := ack],
        commands := h.commands[c.idempotencyKey := c],
        refSeq := h.refSeq + 1),
     Acked(ack, false))
  }

  /** A command really applied: the balance moves, the version rises, the key is used up. */
  function Applying(h: Hcm, c: Command): (Hcm, Reply) {
    Acknowledge(Record(h, c.key, Applied(c.idempotencyKey), CurrentBalance(h, c.key) + Signed(c)), c, true)
  }

  function ApplyDelta(h: Hcm, c: Command): (Hcm, Reply) {
    if c.idempotencyKey in h.applied then (h, Acked(h.applied[c.idempotencyKey], true))
    else if h.faults.failuresToInject > 0 then
      (h.(faults := h.faults.(failuresToInject := h.faults.failuresToInject - 1)), Unavailable)
    else if c.key in h.faults.invalidDimensions then (h, Refused(InvalidDimensions))
    else
      var h := Touch(h, c.key);
      if Version(h, c.key) == 0 then (h, Refused(InvalidDimensions))
      else if h.faults.ghostSuccess then Acknowledge(h, c, false)
      else if c.direction.Debit? && CurrentBalance(h, c.key) + Signed(c) < 0 && !h.faults.silentOverdraw then
        (h, Refused(InsufficientFunds))
      else Applying(h, c)
  }

  // ---- What each call answers and leaves -----------------------------------

  /** HCM answers a read of the key: it is valid, and known or to be created. */
  ghost predicate IsReadable(h: Hcm, k: Key) {
    k !in h.faults.invalidDimensions && (|Log(h, k)| > 0 || h.faults.autoCreateUnknown)
  }

  /** The key's log gained the entry; nothing else changed. */
  ghost predicate Gained(h: Hcm, h': Hcm, k: Key, e: Entry) {
    h' == h.(log := h'.log) && h'.log.Keys == h.log.Keys + {k} && Log(h', k) == Log(h, k) + [e]
    && forall k' :: k' != k ==> Log(h', k') == Log(h, k')
  }

  /** A read is refused exactly for an invalid key or an unknown one HCM may not create, which it creates at zero. */
  lemma ReadExactly(h: Hcm, k: Key)
    ensures var (h', row) := GetBalance(h, k);
      && (row.Some? <==> IsReadable(h, k))
      && (row.Some? && |Log(h, k)| > 0 ==>
            h' == h && row.value == BalanceRow(Log(h, k)[|Log(h, k)| - 1].balance, |Log(h, k)|))
      && (row.Some? && |Log(h, k)| == 0 ==> Gained(h, h', k, Entry(Outside, 0)) && row.value == BalanceRow(0, 1))
      && (row.None? ==> h' == h)
  {
  }

  /** Seeding overwrites the balance, adjusting moves a known one; each is one outside entry under the next version. */
  lemma WritesExactly(h: Hcm, k: Key, amount: int)
    ensures Gained(h, Seed(h, k, amount), k, Entry(Outside, amount))
    ensures CurrentBalance(Seed(h, k, amount), k) == amount && Version(Seed(h, k, amount), k) == Version(h, k) + 1
    ensures |Log(h, k)| == 0 ==> Adjust(h, k, amount) == h
    ensures |Log(h, k)| > 0 ==>
      Gained(h, Adjust(h, k, amount), k, Entry(Outside, Log(h, k)[|Log(h, k)| - 1].balance + amount))
    ensures |Log(h, k)| > 0 ==> CurrentBalance(Adjust(h, k, amount), k) == CurrentBalance(h, k) + amount
  {
  }

  /** A new command HCM takes up: nothing injected, its key valid, and known or to be created. */
  ghost predicate IsTakenUp(h: Hcm, c: Command) {
    c.idempotencyKey !in h.applied && h.faults.failuresToInject <= 0 && IsReadable(h, c.key)
  }

  /** Which answer a command gets, for every state of HCM. */
  lemma ReplyExactly(h: Hcm, c: Command)
    ensures var r := ApplyDelta(h, c).1;
      var overdraws := c.direction.Debit? && CurrentBalance(h, c.key) < c.amount && !h.faults.silentOverdraw;
      && (r.Acked? && r.replayed <==> c.idempotencyKey in h.applied)
      && (r.Unavailable? <==> c.idempotencyKey !in h.applied && h.faults.failuresToInject > 0)
      && (r == Refused(InvalidDimensions) <==>
            c.idempotencyKey !in h.applied && h.faults.failuresToInject <= 0 && !IsReadable(h, c.key))
      && (r == Refused(InsufficientFunds) <==> IsTakenUp(h, c) && !h.faults.ghostSuccess && overdraws)
      && (r.Acked? && !r.replayed && !r.ack.applied <==> IsTakenUp(h, c) && h.faults.ghostSuccess)
      && (r.Acked? && !r.replayed && r.ack.applied <==> IsTakenUp(h, c) && !h.faults.ghostSuccess && !overdraws)
  {
  }

  /** HCM as it is when it handles a command of the key: an unknown key has been created at zero. */
  ghost predicate Opened(h: Hcm, h': Hcm, k: Key) {
    if |Log(h, k)| > 0 then h' == h else Gained(h, h', k, Entry(Outside, 0))
  }

  /** What each answer leaves behind. */
  lemma EffectExactly(h: Hcm, c: Command) returns (ready: Hcm)
    requires IsTakenUp(h, c)
    ensures Opened(h, ready, c.key)
    ensures var (h', r) := ApplyDelta(h, c);
      var balance, version := CurrentBalance(ready, c.key), Version(ready, c.key);
      var balance' := if c.direction.Debit? then balance - c.amount else balance + c.amount;
      && version >= 1
      && (r.Refused? ==> h' == ready)
      && (r.Acked? ==>
            && r.ack.hcmRef == h.refSeq + 1 == h'.refSeq && h'.faults == h.faults
            && h'.applied == h.applied[c.idempotencyKey := r.ack]
            && h'.commands == h.commands[c.idempotencyKey := c])
      && (r.Acked? && !r.ack.applied ==> h'.log == ready.log && r.ack.balance == balance && r.ack.version == version)
      && (r.Acked? && r.ack.applied ==>
            && r.ack.balance == balance' && r.ack.version == version + 1
            && Gained(ready, ready.(log := h'.log), c.key, Entry(Applied(c.idempotencyKey), balance')))
  {
    ready := Touch(h, c.key);
  }

  /** A command HCM does not take up is replayed, refused without effect, or lost to an injected failure. */
  lemma NoEffectExactly(h: Hcm, c: Command)
    requires !IsTakenUp(h, c)
    ensures var (h', r) := ApplyDelta(h, c);
      if c.idempotencyKey in h.applied then h' == h && r == Acked(h.applied[c.idempotencyKey], true)
      else if h.faults.failuresToInject > 0 then
        h' == h.(faults := h.faults.(failuresToInject := h.faults.failuresToInject - 1)) && r == Unavailable
      else h' == h && r == Refused(InvalidDimensions)
  {
  }

  /** A fresh HCM injects no faults and creates what it is asked for. */
  lemma FreshIsHonest()
    ensures EMPTY_HCM.faults == Faults(0, {}, true, false, false) && EMPTY_HCM.refSeq == 0
    ensures forall k :: IsReadable(EMPTY_HCM, k) && Version(EMPTY_HCM, k) == 0
  {
  }

  // ---- What every sequence of calls keeps ----------------------------------

  /** A stored acknowledgement tells the truth about the log. */
  ghost predicate AckTruthful(h: Hcm, id: IdempotencyKey)
    requires id in h.applied && id in h.commands
  {
    var a, c := h.applied[id], h.commands[id];
    && c.idempotencyKey == id
    && 1 <= a.version <= Version(h, c.key)
    && a.balance == BalanceAt(h, c.key, a.version)
    && (a.applied ==>
          && Log(h, c.key)[a.version - 1].cause == Applied(id)
          && BalanceAt(h, c.key, a.version) == BalanceAt(h, c.key, a.version - 1) + Signed(c))
  }

  /** A log entry claimed by an idempotency key is the one that key's acknowledgement names. */
  ghost predicate EntryOwned(h: Hcm, k: Key, v: nat)
    requires v < Version(h, k)
  {
    var cause := Log(h, k)[v].cause;
    cause.Applied? ==>
      var id := cause.idempotencyKey;
      && id in h.applied && id in h.commands
      && h.applied[id].applied && h.applied[id].version == v + 1 && h.commands[id].key == k
  }

  ghost predicate HcmOk(h: Hcm) {
    && h.applied.Keys == h.commands.Keys
    && (forall id {:trigger AckTruthful(h, id)} :: id in h.applied ==> AckTruthful(h, id))
    && (forall k, v: nat {:trigger EntryOwned(h, k, v)} :: v < Version(h, k) ==> EntryOwned(h, k, v))
  }

  /** `h'` continues `h`: logs grow, acknowledgements never change. */
  ghost predicate Continues(h: Hcm, h': Hcm) {
    && (forall k :: Log(h, k) <= Log(h', k))
    && (forall id :: id in h.applied ==> id in h'.applied && h'.applied[id] == h.applied[id])
    && (forall id :: id in h.commands ==> id in h'.commands && h'.commands[id] == h.commands[id])
  }

  lemma RecordLog(h: Hcm, k: Key, cause: Cause, balance: int)
    ensures var h' := Record(h, k, cause, balance);
      && Log(h', k) == Log(h, k) + [Entry(cause, balance)]
      && (forall k' :: k' != k ==> Log(h', k') == Log(h, k'))
  {
  }

  lemma ContinuesBalanceAt(h: Hcm, h': Hcm, k: Key, v: nat)
    requires Continues(h, h') && v <= Version(h, k)
    ensures v <= Version(h', k) && BalanceAt(h', k, v) == BalanceAt(h, k, v)
  {
  }

  /** A write that no idempotency key claims. */
  lemma RecordOutside(h: Hcm, k: Key, balance: int)
    requires HcmOk(h)
    ensures HcmOk(Record(h, k, Outside, balance)) && Continues(h, Record(h, k, Outside, balance))
  {
    var h' := Record(h, k, Outside, balance);
    RecordLog(h, k, Outside, balance);
    forall id | id in h'.applied ensures AckTruthful(h', id) { assert AckTruthful(h, id); }
    forall k', v: nat | v < Version(h', k') ensures EntryOwned(h', k', v) {
      if v < Version(h, k') { assert EntryOwned(h, k', v); }
    }
  }

  lemma TouchKeeps(h: Hcm, k: Key)
    requires HcmOk(h)
    ensures HcmOk(Touch(h, k)) && Continues(h, Touch(h, k))
    ensures CurrentBalance(Touch(h, k), k) == CurrentBalance(h, k)
    ensures Touch(h, k).(log := h.log) == h
    ensures forall k' :: k' != k ==> Log(Touch(h, k), k') == Log(h, k')
    ensures Log(Touch(h, k), k) == Log(h, k) || (Log(h, k) == [] && Log(Touch(h, k), k) == [Entry(Outside, 0)])
  {
    RecordOutside(h, k, 0);
  }

  /** A ghost success uses up the key at the current version. */
  lemma GhostAcknowledgeKeeps(h: Hcm, c: Command)
    requires HcmOk(h) && c.idempotencyKey !in h.applied && Version(h, c.key) >= 1
    ensures HcmOk(Acknowledge(h, c, false).0) && Continues(h, Acknowledge(h, c, false).0)
  {
    var h' := Acknowledge(h, c, false).0;
    assert h'.log == h.log;
    forall id | id in h'.applied ensures AckTruthful(h', id) {
      if id != c.idempotencyKey { assert AckTruthful(h, id); }
    }
    forall k, v: nat | v < Version(h', k) ensures EntryOwned(h', k, v) { assert EntryOwned(h, k, v); }
  }

  lemma ApplyingLog(h: Hcm, c: Command)
    ensures var h' := Applying(h, c).0;
      && Log(h', c.key) == Log(h, c.key) + [Entry(Applied(c.idempotencyKey), CurrentBalance(h, c.key) + Signed(c))]
      && (forall k :: k != c.key ==> Log(h', k) == Log(h, k))
  {
  }

  lemma ApplyingEntry(h: Hcm, c: Command, k: Key, v: nat)
    requires HcmOk(h) && c.idempotencyKey !in h.applied && v < Version(Applying(h, c).0, k)
    ensures EntryOwned(Applying(h, c).0, k, v)
  {
    ApplyingLog(h, c);
    if v < Version(h, k) { assert EntryOwned(h, k, v); }
  }

  lemma ApplyingAck(h: Hcm, c: Command, id: IdempotencyKey)
    requires HcmOk(h) && c.idempotencyKey !in h.applied && (id in h.applied || id == c.idempotencyKey)
    ensures AckTruthful(Applying(h, c).0, id)
  {
    ApplyingLog(h, c);
    if id != c.idempotencyKey {
      assert AckTruthful(h, id);
      var k := h.commands[id].key;
      assert Log(h, k) <= Log(Applying(h, c).0, k);
    }
  }

  /** A real success uses up the key at the version it writes. */
  lemma ApplyingKeeps(h: Hcm, c: Command)
    requires HcmOk(h) && c.idempotencyKey !in h.applied
    ensures HcmOk(Applying(h, c).0) && Continues(h, Applying(h, c).0)
  {
    var h' := Applying(h, c).0;
    ApplyingLog(h, c);
    forall id | id in h'.applied ensures AckTruthful(h', id) { ApplyingAck(h, c, id); }
    forall k, v: nat | v < Version(h', k) ensures EntryOwned(h', k, v) { ApplyingEntry(h, c, k, v); }
  }

  lemma ContinuesTransitive(h0: Hcm, h1: Hcm, h2: Hcm)
    requires Continues(h0, h1) && Continues(h1, h2)
    ensures Continues(h0, h2)
  {
  }

  lemma FaultsKeep(h: Hcm, f: Faults)
    requires HcmOk(h)
    ensures HcmOk(h.(faults := f)) && Continues(h, h.(faults := f))
  {
    var h' := h.(faults := f);
    assert forall k :: Log(h', k) == Log(h, k);
    forall id | id in h'.applied ensures AckTruthful(h', id) { assert AckTruthful(h, id); }
    forall k, v: nat | v < Version(h', k) ensures EntryOwned(h', k, v) { assert EntryOwned(h, k, v); }
  }

  /**
   * Delivering a command: the truth of the log survives, a replay returns the original
   * acknowledgement and changes nothing, and only an acknowledged command uses up its key.
   */
  lemma ApplyDeltaKeeps(h: Hcm, c: Command)
    requires HcmOk(h)
    ensures var (h', r) := ApplyDelta(h, c);
      && HcmOk(h') && Continues(h, h')
      && (r.Acked? <==> c.idempotencyKey in h'.applied)
      && (r.Acked? ==> h'.applied[c.idempotencyKey] == r.ack)
      && (c.idempotencyKey in h.applied ==> h' == h && r == Acked(h.applied[c.idempotencyKey], true))
      && (forall id :: id in h'.applied && id !in h.applied ==> id == c.idempotencyKey)
      && (r.Acked? && !r.replayed ==> h'.commands[c.idempotencyKey] == c)
      && (r.Acked? && !r.replayed && r.ack.applied ==> r.ack.version > Version(h, c.key))
      && (forall k :: k != c.key ==> Log(h', k) == Log(h, k))
  {
    if c.idempotencyKey in h.applied {
    } else if h.faults.failuresToInject > 0 {
      FaultsKeep(h, h.faults.(failuresToInject := h.faults.failuresToInject - 1));
    } else if c.key !in h.faults.invalidDimensions {
      TouchKeeps(h, c.key);
      var h1 := Touch(h, c.key);
      if Version(h1, c.key) >= 1 {
        if h.faults.ghostSuccess {
          GhostAcknowledgeKeeps(h1, c);
          ContinuesTransitive(h, h1, Acknowledge(h1, c, false).0);
        } else {
          ApplyingKeeps(h1, c);
          ApplyingLog(h1, c);
          ContinuesTransitive(h, h1, Applying(h1, c).0);
        }
      }
    }
  }

  /** How one delivery moves the balance: by the signed amount if it is newly applied, else not at all. */
  lemma ApplyDeltaMoves(h: Hcm, c: Command)
    requires HcmOk(h)
    ensures var (h', r) := ApplyDelta(h, c);
      && CurrentBalance(h', c.key) == CurrentBalance(h, c.key) +
           (if r.Acked? && !r.replayed && r.ack.applied then Signed(c) else 0)
      && (r.Acked? && !r.replayed && r.ack.applied && c.direction.Debit? && !h.faults.silentOverdraw ==>
            CurrentBalance(h', c.key) >= 0)
      && (r == Refused(InsufficientFunds) <==>
            && c.idempotencyKey !in h.applied && h.faults.failuresToInject <= 0
            && c.key !in h.faults.invalidDimensions && (Version(h, c.key) > 0 || h.faults.autoCreateUnknown)
            && !h.faults.ghostSuccess && !h.faults.silentOverdraw
            && c.direction.Debit? && CurrentBalance(h, c.key) < c.amount)
  {
  }

  /** Acknowledgements carry distinct references. */
  ghost predicate RefsDistinct(h: Hcm) {
    && (forall id :: id in h.applied ==> 1 <= h.applied[id].hcmRef <= h.refSeq)
    && (forall a, b :: a in h.applied && b in h.applied && a != b ==> h.applied[a].hcmRef != h.applied[b].hcmRef)
  }

  /** A new acknowledgement takes the next reference. */
  lemma ApplyDeltaTakesNextRef(h: Hcm, c: Command)
    ensures var h' := ApplyDelta(h, c).0;
      if c.idempotencyKey in h'.applied && c.idempotencyKey !in h.applied then
        h'.applied[c.idempotencyKey].hcmRef == h'.refSeq == h.refSeq + 1
      else h'.refSeq == h.refSeq
  {
  }

  lemma NewRefIsDistinct(h: Hcm, h': Hcm, id: IdempotencyKey)
    requires RefsDistinct(h) && Continues(h, h')
    requires forall id' :: id' in h'.applied && id' !in h.applied ==> id' == id
    requires if id in h'.applied && id !in h.applied then h'.applied[id].hcmRef == h'.refSeq == h.refSeq + 1
             else h'.refSeq == h.refSeq
    ensures RefsDistinct(h')
  {
  }

  datatype Call =
    | SeedCall(key: Key, balance: int)
    | AdjustCall(key: Key, delta: int)
    | GetCall(key: Key)
    | ApplyCall(command: Command)
    | FaultsCall(faults: Faults)

  function Perform(h: Hcm, call: Call): Hcm {
    match call
    case SeedCall(k, b) => Seed(h, k, b)
    case AdjustCall(k, d) => Adjust(h, k, d)
    case GetCall(k) => GetBalance(h, k).0
    case ApplyCall(c) => ApplyDelta(h, c).0
    case FaultsCall(f) => h.(faults := f)
  }

  lemma PerformKeepsRefs(h: Hcm, call: Call)
    requires HcmOk(h) && RefsDistinct(h)
    ensures RefsDistinct(Perform(h, call))
  {
    if call.ApplyCall? {
      ApplyDeltaKeeps(h, call.command);
      ApplyDeltaTakesNextRef(h, call.command);
      NewRefIsDistinct(h, Perform(h, call), call.command.idempotencyKey);
    }
  }

  // ---- Runs of the authority alone -----------------------------------------

  function PerformAll(calls: seq<Call>): Hcm {
    if calls == [] then EMPTY_HCM else Perform(PerformAll(calls[..|calls| - 1]), calls[|calls| - 1])
  }

  lemma PerformKeeps(h: Hcm, call: Call)
    requires HcmOk(h)
    ensures HcmOk(Perform(h, call)) && Continues(h, Perform(h, call))
  {
    match call
    case SeedCall(k, b) => RecordOutside(h, k, b);
    case AdjustCall(k, d) => RecordOutside(h, k, CurrentBalance(h, k) + d);
    case GetCall(k) => TouchKeeps(h, k);
    case ApplyCall(c) => ApplyDeltaKeeps(h, c);
    case FaultsCall(f) => FaultsKeep(h, f);
  }

  lemma {:induction false} EveryRunIsOk(calls: seq<Call>)
    ensures HcmOk(PerformAll(calls))
  {
    if calls == [] {
    } else {
      EveryRunIsOk(calls[..|calls| - 1]);
      PerformKeeps(PerformAll(calls[..|calls| - 1]), calls[|calls| - 1]);
    }
  }

  /** The total movement of `k` above version `w` by entries whose cause satisfies `p`. */
  function Moves(h: Hcm, k: Key, w: nat, p: Cause -> bool): int
    requires w <= Version(h, k)
    decreases Version(h, k) - w
  {
    if w == Version(h, k) then 0
    else
      (if p(Log(h, k)[w].cause) then BalanceAt(h, k, w + 1) - BalanceAt(h, k, w) else 0) + Moves(h, k, w + 1, p)
  }

  lemma {:induction false} MovesPartition(h: Hcm, k: Key, w: nat, p: Cause -> bool, q: Cause -> bool)
    requires w <= Version(h, k)
    requires forall c :: p(c) != q(c)
    ensures CurrentBalance(h, k) - BalanceAt(h, k, w) == Moves(h, k, w, p) + Moves(h, k, w, q)
    decreases Version(h, k) - w
  {
    if w == Version(h, k) {
    } else {
      MovesPartition(h, k, w + 1, p, q);
    }
  }

  function IsOutside(): Cause -> bool { (c: Cause) => c.Outside? }

  function IsApplied(): Cause -> bool { (c: Cause) => c.Applied? }

  /** The idempotency keys that moved the balance of `k`, in order of application, from version `w` on. */
  function AppliedKeys(h: Hcm, k: Key, w: nat): seq<IdempotencyKey>
    requires w <= Version(h, k)
    decreases Version(h, k) - w
  {
    if w == Version(h, k) then []
    else if Log(h, k)[w].cause.Applied? then [Log(h, k)[w].cause.idempotencyKey] + AppliedKeys(h, k, w + 1)
    else AppliedKeys(h, k, w + 1)
  }

  function SignedOf(h: Hcm): IdempotencyKey -> int {
    (id: IdempotencyKey) => if id in h.commands then Signed(h.commands[id]) else 0
  }

  /** Front-to-back sum, in the direction `AppliedKeys` unfolds. */
  function Total(ids: seq<IdempotencyKey>, f: IdempotencyKey -> int): int {
    if ids == [] then 0 else f(ids[0]) + Total(ids[1..], f)
  }

  /** Applied and moving `k` above version `w`. */
  ghost predicate AppliedAbove(h: Hcm, id: IdempotencyKey, k: Key, w: nat) {
    && id in h.applied && h.applied[id].applied && h.applied[id].version > w
    && id in h.commands && h.commands[id].key == k
  }

  /** The keys listed are exactly those applied above `w`, each listed once. */
  lemma {:induction false} AppliedKeysAreDistinct(h: Hcm, k: Key, w: nat)
    requires HcmOk(h) && w <= Version(h, k)
    ensures forall id :: id in AppliedKeys(h, k, w) <==> AppliedAbove(h, id, k, w)
    ensures forall i, j :: 0 <= i < j < |AppliedKeys(h, k, w)| ==> AppliedKeys(h, k, w)[i] != AppliedKeys(h, k, w)[j]
    decreases Version(h, k) - w
  {
    var ids := AppliedKeys(h, k, w);
    if w == Version(h, k) {
      forall id ensures !AppliedAbove(h, id, k, w) {
        if id in h.applied { assert AckTruthful(h, id); }
      }
    } else {
      AppliedKeysAreDistinct(h, k, w + 1);
      assert EntryOwned(h, k, w);
      var rest := AppliedKeys(h, k, w + 1);
      forall id ensures id in ids <==> AppliedAbove(h, id, k, w) {
        if id in h.applied { assert AckTruthful(h, id); }
        assert id in rest <==> AppliedAbove(h, id, k, w + 1);
      }
      forall i, j | 0 <= i < j < |ids| ensures ids[i] != ids[j] {
        if |ids| > |rest| {
          assert ids[j] == rest[j - 1];
          assert ids[j] in rest;
          if i > 0 { assert ids[i] == rest[i - 1]; }
        }
      }
    }
  }

  lemma {:induction false} AppliedMovesAreSigned(h: Hcm, k: Key, w: nat)
    requires HcmOk(h) && w <= Version(h, k)
    ensures Moves(h, k, w, IsApplied()) == Total(AppliedKeys(h, k, w), SignedOf(h))
    decreases Version(h, k) - w
  {
    if w == Version(h, k) {
    } else {
      AppliedMovesAreSigned(h, k, w + 1);
      assert EntryOwned(h, k, w);
      var cause := Log(h, k)[w].cause;
      if cause.Applied? {
        assert AckTruthful(h, cause.idempotencyKey);
        assert AppliedKeys(h, k, w)[1..] == AppliedKeys(h, k, w + 1);
      }
    }
  }

  /**
   * Conservation, over any sequence of calls: a balance is the sum of the outside movements and of
   * the signed amounts of the applied commands, each idempotency key counted once.
   */
  lemma Conservation(calls: seq<Call>, k: Key)
    ensures var h := PerformAll(calls);
      var ids := AppliedKeys(h, k, 0);
      && h.applied.Keys == h.commands.Keys
      && CurrentBalance(h, k) == Moves(h, k, 0, IsOutside()) + Total(ids, SignedOf(h))
      && (forall i, j :: 0 <= i < j < |ids| ==> ids[i] != ids[j])
      && (forall id :: id in ids <==> id in h.applied && h.applied[id].applied && h.commands[id].key == k)
  {
    var h := PerformAll(calls);
    EveryRunIsOk(calls);
    MovesPartition(h, k, 0, IsOutside(), IsApplied());
    AppliedMovesAreSigned(h, k, 0);
    AppliedKeysAreDistinct(h, k, 0);
    forall id | id in h.applied ensures h.applied[id].version >= 1 { assert AckTruthful(h, id); }
  }

  // ---- The engine itself ---------------------------------------------------

  /** The stored rows are the ends of the logs. */
  ghost predicate RowsMatch(rows: map<Key, BalanceRow>, h: Hcm) {
    && (forall k :: k in rows <==> Version(h, k) >= 1)
    && (forall k :: k in rows ==> rows[k] == BalanceRow(CurrentBalance(h, k), Version(h, k)))
  }

  lemma RowsFollowWrite(rows: map<Key, BalanceRow>, h: Hcm, h': Hcm, k: Key, e: Entry)
    requires RowsMatch(rows, h)
    requires Log(h', k) == Log(h, k) + [e]
    requires forall k' :: k' != k ==> Log(h', k') == Log(h, k')
    ensures RowsMatch(rows[k := BalanceRow(e.balance, Version(h', k))], h')
  {
  }

  class Engine {
    var balances: map<Key, BalanceRow>
    var applied: map<IdempotencyKey, Ack>
    var faults: Faults
    var refSeq: nat
    ghost var log: map<Key, seq<Entry>>
    ghost var commands: map<IdempotencyKey, Command>

    ghost function View(): Hcm
      reads this
    {
      Hcm(log, applied, commands, faults, refSeq)
    }

    ghost predicate Valid()
      reads this
    {
      HcmOk(View()) && RowsMatch(balances, View())
    }

    constructor ()
      ensures Valid() && View() == EMPTY_HCM
    {
      balances, applied, faults, refSeq := map[], map[], DEFAULT_FAULTS, 0;
      log, commands := map[], map[];
    }

    method ConfigureFaults(f: Faults)
      requires Valid()
      modifies this
      ensures Valid() && View() == old(View()).(faults := f)
    {
      FaultsKeep(View(), f);
      faults := f;
      assert forall k :: Log(View(), k) == Log(old(View()), k);
    }

    method SeedBalance(k: Key, balance: int) returns (row: BalanceRow)
      requires Valid()
      modifies this
      ensures Valid() && View() == Seed(old(View()), k, balance)
      ensures row == BalanceRow(balance, Version(old(View()), k) + 1)
    {
      ghost var after := Seed(View(), k, balance);
      RecordOutside(View(), k, balance);
      RecordLog(View(), k, Outside, balance);
      RowsFollowWrite(balances, View(), after, k, Entry(Outside, balance));
      var prev := if k in balances then balances[k].version else 0;
      row := BalanceRow(balance, prev + 1);
      balances := balances[k := row];
      log := after.log;
    }

    method AdjustBalance(k: Key, delta: int) returns (row: Option<BalanceRow>)
      requires Valid()
      modifies this
      ensures Valid() && View() == Adjust(old(View()), k, delta)
      ensures row.Some? <==> Version(old(View()), k) >= 1
      ensures row.Some? ==>
        row.value == BalanceRow(CurrentBalance(old(View()), k) + delta, Version(old(View()), k) + 1)
    {
      if k !in balances { return None; }
      ghost var before := View();
      var moved := BalanceRow(balances[k].balance + delta, balances[k].version + 1);
      RecordOutside(before, k, moved.balance);
      RecordLog(before, k, Outside, moved.balance);
      ghost var after := Record(before, k, Outside, moved.balance);
      RowsFollowWrite(balances, before, after, k, Entry(Outside, moved.balance));
      balances := balances[k := moved];
      log := after.log;
      row := Some(moved);
    }

    method ReadBalance(k: Key) returns (row: Option<BalanceRow>)
      requires Valid()
      modifies this
      ensures Valid() && (View(), row) == GetBalance(old(View()), k)
    {
      if k in faults.invalidDimensions { return None; }
      if k !in balances {
        if !faults.autoCreateUnknown { return None; }
        var created := SeedBalance(k, 0);
        return Some(created);
      }
      row := Some(balances[k]);
    }

    method StampGhost(c: Command) returns (r: Reply)
      requires Valid() && c.idempotencyKey !in applied && c.key in balances
      modifies this
      ensures Valid() && (View(), r) == Acknowledge(old(View()), c, false)
    {
      GhostAcknowledgeKeeps(View(), c);
      refSeq := refSeq + 1;
      var ack := Ack(refSeq, balances[c.key].balance, balances[c.key].version, false);
      applied := applied[c.idempotencyKey := ack];
      commands := commands[c.idempotencyKey := c];
      assert forall k :: Log(View(), k) == Log(old(View()), k);
      r := Acked(ack, false);
    }

    method StampApplied(c: Command, signed: int) returns (r: Reply)
      requires Valid() && c.idempotencyKey !in applied && c.key in balances && signed == Signed(c)
      modifies this
      ensures Valid() && (View(), r) == Applying(old(View()), c)
    {
      ghost var before := View();
      ghost var after := Applying(before, c).0;
      ApplyingKeeps(before, c);
      ApplyingLog(before, c);
      ghost var entry := Entry(Applied(c.idempotencyKey), balances[c.key].balance + signed);
      RowsFollowWrite(balances, before, after, c.key, entry);
      var row := BalanceRow(balances[c.key].balance + signed, balances[c.key].version + 1);
      var ack := Ack(refSeq + 1, row.balance, row.version, true);
      balances, refSeq, applied := balances[c.key := row], refSeq + 1, applied[c.idempotencyKey := ack];
      log, commands := after.log, after.commands;
      r := Acked(ack, false);
      assert View() == after;
    }

    /** A delivered command answers, and changes the engine, as the abstract authority does. */
    method Apply(c: Command) returns (r: Reply)
      requires Valid()
      modifies this
      ensures Valid() && (View(), r) == ApplyDelta(old(View()), c)
    {
      if c.idempotencyKey in applied { return Acked(applied[c.idempotencyKey], true); }
      if faults.failuresToInject > 0 {
        FaultsKeep(View(), faults.(failuresToInject := faults.failuresToInject - 1));
        faults := faults.(failuresToInject := faults.failuresToInject - 1);
        assert forall k :: Log(View(), k) == Log(old(View()), k);
        return Unavailable;
      }
      if c.key in faults.invalidDimensions { return Refused(InvalidDimensions); }
      if c.key !in balances {
        if !faults.autoCreateUnknown { return Refused(InvalidDimensions); }
        var _ := SeedBalance(c.key, 0);
      }
      var signed := if c.direction.Debit? then -c.amount else c.amount;
      var wouldGoNegative := c.direction.Debit? && balances[c.key].balance + signed < 0;
      if faults.ghostSuccess {
        r := StampGhost(c);
        return;
      }
      if wouldGoNegative && !faults.silentOverdraw { return Refused(InsufficientFunds); }
      r := StampApplied(c, signed);
    }
  }
}
