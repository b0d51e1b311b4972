/**
 One round of execute_payment against any backend that keeps one ledger entry per signature.

 The backend is adversarial: a Turn says, for each call of settle, whether it writes and what the
 caller sees of it.  Everything a run of rounds promises is proved for all schedules of turns; the
 two backends of the repository are the schedules FacilitatorTurn and GenericTurn.
 */
module Settlement {
  import opened Python

  // ------------------------------------------------------------------ records and ledger

  datatype Verdict = SETTLED | REFUSED | INDETERMINATE

  datatype Authorization = Authorization(signature: string, resource: string)

  datatype Record = Record(
    verdict: Verdict, authorization: Authorization, broadcastRef: Option<string>,
    transactionRef: Option<string>, startedAt: real, declaredSafe: Option<bool>, reason: Option<string>)

  type Records = map<string, Record>

  datatype Entry = Entry(signature: string, tx: string)

  function Started(authorization: Authorization, now: real): Record {
    Record(INDETERMINATE, authorization, None, None, now, None, None)
  }

  function MarkIndeterminate(rec: Record, broadcastRef: Option<string>): Record {
    rec.(verdict := INDETERMINATE, broadcastRef := broadcastRef)
  }

  function MarkSettled(rec: Record, transactionRef: string, declaredSafe: bool): Record {
    rec.(verdict := SETTLED, transactionRef := Some(transactionRef), declaredSafe := Some(declaredSafe))
  }

  function MarkRefused(rec: Record, reason: string): Record {
    rec.(verdict := REFUSED, reason := Some(reason))
  }

  /** The first entry for a signature. */
  function FindBySignature(ledger: seq<Entry>, signature: string): (r: Option<Entry>)
    ensures r.None? ==> forall e | e in ledger :: e.signature != signature
    ensures r.Some? ==> r.value in ledger && r.value.signature == signature
  {
    if ledger == [] then None
    else if ledger[0].signature == signature then Some(ledger[0])
    else FindBySignature(ledger[1..], signature)
  }

  /** The first entry whose transaction is the one a broadcast reference names. */
  function FindByRef(ledger: seq<Entry>, ref: string): (r: Option<Entry>)
    ensures r.None? ==> forall e | e in ledger :: e.tx != ref
    ensures r.Some? ==> r.value in ledger && r.value.tx == ref
  {
    if ledger == [] then None
    else if ledger[0].tx == ref then Some(ledger[0])
    else FindByRef(ledger[1..], ref)
  }

  // ------------------------------------------------------------------ the adversarial backend

  /**
   What the backend does with one settle call.  A write happens only when the signature has no
   entry yet; a failure may surface the transaction of that entry, if there is one.
   */
  datatype Turn =
    | Confirm(tx: string, declaredSafe: bool)
    | Lose(write: Option<string>, surfaced: bool)
    | Rechallenge(write: Option<string>)
    | Break(write: Option<string>)

  datatype Reply =
    | Settled(transactionRef: string, declaredSafe: bool)
    | Lost(broadcastRef: Option<string>)
    | Challenged
    | Broken

  datatype ReconcileTurn = Unreachable | Undecided | Answers

  function WriteOf(turn: Turn): Option<string> {
    if turn.Confirm? then Some(turn.tx) else turn.write
  }

  function Landed(ledger: seq<Entry>, signature: string, write: Option<string>): seq<Entry> {
    if write.None? || FindBySignature(ledger, signature).Some? then ledger
    else ledger + [Entry(signature, write.value)]
  }

  function ReplyOf(entry: Option<Entry>, turn: Turn): Reply
    requires turn.Confirm? ==> entry.Some?
  {
    match turn
    case Confirm(_, safe) => Settled(entry.value.tx, safe)
    case Lose(_, surfaced) => Lost(if surfaced && entry.Some? then Some(entry.value.tx) else None)
    case Rechallenge(_) => Challenged
    case Break(_) => Broken
  }

  function Settle(ledger: seq<Entry>, signature: string, turn: Turn): (seq<Entry>, Reply) {
    var after := Landed(ledger, signature, WriteOf(turn));
    (after, ReplyOf(FindBySignature(after, signature), turn))
  }

  datatype Recon = Unavailable | Unknown | Found(transactionRef: string)

  function Reconcile(ledger: seq<Entry>, ref: string, turn: ReconcileTurn): Recon {
    match turn
    case Unreachable => Unavailable
    case Undecided => Unknown
    case Answers =>
      var entry := FindByRef(ledger, ref);
      if entry.Some? then Found(entry.value.tx) else Unknown
  }

  // ------------------------------------------------------------------ one round

  /** What a round meets: the clock and the backend's turns. */
  datatype Turns = Turns(now: real, reconcile: ReconcileTurn, first: Turn, second: Turn)

  datatype Outcome = Returned(record: Record) | ChallengeRaised | ErrorRaised

  /** The state after a round, what the caller gets, and how often the backend was called. */
  datatype Round = Round(records: Records, ledger: seq<Entry>, outcome: Outcome, settles: nat, reconciles: nat)

  function SignatureOf(key: string): string {
    "sig-" + key
  }

  function Opened(records: Records, key: string, resource: string, now: real): Records {
    if key in records then records
    else records[key := Started(Authorization(SignatureOf(key), resource), now)]
  }

  /** Whether the round asks the backend about a broadcast reference it holds. */
  predicate Asks(rec: Record) {
    rec.broadcastRef.Some? && rec.broadcastRef.value != ""
  }

  function Return(records: Records, ledger: seq<Entry>, key: string, rec: Record, settles: nat, reconciles: nat)
      : Round {
    Round(records[key := rec], ledger, Returned(rec), settles, reconciles)
  }

  function Conclude(records: Records, ledger: seq<Entry>, key: string, reply: Reply, settles: nat, reconciles: nat)
      : Round
    requires key in records
  {
    match reply
    case Settled(tx, safe) => Return(records, ledger, key, MarkSettled(records[key], tx, safe), settles, reconciles)
    case Lost(ref) => Return(records, ledger, key, MarkIndeterminate(records[key], ref), settles, reconciles)
    case Challenged => Round(records, ledger, ChallengeRaised, settles, reconciles)
    case Broken => Round(records, ledger, ErrorRaised, settles, reconciles)
  }

  function Present(records: Records, ledger: seq<Entry>, key: string, first: Turn, second: Turn, reconciles: nat)
      : (r: Round)
    requires key in records
    ensures r.reconciles == reconciles
  {
    var signature := records[key].authorization.signature;
    var (ledger1, reply1) := Settle(ledger, signature, first);
    if reply1.Challenged? then
      var (ledger2, reply2) := Settle(ledger1, signature, second);
      Conclude(records, ledger2, key, reply2, 2, reconciles)
    else
      Conclude(records, ledger1, key, reply1, 1, reconciles)
  }

  /** The transaction a round learns by asking the backend about its broadcast reference. */
  function Reconciled(rec: Record, ledger: seq<Entry>, turn: ReconcileTurn): Recon {
    if Asks(rec) then Reconcile(ledger, rec.broadcastRef.value, turn) else Unknown
  }

  function Execute(records: Records, ledger: seq<Entry>, key: string, resource: string, turns: Turns): Round {
    var begun := Opened(records, key, resource, turns.now);
    var rec := begun[key];
    var reconciles := if Asks(rec) then 1 else 0;
    var recon := Reconciled(rec, ledger, turns.reconcile);
    if !rec.verdict.INDETERMINATE? then
      Round(begun, ledger, Returned(rec), 0, 0)
    else if recon.Found? then
      Return(begun, ledger, key, MarkSettled(rec, recon.transactionRef, false), 0, reconciles)
    else
      Present(begun, ledger, key, turns.first, turns.second, reconciles)
  }

  // ------------------------------------------------------------------ runs

  datatype System = System(records: Records, ledger: seq<Entry>)

  datatype Call = Call(key: string, resource: string, turns: Turns)

  const Empty := System(map[], [])

  function After(s: System, c: Call): System {
    var r := Execute(s.records, s.ledger, c.key, c.resource, c.turns);
    System(r.records, r.ledger)
  }

  function Run(s: System, calls: seq<Call>): System
    decreases |calls|
  {
    if calls == [] then s else Run(After(s, calls[0]), calls[1..])
  }

  predicate OneEntryEach(ledger: seq<Entry>) {
    forall i, j | 0 <= i < j < |ledger| :: ledger[i].signature != ledger[j].signature
  }

  /** What a record of a key may say, given the ledger. */
  predicate Honest(key: string, rec: Record, ledger: seq<Entry>) {
    && rec.authorization.signature == SignatureOf(key)
    && (rec.verdict.SETTLED? ==>
          rec.transactionRef.Some? && Entry(SignatureOf(key), rec.transactionRef.value) in ledger)
    && (rec.broadcastRef.Some? ==> Entry(SignatureOf(key), rec.broadcastRef.value) in ledger)
  }

  /** The entry was made for this key. */
  predicate Charges(e: Entry, key: string) {
    e.signature == SignatureOf(key)
  }

  predicate Owned(e: Entry, records: Records) {
    exists key | key in records :: Charges(e, key)
  }

  ghost predicate Consistent(s: System) {
    && OneEntryEach(s.ledger)
    && (forall key | key in s.records :: Honest(key, s.records[key], s.ledger))
    && (forall e | e in s.ledger :: Owned(e, s.records))
  }

  lemma SameSignature(ledger: seq<Entry>, a: Entry, b: Entry)
    requires OneEntryEach(ledger) && a in ledger && b in ledger && a.signature == b.signature
    ensures a == b
  {
    var i :| 0 <= i < |ledger| && ledger[i] == a;
    var j :| 0 <= j < |ledger| && ledger[j] == b;
    assert i == j;
  }

  lemma SignaturesDiffer(a: string, b: string)
    requires SignatureOf(a) == SignatureOf(b)
    ensures a == b
  {
    assert SignatureOf(a)[4..] == a;
    assert SignatureOf(b)[4..] == b;
  }

  /** A settle call adds at most the one entry its signature did not have. */
  lemma SettleKeeps(ledger: seq<Entry>, signature: string, turn: Turn)
    requires OneEntryEach(ledger)
    ensures var (after, reply) := Settle(ledger, signature, turn);
            && OneEntryEach(after)
            && (after == ledger || (exists tx :: after == ledger + [Entry(signature, tx)]))
            && (reply.Settled? ==> Entry(signature, reply.transactionRef) in after)
            && (reply.Lost? && reply.broadcastRef.Some? ==> Entry(signature, reply.broadcastRef.value) in after)
  {
    var write := WriteOf(turn);
    var after := Landed(ledger, signature, write);
    if after != ledger {
      assert after == ledger + [Entry(signature, write.value)];
      assert after[|ledger|] == Entry(signature, write.value);
      forall i, j | 0 <= i < j < |after|
        ensures after[i].signature != after[j].signature
      {
        if j == |ledger| {
          assert after[i] in ledger;
        }
      }
    }
  }

  /** A reply backed by the ledger leaves the records honest and the entries owned. */
  lemma ConcludeKeeps(s: System, key: string, ledger: seq<Entry>, reply: Reply, settles: nat, reconciles: nat)
    requires Consistent(s) && key in s.records
    requires OneEntryEach(ledger)
    requires ledger == s.ledger || exists tx :: ledger == s.ledger + [Entry(SignatureOf(key), tx)]
    requires reply.Settled? ==> Entry(SignatureOf(key), reply.transactionRef) in ledger
    requires reply.Lost? && reply.broadcastRef.Some? ==> Entry(SignatureOf(key), reply.broadcastRef.value) in ledger
    ensures var r := Conclude(s.records, ledger, key, reply, settles, reconciles);
            Consistent(System(r.records, r.ledger))
  {
    var r := Conclude(s.records, ledger, key, reply, settles, reconciles);
    forall e | e in r.ledger
      ensures Owned(e, r.records)
    {
      if e in s.ledger {
        assert Owned(e, s.records);
        var k :| k in s.records && Charges(e, k);
        assert k in r.records;
      } else {
        assert key in r.records;
      }
    }
    forall e | e in s.ledger
      ensures e in ledger
    {}
    forall k | k in r.records
      ensures Honest(k, r.records[k], r.ledger)
    {
      assert Honest(k, s.records[k], s.ledger);
    }
  }

  lemma HonestNow(s: System, key: string)
    requires Consistent(s) && key in s.records
    ensures OneEntryEach(s.ledger) && Honest(key, s.records[key], s.ledger)
  {}

  /** What one or two settle calls for one signature do to the ledger. */
  ghost predicate Grown(before: seq<Entry>, after: seq<Entry>, signature: string) {
    after == before || exists tx :: after == before + [Entry(signature, tx)]
  }

  lemma GrownTwice(a: seq<Entry>, b: seq<Entry>, c: seq<Entry>, signature: string)
    requires Grown(a, b, signature) && Grown(b, c, signature)
    ensures OneEntryEach(c) ==> Grown(a, c, signature)
  {
    if a != b && b != c {
      assert c[|a|].signature == c[|a| + 1].signature;
    }
  }

  lemma PresentKeeps(s: System, key: string, first: Turn, second: Turn, reconciles: nat)
    requires Consistent(s) && key in s.records
    ensures var r := Present(s.records, s.ledger, key, first, second, reconciles);
            Consistent(System(r.records, r.ledger))
  {
    hide Consistent, Settle, Conclude, OneEntryEach, Grown;
    HonestNow(s, key);
    var signature := SignatureOf(key);
    SettleKeeps(s.ledger, signature, first);
    var (ledger1, reply1) := Settle(s.ledger, signature, first);
    if reply1.Challenged? {
      SettleKeeps(ledger1, signature, second);
      var (ledger2, reply2) := Settle(ledger1, signature, second);
      GrownTwice(s.ledger, ledger1, ledger2, signature);
      ConcludeKeeps(s, key, ledger2, reply2, 2, reconciles);
    } else {
      ConcludeKeeps(s, key, ledger1, reply1, 1, reconciles);
    }
  }

  lemma OpenedKeeps(s: System, key: string, resource: string, now: real)
    requires Consistent(s)
    ensures Consistent(System(Opened(s.records, key, resource, now), s.ledger))
  {
    forall e | e in s.ledger
      ensures Owned(e, Opened(s.records, key, resource, now))
    {
      assert Owned(e, s.records);
    }
  }

  lemma ReconciledKeeps(s: System, key: string, turn: ReconcileTurn)
    requires Consistent(s) && key in s.records
    requires Reconciled(s.records[key], s.ledger, turn).Found?
    ensures var tx := Reconciled(s.records[key], s.ledger, turn).transactionRef;
            && s.records[key].broadcastRef == Some(tx)
            && Consistent(System(s.records[key := MarkSettled(s.records[key], tx, false)], s.ledger))
  {
    HonestNow(s, key);
    var tx := Reconciled(s.records[key], s.ledger, turn).transactionRef;
    ConcludeKeeps(s, key, s.ledger, Settled(tx, false), 0, 1);
  }

  /** Every round keeps the state consistent, whatever the backend does. */
  lemma AfterKeeps(s: System, c: Call)
    requires Consistent(s)
    ensures Consistent(After(s, c))
  {
    hide Consistent, Present, Reconciled;
    OpenedKeeps(s, c.key, c.resource, c.turns.now);
    var t := System(Opened(s.records, c.key, c.resource, c.turns.now), s.ledger);
    var rec := t.records[c.key];
    if rec.verdict.INDETERMINATE? {
      if Reconciled(rec, s.ledger, c.turns.reconcile).Found? {
        ReconciledKeeps(t, c.key, c.turns.reconcile);
      } else {
        PresentKeeps(t, c.key, c.turns.first, c.turns.second, if Asks(rec) then 1 else 0);
      }
    }
  }

  lemma {:induction false} RunKeeps(s: System, calls: seq<Call>)
    requires Consistent(s)
    ensures Consistent(Run(s, calls))
    decreases |calls|
  {
    if calls != [] {
      AfterKeeps(s, calls[0]);
      RunKeeps(After(s, calls[0]), calls[1..]);
    }
  }

  /** Each entry is made for exactly one key, one that was submitted, and no key has two entries. */
  ghost predicate OneChargePerKey(s: System) {
    && (forall e | e in s.ledger :: Owned(e, s.records))
    && (forall i, key, other | 0 <= i < |s.ledger| && Charges(s.ledger[i], key) && Charges(s.ledger[i], other) ::
          key == other)
    && (forall i, j, key | 0 <= i < |s.ledger| && 0 <= j < |s.ledger| && Charges(s.ledger[i], key)
                           && Charges(s.ledger[j], key) :: i == j)
  }

  lemma ConsistentCharges(s: System)
    requires Consistent(s)
    ensures OneChargePerKey(s)
  {
    forall i, key, other | 0 <= i < |s.ledger| && Charges(s.ledger[i], key) && Charges(s.ledger[i], other)
      ensures key == other
    {
      SignaturesDiffer(key, other);
    }
  }

  /** A key that is in the records was submitted. */
  lemma {:induction false} RecordsSubmitted(s: System, calls: seq<Call>, key: string)
    requires key in Run(s, calls).records
    ensures key in s.records || exists c :: c in calls && c.key == key
    decreases |calls|
  {
    if calls != [] {
      RecordsSubmitted(After(s, calls[0]), calls[1..], key);
      if key in After(s, calls[0]).records {
        AfterAddsKey(s, calls[0], key);
        assert calls[0] in calls;
      } else {
        var c :| c in calls[1..] && c.key == key;
        assert c in calls;
      }
    }
  }

  lemma AfterAddsKey(s: System, c: Call, key: string)
    ensures key in After(s, c).records <==> key in s.records || key == c.key
  {
    hide Settle, Reconciled;
  }

  /**
   However many rounds, for whatever keys, against whatever faults: every entry of the ledger was
   made for exactly one key, a key that was submitted; no key has two entries; and a settled record
   carries the transaction of its key's entry.
   */
  lemma ChargedAtMostOnce(calls: seq<Call>)
    ensures var end := Run(Empty, calls);
            && OneChargePerKey(end)
            && OneEntryEach(end.ledger)
            && (forall key | key in end.records :: exists c :: c in calls && c.key == key)
            && (forall key | key in end.records && end.records[key].verdict.SETTLED? ::
                  && end.records[key].transactionRef.Some?
                  && FindBySignature(end.ledger, SignatureOf(key))
                     == Some(Entry(SignatureOf(key), end.records[key].transactionRef.value)))
  {
    hide Run, OneChargePerKey;
    assert Consistent(Empty);
    RunKeeps(Empty, calls);
    var end := Run(Empty, calls);
    ConsistentCharges(end);
    forall key | key in end.records ensures exists c :: c in calls && c.key == key {
      RecordsSubmitted(Empty, calls, key);
    }
    forall key | key in end.records && end.records[key].verdict.SETTLED?
      ensures end.records[key].transactionRef.Some?
      ensures FindBySignature(end.ledger, SignatureOf(key))
              == Some(Entry(SignatureOf(key), end.records[key].transactionRef.value))
    {
      HonestNow(end, key);
      var entry := Entry(SignatureOf(key), end.records[key].transactionRef.value);
      SameSignature(end.ledger, FindBySignature(end.ledger, SignatureOf(key)).value, entry);
    }
  }

  /**
   The authorization of a key is locked: from the first submission on its record exists, with the
   authorization signed then and the time it was signed.
   */
  lemma {:induction false} AuthorizationLocked(s: System, calls: seq<Call>, key: string)
    requires key in s.records
    ensures key in Run(s, calls).records
    ensures Run(s, calls).records[key].authorization == s.records[key].authorization
    ensures Run(s, calls).records[key].startedAt == s.records[key].startedAt
    decreases |calls|
  {
    if calls != [] {
      RecordLocked(s, calls[0], key);
      AuthorizationLocked(After(s, calls[0]), calls[1..], key);
    }
  }

  lemma RecordLocked(s: System, c: Call, key: string)
    requires key in s.records
    ensures key in After(s, c).records
    ensures After(s, c).records[key].authorization == s.records[key].authorization
    ensures After(s, c).records[key].startedAt == s.records[key].startedAt
  {
    hide Settle, Reconciled;
  }

  // ------------------------------------------------------------------ terminal records

  predicate Terminal(s: System, key: string) {
    key in s.records && !s.records[key].verdict.INDETERMINATE?
  }

  /** The calls for every other key. */
  function Without(calls: seq<Call>, key: string): seq<Call> {
    if calls == [] then []
    else if calls[0].key == key then Without(calls[1..], key)
    else [calls[0]] + Without(calls[1..], key)
  }

  lemma AfterOtherKey(s: System, c: Call, key: string)
    requires key in s.records && c.key != key
    ensures key in After(s, c).records && After(s, c).records[key] == s.records[key]
  {
    hide Settle, Reconciled;
  }

  /**
   A settled or refused record never changes again, and every later submission of its key is as if
   it had not been made: the ledger and all other records come out the same without it.
   */
  lemma {:induction false} TerminalForever(s: System, calls: seq<Call>, key: string)
    requires Terminal(s, key)
    ensures key in Run(s, calls).records && Run(s, calls).records[key] == s.records[key]
    ensures Run(s, calls) == Run(s, Without(calls, key))
    decreases |calls|
  {
    if calls != [] {
      var c := calls[0];
      if c.key == key {
        assert After(s, c) == s;
        TerminalForever(s, calls[1..], key);
      } else {
        AfterOtherKey(s, c, key);
        TerminalForever(After(s, c), calls[1..], key);
        var rest := Without(calls[1..], key);
        assert ([c] + rest)[0] == c && ([c] + rest)[1..] == rest;
      }
    }
  }

  // ------------------------------------------------------------------ progress

  /** What a caller can see of the turns that lets the round settle. */
  predicate Cooperates(turns: Turns) {
    turns.first.Confirm? || (turns.first.Rechallenge? && turns.second.Confirm?)
  }

  /**
   A round ends with a settled record exactly when the record already was, the reconciliation
   finds the broadcast, or the backend stops failing: once settle confirms, one round is enough.
   */
  lemma SettlesExactly(s: System, c: Call)
    ensures var begun := Opened(s.records, c.key, c.resource, c.turns.now);
            var rec := begun[c.key];
            (c.key in After(s, c).records && After(s, c).records[c.key].verdict.SETTLED?) <==>
              || rec.verdict.SETTLED?
              || (rec.verdict.INDETERMINATE?
                  && (Reconciled(rec, s.ledger, c.turns.reconcile).Found? || Cooperates(c.turns)))
  {
    hide Landed, FindBySignature, FindByRef, Reconciled;
  }

  // ------------------------------------------------------------------ one round, exactly

  /** The record a round works on: the one on file, or a fresh one signed now. */
  function OnFile(records: Records, c: Call): Record {
    if c.key in records then records[c.key]
    else Record(INDETERMINATE, Authorization("sig-" + c.key, c.resource), None, None, c.turns.now, None, None)
  }

  /** The backend finds the transaction the record's reference names. */
  predicate Findable(rec: Record, ledger: seq<Entry>, turn: ReconcileTurn) {
    && rec.broadcastRef.Some? && rec.broadcastRef.value != "" && turn.Answers?
    && exists e :: e in ledger && e.tx == rec.broadcastRef.value
  }

  /** What a turn writes, if the signature has no entry yet. */
  function Writes(turn: Turn): Option<string> {
    match turn
    case Confirm(tx, _) => Some(tx)
    case Lose(write, _) => write
    case Rechallenge(write) => write
    case Break(write) => write
  }

  /** The ledger after the turns of a round: at most the first write, and only for a new signature. */
  predicate LedgerAfter(before: seq<Entry>, after: seq<Entry>, signature: string, turns: Turns) {
    var first, second := Writes(turns.first), Writes(turns.second);
    var write := if first.Some? || !turns.first.Rechallenge? then first else second;
    if write.None? || exists e :: e in before && e.signature == signature then after == before
    else after == before + [Entry(signature, write.value)]
  }

  /** The record is the one before with these fields changed. */
  predicate Settles(before: Record, after: Record, tx: string, safe: bool) {
    after == before.(verdict := SETTLED, transactionRef := Some(tx), declaredSafe := Some(safe))
  }

  predicate Pends(before: Record, after: Record, ref: Option<string>) {
    after == before.(verdict := INDETERMINATE, broadcastRef := ref)
  }

  /** The transaction of the entry for a signature. */
  predicate HasEntry(ledger: seq<Entry>, signature: string, tx: string) {
    Entry(signature, tx) in ledger
  }

  /** The records with the one of the key set. */
  predicate OnlyKey(before: Records, after: Records, key: string, rec: Record) {
    after == before[key := rec]
  }

  /** A settled or refused key is answered from its record, without a call. */
  lemma TerminalRound(s: System, c: Call)
    requires !OnFile(s.records, c).verdict.INDETERMINATE?
    ensures var r := Execute(s.records, s.ledger, c.key, c.resource, c.turns);
            && c.key in s.records && r == Round(s.records, s.ledger, Returned(s.records[c.key]), 0, 0)
  {}

  /** A pending key whose broadcast is found is settled with that transaction, without a settle call. */
  lemma FoundRound(s: System, c: Call)
    requires OnFile(s.records, c).verdict.INDETERMINATE? && Findable(OnFile(s.records, c), s.ledger, c.turns.reconcile)
    ensures var r := Execute(s.records, s.ledger, c.key, c.resource, c.turns);
            var rec := OnFile(s.records, c);
            && r.ledger == s.ledger && r.settles == 0 && r.reconciles == 1
            && r.outcome.Returned? && OnlyKey(s.records, r.records, c.key, r.outcome.record)
            && Settles(rec, r.outcome.record, rec.broadcastRef.value, false)
  {
    OnFileOpened(s.records, c);
    hide FindByRef, Opened;
    FindableFound(OnFile(s.records, c), s.ledger, c.turns.reconcile);
  }

  lemma OnFileOpened(records: Records, c: Call)
    ensures var begun := Opened(records, c.key, c.resource, c.turns.now);
            && c.key in begun && begun[c.key] == OnFile(records, c) && begun == records[c.key := OnFile(records, c)]
  {}

  lemma FindableFound(rec: Record, ledger: seq<Entry>, turn: ReconcileTurn)
    ensures Reconciled(rec, ledger, turn).Found? <==> Findable(rec, ledger, turn)
    ensures Findable(rec, ledger, turn) ==> Reconciled(rec, ledger, turn).transactionRef == rec.broadcastRef.value
  {
    hide FindByRef;
  }

  lemma SettleLedger(ledger: seq<Entry>, signature: string, turn: Turn)
    ensures var (after, reply) := Settle(ledger, signature, turn);
            && after == (if Writes(turn).None? || exists e :: e in ledger && e.signature == signature then ledger
                         else ledger + [Entry(signature, Writes(turn).value)])
            && (reply.Challenged? <==> turn.Rechallenge?)
  {
    hide FindBySignature;
  }

  /** The reply of one settle call, by the turn and the ledger after it. */
  lemma ReplyCases(ledger: seq<Entry>, signature: string, turn: Turn)
    ensures var (after, reply) := Settle(ledger, signature, turn);
            match turn
            case Confirm(_, safe) => reply.Settled? && HasEntry(after, signature, reply.transactionRef) && reply.declaredSafe == safe
            case Lose(_, surfaced) =>
              && reply.Lost?
              && (reply.broadcastRef.Some? <==> surfaced && exists tx :: HasEntry(after, signature, tx))
              && (reply.broadcastRef.Some? ==> HasEntry(after, signature, reply.broadcastRef.value))
            case Rechallenge(_) => reply == Challenged
            case Break(_) => reply == Broken
  {
    var (after, reply) := Settle(ledger, signature, turn);
    var entry := FindBySignature(after, signature);
    assert entry.Some? ==> entry.value == Entry(signature, entry.value.tx) && HasEntry(after, signature, entry.value.tx);
    forall tx | HasEntry(after, signature, tx) ensures entry.Some? {
      EntryFound(after, signature, tx);
    }
  }

  lemma EntryFound(ledger: seq<Entry>, signature: string, tx: string)
    requires HasEntry(ledger, signature, tx)
    ensures FindBySignature(ledger, signature).Some?
  {
    assert Entry(signature, tx).signature == signature;
  }

  /** The settle half ends with the reply to its last turn. */
  lemma PresentCases(records: Records, ledger: seq<Entry>, key: string, turns: Turns, reconciles: nat)
      returns (before: seq<Entry>)
    requires key in records
    ensures var signature := records[key].authorization.signature;
            var (after, reply) := Settle(before, signature, LastTurn(turns));
            && LedgerAfter(ledger, after, signature, turns)
            && Present(records, ledger, key, turns.first, turns.second, reconciles)
               == Conclude(records, after, key, reply, if turns.first.Rechallenge? then 2 else 1, reconciles)
  {
    hide Settle, Conclude;
    var signature := records[key].authorization.signature;
    SettleLedger(ledger, signature, turns.first);
    var (ledger1, reply1) := Settle(ledger, signature, turns.first);
    SettleLedger(ledger1, signature, turns.second);
    if ledger1 != ledger {
      assert ledger1[|ledger|] in ledger1;
    }
    before := if turns.first.Rechallenge? then ledger1 else ledger;
  }

  /** What a round that presented its authorization leaves and says, by its last turn. */
  ghost predicate Presented(before: Records, r: Round, key: string, rec: Record, last: Turn) {
    var signature := rec.authorization.signature;
    match last
    case Confirm(_, safe) =>
      && r.outcome.Returned? && OnlyKey(before, r.records, key, r.outcome.record)
      && exists tx :: HasEntry(r.ledger, signature, tx) && Settles(rec, r.outcome.record, tx, safe)
    case Lose(_, surfaced) =>
      && r.outcome.Returned? && OnlyKey(before, r.records, key, r.outcome.record)
      && Pends(rec, r.outcome.record, r.outcome.record.broadcastRef)
      && (r.outcome.record.broadcastRef.Some? <==> surfaced && exists tx :: HasEntry(r.ledger, signature, tx))
      && (r.outcome.record.broadcastRef.Some? ==> HasEntry(r.ledger, signature, r.outcome.record.broadcastRef.value))
    case Rechallenge(_) => r.outcome == ChallengeRaised && OnlyKey(before, r.records, key, rec)
    case Break(_) => r.outcome == ErrorRaised && OnlyKey(before, r.records, key, rec)
  }

  lemma ConcludePresents(before: Records, key: string, rec: Record, ledger: seq<Entry>, last: Turn, settles: nat, reconciles: nat)
    ensures var (after, reply) := Settle(ledger, rec.authorization.signature, last);
            var r := Conclude(before[key := rec], after, key, reply, settles, reconciles);
            r.ledger == after && r.settles == settles && r.reconciles == reconciles && Presented(before, r, key, rec, last)
  {
    hide Settle, HasEntry;
    ReplyCases(ledger, rec.authorization.signature, last);
    var (after, reply) := Settle(ledger, rec.authorization.signature, last);
    if last.Confirm? {
      var r := Conclude(before[key := rec], after, key, reply, settles, reconciles);
      assert HasEntry(r.ledger, rec.authorization.signature, reply.transactionRef)
             && Settles(rec, r.outcome.record, reply.transactionRef, last.declaredSafe);
    }
  }

  /** Every other round presents the authorization on file, and once more after a challenge. */
  lemma PresentedRound(s: System, c: Call)
    requires OnFile(s.records, c).verdict.INDETERMINATE? && !Findable(OnFile(s.records, c), s.ledger, c.turns.reconcile)
    ensures var r := Execute(s.records, s.ledger, c.key, c.resource, c.turns);
            var rec := OnFile(s.records, c);
            && LedgerAfter(s.ledger, r.ledger, rec.authorization.signature, c.turns)
            && Presented(s.records, r, c.key, rec, LastTurn(c.turns))
            && r.settles == (if c.turns.first.Rechallenge? then 2 else 1)
            && r.reconciles == (if rec.broadcastRef.Some? && rec.broadcastRef.value != "" then 1 else 0)
  {
    var rec := OnFile(s.records, c);
    OnFileOpened(s.records, c);
    FindableFound(rec, s.ledger, c.turns.reconcile);
    var begun := Opened(s.records, c.key, c.resource, c.turns.now);
    var reconciles := if Asks(rec) then 1 else 0;
    var before := PresentCases(begun, s.ledger, c.key, c.turns, reconciles);
    hide Settle, Conclude, Present, Opened, OnFile, Findable, Reconciled, LedgerAfter, Presented;
    ConcludePresents(s.records, c.key, rec, before, LastTurn(c.turns), if c.turns.first.Rechallenge? then 2 else 1, reconciles);
  }

  // ------------------------------------------------------------------ the broadcast reference

  /** The settle reply that decides a round that presents its authorization. */
  function LastTurn(turns: Turns): Turn {
    if turns.first.Rechallenge? then turns.second else turns.first
  }

  /** A signature that has its entry gets no other, and is answered with that one. */
  lemma KnownSignature(ledger: seq<Entry>, entry: Entry, turn: Turn)
    requires OneEntryEach(ledger) && entry in ledger
    ensures Settle(ledger, entry.signature, turn) == (ledger, ReplyOf(Some(entry), turn))
  {
    SameSignature(ledger, FindBySignature(ledger, entry.signature).value, entry);
  }

  /** A round whose signature has its entry ends with the reply of its last turn. */
  lemma KnownPresent(records: Records, ledger: seq<Entry>, key: string, turns: Turns, reconciles: nat, entry: Entry)
    requires OneEntryEach(ledger) && entry in ledger
    requires key in records && records[key].authorization.signature == entry.signature
    ensures var settles := if turns.first.Rechallenge? then 2 else 1;
            Present(records, ledger, key, turns.first, turns.second, reconciles)
            == Conclude(records, ledger, key, ReplyOf(Some(entry), LastTurn(turns)), settles, reconciles)
  {
    hide Settle, Conclude, OneEntryEach;
    KnownSignature(ledger, entry, turns.first);
    KnownSignature(ledger, entry, turns.second);
  }

  /**
   An unsettled round keeps the broadcast reference it holds exactly when the failure it ends with
   surfaces the transaction again, or leaves the function as an exception.  A failure that carries
   no reference erases it: mark_indeterminate overwrites the reference with what the exception has.
   */
  lemma BroadcastRefKept(s: System, c: Call, ref: string)
    requires Consistent(s) && c.key in s.records
    requires s.records[c.key].verdict.INDETERMINATE? && s.records[c.key].broadcastRef == Some(ref)
    ensures var after := After(s, c).records;
            && c.key in after
            && (after[c.key].verdict.SETTLED? ||
                  (after[c.key].broadcastRef == Some(ref) <==>
                     (LastTurn(c.turns).Lose? ==> LastTurn(c.turns).surfaced)))
  {
    hide Present, Reconcile, OneEntryEach, Consistent;
    HonestNow(s, c.key);
    var reconciles := if Asks(s.records[c.key]) then 1 else 0;
    KnownPresent(s.records, s.ledger, c.key, c.turns, reconciles, Entry(SignatureOf(c.key), ref));
  }

  /** The hash the documentation promises to preserve can be lost. */
  lemma BroadcastRefCanBeLost()
    ensures var write := Call("k", "r", Turns(0.0, Answers, Lose(Some("tx"), true), Break(None)));
            var fail := Call("k", "r", Turns(1.0, Unreachable, Lose(None, false), Break(None)));
            var one, two := Run(Empty, [write]).records, Run(Empty, [write, fail]).records;
            && "k" in one && one["k"].broadcastRef == Some("tx")
            && "k" in two && two["k"].verdict.INDETERMINATE? && two["k"].broadcastRef == None
  {
    var write := Call("k", "r", Turns(0.0, Answers, Lose(Some("tx"), true), Break(None)));
    var fail := Call("k", "r", Turns(1.0, Unreachable, Lose(None, false), Break(None)));
    var one := After(Empty, write);
    assert [write, fail][1..] == [fail];
    assert Run(Empty, [write]) == one;
    assert Run(Empty, [write, fail]) == Run(one, [fail]) == After(one, fail);
  }
}
