/** The objects of the settlement client: the pending store, the two backends, and execute_payment. */
module SettlementObjects {
  import opened Python
  import opened Settlement
  import opened SettlementBackends

  // ------------------------------------------------------------------ objects

  class PendingSettlementStore {
    var records: Records

    constructor ()
      ensures records == map[]
    {
      records := map[];
    }

    method Get(key: string) returns (rec: Option<Record>)
      ensures rec == if key in records then Some(records[key]) else None
    {
      rec := if key in records then Some(records[key]) else None;
    }

    method Start(key: string, authorization: Authorization, now: real) returns (rec: Record)
      modifies this
      ensures rec == Record(INDETERMINATE, authorization, None, None, now, None, None)
      ensures records == old(records)[key := rec]
    {
      rec := Started(authorization, now);
      records := records[key := rec];
    }

    method MarkIndeterminate(key: string, broadcastRef: Option<string>) returns (r: Result<Record>)
      modifies this
      ensures r == if key in old(records) then Ok(Settlement.MarkIndeterminate(old(records)[key], broadcastRef))
                   else Raise(KeyError)
      ensures records == if r.Ok? then old(records)[key := r.value] else old(records)
    {
      if key !in records {
        return Raise(KeyError);
      }
      records := records[key := records[key].(verdict := INDETERMINATE, broadcastRef := broadcastRef)];
      return Ok(records[key]);
    }

    method MarkSettled(key: string, transactionRef: string, declaredSafe: bool) returns (r: Result<Record>)
      modifies this
      ensures r == if key in old(records)
                   then Ok(Settlement.MarkSettled(old(records)[key], transactionRef, declaredSafe))
                   else Raise(KeyError)
      ensures records == if r.Ok? then old(records)[key := r.value] else old(records)
    {
      if key !in records {
        return Raise(KeyError);
      }
      records := records[key :=
        records[key].(verdict := SETTLED, transactionRef := Some(transactionRef), declaredSafe := Some(declaredSafe))];
      return Ok(records[key]);
    }

    method MarkRefused(key: string, reason: string) returns (r: Result<Record>)
      modifies this
      ensures r == if key in old(records) then Ok(Settlement.MarkRefused(old(records)[key], reason))
                   else Raise(KeyError)
      ensures records == if r.Ok? then old(records)[key := r.value] else old(records)
    {
      if key !in records {
        return Raise(KeyError);
      }
      records := records[key := records[key].(verdict := REFUSED, reason := Some(reason))];
      return Ok(records[key]);
    }
  }

  lemma FirstAt(ledger: seq<Entry>, i: nat, signature: string)
    requires i < |ledger| && ledger[i].signature == signature
    requires forall j | 0 <= j < i :: ledger[j].signature != signature
    ensures FindBySignature(ledger, signature) == Some(ledger[i])
    decreases i
  {
    if i > 0 {
      FirstAt(ledger[1..], i - 1, signature);
    }
  }

  lemma FirstRefAt(ledger: seq<Entry>, i: nat, ref: string)
    requires i < |ledger| && ledger[i].tx == ref
    requires forall j | 0 <= j < i :: ledger[j].tx != ref
    ensures FindByRef(ledger, ref) == Some(ledger[i])
    decreases i
  {
    if i > 0 {
      FirstRefAt(ledger[1..], i - 1, ref);
    }
  }

  /** The ledger scan of both backends, by signature or key. */
  method FindEntry(ledger: seq<Entry>, signature: string) returns (r: Option<Entry>)
    ensures r == FindBySignature(ledger, signature)
  {
    for i := 0 to |ledger|
      invariant forall j | 0 <= j < i :: ledger[j].signature != signature
    {
      if ledger[i].signature == signature {
        FirstAt(ledger, i, signature);
        return Some(ledger[i]);
      }
    }
    return None;
  }

  /** The ledger scan of both backends, by transaction or record id. */
  method FindTransaction(ledger: seq<Entry>, ref: string) returns (r: Option<Entry>)
    ensures r == FindByRef(ledger, ref)
  {
    for i := 0 to |ledger|
      invariant forall j | 0 <= j < i :: ledger[j].tx != ref
    {
      if ledger[i].tx == ref {
        FirstRefAt(ledger, i, ref);
        return Some(ledger[i]);
      }
    }
    return None;
  }

  /** A write for a signature without an entry, as Settle has it. */
  lemma Appended(ledger: seq<Entry>, signature: string, turn: Turn)
    requires FindBySignature(ledger, signature).None?
    ensures var (after, reply) := Settle(ledger, signature, turn);
            match WriteOf(turn)
            case None => after == ledger && reply == ReplyOf(None, turn)
            case Some(tx) =>
              && after == ledger + [Entry(signature, tx)]
              && reply == ReplyOf(Some(Entry(signature, tx)), turn)
  {
    if WriteOf(turn).Some? {
      var after := ledger + [Entry(signature, WriteOf(turn).value)];
      assert forall j | 0 <= j < |ledger| :: after[j] == ledger[j] && ledger[j] in ledger;
      FirstAt(after, |ledger|, signature);
    }
  }

  class MockFacilitator {
    const mode: string
    var ledger: seq<Entry>
    var settleCalls: int
    var reconcileCalls: int

    constructor (mode: string)
      ensures this.mode == mode && ledger == [] && settleCalls == 0 && reconcileCalls == 0
    {
      this.mode := mode;
      ledger, settleCalls, reconcileCalls := [], 0, 0;
    }

    method Write(sig: string, tx: string)
      modifies this`ledger
      ensures ledger == old(ledger) + [Entry(sig, tx)]
    {
      ledger := ledger + [Entry(sig, tx)];
    }

    method Settle(authorization: Authorization) returns (reply: Reply)
      modifies this`ledger, this`settleCalls
      ensures settleCalls == old(settleCalls) + 1
      ensures var known := FindBySignature(old(ledger), authorization.signature).Some?;
              (ledger, reply) ==
              Settlement.Settle(old(ledger), authorization.signature, FacilitatorTurn(mode, settleCalls, known))
    {
      settleCalls := settleCalls + 1;
      var sig := authorization.signature;
      var existing := FindEntry(ledger, sig);
      if existing.Some? {
        return Settled(existing.value.tx, true);
      }
      Appended(ledger, sig, FacilitatorTurn(mode, settleCalls, false));
      if mode == "clean" {
        Write(sig, "0xCLEAN");
        return Settled("0xCLEAN", false);
      }
      if mode == "declared_safe" {
        Write(sig, "0xDSAFE");
        return Settled("0xDSAFE", true);
      }
      if mode == "accept_then_timeout" {
        if settleCalls == 1 {
          Write(sig, "0xATT");
          return Lost(Some("0xATT"));
        }
        Write(sig, "0xATT_DUP");
        return Settled("0xATT_DUP", true);
      }
      if mode == "5xx_after_settle" {
        if settleCalls == 1 {
          Write(sig, "0x5XX");
          return Lost(None);
        }
        Write(sig, "0x5XX_DUP");
        return Settled("0x5XX_DUP", true);
      }
      if mode == "slow_answer" {
        if settleCalls == 1 {
          Write(sig, "0xSLOW");
          return Lost(None);
        }
        Write(sig, "0xSLOW_DUP");
        return Settled("0xSLOW_DUP", true);
      }
      if mode == "reconcile_unavailable" {
        if settleCalls == 1 {
          Write(sig, "0xRECU");
          return Lost(Some("0xRECU"));
        }
        Write(sig, "0xRECU_DUP");
        return Settled("0xRECU_DUP", true);
      }
      if mode == "double_402" {
        if settleCalls == 1 {
          return Lost(None);
        }
        if settleCalls == 2 {
          return Challenged;
        }
        Write(sig, "0xD402");
        return Settled("0xD402", false);
      }
      return Broken;
    }

    method Reconcile(ref: string) returns (r: Recon)
      modifies this`reconcileCalls
      ensures reconcileCalls == old(reconcileCalls) + 1
      ensures r == Settlement.Reconcile(ledger, ref, ReconcileTurnAt(mode, reconcileCalls))
    {
      reconcileCalls := reconcileCalls + 1;
      if mode == "reconcile_unavailable" && reconcileCalls == 1 {
        return Unavailable;
      }
      var entry := FindTransaction(ledger, ref);
      if entry.Some? {
        return Found(entry.value.tx);
      }
      return Unknown;
    }
  }

  class GenericBackend {
    const mode: string
    var ledger: seq<Entry>
    var settleCalls: int
    var reconcileCalls: int

    constructor (mode: string)
      ensures this.mode == mode && ledger == [] && settleCalls == 0 && reconcileCalls == 0
    {
      this.mode := mode;
      ledger, settleCalls, reconcileCalls := [], 0, 0;
    }

    method Write(key: string, recordId: string)
      modifies this`ledger
      ensures ledger == old(ledger) + [Entry(key, recordId)]
    {
      ledger := ledger + [Entry(key, recordId)];
    }

    method Settle(authorization: Authorization) returns (reply: Reply)
      modifies this`ledger, this`settleCalls
      ensures settleCalls == old(settleCalls) + 1
      ensures var known := FindBySignature(old(ledger), authorization.signature).Some?;
              (ledger, reply) ==
              Settlement.Settle(old(ledger), authorization.signature, GenericTurn(mode, settleCalls, known))
    {
      settleCalls := settleCalls + 1;
      var key := authorization.signature;
      var existing := FindEntry(ledger, key);
      if existing.Some? {
        return Settled(existing.value.tx, true);
      }
      Appended(ledger, key, GenericTurn(mode, settleCalls, false));
      if mode == "clean" {
        Write(key, "rec-CLEAN");
        return Settled("rec-CLEAN", false);
      }
      if mode == "declared_idempotent" {
        Write(key, "rec-DSAFE");
        return Settled("rec-DSAFE", true);
      }
      if mode == "write_then_timeout" {
        if settleCalls == 1 {
          Write(key, "rec-WTT");
          return Lost(Some("rec-WTT"));
        }
        Write(key, "rec-WTT_DUP");
        return Settled("rec-WTT_DUP", true);
      }
      if mode == "error_after_write" {
        if settleCalls == 1 {
          Write(key, "rec-EAW");
          return Lost(None);
        }
        Write(key, "rec-EAW_DUP");
        return Settled("rec-EAW_DUP", true);
      }
      if mode == "client_timeout" {
        if settleCalls == 1 {
          Write(key, "rec-CTO");
          return Lost(None);
        }
        Write(key, "rec-CTO_DUP");
        return Settled("rec-CTO_DUP", true);
      }
      if mode == "reconcile_unavailable" {
        if settleCalls == 1 {
          Write(key, "rec-RECU");
          return Lost(Some("rec-RECU"));
        }
        Write(key, "rec-RECU_DUP");
        return Settled("rec-RECU_DUP", true);
      }
      if mode == "reissue_instead_of_resume" {
        if settleCalls == 1 {
          return Lost(None);
        }
        if settleCalls == 2 {
          return Challenged;
        }
        Write(key, "rec-REISSUE");
        return Settled("rec-REISSUE", false);
      }
      return Broken;
    }

    method Reconcile(ref: string) returns (r: Recon)
      modifies this`reconcileCalls
      ensures reconcileCalls == old(reconcileCalls) + 1
      ensures r == Settlement.Reconcile(ledger, ref, ReconcileTurnAt(mode, reconcileCalls))
    {
      reconcileCalls := reconcileCalls + 1;
      if mode == "reconcile_unavailable" && reconcileCalls == 1 {
        return Unavailable;
      }
      var entry := FindTransaction(ledger, ref);
      if entry.Some? {
        return Found(entry.value.tx);
      }
      return Unknown;
    }
  }

  // ------------------------------------------------------------------ execute_payment

  /** Either backend: execute_payment calls settle and reconcile on whichever it is given. */
  datatype Backend = Payment(facilitator: MockFacilitator) | Destination(generic: GenericBackend) {
    function Object(): object {
      if Payment? then facilitator else generic
    }

    function Kind(): Kind {
      if Payment? then FACILITATOR else GENERIC
    }

    function Mode(): string {
      if Payment? then facilitator.mode else generic.mode
    }

    function Ledger(): seq<Entry>
      reads Object()
    {
      if Payment? then facilitator.ledger else generic.ledger
    }

    function SettleCalls(): int
      reads Object()
    {
      if Payment? then facilitator.settleCalls else generic.settleCalls
    }

    function ReconcileCalls(): int
      reads Object()
    {
      if Payment? then facilitator.reconcileCalls else generic.reconcileCalls
    }

    method Settle(authorization: Authorization) returns (reply: Reply)
      modifies Object()
      ensures SettleCalls() == old(SettleCalls()) + 1 && ReconcileCalls() == old(ReconcileCalls())
      ensures var known := FindBySignature(old(Ledger()), authorization.signature).Some?;
              (Ledger(), reply) ==
              Settlement.Settle(old(Ledger()), authorization.signature, TurnAt(Kind(), Mode(), SettleCalls(), known))
    {
      match this
      case Payment(f) => reply := f.Settle(authorization);
      case Destination(g) => reply := g.Settle(authorization);
    }

    method Reconcile(ref: string) returns (r: Recon)
      modifies Object()
      ensures Ledger() == old(Ledger()) && SettleCalls() == old(SettleCalls())
      ensures ReconcileCalls() == old(ReconcileCalls()) + 1
      ensures r == Settlement.Reconcile(Ledger(), ref, ReconcileTurnAt(Mode(), ReconcileCalls()))
    {
      match this
      case Payment(f) => r := f.Reconcile(ref);
      case Destination(g) => r := g.Reconcile(ref);
    }
  }

  /** Neither backend writes when it challenges again. */
  lemma ChallengeWritesNothing(ledger: seq<Entry>, signature: string, kind: Kind, mode: string, call: int)
    ensures var known := FindBySignature(ledger, signature).Some?;
            var turn := TurnAt(kind, mode, call, known);
            var (after, reply) := Settlement.Settle(ledger, signature, turn);
            reply.Challenged? ==> after == ledger
  {}

  /** The settle half of a round: present the authorization, and once more after a challenge. */
  method PresentAuthorization(store: PendingSettlementStore, backend: Backend, key: string, ghost reconciles: nat)
      returns (outcome: Outcome)
    requires key in store.records
    modifies store, backend.Object()
    ensures var known := Known(old(store.records), old(backend.Ledger()), key);
            var first := TurnAt(backend.Kind(), backend.Mode(), old(backend.SettleCalls()) + 1, known);
            var second := TurnAt(backend.Kind(), backend.Mode(), old(backend.SettleCalls()) + 2, known);
            var round := Present(old(store.records), old(backend.Ledger()), key, first, second, reconciles);
            && store.records == round.records
            && backend.Ledger() == round.ledger
            && outcome == round.outcome
            && backend.SettleCalls() == old(backend.SettleCalls()) + round.settles
            && backend.ReconcileCalls() == old(backend.ReconcileCalls())
  {
    hide TurnAt, Settlement.Settle, FindBySignature;
    var authorization := store.records[key].authorization;
    ChallengeWritesNothing(backend.Ledger(), authorization.signature, backend.Kind(), backend.Mode(),
                           backend.SettleCalls() + 1);
    var reply := backend.Settle(authorization);
    if reply.Challenged? {
      reply := backend.Settle(authorization);
    }
    match reply
    case Settled(tx, safe) =>
      var settled := store.MarkSettled(key, tx, safe);
      return Returned(settled.value);
    case Lost(ref) =>
      var kept := store.MarkIndeterminate(key, ref);
      return Returned(kept.value);
    case Challenged =>
      return ChallengeRaised;
    case Broken =>
      return ErrorRaised;
  }

  /** The reconcile half: ask about a broadcast reference before spending another settle. */
  method AskBackend(backend: Backend, rec: Record) returns (recon: Recon)
    modifies backend.Object()
    ensures recon == Reconciled(rec, old(backend.Ledger()),
                                ReconcileTurnAt(backend.Mode(), old(backend.ReconcileCalls()) + 1))
    ensures backend.Ledger() == old(backend.Ledger()) && backend.SettleCalls() == old(backend.SettleCalls())
    ensures backend.ReconcileCalls() == old(backend.ReconcileCalls()) + if Asks(rec) then 1 else 0
  {
    recon := Unknown;
    if rec.broadcastRef.Some? && rec.broadcastRef.value != "" {
      recon := backend.Reconcile(rec.broadcastRef.value);
    }
  }

  /** One round, with all the state it leaves: that of Execute against the backend's own turns. */
  method ExecutePayment(store: PendingSettlementStore, backend: Backend, key: string, resource: string, now: real)
      returns (outcome: Outcome)
    modifies store, backend.Object()
    ensures var known := Known(old(store.records), old(backend.Ledger()), key);
            var turns := TurnsOf(backend.Kind(), backend.Mode(),
                                 old(backend.SettleCalls()), old(backend.ReconcileCalls()), known, now);
            var round := Execute(old(store.records), old(backend.Ledger()), key, resource, turns);
            && store.records == round.records
            && backend.Ledger() == round.ledger
            && outcome == round.outcome
            && backend.SettleCalls() == old(backend.SettleCalls()) + round.settles
            && backend.ReconcileCalls() == old(backend.ReconcileCalls()) + round.reconciles
  {
    hide TurnAt, ReconcileTurnAt, Reconciled, Present, FindBySignature;
    var got := store.Get(key);
    var rec: Record;
    if got.None? {
      rec := store.Start(key, Authorization("sig-" + key, resource), now);
    } else {
      rec := got.value;
    }
    assert store.records == Opened(old(store.records), key, resource, now);
    assert Known(store.records, backend.Ledger(), key) == Known(old(store.records), old(backend.Ledger()), key);
    if rec.verdict.SETTLED? || rec.verdict.REFUSED? {
      return Returned(rec);
    }
    var recon := AskBackend(backend, rec);
    if recon.Found? {
      var settled := store.MarkSettled(key, recon.transactionRef, false);
      return Returned(settled.value);
    }
    outcome := PresentAuthorization(store, backend, key, if Asks(rec) then 1 else 0);
  }
}
