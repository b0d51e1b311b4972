/**
 The two backends of the repository as schedules of the adversarial backend of Settlement, so that
 all that is proved there holds of them; what is added here is that their retry loops end.
 */
module SettlementBackends {
  import opened Python
  import opened Settlement

  // ------------------------------------------------------------------ the two schedules

  datatype Kind = FACILITATOR | GENERIC

  /** The turn of MockFacilitator.settle at its call-th call, for a signature with an entry or not. */
  function FacilitatorTurn(mode: string, call: int, known: bool): Turn {
    if known then Confirm("", true)
    else if mode == "clean" then Confirm("0xCLEAN", false)
    else if mode == "declared_safe" then Confirm("0xDSAFE", true)
    else if mode == "accept_then_timeout" then
      if call == 1 then Lose(Some("0xATT"), true) else Confirm("0xATT_DUP", true)
    else if mode == "5xx_after_settle" then
      if call == 1 then Lose(Some("0x5XX"), false) else Confirm("0x5XX_DUP", true)
    else if mode == "slow_answer" then
      if call == 1 then Lose(Some("0xSLOW"), false) else Confirm("0xSLOW_DUP", true)
    else if mode == "reconcile_unavailable" then
      if call == 1 then Lose(Some("0xRECU"), true) else Confirm("0xRECU_DUP", true)
    else if mode == "double_402" then
      if call == 1 then Lose(None, false) else if call == 2 then Rechallenge(None) else Confirm("0xD402", false)
    else Break(None)
  }

  /** The same for GenericBackend.settle. */
  function GenericTurn(mode: string, call: int, known: bool): Turn {
    if known then Confirm("", true)
    else if mode == "clean" then Confirm("rec-CLEAN", false)
    else if mode == "declared_idempotent" then Confirm("rec-DSAFE", true)
    else if mode == "write_then_timeout" then
      if call == 1 then Lose(Some("rec-WTT"), true) else Confirm("rec-WTT_DUP", true)
    else if mode == "error_after_write" then
      if call == 1 then Lose(Some("rec-EAW"), false) else Confirm("rec-EAW_DUP", true)
    else if mode == "client_timeout" then
      if call == 1 then Lose(Some("rec-CTO"), false) else Confirm("rec-CTO_DUP", true)
    else if mode == "reconcile_unavailable" then
      if call == 1 then Lose(Some("rec-RECU"), true) else Confirm("rec-RECU_DUP", true)
    else if mode == "reissue_instead_of_resume" then
      if call == 1 then Lose(None, false) else if call == 2 then Rechallenge(None) else Confirm("rec-REISSUE", false)
    else Break(None)
  }

  function TurnAt(kind: Kind, mode: string, call: int, known: bool): Turn {
    if kind.FACILITATOR? then FacilitatorTurn(mode, call, known) else GenericTurn(mode, call, known)
  }

  function ReconcileTurnAt(mode: string, call: int): ReconcileTurn {
    if mode == "reconcile_unavailable" && call == 1 then Unreachable else Answers
  }

  /** The turns of the next round after some calls of each kind. */
  function TurnsOf(kind: Kind, mode: string, settleCalls: int, reconcileCalls: int, known: bool, now: real): Turns {
    Turns(now, ReconcileTurnAt(mode, reconcileCalls + 1),
          TurnAt(kind, mode, settleCalls + 1, known),
          TurnAt(kind, mode, settleCalls + 2, known))
  }

  predicate Known(records: Records, ledger: seq<Entry>, key: string) {
    var signature := if key in records then records[key].authorization.signature else SignatureOf(key);
    FindBySignature(ledger, signature).Some?
  }

  // ------------------------------------------------------------------ runs against one backend

  predicate IsMode(kind: Kind, mode: string) {
    if kind.FACILITATOR? then
      mode in ["clean", "declared_safe", "accept_then_timeout", "5xx_after_settle", "slow_answer",
               "reconcile_unavailable", "double_402"]
    else
      mode in ["clean", "declared_idempotent", "write_then_timeout", "error_after_write", "client_timeout",
               "reconcile_unavailable", "reissue_instead_of_resume"]
  }

  /** Only the first settle call of a backend can fail, and only the second can be a challenge. */
  lemma TurnsHeal(kind: Kind, mode: string, call: int, known: bool)
    requires IsMode(kind, mode) && call >= 2
    ensures TurnAt(kind, mode, call, known).Confirm?
            || (call == 2 && TurnAt(kind, mode, call, known) == Rechallenge(None))
  {}

  datatype World = World(system: System, settleCalls: nat, reconcileCalls: nat)

  datatype Submission = Submission(key: string, resource: string, now: real)

  const Fresh := World(Empty, 0, 0)

  function TurnsIn(kind: Kind, mode: string, w: World, x: Submission): Turns {
    TurnsOf(kind, mode, w.settleCalls, w.reconcileCalls, Known(w.system.records, w.system.ledger, x.key), x.now)
  }

  function Submit(kind: Kind, mode: string, w: World, x: Submission): World {
    var r := Execute(w.system.records, w.system.ledger, x.key, x.resource, TurnsIn(kind, mode, w, x));
    World(System(r.records, r.ledger), w.settleCalls + r.settles, w.reconcileCalls + r.reconciles)
  }

  function Battery(kind: Kind, mode: string, w: World, xs: seq<Submission>): World
    decreases |xs|
  {
    if xs == [] then w else Battery(kind, mode, Submit(kind, mode, w, xs[0]), xs[1..])
  }

  /** The adversary's schedule a run against one backend follows. */
  function Schedule(kind: Kind, mode: string, w: World, xs: seq<Submission>): seq<Call>
    decreases |xs|
  {
    if xs == [] then []
    else [Call(xs[0].key, xs[0].resource, TurnsIn(kind, mode, w, xs[0]))]
         + Schedule(kind, mode, Submit(kind, mode, w, xs[0]), xs[1..])
  }

  /** Both backends, in every mode, are instances of the adversary. */
  lemma {:induction false} BatteryIsRun(kind: Kind, mode: string, w: World, xs: seq<Submission>)
    ensures Battery(kind, mode, w, xs).system == Run(w.system, Schedule(kind, mode, w, xs))
    decreases |xs|
  {
    hide Execute, TurnsIn;
    if xs != [] {
      var next := Submit(kind, mode, w, xs[0]);
      var call := Call(xs[0].key, xs[0].resource, TurnsIn(kind, mode, w, xs[0]));
      BatteryIsRun(kind, mode, next, xs[1..]);
      var rest := Schedule(kind, mode, next, xs[1..]);
      assert ([call] + rest)[0] == call && ([call] + rest)[1..] == rest;
      assert After(w.system, call) == next.system;
    }
  }

  predicate SettledIn(w: World, key: string) {
    key in w.system.records && w.system.records[key].verdict.SETTLED?
  }

  predicate NoneRefused(w: World) {
    forall key | key in w.system.records :: !w.system.records[key].verdict.REFUSED?
  }

  lemma SubmitKeeps(kind: Kind, mode: string, w: World, x: Submission)
    requires NoneRefused(w)
    ensures var next := Submit(kind, mode, w, x);
            && NoneRefused(next)
            && (SettledIn(next, x.key) || next.settleCalls > w.settleCalls)
            && next.settleCalls >= w.settleCalls
  {
    hide TurnsIn, Settle, Reconciled;
  }

  /** After the first settle call of all, every round settles its key. */
  lemma SubmitSettles(kind: Kind, mode: string, w: World, x: Submission)
    requires IsMode(kind, mode) && NoneRefused(w) && w.settleCalls > 0
    ensures SettledIn(Submit(kind, mode, w, x), x.key)
  {
    hide TurnAt, IsMode, Reconciled, Landed, FindBySignature;
    var known := Known(w.system.records, w.system.ledger, x.key);
    TurnsHeal(kind, mode, w.settleCalls + 1, known);
    TurnsHeal(kind, mode, w.settleCalls + 2, known);
    SettlesExactly(w.system, Call(x.key, x.resource, TurnsIn(kind, mode, w, x)));
  }

  lemma SettledStays(kind: Kind, mode: string, w: World, xs: seq<Submission>, key: string)
    requires SettledIn(w, key)
    ensures SettledIn(Battery(kind, mode, w, xs), key)
  {
    BatteryIsRun(kind, mode, w, xs);
    TerminalForever(w.system, Schedule(kind, mode, w, xs), key);
  }

  lemma {:induction false} SettledLater(kind: Kind, mode: string, w: World, xs: seq<Submission>, j: nat)
    requires IsMode(kind, mode) && NoneRefused(w) && w.settleCalls > 0 && j < |xs|
    ensures SettledIn(Battery(kind, mode, w, xs), xs[j].key)
    decreases |xs|
  {
    hide Submit, IsMode, SettledIn;
    SubmitKeeps(kind, mode, w, xs[0]);
    var next := Submit(kind, mode, w, xs[0]);
    if j == 0 {
      SubmitSettles(kind, mode, w, xs[0]);
      SettledStays(kind, mode, next, xs[1..], xs[0].key);
    } else {
      SettledLater(kind, mode, next, xs[1..], j - 1);
    }
  }

  lemma FirstSubmissionCalls(kind: Kind, mode: string, x: Submission)
    ensures var next := Submit(kind, mode, Fresh, x);
            next.settleCalls > 0 && NoneRefused(next)
  {
    hide TurnsIn, Settle;
    assert Opened(map[], x.key, x.resource, x.now)[x.key].broadcastRef.None?;
    SubmitKeeps(kind, mode, Fresh, x);
  }

  lemma SettledFromFresh(kind: Kind, mode: string, xs: seq<Submission>, j: nat)
    requires IsMode(kind, mode) && 0 < j < |xs|
    ensures SettledIn(Battery(kind, mode, Fresh, xs), xs[j].key)
  {
    hide Submit, IsMode;
    FirstSubmissionCalls(kind, mode, xs[0]);
    SettledLater(kind, mode, Submit(kind, mode, Fresh, xs[0]), xs[1..], j - 1);
  }

  /**
   The retry loop ends: in every mode of either backend, whatever keys are submitted in whatever
   order, every submission but the very first of the run settles its key, with exactly one entry.
   A caller that retries is done by its second round.
   */
  lemma RetryLoopEnds(kind: Kind, mode: string, xs: seq<Submission>, j: nat)
    requires IsMode(kind, mode) && 0 < j < |xs|
    ensures var end := Battery(kind, mode, Fresh, xs);
            && SettledIn(end, xs[j].key)
            && OneEntryEach(end.system.ledger)
            && FindBySignature(end.system.ledger, SignatureOf(xs[j].key)).Some?
  {
    hide Battery, Submit, IsMode, OneEntryEach, FindBySignature, Run;
    SettledFromFresh(kind, mode, xs, j);
    BatteryIsRun(kind, mode, Fresh, xs);
    ChargedAtMostOnce(Schedule(kind, mode, Fresh, xs));
  }

  // ------------------------------------------------------------------ the conformance vectors

  /** The transaction, settle calls and reconcile calls that the vectors expect of a mode. */
  datatype Expected = Expected(tx: string, settleCalls: nat, reconcileCalls: nat)

  function VectorOf(kind: Kind, mode: string): Expected {
    if kind.FACILITATOR? then
      if mode == "clean" then Expected("0xCLEAN", 1, 0)
      else if mode == "declared_safe" then Expected("0xDSAFE", 1, 0)
      else if mode == "accept_then_timeout" then Expected("0xATT", 1, 1)
      else if mode == "5xx_after_settle" then Expected("0x5XX", 2, 0)
      else if mode == "slow_answer" then Expected("0xSLOW", 2, 0)
      else if mode == "reconcile_unavailable" then Expected("0xRECU", 2, 1)
      else Expected("0xD402", 3, 0)
    else
      if mode == "clean" then Expected("rec-CLEAN", 1, 0)
      else if mode == "declared_idempotent" then Expected("rec-DSAFE", 1, 0)
      else if mode == "write_then_timeout" then Expected("rec-WTT", 1, 1)
      else if mode == "error_after_write" then Expected("rec-EAW", 2, 0)
      else if mode == "client_timeout" then Expected("rec-CTO", 2, 0)
      else if mode == "reconcile_unavailable" then Expected("rec-RECU", 2, 1)
      else Expected("rec-REISSUE", 3, 0)
  }

  /** How the first calls of a mode go, for a signature without an entry. */
  predicate GoesLike(kind: Kind, mode: string, e: Expected) {
    var one, two, three := TurnAt(kind, mode, 1, false), TurnAt(kind, mode, 2, false), TurnAt(kind, mode, 3, false);
    && e.tx != ""
    && (|| (e == Expected(e.tx, 1, 0) && one.Confirm? && one.tx == e.tx)
        || (e == Expected(e.tx, 1, 1) && one == Lose(Some(e.tx), true) && ReconcileTurnAt(mode, 1).Answers?)
        || (e == Expected(e.tx, 2, 1) && one == Lose(Some(e.tx), true) && ReconcileTurnAt(mode, 1).Unreachable?)
        || (e == Expected(e.tx, 2, 0) && one == Lose(Some(e.tx), false))
        || (e == Expected(e.tx, 3, 0) && one == Lose(None, false) && two == Rechallenge(None)
            && three.Confirm? && three.tx == e.tx))
  }

  lemma ModesGoLike(kind: Kind, mode: string)
    requires IsMode(kind, mode)
    ensures GoesLike(kind, mode, VectorOf(kind, mode))
  {}

  /** The state after some rounds of one key: its record, its one entry if any, and the calls made. */
  ghost predicate Stands(w: World, key: string, rec: Record, entry: Option<string>, settles: nat, reconciles: nat) {
    && key in w.system.records && w.system.records[key] == rec && rec.authorization.signature == "sig-" + key
    && w.system.ledger == (if entry.Some? then [Entry("sig-" + key, entry.value)] else [])
    && w.settleCalls == settles && w.reconcileCalls == reconciles
  }

  lemma OneEntry(signature: string, tx: string)
    ensures FindBySignature([Entry(signature, tx)], signature).Some?
    ensures forall other :: HasEntry([Entry(signature, tx)], signature, other) <==> other == tx
  {
    assert [Entry(signature, tx)][0] in [Entry(signature, tx)];
    EntryFound([Entry(signature, tx)], signature, tx);
  }

  /** The first round: nothing is known, so the authorization is presented. */
  lemma FirstRound(kind: Kind, mode: string, x: Submission, e: Expected)
    requires GoesLike(kind, mode, e)
    ensures var rec := Submit(kind, mode, Fresh, x).system.records;
            && x.key in rec
            && Stands(Submit(kind, mode, Fresh, x), x.key, rec[x.key],
                      if e.settleCalls == 3 then None else Some(e.tx), 1, 0)
            && (if e.settleCalls == 1 && e.reconcileCalls == 0
                then rec[x.key].verdict.SETTLED? && rec[x.key].transactionRef == Some(e.tx)
                else rec[x.key].verdict.INDETERMINATE?
                     && rec[x.key].broadcastRef == if e.reconcileCalls == 1 then Some(e.tx) else None)
  {
    var c := Call(x.key, x.resource, TurnsIn(kind, mode, Fresh, x));
    hide Execute, TurnAt, ReconcileTurnAt;
    var signature := "sig-" + x.key;
    NoEntry(signature);
    assert c.turns == Turns(x.now, ReconcileTurnAt(mode, 1), TurnAt(kind, mode, 1, false), TurnAt(kind, mode, 2, false));
    PresentedRound(Empty, c);
    OneEntry(signature, e.tx);
    var entry := Entry(signature, e.tx);
    assert [] + [entry] == [entry] && HasEntry([entry], signature, e.tx);
  }

  lemma NoEntry(signature: string)
    ensures FindBySignature([], signature).None? && forall tx :: !HasEntry([], signature, tx)
  {}

  /** The second round, in the state the first one leaves: every mode has settled after it. */
  lemma SecondRound(kind: Kind, mode: string, w: World, x: Submission, e: Expected, rec: Record)
    requires GoesLike(kind, mode, e)
    requires Stands(w, x.key, rec, if e.settleCalls == 3 then None else Some(e.tx), 1, 0)
    requires if e.settleCalls == 1 && e.reconcileCalls == 0
             then rec.verdict.SETTLED? && rec.transactionRef == Some(e.tx)
             else rec.verdict.INDETERMINATE? && rec.broadcastRef == if e.reconcileCalls == 1 then Some(e.tx) else None
    ensures var after := Submit(kind, mode, w, x);
            && x.key in after.system.records
            && Stands(after, x.key, after.system.records[x.key], Some(e.tx), e.settleCalls, e.reconcileCalls)
            && after.system.records[x.key].verdict.SETTLED? && after.system.records[x.key].transactionRef == Some(e.tx)
  {
    var c := Call(x.key, x.resource, TurnsIn(kind, mode, w, x));
    var signature := "sig-" + x.key;
    assert OnFile(w.system.records, c) == rec;
    NoEntry(signature);
    OneEntry(signature, e.tx);
    var known := e.settleCalls != 3;
    assert c.turns == Turns(x.now, ReconcileTurnAt(mode, 1), TurnAt(kind, mode, 2, known), TurnAt(kind, mode, 3, known));
    KnownConfirms(kind, mode, 2);
    hide Execute, TurnAt, ReconcileTurnAt, FindBySignature, OnFile;
    if rec.verdict.SETTLED? {
      SettledRound(w, c, rec);
    } else if e == Expected(e.tx, 1, 1) {
      assert Entry(signature, e.tx) in w.system.ledger;
      FoundRound(w.system, c);
    } else {
      NotFindable(rec, w.system.ledger, c.turns.reconcile, e);
      PresentedRound(w.system, c);
      var entry := Entry(signature, e.tx);
      assert [] + [entry] == [entry];
      assert entry.signature == signature && (known ==> entry in w.system.ledger);
    }
  }

  lemma KnownConfirms(kind: Kind, mode: string, call: int)
    ensures TurnAt(kind, mode, call, true) == Confirm("", true)
  {}

  lemma SettledRound(w: World, c: Call, rec: Record)
    requires OnFile(w.system.records, c) == rec && rec.verdict.SETTLED?
    ensures Execute(w.system.records, w.system.ledger, c.key, c.resource, c.turns)
            == Round(w.system.records, w.system.ledger, Returned(rec), 0, 0)
  {
    TerminalRound(w.system, c);
  }

  lemma NotFindable(rec: Record, ledger: seq<Entry>, turn: ReconcileTurn, e: Expected)
    requires rec.broadcastRef.None? || turn.Unreachable?
    ensures !Findable(rec, ledger, turn)
  {}

  /** Every further submission of a settled key changes nothing. */
  lemma {:induction false} SettledRest(kind: Kind, mode: string, w: World, xs: seq<Submission>, key: string)
    requires SettledIn(w, key) && forall i | 0 <= i < |xs| :: xs[i].key == key
    ensures Battery(kind, mode, w, xs) == w
    decreases |xs|
  {
    hide TurnsIn, Execute;
    if xs != [] {
      var c := Call(xs[0].key, xs[0].resource, TurnsIn(kind, mode, w, xs[0]));
      TerminalRound(w.system, c) by {
        assert OnFile(w.system.records, c) == w.system.records[key];
      }
      SettledRest(kind, mode, w, xs[1..], key);
    }
  }

  /**
   The conformance vectors: in every mode of either backend a key that is submitted twice or more ends
   settled, with the one entry, the settle calls and the reconcile calls that the vectors expect.
   */
  lemma VectorsHold(kind: Kind, mode: string, xs: seq<Submission>, key: string)
    requires IsMode(kind, mode) && |xs| >= 2 && forall i | 0 <= i < |xs| :: xs[i].key == key
    ensures var end, e := Battery(kind, mode, Fresh, xs), VectorOf(kind, mode);
            && SettledIn(end, key) && end.system.records[key].transactionRef == Some(e.tx)
            && end.system.ledger == [Entry("sig-" + key, e.tx)]
            && end.settleCalls == e.settleCalls && end.reconcileCalls == e.reconcileCalls
  {
    hide Submit, VectorOf, IsMode, GoesLike;
    var e := VectorOf(kind, mode);
    ModesGoLike(kind, mode);
    FirstRound(kind, mode, xs[0], e);
    var one := Submit(kind, mode, Fresh, xs[0]);
    SecondRound(kind, mode, one, xs[1], e, one.system.records[key]);
    var two := Submit(kind, mode, one, xs[1]);
    SettledRest(kind, mode, two, xs[2..], key);
    assert xs[1..][1..] == xs[2..] && xs[1..][0] == xs[1];
  }
}
