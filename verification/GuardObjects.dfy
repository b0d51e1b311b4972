/** The objects of the idempotency guard; each call is a run of the state machine. */
module GuardObjects {
  import opened Python
  import opened Guard

  class EffectStore {
    var counter: int
    var effects: seq<Effect>

    constructor ()
      ensures counter == 0 && effects == []
    {
      counter, effects := 0, [];
    }

    /** One transaction: increment the counter and insert the row, or neither. */
    method ApplyEffect(action: string, attemptNo: int, effectId: string) returns (r: Result<string>)
      modifies this
      ensures r == if KnownId(old(effects), effectId) then Raise(RuntimeError) else Ok(effectId)
      ensures counter == old(counter) + if r.Ok? then 1 else 0
      ensures effects == old(effects) + if r.Ok? then [Effect(effectId, action, attemptNo, counter)] else []
    {
      if exists i | 0 <= i < |effects| :: effects[i].effectId == effectId {
        return Raise(RuntimeError);
      }
      counter := counter + 1;
      effects := effects + [Effect(effectId, action, attemptNo, counter)];
      return Ok(effectId);
    }

    /** The counter and the rows of one action by attempt number, or None when the store cannot be read. */
    method ReadIndependent(action: string, readable: bool) returns (rows: Option<seq<Effect>>, counterValue: Option<int>)
      ensures rows.Some? <==> readable
      ensures counterValue == if rows.Some? then Some(counter) else None
      ensures rows.Some? ==> ByAttempt(rows.value, effects, action)
      ensures rows.Some? ==> rows.value == Observed(effects, action)
    {
      if !readable {
        return None, None;
      }
      return Some(Observed(effects, action)), Some(counter);
    }
  }

  class GuardTable {
    var rows: Records

    constructor ()
      ensures rows == map[]
    {
      rows := map[];
    }

    method Read(ref: string) returns (r: Option<Record>)
      ensures r == if ref in rows then Some(rows[ref]) else None
    {
      r := if ref in rows then Some(rows[ref]) else None;
    }

    method Reserve(ref: string) returns (inserted: bool)
      modifies this
      ensures (rows, inserted) == ReserveRow(old(rows), ref)
    {
      inserted := ref !in rows;
      if inserted {
        rows := rows[ref := Record(PENDING, None)];
      }
    }

    method Write(ref: string, effectId: string)
      modifies this
      ensures rows == CommitRow(old(rows), ref, effectId)
    {
      rows := rows[ref := Record(COMMITTED, Some(effectId))];
    }
  }

  datatype GuardOutcome = RECONCILED_GUARD | PENDING_GUARD | COMMITTED_NOW

  datatype Event = Event(attemptNo: Option<int>, outcome: GuardOutcome, ref: string, effectId: Option<string>)

  /** The two databases as a state of the machine in which nothing is running. */
  function Quiet(records: Records, counter: int, effects: seq<Effect>): State {
    State(records, counter, effects, map[], [])
  }

  class DurableIdempotencyGuard {
    const table: GuardTable
    var events: seq<Event>

    constructor (table: GuardTable)
      ensures this.table == table && events == []
    {
      this.table := table;
      events := [];
    }

    /**
     guard(): the records, the effects and the returned id are those of an uninterrupted run of
     the state machine.  The effect function applies one effect of the action and may raise
     before or after.
     */
    method Guard(actionOf: string -> string, ref: string, attemptNo: int, store: EffectStore, outcome: Outcome)
        returns (r: Result<(Option<string>, GuardOutcome)>)
      modifies this, table, store
      ensures var before := Quiet(old(table.rows), old(store.counter), old(store.effects));
              var after := Run(actionOf, before, GuardCall(0, ref, attemptNo, outcome));
              && table.rows == after.records
              && store.counter == after.counter && store.effects == after.effects
              && after.returned == (if r.Ok? && r.value.0.Some? then [Returned(ref, r.value.0.value)] else [])
      ensures r.Ok? ==> r.value.1 == if ref !in old(table.rows) then COMMITTED_NOW
                                     else if old(table.rows)[ref].status.COMMITTED? then RECONCILED_GUARD
                                     else PENDING_GUARD
      ensures r.Raise? <==> ref !in old(table.rows) && (!outcome.Commits? || KnownId(old(store.effects), outcome.effectId))
      ensures events == old(events) +
              if r.Ok? then [Event(Some(attemptNo), r.value.1, ref, r.value.0)] else []
    {
      hide Run, GuardCall, KnownId;
      ghost var before := Quiet(table.rows, store.counter, store.effects);
      RunGuardCall(actionOf, before, 0, ref, attemptNo, outcome);
      var existing := table.Read(ref);
      var reserved := false;
      if existing.None? {
        reserved := table.Reserve(ref);
        if !reserved {
          existing := table.Read(ref);
        }
      }
      if existing.Some? {
        if existing.value.status.COMMITTED? {
          events := events + [Event(Some(attemptNo), RECONCILED_GUARD, ref, existing.value.effectId)];
          return Ok((existing.value.effectId, RECONCILED_GUARD));
        }
        events := events + [Event(Some(attemptNo), PENDING_GUARD, ref, None)];
        return Ok((None, PENDING_GUARD));
      }
      if outcome.RaisesBefore? {
        return Raise(RuntimeError);
      }
      var applied := store.ApplyEffect(actionOf(ref), attemptNo, outcome.effectId);
      if applied.Raise? || outcome.CommitsThenRaises? {
        return Raise(RuntimeError);
      }
      table.Write(ref, outcome.effectId);
      events := events + [Event(Some(attemptNo), COMMITTED_NOW, ref, Some(outcome.effectId))];
      return Ok((Some(outcome.effectId), COMMITTED_NOW));
    }

    /** reconcile() */
    method Reconcile(actionOf: string -> string, ref: string, store: EffectStore, readable: bool)
        returns (r: Option<string>)
      modifies this, table
      ensures var before := Quiet(old(table.rows), store.counter, store.effects);
              var after := Run(actionOf, before, ReconcileCall(0, ref, readable));
              && table.rows == after.records
              && store.counter == after.counter && store.effects == after.effects
              && after.returned == (if r.Some? then [Returned(ref, r.value)] else [])
      ensures events == old(events) + if r.Some? then [Event(None, RECONCILED_GUARD, ref, r)] else []
    {
      hide Run, ReconcileCall, Observed, ByAttempt;
      ghost var before := Quiet(table.rows, store.counter, store.effects);
      RunReconcileCall(actionOf, before, 0, ref, readable);
      var existing := table.Read(ref);
      if existing.None? || !existing.value.status.PENDING? {
        return None;
      }
      var rows, _ := store.ReadIndependent(actionOf(ref), readable);
      if rows.None? || rows.value == [] {
        return None;
      }
      var effectId := rows.value[0].effectId;
      table.Write(ref, effectId);
      events := events + [Event(None, RECONCILED_GUARD, ref, Some(effectId))];
      return Some(effectId);
    }
  }
}
