/**
 The durable idempotency guard over a shared table of records, and the effect store.

 The state machine takes one step per SQL statement or transaction of
 durable_idempotency_guard.py and effect_store.py; a process can crash between any two.
 */
module Guard {
  import opened Python
  import opened Order

  // ------------------------------------------------------------------ tables

  datatype Status = PENDING | COMMITTED

  datatype Record = Record(status: Status, effectId: Option<string>)

  type Records = map<string, Record>

  datatype Effect = Effect(effectId: string, action: string, attemptNo: int, counterAfter: int)

  /** INSERT ... ON CONFLICT DO NOTHING, and whether a row was inserted. */
  function ReserveRow(records: Records, ref: string): (Records, bool) {
    if ref in records then (records, false) else (records[ref := Record(PENDING, None)], true)
  }

  /** The upsert that commits an effect. */
  function CommitRow(records: Records, ref: string, effectId: string): Records {
    records[ref := Record(COMMITTED, Some(effectId))]
  }

  predicate KnownId(effects: seq<Effect>, effectId: string) {
    exists i | 0 <= i < |effects| :: effects[i].effectId == effectId
  }

  function AttemptKey(e: Effect): seq<int> {
    [e.attemptNo]
  }

  /** The rows of one action, each as often as it is stored. */
  function EffectsOf(effects: seq<Effect>, action: string): (r: seq<Effect>)
    ensures forall e :: multiset(r)[e] == if e.action == action then multiset(effects)[e] else 0
    ensures forall e :: e in r <==> e in effects && e.action == action
  {
    if effects == [] then []
    else
      assert effects == [effects[0]] + effects[1..];
      var r := EffectsOf(effects[1..], action);
      if effects[0].action == action then [effects[0]] + r else r
  }

  /** These are the stored rows of one action, each as often as it is stored, by attempt number. */
  ghost predicate ByAttempt(rows: seq<Effect>, effects: seq<Effect>, action: string) {
    && (forall e :: multiset(rows)[e] == if e.action == action then multiset(effects)[e] else 0)
    && (forall i, j | 0 <= i < j < |rows| :: rows[i].attemptNo <= rows[j].attemptNo)
  }

  function Observed(effects: seq<Effect>, action: string): (r: seq<Effect>)
    ensures ByAttempt(r, effects, action)
    ensures forall e | e in r :: e in effects && e.action == action
    ensures r == [] ==> forall e | e in effects :: e.action != action
  {
    var rows := EffectsOf(effects, action);
    SameMembers(SortBy(rows, AttemptKey), rows);
    SortByOrders(rows, AttemptKey);
    OrderedAttempts(SortBy(rows, AttemptKey));
    assert SortBy(rows, AttemptKey) == [] ==> rows == [];
    SortBy(rows, AttemptKey)
  }

  lemma OrderedAttempts(rows: seq<Effect>)
    requires Ordered(rows, AttemptKey)
    ensures forall i, j | 0 <= i < j < |rows| :: rows[i].attemptNo <= rows[j].attemptNo
  {
    forall i, j | 0 <= i < j < |rows| ensures rows[i].attemptNo <= rows[j].attemptNo {
      assert LexLeq(AttemptKey(rows[i]), AttemptKey(rows[j]));
    }
  }

  // ------------------------------------------------------------------ processes

  /** Where one process is in guard() or reconcile(): the statement it executes next. */
  datatype Local =
    | Idle
    | GuardRead(ref: string, attemptNo: int)
    | GuardReserve(ref: string, attemptNo: int)
    | GuardReread(ref: string, attemptNo: int)
    | GuardEffect(ref: string, attemptNo: int)
    | GuardWrite(ref: string, effectId: string)
    | ReconcileRead(ref: string)
    | ReconcileObserve(ref: string)
    | ReconcileWrite(ref: string, effectId: string)

  /** One effect_id handed to a caller for a reference. */
  datatype Returned = Returned(ref: string, effectId: string)

  datatype State = State(
    records: Records, counter: int, effects: seq<Effect>,
    procs: map<nat, Local>, returned: seq<Returned>)

  const Initial := State(map[], 0, [], map[], [])

  function At(s: State, p: nat): Local {
    if p in s.procs then s.procs[p] else Idle
  }

  function Goto(s: State, p: nat, l: Local): State {
    s.(procs := s.procs[p := l])
  }

  function Return(s: State, p: nat, ref: string, effectId: string): State {
    Goto(s, p, Idle).(returned := s.returned + [Returned(ref, effectId)])
  }

  /** What guard() does with a record it has read. */
  function OnRecord(s: State, p: nat, ref: string, r: Record): State {
    if r.status.COMMITTED? && r.effectId.Some? then Return(s, p, ref, r.effectId.value) else Goto(s, p, Idle)
  }

  /** How the caller's effect function ends. */
  datatype Outcome = RaisesBefore | Commits(effectId: string) | CommitsThenRaises(effectId: string)

  datatype Action =
    | StartGuard(p: nat, ref: string, attemptNo: int)
    | StartReconcile(p: nat, ref: string)
    | Statement(p: nat)
    | RunEffect(p: nat, outcome: Outcome)
    | Observe(p: nat, readable: bool)
    | Crash(p: nat)

  /** apply_effect: one transaction, rolled back when the effect_id is taken. */
  function ApplyEffect(s: State, action: string, attemptNo: int, effectId: string): Option<State> {
    if KnownId(s.effects, effectId) then None
    else Some(s.(counter := s.counter + 1,
                 effects := s.effects + [Effect(effectId, action, attemptNo, s.counter + 1)]))
  }

  function RunEffectAt(actionOf: string -> string, s: State, p: nat, outcome: Outcome): State {
    var l := At(s, p);
    if !l.GuardEffect? then s
    else
      match outcome
      case RaisesBefore => Goto(s, p, Idle)
      case Commits(id) =>
        (match ApplyEffect(s, actionOf(l.ref), l.attemptNo, id)
         case None => Goto(s, p, Idle)
         case Some(t) => Goto(t, p, GuardWrite(l.ref, id)))
      case CommitsThenRaises(id) =>
        (match ApplyEffect(s, actionOf(l.ref), l.attemptNo, id)
         case None => Goto(s, p, Idle)
         case Some(t) => Goto(t, p, Idle))
  }

  function StatementAt(s: State, p: nat): State {
    match At(s, p)
    case GuardRead(ref, n) =>
      if ref in s.records then OnRecord(s, p, ref, s.records[ref]) else Goto(s, p, GuardReserve(ref, n))
    case GuardReserve(ref, n) =>
      var (records, inserted) := ReserveRow(s.records, ref);
      Goto(s.(records := records), p, if inserted then GuardEffect(ref, n) else GuardReread(ref, n))
    case GuardReread(ref, n) =>
      if ref in s.records then OnRecord(s, p, ref, s.records[ref]) else Goto(s, p, Idle)
    case GuardWrite(ref, id) =>
      Return(s.(records := CommitRow(s.records, ref, id)), p, ref, id)
    case ReconcileRead(ref) =>
      Goto(s, p, if ref in s.records && s.records[ref].status.PENDING? then ReconcileObserve(ref) else Idle)
    case ReconcileWrite(ref, id) =>
      Return(s.(records := CommitRow(s.records, ref, id)), p, ref, id)
    case _ => s
  }

  function ObserveAt(actionOf: string -> string, s: State, p: nat, readable: bool): State {
    var l := At(s, p);
    if !l.ReconcileObserve? then s
    else
      var rows := Observed(s.effects, actionOf(l.ref));
      Goto(s, p, if readable && rows != [] then ReconcileWrite(l.ref, rows[0].effectId) else Idle)
  }

  /** One step of the system; a step that a process is not at changes nothing. */
  function Next(actionOf: string -> string, s: State, a: Action): State {
    match a
    case StartGuard(p, ref, n) => if At(s, p).Idle? then Goto(s, p, GuardRead(ref, n)) else s
    case StartReconcile(p, ref) => if At(s, p).Idle? then Goto(s, p, ReconcileRead(ref)) else s
    case Statement(p) => StatementAt(s, p)
    case RunEffect(p, outcome) => RunEffectAt(actionOf, s, p, outcome)
    case Observe(p, readable) => ObserveAt(actionOf, s, p, readable)
    case Crash(p) => Goto(s, p, Idle)
  }

  function Run(actionOf: string -> string, s: State, actions: seq<Action>): State
    decreases |actions|
  {
    if actions == [] then s else Run(actionOf, Next(actionOf, s, actions[0]), actions[1..])
  }

  // ------------------------------------------------------------------ invariant

  /** One reference per logical action. */
  ghost predicate Injective(actionOf: string -> string) {
    forall r, t | actionOf(r) == actionOf(t) :: r == t
  }

  /** The effect of this reference has been committed under this id. */
  predicate Done(actionOf: string -> string, s: State, ref: string, id: string) {
    exists i | 0 <= i < |s.effects| :: s.effects[i].action == actionOf(ref) && s.effects[i].effectId == id
  }

  predicate NoEffect(actionOf: string -> string, s: State, ref: string) {
    forall i | 0 <= i < |s.effects| :: s.effects[i].action != actionOf(ref)
  }

  predicate Owns(l: Local, ref: string) {
    (l.GuardEffect? || l.GuardWrite?) && l.ref == ref
  }

  predicate LocalOk(actionOf: string -> string, s: State, l: Local) {
    match l
    case GuardEffect(ref, _) => ref in s.records && s.records[ref].status.PENDING? && NoEffect(actionOf, s, ref)
    case GuardWrite(ref, id) => ref in s.records && Done(actionOf, s, ref, id)
    case ReconcileObserve(ref) => ref in s.records
    case ReconcileWrite(ref, id) => ref in s.records && Done(actionOf, s, ref, id)
    case _ => true
  }

  predicate RecordOk(actionOf: string -> string, s: State, ref: string)
    requires ref in s.records
  {
    var r := s.records[ref];
    if r.status.PENDING? then r.effectId.None?
    else r.effectId.Some? && Done(actionOf, s, ref, r.effectId.value)
  }

  /** No action has two effects. */
  predicate OncePerAction(effects: seq<Effect>) {
    forall i, j | 0 <= i < j < |effects| :: effects[i].action != effects[j].action
  }

  predicate Numbered(s: State) {
    s.counter == |s.effects| && forall i | 0 <= i < |s.effects| :: s.effects[i].counterAfter == i + 1
  }

  predicate ActionKnown(actionOf: string -> string, records: Records, action: string) {
    exists ref | ref in records :: actionOf(ref) == action
  }

  /** No reference is between its reservation and its commit in two processes. */
  ghost predicate SingleOwner(procs: map<nat, Local>) {
    forall p, q, ref | p in procs && q in procs && Owns(procs[p], ref) && Owns(procs[q], ref) :: p == q
  }

  ghost predicate Inv(actionOf: string -> string, s: State) {
    && Numbered(s)
    && OncePerAction(s.effects)
    && (forall i | 0 <= i < |s.effects| :: ActionKnown(actionOf, s.records, s.effects[i].action))
    && (forall ref | ref in s.records :: RecordOk(actionOf, s, ref))
    && (forall p | p in s.procs :: LocalOk(actionOf, s, s.procs[p]))
    && SingleOwner(s.procs)
    && (forall i | 0 <= i < |s.returned| :: ReturnedOk(actionOf, s, s.returned[i]))
  }

  /** What was handed to a caller is the committed record of an effect that exists. */
  predicate ReturnedOk(actionOf: string -> string, s: State, r: Returned) {
    && Done(actionOf, s, r.ref, r.effectId)
    && r.ref in s.records && s.records[r.ref] == Record(COMMITTED, Some(r.effectId))
  }

  // ------------------------------------------------------------------ every step keeps the invariant

  lemma SameDone(actionOf: string -> string, s: State, ref: string, id: string, other: string)
    requires OncePerAction(s.effects) && Done(actionOf, s, ref, id) && Done(actionOf, s, ref, other)
    ensures id == other
  {
    var i :| 0 <= i < |s.effects| && s.effects[i].action == actionOf(ref) && s.effects[i].effectId == id;
    var j :| 0 <= j < |s.effects| && s.effects[j].action == actionOf(ref) && s.effects[j].effectId == other;
    assert !(i < j) && !(j < i);
  }

  lemma OwnerStays(procs: map<nat, Local>, p: nat, l: Local)
    requires SingleOwner(procs)
    requires forall ref, q | Owns(l, ref) && q in procs && Owns(procs[q], ref) :: q == p
    ensures SingleOwner(procs[p := l])
  {
    var next := procs[p := l];
    forall a, b, ref | a in next && b in next && Owns(next[a], ref) && Owns(next[b], ref) ensures a == b {
      if a != p && b != p {
        assert Owns(procs[a], ref) && Owns(procs[b], ref);
      }
    }
  }

  /** Moving to a place that owns nothing keeps the invariant. */
  lemma GotoKeeps(actionOf: string -> string, s: State, p: nat, l: Local)
    requires Inv(actionOf, s) && LocalOk(actionOf, s, l) && !l.GuardEffect? && !l.GuardWrite?
    ensures Inv(actionOf, Goto(s, p, l))
  {
    var t := Goto(s, p, l);
    OwnerStays(s.procs, p, l);
    forall i | 0 <= i < |t.effects| ensures ActionKnown(actionOf, t.records, t.effects[i].action) {
      assert ActionKnown(actionOf, s.records, s.effects[i].action);
    }
    forall ref | ref in t.records ensures RecordOk(actionOf, t, ref) {
      assert RecordOk(actionOf, s, ref);
    }
    forall q | q in t.procs ensures LocalOk(actionOf, t, t.procs[q]) {
      assert q != p ==> LocalOk(actionOf, s, s.procs[q]);
    }
    forall i | 0 <= i < |t.returned| ensures ReturnedOk(actionOf, t, t.returned[i]) {
      assert ReturnedOk(actionOf, s, s.returned[i]);
    }
  }

  lemma ReturnKeeps(actionOf: string -> string, s: State, p: nat, ref: string, id: string)
    requires Inv(actionOf, s) && ReturnedOk(actionOf, s, Returned(ref, id))
    ensures Inv(actionOf, Return(s, p, ref, id))
  {
    GotoKeeps(actionOf, s, p, Idle);
    var g, t := Goto(s, p, Idle), Return(s, p, ref, id);
    forall r | r in t.records ensures RecordOk(actionOf, t, r) {
      assert RecordOk(actionOf, g, r);
    }
    forall q | q in t.procs ensures LocalOk(actionOf, t, t.procs[q]) {
      assert LocalOk(actionOf, g, g.procs[q]);
    }
    forall i | 0 <= i < |t.effects| ensures ActionKnown(actionOf, t.records, t.effects[i].action) {
      assert ActionKnown(actionOf, g.records, g.effects[i].action);
    }
    forall i | 0 <= i < |t.returned| ensures ReturnedOk(actionOf, t, t.returned[i]) {
      assert i < |s.returned| ==> ReturnedOk(actionOf, s, s.returned[i]);
    }
  }

  lemma OnRecordKeeps(actionOf: string -> string, s: State, p: nat, ref: string)
    requires Inv(actionOf, s) && ref in s.records
    ensures Inv(actionOf, OnRecord(s, p, ref, s.records[ref]))
  {
    assert RecordOk(actionOf, s, ref);
    if s.records[ref].status.COMMITTED? {
      ReturnKeeps(actionOf, s, p, ref, s.records[ref].effectId.value);
    } else {
      GotoKeeps(actionOf, s, p, Idle);
    }
  }

  /** Nothing has happened yet for a reference without a record. */
  lemma AbsentMeansUntouched(actionOf: string -> string, s: State, ref: string)
    requires Inv(actionOf, s) && Injective(actionOf) && ref !in s.records
    ensures NoEffect(actionOf, s, ref)
    ensures forall q | q in s.procs :: !Owns(s.procs[q], ref)
  {
    forall i | 0 <= i < |s.effects| ensures s.effects[i].action != actionOf(ref) {
      assert ActionKnown(actionOf, s.records, s.effects[i].action);
      var r :| r in s.records && actionOf(r) == s.effects[i].action;
    }
    forall q | q in s.procs ensures !Owns(s.procs[q], ref) {
      assert LocalOk(actionOf, s, s.procs[q]);
    }
  }

  lemma ReserveKeeps(actionOf: string -> string, s: State, p: nat, ref: string, attemptNo: int)
    requires Inv(actionOf, s) && Injective(actionOf) && ref !in s.records
    ensures Inv(actionOf, Goto(s.(records := s.records[ref := Record(PENDING, None)]), p, GuardEffect(ref, attemptNo)))
  {
    AbsentMeansUntouched(actionOf, s, ref);
    var t := Goto(s.(records := s.records[ref := Record(PENDING, None)]), p, GuardEffect(ref, attemptNo));
    OwnerStays(s.procs, p, GuardEffect(ref, attemptNo));
    forall i | 0 <= i < |t.effects| ensures ActionKnown(actionOf, t.records, t.effects[i].action) {
      assert ActionKnown(actionOf, s.records, s.effects[i].action);
      var r :| r in s.records && actionOf(r) == s.effects[i].action;
      assert r in t.records;
    }
    forall r | r in t.records ensures RecordOk(actionOf, t, r) {
      assert r != ref ==> RecordOk(actionOf, s, r);
    }
    forall q | q in t.procs ensures LocalOk(actionOf, t, t.procs[q]) {
      if q == p {
        assert NoEffect(actionOf, s, ref);
      } else {
        assert LocalOk(actionOf, s, s.procs[q]);
      }
    }
    forall i | 0 <= i < |t.returned| ensures ReturnedOk(actionOf, t, t.returned[i]) {
      assert ReturnedOk(actionOf, s, s.returned[i]);
    }
  }

  lemma CommitKeeps(actionOf: string -> string, s: State, p: nat, ref: string, id: string)
    requires Inv(actionOf, s) && ref in s.records && Done(actionOf, s, ref, id)
    ensures Inv(actionOf, s.(records := CommitRow(s.records, ref, id)))
    ensures s.records[ref].status.COMMITTED? ==> s.records[ref] == Record(COMMITTED, Some(id))
  {
    var t := s.(records := CommitRow(s.records, ref, id));
    assert RecordOk(actionOf, s, ref);
    if s.records[ref].status.COMMITTED? {
      SameDone(actionOf, s, ref, id, s.records[ref].effectId.value);
    }
    forall i | 0 <= i < |t.effects| ensures ActionKnown(actionOf, t.records, t.effects[i].action) {
      assert ActionKnown(actionOf, s.records, s.effects[i].action);
      var r :| r in s.records && actionOf(r) == s.effects[i].action;
      assert r in t.records;
    }
    forall r | r in t.records ensures RecordOk(actionOf, t, r) {
      assert r != ref ==> RecordOk(actionOf, s, r);
    }
    forall q | q in t.procs ensures LocalOk(actionOf, t, t.procs[q]) {
      assert LocalOk(actionOf, s, s.procs[q]);
    }
    forall i | 0 <= i < |t.returned| ensures ReturnedOk(actionOf, t, t.returned[i]) {
      assert ReturnedOk(actionOf, s, s.returned[i]);
    }
  }

  lemma DoneGrows(actionOf: string -> string, s: State, t: State, ref: string, id: string)
    requires Done(actionOf, s, ref, id) && s.effects <= t.effects
    ensures Done(actionOf, t, ref, id)
  {
    var i :| 0 <= i < |s.effects| && s.effects[i].action == actionOf(ref) && s.effects[i].effectId == id;
    assert t.effects[i] == s.effects[i];
  }

  /** The owner of a reference commits its effect: the first and only one of that action. */
  lemma EffectKeeps(actionOf: string -> string, s: State, p: nat, id: string, l: Local)
    requires Inv(actionOf, s) && Injective(actionOf) && At(s, p).GuardEffect?
    requires l == Idle || l == GuardWrite(At(s, p).ref, id)
    requires ApplyEffect(s, actionOf(At(s, p).ref), At(s, p).attemptNo, id).Some?
    ensures Inv(actionOf, Goto(ApplyEffect(s, actionOf(At(s, p).ref), At(s, p).attemptNo, id).value, p, l))
  {
    var ref := At(s, p).ref;
    var u := ApplyEffect(s, actionOf(ref), At(s, p).attemptNo, id).value;
    var t := Goto(u, p, l);
    OwnerStays(s.procs, p, l);
    assert LocalOk(actionOf, s, s.procs[p]);
    assert t.effects[|s.effects|].action == actionOf(ref) && t.effects[|s.effects|].effectId == id;
    forall i | 0 <= i < |t.effects| ensures ActionKnown(actionOf, t.records, t.effects[i].action) {
      if i < |s.effects| {
        assert ActionKnown(actionOf, s.records, s.effects[i].action);
      } else {
        assert ref in t.records;
      }
    }
    forall r | r in t.records ensures RecordOk(actionOf, t, r) {
      assert RecordOk(actionOf, s, r);
      if s.records[r].status.COMMITTED? {
        DoneGrows(actionOf, s, t, r, s.records[r].effectId.value);
      }
    }
    forall q | q in t.procs ensures LocalOk(actionOf, t, t.procs[q]) {
      if q != p {
        OtherProcessKeeps(actionOf, s, p, q, t);
      }
    }
    forall i | 0 <= i < |t.returned| ensures ReturnedOk(actionOf, t, t.returned[i]) {
      assert ReturnedOk(actionOf, s, s.returned[i]);
      DoneGrows(actionOf, s, t, s.returned[i].ref, s.returned[i].effectId);
    }
  }

  lemma OtherProcessKeeps(actionOf: string -> string, s: State, p: nat, q: nat, t: State)
    requires Inv(actionOf, s) && Injective(actionOf) && p in s.procs && q in s.procs && p != q
    requires s.procs[p].GuardEffect? && t.records == s.records
    requires s.effects <= t.effects && |t.effects| == |s.effects| + 1
    requires t.effects[|s.effects|].action == actionOf(s.procs[p].ref)
    ensures LocalOk(actionOf, t, s.procs[q])
  {
    assert LocalOk(actionOf, s, s.procs[q]);
    match s.procs[q]
    case GuardEffect(ref, _) =>
      assert Owns(s.procs[q], ref) && Owns(s.procs[p], s.procs[p].ref);
      assert ref != s.procs[p].ref;
    case GuardWrite(ref, id) => DoneGrows(actionOf, s, t, ref, id);
    case ReconcileWrite(ref, id) => DoneGrows(actionOf, s, t, ref, id);
    case _ =>
  }

  lemma RunEffectKeeps(actionOf: string -> string, s: State, p: nat, outcome: Outcome)
    requires Inv(actionOf, s) && Injective(actionOf)
    ensures Inv(actionOf, RunEffectAt(actionOf, s, p, outcome))
  {
    hide Inv, ApplyEffect, Goto, Injective;
    var l := At(s, p);
    if l.GuardEffect? {
      GotoKeeps(actionOf, s, p, Idle);
      match outcome
      case RaisesBefore =>
      case Commits(id) =>
        if ApplyEffect(s, actionOf(l.ref), l.attemptNo, id).Some? {
          EffectKeeps(actionOf, s, p, id, GuardWrite(l.ref, id));
        }
      case CommitsThenRaises(id) =>
        if ApplyEffect(s, actionOf(l.ref), l.attemptNo, id).Some? {
          EffectKeeps(actionOf, s, p, id, Idle);
        }
    }
  }

  lemma CommitAndReturnKeeps(actionOf: string -> string, s: State, p: nat, ref: string, id: string)
    requires Inv(actionOf, s) && ref in s.records && Done(actionOf, s, ref, id)
    ensures Inv(actionOf, Return(s.(records := CommitRow(s.records, ref, id)), p, ref, id))
  {
    CommitKeeps(actionOf, s, p, ref, id);
    ReturnKeeps(actionOf, s.(records := CommitRow(s.records, ref, id)), p, ref, id);
  }

  lemma StatementKeeps(actionOf: string -> string, s: State, p: nat)
    requires Inv(actionOf, s) && Injective(actionOf)
    ensures Inv(actionOf, StatementAt(s, p))
  {
    assert p in s.procs ==> LocalOk(actionOf, s, s.procs[p]);
    hide Inv, Goto, Injective, OnRecord, Return, CommitRow;
    match At(s, p)
    case GuardRead(ref, n) =>
      if ref in s.records {
        OnRecordKeeps(actionOf, s, p, ref);
      } else {
        GotoKeeps(actionOf, s, p, GuardReserve(ref, n));
      }
    case GuardReserve(ref, n) =>
      if ref in s.records {
        GotoKeeps(actionOf, s, p, GuardReread(ref, n));
      } else {
        ReserveKeeps(actionOf, s, p, ref, n);
      }
    case GuardReread(ref, n) =>
      if ref in s.records {
        OnRecordKeeps(actionOf, s, p, ref);
      } else {
        GotoKeeps(actionOf, s, p, Idle);
      }
    case GuardWrite(ref, id) => CommitAndReturnKeeps(actionOf, s, p, ref, id);
    case ReconcileRead(ref) =>
      GotoKeeps(actionOf, s, p,
                if ref in s.records && s.records[ref].status.PENDING? then ReconcileObserve(ref) else Idle);
    case ReconcileWrite(ref, id) => CommitAndReturnKeeps(actionOf, s, p, ref, id);
    case _ =>
  }

  lemma ObserveKeeps(actionOf: string -> string, s: State, p: nat, readable: bool)
    requires Inv(actionOf, s)
    ensures Inv(actionOf, ObserveAt(actionOf, s, p, readable))
  {
    assert p in s.procs ==> LocalOk(actionOf, s, s.procs[p]);
    var l := At(s, p);
    hide Inv, Goto;
    if l.ReconcileObserve? {
      var rows := Observed(s.effects, actionOf(l.ref));
      if readable && rows != [] {
        assert rows[0] in s.effects;
        var i :| 0 <= i < |s.effects| && s.effects[i] == rows[0];
        GotoKeeps(actionOf, s, p, ReconcileWrite(l.ref, rows[0].effectId));
      } else {
        GotoKeeps(actionOf, s, p, Idle);
      }
    }
  }

  lemma NextKeeps(actionOf: string -> string, s: State, a: Action)
    requires Inv(actionOf, s) && Injective(actionOf)
    ensures Inv(actionOf, Next(actionOf, s, a))
  {
    hide Inv, Goto, Injective, StatementAt, RunEffectAt, ObserveAt;
    match a
    case StartGuard(p, ref, n) => GotoKeeps(actionOf, s, p, GuardRead(ref, n));
    case StartReconcile(p, ref) => GotoKeeps(actionOf, s, p, ReconcileRead(ref));
    case Statement(p) => StatementKeeps(actionOf, s, p);
    case RunEffect(p, outcome) => RunEffectKeeps(actionOf, s, p, outcome);
    case Observe(p, readable) => ObserveKeeps(actionOf, s, p, readable);
    case Crash(p) => GotoKeeps(actionOf, s, p, Idle);
  }

  lemma {:induction false} RunKeeps(actionOf: string -> string, s: State, actions: seq<Action>)
    requires Inv(actionOf, s) && Injective(actionOf)
    ensures Inv(actionOf, Run(actionOf, s, actions))
    decreases |actions|
  {
    hide Inv, Injective, Next;
    if actions != [] {
      NextKeeps(actionOf, s, actions[0]);
      RunKeeps(actionOf, Next(actionOf, s, actions[0]), actions[1..]);
    }
  }

  // ------------------------------------------------------------------ main results

  lemma {:induction false} AtMostOneRow(effects: seq<Effect>, action: string)
    requires OncePerAction(effects)
    ensures |EffectsOf(effects, action)| <= 1
  {
    if effects != [] {
      assert OncePerAction(effects[1..]);
      AtMostOneRow(effects[1..], action);
      if effects[0].action == action {
        NoRows(effects[1..], action);
      }
    }
  }

  lemma {:induction false} NoRows(effects: seq<Effect>, action: string)
    requires forall i | 0 <= i < |effects| :: effects[i].action != action
    ensures EffectsOf(effects, action) == []
  {
    if effects != [] {
      NoRows(effects[1..], action);
    }
  }

  /**
   Whatever the processes do, in any interleaving and with crashes anywhere, each logical
   action has at most one effect, the counter counts the effects, and every effect_id handed to
   a caller or stored as committed is the id of the one effect of that reference.
   */
  lemma EffectAtMostOnce(actionOf: string -> string, actions: seq<Action>, action: string, ref: string)
    requires Injective(actionOf)
    ensures var s := Run(actionOf, Initial, actions);
            && |EffectsOf(s.effects, action)| <= 1
            && s.counter == |s.effects|
            && (ref in s.records && s.records[ref].status.COMMITTED? ==>
                  && s.records[ref].effectId.Some?
                  && Done(actionOf, s, ref, s.records[ref].effectId.value))
            && (forall i | 0 <= i < |s.returned| && s.returned[i].ref == ref ::
                  && ref in s.records && s.records[ref] == Record(COMMITTED, Some(s.returned[i].effectId))
                  && Done(actionOf, s, ref, s.returned[i].effectId))
  {
    assert Inv(actionOf, Initial);
    RunKeeps(actionOf, Initial, actions);
    var s := Run(actionOf, Initial, actions);
    AtMostOneRow(s.effects, action);
    assert ref in s.records ==> RecordOk(actionOf, s, ref);
    forall i | 0 <= i < |s.returned| && s.returned[i].ref == ref
      ensures ref in s.records && s.records[ref] == Record(COMMITTED, Some(s.returned[i].effectId))
      ensures Done(actionOf, s, ref, s.returned[i].effectId)
    {
      assert ReturnedOk(actionOf, s, s.returned[i]);
    }
  }

  /** A record appears as PENDING, and once COMMITTED it never changes. */
  predicate Advances(before: Records, after: Records) {
    && (forall ref | ref in before :: ref in after && (before[ref].status.PENDING? || after[ref] == before[ref]))
    && (forall ref | ref in after && ref !in before :: after[ref] == Record(PENDING, None))
  }

  lemma StepAdvances(actionOf: string -> string, s: State, a: Action)
    requires Inv(actionOf, s)
    ensures Advances(s.records, Next(actionOf, s, a).records)
  {
    if a.Statement? && a.p in s.procs {
      var l := s.procs[a.p];
      assert LocalOk(actionOf, s, l);
      if l.GuardWrite? || l.ReconcileWrite? {
        CommitKeeps(actionOf, s, a.p, l.ref, l.effectId);
      }
    }
  }

  /** Along every run a record moves only from absent to PENDING to COMMITTED. */
  lemma {:induction false} CommittedForever(actionOf: string -> string, s: State, actions: seq<Action>, ref: string)
    requires Inv(actionOf, s) && Injective(actionOf) && ref in s.records
    ensures var t := Run(actionOf, s, actions);
            ref in t.records && (s.records[ref].status.COMMITTED? ==> t.records[ref] == s.records[ref])
    decreases |actions|
  {
    hide Inv, Injective, Next;
    if actions != [] {
      StepAdvances(actionOf, s, actions[0]);
      NextKeeps(actionOf, s, actions[0]);
      CommittedForever(actionOf, Next(actionOf, s, actions[0]), actions[1..], ref);
    }
  }

  // ------------------------------------------------------------------ one call, uninterrupted

  /** guard() executed by one process without interruption; steps after its return do nothing. */
  function GuardCall(p: nat, ref: string, attemptNo: int, outcome: Outcome): seq<Action> {
    [StartGuard(p, ref, attemptNo), Statement(p), Statement(p), RunEffect(p, outcome), Statement(p)]
  }

  /** reconcile() executed by one process without interruption. */
  function ReconcileCall(p: nat, ref: string, readable: bool): seq<Action> {
    [StartReconcile(p, ref), Statement(p), Observe(p, readable), Statement(p)]
  }

  lemma RunOne(actionOf: string -> string, s: State, a: Action, rest: seq<Action>)
    ensures Run(actionOf, s, [a] + rest) == Run(actionOf, Next(actionOf, s, a), rest)
  {
    assert ([a] + rest)[1..] == rest;
  }

  lemma RunGuardCall(actionOf: string -> string, s: State, p: nat, ref: string, attemptNo: int, outcome: Outcome)
    requires At(s, p).Idle?
    ensures Run(actionOf, s, GuardCall(p, ref, attemptNo, outcome)) ==
            StatementAt(RunEffectAt(actionOf, StatementAt(StatementAt(
              Goto(s, p, GuardRead(ref, attemptNo)), p), p), p, outcome), p)
  {
    hide StatementAt, RunEffectAt, Goto;
    var a, b, d := StartGuard(p, ref, attemptNo), Statement(p), RunEffect(p, outcome);
    var s1 := Next(actionOf, s, a);
    assert GuardCall(p, ref, attemptNo, outcome) == [a] + [b, b, d, b];
    RunOne(actionOf, s, a, [b, b, d, b]);
    assert [b, b, d, b] == [b] + [b, d, b];
    RunOne(actionOf, s1, b, [b, d, b]);
    assert [b, d, b] == [b] + [d, b];
    RunOne(actionOf, StatementAt(s1, p), b, [d, b]);
    assert [d, b] == [d] + [b];
    var s3 := StatementAt(StatementAt(s1, p), p);
    RunOne(actionOf, s3, d, [b]);
    assert [b] == [b] + [];
    RunOne(actionOf, RunEffectAt(actionOf, s3, p, outcome), b, []);
  }

  lemma RunReconcileCall(actionOf: string -> string, s: State, p: nat, ref: string, readable: bool)
    requires At(s, p).Idle?
    ensures Run(actionOf, s, ReconcileCall(p, ref, readable)) ==
            StatementAt(ObserveAt(actionOf, StatementAt(Goto(s, p, ReconcileRead(ref)), p), p, readable), p)
  {
    hide StatementAt, ObserveAt, Goto;
    var a, b, d := StartReconcile(p, ref), Statement(p), Observe(p, readable);
    var s1 := Next(actionOf, s, a);
    assert ReconcileCall(p, ref, readable) == [a] + [b, d, b];
    RunOne(actionOf, s, a, [b, d, b]);
    assert [b, d, b] == [b] + [d, b];
    RunOne(actionOf, s1, b, [d, b]);
    assert [d, b] == [d] + [b];
    RunOne(actionOf, StatementAt(s1, p), d, [b]);
    assert [b] == [b] + [];
    RunOne(actionOf, ObserveAt(actionOf, StatementAt(s1, p), p, readable), b, []);
  }

  /** A first call with a fresh effect id runs the effect and commits it. */
  lemma FirstCallCommits(actionOf: string -> string, s: State, p: nat, ref: string, attemptNo: int, id: string)
    requires At(s, p).Idle? && ref !in s.records && !KnownId(s.effects, id)
    ensures var t := Run(actionOf, s, GuardCall(p, ref, attemptNo, Commits(id)));
            && t.effects == s.effects + [Effect(id, actionOf(ref), attemptNo, s.counter + 1)]
            && t.records == s.records[ref := Record(COMMITTED, Some(id))]
            && t.returned == s.returned + [Returned(ref, id)]
            && At(t, p).Idle?
  {
    hide Run, GuardCall, KnownId;
    RunGuardCall(actionOf, s, p, ref, attemptNo, Commits(id));
  }

  // ------------------------------------------------------------------ every uninterrupted call, exactly

  /** Nothing but the place of a process has changed. */
  predicate SameTables(s: State, t: State) {
    t.records == s.records && t.counter == s.counter && t.effects == s.effects && t.returned == s.returned
  }

  /** A call for a committed reference returns the stored id and runs nothing. */
  lemma CommittedCallReturns(actionOf: string -> string, s: State, p: nat, ref: string, attemptNo: int, outcome: Outcome,
                             id: string)
    requires At(s, p).Idle? && ref in s.records && s.records[ref] == Record(COMMITTED, Some(id))
    ensures var t := Run(actionOf, s, GuardCall(p, ref, attemptNo, outcome));
            && t.records == s.records && t.counter == s.counter && t.effects == s.effects
            && t.returned == s.returned + [Returned(ref, id)] && At(t, p).Idle?
  {
    hide Run, GuardCall, KnownId;
    RunGuardCall(actionOf, s, p, ref, attemptNo, outcome);
  }

  /** A call for a pending reference changes nothing and returns nothing. */
  lemma PendingCallWaits(actionOf: string -> string, s: State, p: nat, ref: string, attemptNo: int, outcome: Outcome)
    requires At(s, p).Idle? && ref in s.records && s.records[ref].status.PENDING?
    ensures var t := Run(actionOf, s, GuardCall(p, ref, attemptNo, outcome)); SameTables(s, t) && At(t, p).Idle?
  {
    hide Run, GuardCall, KnownId;
    RunGuardCall(actionOf, s, p, ref, attemptNo, outcome);
  }

  /** A first call whose effect fails leaves its reference pending, with the effect or without it. */
  lemma FailedCallPends(actionOf: string -> string, s: State, p: nat, ref: string, attemptNo: int, outcome: Outcome)
    requires At(s, p).Idle? && ref !in s.records
    requires outcome.Commits? ==> KnownId(s.effects, outcome.effectId)
    ensures var t := Run(actionOf, s, GuardCall(p, ref, attemptNo, outcome));
            && t.records == s.records[ref := Record(PENDING, None)] && t.returned == s.returned && At(t, p).Idle?
            && if outcome.CommitsThenRaises? && !KnownId(s.effects, outcome.effectId)
               then t.effects == s.effects + [Effect(outcome.effectId, actionOf(ref), attemptNo, s.counter + 1)]
                    && t.counter == s.counter + 1
               else t.effects == s.effects && t.counter == s.counter
  {
    hide Run, GuardCall, KnownId;
    RunGuardCall(actionOf, s, p, ref, attemptNo, outcome);
  }

  /** Whoever finds the reference reserved after its own read answers from the record it reads again. */
  lemma RaceLoserObserves(actionOf: string -> string, s: State, p: nat, ref: string, attemptNo: int)
    requires At(s, p) == GuardReserve(ref, attemptNo) && ref in s.records
    ensures var t := Run(actionOf, s, [Statement(p), Statement(p)]);
            && t.records == s.records && t.counter == s.counter && t.effects == s.effects && At(t, p).Idle?
            && t.returned == s.returned + if s.records[ref].status.COMMITTED? && s.records[ref].effectId.Some?
                                          then [Returned(ref, s.records[ref].effectId.value)] else []
  {
    assert [Statement(p), Statement(p)] == [Statement(p)] + [Statement(p)] && [Statement(p)] == [Statement(p)] + [];
    RunOne(actionOf, s, Statement(p), [Statement(p)]);
    RunOne(actionOf, StatementAt(s, p), Statement(p), []);
  }

  /** The first effect of an action: none of it has a smaller attempt number. */
  predicate FirstEffect(effects: seq<Effect>, action: string, e: Effect) {
    && e in effects && e.action == action
    && forall f | f in effects && f.action == action :: e.attemptNo <= f.attemptNo
  }

  lemma ObservedFirst(effects: seq<Effect>, action: string)
    ensures var rows := Observed(effects, action);
            if rows == [] then forall e | e in effects :: e.action != action
            else FirstEffect(effects, action, rows[0])
  {
    var rows := Observed(effects, action);
    hide Observed;
    if rows != [] {
      assert rows[0] in rows;
      forall f | f in effects && f.action == action ensures rows[0].attemptNo <= f.attemptNo {
        assert multiset(rows)[f] == multiset(effects)[f];
        assert f in multiset(effects) && f in multiset(rows);
        var j :| 0 <= j < |rows| && rows[j] == f;
      }
    }
  }

  /** Whether reconcile can settle the reference: it is pending and its effect can be seen. */
  predicate Reconcilable(actionOf: string -> string, s: State, ref: string, readable: bool) {
    && ref in s.records && s.records[ref].status.PENDING? && readable
    && exists e :: e in s.effects && e.action == actionOf(ref)
  }

  /**
   reconcile commits a pending reference whose action has an effect, under the id of a first effect,
   which it returns; in every other case it changes nothing and returns nothing.
   */
  lemma ReconcileExactly(actionOf: string -> string, s: State, p: nat, ref: string, readable: bool)
    requires At(s, p).Idle?
    ensures var t := Run(actionOf, s, ReconcileCall(p, ref, readable));
            && At(t, p).Idle? && t.effects == s.effects && t.counter == s.counter
            && (!Reconcilable(actionOf, s, ref, readable) ==> SameTables(s, t))
            && (Reconcilable(actionOf, s, ref, readable) ==>
                  exists e :: FirstEffect(s.effects, actionOf(ref), e)
                              && t.records == s.records[ref := Record(COMMITTED, Some(e.effectId))]
                              && t.returned == s.returned + [Returned(ref, e.effectId)])
  {
    hide Run, ReconcileCall, KnownId, Observed, FirstEffect;
    RunReconcileCall(actionOf, s, p, ref, readable);
    ObservedFirst(s.effects, actionOf(ref));
    EffectSeen(s.effects, actionOf(ref));
  }

  lemma EffectSeen(effects: seq<Effect>, action: string)
    ensures Observed(effects, action) != [] ==> exists e :: e in effects && e.action == action
  {
    var rows := Observed(effects, action);
    if rows != [] {
      assert rows[0] in rows;
    }
  }

  /** The orphan: the effect has committed, and the call that ran it has died before saying so. */
  function OrphanRecovered(p: nat, ref: string, id: string, later: Outcome): seq<Action> {
    GuardCall(p, ref, 1, CommitsThenRaises(id)) + (ReconcileCall(p, ref, true) + GuardCall(p, ref, 2, later))
  }

  /** reconcile commits the orphan, and the retry after it returns its id without a second effect. */
  lemma OrphanIsRecovered(actionOf: string -> string, s: State, p: nat, ref: string, id: string, later: Outcome)
    requires At(s, p).Idle? && ref !in s.records && !KnownId(s.effects, id)
    requires forall e | e in s.effects :: e.action != actionOf(ref)
    ensures var t := Run(actionOf, s, OrphanRecovered(p, ref, id, later));
            && t.effects == s.effects + [Effect(id, actionOf(ref), 1, s.counter + 1)]
            && t.records == s.records[ref := Record(COMMITTED, Some(id))]
            && t.returned == s.returned + [Returned(ref, id), Returned(ref, id)]
  {
    hide Run, GuardCall, ReconcileCall, KnownId, Reconcilable, FirstEffect;
    var failed, healed, retry := GuardCall(p, ref, 1, CommitsThenRaises(id)), ReconcileCall(p, ref, true),
                                 GuardCall(p, ref, 2, later);
    RunAppend(actionOf, s, failed, healed + retry);
    FailedCallPends(actionOf, s, p, ref, 1, CommitsThenRaises(id));
    var one := Run(actionOf, s, failed);
    RunAppend(actionOf, one, healed, retry);
    OnlyEffect(s.effects, actionOf(ref), one.effects[|s.effects|]);
    ReconcileExactly(actionOf, one, p, ref, true);
    assert Reconcilable(actionOf, one, ref, true) by {
      OrphanReconcilable(actionOf, one, ref, one.effects[|s.effects|]);
    }
    var two := Run(actionOf, one, healed);
    CommittedCallReturns(actionOf, two, p, ref, 2, later, id);
    assert s.returned + [Returned(ref, id)] + [Returned(ref, id)] == s.returned + [Returned(ref, id), Returned(ref, id)];
  }

  lemma OrphanReconcilable(actionOf: string -> string, s: State, ref: string, e: Effect)
    requires ref in s.records && s.records[ref].status.PENDING? && e in s.effects && e.action == actionOf(ref)
    ensures Reconcilable(actionOf, s, ref, true)
  {}

  lemma OnlyEffect(effects: seq<Effect>, action: string, e: Effect)
    requires e.action == action && forall f | f in effects :: f.action != action
    ensures forall f :: FirstEffect(effects + [e], action, f) ==> f == e
  {}

  /** Two references for one action run its effect twice. */
  lemma TwoReferencesRunTwice(actionOf: string -> string, r: string, t: string)
    requires r != t && actionOf(r) == actionOf(t)
    ensures var s := Run(actionOf, Initial, GuardCall(1, r, 1, Commits("e")) + GuardCall(1, t, 1, Commits("f")));
            |EffectsOf(s.effects, actionOf(r))| == 2
  {
    hide Run, KnownId, GuardCall;
    var first, second := GuardCall(1, r, 1, Commits("e")), GuardCall(1, t, 1, Commits("f"));
    RunAppend(actionOf, Initial, first, second);
    NothingKnown("e");
    FirstCallCommits(actionOf, Initial, 1, r, 1, "e");
    var s := Run(actionOf, Initial, first);
    OnlyKnown(s.effects, "e", "f");
    FirstCallCommits(actionOf, s, 1, t, 1, "f");
    TwoRows(Run(actionOf, s, second).effects, actionOf(r));
  }

  lemma TwoRows(effects: seq<Effect>, action: string)
    requires |effects| == 2 && effects[0].action == effects[1].action == action
    ensures |EffectsOf(effects, action)| == 2
  {
    assert EffectsOf(effects[1..], action) == [effects[1]];
  }

  /** Why one reference per logical action is assumed: at most one effect holds in all runs exactly then. */
  lemma AtMostOnceExactly(actionOf: string -> string)
    ensures (forall actions, action :: |EffectsOf(Run(actionOf, Initial, actions).effects, action)| <= 1)
            <==> Injective(actionOf)
  {
    hide Run, EffectsOf;
    if Injective(actionOf) {
      forall actions, action ensures |EffectsOf(Run(actionOf, Initial, actions).effects, action)| <= 1 {
        EffectAtMostOnce(actionOf, actions, action, "");
      }
    } else {
      var r, t :| actionOf(r) == actionOf(t) && r != t;
      TwoReferencesRunTwice(actionOf, r, t);
    }
  }

  lemma NothingKnown(id: string)
    ensures !KnownId([], id)
  {}

  lemma OnlyKnown(effects: seq<Effect>, id: string, other: string)
    requires |effects| == 1 && effects[0].effectId == id && |id| == |other| == 1 && id[0] != other[0]
    ensures !KnownId(effects, other)
  {}

  lemma {:induction false} RunAppend(actionOf: string -> string, s: State, a: seq<Action>, b: seq<Action>)
    ensures Run(actionOf, s, a + b) == Run(actionOf, Run(actionOf, s, a), b)
    decreases |a|
  {
    hide Next;
    if a == [] {
      assert a + b == b;
    } else {
      assert (a + b)[1..] == a[1..] + b;
      RunAppend(actionOf, Next(actionOf, s, a[0]), a[1..], b);
    }
  }
}
