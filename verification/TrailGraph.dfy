/** Parent chains of trails: recording, the walk of verify_chain and the tree of get_trail_graph. */
module TrailGraph {
  import opened Python
  import opened Bytes
  import opened Unicode

  // ------------------------------------------------------------------ the trails table

  datatype Row = Row(
    trailId: string, agentId: string, karmaAtTime: Option<int>, signatureRef: string,
    delegationRef: Option<string>, parentTrailId: Option<string>,
    negotiationRef: Option<string>, negotiationRefStatus: Option<string>)

  /** The rows in the order they were inserted. */
  type Table = seq<Row>

  /** trail_id is the primary key, and no uuid is empty. */
  predicate Keyed(table: Table) {
    && (forall i, j | 0 <= i < j < |table| :: table[i].trailId != table[j].trailId)
    && (forall i | 0 <= i < |table| :: table[i].trailId != "")
  }

  /** The first row with an id. */
  function IndexOf(table: Table, id: string): (r: Option<nat>)
    ensures r.Some? ==> r.value < |table| && table[r.value].trailId == id
    ensures r.None? ==> forall i | 0 <= i < |table| :: table[i].trailId != id
  {
    if table == [] then None
    else if table[0].trailId == id then Some(0)
    else
      match IndexOf(table[1..], id)
      case None => None
      case Some(i) => Some(i + 1)
  }

  /** get_trail_by_id */
  function GetTrailById(table: Table, id: string): Option<Row> {
    var i := IndexOf(table, id);
    if i.Some? then Some(table[i.value]) else None
  }

  function IdsOf(table: Table): set<string> {
    set i | 0 <= i < |table| :: table[i].trailId
  }

  /** Python's truth of an optional text. */
  predicate Given(s: Option<string>) {
    s.Some? && s.value != ""
  }

  predicate OccursAt(part: string, s: string, i: int) {
    0 <= i <= |s| - |part| && s[i..i + |part|] == part
  }

  /** Python's "in" on texts. */
  predicate Substring(part: string, s: string) {
    exists i | 0 <= i <= |s| :: OccursAt(part, s, i)
  }

  // ------------------------------------------------------------------ verify_chain

  datatype Reason = CYCLE_DETECTED | TRAIL_NOT_FOUND | MISSING_SIGNATURE_REF | DELEGATION_REF_PARENT_MISMATCH

  datatype Walk = Valid | Broken(at: string, reason: Reason)

  /** What is wrong with a row that was read. */
  function Offence(row: Row): Option<Reason> {
    if row.signatureRef == "" then Some(MISSING_SIGNATURE_REF)
    else if Given(row.parentTrailId) && Given(row.delegationRef)
            && !Substring(row.parentTrailId.value, row.delegationRef.value)
    then Some(DELEGATION_REF_PARENT_MISMATCH)
    else None
  }

  /** The id the walk goes to; "" ends it. */
  function NextId(row: Row): string {
    if row.parentTrailId.Some? then row.parentTrailId.value else ""
  }

  /** The walk from an id when some ids have been visited. */
  function VerifyFrom(table: Table, id: string, visited: set<string>): Walk
    decreases |IdsOf(table) - visited|
  {
    if id == "" then Valid
    else if id in visited then Broken(id, CYCLE_DETECTED)
    else
      match GetTrailById(table, id)
      case None => Broken(id, TRAIL_NOT_FOUND)
      case Some(row) =>
        if Offence(row).Some? then Broken(id, Offence(row).value)
        else
          Unvisited(table, id, visited);
          VerifyFrom(table, NextId(row), visited + {id})
  }

  lemma Unvisited(table: Table, id: string, visited: set<string>)
    requires id !in visited && GetTrailById(table, id).Some?
    ensures |IdsOf(table) - (visited + {id})| < |IdsOf(table) - visited|
  {
    var before, after := IdsOf(table) - visited, IdsOf(table) - (visited + {id});
    assert table[IndexOf(table, id).value].trailId in IdsOf(table);
    assert before == after + {id} && id !in after;
  }

  datatype Linkage = ABSENT | PRESENT | MALFORMED

  function LinkageOf(row: Row): Linkage {
    match row.negotiationRef
    case None => ABSENT
    case Some(ref) => if ref == "" then MALFORMED else PRESENT
  }

  datatype ChainReport = ChainReport(walk: Walk, linkage: Option<Linkage>, status: Option<string>)

  function ReportOf(table: Table, id: string): ChainReport {
    var walk := VerifyFrom(table, id, {});
    match GetTrailById(table, id)
    case None => ChainReport(walk, None, None)
    case Some(row) => ChainReport(walk, Some(LinkageOf(row)), row.negotiationRefStatus)
  }

  /** A report shows the walk, and of the trail itself its status and how it is linked to a negotiation. */
  lemma ReportShows(table: Table, id: string)
    ensures var report, row := ReportOf(table, id), GetTrailById(table, id);
            && report.walk == VerifyFrom(table, id, {})
            && (report.linkage.None? <==> row.None?)
            && (report.linkage == Some(ABSENT) <==> row.Some? && row.value.negotiationRef.None?)
            && (report.linkage == Some(MALFORMED) <==> row.Some? && row.value.negotiationRef == Some(""))
            && (report.status.Some? ==> row.Some? && report.status == row.value.negotiationRefStatus)
            && (row.Some? ==> report.status == row.value.negotiationRefStatus)
  {
    hide VerifyFrom;
  }

  method VerifyChain(table: Table, trailId: string) returns (report: ChainReport)
    ensures report == ReportOf(table, trailId)
  {
    var target := GetTrailById(table, trailId);
    var status := if target.Some? then target.value.negotiationRefStatus else None;
    var linkage := None;
    if target.Some? {
      if target.value.negotiationRef.None? {
        linkage := Some(ABSENT);
      } else if target.value.negotiationRef.value == "" {
        linkage := Some(MALFORMED);
      } else {
        linkage := Some(PRESENT);
      }
    }
    var visited: set<string> := {};
    var currentId := trailId;
    while currentId != ""
      invariant VerifyFrom(table, trailId, {}) == VerifyFrom(table, currentId, visited)
      decreases |IdsOf(table) - visited|
    {
      if currentId in visited {
        return ChainReport(Broken(currentId, CYCLE_DETECTED), linkage, status);
      }
      var trail := GetTrailById(table, currentId);
      if trail.None? {
        return ChainReport(Broken(currentId, TRAIL_NOT_FOUND), linkage, status);
      }
      if trail.value.signatureRef == "" {
        return ChainReport(Broken(currentId, MISSING_SIGNATURE_REF), linkage, status);
      }
      if Given(trail.value.parentTrailId) && Given(trail.value.delegationRef) {
        if !Substring(trail.value.parentTrailId.value, trail.value.delegationRef.value) {
          return ChainReport(Broken(currentId, DELEGATION_REF_PARENT_MISMATCH), linkage, status);
        }
      }
      Unvisited(table, currentId, visited);
      visited := visited + {currentId};
      currentId := if trail.value.parentTrailId.Some? then trail.value.parentTrailId.value else "";
    }
    return ChainReport(Valid, linkage, status);
  }

  // ------------------------------------------------------------------ the walk as a path

  /** A path of rows without offence, each naming the next as its parent, from one id to another. */
  predicate Leads(table: Table, id: string, path: seq<string>, end: string)
    decreases |path|
  {
    if path == [] then id == end
    else
      && path[0] == id && id != ""
      && GetTrailById(table, id).Some? && Offence(GetTrailById(table, id).value).None?
      && Leads(table, NextId(GetTrailById(table, id).value), path[1..], end)
  }

  predicate Distinct(path: seq<string>) {
    forall i, j | 0 <= i < j < |path| :: path[i] != path[j]
  }

  /** What stops a walk that has followed a path to an id. */
  function Stop(table: Table, path: seq<string>, at: string): Option<Reason> {
    if at in path then Some(CYCLE_DETECTED)
    else
      match GetTrailById(table, at)
      case None => Some(TRAIL_NOT_FOUND)
      case Some(row) => Offence(row)
  }

  function Members(path: seq<string>): set<string> {
    set x | x in path
  }

  /** Following a path of new ids gets the walk to its end with those ids visited. */
  lemma {:induction false} WalkAlong(table: Table, id: string, path: seq<string>, end: string, visited: set<string>)
    requires Leads(table, id, path, end) && Distinct(path) && Members(path) * visited == {}
    ensures VerifyFrom(table, id, visited) == VerifyFrom(table, end, visited + Members(path))
    decreases |path|
  {
    hide IdsOf, Offence, GetTrailById;
    if path == [] {
      assert visited + Members(path) == visited;
    } else {
      var next := NextId(GetTrailById(table, id).value);
      var rest := path[1..];
      assert path == [id] + rest;
      assert id in Members(path) && id !in visited && id !in rest;
      assert Members(rest) <= Members(path);
      assert Members(rest) * (visited + {id}) == {};
      WalkAlong(table, next, rest, end, visited + {id});
      assert visited + {id} + Members(rest) == visited + Members(path);
    }
  }

  /** The rows a walk passes before it ends. */
  lemma {:induction false} PathOf(table: Table, id: string, visited: set<string>)
      returns (path: seq<string>, end: string)
    ensures Leads(table, id, path, end) && Distinct(path) && Members(path) * visited == {}
    ensures VerifyFrom(table, id, visited) == VerifyFrom(table, end, visited + Members(path))
    ensures end == "" || end in visited + Members(path) || GetTrailById(table, end).None?
            || Offence(GetTrailById(table, end).value).Some?
    decreases |IdsOf(table) - visited|
  {
    if id == "" || id in visited || GetTrailById(table, id).None? || Offence(GetTrailById(table, id).value).Some? {
      path, end := [], id;
      assert visited + Members([]) == visited;
    } else {
      hide Offence, GetTrailById;
      Unvisited(table, id, visited);
      var rest: seq<string>;
      rest, end := PathOf(table, NextId(GetTrailById(table, id).value), visited + {id});
      path := [id] + rest;
      NewFirst(id, rest, visited);
    }
  }

  lemma NewFirst(id: string, rest: seq<string>, visited: set<string>)
    requires Distinct(rest) && Members(rest) * (visited + {id}) == {} && id !in visited
    ensures Distinct([id] + rest) && Members([id] + rest) * visited == {}
    ensures visited + {id} + Members(rest) == visited + Members([id] + rest)
    ensures ([id] + rest)[1..] == rest
  {
    assert id in rest ==> id in Members(rest) * (visited + {id});
    forall x | x in Members([id] + rest)
      ensures x !in visited
    {
      if x in rest {
        assert x in visited ==> x in Members(rest) * (visited + {id});
      }
    }
  }

  /** A walk that reaches its end never meets an id twice, because an id has one parent. */
  lemma {:induction false} EndedPathDistinct(table: Table, id: string, path: seq<string>)
    requires Leads(table, id, path, "")
    ensures Distinct(path)
    decreases |path|
  {
    if path != [] {
      var next := NextId(GetTrailById(table, id).value);
      EndedPathDistinct(table, next, path[1..]);
      forall j | 1 <= j < |path|
        ensures path[j] != path[0]
      {
        if path[j] == path[0] {
          LeadsFrom(table, id, path, "", j);
          OneLength(table, id, path, path[j..]);
        }
      }
      assert forall i, j | 1 <= i < j < |path| :: path[i] == path[1..][i - 1] && path[j] == path[1..][j - 1];
    }
  }

  lemma {:induction false} LeadsFrom(table: Table, id: string, path: seq<string>, end: string, j: nat)
    requires Leads(table, id, path, end) && j < |path|
    ensures Leads(table, path[j], path[j..], end)
    decreases j
  {
    if j == 0 {
      assert path[0..] == path;
    } else {
      LeadsFrom(table, NextId(GetTrailById(table, id).value), path[1..], end, j - 1);
      assert path[1..][j - 1..] == path[j..];
    }
  }

  lemma {:induction false} OneLength(table: Table, id: string, p: seq<string>, q: seq<string>)
    requires Leads(table, id, p, "") && Leads(table, id, q, "")
    ensures |p| == |q|
    decreases |p|
  {
    if p != [] && q != [] {
      OneLength(table, NextId(GetTrailById(table, id).value), p[1..], q[1..]);
    }
  }

  ghost predicate ReachesEnd(table: Table, id: string) {
    exists path :: Leads(table, id, path, "")
  }

  /** verify_chain says valid exactly when the parents lead, over sound rows only, to a row without parent. */
  lemma ValidExactly(table: Table, id: string)
    ensures VerifyFrom(table, id, {}) == Valid <==> ReachesEnd(table, id)
  {
    if ReachesEnd(table, id) {
      var path :| Leads(table, id, path, "");
      EndedPathDistinct(table, id, path);
      assert Members(path) * {} == {};
      WalkAlong(table, id, path, "", {});
    }
    var path, end := PathOf(table, id, {});
    if VerifyFrom(table, id, {}) == Valid {
      assert end == "";
    }
  }

  ghost predicate StopsAt(table: Table, id: string, at: string, reason: Reason) {
    exists path :: FirstStop(table, id, path, at, reason)
  }

  ghost predicate FirstStop(table: Table, id: string, path: seq<string>, at: string, reason: Reason) {
    Leads(table, id, path, at) && Distinct(path) && at != "" && Stop(table, path, at) == Some(reason)
  }

  /** Otherwise it names the first id of the walk that repeats, is missing, or has an offence, and says which. */
  lemma BrokenExactly(table: Table, id: string, at: string, reason: Reason)
    ensures VerifyFrom(table, id, {}) == Broken(at, reason) <==> StopsAt(table, id, at, reason)
  {
    hide Leads;
    if StopsAt(table, id, at, reason) {
      var path :| FirstStop(table, id, path, at, reason);
      assert Members(path) * {} == {} && {} + Members(path) == Members(path);
      WalkAlong(table, id, path, at, {});
    }
    var path, end := PathOf(table, id, {});
    assert {} + Members(path) == Members(path);
    if VerifyFrom(table, id, {}) == Broken(at, reason) {
      assert FirstStop(table, id, path, at, reason);
    }
  }

  // ------------------------------------------------------------------ record_trail

  const STATUSES: set<string> :=
    {"ok", "no_document", "not_allowlisted", "unreachable", "http_error", "empty_body", "malformed_empty"}

  /** What a caller submits. */
  datatype Trail = Trail(
    agentId: string, service: string, operation: string, nonce: string, karmaAtTime: Option<int>,
    delegationRef: Option<string>, parentTrailId: Option<string>,
    negotiationRef: Option<string>, negotiationRefStatus: Option<string>)

  predicate Admissible(t: Trail) {
    && t.agentId != "" && t.service != "" && t.operation != "" && t.nonce != ""
    && (t.negotiationRefStatus.None? || t.negotiationRefStatus.value in STATUSES)
  }

  function RowOf(h: HashFn, t: Trail, id: string): Row {
    Row(id, t.agentId, t.karmaAtTime, Hex(h(Utf8(t.nonce))), t.delegationRef, t.parentTrailId,
        t.negotiationRef, t.negotiationRefStatus)
  }

  /** An id no row has and none names as its parent, the new row included. */
  predicate FreshFor(table: Table, row: Row) {
    && row.trailId != "" && row.parentTrailId != Some(row.trailId)
    && forall i | 0 <= i < |table| :: table[i].trailId != row.trailId && table[i].parentTrailId != Some(row.trailId)
  }

  /** Every row was fresh when it was inserted. */
  ghost predicate Built(table: Table) {
    forall n | 0 <= n < |table| :: FreshFor(table[..n], table[n])
  }

  class TrailsTable {
    var rows: Table

    constructor ()
      ensures rows == [] && Built(rows)
    {
      rows := [];
    }

    /**
     record_trail with the id uuid4 gives and the answer of the rate limits.  A primary key that is
     taken fails the insert.
     */
    method RecordTrail(h: HashFn, t: Trail, id: string, withinLimits: bool) returns (r: Result<Option<string>>)
      modifies this
      ensures r == if !Admissible(t) || !withinLimits then Ok(None)
                   else if IndexOf(old(rows), id).Some? then Raise(RuntimeError)
                   else Ok(Some(id))
      ensures rows == if r != Ok(Some(id)) then old(rows)
                      else old(rows) + [Row(id, t.agentId, t.karmaAtTime, Hex(h(Utf8(t.nonce))), t.delegationRef,
                                            t.parentTrailId, t.negotiationRef, t.negotiationRefStatus)]
      ensures old(Built(rows)) && FreshFor(old(rows), RowOf(h, t, id)) ==> Built(rows)
    {
      if t.agentId == "" || t.service == "" || t.operation == "" || t.nonce == "" {
        return Ok(None);
      }
      if t.negotiationRefStatus.Some? && t.negotiationRefStatus.value !in STATUSES {
        return Ok(None);
      }
      if !withinLimits {
        return Ok(None);
      }
      if IndexOf(rows, id).Some? {
        return Raise(RuntimeError);
      }
      BuiltAppend(rows, RowOf(h, t, id));
      rows := rows + [RowOf(h, t, id)];
      return Ok(Some(id));
    }
  }

  lemma BuiltAppend(table: Table, row: Row)
    ensures Built(table + [row]) <==> Built(table) && FreshFor(table, row)
  {
    var more := table + [row];
    assert more[..|table|] == table;
    forall n | 0 <= n < |table|
      ensures more[..n] == table[..n] && more[n] == table[n]
    {}
    assert Built(more) ==> FreshFor(more[..|table|], more[|table|]);
    assert Built(more) ==> forall n | 0 <= n < |table| :: FreshFor(more[..n], more[n]);
  }

  // ------------------------------------------------------------------ parents in a built table

  function ParentOf(table: Table, i: nat): (r: Option<nat>)
    requires i < |table|
    ensures r.Some? ==> r.value < |table|
  {
    if Given(table[i].parentTrailId) then IndexOf(table, table[i].parentTrailId.value) else None
  }

  lemma BuiltPair(table: Table, i: nat, j: nat)
    requires Built(table) && i <= j < |table|
    ensures i < j ==> table[i].trailId != table[j].trailId
    ensures table[i].parentTrailId != Some(table[j].trailId) && table[j].trailId != ""
  {
    assert FreshFor(table[..j], table[j]);
    assert i < j ==> table[..j][i] == table[i];
  }

  /** In a built table a parent was inserted before its child. */
  lemma ParentEarlier(table: Table, i: nat)
    requires Built(table) && i < |table|
    ensures ParentOf(table, i).Some? ==> ParentOf(table, i).value < i
  {
    if ParentOf(table, i).Some? && i <= ParentOf(table, i).value {
      BuiltPair(table, i, ParentOf(table, i).value);
    }
  }

  lemma BuiltKeyed(table: Table)
    requires Built(table)
    ensures Keyed(table)
  {
    forall i, j | 0 <= i <= j < |table|
      ensures (i < j ==> table[i].trailId != table[j].trailId) && table[j].trailId != ""
    {
      BuiltPair(table, i, j);
    }
  }

  lemma IndexOfId(table: Table, i: nat)
    requires Keyed(table) && i < |table|
    ensures IndexOf(table, table[i].trailId) == Some(i)
  {}

  /** The ids of a walk were inserted ever earlier. */
  lemma {:induction false} WalkGoesBack(table: Table, id: string, path: seq<string>, end: string)
    requires Built(table) && Leads(table, id, path, end)
    ensures end in path ==> GetTrailById(table, end).Some? && IndexOf(table, end) != None
    ensures path != [] && IndexOf(table, end).Some? ==> IndexOf(table, end).value < IndexOf(table, id).value
    decreases |path|
  {
    if path != [] {
      var i := IndexOf(table, id).value;
      var next := NextId(table[i]);
      WalkGoesBack(table, next, path[1..], end);
      ParentEarlier(table, i);
      assert end in path ==> end == id || end in path[1..];
    }
  }

  /** A trail recorded with fresh ids is never reported as part of a cycle. */
  lemma NoCycle(table: Table, id: string, at: string)
    requires Built(table)
    ensures VerifyFrom(table, id, {}) != Broken(at, CYCLE_DETECTED)
  {
    hide Leads, VerifyFrom, Built;
    BrokenExactly(table, id, at, CYCLE_DETECTED);
    if StopsAt(table, id, at, CYCLE_DETECTED) {
      var path :| FirstStop(table, id, path, at, CYCLE_DETECTED);
      StopIsRepeat(table, path, at);
      var k :| 0 <= k < |path| && path[k] == at;
      LeadsFrom(table, id, path, at, k);
      WalkGoesBack(table, at, path[k..], at);
    }
  }

  lemma StopIsRepeat(table: Table, path: seq<string>, at: string)
    requires Stop(table, path, at) == Some(CYCLE_DETECTED)
    ensures at in path
  {}
}
