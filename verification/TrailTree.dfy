/** get_trail_graph: the climb to the topmost trail and the tree below it. */
module TrailTree {
  import opened Python
  import opened TrailGraph

  // ------------------------------------------------------------------ the climb

  /** The row n parents above row i, if there are that many. */
  function Climb(table: Table, i: nat, n: nat): (r: Option<nat>)
    requires i < |table|
    ensures r.Some? ==> r.value < |table|
    decreases n
  {
    if n == 0 then Some(i)
    else if ParentOf(table, i).None? then None
    else Climb(table, ParentOf(table, i).value, n - 1)
  }

  /** The climb from row i ends: it cannot take a step for every row of the table. */
  predicate Ends(table: Table, i: nat)
    requires i < |table|
  {
    Climb(table, i, |table|).None?
  }

  /** How many of the first n steps up there are. */
  function Parents(table: Table, i: nat, n: nat): nat
    requires i < |table|
    decreases n
  {
    if n == 0 || ParentOf(table, i).None? then 0 else 1 + Parents(table, ParentOf(table, i).value, n - 1)
  }

  /** The number of rows above a row from which the climb ends. */
  function Rank(table: Table, i: nat): nat
    requires i < |table|
  {
    Parents(table, i, |table|)
  }

  /** A climb that has ended has a fixed length. */
  lemma {:induction false} ClimbEnded(table: Table, i: nat, n: nat, m: nat)
    requires i < |table| && Climb(table, i, n).None? && Parents(table, i, n) < m
    ensures Parents(table, i, n) < n
    ensures Climb(table, i, m).None? && Parents(table, i, m) == Parents(table, i, n)
    decreases n
  {
    if ParentOf(table, i).Some? {
      ClimbEnded(table, ParentOf(table, i).value, n - 1, m - 1);
    }
  }

  lemma {:induction false} ClimbShort(table: Table, i: nat, n: nat)
    requires i < |table| && Climb(table, i, n).None?
    ensures Parents(table, i, n) < n
    decreases n
  {
    if ParentOf(table, i).Some? {
      ClimbShort(table, ParentOf(table, i).value, n - 1);
    }
  }

  /** The rows of a climb that ends. */
  function Line(table: Table, i: nat, n: nat): set<nat>
    requires i < |table|
    decreases n
  {
    if n == 0 || ParentOf(table, i).None? then {i} else {i} + Line(table, ParentOf(table, i).value, n - 1)
  }

  /** From a row of the line the climb is shorter, except from its first. */
  lemma {:induction false} LineShortens(table: Table, i: nat, n: nat, x: nat)
    requires i < |table| && Climb(table, i, n).None? && x in Line(table, i, n)
    ensures x < |table| && Climb(table, x, n).None? && Parents(table, x, n) <= Parents(table, i, n)
    ensures x != i ==> Parents(table, x, n) < Parents(table, i, n)
    decreases n
  {
    if x != i {
      var p := ParentOf(table, i).value;
      LineShortens(table, p, n - 1, x);
      ClimbShort(table, x, n - 1);
      ClimbEnded(table, x, n - 1, n);
    }
  }

  lemma {:induction false} LineCount(table: Table, i: nat, n: nat)
    requires i < |table| && Climb(table, i, n).None?
    ensures |Line(table, i, n)| == Parents(table, i, n) + 1
    decreases n
  {
    if ParentOf(table, i).Some? {
      var p := ParentOf(table, i).value;
      LineCount(table, p, n - 1);
      if i in Line(table, p, n - 1) {
        LineShortens(table, p, n - 1, i);
        ClimbShort(table, i, n - 1);
        ClimbEnded(table, i, n - 1, n);
      }
    }
  }

  function Below(n: nat): (r: set<nat>)
    ensures |r| == n && forall k: nat :: k in r <==> k < n
  {
    if n == 0 then {} else Below(n - 1) + {n - 1}
  }

  lemma SubsetCount(a: set<nat>, b: set<nat>)
    requires a <= b
    ensures |a| <= |b|
  {
    assert b == a + (b - a);
  }

  /** A climb that ends at all has fewer steps than the table has rows. */
  lemma ClimbBound(table: Table, i: nat, n: nat)
    requires i < |table| && Climb(table, i, n).None?
    ensures Parents(table, i, n) < |table| && Ends(table, i) && Rank(table, i) == Parents(table, i, n)
  {
    hide Climb, Parents, Line;
    forall x | x in Line(table, i, n) ensures x in Below(|table|) {
      LineShortens(table, i, n, x);
    }
    SubsetCount(Line(table, i, n), Below(|table|));
    LineCount(table, i, n);
    ClimbEnded(table, i, n, |table|);
  }

  /** Either the climb ends, or it takes any number of steps: the loop of the source does not return. */
  lemma EndsExactly(table: Table, i: nat)
    requires i < |table|
    ensures Ends(table, i) <==> !forall n: nat :: Climb(table, i, n).Some?
  {
    hide Climb;
    if n: nat :| Climb(table, i, n).None? {
      ClimbBound(table, i, n);
    }
  }

  /** With the climb from a row the climb from its parent ends, one step earlier, and conversely. */
  lemma ParentEnds(table: Table, i: nat)
    requires i < |table| && ParentOf(table, i).Some?
    ensures var p := ParentOf(table, i).value;
            (Ends(table, i) <==> Ends(table, p)) && (Ends(table, i) ==> Rank(table, i) == Rank(table, p) + 1 < |table|)
  {
    var p, n := ParentOf(table, i).value, |table|;
    assert Climb(table, i, n + 1) == Climb(table, p, n) && Climb(table, i, n) == Climb(table, p, n - 1);
    assert Parents(table, i, n) == 1 + Parents(table, p, n - 1);
    hide Climb, Parents;
    if Ends(table, i) {
      ClimbBound(table, p, n - 1);
      ClimbBound(table, i, n);
    }
    if Ends(table, p) {
      ClimbBound(table, i, n + 1);
    }
  }

  /** In a table built with fresh ids every climb ends. */
  lemma {:induction false} BuiltEnds(table: Table, i: nat)
    requires Built(table) && i < |table|
    ensures Ends(table, i)
    decreases i
  {
    hide Built, Ends;
    if ParentOf(table, i).Some? {
      ParentEarlier(table, i);
      ParentEnds(table, i);
      BuiltEnds(table, ParentOf(table, i).value);
    } else {
      TopEnds(table, i);
    }
  }

  /** On a table built by record_trail with fresh ids, get_trail_graph returns for every id. */
  lemma BuiltReturns(table: Table, trailId: string)
    requires Built(table)
    ensures Keyed(table) && var i := IndexOf(table, trailId); i.Some? ==> Ends(table, i.value)
  {
    hide Built, Ends;
    BuiltKeyed(table);
    if IndexOf(table, trailId).Some? {
      BuiltEnds(table, IndexOf(table, trailId).value);
    }
  }

  lemma TopEnds(table: Table, i: nat)
    requires i < |table| && ParentOf(table, i).None?
    ensures Ends(table, i)
  {}

  /** The topmost row reached by parents that are in the table. */
  function RootOf(table: Table, i: nat): (r: nat)
    requires i < |table| && Ends(table, i)
    ensures r < |table| && ParentOf(table, r).None? && Ends(table, r)
    decreases Rank(table, i)
  {
    if ParentOf(table, i).Some? then
      ParentEnds(table, i);
      RootOf(table, ParentOf(table, i).value)
    else i
  }

  // ------------------------------------------------------------------ the tree

  datatype Node = Node(
    trailId: string, agentId: string, karmaAtTime: Option<int>, parentTrailId: Option<string>, children: seq<Node>)

  predicate Within(kids: seq<nat>, n: int) {
    forall j | 0 <= j < |kids| :: kids[j] < n
  }

  /** The rows below n that name an id as their parent, in table order. */
  function Kids(table: Table, id: string, n: nat): (r: seq<nat>)
    requires n <= |table|
    ensures |r| <= n
    ensures Within(r, n)
    ensures forall j | 0 <= j < |r| :: table[r[j]].parentTrailId == Some(id)
  {
    if n == 0 then []
    else Kids(table, id, n - 1) + (if table[n - 1].parentTrailId == Some(id) then [n - 1] else [])
  }

  /** These are rows one step below row i. */
  predicate OneBelow(table: Table, kids: seq<nat>, i: nat)
    requires i < |table|
  {
    && Within(kids, |table|)
    && forall j | 0 <= j < |kids| :: Ends(table, kids[j]) && Rank(table, i) < Rank(table, kids[j]) < |table|
  }

  lemma NamesIsParent(table: Table, a: nat, c: nat)
    requires Keyed(table) && a < |table| && c < |table|
    ensures table[c].parentTrailId == Some(table[a].trailId) <==> ParentOf(table, c) == Some(a)
  {
    IndexOfId(table, a);
  }

  lemma KidsBelow(table: Table, i: nat)
    requires Keyed(table) && i < |table| && Ends(table, i)
    ensures OneBelow(table, Kids(table, table[i].trailId, |table|), i)
  {
    hide Keyed, Ends, Rank, ParentOf;
    var kids := Kids(table, table[i].trailId, |table|);
    forall j | 0 <= j < |kids| ensures Ends(table, kids[j]) && Rank(table, i) < Rank(table, kids[j]) < |table| {
      NamesIsParent(table, i, kids[j]);
      ParentEnds(table, kids[j]);
    }
  }

  lemma RankBound(table: Table, i: nat)
    requires i < |table| && Ends(table, i)
    ensures Rank(table, i) < |table|
  {
    ClimbBound(table, i, |table|);
  }

  /** _build_node */
  function Tree(table: Table, i: nat): Node
    requires Keyed(table) && i < |table| && Ends(table, i)
    decreases |table| - Rank(table, i), |table| + 1
  {
    var row := table[i];
    KidsBelow(table, i);
    RankBound(table, i);
    Node(row.trailId, row.agentId, row.karmaAtTime, row.parentTrailId,
         Forest(table, Kids(table, row.trailId, |table|), i))
  }

  function Forest(table: Table, kids: seq<nat>, i: nat): (r: seq<Node>)
    requires Keyed(table) && i < |table| && |kids| <= |table| && OneBelow(table, kids, i)
    ensures |r| == |kids|
    decreases |table| - Rank(table, i), |kids|
  {
    if kids == [] then []
    else
      var n := |kids| - 1;
      Forest(table, kids[..n], i) + [Tree(table, kids[n])]
  }

  /** On a table in which the climb from the trail does not end, neither does the source's loop. */
  method GetTrailGraph(table: Table, trailId: string) returns (root: Option<Node>)
    requires Keyed(table)
    requires var i := IndexOf(table, trailId); i.Some? ==> Ends(table, i.value)
    ensures root == match IndexOf(table, trailId)
                    case None => None
                    case Some(i) => Some(Tree(table, RootOf(table, i)))
  {
    hide Ends, Rank, Tree;
    var start := IndexOf(table, trailId);
    if start.None? {
      return None;
    }
    var current: nat := start.value;
    while Given(table[current].parentTrailId)
      invariant 0 <= current < |table| && Ends(table, current)
      invariant RootOf(table, current) == RootOf(table, start.value)
      decreases Rank(table, current)
    {
      var parent := IndexOf(table, table[current].parentTrailId.value);
      if parent.None? {
        break;
      }
      ParentEnds(table, current);
      current := parent.value;
    }
    return Some(Tree(table, current));
  }

  // ------------------------------------------------------------------ what the tree lists

  /** How often a tree lists an id. */
  function Times(node: Node, id: string): nat {
    (if node.trailId == id then 1 else 0) + TimesAll(node.children, id)
  }

  function TimesAll(nodes: seq<Node>, id: string): nat {
    if nodes == [] then 0
    else
      var n := |nodes| - 1;
      TimesAll(nodes[..n], id) + Times(nodes[n], id)
  }

  /** Row a is row k, its parent, its parent's parent, and so on. */
  predicate Above(table: Table, a: nat, k: nat)
    requires a < |table| && k < |table| && Ends(table, k)
    decreases Rank(table, k)
  {
    a == k
    || (ParentOf(table, k).Some? && (ParentEnds(table, k); Above(table, a, ParentOf(table, k).value)))
  }

  lemma {:induction false} AboveRank(table: Table, a: nat, k: nat)
    requires a < |table| && k < |table| && Ends(table, k) && Above(table, a, k)
    ensures Ends(table, a) && Rank(table, a) <= Rank(table, k) && (Rank(table, a) == Rank(table, k) ==> a == k)
    decreases Rank(table, k)
  {
    hide Ends, Rank;
    if a != k {
      ParentEnds(table, k);
      AboveRank(table, a, ParentOf(table, k).value);
    }
  }

  /** The child of a on the way down to k. */
  function Heir(table: Table, a: nat, k: nat): (c: nat)
    requires a < |table| && k < |table| && Ends(table, k) && a != k && Above(table, a, k)
    ensures c < |table|
    decreases Rank(table, k)
  {
    ParentEnds(table, k);
    if ParentOf(table, k) == Some(a) then k else Heir(table, a, ParentOf(table, k).value)
  }

  lemma {:induction false} HeirExactly(table: Table, a: nat, k: nat, c: nat)
    requires a < |table| && k < |table| && c < |table| && Ends(table, k) && a != k && Above(table, a, k)
    ensures ParentOf(table, c) == Some(a) && Above(table, c, k) <==> c == Heir(table, a, k)
    decreases Rank(table, k)
  {
    hide Ends, Rank, ParentOf;
    ParentEnds(table, k);
    if ParentOf(table, k) == Some(a) {
      if c != k && ParentOf(table, c) == Some(a) && Above(table, c, a) {
        ParentEnds(table, c);
        AboveRank(table, c, a);
      }
    } else {
      HeirExactly(table, a, ParentOf(table, k).value, c);
      NotItsOwnHeir(table, a, k, c);
    }
  }

  lemma NotItsOwnHeir(table: Table, a: nat, k: nat, c: nat)
    requires a < |table| && k < |table| && c < |table| && Ends(table, k) && a != k && Above(table, a, k)
    requires ParentOf(table, k) != Some(a)
    ensures ParentOf(table, k).Some? && Ends(table, ParentOf(table, k).value)
    ensures ParentOf(table, c) == Some(a) && Above(table, c, k) ==> Above(table, c, ParentOf(table, k).value)
    ensures Heir(table, a, k) == Heir(table, a, ParentOf(table, k).value)
    ensures Above(table, c, ParentOf(table, k).value) ==> Above(table, c, k)
  {
    hide Ends, Rank, ParentOf;
    ParentEnds(table, k);
  }

  lemma {:induction false} ChildAbove(table: Table, a: nat, k: nat, c: nat)
    requires a < |table| && k < |table| && c < |table| && Ends(table, k)
    requires ParentOf(table, c) == Some(a) && Above(table, c, k)
    ensures Above(table, a, k) && a != k
    decreases Rank(table, k)
  {
    hide Ends, Rank, ParentOf;
    AboveRank(table, c, k);
    ParentEnds(table, c);
    if c == k {
      AboveItself(table, a);
    } else {
      ParentEnds(table, k);
      ChildAbove(table, a, ParentOf(table, k).value, c);
    }
  }

  lemma AboveItself(table: Table, a: nat)
    requires a < |table| && Ends(table, a)
    ensures Above(table, a, a)
  {}

  /** The trail with this id is row a or below it. */
  predicate Lists(table: Table, a: nat, id: string)
    requires a < |table|
  {
    var k := IndexOf(table, id);
    k.Some? && Ends(table, k.value) && Above(table, a, k.value)
  }

  function Bit(b: bool): nat {
    if b then 1 else 0
  }

  function CountAbove(table: Table, kids: seq<nat>, id: string): nat
    requires Within(kids, |table|)
  {
    if kids == [] then 0
    else
      var n := |kids| - 1;
      CountAbove(table, kids[..n], id) + Bit(Lists(table, kids[n], id))
  }

  /** The heir of a towards an id stands among the rows below n. */
  predicate HeirBelow(table: Table, a: nat, n: int, id: string)
    requires a < |table|
  {
    var k := IndexOf(table, id);
    k.Some? && a != k.value && Ends(table, k.value) && Above(table, a, k.value) && Heir(table, a, k.value) < n
  }

  lemma HeirStep(table: Table, a: nat, c: nat, id: string)
    requires a < |table| && c < |table|
    ensures Bit(HeirBelow(table, a, c + 1, id)) ==
            Bit(HeirBelow(table, a, c, id)) + Bit(ParentOf(table, c) == Some(a) && Lists(table, c, id))
  {
    hide Ends, Above, Heir, ParentOf;
    if IndexOf(table, id).Some? && Ends(table, IndexOf(table, id).value) {
      var k := IndexOf(table, id).value;
      if a != k && Above(table, a, k) {
        HeirExactly(table, a, k, c);
      } else if ParentOf(table, c) == Some(a) && Above(table, c, k) {
        ChildAbove(table, a, k, c);
      }
    }
  }

  /** Of the children of a row, one leads down to each row below it. */
  lemma {:induction false} OneChildLeads(table: Table, a: nat, n: nat, id: string)
    requires Keyed(table) && a < |table| && n <= |table|
    ensures CountAbove(table, Kids(table, table[a].trailId, n), id) == Bit(HeirBelow(table, a, n, id))
    decreases n
  {
    hide Keyed, HeirBelow, Lists, ParentOf, CountAbove;
    if n == 0 {
      NoHeirYet(table, a, id);
    } else {
      OneChildLeads(table, a, n - 1, id);
      NamesIsParent(table, a, n - 1);
      LastKid(table, a, n, id);
      HeirStep(table, a, n - 1, id);
    }
  }

  lemma NoHeirYet(table: Table, a: nat, id: string)
    requires a < |table|
    ensures !HeirBelow(table, a, 0, id) && CountAbove(table, Kids(table, table[a].trailId, 0), id) == 0
  {
    hide Ends, Above, Heir;
  }

  lemma LastKid(table: Table, a: nat, n: nat, id: string)
    requires a < |table| && 0 < n <= |table|
    ensures CountAbove(table, Kids(table, table[a].trailId, n), id)
            == CountAbove(table, Kids(table, table[a].trailId, n - 1), id)
               + Bit(table[n - 1].parentTrailId == Some(table[a].trailId) && Lists(table, n - 1, id))
  {
    hide Lists;
    var kids := Kids(table, table[a].trailId, n - 1);
    assert kids + [] == kids;
    assert (kids + [n - 1])[..|kids|] == kids;
  }

  lemma RowListed(table: Table, a: nat, id: string)
    requires Keyed(table) && a < |table| && Ends(table, a)
    ensures Bit(Lists(table, a, id)) == Bit(table[a].trailId == id) + Bit(HeirBelow(table, a, |table|, id))
  {
    hide Keyed, Ends;
    IndexOfId(table, a);
    AboveItself(table, a);
  }

  /** A tree lists the rows below its root, each once, and nothing else. */
  lemma {:induction false} TreeTimes(table: Table, a: nat, id: string)
    requires Keyed(table) && a < |table| && Ends(table, a)
    ensures Times(Tree(table, a), id) == Bit(Lists(table, a, id))
    decreases |table| - Rank(table, a), |table| + 1
  {
    hide Keyed, Lists, HeirBelow, Ends, Rank, OneBelow;
    KidsBelow(table, a);
    RankBound(table, a);
    ForestTimes(table, Kids(table, table[a].trailId, |table|), a, id);
    OneChildLeads(table, a, |table|, id);
    RowListed(table, a, id);
  }

  lemma {:induction false} ForestTimes(table: Table, kids: seq<nat>, i: nat, id: string)
    requires Keyed(table) && i < |table| && |kids| <= |table| && OneBelow(table, kids, i)
    ensures TimesAll(Forest(table, kids, i), id) == CountAbove(table, kids, id)
    decreases |table| - Rank(table, i), |kids|
  {
    hide Keyed, Lists, Times, Tree, Ends, Rank;
    if kids != [] {
      var n := |kids| - 1;
      ForestTimes(table, kids[..n], i, id);
      TreeTimes(table, kids[n], id);
      var front := Forest(table, kids[..n], i);
      assert (front + [Tree(table, kids[n])])[..n] == front;
    }
  }

  // ------------------------------------------------------------------ the shape of the tree

  predicate Rising(rows: seq<nat>) {
    forall i, j | 0 <= i < j < |rows| :: rows[i] < rows[j]
  }

  /** The rows that name an id as their parent, all of them, in table order. */
  predicate ChildRows(table: Table, id: string, rows: seq<nat>) {
    && (forall j | 0 <= j < |rows| :: rows[j] < |table|)
    && Rising(rows)
    && (forall r: nat | r < |table| :: r in rows <==> table[r].parentTrailId == Some(id))
  }

  /** A node shows its row, and its children are the nodes of exactly the rows that name it as parent. */
  ghost predicate Mirrors(table: Table, node: Node)
    decreases node, 1
  {
    && IndexOf(table, node.trailId).Some?
    && (var row := table[IndexOf(table, node.trailId).value];
        node.agentId == row.agentId && node.karmaAtTime == row.karmaAtTime && node.parentTrailId == row.parentTrailId)
    && exists rows :: ChildRows(table, node.trailId, rows) && Nodes(table, rows, node.children)
  }

  ghost predicate Nodes(table: Table, rows: seq<nat>, nodes: seq<Node>)
    decreases nodes, 0
  {
    && |rows| == |nodes|
    && forall j | 0 <= j < |nodes| ::
         rows[j] < |table| && nodes[j].trailId == table[rows[j]].trailId && Mirrors(table, nodes[j])
  }

  lemma {:induction false} KidsAscend(table: Table, id: string, n: nat)
    requires n <= |table|
    ensures Rising(Kids(table, id, n))
    decreases n
  {
    if n > 0 {
      KidsAscend(table, id, n - 1);
      var rest := Kids(table, id, n - 1);
      assert forall i | 0 <= i < |rest| :: rest[i] < n - 1;
    }
  }

  lemma {:induction false} KidsAreRows(table: Table, id: string, n: nat, k: nat)
    requires k < n <= |table|
    ensures k in Kids(table, id, n) <==> table[k].parentTrailId == Some(id)
    decreases n
  {
    var last := if table[n - 1].parentTrailId == Some(id) then [n - 1] else [];
    assert Kids(table, id, n) == Kids(table, id, n - 1) + last;
    if k < n - 1 {
      KidsAreRows(table, id, n - 1, k);
    } else {
      var rest := Kids(table, id, n - 1);
      assert forall i | 0 <= i < |rest| :: rest[i] < n - 1;
    }
  }

  lemma {:induction false} ForestNodes(table: Table, kids: seq<nat>, i: nat)
    requires Keyed(table) && i < |table| && |kids| <= |table| && OneBelow(table, kids, i)
    ensures Nodes(table, kids, Forest(table, kids, i))
    decreases |table| - Rank(table, i), |kids|
  {
    hide Keyed, Mirrors, Tree, Ends, Rank;
    if kids != [] {
      var n := |kids| - 1;
      ForestNodes(table, kids[..n], i);
      TreeMirrors(table, kids[n]);
      TreeId(table, kids[n]);
    }
  }

  lemma TreeId(table: Table, i: nat)
    requires Keyed(table) && i < |table| && Ends(table, i)
    ensures Tree(table, i).trailId == table[i].trailId
  {}

  /** The tree shows each trail once as a node of its own row, under the node of its parent. */
  lemma {:induction false} TreeMirrors(table: Table, a: nat)
    requires Keyed(table) && a < |table| && Ends(table, a)
    ensures Mirrors(table, Tree(table, a))
    decreases |table| - Rank(table, a), |table| + 1
  {
    hide Keyed, Ends, Rank, OneBelow, Nodes, Forest, Kids;
    IndexOfId(table, a);
    KidsBelow(table, a);
    RankBound(table, a);
    KidsAscend(table, table[a].trailId, |table|);
    forall k: nat | k < |table|
      ensures k in Kids(table, table[a].trailId, |table|) <==> table[k].parentTrailId == Some(table[a].trailId)
    {
      KidsAreRows(table, table[a].trailId, |table|, k);
    }
    ForestNodes(table, Kids(table, table[a].trailId, |table|), a);
    assert ChildRows(table, table[a].trailId, Kids(table, table[a].trailId, |table|));
  }

  // ------------------------------------------------------------------ the graph of a trail

  lemma {:induction false} RootAbove(table: Table, r: nat, k: nat)
    requires r < |table| && k < |table| && Ends(table, k) && ParentOf(table, r).None?
    ensures Above(table, r, k) <==> RootOf(table, k) == r
    decreases Rank(table, k)
  {
    hide Ends, Rank, ParentOf;
    if ParentOf(table, k).Some? {
      ParentEnds(table, k);
      RootAbove(table, r, ParentOf(table, k).value);
    }
  }

  /**
   The graph of a trail lists exactly the trails with the same topmost ancestor, the trail itself
   among them, and each of them once.
   */
  lemma GraphListsFamily(table: Table, i: nat, id: string)
    requires Keyed(table) && i < |table| && Ends(table, i)
    ensures var k := IndexOf(table, id);
            Times(Tree(table, RootOf(table, i)), id)
            == Bit(k.Some? && Ends(table, k.value) && RootOf(table, k.value) == RootOf(table, i))
  {
    hide Keyed, Times, Tree, RootOf, Above, Ends;
    TreeTimes(table, RootOf(table, i), id);
    if IndexOf(table, id).Some? && Ends(table, IndexOf(table, id).value) {
      RootAbove(table, RootOf(table, i), IndexOf(table, id).value);
    }
  }
}
