/**
 The workflow simulator of backend/controllers/automationController.js: a breadth-first walk over a
 user-supplied graph with duplicate queue entries, lazy marking of visited ids, and an early stop at
 the first `end` node or dangling id.  Nothing is required of the graph: ids may repeat (the first
 node with an id counts, as Array.find does), edges may dangle, cycles are allowed.
 */
module WorkflowSimulator {
  import opened Wrappers

  type Id = string
  datatype Node = Node(id: Id, nodeType: string, delaySeconds: Option<int>)
  datatype Edge = Edge(source: Id, target: Id, condition: Option<string>)
  datatype PathEntry = PathEntry(nodeId: Id, nodeType: Option<string>, condition: Option<string>)
  datatype Outcome = Outcome(name: string, probability: nat)
  const OUTCOMES := [Outcome("Complete", 85), Outcome("Requires Approval", 10), Outcome("Failed", 5)]
  datatype Warning = NoStartNode | NoOutgoingEdges(id: Id) | LongDelay(seconds: int)

  // ---------- lookups ----------

  function FindStart(nodes: seq<Node>): (r: Option<Node>)
    ensures r.Some? ==> exists i :: 0 <= i < |nodes| && nodes[i] == r.value && r.value.nodeType == "start"
                                    && forall j | 0 <= j < i :: nodes[j].nodeType != "start"
    ensures r.None? ==> forall n | n in nodes :: n.nodeType != "start"
  {
    if nodes == [] then None
    else if nodes[0].nodeType == "start" then Some(nodes[0])
    else
      var r := FindStart(nodes[1..]);
      assert r.Some? ==> exists i :: 0 < i < |nodes| && nodes[i] == r.value && r.value.nodeType == "start"
                                     && forall j | 0 <= j < i :: nodes[j].nodeType != "start" by {
        if r.Some? {
          var i :| 0 <= i < |nodes[1..]| && nodes[1..][i] == r.value && forall j | 0 <= j < i :: nodes[1..][j].nodeType != "start";
          assert nodes[i + 1] == r.value;
          assert forall j | 0 < j < i + 1 :: nodes[j] == nodes[1..][j - 1];
        }
      }
      r
  }

  function FindNode(nodes: seq<Node>, id: Id): (r: Option<Node>)
    ensures r.Some? ==> exists i :: 0 <= i < |nodes| && nodes[i] == r.value && r.value.id == id
                                    && forall j | 0 <= j < i :: nodes[j].id != id
    ensures r.None? ==> forall n | n in nodes :: n.id != id
  {
    if nodes == [] then None
    else if nodes[0].id == id then Some(nodes[0])
    else
      var r := FindNode(nodes[1..], id);
      assert r.Some? ==> exists i :: 0 < i < |nodes| && nodes[i] == r.value && r.value.id == id
                                     && forall j | 0 <= j < i :: nodes[j].id != id by {
        if r.Some? {
          var i :| 0 <= i < |nodes[1..]| && nodes[1..][i] == r.value && forall j | 0 <= j < i :: nodes[1..][j].id != id;
          assert nodes[i + 1] == r.value;
          assert forall j | 0 < j < i + 1 :: nodes[j] == nodes[1..][j - 1];
        }
      }
      r
  }

  function Outgoing(edges: seq<Edge>, id: Id): seq<Edge> {
    if edges == [] then []
    else (if edges[0].source == id then [edges[0]] else []) + Outgoing(edges[1..], id)
  }

  lemma {:induction false} OutgoingMembers(edges: seq<Edge>, id: Id)
    ensures forall e :: e in Outgoing(edges, id) <==> e in edges && e.source == id
  {
    if edges != [] {
      OutgoingMembers(edges[1..], id);
    }
  }

  // A walk stops at an id that no node carries, or at an `end` node.
  predicate Terminal(nodes: seq<Node>, id: Id) {
    var n := FindNode(nodes, id);
    n.None? || n.value.nodeType == "end"
  }

  // ---------- distances ----------

  // The ids at most n edges away from s.
  ghost function Within(edges: seq<Edge>, s: Id, n: nat): set<Id> {
    if n == 0 then {s}
    else
      var r := Within(edges, s, n - 1);
      r + (set e | e in edges && e.source in r :: e.target)
  }

  ghost predicate Reachable(edges: seq<Edge>, s: Id, x: Id) {
    exists n: nat :: x in Within(edges, s, n)
  }

  // x is no farther from s than y is.
  ghost predicate NoFarther(edges: seq<Edge>, s: Id, x: Id, y: Id) {
    forall n: nat :: y in Within(edges, s, n) ==> x in Within(edges, s, n)
  }

  ghost predicate Linked(edges: seq<Edge>, x: Id, y: Id) {
    exists e :: e in edges && e.source == x && e.target == y
  }

  ghost predicate IsWalk(edges: seq<Edge>, w: seq<Id>, s: Id, x: Id) {
    && |w| > 0 && w[0] == s && w[|w| - 1] == x
    && forall i | 0 < i < |w| :: Linked(edges, w[i - 1], w[i])
  }

  lemma {:induction false} WithinGrows(edges: seq<Edge>, s: Id, m: nat, n: nat)
    requires m <= n
    ensures Within(edges, s, m) <= Within(edges, s, n)
    decreases n - m
  {
    if m < n {
      WithinGrows(edges, s, m, n - 1);
    }
  }

  // Within counts edges along walks.
  lemma {:induction false} WithinIsWalks(edges: seq<Edge>, s: Id, x: Id, n: nat)
    ensures x in Within(edges, s, n) <==> exists w :: IsWalk(edges, w, s, x) && |w| <= n + 1
  {
    if x in Within(edges, s, n) {
      var w := WalkOf(edges, s, x, n);
    }
    forall w | IsWalk(edges, w, s, x) && |w| <= n + 1
      ensures x in Within(edges, s, n)
    {
      WalkIsWithin(edges, w, s, x);
      WithinGrows(edges, s, |w| - 1, n);
    }
  }

  lemma {:induction false} WalkOf(edges: seq<Edge>, s: Id, x: Id, n: nat) returns (w: seq<Id>)
    requires x in Within(edges, s, n)
    ensures IsWalk(edges, w, s, x) && |w| <= n + 1
    decreases n
  {
    if n == 0 {
      w := [s];
    } else if x in Within(edges, s, n - 1) {
      w := WalkOf(edges, s, x, n - 1);
    } else {
      var e :| e in edges && e.source in Within(edges, s, n - 1) && e.target == x;
      w := WalkOf(edges, s, e.source, n - 1);
      assert Linked(edges, w[|w| - 1], x);
      w := w + [x];
    }
  }

  lemma {:induction false} WalkIsWithin(edges: seq<Edge>, w: seq<Id>, s: Id, x: Id)
    requires IsWalk(edges, w, s, x)
    ensures x in Within(edges, s, |w| - 1)
    decreases |w|
  {
    if |w| > 1 {
      var v := w[..|w| - 1];
      forall i | 0 < i < |v|
        ensures Linked(edges, v[i - 1], v[i])
      {
        assert Linked(edges, w[i - 1], w[i]);
      }
      WalkIsWithin(edges, v, s, v[|v| - 1]);
      assert Linked(edges, w[|w| - 2], w[|w| - 1]);
    }
  }

  // Once the ids within d edges have all their successors among themselves, nothing else is reachable.
  lemma {:induction false} WithinFixpoint(edges: seq<Edge>, s: Id, c: set<Id>, n: nat)
    requires s in c
    requires forall e | e in edges && e.source in c :: e.target in c
    ensures Within(edges, s, n) <= c
  {
    if n > 0 {
      WithinFixpoint(edges, s, c, n - 1);
    }
  }

  // ---------- what the loop appends ----------

  function Elems(ids: seq<Id>): set<Id> { set x | x in ids }

  function Ids(path: seq<PathEntry>): (r: seq<Id>)
    ensures |r| == |path|
    ensures forall i | 0 <= i < |r| :: r[i] == path[i].nodeId
  {
    seq(|path|, i requires 0 <= i < |path| => path[i].nodeId)
  }

  lemma IdsAppend(a: seq<PathEntry>, b: seq<PathEntry>)
    ensures Ids(a + b) == Ids(a) + Ids(b)
  {
  }

  function EntryFor(nodes: seq<Node>, e: Edge): PathEntry {
    var n := FindNode(nodes, e.target);
    PathEntry(e.target, if n.Some? then Some(n.value.nodeType) else None, e.condition)
  }

  // One entry for each of the edges whose target has not been visited.
  function EntriesFor(nodes: seq<Node>, out: seq<Edge>, visited: set<Id>): (r: seq<PathEntry>)
    ensures |r| <= |out|
  {
    if out == [] then []
    else
      var e := out[|out| - 1];
      EntriesFor(nodes, out[..|out| - 1], visited) + (if e.target in visited then [] else [EntryFor(nodes, e)])
  }

  lemma {:induction false} EntriesForTargets(nodes: seq<Node>, out: seq<Edge>, visited: set<Id>)
    ensures forall x :: x in Ids(EntriesFor(nodes, out, visited)) <==> x !in visited && exists e :: e in out && e.target == x
  {
    if out != [] {
      var k := |out| - 1;
      EntriesForTargets(nodes, out[..k], visited);
      var r, r' := EntriesFor(nodes, out, visited), EntriesFor(nodes, out[..k], visited);
      assert out == out[..k] + [out[k]];
      if out[k].target in visited {
        assert r == r';
      } else {
        assert Ids(r) == Ids(r') + [out[k].target];
      }
    }
  }

  function WarningsFor(nodes: seq<Node>, edges: seq<Edge>, id: Id): seq<Warning> {
    (if Outgoing(edges, id) == [] then [NoOutgoingEdges(id)] else [])
    + (match FindNode(nodes, id)
       case Some(n) =>
         if n.nodeType == "delay" && n.delaySeconds.Some? && n.delaySeconds.value > 86400
         then [LongDelay(n.delaySeconds.value)] else []
       case None => [])
  }

  // The whole path, given the ids that were expanded, in order: an edge is recorded exactly when its
  // source is expanded while its target is neither expanded earlier nor the source itself.
  ghost function PathOf(nodes: seq<Node>, edges: seq<Edge>, start: Node, order: seq<Id>): seq<PathEntry> {
    if order == [] then [PathEntry(start.id, Some(start.nodeType), None)]
    else
      var k := |order| - 1;
      PathOf(nodes, edges, start, order[..k])
      + EntriesFor(nodes, Outgoing(edges, order[k]), Elems(order))
  }

  ghost function WarningsOf(nodes: seq<Node>, edges: seq<Edge>, order: seq<Id>): seq<Warning> {
    if order == [] then []
    else
      var k := |order| - 1;
      WarningsOf(nodes, edges, order[..k]) + WarningsFor(nodes, edges, order[k])
  }

  // First occurrences, in order.
  ghost function Distinct(ids: seq<Id>): (r: seq<Id>)
    ensures forall x :: x in r <==> x in ids
    ensures forall i, j | 0 <= i < j < |r| :: r[i] != r[j]
  {
    if ids == [] then []
    else
      var k := |ids| - 1;
      var r := Distinct(ids[..k]);
      if ids[k] in ids[..k] then r else r + [ids[k]]
  }

  function Weight(nodeType: Option<string>): nat {
    match nodeType
    case Some(t) =>
      if t == "delay" then 60 else if t == "notification" then 5
      else if t == "approval" then 3600 else if t == "task" then 1800 else 10
    case None => 10
  }

  function Duration(path: seq<PathEntry>): nat {
    if path == [] then 0
    else Duration(path[..|path| - 1]) + Weight(path[|path| - 1].nodeType)
  }

  // How many entries have the type, and how many none of the four that have a time of their own.
  function Typed(path: seq<PathEntry>, t: string): nat {
    |set i | 0 <= i < |path| && path[i].nodeType == Some(t)|
  }

  predicate HasTime(t: Option<string>) {
    t == Some("delay") || t == Some("notification") || t == Some("approval") || t == Some("task")
  }

  function Others(path: seq<PathEntry>): nat {
    |set i | 0 <= i < |path| && !HasTime(path[i].nodeType)|
  }

  lemma TypedAppend(path: seq<PathEntry>, p: PathEntry, t: string)
    ensures Typed(path + [p], t) == Typed(path, t) + if p.nodeType == Some(t) then 1 else 0
  {
    var a := set i | 0 <= i < |path| && path[i].nodeType == Some(t);
    var b := set i | 0 <= i < |path + [p]| && (path + [p])[i].nodeType == Some(t);
    assert b == a + if p.nodeType == Some(t) then {|path|} else {};
  }

  lemma OthersAppend(path: seq<PathEntry>, p: PathEntry)
    ensures Others(path + [p]) == Others(path) + if HasTime(p.nodeType) then 0 else 1
  {
    var a := set i | 0 <= i < |path| && !HasTime(path[i].nodeType);
    var b := set i | 0 <= i < |path + [p]| && !HasTime((path + [p])[i].nodeType);
    assert b == a + if HasTime(p.nodeType) then {} else {|path|};
  }

  // A minute for a delay, five seconds for a notification, an hour for an approval, half an hour for a task,
  // ten seconds for anything else.
  lemma {:induction false} DurationCounts(path: seq<PathEntry>)
    ensures Duration(path) == 60 * Typed(path, "delay") + 5 * Typed(path, "notification") + 3600 * Typed(path, "approval")
                              + 1800 * Typed(path, "task") + 10 * Others(path)
  {
    if path == [] {
      assert Duration(path) == 0;
    } else {
      var before, p := path[..|path| - 1], path[|path| - 1];
      assert path == before + [p];
      DurationCounts(before);
      hide Typed, Others;
      TypedAppend(before, p, "delay");
      TypedAppend(before, p, "notification");
      TypedAppend(before, p, "approval");
      TypedAppend(before, p, "task");
      OthersAppend(before, p);
    }
  }

  // ---------- the edge budget ----------

  ghost function EdgesFrom(edges: seq<Edge>, c: set<Id>): (r: nat)
    ensures r <= |edges|
  {
    if edges == [] then 0
    else (if edges[0].source in c then 1 else 0) + EdgesFrom(edges[1..], c)
  }

  lemma {:induction false} EdgesFromAdd(edges: seq<Edge>, c: set<Id>, x: Id)
    requires x !in c
    ensures EdgesFrom(edges, c + {x}) == EdgesFrom(edges, c) + |Outgoing(edges, x)|
  {
    if edges != [] {
      EdgesFromAdd(edges[1..], c, x);
    }
  }

  // ---------- the loop invariant ----------

  // After `head` shifts: entries before `cut` lie within d edges of the start, the others within d + 1,
  // and everything closer than d has been expanded.
  ghost predicate Layered(edges: seq<Edge>, s: Id, ids: seq<Id>, head: nat, cut: nat, d: nat, order: seq<Id>)
  {
    && head <= cut <= |ids| && |ids| > 0 && ids[0] == s
    && order == Distinct(ids[..head])
    && (forall i | 0 <= i < cut :: ids[i] in Within(edges, s, d))
    && (forall i | cut <= i < |ids| :: ids[i] in Within(edges, s, d + 1))
    && Within(edges, s, d) <= Elems(ids[..cut])
    && (d > 0 ==> Within(edges, s, d - 1) <= Elems(order))
    && (forall e | e in edges && e.source in order :: e.target in ids)
    && (forall i, j | 0 <= i < j < |order| :: NoFarther(edges, s, order[i], order[j]))
  }

  // When layer d is used up, the entries behind it are exactly layer d + 1.
  lemma NextLayer(edges: seq<Edge>, s: Id, ids: seq<Id>, cut: nat, d: nat, order: seq<Id>)
    requires Layered(edges, s, ids, cut, cut, d, order)
    ensures Layered(edges, s, ids, cut, |ids|, d + 1, order)
  {
    assert ids[..|ids|] == ids;
    forall x | x in Within(edges, s, d + 1)
      ensures x in ids
    {
      if x !in Within(edges, s, d) {
        var e :| e in edges && e.source in Within(edges, s, d) && e.target == x;
        assert e.source in ids[..cut];
      }
    }
    forall i | 0 <= i < cut
      ensures ids[i] in Within(edges, s, d + 1)
    {
      WithinGrows(edges, s, d, d + 1);
    }
  }

  // An id met for the first time at the head of layer d is at distance exactly d.
  lemma HeadIsFarthest(edges: seq<Edge>, s: Id, ids: seq<Id>, head: nat, cut: nat, d: nat, order: seq<Id>, y: Id)
    requires Layered(edges, s, ids, head, cut, d, order)
    requires head < cut && y !in order
    ensures NoFarther(edges, s, ids[head], y)
    ensures forall x | x in order :: NoFarther(edges, s, x, y)
  {
    assert d > 0 ==> y !in Within(edges, s, d - 1);
    assert ids[head] in Within(edges, s, d);
    OrderWithin(edges, s, ids, head, cut, d, order);
    hide Layered, Within;
    forall n: nat | y in Within(edges, s, n)
      ensures Within(edges, s, d) <= Within(edges, s, n)
    {
      LayerBelow(edges, s, d, n, y);
    }
  }

  lemma LayerBelow(edges: seq<Edge>, s: Id, d: nat, n: nat, y: Id)
    requires y in Within(edges, s, n) && (d > 0 ==> y !in Within(edges, s, d - 1))
    ensures Within(edges, s, d) <= Within(edges, s, n)
  {
    if n < d {
      WithinGrows(edges, s, n, d - 1);
      assert false;
    }
    WithinGrows(edges, s, d, n);
  }

  lemma OrderWithin(edges: seq<Edge>, s: Id, ids: seq<Id>, head: nat, cut: nat, d: nat, order: seq<Id>)
    requires Layered(edges, s, ids, head, cut, d, order) && head < cut
    ensures forall x | x in order :: x in Within(edges, s, d)
  {
    forall x | x in order
      ensures x in Within(edges, s, d)
    {
      assert x in ids[..head];
      var i :| 0 <= i < head && ids[i] == x;
    }
  }

  // Shifting an id that was visited before changes nothing but the queue.
  lemma SkipVisited(edges: seq<Edge>, s: Id, ids: seq<Id>, head: nat, cut: nat, d: nat, order: seq<Id>)
    requires Layered(edges, s, ids, head, cut, d, order)
    requires head < cut && ids[head] in order
    ensures Layered(edges, s, ids, head + 1, cut, d, order)
  {
    assert ids[..head + 1][..head] == ids[..head];
  }

  lemma Expand(edges: seq<Edge>, s: Id, ids: seq<Id>, head: nat, cut: nat, d: nat, order: seq<Id>, more: seq<Id>)
    requires Layered(edges, s, ids, head, cut, d, order)
    requires head < cut && ids[head] !in order
    requires forall x | x in more :: exists e :: e in edges && e.source == ids[head] && e.target == x
    requires forall e | e in edges && e.source == ids[head] :: e.target in order + [ids[head]] + more
    ensures Layered(edges, s, ids + more, head + 1, cut, d, order + [ids[head]])
  {
    var x, ids', order' := ids[head], ids + more, order + [ids[head]];
    assert ids'[..head + 1][..head] == ids[..head];
    assert ids'[..head + 1][head] == x;
    assert ids'[..cut] == ids[..cut];
    HeadIsFarthest(edges, s, ids, head, cut, d, order, x);
    forall i | cut <= i < |ids'|
      ensures ids'[i] in Within(edges, s, d + 1)
    {
      if |ids| <= i {
        assert ids'[i] == more[i - |ids|] && ids'[i] in more;
      }
    }
    forall e | e in edges && e.source in order'
      ensures e.target in ids'
    {
      if e.source == x && e.target !in more {
        assert e.target in order' && e.target in ids;
      }
    }
  }

  // ---------- what a finished walk is ----------

  // The result in closed form: the path is that of the expanded ids, and these (with the id the walk
  // stopped at, if any) are the first occurrences in the path, all of them unless the walk stopped.
  ghost predicate ClosedForm(nodes: seq<Node>, edges: seq<Edge>, start: Node, path: seq<PathEntry>,
                             warnings: seq<Warning>, order: seq<Id>, stop: Option<Id>)
  {
    && path == PathOf(nodes, edges, start, order)
    && warnings == WarningsOf(nodes, edges, order)
    && (forall x | x in order :: !Terminal(nodes, x))
    && match stop
       case None => order == Distinct(Ids(path))
       case Some(x) => Terminal(nodes, x) && order + [x] <= Distinct(Ids(path))
  }

  // Breadth first: ids are expanded in order of distance, the walk ends at a nearest terminal id if
  // one is reachable, and otherwise expands exactly what is reachable.
  ghost predicate BreadthFirst(nodes: seq<Node>, edges: seq<Edge>, s: Id, path: seq<PathEntry>,
                               order: seq<Id>, stop: Option<Id>)
  {
    && (forall p | p in path :: Reachable(edges, s, p.nodeId))
    && (forall i, j | 0 <= i < j < |order| :: NoFarther(edges, s, order[i], order[j]))
    && match stop
       case None =>
         forall x :: x in order <==> Reachable(edges, s, x)
       case Some(t) =>
         && Reachable(edges, s, t)
         && (forall x | x in order :: NoFarther(edges, s, x, t))
         && (forall y | Terminal(nodes, y) :: NoFarther(edges, s, t, y))
         && (forall y | y !in order :: NoFarther(edges, s, t, y))
  }

  lemma {:induction false} DistinctPrefix(ids: seq<Id>, k: nat)
    requires k <= |ids|
    ensures Distinct(ids[..k]) <= Distinct(ids)
  {
    if k == |ids| {
      assert ids[..k] == ids;
    } else {
      var m := |ids| - 1;
      DistinctPrefix(ids[..m], k);
      assert ids[..m][..k] == ids[..k];
    }
  }

  lemma PathReachable(edges: seq<Edge>, s: Id, path: seq<PathEntry>, head: nat, cut: nat, d: nat, order: seq<Id>)
    requires Layered(edges, s, Ids(path), head, cut, d, order)
    ensures forall p | p in path :: Reachable(edges, s, p.nodeId)
  {
    forall p | p in path
      ensures Reachable(edges, s, p.nodeId)
    {
      var i :| 0 <= i < |path| && path[i] == p;
      assert Ids(path)[i] == p.nodeId;
      assert p.nodeId in Within(edges, s, if i < cut then d else d + 1);
    }
  }

  // The next first occurrence in a list.
  lemma DistinctNext(ids: seq<Id>, head: nat)
    requires head < |ids| && ids[head] !in ids[..head]
    ensures Distinct(ids[..head]) + [ids[head]] <= Distinct(ids)
  {
    assert ids[..head + 1][..head] == ids[..head];
    assert Distinct(ids[..head + 1]) == Distinct(ids[..head]) + [ids[head]];
    DistinctPrefix(ids, head + 1);
  }

  lemma StoppedRun(nodes: seq<Node>, edges: seq<Edge>, s: Id, path: seq<PathEntry>, order: seq<Id>,
                   head: nat, cut: nat, d: nat)
    requires Layered(edges, s, Ids(path), head, cut, d, order)
    requires forall x | x in order :: !Terminal(nodes, x)
    requires head < cut && Terminal(nodes, Ids(path)[head])
    ensures BreadthFirst(nodes, edges, s, path, order, Some(Ids(path)[head]))
    ensures order + [Ids(path)[head]] <= Distinct(Ids(path))
  {
    var ids := Ids(path);
    var t := ids[head];
    PathReachable(edges, s, path, head, cut, d, order);
    assert t in Within(edges, s, d);
    HeadIsFarthest(edges, s, ids, head, cut, d, order, t);
    forall y | y !in order
      ensures NoFarther(edges, s, t, y)
    {
      HeadIsFarthest(edges, s, ids, head, cut, d, order, y);
    }
    assert t !in order;
    DistinctNext(ids, head);
  }

  lemma DrainedRun(nodes: seq<Node>, edges: seq<Edge>, s: Id, path: seq<PathEntry>, order: seq<Id>, cut: nat, d: nat)
    requires Layered(edges, s, Ids(path), |path|, cut, d, order)
    ensures BreadthFirst(nodes, edges, s, path, order, None)
    ensures order == Distinct(Ids(path))
  {
    var ids := Ids(path);
    assert ids[..|path|] == ids;
    PathReachable(edges, s, path, |path|, cut, d, order);
    forall x | Reachable(edges, s, x)
      ensures x in order
    {
      var n: nat :| x in Within(edges, s, n);
      WithinFixpoint(edges, s, Elems(order), n);
    }
    forall x | x in order
      ensures Reachable(edges, s, x)
    {
      var i :| 0 <= i < |ids| && ids[i] == x;
      assert path[i].nodeId == x;
    }
  }

  // Expanding the head of the queue keeps the layers.
  lemma Expansion(nodes: seq<Node>, edges: seq<Edge>, s: Id, path: seq<PathEntry>, order: seq<Id>,
                  head: nat, cut: nat, d: nat)
    requires Layered(edges, s, Ids(path), head, cut, d, order)
    requires head < cut && Ids(path)[head] !in order
    ensures
      var x := Ids(path)[head];
      var more := EntriesFor(nodes, Outgoing(edges, x), Elems(order) + {x});
      Layered(edges, s, Ids(path) + Ids(more), head + 1, cut, d, order + [x])
  {
    assert head < |Ids(path)|;
    hide Layered, Outgoing, EntriesFor, Within;
    var x := Ids(path)[head];
    var out := Outgoing(edges, x);
    var more := EntriesFor(nodes, out, Elems(order) + {x});
    OutgoingMembers(edges, x);
    EntriesForTargets(nodes, out, Elems(order) + {x});
    Expand(edges, s, Ids(path), head, cut, d, order, Ids(more));
  }

  // ---------- one turn of the loop ----------

  // What the proof follows: the expanded ids, the number of shifts, and the layer at the queue's head.
  datatype Progress = Progress(order: seq<Id>, head: nat, cut: nat, d: nat)

  ghost predicate Inv(nodes: seq<Node>, edges: seq<Edge>, start: Node, path: seq<PathEntry>, queue: seq<Id>,
                      visited: set<Id>, warnings: seq<Warning>, g: Progress)
  {
    && Layered(edges, start.id, Ids(path), g.head, g.cut, g.d, g.order)
    && queue == Ids(path)[g.head..]
    && visited == Elems(g.order)
    && (forall x | x in g.order :: !Terminal(nodes, x))
    && path == PathOf(nodes, edges, start, g.order)
    && warnings == WarningsOf(nodes, edges, g.order)
    && |path| <= 1 + EdgesFrom(edges, Elems(g.order))
  }

  ghost function Turned(g: Progress, size: nat): Progress {
    if g.head == g.cut then g.(cut := size, d := g.d + 1) else g
  }

  lemma Started(nodes: seq<Node>, edges: seq<Edge>, start: Node)
    ensures Inv(nodes, edges, start, [PathEntry(start.id, Some(start.nodeType), None)], [start.id], {}, [],
                Progress([], 0, 1, 0))
  {
    assert Ids([PathEntry(start.id, Some(start.nodeType), None)]) == [start.id];
  }

  lemma Turning(nodes: seq<Node>, edges: seq<Edge>, start: Node, path: seq<PathEntry>, queue: seq<Id>,
                visited: set<Id>, warnings: seq<Warning>, g: Progress)
    requires Inv(nodes, edges, start, path, queue, visited, warnings, g) && |queue| > 0
    ensures Inv(nodes, edges, start, path, queue, visited, warnings, Turned(g, |path|))
    ensures g.head < Turned(g, |path|).cut && g.head < |path| <= 1 + |edges|
  {
    if g.head == g.cut {
      NextLayer(edges, start.id, Ids(path), g.cut, g.d, g.order);
    }
  }

  lemma QueueHead(nodes: seq<Node>, edges: seq<Edge>, start: Node, path: seq<PathEntry>, queue: seq<Id>,
                  visited: set<Id>, warnings: seq<Warning>, g: Progress)
    requires Inv(nodes, edges, start, path, queue, visited, warnings, g) && |queue| > 0
    ensures g.head < |path| && queue[0] == Ids(path)[g.head]
  {
  }

  lemma QueueEmpty(nodes: seq<Node>, edges: seq<Edge>, start: Node, path: seq<PathEntry>,
                   visited: set<Id>, warnings: seq<Warning>, g: Progress)
    requires Inv(nodes, edges, start, path, [], visited, warnings, g)
    ensures g.head == |path|
  {
    assert |Ids(path)[g.head..]| == |path| - g.head;
  }

  lemma Skipping(nodes: seq<Node>, edges: seq<Edge>, start: Node, path: seq<PathEntry>, queue: seq<Id>,
                 visited: set<Id>, warnings: seq<Warning>, g: Progress)
    requires Inv(nodes, edges, start, path, queue, visited, warnings, g) && |queue| > 0 && queue[0] in visited
    requires g.head < g.cut
    ensures Inv(nodes, edges, start, path, queue[1..], visited, warnings, g.(head := g.head + 1))
  {
    SkipVisited(edges, start.id, Ids(path), g.head, g.cut, g.d, g.order);
  }

  lemma Expanding(nodes: seq<Node>, edges: seq<Edge>, start: Node, path: seq<PathEntry>, queue: seq<Id>,
                  visited: set<Id>, warnings: seq<Warning>, g: Progress)
    requires Inv(nodes, edges, start, path, queue, visited, warnings, g)
    requires |queue| > 0 && queue[0] !in visited && !Terminal(nodes, queue[0])
    requires g.head < g.cut
    ensures
      var x := queue[0];
      var more := EntriesFor(nodes, Outgoing(edges, x), visited + {x});
      Inv(nodes, edges, start, path + more, queue[1..] + Ids(more), visited + {x},
          warnings + WarningsFor(nodes, edges, x), g.(order := g.order + [x], head := g.head + 1))
  {
    hide Layered, PathOf, WarningsOf, EntriesFor;
    var x := queue[0];
    var more := EntriesFor(nodes, Outgoing(edges, x), visited + {x});
    QueueHead(nodes, edges, start, path, queue, visited, warnings, g);
    Expansion(nodes, edges, start.id, path, g.order, g.head, g.cut, g.d);
    IdsAppend(path, more);
    ExpandedForms(nodes, edges, start, g.order, x);
    EdgesFromAdd(edges, visited, x);
  }

  lemma ExpandedForms(nodes: seq<Node>, edges: seq<Edge>, start: Node, order: seq<Id>, x: Id)
    ensures Elems(order + [x]) == Elems(order) + {x}
    ensures PathOf(nodes, edges, start, order + [x])
         == PathOf(nodes, edges, start, order) + EntriesFor(nodes, Outgoing(edges, x), Elems(order) + {x})
    ensures WarningsOf(nodes, edges, order + [x]) == WarningsOf(nodes, edges, order) + WarningsFor(nodes, edges, x)
  {
    assert (order + [x])[..|order|] == order;
    assert Elems(order + [x]) == Elems(order) + {x};
  }

  lemma Stopping(nodes: seq<Node>, edges: seq<Edge>, start: Node, path: seq<PathEntry>, queue: seq<Id>,
                 visited: set<Id>, warnings: seq<Warning>, g: Progress)
    requires Inv(nodes, edges, start, path, queue, visited, warnings, g)
    requires |queue| > 0 && g.head < g.cut && Terminal(nodes, queue[0])
    ensures ClosedForm(nodes, edges, start, path, warnings, g.order, Some(queue[0]))
    ensures BreadthFirst(nodes, edges, start.id, path, g.order, Some(queue[0]))
    ensures |path| <= 1 + |edges|
  {
    hide Layered, PathOf, WarningsOf, BreadthFirst, Distinct, Terminal;
    QueueHead(nodes, edges, start, path, queue, visited, warnings, g);
    StoppedRun(nodes, edges, start.id, path, g.order, g.head, g.cut, g.d);
  }

  lemma Draining(nodes: seq<Node>, edges: seq<Edge>, start: Node, path: seq<PathEntry>,
                 visited: set<Id>, warnings: seq<Warning>, g: Progress)
    requires Inv(nodes, edges, start, path, [], visited, warnings, g)
    ensures ClosedForm(nodes, edges, start, path, warnings, g.order, None)
    ensures BreadthFirst(nodes, edges, start.id, path, g.order, None)
    ensures |path| <= 1 + |edges|
  {
    hide Layered, PathOf, WarningsOf, BreadthFirst, Distinct, Terminal;
    QueueEmpty(nodes, edges, start, path, visited, warnings, g);
    DrainedRun(nodes, edges, start.id, path, g.order, g.cut, g.d);
  }

  // ---------- the simulator ----------

  // The inner loop: every edge to an unvisited target is recorded and its target queued.
  method Follow(nodes: seq<Node>, outgoingEdges: seq<Edge>, visited: set<Id>, path: seq<PathEntry>, queue: seq<Id>)
    returns (path': seq<PathEntry>, queue': seq<Id>)
    ensures path' == path + EntriesFor(nodes, outgoingEdges, visited)
    ensures queue' == queue + Ids(EntriesFor(nodes, outgoingEdges, visited))
  {
    path', queue' := path, queue;
    for i := 0 to |outgoingEdges|
      invariant path' == path + EntriesFor(nodes, outgoingEdges[..i], visited)
      invariant queue' == queue + Ids(EntriesFor(nodes, outgoingEdges[..i], visited))
    {
      var edge := outgoingEdges[i];
      assert outgoingEdges[..i + 1][..i] == outgoingEdges[..i];
      if edge.target !in visited {
        path' := path' + [EntryFor(nodes, edge)];
        queue' := queue' + [edge.target];
      }
    }
    assert outgoingEdges[..|outgoingEdges|] == outgoingEdges;
  }

  method Simulate(nodes: seq<Node>, edges: seq<Edge>)
    returns (path: seq<PathEntry>, warnings: seq<Warning>, duration: nat, outcomes: seq<Outcome>,
             ghost order: seq<Id>, ghost stop: Option<Id>)
    ensures FindStart(nodes).None? ==> path == [] && warnings == [NoStartNode] && duration == 0
    ensures FindStart(nodes).Some? ==>
              && ClosedForm(nodes, edges, FindStart(nodes).value, path, warnings, order, stop)
              && BreadthFirst(nodes, edges, FindStart(nodes).value.id, path, order, stop)
    ensures duration == 60 * Typed(path, "delay") + 5 * Typed(path, "notification") + 3600 * Typed(path, "approval")
                        + 1800 * Typed(path, "task") + 10 * Others(path)
    ensures |path| <= 1 + |edges|
    ensures outcomes == if FindStart(nodes).None? then []
                        else [Outcome("Complete", 85), Outcome("Requires Approval", 10), Outcome("Failed", 5)]
  {
    hide Inv, ClosedForm, BreadthFirst;
    path, warnings, outcomes, order, stop := [], [], [], [], None;
    var startNode := FindStart(nodes);
    if startNode.None? {
      return [], [NoStartNode], 0, [], [], None;
    }
    var start := startNode.value;
    path := [PathEntry(start.id, Some(start.nodeType), None)];
    var visited, queue := {}, [start.id];
    ghost var g := Progress([], 0, 1, 0);
    Started(nodes, edges, start);
    while |queue| > 0
      invariant Inv(nodes, edges, start, path, queue, visited, warnings, g)
      decreases 1 + |edges| - g.head
    {
      Turning(nodes, edges, start, path, queue, visited, warnings, g);
      g := Turned(g, |path|);
      var currentId := queue[0];
      if currentId in visited {
        Skipping(nodes, edges, start, path, queue, visited, warnings, g);
        queue, g := queue[1..], g.(head := g.head + 1);
        continue;
      }
      var currentNode := FindNode(nodes, currentId);
      if currentNode.None? || currentNode.value.nodeType == "end" {
        Stopping(nodes, edges, start, path, queue, visited, warnings, g);
        duration := Duration(path);
        DurationCounts(path);
        return path, warnings, duration, OUTCOMES, g.order, Some(currentId);
      }
      Expanding(nodes, edges, start, path, queue, visited, warnings, g);
      ghost var warnings0 := warnings;
      queue, visited := queue[1..], visited + {currentId};
      var outgoingEdges := Outgoing(edges, currentId);
      if |outgoingEdges| == 0 {
        warnings := warnings + [NoOutgoingEdges(currentId)];
      }
      path, queue := Follow(nodes, outgoingEdges, visited, path, queue);
      if currentNode.value.nodeType == "delay" && currentNode.value.delaySeconds.Some?
         && currentNode.value.delaySeconds.value > 86400 {
        warnings := warnings + [LongDelay(currentNode.value.delaySeconds.value)];
      }
      assert warnings == warnings0 + WarningsFor(nodes, edges, currentId);
      g := g.(order := g.order + [currentId], head := g.head + 1);
    }
    Draining(nodes, edges, start, path, visited, warnings, g);
    order := g.order;
    duration := Duration(path);
    DurationCounts(path);
    outcomes := OUTCOMES;
  }

  // ---------- what is recorded ----------

  // The edges that leave x for ids not yet seen, in the order of the list, each with the type of the first
  // node that carries its target.
  ghost predicate Recorded(nodes: seq<Node>, edges: seq<Edge>, x: Id, seen: seq<Id>, entries: seq<PathEntry>, ix: seq<nat>) {
    && |ix| == |entries|
    && (forall j, k | 0 <= j < k < |ix| :: ix[j] < ix[k])
    && (forall i :: i in ix <==> 0 <= i < |edges| && edges[i].source == x && edges[i].target !in seen)
    && (forall k | 0 <= k < |ix| :: ix[k] < |edges| && Describes(nodes, edges[ix[k]], entries[k]))
  }

  ghost predicate Describes(nodes: seq<Node>, e: Edge, p: PathEntry) {
    && p.nodeId == e.target && p.condition == e.condition
    && match FindNode(nodes, e.target)
       case Some(n) => p.nodeType == Some(n.nodeType)
       case None => p.nodeType == None
  }

  lemma {:induction false} OutgoingAppend(a: seq<Edge>, b: seq<Edge>, x: Id)
    ensures Outgoing(a + b, x) == Outgoing(a, x) + Outgoing(b, x)
  {
    if a == [] {
      assert a + b == b;
    } else {
      assert (a + b)[1..] == a[1..] + b;
      OutgoingAppend(a[1..], b, x);
      OutgoingFirst(a, x);
      OutgoingFirst(a + b, x);
      hide Outgoing;
    }
  }

  lemma OutgoingFirst(edges: seq<Edge>, x: Id)
    requires edges != []
    ensures Outgoing(edges, x) == (if edges[0].source == x then [edges[0]] else []) + Outgoing(edges[1..], x)
  {
  }

  lemma EntriesAppend(nodes: seq<Node>, out: seq<Edge>, e: Edge, visited: set<Id>)
    ensures EntriesFor(nodes, out + [e], visited)
         == EntriesFor(nodes, out, visited) + if e.target in visited then [] else [EntryFor(nodes, e)]
  {
    assert (out + [e])[..|out|] == out;
  }

  lemma RecordedNext(nodes: seq<Node>, edges: seq<Edge>, e: Edge, x: Id, seen: seq<Id>, entries: seq<PathEntry>, ix: seq<nat>)
    requires Recorded(nodes, edges, x, seen, entries, ix)
    ensures
      if e.source == x && e.target !in seen
      then Recorded(nodes, edges + [e], x, seen, entries + [EntryFor(nodes, e)], ix + [|edges|])
      else Recorded(nodes, edges + [e], x, seen, entries, ix)
  {
    assert Describes(nodes, e, EntryFor(nodes, e));
    hide Describes, EntryFor;
    var all := edges + [e];
    assert forall k | 0 <= k < |ix| :: ix[k] in ix && all[ix[k]] == edges[ix[k]];
    if e.source == x && e.target !in seen {
      var ix' := ix + [|edges|];
      forall i: nat
        ensures i in ix' <==> 0 <= i < |all| && all[i].source == x && all[i].target !in seen
      {
        assert i in ix' <==> i in ix || i == |edges|;
      }
    }
  }

  lemma EntriesNext(nodes: seq<Node>, edges: seq<Edge>, e: Edge, x: Id, visited: set<Id>)
    ensures EntriesFor(nodes, Outgoing(edges + [e], x), visited)
         == EntriesFor(nodes, Outgoing(edges, x), visited)
            + if e.source == x && e.target !in visited then [EntryFor(nodes, e)] else []
  {
    hide EntriesFor, EntryFor;
    OutgoingAppend(edges, [e], x);
    var out := Outgoing(edges, x);
    assert Outgoing([e], x) == if e.source == x then [e] else [] by { assert [e][1..] == []; }
    hide Outgoing;
    if e.source == x {
      EntriesAppend(nodes, out, e, visited);
    } else {
      assert out + [] == out;
    }
  }

  lemma NoneRecorded(nodes: seq<Node>, x: Id, seen: seq<Id>)
    ensures Recorded(nodes, [], x, seen, EntriesFor(nodes, Outgoing([], x), Elems(seen)), [])
  {
  }

  lemma ElemsOf(seen: seq<Id>, x: Id)
    ensures x in Elems(seen) <==> x in seen
  {
  }

  lemma {:induction false} EntriesRecorded(nodes: seq<Node>, edges: seq<Edge>, x: Id, seen: seq<Id>) returns (ix: seq<nat>)
    ensures Recorded(nodes, edges, x, seen, EntriesFor(nodes, Outgoing(edges, x), Elems(seen)), ix)
  {
    hide Recorded, Outgoing, EntriesFor, Elems, EntryFor;
    if edges == [] {
      ix := [];
      NoneRecorded(nodes, x, seen);
    } else {
      var k := |edges| - 1;
      var before, e := edges[..k], edges[k];
      var ix0 := EntriesRecorded(nodes, before, x, seen);
      assert edges == before + [e];
      EntriesNext(nodes, before, e, x, Elems(seen));
      ElemsOf(seen, e.target);
      var entries := EntriesFor(nodes, Outgoing(before, x), Elems(seen));
      RecordedNext(nodes, before, e, x, seen, entries, ix0);
      assert entries + [] == entries;
      ix := if e.source == x && e.target !in seen then ix0 + [k] else ix0;
    }
  }

  function Flat<T>(blocks: seq<seq<T>>): seq<T> {
    if blocks == [] then [] else Flat(blocks[..|blocks| - 1]) + blocks[|blocks| - 1]
  }

  lemma PathNext(nodes: seq<Node>, edges: seq<Edge>, start: Node, order: seq<Id>)
    requires order != []
    ensures var n := |order| - 1;
      PathOf(nodes, edges, start, order)
      == PathOf(nodes, edges, start, order[..n]) + EntriesFor(nodes, Outgoing(edges, order[n]), Elems(order))
  {
  }

  lemma FlatNext<T>(blocks: seq<seq<T>>, block: seq<T>)
    ensures Flat(blocks + [block]) == Flat(blocks) + block
  {
    assert (blocks + [block])[..|blocks|] == blocks;
  }

  lemma NothingFlat(nodes: seq<Node>, edges: seq<Edge>, start: Node)
    ensures PathOf(nodes, edges, start, []) == [PathEntry(start.id, Some(start.nodeType), None)] + Flat([])
  {
  }

  // The path behind its first entry, expanded id by expanded id.
  lemma {:induction false} PathRecords(nodes: seq<Node>, edges: seq<Edge>, start: Node, order: seq<Id>)
    returns (blocks: seq<seq<PathEntry>>, ixs: seq<seq<nat>>)
    ensures |blocks| == |ixs| == |order|
    ensures PathOf(nodes, edges, start, order) == [PathEntry(start.id, Some(start.nodeType), None)] + Flat(blocks)
    ensures AllRecorded(nodes, edges, order, blocks, ixs)
  {
    hide Recorded, AllRecorded, PathOf, Flat, EntriesFor, Outgoing, Elems;
    if order == [] {
      blocks, ixs := [], [];
      NothingFlat(nodes, edges, start);
      NothingRecorded(nodes, edges);
    } else {
      var n := |order| - 1;
      var blocks0, ixs0 := PathRecords(nodes, edges, start, order[..n]);
      var ix := EntriesRecorded(nodes, edges, order[n], order);
      var block := EntriesFor(nodes, Outgoing(edges, order[n]), Elems(order));
      PathNext(nodes, edges, start, order);
      FlatNext(blocks0, block);
      blocks, ixs := blocks0 + [block], ixs0 + [ix];
      BlocksNext(nodes, edges, order, blocks0, block, ixs0, ix);
    }
  }

  ghost predicate AllRecorded(nodes: seq<Node>, edges: seq<Edge>, order: seq<Id>, blocks: seq<seq<PathEntry>>, ixs: seq<seq<nat>>) {
    && |blocks| == |ixs| == |order|
    && forall k | 0 <= k < |order| :: Recorded(nodes, edges, order[k], order[..k + 1], blocks[k], ixs[k])
  }

  lemma NothingRecorded(nodes: seq<Node>, edges: seq<Edge>)
    ensures AllRecorded(nodes, edges, [], [], [])
  {
  }

  lemma BlocksNext(nodes: seq<Node>, edges: seq<Edge>, order: seq<Id>, blocks: seq<seq<PathEntry>>, block: seq<PathEntry>,
                   ixs: seq<seq<nat>>, ix: seq<nat>)
    requires order != [] && AllRecorded(nodes, edges, order[..|order| - 1], blocks, ixs)
    requires Recorded(nodes, edges, order[|order| - 1], order, block, ix)
    ensures AllRecorded(nodes, edges, order, blocks + [block], ixs + [ix])
  {
    hide Recorded;
    var n := |order| - 1;
    assert order[..n + 1] == order;
    forall k | 0 <= k < |order|
      ensures Recorded(nodes, edges, order[k], order[..k + 1], (blocks + [block])[k], (ixs + [ix])[k])
    {
      if k < n {
        assert order[..n][..k + 1] == order[..k + 1] && order[..n][k] == order[k];
      }
    }
  }

  // What the simulator warns about when it expands x.
  ghost predicate Warns(nodes: seq<Node>, edges: seq<Edge>, x: Id, ws: seq<Warning>) {
    exists dead: seq<Warning>, long: seq<Warning> ::
      && ws == dead + long
      && dead == (if exists e :: e in edges && e.source == x then [] else [NoOutgoingEdges(x)])
      && match FindNode(nodes, x)
         case None => long == []
         case Some(n) =>
           if n.nodeType == "delay" && n.delaySeconds.Some? && n.delaySeconds.value > 24 * 60 * 60
           then long == [LongDelay(n.delaySeconds.value)] else long == []
  }

  lemma WarningsMean(nodes: seq<Node>, edges: seq<Edge>, x: Id)
    ensures Warns(nodes, edges, x, WarningsFor(nodes, edges, x))
  {
    OutgoingMembers(edges, x);
    var dead: seq<Warning> := if Outgoing(edges, x) == [] then [NoOutgoingEdges(x)] else [];
    assert Outgoing(edges, x) != [] ==> Outgoing(edges, x)[0] in Outgoing(edges, x);
    var ws := WarningsFor(nodes, edges, x);
    assert ws == dead + ws[|dead|..];
  }

  lemma {:induction false} WarningsRecord(nodes: seq<Node>, edges: seq<Edge>, order: seq<Id>)
    returns (blocks: seq<seq<Warning>>)
    ensures |blocks| == |order| && WarningsOf(nodes, edges, order) == Flat(blocks)
    ensures forall k | 0 <= k < |order| :: Warns(nodes, edges, order[k], blocks[k])
  {
    if order == [] {
      blocks := [];
    } else {
      var n := |order| - 1;
      var blocks0 := WarningsRecord(nodes, edges, order[..n]);
      WarningsMean(nodes, edges, order[n]);
      blocks := blocks0 + [WarningsFor(nodes, edges, order[n])];
      assert blocks[..n] == blocks0;
    }
  }

  // Of whatever the simulator returns: behind the start, the path has for each expanded id in turn the edges
  // to ids that were not expanded before, nor are the id itself; and the warnings go by expanded ids, too.
  lemma AnswerRecords(nodes: seq<Node>, edges: seq<Edge>, start: Node, path: seq<PathEntry>,
                      warnings: seq<Warning>, order: seq<Id>, stop: Option<Id>)
    returns (blocks: seq<seq<PathEntry>>, ixs: seq<seq<nat>>, warned: seq<seq<Warning>>)
    requires ClosedForm(nodes, edges, start, path, warnings, order, stop)
    ensures |blocks| == |ixs| == |warned| == |order|
    ensures path == [PathEntry(start.id, Some(start.nodeType), None)] + Flat(blocks)
    ensures forall k | 0 <= k < |order| :: Recorded(nodes, edges, order[k], order[..k + 1], blocks[k], ixs[k])
    ensures warnings == Flat(warned)
    ensures forall k | 0 <= k < |order| :: Warns(nodes, edges, order[k], warned[k])
  {
    hide Recorded, Warns, Distinct;
    blocks, ixs := PathRecords(nodes, edges, start, order);
    warned := WarningsRecord(nodes, edges, order);
  }

  // ---------- what a run says about the graph ----------

  // Where a walk stops: no node carries the id, or the first that does is an `end` node.
  lemma TerminalMeans(nodes: seq<Node>, id: Id)
    ensures Terminal(nodes, id) <==>
            || (forall n | n in nodes :: n.id != id)
            || (exists i :: 0 <= i < |nodes| && nodes[i].id == id && nodes[i].nodeType == "end"
                            && forall j | 0 <= j < i :: nodes[j].id != id)
  {
    var r := FindNode(nodes, id);
    if r.Some? {
      var i :| 0 <= i < |nodes| && nodes[i] == r.value && forall j | 0 <= j < i :: nodes[j].id != id;
      assert nodes[i] in nodes;
    }
  }

  // The walk stops early exactly when some `end` node or dangling id can be reached; otherwise it
  // expands exactly the reachable ids.
  lemma StopsIffTerminalReachable(nodes: seq<Node>, edges: seq<Edge>, start: Node, path: seq<PathEntry>,
                                  warnings: seq<Warning>, order: seq<Id>, stop: Option<Id>)
    requires ClosedForm(nodes, edges, start, path, warnings, order, stop)
    requires BreadthFirst(nodes, edges, start.id, path, order, stop)
    ensures stop.Some? <==> exists y :: Terminal(nodes, y) && Reachable(edges, start.id, y)
    ensures stop.None? ==> forall x :: x in order <==> Reachable(edges, start.id, x)
    ensures |order| <= |path|
  {
    DistinctShorter(Ids(path));
  }

  lemma {:induction false} DistinctShorter(ids: seq<Id>)
    ensures |Distinct(ids)| <= |ids|
  {
    if ids != [] {
      DistinctShorter(ids[..|ids| - 1]);
    }
  }

  // No walk from the start to any `end` node or dangling id is shorter than every walk to the stop.
  lemma StopIsNearest(nodes: seq<Node>, edges: seq<Edge>, start: Node, path: seq<PathEntry>,
                      order: seq<Id>, stop: Id, y: Id, w: seq<Id>)
    requires BreadthFirst(nodes, edges, start.id, path, order, Some(stop))
    requires Terminal(nodes, y) && IsWalk(edges, w, start.id, y)
    ensures exists v :: IsWalk(edges, v, start.id, stop) && |v| <= |w|
  {
    WalkIsWithin(edges, w, start.id, y);
    var v := WalkOf(edges, start.id, stop, |w| - 1);
  }

  // The recorded path itself is not in order of distance: an id may be queued a second time behind
  // ids that are farther.  Here `a`, one edge from `s`, is recorded again behind `c`.
  function Plain(id: Id): Node { Node(id, "task", None) }
  function Arrow(x: Id, y: Id): Edge { Edge(x, y, None) }
  const S := Node("s", "start", None)
  const DIAMOND_NODES := [S, Plain("a"), Plain("b"), Plain("c")]
  const DIAMOND_EDGES := [Arrow("s", "b"), Arrow("s", "a"), Arrow("b", "c"), Arrow("b", "a")]

  lemma OutgoingOfFour(a: Edge, b: Edge, c: Edge, d: Edge, id: Id)
    ensures Outgoing([a, b, c, d], id)
         == (if a.source == id then [a] else []) + (if b.source == id then [b] else [])
          + (if c.source == id then [c] else []) + (if d.source == id then [d] else [])
  {
    assert [a, b, c, d][1..] == [b, c, d] && [b, c, d][1..] == [c, d] && [c, d][1..] == [d] && [d][1..] == [];
    var ra, rb := if a.source == id then [a] else [], if b.source == id then [b] else [];
    var rc, rd := if c.source == id then [c] else [], if d.source == id then [d] else [];
    assert Outgoing([d], id) == rd;
    assert Outgoing([c, d], id) == rc + rd;
    assert Outgoing([b, c, d], id) == rb + (rc + rd);
  }

  lemma DiamondOutgoing()
    ensures Outgoing(DIAMOND_EDGES, "s") == [Arrow("s", "b"), Arrow("s", "a")]
    ensures Outgoing(DIAMOND_EDGES, "b") == [Arrow("b", "c"), Arrow("b", "a")]
    ensures Outgoing(DIAMOND_EDGES, "a") == [] && Outgoing(DIAMOND_EDGES, "c") == []
  {
    hide Outgoing;
    var e := DIAMOND_EDGES;
    OutgoingOfFour(e[0], e[1], e[2], e[3], "s");
    OutgoingOfFour(e[0], e[1], e[2], e[3], "a");
    OutgoingOfFour(e[0], e[1], e[2], e[3], "b");
    OutgoingOfFour(e[0], e[1], e[2], e[3], "c");
  }

  lemma TwoEntries(nodes: seq<Node>, e: Edge, f: Edge, visited: set<Id>)
    requires e.target !in visited && f.target !in visited
    ensures Ids(EntriesFor(nodes, [e, f], visited)) == [e.target, f.target]
  {
    assert [e, f][..1] == [e] && [e][..0] == [];
    assert EntriesFor(nodes, [e], visited) == [EntryFor(nodes, e)];
  }

  lemma DiamondPath()
    ensures Ids(PathOf(DIAMOND_NODES, DIAMOND_EDGES, S, ["s", "b", "a", "c"])) == ["s", "b", "a", "c", "a"]
    ensures !NoFarther(DIAMOND_EDGES, "s", "c", "a")
  {
    hide EntriesFor, FindNode, Outgoing;
    DiamondOutgoing();
    var s1, s2, s3, s4 := ["s"], ["s", "b"], ["s", "b", "a"], ["s", "b", "a", "c"];
    assert s4[..3] == s3 && s3[..2] == s2 && s2[..1] == s1 && s1[..0] == [];
    var nodes, edges := DIAMOND_NODES, DIAMOND_EDGES;
    TwoEntries(nodes, Arrow("s", "b"), Arrow("s", "a"), Elems(s1));
    TwoEntries(nodes, Arrow("b", "c"), Arrow("b", "a"), Elems(s2));
    var p0 := PathOf(nodes, edges, S, []);
    assert Ids(p0) == ["s"];
    IdsAppend(p0, EntriesFor(nodes, Outgoing(edges, "s"), Elems(s1)));
    var p1 := PathOf(nodes, edges, S, s1);
    assert Ids(p1) == ["s", "b", "a"];
    IdsAppend(p1, EntriesFor(nodes, Outgoing(edges, "b"), Elems(s2)));
    var p2 := PathOf(nodes, edges, S, s2);
    assert Ids(p2) == ["s", "b", "a", "c", "a"];
    assert EntriesFor(nodes, [], Elems(s3)) == EntriesFor(nodes, [], Elems(s4)) == [];
    assert PathOf(nodes, edges, S, s3) == p2 + EntriesFor(nodes, [], Elems(s3)) == p2;
    assert PathOf(nodes, edges, S, s4) == p2 + EntriesFor(nodes, [], Elems(s4)) == p2;
    ADistance();
  }

  // ---------- which order the diamond is expanded in ----------

  lemma {:induction false} PathGrows(nodes: seq<Node>, edges: seq<Edge>, start: Node, order: seq<Id>, k: nat)
    requires k <= |order|
    ensures PathOf(nodes, edges, start, order[..k]) <= PathOf(nodes, edges, start, order)
  {
    if k < |order| {
      var n := |order| - 1;
      PathGrows(nodes, edges, start, order[..n], k);
      assert order[..n][..k] == order[..k];
    } else {
      assert order[..k] == order;
    }
  }

  lemma IdsPrefix(a: seq<PathEntry>, b: seq<PathEntry>)
    requires a <= b
    ensures Ids(a) == Ids(b)[..|a|]
  {
  }

  lemma DiamondNodes(x: Id)
    ensures Terminal(DIAMOND_NODES, x) <==> !FourIds(x)
  {
    var n := DIAMOND_NODES;
    assert n[1..] == [Plain("a"), Plain("b"), Plain("c")] && n[1..][1..] == [Plain("b"), Plain("c")];
    assert n[1..][1..][1..] == [Plain("c")] && n[1..][1..][1..][1..] == [];
    assert FindNode(n[1..][1..][1..][1..], x) == None;
    assert FindNode(n[1..][1..][1..], x) == if x == "c" then Some(Plain("c")) else None;
    assert FindNode(n[1..][1..], x) == if x == "b" then Some(Plain("b")) else FindNode(n[1..][1..][1..], x);
    assert FindNode(n[1..], x) == if x == "a" then Some(Plain("a")) else FindNode(n[1..][1..], x);
    assert FindNode(n, x) == if x == "s" then Some(S) else FindNode(n[1..], x);
  }

  lemma DiamondReachable(x: Id)
    ensures Reachable(DIAMOND_EDGES, "s", x) <==> FourIds(x)
  {
    var e, all := DIAMOND_EDGES, {"s", "a", "b", "c"};
    assert forall d | d in e :: d.target in all;
    forall n: nat
      ensures Within(e, "s", n) <= all
    {
      WithinFixpoint(e, "s", all, n);
    }
    assert "s" in Within(e, "s", 0);
    assert e[0] in e && e[1] in e && e[2] in e;
    assert "b" in Within(e, "s", 1) && "a" in Within(e, "s", 1);
    assert "c" in Within(e, "s", 2);
  }

  lemma DistinctThree(a: Id, b: Id, c: Id)
    requires a != b && a != c && b != c
    ensures Distinct([a]) == [a] && Distinct([a, b, c]) == [a, b, c]
  {
    assert [a][..0] == [] && [a, b][..1] == [a] && [a, b, c][..2] == [a, b];
    assert Distinct([]) == [];
    assert Distinct([a]) == [a];
    assert Distinct([a, b]) == [a, b];
  }

  // The first three expanded, from what the walk says about itself.
  lemma DiamondStarts(order: seq<Id>)
    requires order != [] && order == Distinct(Ids(PathOf(DIAMOND_NODES, DIAMOND_EDGES, S, order)))
    ensures ["s", "b", "a"] <= order
  {
    var n, e := DIAMOND_NODES, DIAMOND_EDGES;
    hide Outgoing, EntriesFor, Distinct;
    DistinctThree("s", "b", "a");
    var path := PathOf(n, e, S, order);
    PathGrows(n, e, S, order, 0);
    assert order[..0] == [];
    IdsPrefix(PathOf(n, e, S, []), path);
    DistinctPrefix(Ids(path), 1);
    assert Ids(path)[..1] == ["s"] && order[0] == "s";
    PathGrows(n, e, S, order, 1);
    assert order[..1] == ["s"] && ["s"][..0] == [];
    DiamondOutgoing();
    assert Elems(["s"]) == {"s"};
    TwoEntries(n, Arrow("s", "b"), Arrow("s", "a"), {"s"});
    var head := PathOf(n, e, S, ["s"]);
    IdsAppend(PathOf(n, e, S, []), EntriesFor(n, Outgoing(e, "s"), {"s"}));
    assert Ids(head) == ["s", "b", "a"];
    IdsPrefix(head, path);
    DistinctPrefix(Ids(path), 3);
  }

  // What the simulator returns for the diamond: the recorded path is not in order of distance.
  lemma RecordedPathIsNotByDistance(path: seq<PathEntry>, warnings: seq<Warning>, order: seq<Id>, stop: Option<Id>)
    requires ClosedForm(DIAMOND_NODES, DIAMOND_EDGES, S, path, warnings, order, stop)
    requires BreadthFirst(DIAMOND_NODES, DIAMOND_EDGES, "s", path, order, stop)
    ensures order == ["s", "b", "a", "c"] && stop == None
    ensures Ids(path) == ["s", "b", "a", "c", "a"] && !NoFarther(DIAMOND_EDGES, "s", "c", "a")
  {
    hide PathOf, Within, Distinct, Terminal, Reachable, FourIds, NoFarther;
    DiamondExpands(path, warnings, order, stop);
    DiamondStarts(order);
    DiamondPath();
    FourInOrder(order, "s", "b", "a", "c");
  }

  predicate FourIds(x: Id) { x == "s" || x == "b" || x == "a" || x == "c" }

  lemma DiamondExpands(path: seq<PathEntry>, warnings: seq<Warning>, order: seq<Id>, stop: Option<Id>)
    requires ClosedForm(DIAMOND_NODES, DIAMOND_EDGES, S, path, warnings, order, stop)
    requires BreadthFirst(DIAMOND_NODES, DIAMOND_EDGES, "s", path, order, stop)
    ensures stop == None && "s" in order && "c" in order && order == Distinct(Ids(path))
    ensures forall i | 0 <= i < |order| :: order[i] == "s" || order[i] == "b" || order[i] == "a" || order[i] == "c"
    ensures forall i, j | 0 <= i < j < |order| :: order[i] != order[j]
  {
    hide PathOf, WarningsOf, Within, Terminal, Reachable, FourIds, NoFarther;
    forall x
      ensures Reachable(DIAMOND_EDGES, "s", x) <==> FourIds(x)
      ensures Terminal(DIAMOND_NODES, x) <==> !FourIds(x)
    {
      DiamondReachable(x);
      DiamondNodes(x);
    }
    assert stop == None;
    assert forall x :: x in order <==> FourIds(x);
    FourOf(order);
  }

  lemma FourOf(order: seq<Id>)
    requires forall x :: x in order <==> FourIds(x)
    ensures "s" in order && "c" in order
    ensures forall i | 0 <= i < |order| :: order[i] == "s" || order[i] == "b" || order[i] == "a" || order[i] == "c"
  {
    assert forall i | 0 <= i < |order| :: order[i] in order;
  }

  lemma FourInOrder(order: seq<Id>, s: Id, b: Id, a: Id, c: Id)
    requires [s, b, a] <= order && c in order && c != s && c != b && c != a
    requires forall i | 0 <= i < |order| :: order[i] == s || order[i] == b || order[i] == a || order[i] == c
    requires forall i, j | 0 <= i < j < |order| :: order[i] != order[j]
    ensures order == [s, b, a, c]
  {
    assert order[0] == s && order[1] == b && order[2] == a;
    var k :| 0 <= k < |order| && order[k] == c;
    assert k >= 3;
    assert order[3] == c;
    var last := |order| - 1;
    assert order[last] == c;
    assert last == 3;
  }

  lemma ADistance()
    ensures !NoFarther(DIAMOND_EDGES, "s", "c", "a")
  {
    var w0, w1 := Within(DIAMOND_EDGES, "s", 0), Within(DIAMOND_EDGES, "s", 1);
    assert DIAMOND_EDGES[1] == Arrow("s", "a");
    assert "a" in w1 && "c" !in w1;
  }
}
