/**
 * The checks a feature workflow file passes before it is run, and why they rule out cycles.
 */
module WorkflowSpec {
  import opened Wrappers

  type Id = string

  datatype Node = Node(id: Id, dependsOn: seq<Id>)

  datatype SpecError = DuplicateId(id: Id) | UnknownDependency(id: Id, dependency: Id) | LaterDependency(id: Id, dependency: Id)

  function Ids(nodes: seq<Node>): (r: seq<Id>)
    ensures |r| == |nodes| && forall i :: 0 <= i < |nodes| ==> r[i] == nodes[i].id
    decreases |nodes|
  {
    if nodes == [] then [] else [nodes[0].id] + Ids(nodes[1..])
  }

  ghost predicate UniqueIds(nodes: seq<Node>) {
    forall i, j :: 0 <= i < j < |nodes| ==> nodes[i].id != nodes[j].id
  }

  /** Some node before position k has this id. */
  ghost predicate Earlier(nodes: seq<Node>, k: nat, id: Id) {
    exists i :: 0 <= i < k && i < |nodes| && nodes[i].id == id
  }

  ghost predicate DependsOnEarlier(nodes: seq<Node>, k: nat)
    requires k < |nodes|
  {
    forall d :: d in nodes[k].dependsOn ==> Earlier(nodes, k, d)
  }

  ghost predicate FileOrdered(nodes: seq<Node>) {
    forall k: nat :: k < |nodes| ==> DependsOnEarlier(nodes, k)
  }

  ghost predicate Accepted(nodes: seq<Node>) {
    UniqueIds(nodes) && FileOrdered(nodes)
  }

  // ---------------------------------------------------------------------------
  // The checks
  // ---------------------------------------------------------------------------

  ghost predicate SeenUpTo(nodes: seq<Node>, k: nat, seen: set<Id>) {
    forall id :: id in seen <==> Earlier(nodes, k, id)
  }

  ghost predicate UniqueUpTo(nodes: seq<Node>, k: nat) {
    forall i, j :: 0 <= i < j < k && j < |nodes| ==> nodes[i].id != nodes[j].id
  }

  method AssertUniqueNodeIds(nodes: seq<Node>) returns (error: Option<SpecError>)
    ensures error == None <==> UniqueIds(nodes)
    ensures error.Some? ==> exists k: nat ::
      && k < |nodes| && error == Some(DuplicateId(nodes[k].id))
      && Earlier(nodes, k, nodes[k].id) && UniqueUpTo(nodes, k)
  {
    var seen: set<Id> := {};
    var k := 0;
    while k < |nodes|
      invariant k <= |nodes| && SeenUpTo(nodes, k, seen) && UniqueUpTo(nodes, k)
    {
      var id := nodes[k].id;
      if id in seen {
        return Some(DuplicateId(id));
      }
      seen := seen + {id};
      forall x ensures x in seen <==> Earlier(nodes, k + 1, x) {
        assert Earlier(nodes, k, x) ==> Earlier(nodes, k + 1, x);
        assert nodes[k].id == id;
      }
      k := k + 1;
    }
    return None;
  }

  ghost predicate OrderedUpTo(nodes: seq<Node>, k: nat) {
    forall i: nat :: i < k && i < |nodes| ==> DependsOnEarlier(nodes, i)
  }

  function IdSet(nodes: seq<Node>): (r: set<Id>)
    ensures forall id :: id in r <==> Earlier(nodes, |nodes|, id)
  {
    set n | n in nodes :: n.id
  }

  /** What is wrong with one dependency of the node at position k, if anything. */
  ghost predicate Offends(nodes: seq<Node>, k: nat, dependency: Id, error: SpecError)
    requires k < |nodes|
  {
    && dependency in nodes[k].dependsOn && !Earlier(nodes, k, dependency)
    && error == (if Earlier(nodes, |nodes|, dependency) then LaterDependency(nodes[k].id, dependency)
                 else UnknownDependency(nodes[k].id, dependency))
  }

  method CheckDependencies(nodes: seq<Node>, k: nat, ids: set<Id>, completed: set<Id>) returns (error: Option<SpecError>)
    requires k < |nodes| && ids == IdSet(nodes) && SeenUpTo(nodes, k, completed)
    ensures error == None <==> DependsOnEarlier(nodes, k)
    ensures error.Some? ==> exists d :: Offends(nodes, k, d, error.value)
  {
    var node := nodes[k];
    var i := 0;
    while i < |node.dependsOn|
      invariant i <= |node.dependsOn|
      invariant forall j :: 0 <= j < i ==> Earlier(nodes, k, node.dependsOn[j])
    {
      var dependency := node.dependsOn[i];
      if dependency !in ids {
        assert Offends(nodes, k, dependency, UnknownDependency(node.id, dependency));
        return Some(UnknownDependency(node.id, dependency));
      }
      if dependency !in completed {
        assert Offends(nodes, k, dependency, LaterDependency(node.id, dependency));
        return Some(LaterDependency(node.id, dependency));
      }
      i := i + 1;
    }
    return None;
  }

  method AssertWorkflowDependencies(nodes: seq<Node>) returns (error: Option<SpecError>)
    ensures error == None <==> FileOrdered(nodes)
    ensures error.Some? ==> exists k: nat, d ::
      k < |nodes| && OrderedUpTo(nodes, k) && Offends(nodes, k, d, error.value)
  {
    var ids := IdSet(nodes);
    var completed: set<Id> := {};
    var k: nat := 0;
    while k < |nodes|
      invariant k <= |nodes| && SeenUpTo(nodes, k, completed) && OrderedUpTo(nodes, k)
    {
      error := CheckDependencies(nodes, k, ids, completed);
      if error.Some? {
        return;
      }
      completed := completed + {nodes[k].id};
      forall x ensures x in completed <==> Earlier(nodes, k + 1, x) {
        assert Earlier(nodes, k, x) ==> Earlier(nodes, k + 1, x);
      }
      k := k + 1;
    }
    return None;
  }

  // ---------------------------------------------------------------------------
  // Accepted means acyclic
  // ---------------------------------------------------------------------------

  ghost predicate Needs(nodes: seq<Node>, a: Id, b: Id) {
    exists n :: n in nodes && n.id == a && b in n.dependsOn
  }

  /** A chain in which every id needs the next one. */
  ghost predicate Chain(nodes: seq<Node>, ids: seq<Id>) {
    forall i :: 0 < i < |ids| ==> Needs(nodes, ids[i - 1], ids[i])
  }

  /** Where an id is declared; the number of nodes when it is not. */
  function Position(nodes: seq<Node>, id: Id): (k: nat)
    ensures k <= |nodes| && (k < |nodes| ==> nodes[k].id == id)
    ensures k == |nodes| <==> forall i :: 0 <= i < |nodes| ==> nodes[i].id != id
    ensures forall i :: 0 <= i < k ==> nodes[i].id != id
    decreases |nodes|
  {
    if nodes == [] || nodes[0].id == id then 0
    else
      var k := Position(nodes[1..], id) + 1;
      assert forall i :: 0 < i < |nodes| ==> nodes[i] == nodes[1..][i - 1];
      k
  }

  lemma {:induction false} NeedIsEarlier(nodes: seq<Node>, a: Id, b: Id)
    requires Accepted(nodes) && Needs(nodes, a, b)
    ensures Position(nodes, b) < Position(nodes, a) < |nodes|
  {
    var n :| n in nodes && n.id == a && b in n.dependsOn;
    var k: nat :| k < |nodes| && nodes[k] == n;
    assert Position(nodes, a) == k;
    assert DependsOnEarlier(nodes, k) && Earlier(nodes, k, b);
  }

  lemma {:induction false} ChainFalls(nodes: seq<Node>, ids: seq<Id>)
    requires Accepted(nodes) && Chain(nodes, ids) && |ids| >= 2
    ensures Position(nodes, ids[|ids| - 1]) < Position(nodes, ids[0])
    decreases |ids|
  {
    NeedIsEarlier(nodes, ids[|ids| - 2], ids[|ids| - 1]);
    if |ids| > 2 {
      assert Chain(nodes, ids[..|ids| - 1]);
      ChainFalls(nodes, ids[..|ids| - 1]);
    }
  }

  /** No chain of dependencies of an accepted workflow comes back to where it started. */
  lemma {:induction false} AcceptedIsAcyclic(nodes: seq<Node>, ids: seq<Id>)
    requires Accepted(nodes) && Chain(nodes, ids) && |ids| >= 2
    ensures ids[0] != ids[|ids| - 1]
  {
    ChainFalls(nodes, ids);
  }

  /** Dependency chains are no longer than the workflow. */
  lemma {:induction false} ChainIsShort(nodes: seq<Node>, ids: seq<Id>)
    requires Accepted(nodes) && Chain(nodes, ids) && ids != []
    ensures |ids| - 1 <= Position(nodes, ids[0]) - Position(nodes, ids[|ids| - 1])
    ensures |ids| >= 2 ==> |ids| <= |nodes|
    decreases |ids|
  {
    if |ids| >= 2 {
      var shorter := ids[..|ids| - 1];
      assert Chain(nodes, shorter);
      ChainIsShort(nodes, shorter);
      NeedIsEarlier(nodes, ids[|ids| - 2], ids[|ids| - 1]);
      NeedIsEarlier(nodes, ids[0], ids[1]);
    }
  }
}
