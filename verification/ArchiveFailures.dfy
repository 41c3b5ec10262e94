/** Dropping the nodes whose bytes never landed, and everything below them. */
module ArchiveFailures {
  import opened ArchiveImport

  /** In `k` steps up the parents, `id` reaches a failed node. */
  ghost predicate ReachesFailed(nodes: seq<Node>, failed: set<string>, id: string, k: nat)
    decreases k
  {
    if k == 0 then id in failed
    else exists i :: 0 <= i < |nodes| && nodes[i].id == id && ReachesFailed(nodes, failed, nodes[i].parentId, k - 1)
  }

  /** The node or one of its ancestors failed. */
  ghost predicate Doomed(nodes: seq<Node>, failed: set<string>, id: string) {
    exists k: nat :: ReachesFailed(nodes, failed, id, k)
  }

  /** The nodes without a failed ancestor-or-self, in order. */
  ghost function Survivors(nodes: seq<Node>, failed: set<string>, upTo: nat): seq<Node>
    requires upTo <= |nodes|
  {
    if upTo == 0 then []
    else Survivors(nodes, failed, upTo - 1) +
         (if Doomed(nodes, failed, nodes[upTo - 1].id) then [] else [nodes[upTo - 1]])
  }

  /** The ids `closure` adds nothing to: a child of a member is a member. */
  predicate ClosedBelow(nodes: seq<Node>, closure: set<string>) {
    forall i :: 0 <= i < |nodes| && nodes[i].parentId in closure ==> nodes[i].id in closure
  }

  ghost predicate OnlyDoomed(nodes: seq<Node>, failed: set<string>, closure: set<string>) {
    failed <= closure && forall id :: id in closure ==> Doomed(nodes, failed, id)
  }

  lemma {:induction false} ReachedIsInClosure(nodes: seq<Node>, failed: set<string>, closure: set<string>, id: string,
      k: nat)
    requires failed <= closure && ClosedBelow(nodes, closure) && ReachesFailed(nodes, failed, id, k)
    ensures id in closure
    decreases k
  {
    if k > 0 {
      var i :| 0 <= i < |nodes| && nodes[i].id == id && ReachesFailed(nodes, failed, nodes[i].parentId, k - 1);
      ReachedIsInClosure(nodes, failed, closure, nodes[i].parentId, k - 1);
    }
  }

  /** A closed set of doomed ids is the set of all doomed ids. */
  lemma ClosureIsDoomed(nodes: seq<Node>, failed: set<string>, closure: set<string>)
    requires OnlyDoomed(nodes, failed, closure) && ClosedBelow(nodes, closure)
    ensures forall id :: id in closure <==> Doomed(nodes, failed, id)
  {
    forall id | Doomed(nodes, failed, id) ensures id in closure {
      var k: nat :| ReachesFailed(nodes, failed, id, k);
      ReachedIsInClosure(nodes, failed, closure, id, k);
    }
  }

  lemma ChildIsDoomed(nodes: seq<Node>, failed: set<string>, i: nat)
    requires i < |nodes| && Doomed(nodes, failed, nodes[i].parentId)
    ensures Doomed(nodes, failed, nodes[i].id)
  {
    var k: nat :| ReachesFailed(nodes, failed, nodes[i].parentId, k);
    assert ReachesFailed(nodes, failed, nodes[i].id, k + 1);
  }

  function Ids(nodes: seq<Node>): set<string> {
    set i | 0 <= i < |nodes| :: nodes[i].id
  }

  lemma GrowthShrinksRest(all: set<string>, before: set<string>, closure: set<string>, id: string)
    requires before <= closure && id in all && id in closure && id !in before
    ensures |all - closure| < |all - before|
  {
    var rest := all - closure;
    assert all - before == rest + ((all - before) - rest);
    assert id in (all - before) - rest;
  }

  /** One pass of the loop body over the list. */
  method Pass(nodes: seq<Node>, failed: set<string>, before: set<string>) returns (closure: set<string>, changed: bool)
    requires OnlyDoomed(nodes, failed, before)
    ensures OnlyDoomed(nodes, failed, closure) && before <= closure
    ensures if changed then |Ids(nodes) - closure| < |Ids(nodes) - before|
            else closure == before && ClosedBelow(nodes, closure)
  {
    closure, changed := before, false;
    ghost var grown := "";
    var i := 0;
    while i < |nodes|
      invariant 0 <= i <= |nodes|
      invariant OnlyDoomed(nodes, failed, closure) && before <= closure
      invariant !changed ==> closure == before
      invariant !changed ==> forall j :: 0 <= j < i && nodes[j].parentId in closure ==> nodes[j].id in closure
      invariant changed ==> grown in Ids(nodes) && grown in closure && grown !in before
    {
      if nodes[i].id !in closure && nodes[i].parentId in closure {
        ChildIsDoomed(nodes, failed, i);
        closure, grown := closure + {nodes[i].id}, nodes[i].id;
        changed := true;
      }
      i := i + 1;
    }
    if changed { GrowthShrinksRest(Ids(nodes), before, closure, grown); }
  }

  /** The `while (changed)` loop. */
  method CloseBelow(nodes: seq<Node>, failed: set<string>) returns (closure: set<string>)
    ensures OnlyDoomed(nodes, failed, closure) && ClosedBelow(nodes, closure)
  {
    closure := failed;
    assert forall id :: id in failed ==> ReachesFailed(nodes, failed, id, 0);
    var changed := true;
    while changed
      invariant OnlyDoomed(nodes, failed, closure)
      invariant changed || ClosedBelow(nodes, closure)
      decreases |Ids(nodes) - closure|, changed
    {
      closure, changed := Pass(nodes, failed, closure);
    }
  }

  /** Keeps exactly the nodes with no failed ancestor-or-self. */
  method DropFailed(nodes: seq<Node>, failed: set<string>) returns (kept: seq<Node>)
    ensures kept == Survivors(nodes, failed, |nodes|)
  {
    var closure := CloseBelow(nodes, failed);
    ClosureIsDoomed(nodes, failed, closure);
    kept := [];
    for i := 0 to |nodes|
      invariant kept == Survivors(nodes, failed, i)
    {
      if nodes[i].id !in closure { kept := kept + [nodes[i]]; }
    }
  }

  // ----- on the list the walk builds -----

  /** Only files fail: the failed ids are those of file nodes. */
  predicate FilesFailed(nodes: seq<Node>, failed: set<string>) {
    forall i :: 0 <= i < |nodes| && nodes[i].id in failed ==> !nodes[i].folder
  }

  lemma FailedFileHasNoChild(nodes: seq<Node>, failed: set<string>, supply: Supply, j: nat)
    requires Tree(nodes, supply) && FilesFailed(nodes, failed) && nodes[0].parentId !in failed && j < |nodes|
    ensures nodes[j].parentId !in failed
  {
    if j > 0 {
      assert HasParent(nodes, j);
    }
  }

  /** Files have no children, so a tree loses exactly its failed files. */
  lemma TreeLosesOnlyFailedFiles(nodes: seq<Node>, failed: set<string>, supply: Supply, i: nat)
    requires Tree(nodes, supply) && FilesFailed(nodes, failed) && nodes[0].parentId !in failed && i < |nodes|
    ensures Doomed(nodes, failed, nodes[i].id) <==> nodes[i].id in failed
  {
    forall j | 0 <= j < |nodes| ensures nodes[j].parentId !in failed {
      FailedFileHasNoChild(nodes, failed, supply, j);
    }
    assert forall id :: id in failed ==> ReachesFailed(nodes, failed, id, 0);
    ClosureIsDoomed(nodes, failed, failed);
  }

  /** No survivor loses its parent, whatever failed. */
  lemma SurvivorKeepsParent(nodes: seq<Node>, failed: set<string>, supply: Supply, i: nat)
    requires Tree(nodes, supply) && 0 < i < |nodes| && !Doomed(nodes, failed, nodes[i].id)
    ensures exists p :: 0 <= p < i && ChildOf(nodes[p], nodes[i]) && !Doomed(nodes, failed, nodes[p].id)
  {
    assert HasParent(nodes, i);
    var p :| 0 <= p < i < |nodes| && ChildOf(nodes[p], nodes[i]);
    if Doomed(nodes, failed, nodes[i].parentId) { ChildIsDoomed(nodes, failed, i); }
  }

  /** The survivors are a list of the nodes not doomed: each of them, in order, and nothing else. */
  lemma {:induction false} SurvivorsExactly(nodes: seq<Node>, failed: set<string>, upTo: nat, n: Node)
    requires upTo <= |nodes|
    ensures n in Survivors(nodes, failed, upTo) <==>
              exists i :: 0 <= i < upTo && nodes[i] == n && !Doomed(nodes, failed, nodes[i].id)
    decreases upTo
  {
    if upTo > 0 { SurvivorsExactly(nodes, failed, upTo - 1, n); }
  }
}
