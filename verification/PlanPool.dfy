/**
  Collecting query plans of different shapes (preprocess.py, tree.py): a plan is
  reduced to a binary tree of node types, and only plans whose tree is new are
  kept.
 */
module PlanPool {
  import opened Options

  /** What EXPLAIN (FORMAT json) says about a plan node; without "Plans" there are none. */
  datatype Explain = NotADict | Dict(nodeType: Option<string>, plans: seq<Explain>)

  datatype Tree = Empty | Node(data: string, left: Tree, right: Tree)

  /** _build_tree_from_dict(): one child goes left, a second one right only if there is no third. */
  function BuildTree(e: Explain): Tree {
    match e
    case NotADict => Empty
    case Dict(nodeType, plans) =>
      if nodeType.None? then Empty
      else
        var left := if |plans| >= 1 then BuildTree(plans[0]) else Empty;
        var right := if |plans| == 2 then BuildTree(plans[1]) else Empty;
        Node(nodeType.value, left, right)
  }

  // ---- What a tree keeps of a plan ----

  /** Every node has a type and at most two children. */
  ghost predicate Binary(e: Explain) {
    e.Dict? && e.nodeType.Some? && |e.plans| <= 2 && forall p :: p in e.plans ==> Binary(p)
  }

  /** The type of the node that a path of child numbers leads to. */
  function TypeAt(e: Explain, path: seq<nat>): Option<string>
    decreases |path|
  {
    if e.NotADict? then None
    else if path == [] then e.nodeType
    else if path[0] < |e.plans| then TypeAt(e.plans[path[0]], path[1..])
    else None
  }

  /** The same of a tree, whose children are number 0 and 1. */
  function DataAt(t: Tree, path: seq<nat>): Option<string>
    decreases |path|
  {
    if t.Empty? then None
    else if path == [] then Some(t.data)
    else if path[0] == 0 then DataAt(t.left, path[1..])
    else if path[0] == 1 then DataAt(t.right, path[1..])
    else None
  }

  /** The tree of a binary plan has the plan's node types, each at its place. */
  lemma {:induction false} TreeKeepsTypes(e: Explain, path: seq<nat>)
    requires Binary(e)
    ensures DataAt(BuildTree(e), path) == TypeAt(e, path)
    decreases |path|
  {
    if path != [] && path[0] < |e.plans| {
      assert e.plans[path[0]] in e.plans;
      TreeKeepsTypes(e.plans[path[0]], path[1..]);
    }
  }

  /** Trees are equal when they agree at every place. */
  lemma {:induction false} SameEverywhere(a: Tree, b: Tree)
    requires forall path: seq<nat> :: DataAt(a, path) == DataAt(b, path)
    ensures a == b
  {
    assert DataAt(a, []) == DataAt(b, []);
    if a.Node? {
      forall path: seq<nat> ensures DataAt(a.left, path) == DataAt(b.left, path) {
        assert ([0] + path)[1..] == path && DataAt(a, [0] + path) == DataAt(b, [0] + path);
      }
      forall path: seq<nat> ensures DataAt(a.right, path) == DataAt(b.right, path) {
        assert ([1] + path)[1..] == path && DataAt(a, [1] + path) == DataAt(b, [1] + path);
      }
      SameEverywhere(a.left, b.left);
      SameEverywhere(a.right, b.right);
    }
  }

  ghost predicate SameTypes(a: Explain, b: Explain) {
    forall path: seq<nat> :: TypeAt(a, path) == TypeAt(b, path)
  }

  /** Binary plans have the same tree exactly when their node types agree position by position. */
  lemma SameTree(a: Explain, b: Explain)
    requires Binary(a) && Binary(b)
    ensures BuildTree(a) == BuildTree(b) <==> SameTypes(a, b)
  {
    forall path: seq<nat> ensures DataAt(BuildTree(a), path) == TypeAt(a, path) { TreeKeepsTypes(a, path); }
    forall path: seq<nat> ensures DataAt(BuildTree(b), path) == TypeAt(b, path) { TreeKeepsTypes(b, path); }
    if SameTypes(a, b) {
      SameEverywhere(BuildTree(a), BuildTree(b));
    }
    if BuildTree(a) == BuildTree(b) {
      forall path: seq<nat> ensures TypeAt(a, path) == TypeAt(b, path) {
        TreeKeepsTypes(a, path);
        TreeKeepsTypes(b, path);
      }
    }
  }

  /** Of three or more children only the first is kept, so wider plans may be confused. */
  lemma WideNodes(name: string, first: Explain, rest: seq<Explain>, rest': seq<Explain>)
    requires |rest| >= 2 && (rest' == [] || |rest'| >= 2)
    ensures BuildTree(Dict(Some(name), [first] + rest)) == BuildTree(Dict(Some(name), [first] + rest'))
  {
  }

  /** are_isomorphic() does not look for a renaming: it compares. */
  predicate AreIsomorphic(a: Tree, b: Tree): (r: bool)
    ensures r <==> a == b
  {
    if a.Empty? && b.Empty? then true
    else if a.Empty? || b.Empty? then false
    else if a.data != b.data then false
    else AreIsomorphic(a.left, b.left) && AreIsomorphic(a.right, b.right)
  }

  /** The plans of a query run that could be analysed. */
  function Analysed(run: seq<Explain>): set<Tree> {
    set i | 0 <= i < |run| && BuildTree(run[i]) != Empty :: BuildTree(run[i])
  }

  class UniquePlan {
    const capacity: nat
    var uniquePlan: seq<Tree>
    var pool: seq<Explain>

    constructor (capacity: nat)
      ensures Valid() && this.capacity == capacity && uniquePlan == []
    {
      this.capacity, uniquePlan, pool := capacity, [], [];
    }

    /** Kept plans differ pairwise, and the pool explains all of them but the first. */
    ghost predicate Valid()
      reads this
    {
      && (forall i, j :: 0 <= i < j < |uniquePlan| ==> uniquePlan[i] != uniquePlan[j])
      && Empty !in uniquePlan
      && |pool| == (if uniquePlan == [] then 0 else |uniquePlan| - 1)
      && forall i :: 0 <= i < |pool| ==> BuildTree(pool[i]) == uniquePlan[i + 1]
    }

    ghost function Kept(): set<Tree>
      reads this
    {
      set t | t in uniquePlan
    }

    /** One query of the main loop. */
    method Consider(e: Explain)
      requires Valid()
      modifies this
      ensures Valid() && old(uniquePlan) <= uniquePlan && old(pool) <= pool
      ensures Kept() == old(Kept()) + (if BuildTree(e) == Empty then {} else {BuildTree(e)})
      ensures |uniquePlan| <= |old(uniquePlan)| + 1
    {
      var plan := BuildTree(e);
      if plan == Empty { return; }
      if |uniquePlan| == 0 {
        uniquePlan := uniquePlan + [plan];
      }
      var isNew := true;
      for i := 0 to |uniquePlan|
        invariant isNew ==> plan !in uniquePlan[..i]
        invariant !isNew ==> plan in uniquePlan
      {
        if AreIsomorphic(uniquePlan[i], plan) {
          isNew := false;
          break;
        }
      }
      if isNew {
        assert plan !in uniquePlan;
        uniquePlan := uniquePlan + [plan];
        pool := pool + [e];
      }
    }

    /** build(): the queries are considered in order until the capacity is reached. */
    method Build(run: seq<Explain>) returns (used: nat)
      requires Valid() && |uniquePlan| < capacity
      modifies this
      ensures Valid() && used <= |run| && |uniquePlan| <= capacity
      ensures Kept() == old(Kept()) + Analysed(run[..used])
      ensures |uniquePlan| < capacity ==> used == |run|
    {
      used := 0;
      while used < |run|
        invariant Valid() && used <= |run| && |uniquePlan| < capacity
        invariant Kept() == old(Kept()) + Analysed(run[..used])
      {
        Consider(run[used]);
        AnalysedNext(run, used);
        used := used + 1;
        if |uniquePlan| == capacity { return; }
      }
    }
  }

  lemma AnalysedNext(run: seq<Explain>, n: nat)
    requires n < |run|
    ensures
      var plan := BuildTree(run[n]);
      Analysed(run[..n + 1]) == Analysed(run[..n]) + (if plan == Empty then {} else {plan})
  {
    assert run[..n + 1] == run[..n] + [run[n]];
    assert forall i :: 0 <= i < n ==> run[..n + 1][i] == run[..n][i];
    assert run[..n + 1][n] == run[n];
  }
}
