/**
 The strict YAML loader's expansion budget (src/parishkit/config.py, `_check_expansion`): a walk over a
 node graph, which aliases may make shared or cyclic, that accepts exactly the documents whose full
 unfolding is small enough.
 */
module StrictYaml {
  datatype Node =
    | Scalar
    | Sequence(items: seq<nat>)
    | Mapping(pairs: seq<(nat, nat)>)

  /** The composed nodes by identity; an alias is a repeated reference. */
  type Graph = map<nat, Node>

  datatype Limits = Limits(nodes: nat, depth: nat)

  const STRICT := Limits(100000, 64)

  /** A mapping's keys and values, in the order they are visited. */
  function Flatten(pairs: seq<(nat, nat)>): seq<nat> {
    if pairs == [] then [] else [pairs[0].0, pairs[0].1] + Flatten(pairs[1..])
  }

  function Children(node: Node): seq<nat> {
    match node
    case Scalar => []
    case Sequence(items) => items
    case Mapping(pairs) => Flatten(pairs)
  }

  /** Every reference leads to a node. */
  predicate Closed(g: Graph) {
    forall id :: id in g ==> forall i :: 0 <= i < |Children(g[id])| ==> Children(g[id])[i] in g
  }

  /** Whether the walk went through, and how many visits were counted. */
  datatype Verdict = Verdict(accepted: bool, visits: nat)

  /** One node and everything below it, `visits` having been counted before. */
  function Check(l: Limits, g: Graph, id: nat, depth: nat, visits: nat): Verdict
    requires Closed(g) && id in g
    decreases l.depth + 1 - depth, 1, 0
  {
    var n := visits + 1;
    if n > l.nodes || depth > l.depth then Verdict(false, n)
    else CheckAll(l, g, Children(g[id]), depth + 1, n)
  }

  function CheckAll(l: Limits, g: Graph, ids: seq<nat>, depth: nat, visits: nat): Verdict
    requires Closed(g) && forall i :: 0 <= i < |ids| ==> ids[i] in g
    decreases l.depth + 1 - depth, 2, |ids|
  {
    if ids == [] then Verdict(true, visits) else
    var first := Check(l, g, ids[0], depth, visits);
    if !first.accepted then first else CheckAll(l, g, ids[1..], depth, first.visits)
  }

  /** The loader's counter, bumped at every visit of the recursive walk. */
  class Loader {
    const limits: Limits
    var expanded: nat

    constructor ()
      ensures limits == Limits(100000, 64) && expanded == 0
    {
      limits, expanded := STRICT, 0;
    }

    method CheckExpansion(g: Graph, id: nat, depth: nat) returns (accepted: bool)
      requires Closed(g) && id in g
      modifies this
      ensures Verdict(accepted, expanded) == Check(limits, g, id, depth, old(expanded))
      decreases limits.depth + 1 - depth
    {
      expanded := expanded + 1;
      if expanded > limits.nodes || depth > limits.depth {
        return false;
      }
      var ids := Children(g[id]);
      for i := 0 to |ids|
        invariant CheckAll(limits, g, ids[i..], depth + 1, expanded) == Check(limits, g, id, depth, old(expanded))
      {
        assert ids[i..][0] == ids[i] && ids[i..][1..] == ids[i + 1..];
        accepted := CheckExpansion(g, ids[i], depth + 1);
        if !accepted {
          return;
        }
      }
      accepted := true;
    }

    /** The check before anything is built: it accepts exactly documents whose full unfolding is small. */
    method ConstructDocument(g: Graph, root: nat) returns (accepted: bool)
      requires Closed(g) && root in g
      modifies this
      ensures accepted <==> exists t :: SmallUnfolding(limits, g, root, t)
      ensures expanded <= limits.nodes + 1
    {
      expanded := 0;
      accepted := CheckExpansion(g, root, 1);
      ExpansionCheckIsExact(limits, g, root);
    }
  }

  // ----- the unfolding -----

  datatype Tree = Tree(children: seq<Tree>)

  /** The tree is the document with every alias written out in place. */
  ghost predicate Unfolds(g: Graph, id: nat, t: Tree)
    decreases t
  {
    && id in g
    && |t.children| == |Children(g[id])|
    && forall i :: 0 <= i < |t.children| ==> Unfolds(g, Children(g[id])[i], t.children[i])
  }

  function Size(t: Tree): nat {
    1 + SizeAll(t.children)
  }

  function SizeAll(ts: seq<Tree>): nat {
    if ts == [] then 0 else Size(ts[0]) + SizeAll(ts[1..])
  }

  function Depth(t: Tree): nat {
    1 + DepthAll(t.children)
  }

  function DepthAll(ts: seq<Tree>): nat {
    if ts == [] then 0 else
    var first, rest := Depth(ts[0]), DepthAll(ts[1..]);
    if first < rest then rest else first
  }

  ghost predicate UnfoldsAll(g: Graph, ids: seq<nat>, ts: seq<Tree>) {
    |ts| == |ids| && forall i :: 0 <= i < |ts| ==> Unfolds(g, ids[i], ts[i])
  }

  /** An accepted walk has visited a finite unfolding, within both limits, once per node. */
  lemma {:induction false} AcceptedUnfolds(l: Limits, g: Graph, id: nat, depth: nat, visits: nat) returns (t: Tree)
    requires Closed(g) && id in g && Check(l, g, id, depth, visits).accepted
    ensures Unfolds(g, id, t) && Check(l, g, id, depth, visits).visits == visits + Size(t) <= l.nodes
    ensures depth + Depth(t) <= l.depth + 1
    decreases l.depth + 1 - depth, 1, 0
  {
    var ts := AcceptedUnfoldsAll(l, g, Children(g[id]), depth + 1, visits + 1);
    t := Tree(ts);
  }

  lemma {:induction false} AcceptedUnfoldsAll(l: Limits, g: Graph, ids: seq<nat>, depth: nat, visits: nat)
    returns (ts: seq<Tree>)
    requires Closed(g) && (forall i :: 0 <= i < |ids| ==> ids[i] in g) && visits <= l.nodes && depth <= l.depth + 1
    requires CheckAll(l, g, ids, depth, visits).accepted
    ensures UnfoldsAll(g, ids, ts) && CheckAll(l, g, ids, depth, visits).visits == visits + SizeAll(ts) <= l.nodes
    ensures depth + DepthAll(ts) <= l.depth + 1
    decreases l.depth + 1 - depth, 2, |ids|
  {
    if ids == [] {
      ts := [];
    } else {
      var t := AcceptedUnfolds(l, g, ids[0], depth, visits);
      var rest := AcceptedUnfoldsAll(l, g, ids[1..], depth, visits + Size(t));
      ts := [t] + rest;
      assert ts[1..] == rest;
    }
  }

  /** A document whose unfolding is within both limits is accepted. */
  lemma {:induction false} SmallIsAccepted(l: Limits, g: Graph, id: nat, depth: nat, visits: nat, t: Tree)
    requires Closed(g) && id in g && Unfolds(g, id, t)
    requires visits + Size(t) <= l.nodes && depth + Depth(t) <= l.depth + 1
    ensures Check(l, g, id, depth, visits) == Verdict(true, visits + Size(t))
    decreases t, 1
  {
    SmallAreAccepted(l, g, Children(g[id]), depth + 1, visits + 1, t.children);
  }

  lemma {:induction false} SmallAreAccepted(l: Limits, g: Graph, ids: seq<nat>, depth: nat, visits: nat, ts: seq<Tree>)
    requires Closed(g) && (forall i :: 0 <= i < |ids| ==> ids[i] in g) && UnfoldsAll(g, ids, ts)
    requires visits + SizeAll(ts) <= l.nodes && depth + DepthAll(ts) <= l.depth + 1
    ensures CheckAll(l, g, ids, depth, visits) == Verdict(true, visits + SizeAll(ts))
    decreases ts, 0
  {
    if ids != [] {
      SmallIsAccepted(l, g, ids[0], depth, visits, ts[0]);
      SmallAreAccepted(l, g, ids[1..], depth, visits + Size(ts[0]), ts[1..]);
    }
  }

  lemma {:induction false} VisitsBounded(l: Limits, g: Graph, id: nat, depth: nat, visits: nat)
    requires Closed(g) && id in g && visits <= l.nodes
    ensures Check(l, g, id, depth, visits).visits <= l.nodes + 1
    ensures Check(l, g, id, depth, visits).accepted ==> Check(l, g, id, depth, visits).visits <= l.nodes
    decreases l.depth + 1 - depth, 1, 0
  {
    if visits < l.nodes && depth <= l.depth {
      VisitsAllBounded(l, g, Children(g[id]), depth + 1, visits + 1);
    }
  }

  lemma {:induction false} VisitsAllBounded(l: Limits, g: Graph, ids: seq<nat>, depth: nat, visits: nat)
    requires Closed(g) && (forall i :: 0 <= i < |ids| ==> ids[i] in g) && visits <= l.nodes
    ensures CheckAll(l, g, ids, depth, visits).visits <= l.nodes + 1
    ensures CheckAll(l, g, ids, depth, visits).accepted ==> CheckAll(l, g, ids, depth, visits).visits <= l.nodes
    decreases l.depth + 1 - depth, 2, |ids|
  {
    if ids != [] {
      VisitsBounded(l, g, ids[0], depth, visits);
      var first := Check(l, g, ids[0], depth, visits);
      if first.accepted {
        VisitsAllBounded(l, g, ids[1..], depth, first.visits);
      }
    }
  }

  ghost predicate SmallUnfolding(l: Limits, g: Graph, root: nat, t: Tree) {
    Unfolds(g, root, t) && Size(t) <= l.nodes && Depth(t) <= l.depth
  }

  /**
   On any finite node graph, shared or cyclic, the walk stops within `nodes + 1` visits, and accepts if
   and only if the document unfolds to a finite tree with at most `nodes` nodes and depth at most
   `depth`; a cyclic document has no such tree and is refused.
   */
  lemma ExpansionCheckIsExact(l: Limits, g: Graph, root: nat)
    requires Closed(g) && root in g
    ensures Check(l, g, root, 1, 0).visits <= l.nodes + 1
    ensures Check(l, g, root, 1, 0).accepted <==> exists t :: SmallUnfolding(l, g, root, t)
  {
    VisitsBounded(l, g, root, 1, 0);
    if Check(l, g, root, 1, 0).accepted {
      var t := AcceptedUnfolds(l, g, root, 1, 0);
      assert SmallUnfolding(l, g, root, t);
    }
    if exists t :: SmallUnfolding(l, g, root, t) {
      var t :| SmallUnfolding(l, g, root, t);
      SmallIsAccepted(l, g, root, 1, 0, t);
    }
  }

  lemma {:induction false} FlattenLength(pairs: seq<(nat, nat)>)
    ensures |Flatten(pairs)| == 2 * |pairs|
  {
    if pairs != [] {
      FlattenLength(pairs[1..]);
    }
  }

  lemma {:induction false} FlattenAt(pairs: seq<(nat, nat)>, i: nat)
    requires i < |pairs| && |Flatten(pairs)| == 2 * |pairs|
    ensures Flatten(pairs)[2 * i] == pairs[i].0 && Flatten(pairs)[2 * i + 1] == pairs[i].1
  {
    if i > 0 {
      FlattenLength(pairs[1..]);
      FlattenAt(pairs[1..], i - 1);
      var first, rest := [pairs[0].0, pairs[0].1], Flatten(pairs[1..]);
      assert (first + rest)[2 * i] == rest[2 * (i - 1)] && (first + rest)[2 * i + 1] == rest[2 * (i - 1) + 1];
    }
  }

  /** What is visited below a node: a sequence's items, and a mapping's keys and values in turn. */
  lemma ChildrenAre(node: Node)
    ensures match node
            case Scalar => Children(node) == []
            case Sequence(items) => Children(node) == items
            case Mapping(pairs) =>
              && |Children(node)| == 2 * |pairs|
              && forall i :: 0 <= i < |pairs| ==> Children(node)[2 * i] == pairs[i].0 && Children(node)[2 * i + 1] == pairs[i].1
  {
    if node.Mapping? {
      FlattenLength(node.pairs);
      forall i | 0 <= i < |node.pairs|
        ensures Children(node)[2 * i] == node.pairs[i].0 && Children(node)[2 * i + 1] == node.pairs[i].1
      {
        FlattenAt(node.pairs, i);
      }
    }
  }
}
