/** Sharing of expression nodes: a table from hashes to representatives, and nodes whose arguments
    are replaced in place. */
module HashCons {
  // ---------- nodes ----------

  /** What a node is, apart from its arguments: variables and memory constants are themselves, other
      constants are their values. */
  datatype Kind =
    | VarL(sort: string, id: nat)
    | MemL(sort: string, id: nat)
    | ConstL(sort: string, value: string)
    | OpL(sort: string, op: string, params: seq<int>)

  /** The tree a node unfolds to. */
  datatype Tree = Tree(kind: Kind, args: seq<Tree>)

  ghost function Height(t: Tree): nat {
    1 + HeightOf(t.args)
  }

  ghost function HeightOf(ts: seq<Tree>): (h: nat)
    ensures forall i {:trigger ts[i]} :: 0 <= i < |ts| ==> Height(ts[i]) <= h
  {
    if ts == [] then 0
    else
      var a, b := Height(ts[0]), HeightOf(ts[1..]);
      if a < b then b else a
  }

  class Node {
    const id: nat
    const kind: Kind
    var args: seq<Node>
    /** The tree the node was built to stand for. */
    ghost const tree: Tree

    constructor (id: nat, kind: Kind, args: seq<Node>)
      ensures this.id == id && this.kind == kind && this.args == args
      ensures this.tree == Tree(kind, Trees(args))
    {
      this.id, this.kind, this.args := id, kind, args;
      this.tree := Tree(kind, Trees(args));
    }

    method SetArgs(args: seq<Node>)
      modifies this
      ensures this.args == args
    {
      this.args := args;
    }
  }

  ghost function Trees(ns: seq<Node>): (ts: seq<Tree>)
    ensures |ts| == |ns| && forall i :: 0 <= i < |ns| ==> ts[i] == ns[i].tree
  {
    seq(|ns|, i requires 0 <= i < |ns| => ns[i].tree)
  }

  // ---------- graphs ----------

  ghost predicate Shaped(n: Node)
    reads n
  {
    && (n.kind.VarL? || n.kind.MemL? ==> n.kind.id == n.id)
    && (!n.kind.OpL? ==> n.args == [])
  }

  /** A set of nodes that is closed under arguments, has unique ids and stands for its trees. */
  ghost predicate Graph(U: set<Node>)
    reads U
  {
    && (forall a, b :: a in U && b in U && a.id == b.id ==> a == b)
    && (forall n {:trigger n in U} :: n in U ==> NodeIn(n, U))
  }

  ghost predicate NodeIn(n: Node, U: set<Node>)
    reads n
  {
    Shaped(n) && (forall a {:trigger a in n.args} :: a in n.args ==> a in U) && n.tree == Tree(n.kind, Trees(n.args))
  }

  lemma ArgIsLower(n: Node, U: set<Node>, i: nat)
    requires NodeIn(n, U) && i < |n.args|
    ensures n.args[i] in U && Height(n.args[i].tree) < Height(n.tree)
  {
    assert n.args[i] in n.args;
    assert n.tree.args[i] == n.args[i].tree;
  }

  /** The unfolding of a node in the graph as it is now. */
  ghost function Unfold(n: Node, U: set<Node>): Tree
    requires Graph(U) && n in U
    reads U
    decreases Height(n.tree), 1
  {
    Tree(n.kind, UnfoldArgs(n, U, |n.args|))
  }

  ghost function UnfoldArgs(n: Node, U: set<Node>, k: nat): (ts: seq<Tree>)
    requires Graph(U) && n in U && k <= |n.args|
    ensures |ts| == k
    reads U
    decreases Height(n.tree), 0, k
  {
    if k == 0 then [] else (
      ArgIsLower(n, U, k - 1);
      UnfoldArgs(n, U, k - 1) + [Unfold(n.args[k - 1], U)]
    )
  }

  /** In a graph every node unfolds to the tree it was built for. */
  lemma {:induction false} UnfoldIsTree(n: Node, U: set<Node>)
    requires Graph(U) && n in U
    ensures Unfold(n, U) == n.tree
    decreases Height(n.tree), 1
  {
    UnfoldArgsAreTrees(n, U, |n.args|);
    assert Trees(n.args)[..|n.args|] == Trees(n.args);
  }

  lemma {:induction false} UnfoldArgsAreTrees(n: Node, U: set<Node>, k: nat)
    requires Graph(U) && n in U && k <= |n.args|
    ensures UnfoldArgs(n, U, k) == Trees(n.args)[..k]
    decreases Height(n.tree), 0, k
  {
    if k > 0 {
      UnfoldArgsAreTrees(n, U, k - 1);
      ArgIsLower(n, U, k - 1);
      UnfoldIsTree(n.args[k - 1], U);
    }
  }

  // ---------- hashes ----------

  /** The hash string: the kind and the ids of the arguments. */
  datatype Key = Key(kind: Kind, argIds: seq<nat>)

  function Ids(ns: seq<Node>): (ids: seq<nat>)
    ensures |ids| == |ns| && forall i :: 0 <= i < |ns| ==> ids[i] == ns[i].id
  {
    seq(|ns|, i requires 0 <= i < |ns| => (var k: nat := ns[i].id; k))
  }

  function Hash(n: Node): Key
    reads n
  {
    Key(n.kind, Ids(n.args))
  }

  // ---------- the table ----------

  ghost predicate IsRep(m: map<Key, Node>, n: Node)
    reads n
  {
    var k := Hash(n);
    k in m && m[k] == n
  }

  /** Every entry holds a node of the graph under its own hash, with representatives as arguments. */
  ghost predicate Table(m: map<Key, Node>, U: set<Node>)
    reads U
  {
    && Graph(U)
    && forall k {:trigger m[k]} {:trigger k in m} :: k in m ==> Entry(m, k, U)
  }

  ghost predicate Entry(m: map<Key, Node>, k: Key, U: set<Node>)
    requires k in m
    reads U
  {
    var n := m[k];
    n in U && Hash(n) == k && forall i {:trigger n.args[i]} :: 0 <= i < |n.args| ==> n.args[i] in U && IsRep(m, n.args[i])
  }

  /** A node whose arguments are representatives. */
  ghost predicate Done(m: map<Key, Node>, n: Node, U: set<Node>)
    reads n, U
  {
    forall i {:trigger n.args[i]} :: 0 <= i < |n.args| ==> n.args[i] in U && IsRep(m, n.args[i])
  }

  /** No two representatives stand for the same tree. */
  lemma {:induction false} RepsAreUnique(m: map<Key, Node>, a: Node, b: Node, U: set<Node>)
    requires Table(m, U) && a in U && b in U && IsRep(m, a) && IsRep(m, b) && a.tree == b.tree
    ensures a == b
    decreases Height(a.tree)
  {
    assert Entry(m, Hash(a), U) && Entry(m, Hash(b), U);
    SameTreeSameHash(m, a, b, U);
  }

  /** Nodes with representatives as arguments have the same hash exactly when they stand for the same
      tree. */
  lemma {:induction false} SameTreeSameHash(m: map<Key, Node>, a: Node, b: Node, U: set<Node>)
    requires Table(m, U) && a in U && b in U && Done(m, a, U) && Done(m, b, U)
    ensures Hash(a) == Hash(b) <==> a.tree == b.tree
    decreases Height(a.tree), 0
  {
    if a.tree == b.tree {
      forall i | 0 <= i < |a.args| ensures a.args[i] == b.args[i] {
        assert a.tree.args[i] == a.args[i].tree && b.tree.args[i] == b.args[i].tree;
        ArgIsLower(a, U, i);
        RepsAreUnique(m, a.args[i], b.args[i], U);
      }
      assert Ids(a.args) == Ids(b.args);
    }
    if Hash(a) == Hash(b) {
      forall i | 0 <= i < |a.args| ensures a.args[i] == b.args[i] {
        assert Ids(a.args)[i] == a.args[i].id && Ids(b.args)[i] == b.args[i].id;
      }
      assert Trees(a.args) == Trees(b.args);
    }
  }

  // ---------- what a visit keeps ----------

  ghost predicate Extends(m: map<Key, Node>, m': map<Key, Node>) {
    forall k {:trigger m[k]} {:trigger m'[k]} :: k in m ==> k in m' && m'[k] == m[k]
  }

  /** A node all of whose arguments are representatives and whose hash is in the table. */
  ghost predicate Visited(m: map<Key, Node>, n: Node, U: set<Node>)
    reads n, U
  {
    Done(m, n, U) && Hash(n) in m
  }

  lemma RepHasTree(m: map<Key, Node>, n: Node, U: set<Node>)
    requires Table(m, U) && n in U && Visited(m, n, U)
    ensures
      var r := m[Hash(n)];
      r in U && r.tree == n.tree && IsRep(m, r)
  {
    assert Entry(m, Hash(n), U);
    SameTreeSameHash(m, m[Hash(n)], n, U);
  }

  /** The representatives of a node's arguments. */
  ghost predicate RepsOf(m: map<Key, Node>, ns: seq<Node>, reps: seq<Node>)
    reads ns
  {
    |reps| == |ns| && forall i {:trigger reps[i]} {:trigger ns[i]} :: 0 <= i < |ns| ==> Hash(ns[i]) in m && reps[i] == m[Hash(ns[i])]
  }

  lemma RepsHaveTrees(m: map<Key, Node>, n: Node, reps: seq<Node>, U: set<Node>)
    requires Table(m, U) && n in U && RepsOf(m, n.args, reps)
    requires forall i {:trigger n.args[i]} :: 0 <= i < |n.args| ==> n.args[i] in U && Visited(m, n.args[i], U)
    ensures SameTrees(reps, n.args)
    ensures forall i {:trigger reps[i]} :: 0 <= i < |reps| ==> reps[i] in U && IsRep(m, reps[i])
    ensures Done(m, n, U) ==> reps == n.args
  {
    forall i | 0 <= i < |reps|
      ensures reps[i].tree == n.args[i].tree && reps[i] in U && IsRep(m, reps[i])
      ensures Done(m, n, U) ==> reps[i] == n.args[i]
    {
      RepHasTree(m, n.args[i], U);
    }
  }

  /** The nodes stand, one by one, for the same trees. */
  ghost predicate SameTrees(a: seq<Node>, b: seq<Node>) {
    |a| == |b| && forall i {:trigger a[i]} {:trigger b[i]} :: 0 <= i < |a| ==> a[i].tree == b[i].tree
  }

  lemma Entered(m: map<Key, Node>, node: Node, U: set<Node>)
    requires Table(m, U) && node in U && Done(m, node, U) && Hash(node) !in m
    ensures
      var m' := m[Hash(node) := node];
      Table(m', U) && Extends(m, m') && Visited(m', node, U)
  {
    var m' := m[Hash(node) := node];
    assert forall n :: n in U && IsRep(m, n) ==> IsRep(m', n);
    forall k | k in m' ensures Entry(m', k, U) {
      if k in m { assert Entry(m, k, U); }
    }
  }

  /** New nodes, however they are built from old ones, leave the table in order: what is said of the
      nodes of one graph goes on for a larger one. */
  lemma TableGrows(m: map<Key, Node>, U: set<Node>, V: set<Node>)
    requires Table(m, U) && U <= V && Graph(V)
    ensures Table(m, V)
    ensures forall n {:trigger n in U} :: n in U ==> Unfold(n, V) == Unfold(n, U)
  {
    forall k | k in m ensures Entry(m, k, V) {
      assert Entry(m, k, U);
    }
    forall n {:trigger n in U} | n in U ensures Unfold(n, V) == Unfold(n, U) {
      UnfoldIsTree(n, U);
      UnfoldIsTree(n, V);
    }
  }

  /** Visited nodes stay visited and keep their arguments, and so do nodes of height h and more. */
  twostate predicate Kept(was: map<Key, Node>, m: map<Key, Node>, U: set<Node>, h: nat)
    reads U
  {
    forall n {:trigger n in U} :: n in U ==>
      && (old(Done(was, n, U)) || Height(n.tree) >= h ==> n.args == old(n.args))
      && (old(Done(was, n, U)) ==> Done(m, n, U))
  }

  // ---------- the manager ----------

  class ExprMngr {
    var table: map<Key, Node>

    constructor ()
      ensures table == map[]
    {
      table := map[];
    }

    method FindReps(ns: seq<Node>, ghost U: set<Node>) returns (reps: seq<Node>)
      requires forall i {:trigger ns[i]} :: 0 <= i < |ns| ==> Visited(table, ns[i], U)
      ensures RepsOf(table, ns, reps)
    {
      reps := [];
      var i := 0;
      while i != |ns|
        invariant 0 <= i <= |ns| && RepsOf(table, ns[..i], reps)
      {
        assert Visited(table, ns[i], U);
        reps := reps + [table[Hash(ns[i])]];
        i := i + 1;
      }
      assert ns[..i] == ns;
    }

    /** Replacing a node's arguments by their representatives keeps the graph and the table. */
    method ReplaceArgs(node: Node, reps: seq<Node>, ghost U: set<Node>)
      requires Table(table, U) && node in U && SameTrees(reps, node.args)
      requires forall i {:trigger reps[i]} :: 0 <= i < |reps| ==> reps[i] in U && IsRep(table, reps[i])
      requires Done(table, node, U) ==> reps == node.args
      modifies node
      ensures Table(table, U) && Done(table, node, U)
      ensures Kept(table, table, U, Height(node.tree) + 1)
    {
      ghost var was := node.args;
      node.SetArgs(reps);
      assert old(NodeIn(node, U));
      assert Trees(reps) == Trees(was);
      forall n | n in U ensures NodeIn(n, U) {
        assert old(NodeIn(n, U));
      }
      forall n | n in U && old(IsRep(table, n)) ensures n.args == old(n.args) {
        assert old(Entry(table, Hash(n), U));
        assert n == node ==> old(Done(table, node, U));
      }
      assert forall n :: n in U && old(IsRep(table, n)) ==> IsRep(table, n);
      forall n {:trigger n in U} | n in U && old(Done(table, n, U)) ensures n.args == old(n.args) && Done(table, n, U) {
      }
      forall k | k in table ensures Entry(table, k, U) {
        assert old(Entry(table, k, U));
        assert old(IsRep(table, table[k]));
      }
    }

    method Enter(node: Node, ghost U: set<Node>)
      requires Table(table, U) && node in U && Done(table, node, U)
      modifies this
      ensures Table(table, U) && Extends(old(table), table) && Visited(table, node, U)
      ensures forall n {:trigger n in U} :: n in U && Done(old(table), n, U) ==> Done(table, n, U)
    {
      var hash := Hash(node);
      if hash !in table {
        Entered(table, node, U);
        table := table[hash := node];
      }
    }

    /** Look up the representatives of the arguments and put them in place. */
    method UseReps(node: Node, ghost U: set<Node>)
      requires Table(table, U) && node in U
      requires forall i {:trigger node.args[i]} :: 0 <= i < |node.args| ==> Visited(table, node.args[i], U)
      modifies node
      ensures Table(table, U) && Done(table, node, U)
      ensures Kept(table, table, U, Height(node.tree) + 1)
    {
      forall i {:trigger node.args[i]} | 0 <= i < |node.args| ensures node.args[i] in U {
        ArgIsLower(node, U, i);
      }
      var reps := FindReps(node.args, U);
      RepsHaveTrees(table, node, reps, U);
      ReplaceArgs(node, reps, U);
    }

    /** The function object: replace the arguments by their representatives, then enter the node if
        its hash is new. */
    method Visit(node: Node, ghost U: set<Node>)
      requires Table(table, U) && node in U
      requires forall i {:trigger node.args[i]} :: 0 <= i < |node.args| ==> Visited(table, node.args[i], U)
      modifies this, node
      ensures Table(table, U) && Extends(old(table), table) && Visited(table, node, U)
      ensures Kept(old(table), table, U, Height(node.tree) + 1)
    {
      UseReps(node, U);
      Enter(node, U);
    }

    /** Visit one argument: what has been visited stays so. */
    method VisitArg(node: Node, i: nat, ghost U: set<Node>)
      requires Table(table, U) && node in U && i < |node.args|
      requires forall j {:trigger node.args[j]} :: 0 <= j < i ==> Visited(table, node.args[j], U)
      modifies this, U
      ensures Table(table, U) && Extends(old(table), table) && node.args == old(node.args)
      ensures forall j {:trigger node.args[j]} :: 0 <= j <= i ==> Visited(table, node.args[j], U)
      ensures Kept(old(table), table, U, Height(node.tree))
      decreases Height(node.tree), 0
    {
      ArgIsLower(node, U, i);
      DepthFirstVisit(node.args[i], U);
      assert node.args == old(node.args);
      forall j {:trigger node.args[j]} | 0 <= j < i ensures Visited(table, node.args[j], U) {
        ArgIsLower(node, U, j);
        assert old(Visited(table, node.args[j], U));
      }
    }

    method VisitArgs(node: Node, ghost U: set<Node>)
      requires Table(table, U) && node in U
      modifies this, U
      ensures Table(table, U) && Extends(old(table), table) && node.args == old(node.args)
      ensures forall j {:trigger node.args[j]} :: 0 <= j < |node.args| ==> Visited(table, node.args[j], U)
      ensures Kept(old(table), table, U, Height(node.tree))
      decreases Height(node.tree), 1
    {
      var i := 0;
      while i != |node.args|
        invariant 0 <= i <= |node.args|
        invariant Table(table, U) && Extends(old(table), table) && node.args == old(node.args)
        invariant forall j {:trigger node.args[j]} :: 0 <= j < i ==> Visited(table, node.args[j], U)
        invariant Kept(old(table), table, U, Height(node.tree))
      {
        VisitArg(node, i, U);
        i := i + 1;
      }
    }

    /** Visit a node after its arguments. */
    method DepthFirstVisit(node: Node, ghost U: set<Node>)
      requires Table(table, U) && node in U
      modifies this, U
      ensures Table(table, U) && Extends(old(table), table) && Visited(table, node, U)
      ensures Kept(old(table), table, U, Height(node.tree) + 1)
      decreases Height(node.tree), 2
    {
      VisitArgs(node, U);
      Visit(node, U);
    }

    /** The representative of a node. Replacing arguments in place has changed what no node unfolds to;
        a representative is its own representative. */
    method GetRep(node: Node, ghost U: set<Node>) returns (r: Node)
      requires Table(table, U) && node in U
      modifies this, U
      ensures Table(table, U) && Extends(old(table), table)
      ensures r in U && IsRep(table, r) && Unfold(r, U) == old(Unfold(node, U))
      ensures forall n {:trigger n in U} :: n in U ==> Unfold(n, U) == old(Unfold(n, U))
      ensures old(IsRep(table, node)) ==> r == node
      ensures forall n {:trigger n in U} :: n in U && old(IsRep(table, n)) ==> IsRep(table, n)
    {
      forall n | n in U ensures Unfold(n, U) == n.tree { UnfoldIsTree(n, U); }
      DepthFirstVisit(node, U);
      forall n | n in U && old(IsRep(table, n)) ensures IsRep(table, n) {
        assert old(Entry(table, Hash(n), U));
        assert old(Done(table, n, U));
      }
      r := table[Hash(node)];
      RepHasTree(table, node, U);
      forall n | n in U ensures Unfold(n, U) == n.tree { UnfoldIsTree(n, U); }
    }
  }

  /** Structural equality: with a new table, the representatives are one node exactly when the two
      nodes unfold to the same tree. */
  method TopEq(a: Node, b: Node, ghost U: set<Node>) returns (eq: bool)
    requires Graph(U) && a in U && b in U
    modifies U
    ensures Graph(U) && forall n {:trigger n in U} :: n in U ==> Unfold(n, U) == old(Unfold(n, U))
    ensures eq <==> old(Unfold(a, U)) == old(Unfold(b, U))
  {
    var m := new ExprMngr();
    var x := m.GetRep(a, U);
    var y := m.GetRep(b, U);
    eq := x == y;
    if Unfold(x, U) == Unfold(y, U) {
      UnfoldIsTree(x, U);
      UnfoldIsTree(y, U);
      RepsAreUnique(m.table, x, y, U);
    }
  }

  /** A node built on top of nodes of the graph is unified: the graph is larger, the manager goes on with
      it: the new node's representative stands for the new tree, and old ones stay. */
  method UnifyNew(m: ExprMngr, id: nat, kind: Kind, args: seq<Node>, ghost U: set<Node>)
    returns (r: Node, ghost V: set<Node>)
    requires Table(m.table, U) && forall a :: a in args ==> a in U
    requires (forall n :: n in U ==> n.id != id) && (kind.VarL? || kind.MemL? ==> kind.id == id)
    requires !kind.OpL? ==> args == []
    modifies m, U
    ensures U <= V && fresh(V - U) && Table(m.table, V) && Extends(old(m.table), m.table)
    ensures r in V && IsRep(m.table, r) && Unfold(r, V) == Tree(kind, Trees(args))
    ensures forall n {:trigger n in U} :: n in U ==> Unfold(n, V) == old(Unfold(n, U))
    ensures forall n {:trigger n in U} :: n in U && old(IsRep(m.table, n)) ==> IsRep(m.table, n)
  {
    var node := new Node(id, kind, args);
    V := U + {node};
    assert forall n {:trigger n in U} :: n in U ==> NodeIn(n, U) && NodeIn(n, V);
    assert NodeIn(node, V);
    TableGrows(m.table, U, V);
    UnfoldIsTree(node, V);
    r := m.GetRep(node, V);
  }
}
