/** The structural budget of a parsed document part: a walk with an explicit stack instead of recursion. */
module XmlBudget {

  const MAX_NODES: nat := 50_000
  const MAX_DEPTH: nat := 80

  datatype Node = Node(children: seq<Node>)

  /** The number of nodes in a tree, and in a forest. */
  function Size(n: Node): (size: nat)
    ensures size > 0
    decreases n, 1
  {
    1 + ForestSize(n.children)
  }

  function ForestSize(ns: seq<Node>): nat
    decreases ns, 0
  {
    if ns == [] then 0 else ForestSize(ns[..|ns| - 1]) + Size(ns[|ns| - 1])
  }

  /** No node lies deeper than the limit when the root is at `depth`. */
  predicate Shallow(n: Node, depth: nat)
    decreases n
  {
    depth <= MAX_DEPTH && forall i :: 0 <= i < |n.children| ==> Shallow(n.children[i], depth + 1)
  }

  datatype Frame = Frame(node: Node, depth: nat)

  function StackSize(stack: seq<Frame>): nat {
    if stack == [] then 0 else StackSize(stack[..|stack| - 1]) + Size(stack[|stack| - 1].node)
  }

  predicate AllShallow(stack: seq<Frame>) {
    forall i :: 0 <= i < |stack| ==> Shallow(stack[i].node, stack[i].depth)
  }

  function Frames(ns: seq<Node>, depth: nat): (r: seq<Frame>)
    ensures |r| == |ns|
    ensures forall i :: 0 <= i < |ns| ==> r[i] == Frame(ns[i], depth)
  {
    seq(|ns|, i requires 0 <= i < |ns| => Frame(ns[i], depth))
  }

  lemma {:induction false} PushedSize(stack: seq<Frame>, ns: seq<Node>, depth: nat)
    ensures StackSize(stack + Frames(ns, depth)) == StackSize(stack) + ForestSize(ns)
    decreases |ns|
  {
    if ns == [] {
      assert stack + Frames(ns, depth) == stack;
    } else {
      var init := ns[..|ns| - 1];
      PushedSize(stack, init, depth);
      var all := stack + Frames(ns, depth);
      assert all[..|all| - 1] == stack + Frames(init, depth);
    }
  }

  lemma PushedShallow(stack: seq<Frame>, n: Node, depth: nat)
    requires depth <= MAX_DEPTH
    ensures AllShallow(stack + Frames(n.children, depth + 1)) <==> AllShallow(stack) && Shallow(n, depth)
  {
    var all := stack + Frames(n.children, depth + 1);
    if AllShallow(all) {
      forall i | 0 <= i < |stack| ensures Shallow(stack[i].node, stack[i].depth) {
        assert all[i] == stack[i];
      }
      forall i | 0 <= i < |n.children| ensures Shallow(n.children[i], depth + 1) {
        assert all[|stack| + i] == Frame(n.children[i], depth + 1);
      }
    }
  }

  /** The walk accepts exactly the trees whose total size and depth are within the budget. */
  method WithinBudget(root: Node) returns (ok: bool)
    ensures ok <==> Size(root) <= MAX_NODES && Shallow(root, 1)
  {
    var stack, count := [Frame(root, 1)], 0;
    assert stack[..0] == [];
    while stack != []
      invariant count + StackSize(stack) == Size(root) && count <= MAX_NODES
      invariant AllShallow(stack) <==> Shallow(root, 1)
      decreases StackSize(stack)
    {
      var node, depth := stack[|stack| - 1].node, stack[|stack| - 1].depth;
      ghost var popped := stack[..|stack| - 1];
      SplitTop(stack);
      stack := stack[..|stack| - 1];
      count := count + 1;
      if count > MAX_NODES || depth > MAX_DEPTH {
        return false;
      }
      PushedSize(stack, node.children, depth + 1);
      PushedShallow(stack, node, depth);
      stack := stack + Frames(node.children, depth + 1);
    }
    return true;
  }

  lemma SplitTop(stack: seq<Frame>)
    requires stack != []
    ensures AllShallow(stack) <==>
            AllShallow(stack[..|stack| - 1]) && Shallow(stack[|stack| - 1].node, stack[|stack| - 1].depth)
  {
    var init := stack[..|stack| - 1];
    if AllShallow(init) && Shallow(stack[|stack| - 1].node, stack[|stack| - 1].depth) {
      forall i | 0 <= i < |stack| ensures Shallow(stack[i].node, stack[i].depth) {
        assert i < |init| ==> stack[i] == init[i];
      }
    }
  }
}
