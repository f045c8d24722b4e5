/** FOREACH_TREE (src/map/tree.h:122-149): in-order traversal with an explicit stack that has room
    for `total` nodes and whose push result is ignored.
  */
module TreeTraversal {
  import opened Wrappers
  import opened RStack
  import opened TreeShape
  import opened TreeHeap
  import opened TreeMap
  import opened RedBlackTree

  /** What the stacked nodes still owe, top of stack first: each its own entry and its right subtree. */
  function Owed(stack: seq<Tree>): seq<Entry>
    requires forall i :: 0 <= i < |stack| ==> stack[i].N?
  {
    if stack == [] then []
    else var t := stack[|stack| - 1]; [t.e] + InOrder(t.r) + Owed(stack[..|stack| - 1])
  }

  /** Every stacked node owes at least itself, so the stack is never longer than what is left to visit. */
  lemma {:induction false} OwedLength(stack: seq<Tree>)
    requires forall i :: 0 <= i < |stack| ==> stack[i].N?
    ensures |Owed(stack)| >= |stack|
  {
    if stack != [] { OwedLength(stack[..|stack| - 1]); }
  }

  /** The stack in memory: node addresses, each leading to its ghost tree. */
  ghost predicate Stacked(h: Heap, ps: seq<Ptr>, stack: seq<Tree>) {
    |ps| == |stack| && forall i :: 0 <= i < |ps| ==> Live(h, ps[i], stack[i]) && stack[i].N?
  }

  /** p leads to a tree without dead nodes. */
  ghost predicate Live(h: Heap, p: Ptr, t: Tree) {
    Deads(t) == {} && if t.N? then p in h && p != NULL && Rep(h, p, h[p].parent, t) else t.E? && p == NULL
  }

  lemma {:induction false} LiveChildren(h: Heap, p: Ptr, t: Tree)
    requires Live(h, p, t) && t.N?
    ensures Live(h, h[p].left, t.l) && Live(h, h[p].right, t.r)
    ensures t.e == Entry(h[p].key, h[p].value)
  {
    RootIn(t.l);
    RootIn(t.r);
    RepPtrs(h, h[p].left, p, t.l);
    RepPtrs(h, h[p].right, p, t.r);
  }

  /** The loop invariant: what has been visited, the subtree at n and what the stack owes make up the whole. */
  ghost predicate Visiting(h: Heap, n: Ptr, t: Tree, ps: seq<Ptr>, stack: seq<Tree>, out: seq<Entry>, whole: seq<Entry>) {
    Live(h, n, t) && Stacked(h, ps, stack) && out + InOrder(t) + Owed(stack) == whole
  }

  /** Going left keeps it, and there is room on the stack: the nodes on it and n are all still to be visited. */
  lemma {:induction false} GoLeft(h: Heap, n: Ptr, t: Tree, ps: seq<Ptr>, stack: seq<Tree>, out: seq<Entry>, whole: seq<Entry>)
    requires Visiting(h, n, t, ps, stack, out, whole) && n != NULL
    ensures n in h && t.N? && |ps| < |whole| && |out| < |whole| && |InOrder(t.l)| < |InOrder(t)|
    ensures Visiting(h, h[n].left, t.l, ps + [n], stack + [t], out, whole)
  {
    assert t.N?;
    LiveChildren(h, n, t);
    hide Live;
    OwedLength(stack);
    assert (stack + [t])[..|stack|] == stack;
    AroundLeft(out, InOrder(t.l), [t.e], InOrder(t.r), Owed(stack));
  }

  /** Visiting the top of the stack and going right keeps it. */
  lemma {:induction false} Visit(h: Heap, t: Tree, ps: seq<Ptr>, stack: seq<Tree>, out: seq<Entry>, whole: seq<Entry>)
    requires Visiting(h, NULL, t, ps, stack, out, whole) && ps != []
    ensures var n, u := ps[|ps| - 1], stack[|stack| - 1];
            && n in h && u.N? && |out| < |whole|
            && Visiting(h, h[n].right, u.r, ps[..|ps| - 1], stack[..|stack| - 1], out + [Entry(h[n].key, h[n].value)], whole)
  {
    var n, u, rest := ps[|ps| - 1], stack[|stack| - 1], stack[..|stack| - 1];
    LiveChildren(h, n, u);
    assert InOrder(t) == [];
    assert out + [] == out;
    assert out + ([u.e] + InOrder(u.r) + Owed(rest)) == (out + [u.e]) + InOrder(u.r) + Owed(rest);
  }

  /** The turn of the loop that goes left. */
  method PushLeft(h: Heap, n: Ptr, ghost t: Tree, rsk: Stack<Ptr>, ghost stack: seq<Tree>, ghost out: seq<Entry>, ghost whole: seq<Entry>)
    returns (left: Ptr)
    requires rsk.Valid() && rsk.size == |whole| && n != NULL && Visiting(h, n, t, rsk.Contents(), stack, out, whole)
    modifies rsk`top, rsk.n
    ensures rsk.Valid() && t.N? && |out| < |whole| && |InOrder(t.l)| < |InOrder(t)|
    ensures Visiting(h, left, t.l, rsk.Contents(), stack + [t], out, whole)
  {
    GoLeft(h, n, t, rsk.Contents(), stack, out, whole);
    hide Visiting;
    var pushed := rsk.Push(n);
    assert pushed; // so nothing is lost by ignoring it
    return h[n].left;
  }

  /** The turn that visits a node and goes right. */
  method PopRight(h: Heap, ghost t: Tree, rsk: Stack<Ptr>, ghost stack: seq<Tree>, ghost out: seq<Entry>, ghost whole: seq<Entry>)
    returns (e: Entry, right: Ptr)
    requires rsk.Valid() && rsk.Contents() != [] && Visiting(h, NULL, t, rsk.Contents(), stack, out, whole)
    modifies rsk`top
    ensures rsk.Valid() && stack != [] && stack[|stack| - 1].N? && |out| < |whole|
    ensures Visiting(h, right, stack[|stack| - 1].r, rsk.Contents(), stack[..|stack| - 1], out + [e], whole)
  {
    assert stack != [];
    Visit(h, t, rsk.Contents(), stack, out, whole);
    hide Visiting;
    var top := rsk.Pop();
    return Entry(h[top.value].key, h[top.value].value), h[top.value].right;
  }

  lemma {:induction false} VisitStart(tr: RbTree)
    requires tr.Valid()
    ensures if tr.root == NULL then InOrder(tr.shape) == []
            else InOrder(tr.shape) != [] && Visiting(tr.heap, tr.root, tr.shape, [], [], [], InOrder(tr.shape))
  {
    RepPtrs(tr.heap, tr.root, NULL, tr.shape);
    RootIn(tr.shape);
    assert [] + InOrder(tr.shape) + [] == InOrder(tr.shape);
  }

  lemma {:induction false} VisitEnd(h: Heap, t: Tree, stack: seq<Tree>, out: seq<Entry>, whole: seq<Entry>)
    requires Visiting(h, NULL, t, [], stack, out, whole)
    ensures out == whole
  {
    assert InOrder(t) == [] && stack == [] && Owed(stack) == [];
    assert out + [] + [] == out;
  }

  /** Visits every entry exactly once, in ascending key order. out collects what the loop body sees. */
  method ForEach(tr: RbTree) returns (out: seq<Entry>)
    requires tr.Valid()
    requires tr.total < 0x8000_0000 // the stack size is an int32_t
    ensures out == InOrder(tr.shape) && Sorted(out) && MapOf(out) == tr.Contents() && |out| == tr.total
  {
    out := [];
    VisitStart(tr);
    MapOfSize(InOrder(tr.shape));
    hide Live;
    hide Stacked;
    hide Visiting;
    hide Rep;
    hide Balanced;
    hide NoRedRed;
    hide InOrder;
    hide MapOf;
    hide Sorted;
    if tr.root == NULL {
      return;
    }
    var rsk := new Stack<Ptr>(tr.total);
    var n := tr.root;
    ghost var t, stack := tr.shape, [];
    var empty := true;
    while n != NULL || !empty
      invariant rsk.Valid() && rsk.size == tr.total && fresh(rsk) && fresh(rsk.n) && empty == (rsk.Contents() == [])
      invariant Visiting(tr.heap, n, t, rsk.Contents(), stack, out, InOrder(tr.shape))
      decreases tr.total - |out|, |InOrder(t)|
    {
      if n != NULL {
        var left := PushLeft(tr.heap, n, t, rsk, stack, out, InOrder(tr.shape));
        n, t, stack := left, t.l, stack + [t];
      } else {
        var e, right := PopRight(tr.heap, t, rsk, stack, out, InOrder(tr.shape));
        n, t, stack := right, stack[|stack| - 1].r, stack[..|stack| - 1];
        out := out + [e];
      }
      empty := rsk.IsEmpty();
    }
    VisitEnd(tr.heap, t, stack, out, InOrder(tr.shape));
  }
}
