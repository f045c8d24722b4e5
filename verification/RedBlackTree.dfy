/** src/map/tree.c: the red-black tree with parent pointers.

    The text of tree.c has four slips (it never sets a new node's parent, and three tests name the
    wrong pointer). This class is the tree the text means; each corrected line carries the mark
    "repaired". TreeAsWritten models the text itself.
  */
module RedBlackTree {
  import opened Wrappers
  import opened TreeShape
  import opened TreeHeap
  import opened TreeRepair
  import opened TreeUnlink
  import opened TreeMap

  datatype Status = S_ERR | S_OK

  /** The memory holds a red-black tree and nothing else; shape is that tree. */
  ghost predicate Good(m: Mem, shape: Tree, total: nat) {
    GoodMem(m, shape, total) && RedBlack(shape)
  }

  /** All of that except the colours. */
  ghost predicate GoodMem(m: Mem, shape: Tree, total: nat) {
    && Holds(m, shape) && m.heap.Keys == Ptrs(shape) && Deads(shape) == {}
    && Sorted(InOrder(shape))
    && total == |InOrder(shape)|
  }

  lemma {:induction false} GoodStore(m: Mem, c: Ctx, t: Tree, total: nat, v: Value)
    requires Good(m, Plug(c, t), total) && t.N?
    ensures t.p in m.heap
    ensures var t' := t.(e := Entry(t.e.key, v));
            && Good(Mem(m.heap[t.p := m.heap[t.p].(value := v)], m.root), Plug(c, t'), total)
            && MapOf(InOrder(Plug(c, t'))) == MapOf(InOrder(Plug(c, t)))[t.e.key := v]
  {
    RepFocus(m.heap, m.root, c, t);
    RepStore(m, c, t, m.heap[t.p].(value := v));
    StoreAt(c, t, v);
    SwapEntry(c, t, Entry(t.e.key, v));
  }

  /** Everything but the colours is right once the new leaf hangs in place. */
  lemma {:induction false} GoodAttach(m: Mem, c: Ctx, total: nat, tmp: Ptr, e: Entry)
    requires Good(m, Plug(c, E), total) && tmp != NULL && tmp !in m.heap && Between(c, e.key)
    ensures c.Frame? ==> c.p in m.heap && c.p != tmp
    ensures var leaf := N(E, tmp, false, e, E);
            var m1 := Mem(m.heap[tmp := Node(NULL, NULL, HoleParent(c), false, e.key, e.value)], m.root);
            var m2 := WithLink(m1, HoleParent(c), c.Frame? && c.side.L?, tmp);
            && GoodMem(m2, Plug(c, leaf), total + 1) && InsertInv(c, Paint(leaf, true))
            && MapOf(InOrder(Plug(c, leaf))) == MapOf(InOrder(Plug(c, E)))[e.key := e.value]
  {
    var leaf := N(E, tmp, false, e, E);
    Attach(m, c, tmp, e);
    InsertStart(c, leaf);
    InsertAt(c, leaf);
    PlugPtrs(c, E);
    PlugPtrs(c, leaf);
    PlugDeads(c, E, leaf);
    assert Ptrs(leaf) == {tmp};
  }

  /** A repair loop that has done its work leaves a good tree with the same contents. */
  lemma {:induction false} GoodSame(m: Mem, m': Mem, t: Tree, u: Tree, total: nat)
    requires GoodMem(m, t, total) && Holds(m', u) && m'.heap.Keys == m.heap.Keys && RedBlack(u) && Same(u, t)
    ensures Good(m', u, total) && MapOf(InOrder(u)) == MapOf(InOrder(t)) && |MapOf(InOrder(u))| == total
  {
    MapOfSize(InOrder(u));
  }

  lemma {:induction false} InsertStart(c: Ctx, leaf: Tree)
    requires RedBlack(Plug(c, E)) && leaf.N? && leaf.l == E && leaf.r == E
    ensures InsertInv(c, Paint(leaf, true))
  {
    PlugBalanced(c, E);
    PlugNoRedRed(c, E);
    PlugIsRed(c, E);
  }

  /** A red-black tree in memory, and nothing else; the keys need not be in order. */
  ghost predicate Sits(m: Mem, t: Tree) {
    Holds(m, t) && m.heap.Keys == Ptrs(t) && Deads(t) == {} && RedBlack(t)
  }

  /** Another entry for one node. */
  lemma {:induction false} SetEntry(m: Mem, c: Ctx, t: Tree, e: Entry)
    requires Sits(m, Plug(c, t)) && t.N?
    ensures t.p in m.heap && m.heap[t.p].key == t.e.key && m.heap[t.p].value == t.e.value && m.heap[t.p].red == t.red
    ensures Sits(Mem(m.heap[t.p := m.heap[t.p].(key := e.key, value := e.value)], m.root), Plug(c, t.(e := e)))
  {
    CtxInHeap(m.heap, m.root, c, t);
    RepFocus(m.heap, m.root, c, t);
    RepStore(m, c, t, m.heap[t.p].(key := e.key, value := e.value));
    SwapEntry(c, t, e);
    assert t.(e := e) == N(t.l, t.p, t.red, e, t.r);
    hide Rep;
    hide RedBlack;
  }

  /** The node at the focus is about to go; rest is what must remain. Its own key need not be in order. */
  ghost predicate Doomed(m: Mem, c: Ctx, t: Tree, rest: seq<Entry>) {
    && Sits(m, Plug(c, t)) && t.N?
    && rest == (Before(c) + InOrder(t.l)) + (InOrder(t.r) + After(c))
  }

  /** The search has found the node; what must remain is the map without its key. */
  lemma {:induction false} RemoveStart(m: Mem, c: Ctx, t: Tree, total: nat, rest: seq<Entry>)
    requires Good(m, Plug(c, t), total) && t.N?
    requires rest == (Before(c) + InOrder(t.l)) + (InOrder(t.r) + After(c))
    ensures Doomed(m, c, t, rest) && t.p in m.heap
    ensures m.heap[t.p].left == Root(t.l) && m.heap[t.p].right == Root(t.r)
    ensures Root(t.l) == NULL <==> t.l == E
    ensures Root(t.r) == NULL <==> t.r == E
    ensures t.l == E || t.l.N?
    ensures t.r == E || t.r.N?
    ensures Sorted(rest) && MapOf(rest) == MapOf(InOrder(Plug(c, t))) - {t.e.key} && |rest| + 1 == total
  {
    RemoveAt(c, t, rest);
    RepFocus(m.heap, m.root, c, t);
    RepPtrs(m.heap, m.heap[t.p].left, t.p, t.l);
    RepPtrs(m.heap, m.heap[t.p].right, t.p, t.r);
    RootIn(t.l);
    RootIn(t.r);
    PlugDeadsIn(c, t);
  }

  /** It has gone. */
  ghost predicate Gone(m: Mem, shape: Tree, rest: seq<Entry>) {
    && Holds(m, shape) && m.heap.Keys == Ptrs(shape) && Deads(shape) == {}
    && RedBlack(shape) && InOrder(shape) == rest
  }

  /** The focus has two children: its successor (the leftmost node t2 of the right subtree, at the end of
      path d) gives it its entry, takes its value, and is doomed in its place. */
  lemma {:induction false} SwapSuccessor(m: Mem, c: Ctx, t: Tree, d: Ctx, t2: Tree, rest: seq<Entry>)
    requires Doomed(m, c, t, rest) && t2.N? && t2.l == E && LeftPath(d) && t.r == Plug(d, t2)
    ensures t.p in m.heap && t2.p in m.heap
    ensures var n1 := m.heap[t.p].(key := m.heap[t2.p].key, value := m.heap[t2.p].value);
            var m1 := m.heap[t.p := n1];
            var m2 := Mem(m1[t2.p := m1[t2.p].(value := t.e.value)], m.root);
            && t2.p != t.p
            && Doomed(m2, Over(d, Frame(c, R, t.p, t.red, t2.e, t.l)), t2.(e := Entry(t2.e.key, t.e.value)), rest)
  {
    var k, k1 := Frame(c, R, t.p, t.red, t.e, t.l), Frame(c, R, t.p, t.red, t2.e, t.l);
    PlugOver(d, k, t2);
    PlugOver(d, k1, t2);
    assert Plug(Over(d, k), t2) == Plug(k, t.r) == Plug(c, t);
    assert Plug(Over(d, k1), t2) == Plug(k1, t.r) == Plug(c, t.(e := t2.e));
    assert Holds(m, Plug(c, t));
    TwoNodes(m, c, t, d, t2);
    SetEntry(m, Over(d, k), t2, t2.e);
    SetEntry(m, c, t, t2.e); // the entry moves up
    var m1 := Mem(m.heap[t.p := m.heap[t.p].(key := t2.e.key, value := t2.e.value)], m.root);
    SetEntry(m1, Over(d, k1), t2, Entry(t2.e.key, t.e.value)); // the value moves down
    SwapRest(c, t, d, t2);
  }

  lemma {:induction false} TwoNodes(m: Mem, c: Ctx, t: Tree, d: Ctx, t2: Tree)
    requires Holds(m, Plug(c, t)) && t.N? && t2.N? && t.r == Plug(d, t2)
    ensures t.p != t2.p
  {
    var k := Frame(c, R, t.p, t.red, t.e, t.l);
    PlugOver(d, k, t2);
    CtxInHeap(m.heap, m.root, Over(d, k), t2);
    RepFocus(m.heap, m.root, Over(d, k), t2);
    OverPtrs(d, k);
  }

  lemma {:induction false} OverPtrs(d: Ctx, c: Ctx)
    ensures CtxPtrs(Over(d, c)) == CtxPtrs(d) + CtxPtrs(c)
    decreases d
  {
    if d.Frame? { OverPtrs(d.up, c); }
  }

  lemma {:induction false} OverAround(d: Ctx, c: Ctx)
    ensures Before(Over(d, c)) == Before(c) + Before(d) && After(Over(d, c)) == After(d) + After(c)
    decreases d
  {
    if d.Frame? {
      OverAround(d.up, c);
      ThreeAndOne([d.e], InOrder(d.sib), After(d.up), After(c));
      OneAndThree(Before(c), Before(d.up), InOrder(d.sib), [d.e]);
    } else {
      assert Before(c) + [] == Before(c) && [] + After(c) == After(c);
    }
  }

  lemma {:induction false} ThreeAndOne(a: seq<Entry>, b: seq<Entry>, c: seq<Entry>, d: seq<Entry>)
    ensures a + b + (c + d) == (a + b + c) + d
  {
  }

  lemma {:induction false} OneAndThree(a: seq<Entry>, b: seq<Entry>, c: seq<Entry>, d: seq<Entry>)
    ensures (a + b) + c + d == a + (b + c + d)
  {
    assert (a + b) + c == a + (b + c);
  }

  /** What must remain is the same, seen from the node and from its successor. */
  lemma {:induction false} SwapRest(c: Ctx, t: Tree, d: Ctx, t2: Tree)
    requires t.N? && t2.N? && t2.l == E && LeftPath(d) && t.r == Plug(d, t2)
    ensures var c2 := Over(d, Frame(c, R, t.p, t.red, t2.e, t.l));
            (Before(c2) + InOrder(E)) + (InOrder(t2.r) + After(c2)) == (Before(c) + InOrder(t.l)) + (InOrder(t.r) + After(c))
  {
    OverAround(d, Frame(c, R, t.p, t.red, t2.e, t.l));
    LeftPathBefore(d);
    assert InOrder(t.r) == [t2.e] + InOrder(t2.r) + After(d) by {
      InOrderPlug(d, t2);
      assert InOrder(t2) == [t2.e] + InOrder(t2.r);
    }
    Regroup(Before(c) + InOrder(t.l), t2.e, InOrder(t2.r), After(d), After(c));
  }

  lemma {:induction false} Regroup(a: seq<Entry>, e: Entry, r: seq<Entry>, x: seq<Entry>, b: seq<Entry>)
    ensures (a + [e] + [] + []) + (r + (x + b)) == a + (([e] + r + x) + b)
  {
  }

  /** Unhooking a node with an only child. */
  lemma {:induction false} GoneSplice(m: Mem, c: Ctx, t: Tree, x: Tree, rest: seq<Entry>)
    requires Doomed(m, c, t, rest) && x.N? && ((t.l == x && t.r == E) || (t.r == x && t.l == E))
    ensures InOrder(Plug(c, x)) == rest && Deads(Plug(c, x)) == {} && RemoveInv(c, x)
  {
    OnlyChild(c, t, x);
    InOrderPlug(c, x);
    PlugDeadsIn(c, x);
    PlugDeadsIn(c, t);
    hide Rep;
    hide RedBlack;
    hide RemoveInv;
    assert InOrder(E) == [];
    EmptyBeside(Before(c), InOrder(x), After(c));
  }

  lemma {:induction false} EmptyBeside(a: seq<Entry>, x: seq<Entry>, b: seq<Entry>)
    ensures (a + x) + ([] + b) == a + x + b && (a + []) + (x + b) == a + x + b
  {
    assert [] + b == b && a + [] == a;
    assert (a + x) + b == a + (x + b);
  }

  lemma {:induction false} OnlyChildIsNode(c: Ctx, t: Tree) returns (x: Tree)
    requires t.N? && Deads(Plug(c, t)) == {} && (t.l == E || t.r == E)
    requires (if t.l == E then Root(t.r) else Root(t.l)) != NULL
    ensures x == (if t.l == E then t.r else t.l) && x.N?
    ensures (t.l == x && t.r == E) || (t.r == x && t.l == E)
  {
    PlugDeadsIn(c, t);
    x := if t.l == E then t.r else t.l;
  }

  lemma {:induction false} GoneLeaf(m: Mem, c: Ctx, t: Tree, rest: seq<Entry>)
    requires Doomed(m, c, t, rest) && t.l == E && t.r == E
    ensures InOrder(Plug(c, E)) == rest && Deads(Plug(c, E)) == {}
    ensures InOrder(Plug(c, Dead(t.p))) == rest && Deads(Plug(c, Dead(t.p))) == {t.p}
    ensures Ptrs(Plug(c, Dead(t.p))) == Ptrs(Plug(c, t))
    ensures !t.red ==> Holds(m, Plug(c, Dead(t.p)))
  {
    InOrderPlug(c, E);
    InOrderPlug(c, Dead(t.p));
    PlugDeadsIn(c, t);
    PlugDeadsIn(c, Dead(t.p));
    PlugPtrs(c, t);
    PlugPtrs(c, Dead(t.p));
    assert (Before(c) + []) + ([] + After(c)) == Before(c) + [] + After(c);
    if !t.red {
      RepFocus(m.heap, m.root, c, t);
      CtxInHeap(m.heap, m.root, c, t);
      if c.Frame? { RepParent(m.heap, m.root, c, t); }
      RepReplace(m, m, c, t, Dead(t.p));
    }
  }

  /** What a search reads on its way. */
  lemma {:induction false} SearchReads(h: Heap, root: Ptr, c: Ctx, t: Tree)
    requires Rep(h, root, NULL, Plug(c, t)) && Deads(Plug(c, t)) == {}
    ensures Root(t) == NULL <==> t == E
    ensures c.Top? ==> root == Root(t)
    ensures Root(t) != NULL ==>
      && t.N? && t.p in h && Root(t) == t.p && h[t.p].key == t.e.key && h[t.p].left == Root(t.l) && h[t.p].right == Root(t.r)
      && (Root(t.l) == NULL || Root(t.l) in h) && (Root(t.r) == NULL || Root(t.r) in h)
  {
    PlugDeadsIn(c, t);
    RepFocus(h, root, c, t);
    RootIn(t);
    CtxInHeap(h, root, c, t);
    RepPtrs(h, Root(t), HoleParent(c), t);
    if t.N? {
      RootIn(t.l);
      RootIn(t.r);
    }
  }

  class RbTree {
    var max: nat
    var total: nat
    var root: Ptr
    var heap: Heap
    ghost var shape: Tree

    ghost predicate Valid()
      reads this
    {
      && Good(Mem(heap, root), shape, total)
      && (max > 0 ==> total <= max)
    }

    /** The finite map this tree is. */
    ghost function Contents(): map<int, Value>
      reads this
    {
      MapOf(InOrder(shape))
    }

    /** newTree. */
    constructor (max: nat)
      ensures Valid() && this.max == max && Contents() == map[]
    {
      this.max, total, root, heap, shape := max, 0, NULL, map[], E;
    }

    // -------------------------------------------------------------- accessors (tree.c:368-415)

    function LeftOf(p: Ptr): Ptr
      requires p == NULL || p in heap
      reads this
    {
      if p == NULL then NULL else heap[p].left
    }

    function RightOf(p: Ptr): Ptr
      requires p == NULL || p in heap
      reads this
    {
      if p == NULL then NULL else heap[p].right
    }

    function ParentOf(p: Ptr): Ptr
      requires p == NULL || p in heap
      reads this
    {
      if p == NULL then NULL else heap[p].parent
    }

    predicate IsRedColor(p: Ptr)
      requires p == NULL || p in heap
      reads this
    {
      p != NULL && heap[p].red
    }

    method SetColor(p: Ptr, red: bool)
      requires p == NULL || p in heap
      modifies this`heap
      ensures heap == Coloured(old(heap), p, red)
    {
      if p == NULL { return; }
      heap := heap[p := heap[p].(red := red)];
    }

    // -------------------------------------------------------------- rotations

    method LeftRotate(tn: Ptr)
      requires CanRotate(Mem(heap, root), tn, L)
      modifies this`heap, this`root
      ensures Mem(heap, root) == Rotated(old(Mem(heap, root)), tn, L)
    {
      var son := heap[tn].right;
      var parent := heap[tn].parent;
      if LeftOf(son) != NULL {
        heap := heap[heap[son].left := heap[heap[son].left].(parent := tn)];
      }
      heap := heap[tn := heap[tn].(right := LeftOf(son))];
      heap := heap[son := heap[son].(parent := parent)];
      heap := heap[tn := heap[tn].(parent := son)];
      if parent == NULL {
        root := son;
      } else if LeftOf(parent) == tn { // repaired: tree.c:82 asks leftOf(tn) == tn
        heap := heap[parent := heap[parent].(left := son)];
      } else {
        heap := heap[parent := heap[parent].(right := son)];
      }
      heap := heap[son := heap[son].(left := tn)];
    }

    method RightRotate(tn: Ptr)
      requires CanRotate(Mem(heap, root), tn, R)
      modifies this`heap, this`root
      ensures Mem(heap, root) == Rotated(old(Mem(heap, root)), tn, R)
    {
      var son := heap[tn].left;
      var parent := heap[tn].parent;
      if RightOf(son) != NULL {
        heap := heap[heap[son].right := heap[heap[son].right].(parent := tn)];
      }
      heap := heap[tn := heap[tn].(left := RightOf(son))];
      heap := heap[son := heap[son].(parent := parent)];
      heap := heap[tn := heap[tn].(parent := son)];
      if parent == NULL {
        root := son;
      } else if LeftOf(parent) == tn { // repaired: tree.c:108 asks leftOf(tn) == tn
        heap := heap[parent := heap[parent].(left := son)];
      } else {
        heap := heap[parent := heap[parent].(right := son)];
      }
      heap := heap[son := heap[son].(right := tn)];
    }

    // -------------------------------------------------------------- search

    /** getTreeNode. The zipper says where the search ended; its depth is the number of levels descended. */
    method GetTreeNode(key: int) returns (tn: Ptr, ghost c: Ctx, ghost t: Tree)
      requires Valid()
      ensures shape == Plug(c, t) && tn == Root(t) && Between(c, key)
      ensures if key in Contents() then t.N? && t.e == Entry(key, Contents()[key]) else t.E?
      ensures tn != NULL <==> key in Contents()
      ensures tn != NULL ==> tn in heap && heap[tn].value == Contents()[key]
      ensures Pow2(Depth(c)) <= (total + 1) * (total + 1)
    {
      tn, c, t := root, Top, shape;
      RepPtrs(heap, root, NULL, shape);
      while tn != NULL
        invariant shape == Plug(c, t) && tn == Root(t) && Between(c, key) && Deads(t) == {}
        decreases t
      {
        RepFocus(heap, root, c, t);
        if key < heap[tn].key {
          Descend(c, t, key);
          tn, c, t := LeftOf(tn), Frame(c, L, t.p, t.red, t.e, t.r), t.l;
        } else if key > heap[tn].key {
          Descend(c, t, key);
          tn, c, t := RightOf(tn), Frame(c, R, t.p, t.red, t.e, t.l), t.r;
        } else {
          FoundKey(c, t);
          ShallowSearch(c, t);
          return;
        }
        RepFocus(heap, root, c, t);
      }
      RepFocus(heap, root, c, t);
      RootIn(t);
      RepPtrs(heap, Root(t), HoleParent(c), t);
      MissingKey(c, key);
      ShallowSearch(c, t);
    }

    lemma ShallowSearch(c: Ctx, t: Tree)
      requires Valid() && shape == Plug(c, t)
      ensures Pow2(Depth(c)) <= (total + 1) * (total + 1)
    {
      DepthBound(c, t);
      HeightBound(shape);
      PowMonotone(Depth(c), Height(shape));
    }

    /** treeGet. */
    method Get(key: int) returns (value: Option<Value>)
      requires Valid()
      ensures value == if key in Contents() then Some(Contents()[key]) else None
    {
      var tn, c, t := GetTreeNode(key);
      value := if tn != NULL then Some(heap[tn].value) else None;
    }

    /** Redirecting the link that leads to a node: the tail of both treePut and treeRemove. */
    method SetLink(parent: Ptr, isLeft: bool, p: Ptr)
      requires parent == NULL || parent in heap
      modifies this`heap, this`root
      ensures Mem(heap, root) == WithLink(old(Mem(heap, root)), parent, isLeft, p)
    {
      if parent == NULL {
        root := p;
      } else if isLeft {
        heap := heap[parent := heap[parent].(left := p)];
      } else {
        heap := heap[parent := heap[parent].(right := p)];
      }
    }

    // -------------------------------------------------------------- insertion

    /** fixAfterInsert, entered with a new leaf t. c and t follow the loop's position. */
    method FixAfterInsert(node: Ptr, ghost c0: Ctx, ghost t0: Tree)
      requires Holds(Mem(heap, root), Plug(c0, t0)) && t0.N? && t0.p == node && InsertInv(c0, Paint(t0, true))
      modifies this`heap, this`root, this`shape
      ensures Holds(Mem(heap, root), shape) && RedBlack(shape) && Same(shape, Plug(c0, t0))
      ensures heap.Keys == old(heap.Keys)
    {
      hide Rep;
      hide Balanced;
      hide NoRedRed;
      hide CtxBalanced;
      hide CtxNoRedRed;
      PaintAt(Mem(heap, root), c0, t0, true);
      SetColor(node, true);
      var tn := node;
      ghost var c, t := c0, Paint(t0, true);
      InsertReads(Mem(heap, root), c, t);
      while tn != NULL && ParentOf(tn) != NULL && IsRedColor(ParentOf(tn))
        invariant Holds(Mem(heap, root), Plug(c, t)) && InsertInv(c, t) && tn == t.p && Same(Plug(c, t), Plug(c0, t0))
        invariant heap.Keys == old(heap.Keys)
        invariant tn in heap && (ParentOf(tn) == NULL || ParentOf(tn) in heap)
        invariant CtxRed(c) <==> ParentOf(tn) != NULL && IsRedColor(ParentOf(tn))
        decreases if CtxRed(c) then Depth(c) else 0
      {
        InsertReads(Mem(heap, root), c, t);
        var grand := ParentOf(ParentOf(tn));
        if ParentOf(tn) == LeftOf(grand) {
          tn, c, t := InsertTurnLeft(tn, grand, c, t);
        } else {
          tn, c, t := InsertTurnRight(tn, grand, c, t);
        }
        InsertReads(Mem(heap, root), c, t);
      }
      InsertDone(c, t);
      shape := Plug(c, t);
      RepPaint(Mem(heap, root), Top, shape, false);
      RepPtrs(heap, root, NULL, shape);
      shape := Paint(shape, false);
      SetColor(root, false);
    }

    /** One turn of the loop, the parent being a left child (tree.c:183-201). */
    method InsertTurnLeft(tn0: Ptr, grand0: Ptr, ghost c0: Ctx, ghost t0: Tree) returns (tn: Ptr, ghost c: Ctx, ghost t: Tree)
      requires Holds(Mem(heap, root), Plug(c0, t0)) && InsertInv(c0, t0) && tn0 == t0.p
      requires CtxRed(c0) && c0.up.Frame? && c0.up.side.L? && grand0 == c0.up.p
      modifies this`heap, this`root
      ensures Holds(Mem(heap, root), Plug(c, t)) && InsertInv(c, t) && tn == t.p && Same(Plug(c, t), Plug(c0, t0))
      ensures heap.Keys == old(heap.Keys)
      ensures CtxRed(c) ==> Depth(c) < Depth(c0)
    {
      hide Rep;
      hide Balanced;
      hide NoRedRed;
      hide CtxBalanced;
      hide CtxNoRedRed;
      hide Plug;
      hide InOrder;
      hide Ptrs;
      hide Deads;
      tn, c, t := tn0, c0, t0;
      InsertReads(Mem(heap, root), c, t);
      var grand := grand0;
      var uncle := RightOf(grand);
      if IsRedColor(uncle) {
        ghost var u := InsertRecolourMem(Mem(heap, root), c.up.up, L, grand, c.up.e, c.up.sib, c.side, c.p, c.e, c.sib, t);
        var parent := ParentOf(tn);
        SetColor(parent, false);
        SetColor(uncle, false);
        SetColor(grand, true);
        tn, c, t := grand, c.up.up, u;
      } else {
        if RightOf(ParentOf(tn)) == tn {
          ghost var c1, u := InsertInnerMem(Mem(heap, root), c.up.up, L, grand, c.up.e, c.up.sib, c.p, c.e, c.sib, t);
          tn := ParentOf(tn);
          LeftRotate(tn);
          c, t := c1, u;
          InsertReads(Mem(heap, root), c, t);
          grand := ParentOf(ParentOf(tn));
        }
        c := InsertOuterLeft(tn, grand, c, t);
      }
    }

    /** tn is an outer grandchild of grand, its uncle black (tree.c:198-200). */
    method InsertOuterLeft(tn: Ptr, grand: Ptr, ghost c0: Ctx, ghost t: Tree) returns (ghost c: Ctx)
      requires Holds(Mem(heap, root), Plug(c0, t)) && InsertInv(c0, t) && tn == t.p
      requires CtxRed(c0) && c0.side.L? && c0.up.Frame? && c0.up.side.L? && grand == c0.up.p && !IsRed(c0.up.sib)
      modifies this`heap, this`root
      ensures Holds(Mem(heap, root), Plug(c, t)) && InsertInv(c, t) && Same(Plug(c, t), Plug(c0, t))
      ensures heap.Keys == old(heap.Keys) && !CtxRed(c)
    {
      hide Rep;
      hide Balanced;
      hide NoRedRed;
      hide CtxBalanced;
      hide CtxNoRedRed;
      hide Plug;
      hide InOrder;
      hide Ptrs;
      hide Deads;
      InsertReads(Mem(heap, root), c0, t);
      c := InsertOuterMem(Mem(heap, root), c0.up.up, L, grand, c0.up.e, c0.up.sib, c0.p, c0.e, c0.sib, t);
      SetColor(ParentOf(tn), false);
      SetColor(grand, true);
      RightRotate(grand);
    }

    /** The mirror image (tree.c:203-219). */
    method InsertTurnRight(tn0: Ptr, grand0: Ptr, ghost c0: Ctx, ghost t0: Tree) returns (tn: Ptr, ghost c: Ctx, ghost t: Tree)
      requires Holds(Mem(heap, root), Plug(c0, t0)) && InsertInv(c0, t0) && tn0 == t0.p
      requires CtxRed(c0) && c0.up.Frame? && c0.up.side.R? && grand0 == c0.up.p
      modifies this`heap, this`root
      ensures Holds(Mem(heap, root), Plug(c, t)) && InsertInv(c, t) && tn == t.p && Same(Plug(c, t), Plug(c0, t0))
      ensures heap.Keys == old(heap.Keys)
      ensures CtxRed(c) ==> Depth(c) < Depth(c0)
    {
      hide Rep;
      hide Balanced;
      hide NoRedRed;
      hide CtxBalanced;
      hide CtxNoRedRed;
      hide Plug;
      hide InOrder;
      hide Ptrs;
      hide Deads;
      tn, c, t := tn0, c0, t0;
      InsertReads(Mem(heap, root), c, t);
      var grand := grand0;
      var uncle := LeftOf(grand);
      if IsRedColor(uncle) {
        ghost var u := InsertRecolourMem(Mem(heap, root), c.up.up, R, grand, c.up.e, c.up.sib, c.side, c.p, c.e, c.sib, t);
        var parent := ParentOf(tn);
        SetColor(parent, false);
        SetColor(uncle, false);
        SetColor(grand, true);
        tn, c, t := grand, c.up.up, u;
      } else {
        if LeftOf(ParentOf(tn)) == tn {
          ghost var c1, u := InsertInnerMem(Mem(heap, root), c.up.up, R, grand, c.up.e, c.up.sib, c.p, c.e, c.sib, t);
          tn := ParentOf(tn);
          RightRotate(tn);
          c, t := c1, u;
          InsertReads(Mem(heap, root), c, t);
          grand := ParentOf(ParentOf(tn));
        }
        c := InsertOuterRight(tn, grand, c, t);
      }
    }

    /** tn is an outer grandchild of grand, its uncle black (tree.c:216-218). */
    method InsertOuterRight(tn: Ptr, grand: Ptr, ghost c0: Ctx, ghost t: Tree) returns (ghost c: Ctx)
      requires Holds(Mem(heap, root), Plug(c0, t)) && InsertInv(c0, t) && tn == t.p
      requires CtxRed(c0) && c0.side.R? && c0.up.Frame? && c0.up.side.R? && grand == c0.up.p && !IsRed(c0.up.sib)
      modifies this`heap, this`root
      ensures Holds(Mem(heap, root), Plug(c, t)) && InsertInv(c, t) && Same(Plug(c, t), Plug(c0, t))
      ensures heap.Keys == old(heap.Keys) && !CtxRed(c)
    {
      hide Rep;
      hide Balanced;
      hide NoRedRed;
      hide CtxBalanced;
      hide CtxNoRedRed;
      hide Plug;
      hide InOrder;
      hide Ptrs;
      hide Deads;
      InsertReads(Mem(heap, root), c0, t);
      c := InsertOuterMem(Mem(heap, root), c0.up.up, R, grand, c0.up.e, c0.up.sib, c0.p, c0.e, c0.sib, t);
      SetColor(ParentOf(tn), false);
      SetColor(grand, true);
      LeftRotate(grand);
    }

    /** treePut. mallocd is what malloc returns should a node be needed: a free address, or NULL on failure.
        The full-tree test comes before the search, so even an existing key cannot be updated in a full tree. */
    method Put(key: int, value: Value, mallocd: Ptr) returns (status: Status)
      requires Valid() && mallocd !in heap
      modifies this
      ensures Valid() && max == old(max)
      ensures status == S_ERR <==>
              old((max > 0 && total >= max) || (key !in Contents() && mallocd == NULL))
      ensures status == S_ERR ==> heap == old(heap) && root == old(root) && Contents() == old(Contents())
      ensures status == S_OK ==> Contents() == old(Contents())[key := value]
      ensures total == |Contents()|
    {
      MapOfSize(InOrder(shape));
      if max > 0 && total >= max {
        return S_ERR;
      }
      var tn, parent, isLeft, c, t := SearchPlace(key);
      if tn != NULL {
        StoreValue(tn, value, c, t);
        return S_OK;
      }
      if mallocd == NULL {
        return S_ERR;
      }
      AttachNode(mallocd, parent, isLeft, Entry(key, value), c);
      return S_OK;
    }

    /** The descent of treePut (tree.c:132-151): to the node with this key, or to the place where it belongs. */
    method SearchPlace(key: int) returns (tn: Ptr, parent: Ptr, isLeft: bool, ghost c: Ctx, ghost t: Tree)
      requires Valid()
      ensures shape == Plug(c, t) && tn == Root(t) && Between(c, key)
      ensures parent == HoleParent(c) && isLeft == (c.Frame? && c.side.L?)
      ensures if tn != NULL then t.N? && t.p == tn && t.e.key == key && tn in heap && key in Contents()
              else t == E && key !in Contents()
      ensures Pow2(Depth(c)) <= (total + 1) * (total + 1)
    {
      hide Rep;
      hide Balanced;
      hide NoRedRed;
      SearchReads(heap, root, Top, shape);
      tn, parent, isLeft, c, t := root, NULL, false, Top, shape;
      while tn != NULL
        invariant shape == Plug(c, t) && tn == Root(t) && Between(c, key)
        invariant tn == NULL || tn in heap
        invariant parent == HoleParent(c) && isLeft == (c.Frame? && c.side.L?)
        decreases t
      {
        SearchReads(heap, root, c, t);
        if key < heap[tn].key {
          Descend(c, t, key);
          parent, isLeft := tn, true;
          tn, c, t := LeftOf(tn), Frame(c, L, t.p, t.red, t.e, t.r), t.l;
        } else if key > heap[tn].key {
          Descend(c, t, key);
          parent, isLeft := tn, false;
          tn, c, t := RightOf(tn), Frame(c, R, t.p, t.red, t.e, t.l), t.r;
        } else {
          FoundKey(c, t);
          ShallowSearch(c, t);
          return;
        }
      }
      SearchReads(heap, root, c, t);
      MissingKey(c, key);
      ShallowSearch(c, t);
    }

    /** tn->value = value (tree.c:147-148). */
    method StoreValue(tn: Ptr, value: Value, ghost c: Ctx, ghost t: Tree)
      requires Valid() && shape == Plug(c, t) && t.N? && t.p == tn
      modifies this`heap, this`shape
      ensures Valid() && Contents() == old(Contents())[t.e.key := value] && total == |Contents()|
      ensures t.e.key in old(Contents())
    {
      hide Rep;
      hide Balanced;
      hide NoRedRed;
      hide CtxBalanced;
      hide CtxNoRedRed;
      FoundKey(c, t);
      GoodStore(Mem(heap, root), c, t, total, value);
      heap := heap[tn := heap[tn].(value := value)];
      shape := Plug(c, t.(e := Entry(t.e.key, value)));
      MapOfSize(InOrder(shape));
    }

    /** The new leaf is linked, counted and repaired (tree.c:153-168). */
    method AttachNode(tmp: Ptr, parent: Ptr, isLeft: bool, e: Entry, ghost c: Ctx)
      requires Valid() && shape == Plug(c, E) && tmp != NULL && tmp !in heap
      requires Between(c, e.key) && parent == HoleParent(c) && isLeft == (c.Frame? && c.side.L?)
      requires max == 0 || total < max
      modifies this`heap, this`root, this`shape, this`total
      ensures Valid() && Contents() == old(Contents())[e.key := e.value] && total == |Contents()|
    {
      hide Rep;
      hide Balanced;
      hide NoRedRed;
      hide CtxBalanced;
      hide CtxNoRedRed;
      ghost var leaf := LinkLeaf(tmp, parent, isLeft, e, c);
      ghost var m := Mem(heap, root);
      FixAfterInsert(tmp, c, leaf);
      GoodSame(m, Mem(heap, root), Plug(c, leaf), shape, total);
    }

    method LinkLeaf(tmp: Ptr, parent: Ptr, isLeft: bool, e: Entry, ghost c: Ctx) returns (ghost leaf: Tree)
      requires Valid() && shape == Plug(c, E) && tmp != NULL && tmp !in heap
      requires Between(c, e.key) && parent == HoleParent(c) && isLeft == (c.Frame? && c.side.L?)
      modifies this`heap, this`root, this`total
      ensures GoodMem(Mem(heap, root), Plug(c, leaf), total) && leaf.N? && leaf.p == tmp
      ensures InsertInv(c, Paint(leaf, true))
      ensures total == old(total) + 1
      ensures MapOf(InOrder(Plug(c, leaf))) == old(Contents())[e.key := e.value]
    {
      hide Rep;
      hide Balanced;
      hide NoRedRed;
      hide CtxBalanced;
      hide CtxNoRedRed;
      GoodAttach(Mem(heap, root), c, total, tmp, e);
      leaf := N(E, tmp, false, e, E);
      // newTreeNode
      heap := heap[tmp := Node(NULL, NULL, parent, false, e.key, e.value)]; // repaired: tree.c:158 leaves tmp->parent NULL
      SetLink(parent, isLeft, tmp);
      total := total + 1;
    }

    // -------------------------------------------------------------- removal

    /** treeRemove. */
    method Remove(key: int) returns (value: Option<Value>)
      requires Valid()
      modifies this
      ensures Valid() && max == old(max)
      ensures value == if key in old(Contents()) then Some(old(Contents())[key]) else None
      ensures Contents() == old(Contents()) - {key}
      ensures total == old(total) - if key in old(Contents()) then 1 else 0
      ensures total == |Contents()|
    {
      hide Rep;
      hide Balanced;
      hide NoRedRed;
      hide CtxBalanced;
      hide CtxNoRedRed;
      ContentsSize();
      if root == NULL {
        RootIn(shape);
        RepPtrs(heap, root, NULL, shape);
        return None;
      }
      var current, c, t := GetTreeNode(key);
      if current == NULL {
        return None;
      }
      ghost var rest := (Before(c) + InOrder(t.l)) + (InOrder(t.r) + After(c));
      RemoveStart(Mem(heap, root), c, t, total, rest);
      ghost var m := MapOf(rest);
      if LeftOf(current) != NULL && RightOf(current) != NULL {
        current, c, t := SwapWithSuccessor(current, c, t, rest);
      }
      var mv := Unhook(current, c, t, rest);
      value := Some(mv);
      total := total - 1;
      ContentsSize();
    }

    lemma ContentsSize()
      requires Valid()
      ensures |Contents()| == total
    {
      MapOfSize(InOrder(shape));
    }

    /** successor, and the exchange of entries (tree.c:240-245, 417-430). */
    method SwapWithSuccessor(current0: Ptr, ghost c0: Ctx, ghost t0: Tree, ghost rest: seq<Entry>)
      returns (current: Ptr, ghost c: Ctx, ghost t: Tree)
      requires Doomed(Mem(heap, root), c0, t0, rest) && t0.p == current0 && t0.r.N?
      modifies this`heap
      ensures Doomed(Mem(heap, root), c, t, rest) && t.p == current && t.l == E && t.e.value == t0.e.value
    {
      RepFocus(heap, root, c0, t0);
      var search := RightOf(current0);
      ghost var d, t2 := Top, t0.r;
      PlugDeadsIn(c0, t0);
      RootIn(t2);
      RepPtrs(heap, search, current0, t2);
      while LeftOf(search) != NULL
        invariant heap == old(heap)
        invariant t0.r == Plug(d, t2) && LeftPath(d) && t2.N? && search == t2.p && search in heap
        invariant Deads(t2) == {} && Rep(heap, search, heap[search].parent, t2)
        decreases t2
      {
        RootIn(t2.l);
        RepPtrs(heap, heap[search].left, search, t2.l);
        search := LeftOf(search);
        d, t2 := Frame(d, L, t2.p, t2.red, t2.e, t2.r), t2.l;
      }
      RootIn(t2.l);
      RepPtrs(heap, heap[search].left, search, t2.l);
      SwapSuccessor(Mem(heap, root), c0, t0, d, t2, rest);
      var mv := heap[current0].value;
      heap := heap[current0 := heap[current0].(key := heap[search].key, value := heap[search].value)];
      heap := heap[search := heap[search].(value := mv)];
      current := search;
      c, t := Over(d, Frame(c0, R, t0.p, t0.red, t2.e, t0.l)), t2.(e := Entry(t2.e.key, t0.e.value));
    }

    /** The rest of treeRemove (tree.c:249-288): current has at most one child. */
    method Unhook(current: Ptr, ghost c: Ctx, ghost t: Tree, ghost rest: seq<Entry>) returns (mv: Value)
      requires Doomed(Mem(heap, root), c, t, rest) && t.p == current && (t.l == E || t.r == E)
      modifies this`heap, this`root, this`shape
      ensures Gone(Mem(heap, root), shape, rest) && mv == t.e.value
    {
      RepFocus(heap, root, c, t);
      RepPtrs(heap, current, HoleParent(c), t);
      RootIn(t.l);
      RootIn(t.r);
      mv := heap[current].value;
      PlugDeadsIn(c, t);
      var replace := if LeftOf(current) != NULL then LeftOf(current) else RightOf(current);
      if replace != NULL {
        UnhookSpliced(current, replace, c, t, rest);
      } else if ParentOf(current) == NULL { // repaired: tree.c:267 asks parentOf(replace) == NULL
        GoneLeaf(Mem(heap, root), c, t, rest);
        Clip(Mem(heap, root), c, t);
        RepFocus(heap, root, c, t);
        root := NULL;
        shape := Plug(c, E);
      } else {
        UnhookLeaf(current, c, t, rest);
      }
      // freeTreeNode
      Forget(Mem(heap, root), shape, current);
      heap := heap - {current};
    }

    /** The child takes current's place and is repaired (tree.c:250-266). */
    method UnhookSpliced(current: Ptr, replace: Ptr, ghost c: Ctx, ghost t: Tree, ghost rest: seq<Entry>)
      requires Doomed(Mem(heap, root), c, t, rest) && t.p == current && (t.l == E || t.r == E)
      requires replace != NULL && replace == if t.l == E then Root(t.r) else Root(t.l)
      modifies this`heap, this`root, this`shape
      ensures Holds(Mem(heap, root), shape) && RedBlack(shape) && InOrder(shape) == rest && Deads(shape) == {}
      ensures heap.Keys == Ptrs(shape) + {current} && current !in Ptrs(shape)
    {
      hide Rep;
      hide Balanced;
      hide NoRedRed;
      hide CtxBalanced;
      hide CtxNoRedRed;
      ghost var x := OnlyChildIsNode(c, t);
      OnlyChild(c, t, x);
      GoneSplice(Mem(heap, root), c, t, x, rest);
      SpliceOut(current, replace, c, t, x);
      if !IsRedColor(current) {
        shape := FixAfterRemove(replace, c, x);
      }
    }

    method SpliceOut(current: Ptr, replace: Ptr, ghost c: Ctx, ghost t: Tree, ghost x: Tree)
      requires Holds(Mem(heap, root), Plug(c, t)) && heap.Keys == Ptrs(Plug(c, t)) && t.N? && t.p == current
      requires x.N? && x.p == replace && ((t.l == x && t.r == E) || (t.r == x && t.l == E))
      modifies this`heap, this`root
      ensures Holds(Mem(heap, root), Plug(c, x)) && current in heap && heap[current].red == t.red && current != NULL
      ensures heap.Keys == Ptrs(Plug(c, x)) + {current} && current !in Ptrs(Plug(c, x))
    {
      Splice(Mem(heap, root), c, t, x);
      heap := heap[replace := heap[replace].(parent := ParentOf(current))];
      SetLink(ParentOf(current), ParentOf(current) != NULL && LeftOf(ParentOf(current)) == current, replace);
    }

    /** A leaf below another node is repaired while it still hangs there, and then cut off (tree.c:270-280). */
    method UnhookLeaf(current: Ptr, ghost c: Ctx, ghost t: Tree, ghost rest: seq<Entry>)
      requires Doomed(Mem(heap, root), c, t, rest) && t.p == current && t.l == E && t.r == E && c.Frame?
      modifies this`heap, this`root, this`shape
      ensures Holds(Mem(heap, root), shape) && RedBlack(shape) && InOrder(shape) == rest && Deads(shape) == {}
      ensures heap.Keys == Ptrs(shape) + {current} && current !in Ptrs(shape)
    {
      hide Rep;
      hide Balanced;
      hide NoRedRed;
      hide CtxBalanced;
      hide CtxNoRedRed;
      RepFocus(heap, root, c, t);
      if !IsRedColor(current) {
        shape := RepairLeaf(current, c, t, rest);
      } else {
        GoneLeaf(Mem(heap, root), c, t, rest);
        Clip(Mem(heap, root), c, t);
        RedLeaf(c, t);
        shape := Plug(c, E);
      }
      CutOff(current);
    }

    method RepairLeaf(current: Ptr, ghost c: Ctx, ghost t: Tree, ghost rest: seq<Entry>) returns (ghost u: Tree)
      requires Doomed(Mem(heap, root), c, t, rest) && t.p == current && t.l == E && t.r == E && c.Frame? && !t.red
      modifies this`heap, this`root
      ensures current in heap && current != NULL && heap[current].parent != NULL && heap[current].parent in heap
      ensures var up := heap[current].parent; Holds(WithLink(Mem(heap, root), up, heap[up].left == current, NULL), u)
      ensures RedBlack(u) && InOrder(u) == rest && Deads(u) == {}
      ensures heap.Keys == Ptrs(u) + {current} && current !in Ptrs(u)
    {
      hide Rep;
      hide Balanced;
      hide NoRedRed;
      hide CtxBalanced;
      hide CtxNoRedRed;
      GoneLeaf(Mem(heap, root), c, t, rest);
      RepFocus(heap, root, c, t);
      NotAlone(c, t, rest);
      BlackLeaf(c, t);
      u := FixAfterRemove(current, c, Dead(current));
      DeadEnds(Mem(heap, root), u, current);
      u := Bury(u);
    }

    lemma {:induction false} NotAlone(c: Ctx, t: Tree, rest: seq<Entry>)
      requires c.Frame? && t.N? && rest == (Before(c) + InOrder(t.l)) + (InOrder(t.r) + After(c))
      ensures rest != []
    {
    }

    /** Clears the link that leads to current (tree.c:274-280). */
    method CutOff(current: Ptr)
      requires current in heap && current != NULL && (heap[current].parent == NULL || heap[current].parent in heap)
      modifies this`heap, this`root
      ensures var m, up := old(Mem(heap, root)), old(heap[current].parent);
              Mem(heap, root) == if up == NULL then m else WithLink(m, up, m.heap[up].left == current, NULL)
    {
      if ParentOf(current) != NULL {
        SetLink(ParentOf(current), LeftOf(ParentOf(current)) == current, NULL);
      }
    }

    // -------------------------------------------------------------- fixAfterRemove

    /** t0 is one black node short of what its place asks for; it is red, or black with the shortage
        to be passed on. */
    method FixAfterRemove(node: Ptr, ghost c0: Ctx, ghost t0: Tree) returns (ghost u: Tree)
      requires Holds(Mem(heap, root), Plug(c0, t0)) && RemoveInv(c0, t0) && !t0.E? && Root(t0) == node
      modifies this`heap, this`root
      ensures Holds(Mem(heap, root), u) && RedBlack(u) && Same(u, Plug(c0, t0)) && heap.Keys == old(heap.Keys)
    {
      hide Rep;
      hide Balanced;
      hide NoRedRed;
      hide CtxBalanced;
      hide CtxNoRedRed;
      var tn := node;
      ghost var c, t := c0, t0;
      RemoveReads(Mem(heap, root), c, t);
      while tn != root && !IsRedColor(tn)
        invariant Holds(Mem(heap, root), Plug(c, t)) && RemoveInv(c, t) && !t.E? && tn == Root(t)
        invariant Same(Plug(c, t), Plug(c0, t0)) && heap.Keys == old(heap.Keys)
        invariant tn in heap && (tn == root <==> c.Top?) && (IsRedColor(tn) <==> IsRed(t))
        decreases if c.Top? || IsRed(t) then 0 else Depth(c)
      {
        RemoveReads(Mem(heap, root), c, t);
        if LeftOf(ParentOf(tn)) == tn { // repaired: tree.c:300 asks leftOf(tn) == tn
          tn, c, t := RemoveTurnLeft(tn, c, t);
        } else {
          tn, c, t := RemoveTurnRight(tn, c, t);
        }
        RemoveReads(Mem(heap, root), c, t);
      }
      RemoveDone(c, t);
      RepPaint(Mem(heap, root), c, t, false);
      PaintSame(t, false);
      PlugSame(c, t, Paint(t, false));
      u := Plug(c, Paint(t, false));
      SetColor(tn, false);
    }

    /** One turn, tn being a left child (tree.c:301-335). */
    method RemoveTurnLeft(tn0: Ptr, ghost c0: Ctx, ghost t0: Tree) returns (tn: Ptr, ghost c: Ctx, ghost t: Tree)
      requires Holds(Mem(heap, root), Plug(c0, t0)) && RemoveInv(c0, t0) && !t0.E? && Root(t0) == tn0
      requires !IsRed(t0) && c0.Frame? && c0.side.L?
      modifies this`heap, this`root
      ensures Holds(Mem(heap, root), Plug(c, t)) && RemoveInv(c, t) && !t.E? && tn == Root(t)
      ensures Same(Plug(c, t), Plug(c0, t0)) && heap.Keys == old(heap.Keys)
      ensures c.Top? || IsRed(t) || Depth(c) < Depth(c0)
    {
      hide Rep;
      hide Balanced;
      hide NoRedRed;
      hide CtxBalanced;
      hide CtxNoRedRed;
      hide Plug;
      hide InOrder;
      hide Ptrs;
      hide Deads;
      tn, c, t := tn0, c0, t0;
      RemoveReads(Mem(heap, root), c, t);
      var sib := RightOf(ParentOf(tn));
      if IsRedColor(sib) {
        ghost var c1 := RemoveRedSiblingMem(Mem(heap, root), c.up, L, c.p, c.red, c.e, c.sib, t);
        SetColor(sib, false);
        SetColor(ParentOf(tn), true);
        LeftRotate(ParentOf(tn));
        c := c1;
        RemoveReads(Mem(heap, root), c, t);
        sib := RightOf(ParentOf(tn));
      }
      tn, c, t := RemoveBlackLeft(tn, sib, c, t);
    }

    method RemoveBlackLeft(tn0: Ptr, sib0: Ptr, ghost c0: Ctx, ghost t0: Tree) returns (tn: Ptr, ghost c: Ctx, ghost t: Tree)
      requires Holds(Mem(heap, root), Plug(c0, t0)) && RemoveInv(c0, t0) && !t0.E? && Root(t0) == tn0
      requires !IsRed(t0) && c0.Frame? && c0.side.L? && c0.sib.N? && sib0 == c0.sib.p && !c0.sib.red
      modifies this`heap, this`root
      ensures Holds(Mem(heap, root), Plug(c, t)) && RemoveInv(c, t) && !t.E? && tn == Root(t)
      ensures Same(Plug(c, t), Plug(c0, t0)) && heap.Keys == old(heap.Keys)
      ensures c.Top? || (t.N? && t.red == c0.red && c == c0.up)
    {
      hide Rep;
      hide Balanced;
      hide NoRedRed;
      hide CtxBalanced;
      hide CtxNoRedRed;
      tn, c, t := tn0, c0, t0;
      RemoveReads(Mem(heap, root), c, t);
      if !IsRedColor(LeftOf(sib0)) && !IsRedColor(RightOf(sib0)) {
        ghost var u := RemoveBlackNephewsMem(Mem(heap, root), c.up, L, c.p, c.red, c.e, c.sib, t);
        var parent := ParentOf(tn);
        SetColor(sib0, true);
        tn, c, t := parent, c.up, u;
      } else {
        t := RemoveRedNephewLeft(tn, sib0, c, t);
        tn, c := root, Top;
        RepPtrs(heap, root, NULL, t);
      }
    }

    /** At least one nephew is red: the shortage ends here. */
    method RemoveRedNephewLeft(tn: Ptr, sib0: Ptr, ghost c0: Ctx, ghost t: Tree) returns (ghost u: Tree)
      requires Holds(Mem(heap, root), Plug(c0, t)) && RemoveInv(c0, t) && !t.E? && Root(t) == tn
      requires !IsRed(t) && c0.Frame? && c0.side.L? && c0.sib.N? && sib0 == c0.sib.p && !c0.sib.red
      requires IsRed(c0.sib.l) || IsRed(c0.sib.r)
      modifies this`heap, this`root
      ensures Holds(Mem(heap, root), u) && RemoveInv(Top, u) && !u.E?
      ensures Same(u, Plug(c0, t)) && heap.Keys == old(heap.Keys)
    {
      hide Rep;
      hide Balanced;
      hide NoRedRed;
      hide CtxBalanced;
      hide CtxNoRedRed;
      hide Plug;
      hide InOrder;
      hide Ptrs;
      hide Deads;
      ghost var c := c0;
      var sib := sib0;
      RemoveReads(Mem(heap, root), c, t);
      if !IsRedColor(RightOf(sib)) {
        ghost var c1 := RemoveInnerNephewMem(Mem(heap, root), c.up, L, c.p, c.red, c.e, c.sib, t);
        SetColor(sib, true);
        SetColor(LeftOf(sib), false);
        RightRotate(sib);
        c := c1;
        RemoveReads(Mem(heap, root), c, t);
        sib := RightOf(ParentOf(tn));
      }
      u := RemoveFarNephewLeft(tn, sib, c, t);
    }

    method RemoveFarNephewLeft(tn: Ptr, sib: Ptr, ghost c: Ctx, ghost t: Tree) returns (ghost u: Tree)
      requires Holds(Mem(heap, root), Plug(c, t)) && RemoveInv(c, t) && !t.E? && Root(t) == tn
      requires !IsRed(t) && c.Frame? && c.side.L? && c.sib.N? && sib == c.sib.p && !c.sib.red && IsRed(c.sib.r)
      modifies this`heap, this`root
      ensures Holds(Mem(heap, root), u) && RemoveInv(Top, u) && !u.E?
      ensures Same(u, Plug(c, t)) && heap.Keys == old(heap.Keys)
    {
      hide Rep;
      hide Balanced;
      hide NoRedRed;
      hide CtxBalanced;
      hide CtxNoRedRed;
      hide Plug;
      hide InOrder;
      hide Ptrs;
      hide Deads;
      RemoveReads(Mem(heap, root), c, t);
      u := RemoveOuterNephewMem(Mem(heap, root), c.up, L, c.p, c.red, c.e, c.sib, t);
      SetColor(sib, heap[ParentOf(tn)].red);
      SetColor(ParentOf(tn), false);
      SetColor(RightOf(sib), false);
      LeftRotate(ParentOf(tn));
    }

    /** The mirror image (tree.c:337-361). */
    method RemoveTurnRight(tn0: Ptr, ghost c0: Ctx, ghost t0: Tree) returns (tn: Ptr, ghost c: Ctx, ghost t: Tree)
      requires Holds(Mem(heap, root), Plug(c0, t0)) && RemoveInv(c0, t0) && !t0.E? && Root(t0) == tn0
      requires !IsRed(t0) && c0.Frame? && c0.side.R?
      modifies this`heap, this`root
      ensures Holds(Mem(heap, root), Plug(c, t)) && RemoveInv(c, t) && !t.E? && tn == Root(t)
      ensures Same(Plug(c, t), Plug(c0, t0)) && heap.Keys == old(heap.Keys)
      ensures c.Top? || IsRed(t) || Depth(c) < Depth(c0)
    {
      hide Rep;
      hide Balanced;
      hide NoRedRed;
      hide CtxBalanced;
      hide CtxNoRedRed;
      hide Plug;
      hide InOrder;
      hide Ptrs;
      hide Deads;
      tn, c, t := tn0, c0, t0;
      RemoveReads(Mem(heap, root), c, t);
      var sib := LeftOf(ParentOf(tn));
      if IsRedColor(sib) {
        ghost var c1 := RemoveRedSiblingMem(Mem(heap, root), c.up, R, c.p, c.red, c.e, c.sib, t);
        SetColor(sib, false);
        SetColor(ParentOf(tn), true);
        RightRotate(ParentOf(tn));
        c := c1;
        RemoveReads(Mem(heap, root), c, t);
        sib := LeftOf(ParentOf(tn));
      }
      tn, c, t := RemoveBlackRight(tn, sib, c, t);
    }

    method RemoveBlackRight(tn0: Ptr, sib0: Ptr, ghost c0: Ctx, ghost t0: Tree) returns (tn: Ptr, ghost c: Ctx, ghost t: Tree)
      requires Holds(Mem(heap, root), Plug(c0, t0)) && RemoveInv(c0, t0) && !t0.E? && Root(t0) == tn0
      requires !IsRed(t0) && c0.Frame? && c0.side.R? && c0.sib.N? && sib0 == c0.sib.p && !c0.sib.red
      modifies this`heap, this`root
      ensures Holds(Mem(heap, root), Plug(c, t)) && RemoveInv(c, t) && !t.E? && tn == Root(t)
      ensures Same(Plug(c, t), Plug(c0, t0)) && heap.Keys == old(heap.Keys)
      ensures c.Top? || (t.N? && t.red == c0.red && c == c0.up)
    {
      hide Rep;
      hide Balanced;
      hide NoRedRed;
      hide CtxBalanced;
      hide CtxNoRedRed;
      tn, c, t := tn0, c0, t0;
      RemoveReads(Mem(heap, root), c, t);
      if !IsRedColor(LeftOf(sib0)) && !IsRedColor(RightOf(sib0)) {
        ghost var u := RemoveBlackNephewsMem(Mem(heap, root), c.up, R, c.p, c.red, c.e, c.sib, t);
        var parent := ParentOf(tn);
        SetColor(sib0, true);
        tn, c, t := parent, c.up, u;
      } else {
        t := RemoveRedNephewRight(tn, sib0, c, t);
        tn, c := root, Top;
        RepPtrs(heap, root, NULL, t);
      }
    }

    /** At least one nephew is red: the shortage ends here. */
    method RemoveRedNephewRight(tn: Ptr, sib0: Ptr, ghost c0: Ctx, ghost t: Tree) returns (ghost u: Tree)
      requires Holds(Mem(heap, root), Plug(c0, t)) && RemoveInv(c0, t) && !t.E? && Root(t) == tn
      requires !IsRed(t) && c0.Frame? && c0.side.R? && c0.sib.N? && sib0 == c0.sib.p && !c0.sib.red
      requires IsRed(c0.sib.l) || IsRed(c0.sib.r)
      modifies this`heap, this`root
      ensures Holds(Mem(heap, root), u) && RemoveInv(Top, u) && !u.E?
      ensures Same(u, Plug(c0, t)) && heap.Keys == old(heap.Keys)
    {
      hide Rep;
      hide Balanced;
      hide NoRedRed;
      hide CtxBalanced;
      hide CtxNoRedRed;
      hide Plug;
      hide InOrder;
      hide Ptrs;
      hide Deads;
      ghost var c := c0;
      var sib := sib0;
      RemoveReads(Mem(heap, root), c, t);
      if !IsRedColor(LeftOf(sib)) {
        ghost var c1 := RemoveInnerNephewMem(Mem(heap, root), c.up, R, c.p, c.red, c.e, c.sib, t);
        SetColor(sib, true);
        SetColor(RightOf(sib), false);
        LeftRotate(sib);
        c := c1;
        RemoveReads(Mem(heap, root), c, t);
        sib := LeftOf(ParentOf(tn));
      }
      u := RemoveFarNephewRight(tn, sib, c, t);
    }

    method RemoveFarNephewRight(tn: Ptr, sib: Ptr, ghost c: Ctx, ghost t: Tree) returns (ghost u: Tree)
      requires Holds(Mem(heap, root), Plug(c, t)) && RemoveInv(c, t) && !t.E? && Root(t) == tn
      requires !IsRed(t) && c.Frame? && c.side.R? && c.sib.N? && sib == c.sib.p && !c.sib.red && IsRed(c.sib.l)
      modifies this`heap, this`root
      ensures Holds(Mem(heap, root), u) && RemoveInv(Top, u) && !u.E?
      ensures Same(u, Plug(c, t)) && heap.Keys == old(heap.Keys)
    {
      hide Rep;
      hide Balanced;
      hide NoRedRed;
      hide CtxBalanced;
      hide CtxNoRedRed;
      hide Plug;
      hide InOrder;
      hide Ptrs;
      hide Deads;
      RemoveReads(Mem(heap, root), c, t);
      u := RemoveOuterNephewMem(Mem(heap, root), c.up, R, c.p, c.red, c.e, c.sib, t);
      SetColor(sib, heap[ParentOf(tn)].red);
      SetColor(ParentOf(tn), false);
      SetColor(LeftOf(sib), false);
      RightRotate(ParentOf(tn));
    }
  }
}
