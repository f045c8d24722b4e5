/** The text of src/map/tree.c, slips included, and exactly how far it is from RedBlackTree.

    No statement of tree.c ever gives a node a parent except from another node's parent field, which
    starts out NULL (line 28). So every parent field stays NULL: insertion never rebalances, and the
    tests of parentOf(...) in treeRemove always take the branch for the root.
  */
module TreeAsWritten {
  import opened Wrappers
  import opened TreeShape
  import opened TreeHeap
  import opened TreeUnlink
  import opened TreeMap
  import opened RedBlackTree

  // ---------------------------------------------------------------- the rotations

  /** Lines 82 and 108 ask whether tn is its own left child. It never is, so the son always becomes
      the right child of the parent. */
  function RotatedAsWritten(m: Mem, tn: Ptr, s: Side): Mem
    requires CanRotate(m, tn, s)
  {
    var son := ChildOf(m.heap[tn], Flip(s));
    var between := ChildOf(m.heap[son], s);
    var parent := m.heap[tn].parent;
    var h1 := if between == NULL then m.heap else m.heap[between := m.heap[between].(parent := tn)];
    var h2 := h1[tn := WithChild(h1[tn], Flip(s), ChildOf(h1[son], s))];
    var h3 := h2[son := h2[son].(parent := parent)];
    var h4 := h3[tn := h3[tn].(parent := son)];
    var m5 := if parent == NULL then Mem(h4, son)
              else if h4[tn].left == tn then Mem(h4[parent := h4[parent].(left := son)], m.root)
              else Mem(h4[parent := h4[parent].(right := son)], m.root);
    m5.(heap := m5.heap[son := WithChild(m5.heap[son], s, tn)])
  }

  /** As written, a rotation is right exactly when the rotated node is the root or a right child. */
  lemma {:induction false} RotationAsWritten(m: Mem, c: Ctx, s: Side, a: Tree, p: Ptr, pr: bool, pe: Entry,
                                             b: Tree, q: Ptr, qr: bool, qe: Entry, d: Tree)
    requires Holds(m, Plug(c, Mk(s, a, p, pr, pe, Mk(s, b, q, qr, qe, d))))
    ensures CanRotate(m, p, s)
    ensures RotatedAsWritten(m, p, s) == Rotated(m, p, s) <==> c.Top? || c.side.R?
  {
    var t := Mk(s, a, p, pr, pe, Mk(s, b, q, qr, qe, d));
    var m1 := RotateBelow(m, c, s, a, p, pr, pe, b, q, qr, qe, d);
    var between, up := ChildOf(m.heap[q], s), m.heap[p].parent;
    assert p != NULL && q != NULL && between != p && between != q && up == HoleParent(c) && up != p && up != q
           && (between == up ==> between == NULL) && (up == NULL <==> c.Top?) by {
      RotateNodes(m, c, s, a, p, pr, pe, b, q, qr, qe, d);
    }
    assert ChildOf(m.heap[p], s) != p by {
      RepFocus(m.heap, m.root, c, t);
      RepMk(m.heap, HoleParent(c), s, a, p, pr, pe, Mk(s, b, q, qr, qe, d));
      RepPtrs(m.heap, ChildOf(m.heap[p], s), p, a);
      RootIn(a);
    }
    ParentSides(m, c, t);
    RotationText(m, p, s);
  }

  lemma {:induction false} RotateNodes(m: Mem, c: Ctx, s: Side, a: Tree, p: Ptr, pr: bool, pe: Entry,
                                       b: Tree, q: Ptr, qr: bool, qe: Entry, d: Tree)
    requires Holds(m, Plug(c, Mk(s, a, p, pr, pe, Mk(s, b, q, qr, qe, d)))) && p in m.heap && q in m.heap
    ensures var between, up := ChildOf(m.heap[q], s), m.heap[p].parent;
            && p != NULL && q != NULL && between != p && between != q && up == HoleParent(c) && up != p && up != q
            && (between == up ==> between == NULL) && (up == NULL <==> c.Top?)
  {
    var t := Mk(s, a, p, pr, pe, Mk(s, b, q, qr, qe, d));
    assert Rep(m.heap, p, HoleParent(c), t) by { RepFocus(m.heap, m.root, c, t); }
    RotateApart(m.heap, HoleParent(c), s, a, p, pr, pe, b, q, qr, qe, d);
    RotateClear(m.heap, m.root, c, s, a, p, pr, pe, b, q, qr, qe, d);
    RotateReads(m.heap, HoleParent(c), s, a, p, pr, pe, b, q, qr, qe, d);
  }

  lemma {:induction false} RotationText(m: Mem, p: Ptr, s: Side)
    requires CanRotate(m, p, s) && p != NULL
    requires var q := ChildOf(m.heap[p], Flip(s));
             var b, up := ChildOf(m.heap[q], s), m.heap[p].parent;
             && p != q && b != p && b != q && up != p && up != q && (b == up ==> b == NULL)
             && ChildOf(m.heap[p], s) != p && (up != NULL ==> (m.heap[up].left == p <==> m.heap[up].right != p))
    ensures RotatedAsWritten(m, p, s) == Rotated(m, p, s) <==>
            m.heap[p].parent == NULL || m.heap[m.heap[p].parent].left != p
  {
    var up := m.heap[p].parent;
    if up != NULL && m.heap[up].left == p {
      assert Rotated(m, p, s).heap[up].left == ChildOf(m.heap[p], Flip(s));
      assert RotatedAsWritten(m, p, s).heap[up].left == p;
    }
  }

  // ---------------------------------------------------------------- the heaps tree.c really builds

  /** The same heap with every parent field NULL. */
  function Orphaned(h: Heap): Heap { map p | p in h :: h[p].(parent := NULL) }

  /** m is what a properly linked heap lk looks like to the text, and lk holds t. */
  ghost predicate Hangs(m: Mem, lk: Heap, t: Tree) {
    m.heap == Orphaned(lk) && Holds(Mem(lk, m.root), t)
  }

  // ---------------------------------------------------------------- insertion

  /** treePut from line 153 on, and fixAfterInsert: the new node's parent field is NULL, so the loop of
      line 180 is not entered and only the two setColor calls happen. */
  function AttachText(m: Mem, parent: Ptr, isLeft: bool, tmp: Ptr, e: Entry): Mem
    requires parent == NULL || parent in m.heap
    requires tmp !in m.heap && tmp != NULL && (m.root == NULL || m.root in m.heap)
  {
    var m1 := WithLink(Mem(m.heap[tmp := Node(NULL, NULL, NULL, false, e.key, e.value)], m.root), parent, isLeft, tmp);
    Mem(Coloured(Coloured(m1.heap, tmp, true), m1.root, false), m1.root)
  }

  /** As written, insertion stores the entry and keeps every parent field NULL, and the colours come out
      right exactly when the node it attaches to is not red. */
  lemma {:induction false} InsertAsWritten(m: Mem, lk: Heap, c: Ctx, tmp: Ptr, e: Entry) returns (lk': Heap, u: Tree)
    requires Hangs(m, lk, Plug(c, E)) && RedBlack(Plug(c, E)) && Sorted(InOrder(Plug(c, E))) && Between(c, e.key)
    requires tmp !in m.heap && tmp != NULL
    ensures (HoleParent(c) == NULL || HoleParent(c) in m.heap) && (m.root == NULL || m.root in m.heap)
    ensures Hangs(AttachText(m, HoleParent(c), c.Frame? && c.side.L?, tmp, e), lk', u)
    ensures Sorted(InOrder(u)) && MapOf(InOrder(u)) == MapOf(InOrder(Plug(c, E)))[e.key := e.value]
    ensures RedBlack(u) <==> !CtxRed(c)
  {
    var leaf := N(E, tmp, false, e, E);
    lk' := AttachTextHangs(m, lk, c, tmp, e);
    u := Paint(Plug(c, Paint(leaf, true)), false);
    PaintSame(leaf, true);
    PlugSame(c, leaf, Paint(leaf, true));
    PaintSame(Plug(c, Paint(leaf, true)), false);
    InsertAt(c, leaf);
    RedLeafColours(c, Paint(leaf, true));
  }

  lemma {:induction false} AttachTextHangs(m: Mem, lk: Heap, c: Ctx, tmp: Ptr, e: Entry) returns (lk': Heap)
    requires Hangs(m, lk, Plug(c, E)) && tmp !in m.heap && tmp != NULL
    ensures (HoleParent(c) == NULL || HoleParent(c) in m.heap) && (m.root == NULL || m.root in m.heap)
    ensures Hangs(AttachText(m, HoleParent(c), c.Frame? && c.side.L?, tmp, e), lk', Paint(Plug(c, N(E, tmp, true, e, E)), false))
  {
    CtxInHeap(lk, m.root, c, E);
    RepFocus(lk, m.root, c, E);
    RootHeld(lk, m.root, Plug(c, E));
    var leaf, red := N(E, tmp, false, e, E), N(E, tmp, true, e, E);
    Attach(Mem(lk, m.root), c, tmp, e);
    var l0 := lk[tmp := Node(NULL, NULL, HoleParent(c), false, e.key, e.value)];
    var l1 := WithLink(Mem(l0, m.root), HoleParent(c), c.Frame? && c.side.L?, tmp);
    RepPaint(l1, c, leaf, true);
    var l2 := Mem(Coloured(l1.heap, tmp, true), l1.root);
    RootHeld(l2.heap, l2.root, Plug(c, red));
    PlugRoot(c, red);
    RepPaint(l2, Top, Plug(c, red), false);
    lk' := Coloured(l2.heap, l2.root, false);
    AttachOrphaned(lk, m.root, HoleParent(c), c.Frame? && c.side.L?, tmp, e);
  }

  /** Parent fields apart, the text and the linked heap go through the same stores. */
  lemma {:induction false} AttachOrphaned(lk: Heap, root: Ptr, parent: Ptr, isLeft: bool, tmp: Ptr, e: Entry)
    requires parent == NULL || parent in lk
    requires tmp !in lk && tmp != NULL && (root == NULL || root in lk)
    ensures var l1 := WithLink(Mem(lk[tmp := Node(NULL, NULL, parent, false, e.key, e.value)], root), parent, isLeft, tmp);
            AttachText(Mem(Orphaned(lk), root), parent, isLeft, tmp, e)
            == Mem(Orphaned(Coloured(Coloured(l1.heap, tmp, true), l1.root, false)), l1.root)
  {
    var n := Node(NULL, NULL, parent, false, e.key, e.value);
    var l0 := lk[tmp := n];
    var l1 := WithLink(Mem(l0, root), parent, isLeft, tmp);
    var l2 := Coloured(l1.heap, tmp, true);
    OrphanStore(lk, tmp, n);
    if parent != NULL { OrphanStore(l0, parent, WithChild(l0[parent], if isLeft then L else R, tmp)); }
    OrphanStore(l1.heap, tmp, l1.heap[tmp].(red := true));
    if l1.root != NULL { OrphanStore(l2, l1.root, l2[l1.root].(red := false)); }
  }

  lemma {:induction false} OrphanStore(h: Heap, p: Ptr, n: Node)
    ensures Orphaned(h[p := n]) == Orphaned(h)[p := n.(parent := NULL)]
  {
  }

  lemma {:induction false} RootHeld(h: Heap, root: Ptr, t: Tree)
    requires Rep(h, root, NULL, t)
    ensures root == Root(t) && (root == NULL || root in h)
  {
    RepPtrs(h, root, NULL, t);
    RootIn(t);
  }

  lemma {:induction false} PlugRoot(c: Ctx, t: Tree)
    requires t.N?
    ensures Plug(c, t).N?
    decreases c
  {
    if c.Frame? { PlugRoot(c.up, Mk(c.side, t, c.p, c.red, c.e, c.sib)); }
  }

  lemma {:induction false} RedLeafColours(c: Ctx, red: Tree)
    requires RedBlack(Plug(c, E)) && red.N? && red.red && red.l == E && red.r == E
    ensures RedBlack(Paint(Plug(c, red), false)) <==> !CtxRed(c)
  {
    PlugBalanced(c, E);
    PlugNoRedRed(c, E);
    PlugIsRed(c, E);
    PlugBalanced(c, red);
    PlugNoRedRed(c, red);
    PlugIsRed(c, red);
    PlugPtrs(c, red);
  }

  // ---------------------------------------------------------------- removal

  /** treeRemove once the node is found, search being its successor. parentOf(current) is NULL, so the
      child becomes the root and fixAfterRemove only paints it; and line 267 asks for the parent of a
      NULL pointer, so removing a leaf always clears the root. */
  function RemoveText(m: Mem, found: Ptr, search: Ptr): Mem
    requires found in m.heap && search in m.heap
    requires m.heap[found].left == NULL || m.heap[found].left in m.heap
    requires m.heap[found].right == NULL || m.heap[found].right in m.heap
    requires m.heap[search].left == NULL || m.heap[search].left in m.heap
    requires m.heap[search].right == NULL || m.heap[search].right in m.heap
  {
    var both := m.heap[found].left != NULL && m.heap[found].right != NULL;
    var mv := m.heap[found].value;
    var h1 := if both then m.heap[found := m.heap[found].(key := m.heap[search].key, value := m.heap[search].value)]
              else m.heap;
    var h2 := if both then h1[search := h1[search].(value := mv)] else h1;
    var current := if both then search else found;
    var replace := if h2[current].left != NULL then h2[current].left else h2[current].right;
    var h3 := if replace != NULL && !h2[current].red then Coloured(h2, replace, false) else h2;
    Mem(h3 - {current}, replace)
  }

  /** The tree that is left: one child of the node that is taken out of memory. */
  function Survivor(t: Tree, t2: Tree): Tree
    requires t.N? && t2.N?
  {
    if t.l != E && t.r != E then (if t2.l != E then t2.l else t2.r) else if t.l != E then t.l else t.r
  }

  /** What the text reads at a node. */
  lemma {:induction false} NodeText(m: Mem, lk: Heap, c: Ctx, t: Tree)
    requires Hangs(m, lk, Plug(c, t)) && Deads(Plug(c, t)) == {} && t.N?
    ensures t.p in m.heap && m.heap[t.p] == Node(Root(t.l), Root(t.r), NULL, t.red, t.e.key, t.e.value)
    ensures Root(t.l) == NULL <==> t.l == E
    ensures Root(t.r) == NULL <==> t.r == E
    ensures t.l != E ==> t.l.N? && t.l.p in m.heap
    ensures t.r != E ==> t.r.N? && t.r.p in m.heap
    ensures t.p !in Ptrs(t.l) && t.p !in Ptrs(t.r)
    ensures Rep(lk, Root(t.l), t.p, t.l) && Rep(lk, Root(t.r), t.p, t.r)
  {
    RepFocus(lk, m.root, c, t);
    RepPtrs(lk, lk[t.p].left, t.p, t.l);
    RepPtrs(lk, lk[t.p].right, t.p, t.r);
    RootIn(t.l);
    RootIn(t.r);
    PlugDeadsIn(c, t);
  }

  /** The surviving subtree, cut loose at its root and possibly painted, is all that still hangs there. */
  lemma {:induction false} SurvivorHangs(lk: Heap, parent: Ptr, x: Tree, m': Mem, red: bool) returns (lk': Heap, u: Tree)
    requires x.N? && x.p in lk && Rep(lk, x.p, parent, x) && m'.root == x.p
    requires forall q :: q in m'.heap ==> m'.heap[q].parent == NULL
    requires forall q :: q in Ptrs(x) ==> q in lk && q in m'.heap && m'.heap[q] == lk[q].(parent := NULL, red := if q == x.p then red else lk[q].red)
    ensures Hangs(m', lk', u) && u == Paint(x, red)
  {
    u := Paint(x, red);
    var l1 := lk[x.p := lk[x.p].(parent := NULL)];
    RepMoved(lk, l1, parent, NULL, x);
    RepStore(Mem(l1, x.p), Top, x, l1[x.p].(red := red));
    var l2 := l1[x.p := l1[x.p].(red := red)];
    lk' := map q | q in m'.heap :: m'.heap[q].(parent := if q in Ptrs(x) then l2[q].parent else NULL);
    RepFrame(l2, lk', x.p, NULL, u);
    assert Orphaned(lk') == m'.heap;
  }

  lemma {:induction false} SortedMiddle(a: seq<Entry>, s: seq<Entry>, b: seq<Entry>)
    requires Sorted(a + s + b)
    ensures Sorted(s)
  {
    forall i, j | 0 <= i < j < |s| ensures s[i].key < s[j].key {
      assert (a + s + b)[|a| + i] == s[i] && (a + s + b)[|a| + j] == s[j];
    }
  }

  /** A subtree holds the whole map but one key only if it is the rest of the whole tree. */
  lemma {:induction false} SurvivorCount(c: Ctx, t: Tree, k: Ctx, t2: Tree, x: Tree)
    requires t.N? && t2.N? && Plug(c, t) == Plug(k, t2) && Sorted(InOrder(Plug(c, t)))
    requires x == (if t2.l != E then t2.l else t2.r) && (t2.l == E || t2.r == E)
    requires if t.l == E || t.r == E then t2 == t && k == c else Before(k) != []
    ensures Sorted(InOrder(x))
    ensures MapOf(InOrder(x)) == MapOf(InOrder(Plug(c, t))) - {t.e.key} <==> c.Top? && (t.l == E || t.r == E)
  {
    var whole := InOrder(Plug(c, t));
    SurvivorSize(k, t2, x);
    MapOfSize(InOrder(x));
    assert |MapOf(whole) - {t.e.key}| == |whole| - 1 by {
      FoundKey(c, t);
      MapOfSize(whole);
      assert (MapOf(whole) - {t.e.key})[t.e.key := t.e.value] == MapOf(whole);
    }
    if c.Top? && (t.l == E || t.r == E) {
      SurvivorOfRoot(t, x);
    }
  }

  lemma {:induction false} SurvivorOfRoot(t: Tree, x: Tree)
    requires t.N? && Sorted(InOrder(t)) && x == (if t.l != E then t.l else t.r) && (t.l == E || t.r == E)
    ensures MapOf(InOrder(x)) == MapOf(InOrder(t)) - {t.e.key}
  {
    RemoveAt(Top, t, ([] + InOrder(t.l)) + (InOrder(t.r) + []));
    assert ([] + InOrder(t.l)) + (InOrder(t.r) + []) == InOrder(x);
  }

  lemma {:induction false} SurvivorSize(k: Ctx, t2: Tree, x: Tree)
    requires t2.N? && x == (if t2.l != E then t2.l else t2.r) && (t2.l == E || t2.r == E)
    requires Sorted(InOrder(Plug(k, t2)))
    ensures Sorted(InOrder(x)) && |InOrder(Plug(k, t2))| == |Before(k)| + 1 + |InOrder(x)| + |After(k)|
    ensures k.Frame? ==> |Before(k)| + |After(k)| >= 1
  {
    InOrderPlug(k, t2);
    if t2.l == E {
      assert InOrder(t2) == [t2.e] + InOrder(x);
      assert Before(k) + ([t2.e] + InOrder(x)) + After(k) == (Before(k) + [t2.e]) + InOrder(x) + After(k);
      SortedMiddle(Before(k) + [t2.e], InOrder(x), After(k));
    } else {
      assert InOrder(t2) == InOrder(x) + [t2.e];
      assert Before(k) + (InOrder(x) + [t2.e]) + After(k) == Before(k) + InOrder(x) + ([t2.e] + After(k));
      SortedMiddle(Before(k), InOrder(x), [t2.e] + After(k));
    }
  }

  /** As written, removal leaves the map without the key, and only that, exactly when the key is at the
      root and the root has at most one child. Everywhere else it loses everything outside one subtree. */
  lemma {:induction false} RemoveAsWritten(m: Mem, lk: Heap, c: Ctx, t: Tree, d: Ctx, t2: Tree) returns (lk': Heap, u: Tree)
    requires Hangs(m, lk, Plug(c, t)) && Deads(Plug(c, t)) == {} && Sorted(InOrder(Plug(c, t))) && t.N?
    requires t2.N? && (t.l != E && t.r != E ==> t.r == Plug(d, t2) && t2.l == E && LeftPath(d))
    requires !(t.l != E && t.r != E) ==> t2 == t
    ensures t.p in m.heap && t2.p in m.heap
    ensures m.heap[t.p].left == NULL || m.heap[t.p].left in m.heap
    ensures m.heap[t.p].right == NULL || m.heap[t.p].right in m.heap
    ensures m.heap[t2.p].left == NULL || m.heap[t2.p].left in m.heap
    ensures m.heap[t2.p].right == NULL || m.heap[t2.p].right in m.heap
    ensures Hangs(RemoveText(m, t.p, t2.p), lk', u) && Sorted(InOrder(u))
    ensures InOrder(u) == InOrder(Survivor(t, t2))
    ensures MapOf(InOrder(u)) == MapOf(InOrder(Plug(c, t))) - {t.e.key} <==> c.Top? && (t.l == E || t.r == E)
  {
    var both := t.l != E && t.r != E;
    var k := if both then Over(d, Frame(c, R, t.p, t.red, t.e, t.l)) else c;
    if both {
      PlugOver(d, Frame(c, R, t.p, t.red, t.e, t.l), t2);
      OverAround(d, Frame(c, R, t.p, t.red, t.e, t.l));
    }
    SurvivorCount(c, t, k, t2, Survivor(t, t2));
    NodeText(m, lk, c, t);
    NodeText(m, lk, k, t2);
    lk', u := RemoveTextHangs(m, lk, c, t, k, d, t2);
  }

  lemma {:induction false} RemoveTextHangs(m: Mem, lk: Heap, c: Ctx, t: Tree, k: Ctx, d: Ctx, t2: Tree) returns (lk': Heap, u: Tree)
    requires Hangs(m, lk, Plug(c, t)) && Deads(Plug(c, t)) == {} && t.N? && t2.N? && Plug(k, t2) == Plug(c, t)
    requires if t.l != E && t.r != E then t.r == Plug(d, t2) && t2.l == E else t2 == t
    requires t.p in m.heap && t2.p in m.heap
    requires m.heap[t.p].left == NULL || m.heap[t.p].left in m.heap
    requires m.heap[t.p].right == NULL || m.heap[t.p].right in m.heap
    requires m.heap[t2.p].left == NULL || m.heap[t2.p].left in m.heap
    requires m.heap[t2.p].right == NULL || m.heap[t2.p].right in m.heap
    ensures Hangs(RemoveText(m, t.p, t2.p), lk', u) && InOrder(u) == InOrder(Survivor(t, t2))
  {
    NodeText(m, lk, c, t);
    NodeText(m, lk, k, t2);
    var x := Survivor(t, t2);
    var m' := RemoveText(m, t.p, t2.p);
    if x == E {
      lk', u := m'.heap, E;
      assert Orphaned(m'.heap) == m'.heap;
    } else {
      SurvivorApart(m, lk, c, t, d, t2, x);
      lk', u := SurvivorHangs(lk, t2.p, x, m', if t2.red then x.red else false);
    }
  }

  lemma {:induction false} SurvivorApart(m: Mem, lk: Heap, c: Ctx, t: Tree, d: Ctx, t2: Tree, x: Tree)
    requires Hangs(m, lk, Plug(c, t)) && t.N? && t2.N? && (x == t2.l || x == t2.r)
    requires t2 == t || t.r == Plug(d, t2)
    ensures t.p !in Ptrs(x) && t2.p !in Ptrs(x)
    ensures forall q :: q in Ptrs(x) ==> q in lk
  {
    RepFocus(lk, m.root, c, t);
    RepPtrs(lk, t.p, HoleParent(c), t);
    if t2 != t {
      PlugPtrs(d, t2);
      PlugOver(d, Frame(c, R, t.p, t.red, t.e, t.l), t2);
      RepFocus(lk, m.root, Over(d, Frame(c, R, t.p, t.red, t.e, t.l)), t2);
    }
  }

  /** The tree that putting 2, 1 and 3 into an empty one gives, at addresses 20, 10 and 30. */
  function TwoOneThree(): (m: Mem)
    ensures m.heap.Keys == {10, 20, 30} && m.root == 20
  {
    var m1 := AttachText(Mem(map[], NULL), NULL, false, 20, Entry(2, 2));
    var m2 := AttachText(m1, 20, true, 10, Entry(1, 1));
    AttachText(m2, 20, false, 30, Entry(3, 3))
  }

  /** {1, 2, 3} without 1 is the empty map. */
  lemma {:induction false} RemoveLosesAll()
    ensures var h := TwoOneThree().heap;
            && h[20] == Node(10, 30, NULL, false, 2, 2)
            && h[10] == Node(NULL, NULL, NULL, true, 1, 1) && h[30] == Node(NULL, NULL, NULL, true, 3, 3)
    ensures RemoveText(TwoOneThree(), 10, 10).root == NULL
  {
  }
}
