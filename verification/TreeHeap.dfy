/** A heap of treeNode structs, what it means for the heap to spell out a Tree, and what the
    pointer assignments of tree.c do to that.
  */
module TreeHeap {
  import opened TreeShape

  /** struct treeNode (tree.h). */
  datatype Node = Node(left: Ptr, right: Ptr, parent: Ptr, red: bool, key: int, value: Value)

  /** The memory that malloc has handed out and free has not taken back. */
  type Heap = map<Ptr, Node>

  /** A heap together with tr->root, which rotations may move. */
  datatype Mem = Mem(heap: Heap, root: Ptr)

  /** In h the address p leads to exactly the tree t, every node's parent field says where it
      hangs, and no two positions of t share a node. */
  ghost predicate Rep(h: Heap, p: Ptr, parent: Ptr, t: Tree)
    decreases t
  {
    match t
    case E => p == NULL
    case Dead(q) =>
      p == q != NULL && q in h && h[q].parent == parent && h[q].left == NULL && h[q].right == NULL && !h[q].red
    case N(l, q, red, e, r) =>
      && p == q != NULL && q in h
      && h[q].parent == parent && h[q].red == red && Entry(h[q].key, h[q].value) == e
      && q !in Ptrs(l) && q !in Ptrs(r) && Ptrs(l) !! Ptrs(r)
      && Rep(h, h[q].left, q, l) && Rep(h, h[q].right, q, r)
  }

  /** The tree hanging off the tree pointer. */
  ghost predicate Holds(m: Mem, t: Tree) { Rep(m.heap, m.root, NULL, t) }

  function ChildOf(n: Node, s: Side): Ptr { if s.L? then n.left else n.right }

  function WithChild(n: Node, s: Side, p: Ptr): Node { if s.L? then n.(left := p) else n.(right := p) }

  lemma {:induction false} RepFrame(h: Heap, h': Heap, p: Ptr, parent: Ptr, t: Tree)
    requires Rep(h, p, parent, t)
    requires forall q :: q in Ptrs(t) ==> q in h && q in h' && h'[q] == h[q]
    ensures Rep(h', p, parent, t)
    decreases t
  {
    if t.N? {
      RepFrame(h, h', h[p].left, p, t.l);
      RepFrame(h, h', h[p].right, p, t.r);
    }
  }

  lemma {:induction false} RepPtrs(h: Heap, p: Ptr, parent: Ptr, t: Tree)
    requires Rep(h, p, parent, t)
    ensures p == Root(t) && NULL !in Ptrs(t)
    ensures forall q :: q in Ptrs(t) ==> q in h
    decreases t
  {
    if t.N? {
      RepPtrs(h, h[p].left, p, t.l);
      RepPtrs(h, h[p].right, p, t.r);
    }
  }

  lemma {:induction false} MkPtrs(s: Side, near: Tree, p: Ptr, red: bool, e: Entry, far: Tree)
    ensures Ptrs(Mk(s, near, p, red, e, far)) == Ptrs(near) + {p} + Ptrs(far)
    ensures Deads(Mk(s, near, p, red, e, far)) == Deads(near) + Deads(far)
  {
  }

  /** Rep of a node, written with sides. */
  lemma {:induction false} RepMk(h: Heap, parent: Ptr, s: Side, near: Tree, q: Ptr, red: bool, e: Entry, far: Tree)
    ensures Rep(h, q, parent, Mk(s, near, q, red, e, far)) <==>
            (&& q != NULL && q in h
             && h[q].parent == parent && h[q].red == red && Entry(h[q].key, h[q].value) == e
             && q !in Ptrs(near) && q !in Ptrs(far) && Ptrs(near) !! Ptrs(far)
             && Rep(h, ChildOf(h[q], s), q, near) && Rep(h, ChildOf(h[q], Flip(s)), q, far))
  {
  }

  /** A zipper may be read off the heap: the focus is represented where the frame says, and shares
      nothing with its surroundings. */
  lemma {:induction false} RepFocus(h: Heap, root: Ptr, c: Ctx, t: Tree)
    requires Rep(h, root, NULL, Plug(c, t))
    ensures Rep(h, Root(t), HoleParent(c), t)
    ensures Ptrs(t) !! CtxPtrs(c) && NULL !in CtxPtrs(c)
    ensures c.Top? ==> root == Root(t)
    decreases c
  {
    if c.Top? {
      RepPtrs(h, root, NULL, t);
    } else {
      var u := Mk(c.side, t, c.p, c.red, c.e, c.sib);
      RepFocus(h, root, c.up, u);
      RepMk(h, HoleParent(c.up), c.side, t, c.p, c.red, c.e, c.sib);
      RepPtrs(h, ChildOf(h[c.p], c.side), c.p, t);
      RepPtrs(h, ChildOf(h[c.p], Flip(c.side)), c.p, c.sib);
    }
  }

  /** What the frame around the focus looks like in memory. */
  lemma {:induction false} RepParent(h: Heap, root: Ptr, c: Ctx, t: Tree)
    requires Rep(h, root, NULL, Plug(c, t)) && c.Frame?
    ensures c.p != NULL && c.p in h && h[c.p].red == c.red && Entry(h[c.p].key, h[c.p].value) == c.e
    ensures h[c.p].parent == HoleParent(c.up)
    ensures ChildOf(h[c.p], c.side) == Root(t) && ChildOf(h[c.p], Flip(c.side)) == Root(c.sib)
    ensures Rep(h, Root(c.sib), c.p, c.sib)
    ensures c.p !in Ptrs(t) && c.p !in Ptrs(c.sib) && Ptrs(t) !! Ptrs(c.sib)
  {
    var u := Mk(c.side, t, c.p, c.red, c.e, c.sib);
    RepFocus(h, root, c.up, u);
    RepMk(h, HoleParent(c.up), c.side, t, c.p, c.red, c.e, c.sib);
    RepPtrs(h, ChildOf(h[c.p], c.side), c.p, t);
    RepPtrs(h, ChildOf(h[c.p], Flip(c.side)), c.p, c.sib);
  }

  /** The frame rule of this file. If the focus is rebuilt as u out of nodes the surroundings do not
      use, and the one link that leads to it is redirected, the whole tree is rebuilt. */
  lemma {:induction false} RepReplace(m: Mem, m': Mem, c: Ctx, t: Tree, u: Tree)
    requires Holds(m, Plug(c, t))
    requires Rep(m'.heap, Root(u), HoleParent(c), u)
    requires Ptrs(u) !! CtxPtrs(c)
    requires forall q :: q in CtxPtrs(c) && q != HoleParent(c) ==> q in m.heap && q in m'.heap && m'.heap[q] == m.heap[q]
    requires c.Frame? ==> c.p in m.heap && c.p in m'.heap && m'.heap[c.p] == WithChild(m.heap[c.p], c.side, Root(u))
    requires m'.root == if c.Top? then Root(u) else m.root
    ensures Holds(m', Plug(c, u))
    decreases c
  {
    if c.Frame? {
      var t1, u1 := Mk(c.side, t, c.p, c.red, c.e, c.sib), Mk(c.side, u, c.p, c.red, c.e, c.sib);
      assert Rep(m'.heap, c.p, HoleParent(c.up), u1) by {
        RepReplaceFrame(m, m', c, t, u);
      }
      assert Ptrs(u1) !! CtxPtrs(c.up) && forall q :: q in CtxPtrs(c.up) ==> q != c.p by {
        RepFocus(m.heap, m.root, c.up, t1);
        MkPtrs(c.side, t, c.p, c.red, c.e, c.sib);
        MkPtrs(c.side, u, c.p, c.red, c.e, c.sib);
      }
      if c.up.Frame? {
        RepParent(m.heap, m.root, c.up, t1);
      }
      RepReplace(m, m', c.up, t1, u1);
    }
  }

  lemma {:induction false} RepReplaceFrame(m: Mem, m': Mem, c: Ctx, t: Tree, u: Tree)
    requires Holds(m, Plug(c, t)) && c.Frame?
    requires Rep(m'.heap, Root(u), c.p, u)
    requires Ptrs(u) !! CtxPtrs(c)
    requires forall q :: q in CtxPtrs(c) && q != c.p ==> q in m.heap && q in m'.heap && m'.heap[q] == m.heap[q]
    requires c.p in m.heap && c.p in m'.heap && m'.heap[c.p] == WithChild(m.heap[c.p], c.side, Root(u))
    ensures Rep(m'.heap, c.p, HoleParent(c.up), Mk(c.side, u, c.p, c.red, c.e, c.sib))
  {
    RepParent(m.heap, m.root, c, t);
    RepFrame(m.heap, m'.heap, Root(c.sib), c.p, c.sib);
    RepMk(m'.heap, HoleParent(c.up), c.side, u, c.p, c.red, c.e, c.sib);
  }

  // ---------------------------------------------------------------- setColor and data stores

  /** setColor: a NULL pointer is skipped (tree.c:393-400). */
  function Coloured(h: Heap, p: Ptr, red: bool): (h': Heap)
    requires p == NULL || p in h
    ensures h'.Keys == h.Keys
  {
    if p == NULL then h else h[p := h[p].(red := red)]
  }

  lemma {:induction false} RepPaint(m: Mem, c: Ctx, t: Tree, red: bool)
    requires Holds(m, Plug(c, t)) && (t.N? || (t.Dead? && !red) || t.E?)
    ensures Root(t) == NULL || Root(t) in m.heap
    ensures Holds(Mem(Coloured(m.heap, Root(t), red), m.root), Plug(c, Paint(t, red)))
  {
    RepFocus(m.heap, m.root, c, t);
    if t.N? {
      RepStore(m, c, t, m.heap[t.p].(red := red));
    } else if t.Dead? {
      assert Coloured(m.heap, t.q, red) == m.heap;
    }
  }

  /** Overwriting the colour, key or value of one node. */
  lemma {:induction false} RepStore(m: Mem, c: Ctx, t: Tree, n: Node)
    requires Holds(m, Plug(c, t)) && t.N?
    requires t.p in m.heap && n == m.heap[t.p].(red := n.red, key := n.key, value := n.value)
    ensures Holds(Mem(m.heap[t.p := n], m.root), Plug(c, N(t.l, t.p, n.red, Entry(n.key, n.value), t.r)))
  {
    var h' := m.heap[t.p := n];
    RepFocus(m.heap, m.root, c, t);
    RepPtrs(m.heap, t.p, HoleParent(c), t);
    RepFrame(m.heap, h', m.heap[t.p].left, t.p, t.l);
    RepFrame(m.heap, h', m.heap[t.p].right, t.p, t.r);
    var u := N(t.l, t.p, n.red, Entry(n.key, n.value), t.r);
    CtxInHeap(m.heap, m.root, c, t);
    if c.Frame? {
      RepParent(m.heap, m.root, c, t);
    }
    RepReplace(m, Mem(h', m.root), c, t, u);
  }

  lemma {:induction false} CtxInHeap(h: Heap, root: Ptr, c: Ctx, t: Tree)
    requires Rep(h, root, NULL, Plug(c, t))
    ensures forall q :: q in CtxPtrs(c) || q in Ptrs(t) ==> q in h
  {
    PlugPtrs(c, t);
    RepPtrs(h, root, NULL, Plug(c, t));
  }

  // ---------------------------------------------------------------- leftRotate and rightRotate

  /** tn has a far child, and every pointer the rotation follows is NULL or a node. */
  predicate CanRotate(m: Mem, tn: Ptr, s: Side) {
    && tn in m.heap && ChildOf(m.heap[tn], Flip(s)) in m.heap && ChildOf(m.heap[tn], Flip(s)) != NULL
    && var between := ChildOf(m.heap[ChildOf(m.heap[tn], Flip(s))], s);
    && (between in m.heap || between == NULL)
    && (m.heap[tn].parent in m.heap || m.heap[tn].parent == NULL)
  }

  /** The effect of leftRotate (s == L) and rightRotate (s == R) on memory: the far child of tn takes
      tn's place, tn becomes its near child, and the subtree between them changes parent. */
  function Rotated(m: Mem, tn: Ptr, s: Side): Mem
    requires CanRotate(m, tn, s)
  {
    var son := ChildOf(m.heap[tn], Flip(s));
    var between := ChildOf(m.heap[son], s);
    var parent := m.heap[tn].parent;
    var h1 := if between == NULL then m.heap else m.heap[between := m.heap[between].(parent := tn)];
    var h2 := h1[tn := WithChild(h1[tn], Flip(s), ChildOf(h1[son], s))];
    var h3 := h2[son := h2[son].(parent := parent)];
    var h4 := h3[tn := h3[tn].(parent := son)];
    var m5 := if parent == NULL then Mem(h4, son)
              else if h4[parent].left == tn then Mem(h4[parent := h4[parent].(left := son)], m.root)
              else Mem(h4[parent := h4[parent].(right := son)], m.root);
    m5.(heap := m5.heap[son := WithChild(m5.heap[son], s, tn)])
  }

  /** The four nodes that a rotation writes, one by one. */
  lemma {:induction false} RotatedEffect(m: Mem, p: Ptr, s: Side)
    requires p in m.heap && p != NULL && ChildOf(m.heap[p], Flip(s)) in m.heap
    requires var q := ChildOf(m.heap[p], Flip(s));
             var b, up := ChildOf(m.heap[q], s), m.heap[p].parent;
             && (b in m.heap || b == NULL) && (up in m.heap || up == NULL)
             && q != NULL && p != q && b != p && b != q && up != p && up != q && (b == up ==> b == NULL)
             && (up != NULL ==> (m.heap[up].left == p <==> m.heap[up].right != p))
    ensures var q := ChildOf(m.heap[p], Flip(s));
            var b, up := ChildOf(m.heap[q], s), m.heap[p].parent;
            var h, m' := m.heap, Rotated(m, p, s);
            && m'.heap.Keys == h.Keys && m'.root == (if up == NULL then q else m.root)
            && m'.heap[p] == WithChild(h[p], Flip(s), b).(parent := q)
            && m'.heap[q] == WithChild(h[q], s, p).(parent := up)
            && (b != NULL ==> m'.heap[b] == h[b].(parent := p))
            && (up != NULL ==> m'.heap[up] == WithChild(h[up], if h[up].left == p then L else R, q))
            && forall x :: x in h && x != p && x != q && (x == NULL || x != b) && (x == NULL || x != up) ==> m'.heap[x] == h[x]
  {
  }

  /** Everything Rotated reads, read off the tree. */
  lemma {:induction false} RotateReads(h: Heap, parent: Ptr, s: Side, a: Tree, p: Ptr, pr: bool, pe: Entry,
                                       b: Tree, q: Ptr, qr: bool, qe: Entry, d: Tree)
    requires Rep(h, p, parent, Mk(s, a, p, pr, pe, Mk(s, b, q, qr, qe, d)))
    ensures p in h && q in h && p != NULL && q != NULL && p != q && h[p].parent == parent
    ensures ChildOf(h[p], Flip(s)) == q && ChildOf(h[q], s) == Root(b)
    ensures ChildOf(h[p], s) == Root(a) && ChildOf(h[q], Flip(s)) == Root(d)
    ensures Rep(h, Root(a), p, a) && Rep(h, Root(b), q, b) && Rep(h, Root(d), q, d)
    ensures h[p].red == pr && h[q].red == qr
    ensures Entry(h[p].key, h[p].value) == pe && Entry(h[q].key, h[q].value) == qe
    ensures p !in Ptrs(a) && p !in Ptrs(b) && p !in Ptrs(d) && q !in Ptrs(a) && q !in Ptrs(b) && q !in Ptrs(d)
    ensures Ptrs(a) !! Ptrs(b) && Ptrs(a) !! Ptrs(d) && Ptrs(b) !! Ptrs(d)
  {
    var u := Mk(s, b, q, qr, qe, d);
    RepMk(h, parent, s, a, p, pr, pe, u);
    MkPtrs(s, b, q, qr, qe, d);
    RepPtrs(h, ChildOf(h[p], Flip(s)), p, u);
    RepMk(h, p, s, b, q, qr, qe, d);
    RepPtrs(h, ChildOf(h[p], s), p, a);
    RepPtrs(h, ChildOf(h[q], s), q, b);
    RepPtrs(h, ChildOf(h[q], Flip(s)), q, d);
  }

  lemma {:induction false} RotateInPlace(m: Mem, h': Heap, parent: Ptr, s: Side, a: Tree, p: Ptr, pr: bool, pe: Entry,
                      b: Tree, q: Ptr, qr: bool, qe: Entry, d: Tree)
    requires p in m.heap && q in m.heap && p in h' && q in h' && p != NULL && q != NULL && p != q
    requires Rep(m.heap, Root(a), p, a) && Rep(m.heap, Root(b), q, b) && Rep(m.heap, Root(d), q, d)
    requires ChildOf(m.heap[p], s) == Root(a) && ChildOf(m.heap[q], Flip(s)) == Root(d)
    requires m.heap[p].red == pr && m.heap[q].red == qr
    requires Entry(m.heap[p].key, m.heap[p].value) == pe && Entry(m.heap[q].key, m.heap[q].value) == qe
    requires p !in Ptrs(a) && p !in Ptrs(b) && p !in Ptrs(d) && q !in Ptrs(a) && q !in Ptrs(b) && q !in Ptrs(d)
    requires Ptrs(a) !! Ptrs(b) && Ptrs(a) !! Ptrs(d) && Ptrs(b) !! Ptrs(d)
    requires h'[p] == WithChild(m.heap[p], Flip(s), Root(b)).(parent := q)
    requires h'[q] == WithChild(m.heap[q], s, p).(parent := parent)
    requires b.E? || (Root(b) in m.heap && Root(b) in h' && h'[Root(b)] == m.heap[Root(b)].(parent := p))
    requires forall x :: (x in Ptrs(a) || x in Ptrs(d) || (x in Ptrs(b) && x != Root(b))) ==>
                           x in m.heap && x in h' && h'[x] == m.heap[x]
    ensures Rep(h', q, parent, Mk(s, Mk(s, a, p, pr, pe, b), q, qr, qe, d))
  {
    hide Rep;
    hide Mk;
    RepFrame(m.heap, h', Root(a), p, a);
    RepFrame(m.heap, h', Root(d), q, d);
    RepMoved(m.heap, h', q, p, b);
    RepMk(h', q, s, a, p, pr, pe, b);
    assert Ptrs(Mk(s, a, p, pr, pe, b)) !! Ptrs(d) && q !in Ptrs(Mk(s, a, p, pr, pe, b)) by {
      MkPtrs(s, a, p, pr, pe, b);
    }
    RepMk(h', parent, s, Mk(s, a, p, pr, pe, b), q, qr, qe, d);
  }

  /** A subtree whose root only changes its parent field is still there. */
  lemma {:induction false} RepMoved(h: Heap, h': Heap, parent: Ptr, parent': Ptr, t: Tree)
    requires Rep(h, Root(t), parent, t)
    requires t.E? || (Root(t) in h && Root(t) in h' && h'[Root(t)] == h[Root(t)].(parent := parent'))
    requires forall x :: x in Ptrs(t) && x != Root(t) ==> x in h && x in h' && h'[x] == h[x]
    ensures Rep(h', Root(t), parent', t)
  {
    if t.N? {
      RepFrame(h, h', h[t.p].left, t.p, t.l);
      RepFrame(h, h', h[t.p].right, t.p, t.r);
    }
  }

  /** Rotation does to the tree what RotateSame says, wherever the tree hangs. */
  lemma {:induction false} RepRotate(m: Mem, c: Ctx, s: Side, a: Tree, p: Ptr, pr: bool, pe: Entry,
                  b: Tree, q: Ptr, qr: bool, qe: Entry, d: Tree)
    requires Holds(m, Plug(c, Mk(s, a, p, pr, pe, Mk(s, b, q, qr, qe, d))))
    ensures p in m.heap && ChildOf(m.heap[p], Flip(s)) == q && q in m.heap && p != q && q != NULL
    ensures ChildOf(m.heap[q], s) in m.heap || ChildOf(m.heap[q], s) == NULL
    ensures m.heap[p].parent in m.heap || m.heap[p].parent == NULL
    ensures Holds(Rotated(m, p, s), Plug(c, Mk(s, Mk(s, a, p, pr, pe, b), q, qr, qe, d)))
    ensures Rotated(m, p, s).heap.Keys == m.heap.Keys
  {
    var t, u := Mk(s, a, p, pr, pe, Mk(s, b, q, qr, qe, d)), Mk(s, Mk(s, a, p, pr, pe, b), q, qr, qe, d);
    var m' := RotateBelow(m, c, s, a, p, pr, pe, b, q, qr, qe, d);
    RotateSame(s, a, p, pr, pe, b, q, qr, qe, d, pr, qr);
    RepFocus(m.heap, m.root, c, t);
    RepReplace(m, m', c, t, u);
  }

  /** The nodes a rotation writes are distinct, and the subtrees are clear of them. */
  lemma {:induction false} RotateApart(h: Heap, parent: Ptr, s: Side, a: Tree, p: Ptr, pr: bool, pe: Entry,
                                       b: Tree, q: Ptr, qr: bool, qe: Entry, d: Tree)
    requires Rep(h, p, parent, Mk(s, a, p, pr, pe, Mk(s, b, q, qr, qe, d)))
    ensures p in h && q in h && p != NULL && q != NULL && p != q
    ensures Root(b) in h || b.E?
    ensures b.E? <==> Root(b) == NULL
    ensures Root(b) != p && Root(b) != q
    ensures forall x :: x in Ptrs(a) || x in Ptrs(d) || (x in Ptrs(b) && x != Root(b)) ==>
                          x in h && x != NULL && x != p && x != q && x != Root(b)
  {
    RotateReads(h, parent, s, a, p, pr, pe, b, q, qr, qe, d);
    RepPtrs(h, Root(a), p, a);
    RepPtrs(h, Root(b), q, b);
    RepPtrs(h, Root(d), q, d);
    RootIn(b);
  }

  /** The surroundings are clear of them, too. */
  lemma {:induction false} RotateClear(h: Heap, root: Ptr, c: Ctx, s: Side, a: Tree, p: Ptr, pr: bool, pe: Entry,
                                       b: Tree, q: Ptr, qr: bool, qe: Entry, d: Tree)
    requires Rep(h, root, NULL, Plug(c, Mk(s, a, p, pr, pe, Mk(s, b, q, qr, qe, d))))
    ensures Ptrs(a) + {p} + (Ptrs(b) + {q} + Ptrs(d)) !! CtxPtrs(c)
    ensures NULL !in CtxPtrs(c) && (Root(b) == NULL || Root(b) !in CtxPtrs(c))
    ensures forall x :: x in CtxPtrs(c) ==> x in h
  {
    var t := Mk(s, a, p, pr, pe, Mk(s, b, q, qr, qe, d));
    assert Ptrs(t) == Ptrs(a) + {p} + (Ptrs(b) + {q} + Ptrs(d)) by {
      MkPtrs(s, a, p, pr, pe, Mk(s, b, q, qr, qe, d));
      MkPtrs(s, b, q, qr, qe, d);
    }
    RepFocus(h, root, c, t);
    CtxInHeap(h, root, c, t);
    RootIn(b);
  }

  lemma {:induction false} RotateBelow(m: Mem, c: Ctx, s: Side, a: Tree, p: Ptr, pr: bool, pe: Entry,
                                       b: Tree, q: Ptr, qr: bool, qe: Entry, d: Tree) returns (m': Mem)
    requires Holds(m, Plug(c, Mk(s, a, p, pr, pe, Mk(s, b, q, qr, qe, d))))
    ensures p in m.heap && ChildOf(m.heap[p], Flip(s)) == q && q in m.heap && p != q && q != NULL
    ensures ChildOf(m.heap[q], s) in m.heap || ChildOf(m.heap[q], s) == NULL
    ensures m.heap[p].parent in m.heap || m.heap[p].parent == NULL
    ensures m' == Rotated(m, p, s) && m'.heap.Keys == m.heap.Keys && m'.root == if c.Top? then q else m.root
    ensures Rep(m'.heap, q, HoleParent(c), Mk(s, Mk(s, a, p, pr, pe, b), q, qr, qe, d))
    ensures forall x :: x in CtxPtrs(c) && x != HoleParent(c) ==> x in m.heap && m'.heap[x] == m.heap[x]
    ensures c.Frame? ==> c.p in m.heap && m'.heap[c.p] == WithChild(m.heap[c.p], c.side, q)
  {
    var t := Mk(s, a, p, pr, pe, Mk(s, b, q, qr, qe, d));
    assert Rep(m.heap, p, HoleParent(c), t) by { RepFocus(m.heap, m.root, c, t); }
    RotateApart(m.heap, HoleParent(c), s, a, p, pr, pe, b, q, qr, qe, d);
    RotateClear(m.heap, m.root, c, s, a, p, pr, pe, b, q, qr, qe, d);
    RotateReads(m.heap, HoleParent(c), s, a, p, pr, pe, b, q, qr, qe, d);
    ParentSides(m, c, t);
    RotatedEffect(m, p, s);
    m' := Rotated(m, p, s);
    RotateInPlace(m, m'.heap, HoleParent(c), s, a, p, pr, pe, b, q, qr, qe, d);
  }

  /** The parent of a node has it on exactly one side. */
  lemma {:induction false} ParentSides(m: Mem, c: Ctx, t: Tree)
    requires Holds(m, Plug(c, t)) && t.N?
    ensures c.Frame? ==> c.p in m.heap && (m.heap[c.p].left == t.p <==> c.side.L?) && (m.heap[c.p].right == t.p <==> c.side.R?)
  {
    if c.Frame? {
      RepParent(m.heap, m.root, c, t);
      RepFocus(m.heap, m.root, c, t);
      RootIn(c.sib);
    }
  }

  lemma {:induction false} RootIn(t: Tree)
    ensures !t.E? ==> Root(t) in Ptrs(t)
    ensures t.E? ==> Root(t) == NULL
  {
  }
}
