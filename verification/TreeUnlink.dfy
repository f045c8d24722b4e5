/** Putting a node into the heap and taking one out: what treePut and treeRemove do outside their
    repair loops.
  */
module TreeUnlink {
  import opened TreeShape
  import opened TreeHeap
  import opened TreeMap

  /** The heap after parent's link to the hole has been redirected to p. */
  function WithLink(m: Mem, parent: Ptr, isLeft: bool, p: Ptr): Mem
    requires parent == NULL || parent in m.heap
  {
    if parent == NULL then Mem(m.heap, p)
    else Mem(m.heap[parent := WithChild(m.heap[parent], if isLeft then L else R, p)], m.root)
  }

  /** treePut: the new leaf is linked where the search fell off the tree. */
  lemma {:induction false} Attach(m: Mem, c: Ctx, tmp: Ptr, e: Entry)
    requires Holds(m, Plug(c, E)) && tmp != NULL && tmp !in m.heap
    ensures c.Frame? ==> c.p in m.heap && c.p != tmp
    ensures var m1 := Mem(m.heap[tmp := Node(NULL, NULL, HoleParent(c), false, e.key, e.value)], m.root);
            Holds(WithLink(m1, HoleParent(c), c.Frame? && c.side.L?, tmp), Plug(c, N(E, tmp, false, e, E)))
  {
    CtxInHeap(m.heap, m.root, c, E);
    RepFocus(m.heap, m.root, c, E);
    if c.Frame? {
      RepParent(m.heap, m.root, c, E);
    }
    var m1 := Mem(m.heap[tmp := Node(NULL, NULL, HoleParent(c), false, e.key, e.value)], m.root);
    var m2 := WithLink(m1, HoleParent(c), c.Frame? && c.side.L?, tmp);
    RepReplace(m, m2, c, E, N(E, tmp, false, e, E));
  }

  /** treeRemove, a node with one child: the child takes its place. */
  lemma {:induction false} Splice(m: Mem, c: Ctx, t: Tree, x: Tree)
    requires Holds(m, Plug(c, t)) && t.N? && x.N? && ((t.l == x && t.r == E) || (t.r == x && t.l == E))
    ensures x.p in m.heap && t.p in m.heap && t.p !in Ptrs(Plug(c, x)) && x.p != HoleParent(c)
    ensures m.heap[t.p].parent == HoleParent(c) && (c.Frame? ==> c.p in m.heap)
    ensures m.heap[t.p].left == Root(t.l) && m.heap[t.p].right == Root(t.r) && m.heap[t.p].red == t.red
    ensures x.p != t.p && HoleParent(c) != t.p && t.p != NULL
    ensures c.Frame? ==> (m.heap[c.p].left == t.p <==> c.side.L?)
    ensures Ptrs(Plug(c, t)) == Ptrs(Plug(c, x)) + {t.p}
    ensures var m1 := Mem(m.heap[x.p := m.heap[x.p].(parent := HoleParent(c))], m.root);
            Holds(WithLink(m1, HoleParent(c), c.Frame? && c.side.L?, x.p), Plug(c, x))
  {
    CtxInHeap(m.heap, m.root, c, t);
    RepFocus(m.heap, m.root, c, t);
    ParentSides(m, c, t);
    RootIn(x);
    if c.Frame? {
      RepParent(m.heap, m.root, c, t);
    }
    var m1 := Mem(m.heap[x.p := m.heap[x.p].(parent := HoleParent(c))], m.root);
    var m2 := WithLink(m1, HoleParent(c), c.Frame? && c.side.L?, x.p);
    RepMoved(m.heap, m2.heap, t.p, HoleParent(c), x);
    RepReplace(m, m2, c, t, x);
    PlugPtrs(c, x);
    PlugPtrs(c, t);
  }

  /** treeRemove, a leaf that needs no repair: its link is cleared. */
  lemma {:induction false} Clip(m: Mem, c: Ctx, t: Tree)
    requires Holds(m, Plug(c, t)) && t.N? && t.l == E && t.r == E
    ensures t.p in m.heap && m.heap[t.p].parent == HoleParent(c) && (c.Frame? ==> c.p in m.heap)
    ensures t.p !in Ptrs(Plug(c, E)) && Ptrs(Plug(c, t)) == Ptrs(Plug(c, E)) + {t.p}
    ensures c.Frame? ==> (m.heap[c.p].left == t.p <==> c.side.L?)
    ensures Holds(WithLink(m, HoleParent(c), c.Frame? && c.side.L?, NULL), Plug(c, E))
  {
    CtxInHeap(m.heap, m.root, c, t);
    RepFocus(m.heap, m.root, c, t);
    ParentSides(m, c, t);
    if c.Frame? {
      RepParent(m.heap, m.root, c, t);
    }
    RepReplace(m, WithLink(m, HoleParent(c), c.Frame? && c.side.L?, NULL), c, t, E);
    PlugPtrs(c, E);
    PlugPtrs(c, t);
  }

  // ---------------------------------------------------------------- a leaf that is repaired first

  function Bury(t: Tree): Tree {
    match t
    case N(l, p, red, e, r) => N(Bury(l), p, red, e, Bury(r))
    case _ => E
  }

  /** A dead leaf already counts as empty. */
  lemma {:induction false} BuryMeasures(t: Tree)
    ensures InOrder(Bury(t)) == InOrder(t) && IsRed(Bury(t)) == IsRed(t) && Deads(Bury(t)) == {}
    ensures BlackHeight(Bury(t)) == BlackHeight(t)
    ensures Balanced(t) ==> Balanced(Bury(t))
    ensures NoRedRed(t) ==> NoRedRed(Bury(t))
  {
    if t.N? {
      BuryMeasures(t.l);
      BuryMeasures(t.r);
    }
  }

  lemma {:induction false} DeadsArePtrs(t: Tree)
    ensures Deads(t) <= Ptrs(t)
    ensures Deads(t) == {} ==> Bury(t) == t
  {
    if t.N? {
      DeadsArePtrs(t.l);
      DeadsArePtrs(t.r);
    }
  }

  /** Wherever rotations have taken the dead leaf, clearing the link in its parent removes it. */
  lemma {:induction false} Unlink(h: Heap, p: Ptr, parent: Ptr, t: Tree, q: Ptr)
    requires Rep(h, p, parent, t) && Deads(t) == {q} && t.N?
    ensures q in h && h[q].parent in h && h[q].parent in Ptrs(t) && h[q].parent != q
    ensures Ptrs(Bury(t)) == Ptrs(t) - {q}
    ensures var up := h[q].parent;
            && (h[up].left == q || h[up].right == q)
            && Rep(h[up := WithChild(h[up], if h[up].left == q then L else R, NULL)], p, parent, Bury(t))
    decreases t, 0
  {
    DeadsArePtrs(t.l);
    DeadsArePtrs(t.r);
    RepPtrs(h, h[p].left, p, t.l);
    RepPtrs(h, h[p].right, p, t.r);
    RootIn(t.l);
    RootIn(t.r);
    if q in Deads(t.l) {
      assert q !in Deads(t.r) && Bury(t.r) == t.r;
      UnlinkBelow(h, p, L, t.l, q, t.r);
    } else {
      assert q !in Deads(t.l) && Bury(t.l) == t.l;
      UnlinkBelow(h, p, R, t.r, q, t.l);
    }
  }

  lemma {:induction false} UnlinkBelow(h: Heap, p: Ptr, s: Side, t: Tree, q: Ptr, other: Tree)
    requires p in h && p != NULL && p !in Ptrs(t) && p !in Ptrs(other) && Ptrs(t) !! Ptrs(other)
    requires Rep(h, ChildOf(h[p], s), p, t) && Rep(h, ChildOf(h[p], Flip(s)), p, other) && Deads(t) == {q}
    ensures q in h && h[q].parent in h && (h[q].parent == p || h[q].parent in Ptrs(t)) && h[q].parent != q
    ensures Ptrs(Bury(t)) == Ptrs(t) - {q}
    ensures var up := h[q].parent;
            var h' := h[up := WithChild(h[up], if h[up].left == q then L else R, NULL)];
            && (h[up].left == q || h[up].right == q)
            && Rep(h', ChildOf(h'[p], s), p, Bury(t)) && Rep(h', ChildOf(h'[p], Flip(s)), p, other)
            && h'[p] == h[p].(left := h'[p].left, right := h'[p].right)
    decreases t, 1
  {
    RepPtrs(h, ChildOf(h[p], s), p, t);
    RepPtrs(h, ChildOf(h[p], Flip(s)), p, other);
    RootIn(other);
    if t.N? {
      Unlink(h, ChildOf(h[p], s), p, t, q);
    }
    var up := h[q].parent;
    var h' := h[up := WithChild(h[up], if h[up].left == q then L else R, NULL)];
    RepFrame(h, h', ChildOf(h[p], Flip(s)), p, other);
  }

  /** After the repair: the dead leaf is the child of some node, and cutting that link leaves a
      red-black tree with the same contents. */
  lemma {:induction false} DeadEnds(m: Mem, t: Tree, q: Ptr)
    requires Holds(m, t) && Deads(t) == {q} && RedBlack(t) && InOrder(t) != []
    ensures q in m.heap && m.heap[q].parent in m.heap && m.heap[q].parent != NULL
    ensures Holds(WithLink(m, m.heap[q].parent, m.heap[m.heap[q].parent].left == q, NULL), Bury(t))
    ensures RedBlack(Bury(t)) && InOrder(Bury(t)) == InOrder(t) && Deads(Bury(t)) == {}
    ensures Ptrs(t) == Ptrs(Bury(t)) + {q} && q !in Ptrs(Bury(t))
  {
    Unlink(m.heap, m.root, NULL, t, q);
    RepPtrs(m.heap, m.root, NULL, t);
    BuryMeasures(t);
    DeadsArePtrs(t);
  }

  /** free: a node outside the tree may be taken away. */
  lemma {:induction false} Forget(m: Mem, t: Tree, q: Ptr)
    requires Holds(m, t) && q !in Ptrs(t)
    ensures Holds(Mem(m.heap - {q}, m.root), t)
  {
    RepPtrs(m.heap, m.root, NULL, t);
    RepFrame(m.heap, m.heap - {q}, m.root, NULL, t);
  }

  // ---------------------------------------------------------------- the red-black side of removal

  /** An only child is red and its parent black, so painting the child black is all the repair there is. */
  lemma {:induction false} OnlyChild(c: Ctx, t: Tree, x: Tree)
    requires RedBlack(Plug(c, t)) && t.N? && x.N? && Deads(Plug(c, t)) == {}
    requires (t.l == x && t.r == E) || (t.r == x && t.l == E)
    ensures !t.red && IsRed(x) && RemoveInv(c, x)
  {
    PlugBalanced(c, t);
    PlugNoRedRed(c, t);
    PlugIsRed(c, t);
  }

  lemma {:induction false} BlackLeaf(c: Ctx, t: Tree)
    requires RedBlack(Plug(c, t)) && t.N? && t.l == E && t.r == E && !t.red
    ensures RemoveInv(c, Dead(t.p))
  {
    PlugBalanced(c, t);
    PlugNoRedRed(c, t);
    PlugIsRed(c, t);
  }

  lemma {:induction false} RedLeaf(c: Ctx, t: Tree)
    requires RedBlack(Plug(c, t)) && t.N? && t.l == E && t.r == E && t.red
    ensures RedBlack(Plug(c, E))
  {
    PlugBalanced(c, t);
    PlugNoRedRed(c, t);
    PlugIsRed(c, t);
    PlugBalanced(c, E);
    PlugNoRedRed(c, E);
    PlugIsRed(c, E);
  }

  /** Neither the shape nor the colours depend on the entries. */
  lemma {:induction false} SwapEntry(c: Ctx, t: Tree, e: Entry)
    requires t.N?
    ensures RedBlack(Plug(c, t)) ==> RedBlack(Plug(c, t.(e := e)))
    ensures Ptrs(Plug(c, t)) == Ptrs(Plug(c, t.(e := e))) && Deads(Plug(c, t)) == Deads(Plug(c, t.(e := e)))
  {
    PlugBalanced(c, t);
    PlugNoRedRed(c, t);
    PlugIsRed(c, t);
    PlugBalanced(c, t.(e := e));
    PlugNoRedRed(c, t.(e := e));
    PlugIsRed(c, t.(e := e));
    PlugPtrs(c, t);
    PlugPtrs(c, t.(e := e));
    PlugDeads(c, t, t.(e := e));
  }

  lemma {:induction false} PlugDeads(c: Ctx, t: Tree, u: Tree)
    requires Deads(t) == Deads(u)
    ensures Deads(Plug(c, t)) == Deads(Plug(c, u))
    decreases c
  {
    if c.Frame? {
      PlugDeads(c.up, Mk(c.side, t, c.p, c.red, c.e, c.sib), Mk(c.side, u, c.p, c.red, c.e, c.sib));
    }
  }

  lemma {:induction false} PlugDeadsIn(c: Ctx, t: Tree)
    ensures Deads(t) <= Deads(Plug(c, t))
    ensures Deads(Plug(c, t)) == Deads(Plug(c, E)) + Deads(t)
    decreases c
  {
    if c.Frame? {
      var u, v := Mk(c.side, t, c.p, c.red, c.e, c.sib), Mk(c.side, E, c.p, c.red, c.e, c.sib);
      PlugDeadsIn(c.up, u);
      PlugDeadsIn(c.up, v);
      MkPtrs(c.side, t, c.p, c.red, c.e, c.sib);
      MkPtrs(c.side, E, c.p, c.red, c.e, c.sib);
    }
  }

  // ---------------------------------------------------------------- the successor

  /** The zipper that enters first c, then d. */
  function Over(d: Ctx, c: Ctx): Ctx
    decreases d
  {
    if d.Top? then c else d.(up := Over(d.up, c))
  }

  lemma {:induction false} PlugOver(d: Ctx, c: Ctx, t: Tree)
    ensures Plug(Over(d, c), t) == Plug(c, Plug(d, t))
    decreases d
  {
    if d.Frame? {
      PlugOver(d.up, c, Mk(d.side, t, d.p, d.red, d.e, d.sib));
    }
  }

  /** A path that only goes left. */
  predicate LeftPath(d: Ctx) { d.Top? || (d.side.L? && LeftPath(d.up)) }

  lemma {:induction false} LeftPathBefore(d: Ctx)
    requires LeftPath(d)
    ensures Before(d) == []
  {
    if d.Frame? { LeftPathBefore(d.up); }
  }
}
