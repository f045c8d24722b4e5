/** The branches of fixAfterInsert and fixAfterRemove (tree.c) as steps on memory: each lemma names
    the stores and rotations of one branch, on either side, and says which tree the heap then holds.
  */
module TreeRepair {
  import opened TreeShape
  import opened TreeHeap
  import opened TreeMap

  /** Looking at a node from its other child. */
  lemma {:induction false} Turn(s: Side, near: Tree, p: Ptr, red: bool, e: Entry, far: Tree)
    ensures Mk(s, near, p, red, e, far) == Mk(Flip(s), far, p, red, e, near)
  {
  }

  /** Moving the focus from a child to its parent, and to its sibling. */
  lemma {:induction false} Refocus(up: Ctx, s: Side, p: Ptr, red: bool, e: Entry, sib: Tree, t: Tree)
    ensures Plug(Frame(up, s, p, red, e, sib), t) == Plug(up, Mk(s, t, p, red, e, sib))
    ensures Plug(Frame(up, s, p, red, e, sib), t) == Plug(Frame(up, Flip(s), p, red, e, t), sib)
  {
    Turn(s, t, p, red, e, sib);
  }

  /** Painting the focus, with everything the callers need. */
  lemma {:induction false} PaintAt(m: Mem, c: Ctx, t: Tree, red: bool)
    requires Holds(m, Plug(c, t)) && t.N?
    ensures t.p in m.heap && t.p != NULL
    ensures Holds(Mem(Coloured(m.heap, t.p, red), m.root), Plug(c, Paint(t, red)))
    ensures Same(Plug(c, t), Plug(c, Paint(t, red)))
  {
    RepPaint(m, c, t, red);
    RepFocus(m.heap, m.root, c, t);
    PaintSame(t, red);
    PlugSame(c, t, Paint(t, red));
  }

  /** Painting the parent of the focus. */
  lemma {:induction false} PaintParent(m: Mem, c: Ctx, t: Tree, red: bool)
    requires Holds(m, Plug(c, t)) && c.Frame?
    ensures c.p in m.heap && c.p != NULL
    ensures Holds(Mem(Coloured(m.heap, c.p, red), m.root), Plug(c.(red := red), t))
    ensures Same(Plug(c, t), Plug(c.(red := red), t))
  {
    PaintAt(m, c.up, Mk(c.side, t, c.p, c.red, c.e, c.sib), red);
  }

  /** Painting the sibling of the focus. */
  lemma {:induction false} PaintSibling(m: Mem, c: Ctx, t: Tree, red: bool)
    requires Holds(m, Plug(c, t)) && c.Frame? && c.sib.N?
    ensures c.sib.p in m.heap && c.sib.p != NULL
    ensures Holds(Mem(Coloured(m.heap, c.sib.p, red), m.root), Plug(c.(sib := Paint(c.sib, red)), t))
    ensures Same(Plug(c, t), Plug(c.(sib := Paint(c.sib, red)), t))
  {
    Turn(c.side, t, c.p, c.red, c.e, c.sib);
    Turn(c.side, t, c.p, c.red, c.e, Paint(c.sib, red));
    PaintAt(m, Frame(c.up, Flip(c.side), c.p, c.red, c.e, t), c.sib, red);
  }

  /** Rotating the focus. */
  lemma {:induction false} RotateAt(m: Mem, c: Ctx, s: Side, a: Tree, p: Ptr, pr: bool, pe: Entry,
                                    b: Tree, q: Ptr, qr: bool, qe: Entry, d: Tree)
    requires Holds(m, Plug(c, Mk(s, a, p, pr, pe, Mk(s, b, q, qr, qe, d))))
    ensures CanRotate(m, p, s)
    ensures Holds(Rotated(m, p, s), Plug(c, Mk(s, Mk(s, a, p, pr, pe, b), q, qr, qe, d)))
    ensures Rotated(m, p, s).heap.Keys == m.heap.Keys
    ensures Same(Plug(c, Mk(s, a, p, pr, pe, Mk(s, b, q, qr, qe, d))), Plug(c, Mk(s, Mk(s, a, p, pr, pe, b), q, qr, qe, d)))
  {
    RepRotate(m, c, s, a, p, pr, pe, b, q, qr, qe, d);
    RotateSame(s, a, p, pr, pe, b, q, qr, qe, d, pr, qr);
    PlugSame(c, Mk(s, a, p, pr, pe, Mk(s, b, q, qr, qe, d)), Mk(s, Mk(s, a, p, pr, pe, b), q, qr, qe, d));
  }

  // ---------------------------------------------------------------- fixAfterInsert

  /** What fixAfterInsert reads at the top of a turn: the parent is red, so there is a grandparent. */
  lemma {:induction false} InsertReads(m: Mem, c: Ctx, t: Tree)
    requires Holds(m, Plug(c, t)) && InsertInv(c, t)
    ensures t.p in m.heap && t.p != NULL && m.heap[t.p].parent == HoleParent(c) && m.heap[t.p].red
    ensures c.Frame? ==> c.p in m.heap && c.p != NULL && m.heap[c.p].red == c.red
    ensures CtxRed(c) ==>
      var g, gf := m.heap[c.p].parent, c.up;
      && gf.Frame? && g == gf.p && g != NULL && g in m.heap && !gf.red
      && ChildOf(m.heap[g], gf.side) == c.p && ChildOf(m.heap[g], Flip(gf.side)) == Root(gf.sib)
      && c.p != Root(gf.sib)
      && (Root(gf.sib) == NULL || Root(gf.sib) in m.heap)
      && (Root(gf.sib) != NULL && m.heap[Root(gf.sib)].red <==> IsRed(gf.sib))
      && ChildOf(m.heap[c.p], c.side) == t.p && ChildOf(m.heap[c.p], Flip(c.side)) != t.p
  {
    RepFocus(m.heap, m.root, c, t);
    if c.Frame? {
      RepParent(m.heap, m.root, c, t);
      RootIn(c.sib);
    }
    if CtxRed(c) {
      var p := Mk(c.side, t, c.p, c.red, c.e, c.sib);
      RepParent(m.heap, m.root, c.up, p);
      RootIn(c.up.sib);
      RepPtrs(m.heap, Root(c.up.sib), c.up.p, c.up.sib);
    }
  }

  lemma {:induction false} InsertRecolourMem(m: Mem, up: Ctx, s2: Side, g: Ptr, ge: Entry, uncle: Tree,
                                             s1: Side, p: Ptr, pe: Entry, sib: Tree, t: Tree) returns (u: Tree)
    requires Holds(m, Plug(Frame(Frame(up, s2, g, false, ge, uncle), s1, p, true, pe, sib), t))
    requires InsertInv(Frame(Frame(up, s2, g, false, ge, uncle), s1, p, true, pe, sib), t) && IsRed(uncle)
    ensures p in m.heap && uncle.p in m.heap && g in m.heap
    ensures u.N? && u.p == g && InsertInv(up, u)
    ensures var h := Coloured(Coloured(Coloured(m.heap, p, false), uncle.p, false), g, true);
            Holds(Mem(h, m.root), Plug(up, u)) && h.Keys == m.heap.Keys
    ensures Same(Plug(Frame(Frame(up, s2, g, false, ge, uncle), s1, p, true, pe, sib), t), Plug(up, u))
  {
    PaintParent(m, Frame(Frame(up, s2, g, false, ge, uncle), s1, p, true, pe, sib), t, false);
    var m1 := Mem(Coloured(m.heap, p, false), m.root);
    var t1 := Mk(s1, t, p, false, pe, sib);
    PaintSibling(m1, Frame(up, s2, g, false, ge, uncle), t1, false);
    var m2 := Mem(Coloured(m1.heap, uncle.p, false), m.root);
    PaintParent(m2, Frame(up, s2, g, false, ge, Paint(uncle, false)), t1, true);
    u := Mk(s2, t1, g, true, ge, Paint(uncle, false));
    InsertRecolour(up, s2, g, ge, uncle, s1, p, pe, sib, t);
  }

  lemma {:induction false} InsertInnerMem(m: Mem, up: Ctx, s: Side, g: Ptr, ge: Entry, uncle: Tree,
                                          p: Ptr, pe: Entry, sib: Tree, t: Tree) returns (c: Ctx, u: Tree)
    requires Holds(m, Plug(Frame(Frame(up, s, g, false, ge, uncle), Flip(s), p, true, pe, sib), t))
    requires InsertInv(Frame(Frame(up, s, g, false, ge, uncle), Flip(s), p, true, pe, sib), t)
    ensures c.Frame? && c.up == Frame(up, s, g, false, ge, uncle) && c.side == s && c.red && u.N? && u.p == p && InsertInv(c, u)
    ensures CanRotate(m, p, s)
    ensures Holds(Rotated(m, p, s), Plug(c, u)) && Rotated(m, p, s).heap.Keys == m.heap.Keys
    ensures Same(Plug(Frame(Frame(up, s, g, false, ge, uncle), Flip(s), p, true, pe, sib), t), Plug(c, u))
  {
    var near, far := if s.L? then t.l else t.r, if s.L? then t.r else t.l;
    var gf := Frame(up, s, g, false, ge, uncle);
    assert t == Mk(s, near, t.p, true, t.e, far);
    Turn(Flip(s), t, p, true, pe, sib);
    RotateAt(m, gf, s, sib, p, true, pe, near, t.p, true, t.e, far);
    InsertInner(up, s, g, ge, uncle, p, pe, sib, near, t.p, t.e, far);
    c, u := Frame(gf, s, t.p, true, t.e, far), Mk(s, sib, p, true, pe, near);
  }

  lemma {:induction false} InsertOuterMem(m: Mem, up: Ctx, s: Side, g: Ptr, ge: Entry, uncle: Tree,
                                          p: Ptr, pe: Entry, sib: Tree, t: Tree) returns (c: Ctx)
    requires Holds(m, Plug(Frame(Frame(up, s, g, false, ge, uncle), s, p, true, pe, sib), t))
    requires InsertInv(Frame(Frame(up, s, g, false, ge, uncle), s, p, true, pe, sib), t) && !IsRed(uncle)
    ensures p in m.heap && g in m.heap
    ensures !CtxRed(c) && InsertInv(c, t)
    ensures var m2 := Mem(Coloured(Coloured(m.heap, p, false), g, true), m.root);
            CanRotate(m2, g, Flip(s)) && Holds(Rotated(m2, g, Flip(s)), Plug(c, t))
            && Rotated(m2, g, Flip(s)).heap.Keys == m.heap.Keys
    ensures Same(Plug(Frame(Frame(up, s, g, false, ge, uncle), s, p, true, pe, sib), t), Plug(c, t))
  {
    PaintParent(m, Frame(Frame(up, s, g, false, ge, uncle), s, p, true, pe, sib), t, false);
    var m1 := Mem(Coloured(m.heap, p, false), m.root);
    var t1 := Mk(s, t, p, false, pe, sib);
    PaintParent(m1, Frame(up, s, g, false, ge, uncle), t1, true);
    var m2 := Mem(Coloured(m1.heap, g, true), m.root);
    Turn(s, t1, g, true, ge, uncle);
    Turn(s, t, p, false, pe, sib);
    RotateAt(m2, up, Flip(s), uncle, g, true, ge, sib, p, false, pe, t);
    Turn(s, sib, g, true, ge, uncle);
    Turn(s, t, p, false, pe, Mk(s, sib, g, true, ge, uncle));
    InsertOuter(up, s, g, ge, uncle, p, pe, sib, t);
    c := Frame(up, s, p, false, pe, Mk(s, sib, g, true, ge, uncle));
  }

  // ---------------------------------------------------------------- fixAfterRemove

  /** What fixAfterRemove reads at the top of a turn: a subtree that is one black node short has a
      sibling, and the sibling is a node. */
  lemma {:induction false} RemoveReads(m: Mem, c: Ctx, t: Tree)
    requires Holds(m, Plug(c, t)) && RemoveInv(c, t) && !t.E?
    ensures Root(t) in m.heap && Root(t) != NULL && m.heap[Root(t)].parent == HoleParent(c)
    ensures m.heap[Root(t)].red <==> IsRed(t)
    ensures c.Top? <==> m.root == Root(t)
    ensures c.Frame? ==>
      && c.p in m.heap && c.p != NULL && m.heap[c.p].red == c.red && c.sib.N? && c.sib.p in m.heap && c.sib.p != NULL
      && ChildOf(m.heap[c.p], c.side) == Root(t) && ChildOf(m.heap[c.p], Flip(c.side)) == c.sib.p && c.sib.p != Root(t)
      && m.heap[c.sib.p].red == c.sib.red
      && m.heap[c.sib.p].left == Root(c.sib.l) && m.heap[c.sib.p].right == Root(c.sib.r)
      && (Root(c.sib.l) == NULL || (Root(c.sib.l) in m.heap)) && (Root(c.sib.r) == NULL || (Root(c.sib.r) in m.heap))
      && (IsRed(c.sib.l) <==> Root(c.sib.l) != NULL && m.heap[Root(c.sib.l)].red)
      && (IsRed(c.sib.r) <==> Root(c.sib.r) != NULL && m.heap[Root(c.sib.r)].red)
  {
    RepFocus(m.heap, m.root, c, t);
    RootIn(t);
    if c.Frame? {
      SiblingIsNode(c, t);
      RepParent(m.heap, m.root, c, t);
      RootIn(c.sib);
      RepPtrs(m.heap, Root(c.sib.l), c.sib.p, c.sib.l);
      RepPtrs(m.heap, Root(c.sib.r), c.sib.p, c.sib.r);
      RootIn(c.sib.l);
      RootIn(c.sib.r);
      RootAbove(m, c, t);
    }
  }

  lemma {:induction false} RootAbove(m: Mem, c: Ctx, t: Tree)
    requires Holds(m, Plug(c, t)) && c.Frame?
    ensures m.root in CtxPtrs(c)
    decreases c
  {
    RepFocus(m.heap, m.root, c.up, Mk(c.side, t, c.p, c.red, c.e, c.sib));
    if c.up.Frame? {
      RootAbove(m, c.up, Mk(c.side, t, c.p, c.red, c.e, c.sib));
    }
  }

  /** Red sibling: after two paints and a rotation the sibling is black and nothing else has changed. */
  lemma {:induction false} RemoveRedSiblingMem(m: Mem, up: Ctx, s: Side, p: Ptr, red: bool, pe: Entry,
                                               sib: Tree, t: Tree) returns (c: Ctx)
    requires Holds(m, Plug(Frame(up, s, p, red, pe, sib), t)) && RemoveInv(Frame(up, s, p, red, pe, sib), t)
    requires IsRed(sib)
    ensures p in m.heap && sib.p in m.heap
    ensures c.Frame? && c.side == s && c.p == p && c.red && c.sib.N? && !c.sib.red && RemoveInv(c, t)
    ensures Depth(c) == Depth(Frame(up, s, p, red, pe, sib)) + 1
    ensures var m2 := Mem(Coloured(Coloured(m.heap, sib.p, false), p, true), m.root);
            CanRotate(m2, p, s) && Holds(Rotated(m2, p, s), Plug(c, t)) && Rotated(m2, p, s).heap.Keys == m.heap.Keys
    ensures Same(Plug(Frame(up, s, p, red, pe, sib), t), Plug(c, t))
  {
    var a, b := if s.L? then sib.l else sib.r, if s.L? then sib.r else sib.l;
    var q, qe := sib.p, sib.e;
    assert sib == Mk(s, a, q, true, qe, b) && Paint(sib, false) == Mk(s, a, q, false, qe, b);
    PaintSibling(m, Frame(up, s, p, red, pe, sib), t, false);
    var m1 := Mem(Coloured(m.heap, q, false), m.root);
    PaintParent(m1, Frame(up, s, p, red, pe, Paint(sib, false)), t, true);
    var m2 := Mem(Coloured(m1.heap, p, true), m.root);
    RotateAt(m2, up, s, t, p, true, pe, a, q, false, qe, b);
    RemoveRedSibling(up, s, p, red, pe, a, q, qe, b, t);
    Refocus(Frame(up, s, q, false, qe, b), s, p, true, pe, a, t);
    Refocus(up, s, q, false, qe, b, Mk(s, t, p, true, pe, a));
    c := Frame(Frame(up, s, q, false, qe, b), s, p, true, pe, a);
  }

  /** Black nephews: the sibling goes red and the shortage moves up to the parent. */
  lemma {:induction false} RemoveBlackNephewsMem(m: Mem, up: Ctx, s: Side, p: Ptr, red: bool, pe: Entry,
                                                 sib: Tree, t: Tree) returns (u: Tree)
    requires Holds(m, Plug(Frame(up, s, p, red, pe, sib), t)) && RemoveInv(Frame(up, s, p, red, pe, sib), t)
    requires !IsRed(t) && sib.N? && !sib.red && !IsRed(sib.l) && !IsRed(sib.r)
    ensures sib.p in m.heap
    ensures u.N? && u.p == p && u.red == red && RemoveInv(up, u) && Holds(Mem(Coloured(m.heap, sib.p, true), m.root), Plug(up, u))
    ensures Same(Plug(Frame(up, s, p, red, pe, sib), t), Plug(up, u))
  {
    PaintSibling(m, Frame(up, s, p, red, pe, sib), t, true);
    RemoveBlackNephews(up, s, p, red, pe, sib, t);
    u := Mk(s, t, p, red, pe, Paint(sib, true));
  }

  /** Near nephew red, far nephew black: two paints and a rotation of the sibling make the far one red. */
  lemma {:induction false} RemoveInnerNephewMem(m: Mem, up: Ctx, s: Side, p: Ptr, red: bool, pe: Entry,
                                                sib: Tree, t: Tree) returns (c: Ctx)
    requires Holds(m, Plug(Frame(up, s, p, red, pe, sib), t)) && RemoveInv(Frame(up, s, p, red, pe, sib), t)
    requires sib.N? && !sib.red
    requires IsRed(if s.L? then sib.l else sib.r) && !IsRed(if s.L? then sib.r else sib.l)
    ensures sib.p in m.heap && (if s.L? then sib.l else sib.r).p in m.heap
    ensures var near := if s.L? then sib.l else sib.r;
            var m2 := Mem(Coloured(Coloured(m.heap, sib.p, true), near.p, false), m.root);
            && CanRotate(m2, sib.p, Flip(s)) && Holds(Rotated(m2, sib.p, Flip(s)), Plug(c, t))
            && Rotated(m2, sib.p, Flip(s)).heap.Keys == m.heap.Keys
    ensures c.Frame? && c.(sib := E) == Frame(up, s, p, red, pe, E) && RemoveInv(c, t)
    ensures c.sib.N? && !c.sib.red && IsRed(if s.L? then c.sib.r else c.sib.l)
    ensures Same(Plug(Frame(up, s, p, red, pe, sib), t), Plug(c, t))
  {
    var near, b := if s.L? then sib.l else sib.r, if s.L? then sib.r else sib.l;
    var q, qe, n, me := sib.p, sib.e, near.p, near.e;
    var x, y := if s.L? then near.l else near.r, if s.L? then near.r else near.l;
    assert near == Mk(s, x, n, true, me, y) && sib == Mk(s, near, q, false, qe, b);
    PaintSibling(m, Frame(up, s, p, red, pe, sib), t, true);
    var m1 := Mem(Coloured(m.heap, q, true), m.root);
    // now focus on the sibling itself
    var out := Frame(up, Flip(s), p, red, pe, t);
    var sib1 := Mk(s, near, q, true, qe, b);
    Refocus(up, s, p, red, pe, sib1, t);
    Refocus(out, s, q, true, qe, b, near);
    PaintAt(m1, Frame(out, s, q, true, qe, b), near, false);
    var m2 := Mem(Coloured(m1.heap, n, false), m.root);
    var near' := Mk(s, x, n, false, me, y);
    Refocus(out, s, q, true, qe, b, near');
    Turn(s, near', q, true, qe, b);
    Turn(s, x, n, false, me, y);
    RotateAt(m2, out, Flip(s), b, q, true, qe, y, n, false, me, x);
    Turn(s, y, q, true, qe, b);
    Turn(s, x, n, false, me, Mk(s, y, q, true, qe, b));
    var sib' := Mk(s, x, n, false, me, Mk(s, y, q, true, qe, b));
    Refocus(up, s, p, red, pe, sib', t);
    RemoveInnerNephew(up, s, p, red, pe, x, n, me, y, q, qe, b, t);
    c := Frame(up, s, p, red, pe, sib');
  }

  /** Far nephew red: three paints and a rotation of the parent end the shortage. */
  lemma {:induction false} RemoveOuterNephewMem(m: Mem, up: Ctx, s: Side, p: Ptr, red: bool, pe: Entry,
                                                sib: Tree, t: Tree) returns (u: Tree)
    requires Holds(m, Plug(Frame(up, s, p, red, pe, sib), t)) && RemoveInv(Frame(up, s, p, red, pe, sib), t)
    requires !IsRed(t) && sib.N? && !sib.red && IsRed(if s.L? then sib.r else sib.l)
    ensures var far := if s.L? then sib.r else sib.l;
            && sib.p in m.heap && far.p in m.heap && p in m.heap
            && var m3 := Mem(Coloured(Coloured(Coloured(m.heap, sib.p, red), p, false), far.p, false), m.root);
            && CanRotate(m3, p, s) && Holds(Rotated(m3, p, s), u) && Rotated(m3, p, s).heap.Keys == m.heap.Keys
    ensures RemoveInv(Top, u) && !u.E?
    ensures Same(Plug(Frame(up, s, p, red, pe, sib), t), u)
  {
    var a, b := if s.L? then sib.l else sib.r, if s.L? then sib.r else sib.l;
    var q, qe := sib.p, sib.e;
    assert sib == Mk(s, a, q, false, qe, b);
    var m3 := RemoveOuterPaints(m, up, s, p, red, pe, a, q, qe, b, t);
    RotateAt(m3, up, s, t, p, false, pe, a, q, red, qe, Paint(b, false));
    RemoveOuterNephew(up, s, p, red, pe, a, q, qe, b, t);
    u := Plug(up, Mk(s, Mk(s, t, p, false, pe, a), q, red, qe, Paint(b, false)));
    PlugNotEmpty(up, Mk(s, Mk(s, t, p, false, pe, a), q, red, qe, Paint(b, false)));
  }

  lemma {:induction false} RemoveOuterPaints(m: Mem, up: Ctx, s: Side, p: Ptr, red: bool, pe: Entry,
                                             a: Tree, q: Ptr, qe: Entry, b: Tree, t: Tree) returns (m3: Mem)
    requires Holds(m, Plug(Frame(up, s, p, red, pe, Mk(s, a, q, false, qe, b)), t)) && b.N?
    ensures q in m.heap && b.p in m.heap && p in m.heap
    ensures m3 == Mem(Coloured(Coloured(Coloured(m.heap, q, red), p, false), b.p, false), m.root)
    ensures Holds(m3, Plug(up, Mk(s, t, p, false, pe, Mk(s, a, q, red, qe, Paint(b, false)))))
    ensures Same(Plug(Frame(up, s, p, red, pe, Mk(s, a, q, false, qe, b)), t),
                 Plug(up, Mk(s, t, p, false, pe, Mk(s, a, q, red, qe, Paint(b, false)))))
  {
    var sib := Mk(s, a, q, false, qe, b);
    PaintSibling(m, Frame(up, s, p, red, pe, sib), t, red);
    var m1 := Mem(Coloured(m.heap, q, red), m.root);
    var sib1 := Mk(s, a, q, red, qe, b);
    PaintParent(m1, Frame(up, s, p, red, pe, sib1), t, false);
    var m2 := Mem(Coloured(m1.heap, p, false), m.root);
    var out, b' := Frame(up, Flip(s), p, false, pe, t), Paint(b, false);
    Refocus(up, s, p, false, pe, sib1, t);
    Refocus(out, s, q, red, qe, b, a);
    PaintAt(m2, Frame(out, Flip(s), q, red, qe, a), b, false);
    Refocus(out, s, q, red, qe, b', a);
    Refocus(up, s, p, false, pe, Mk(s, a, q, red, qe, b'), t);
    m3 := Mem(Coloured(m2.heap, b.p, false), m.root);
  }

  lemma {:induction false} PlugNotEmpty(c: Ctx, t: Tree)
    requires !t.E?
    ensures !Plug(c, t).E?
    decreases c
  {
    if c.Frame? {
      PlugNotEmpty(c.up, Mk(c.side, t, c.p, c.red, c.e, c.sib));
    }
  }
}
