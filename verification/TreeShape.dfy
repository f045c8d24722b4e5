/** Red-black trees as values: the shape that a heap of treeNode structs spells out, a zipper
    for the place a loop is looking at, and the two repair loops of tree.c as steps on zippers.

    Nothing here knows about memory; TreeHeap ties a heap to these shapes.
  */
module TreeShape {
  /** The address of a treeNode; 0 is NULL. */
  type Ptr = nat
  const NULL: Ptr := 0

  /** A mapValue pointer: tree.c stores, moves and returns it, and never looks inside. */
  type Value = int

  datatype Entry = Entry(key: int, value: Value)

  /** tree.c writes every case twice, once per side. Here each case is proved once, for either side. */
  datatype Side = L | R

  /** Dead(q) is a node that the removal has taken out of the map but not yet out of memory:
      fixAfterRemove runs while it is still linked. It counts as an empty tree. */
  datatype Tree =
    | E
    | N(l: Tree, p: Ptr, red: bool, e: Entry, r: Tree)
    | Dead(q: Ptr)

  /** A tree with a hole, innermost frame first. */
  datatype Ctx =
    | Top
    | Frame(up: Ctx, side: Side, p: Ptr, red: bool, e: Entry, sib: Tree)

  function Flip(s: Side): Side { if s.L? then R else L }

  /** The node whose child on side s is near and whose other child is far. */
  function Mk(s: Side, near: Tree, p: Ptr, red: bool, e: Entry, far: Tree): Tree {
    if s.L? then N(near, p, red, e, far) else N(far, p, red, e, near)
  }

  function Plug(c: Ctx, t: Tree): Tree
    decreases c
  {
    match c
    case Top => t
    case Frame(up, s, p, red, e, sib) => Plug(up, Mk(s, t, p, red, e, sib))
  }

  function InOrder(t: Tree): seq<Entry> {
    match t
    case N(l, _, _, e, r) => InOrder(l) + [e] + InOrder(r)
    case _ => []
  }

  function Ptrs(t: Tree): set<Ptr> {
    match t
    case E => {}
    case Dead(q) => {q}
    case N(l, p, _, _, r) => Ptrs(l) + {p} + Ptrs(r)
  }

  function CtxPtrs(c: Ctx): set<Ptr> {
    match c
    case Top => {}
    case Frame(up, _, p, _, _, sib) => CtxPtrs(up) + {p} + Ptrs(sib)
  }

  function Deads(t: Tree): set<Ptr> {
    match t
    case E => {}
    case Dead(q) => {q}
    case N(l, _, _, _, r) => Deads(l) + Deads(r)
  }

  /** The address stored in a link to t, and the address stored in its parent field. */
  function Root(t: Tree): Ptr {
    match t
    case E => NULL
    case Dead(q) => q
    case N(_, p, _, _, _) => p
  }

  function HoleParent(c: Ctx): Ptr { if c.Top? then NULL else c.p }

  // ---------------------------------------------------------------- what a red-black tree is

  predicate IsRed(t: Tree) { t.N? && t.red }

  function BlackHeight(t: Tree): nat {
    match t
    case N(l, _, red, _, _) => BlackHeight(l) + (if red then 0 else 1)
    case _ => 0
  }

  predicate Balanced(t: Tree) {
    match t
    case N(l, _, _, _, r) => BlackHeight(l) == BlackHeight(r) && Balanced(l) && Balanced(r)
    case _ => true
  }

  predicate NoRedRed(t: Tree) {
    match t
    case N(l, _, red, _, r) => (red ==> !IsRed(l) && !IsRed(r)) && NoRedRed(l) && NoRedRed(r)
    case _ => true
  }

  predicate RedBlack(t: Tree) { Balanced(t) && NoRedRed(t) && !IsRed(t) }

  predicate Sorted(s: seq<Entry>) {
    forall i, j :: 0 <= i < j < |s| ==> s[i].key < s[j].key
  }

  /** What the three measures say of a node, whichever side its near child is on. */
  lemma {:induction false} MkMeasures(s: Side, near: Tree, p: Ptr, red: bool, e: Entry, far: Tree)
    ensures var t := Mk(s, near, p, red, e, far);
            && (Balanced(t) <==> BlackHeight(near) == BlackHeight(far) && Balanced(near) && Balanced(far))
            && (Balanced(t) ==> BlackHeight(t) == BlackHeight(near) + if red then 0 else 1)
            && (NoRedRed(t) <==> (red ==> !IsRed(near) && !IsRed(far)) && NoRedRed(near) && NoRedRed(far))
  {
  }

  // ---------------------------------------------------------------- the same, around a hole

  predicate CtxRed(c: Ctx) { c.Frame? && c.red }

  /** A tree of black height n fits the hole. */
  predicate CtxBalanced(c: Ctx, n: nat)
    decreases c
  {
    match c
    case Top => true
    case Frame(up, _, _, red, _, sib) =>
      BlackHeight(sib) == n && Balanced(sib) && CtxBalanced(up, n + if red then 0 else 1)
  }

  predicate CtxNoRedRed(c: Ctx) {
    match c
    case Top => true
    case Frame(up, _, _, red, _, sib) =>
      NoRedRed(sib) && (red ==> !IsRed(sib) && !CtxRed(up)) && CtxNoRedRed(up)
  }

  /** The outermost frame, if there is one, is black. */
  predicate TopBlack(c: Ctx) {
    c.Top? || if c.up.Top? then !c.red else TopBlack(c.up)
  }

  /** What the measures say of a hole one level further out. */
  lemma {:induction false} FrameMeasures(up: Ctx, s: Side, p: Ptr, red: bool, e: Entry, sib: Tree, n: nat)
    ensures var c := Frame(up, s, p, red, e, sib);
            && (CtxBalanced(c, n) <==>
                BlackHeight(sib) == n && Balanced(sib) && CtxBalanced(up, n + if red then 0 else 1))
            && (CtxNoRedRed(c) <==>
                NoRedRed(sib) && (red ==> !IsRed(sib) && !CtxRed(up)) && CtxNoRedRed(up))
            && (TopBlack(c) <==> if up.Top? then !red else TopBlack(up))
  {
  }

  /** What both repair loops leave alone: the sorted contents, the set of nodes, the dead node. */
  predicate Same(t: Tree, u: Tree) {
    InOrder(t) == InOrder(u) && Ptrs(t) == Ptrs(u) && Deads(t) == Deads(u)
  }

  lemma {:induction false} PlugSame(c: Ctx, t: Tree, u: Tree)
    requires Same(t, u)
    ensures Same(Plug(c, t), Plug(c, u))
    decreases c
  {
    if c.Frame? {
      PlugSame(c.up, Mk(c.side, t, c.p, c.red, c.e, c.sib), Mk(c.side, u, c.p, c.red, c.e, c.sib));
    }
  }

  lemma {:induction false} PlugPtrs(c: Ctx, t: Tree)
    ensures Ptrs(Plug(c, t)) == CtxPtrs(c) + Ptrs(t)
    decreases c
  {
    if c.Frame? {
      PlugPtrs(c.up, Mk(c.side, t, c.p, c.red, c.e, c.sib));
    }
  }

  lemma {:induction false} PlugBalanced(c: Ctx, t: Tree)
    ensures Balanced(Plug(c, t)) <==> Balanced(t) && CtxBalanced(c, BlackHeight(t))
    decreases c
  {
    if c.Frame? {
      PlugBalanced(c.up, Mk(c.side, t, c.p, c.red, c.e, c.sib));
    }
  }

  lemma {:induction false} PlugNoRedRed(c: Ctx, t: Tree)
    ensures NoRedRed(Plug(c, t)) <==> NoRedRed(t) && CtxNoRedRed(c) && !(IsRed(t) && CtxRed(c))
    decreases c
  {
    if c.Frame? {
      PlugNoRedRed(c.up, Mk(c.side, t, c.p, c.red, c.e, c.sib));
    }
  }

  lemma {:induction false} PlugIsRed(c: Ctx, t: Tree)
    ensures IsRed(Plug(c, t)) <==> if c.Top? then IsRed(t) else !TopBlack(c)
    decreases c
  {
    if c.Frame? {
      PlugIsRed(c.up, Mk(c.side, t, c.p, c.red, c.e, c.sib));
    }
  }

  /** A node and its far child change places; this is what leftRotate (s == L) and rightRotate do. */
  lemma {:induction false} RotateSame(s: Side, a: Tree, p: Ptr, pr: bool, pe: Entry,
                                      b: Tree, q: Ptr, qr: bool, qe: Entry, c: Tree, pr': bool, qr': bool)
    ensures Same(Mk(s, a, p, pr, pe, Mk(s, b, q, qr, qe, c)), Mk(s, Mk(s, a, p, pr', pe, b), q, qr', qe, c))
  {
    var t, u := Mk(s, a, p, pr, pe, Mk(s, b, q, qr, qe, c)), Mk(s, Mk(s, a, p, pr', pe, b), q, qr', qe, c);
    if s.L? {
      assert InOrder(t) == InOrder(a) + [pe] + InOrder(b) + [qe] + InOrder(c);
      assert InOrder(u) == InOrder(a) + [pe] + InOrder(b) + [qe] + InOrder(c);
    } else {
      assert InOrder(t) == InOrder(c) + [qe] + InOrder(b) + [pe] + InOrder(a);
      assert InOrder(u) == InOrder(c) + [qe] + InOrder(b) + [pe] + InOrder(a);
    }
  }

  function Paint(t: Tree, red: bool): Tree { if t.N? then t.(red := red) else t }

  lemma {:induction false} PaintSame(t: Tree, red: bool)
    ensures Same(t, Paint(t, red))
  {
  }

  lemma {:induction false} PaintMeasures(t: Tree, red: bool)
    requires t.N? && Balanced(t)
    ensures Balanced(Paint(t, red))
    ensures BlackHeight(Paint(t, red)) + (if red then 1 else 0) == BlackHeight(t) + (if t.red then 1 else 0)
    ensures NoRedRed(t) && (red ==> !IsRed(t.l) && !IsRed(t.r)) ==> NoRedRed(Paint(t, red))
  {
  }

  // ---------------------------------------------------------------- fixAfterInsert, one turn at a time

  /** The loop invariant: all is well except that t and its parent may both be red. */
  predicate InsertInv(c: Ctx, t: Tree) {
    && IsRed(t) && Balanced(t) && NoRedRed(t)
    && CtxBalanced(c, BlackHeight(t)) && CtxNoRedRed(c) && TopBlack(c)
  }

  /** Red uncle: two nodes go black, the grandparent goes red and is looked at next. */
  lemma {:induction false} InsertRecolour(up: Ctx, s2: Side, g: Ptr, ge: Entry, uncle: Tree,
                       s1: Side, p: Ptr, pe: Entry, sib: Tree, t: Tree)
    requires InsertInv(Frame(Frame(up, s2, g, false, ge, uncle), s1, p, true, pe, sib), t)
    requires IsRed(uncle)
    ensures InsertInv(up, Mk(s2, Mk(s1, t, p, false, pe, sib), g, true, ge, Paint(uncle, false)))
  {
    FrameMeasures(up, s2, g, false, ge, uncle, BlackHeight(sib));
    PaintMeasures(uncle, false);
    MkMeasures(s1, t, p, false, pe, sib);
    MkMeasures(s2, Mk(s1, t, p, false, pe, sib), g, true, ge, Paint(uncle, false));
  }

  /** Black uncle, t an inner grandchild: after the first rotation p is the outer grandchild below t. */
  lemma {:induction false} InsertInner(up: Ctx, s: Side, g: Ptr, ge: Entry, uncle: Tree, p: Ptr, pe: Entry, sib: Tree,
                    near: Tree, q: Ptr, qe: Entry, far: Tree)
    requires InsertInv(Frame(Frame(up, s, g, false, ge, uncle), Flip(s), p, true, pe, sib), Mk(s, near, q, true, qe, far))
    ensures InsertInv(Frame(Frame(up, s, g, false, ge, uncle), s, q, true, qe, far), Mk(s, sib, p, true, pe, near))
  {
    MkMeasures(s, near, q, true, qe, far);
    MkMeasures(s, sib, p, true, pe, near);
  }

  /** Black uncle, t an outer grandchild: one rotation about the grandparent finishes the job. */
  lemma {:induction false} InsertOuter(up: Ctx, s: Side, g: Ptr, ge: Entry, uncle: Tree, p: Ptr, pe: Entry, sib: Tree, t: Tree)
    requires InsertInv(Frame(Frame(up, s, g, false, ge, uncle), s, p, true, pe, sib), t)
    requires !IsRed(uncle)
    ensures InsertInv(Frame(up, s, p, false, pe, Mk(s, sib, g, true, ge, uncle)), t)
  {
    FrameMeasures(up, s, g, false, ge, uncle, BlackHeight(sib));
    MkMeasures(s, sib, g, true, ge, uncle);
    FrameMeasures(up, s, p, false, pe, Mk(s, sib, g, true, ge, uncle), BlackHeight(sib));
  }

  /** When the loop stops, painting the root black gives a red-black tree. */
  lemma {:induction false} InsertDone(c: Ctx, t: Tree)
    requires InsertInv(c, t) && !CtxRed(c)
    ensures RedBlack(Paint(Plug(c, t), false)) && Same(Plug(c, t), Paint(Plug(c, t), false))
  {
    PlugBalanced(c, t);
    PlugNoRedRed(c, t);
    PlugIsRed(c, t);
    PaintSame(Plug(c, t), false);
  }

  // ---------------------------------------------------------------- fixAfterRemove, one turn at a time

  /** The loop invariant: the hole asks for one black node more than t has. t may be a red node
      with a red child: it is about to be painted black. */
  predicate RemoveInv(c: Ctx, t: Tree) {
    && Balanced(t) && NoRedRed(Paint(t, false))
    && CtxBalanced(c, BlackHeight(t) + 1) && CtxNoRedRed(c) && TopBlack(c)
  }

  /** The sibling of a subtree that is one black node short is a node. */
  lemma {:induction false} SiblingIsNode(c: Ctx, t: Tree)
    requires RemoveInv(c, t) && c.Frame?
    ensures c.sib.N?
  {
  }

  lemma {:induction false} RemoveRedSibling(up: Ctx, s: Side, p: Ptr, red: bool, pe: Entry,
                         a: Tree, q: Ptr, qe: Entry, b: Tree, t: Tree)
    requires RemoveInv(Frame(up, s, p, red, pe, Mk(s, a, q, true, qe, b)), t)
    ensures !red && !IsRed(a) && a.N?
    ensures RemoveInv(Frame(Frame(up, s, q, false, qe, b), s, p, true, pe, a), t)
  {
    MkMeasures(s, a, q, true, qe, b);
  }

  lemma {:induction false} RemoveBlackNephews(up: Ctx, s: Side, p: Ptr, red: bool, pe: Entry, sib: Tree, t: Tree)
    requires RemoveInv(Frame(up, s, p, red, pe, sib), t)
    requires !IsRed(t) && sib.N? && !sib.red && !IsRed(sib.l) && !IsRed(sib.r)
    ensures RemoveInv(up, Mk(s, t, p, red, pe, Paint(sib, true)))
  {
    PaintMeasures(sib, true);
    MkMeasures(s, t, p, red, pe, Paint(sib, true));
    MkMeasures(s, t, p, false, pe, Paint(sib, true));
  }

  lemma {:induction false} RemoveInnerNephew(up: Ctx, s: Side, p: Ptr, red: bool, pe: Entry,
                          x: Tree, m: Ptr, me: Entry, y: Tree, q: Ptr, qe: Entry, b: Tree, t: Tree)
    requires RemoveInv(Frame(up, s, p, red, pe, Mk(s, Mk(s, x, m, true, me, y), q, false, qe, b)), t)
    requires !IsRed(b)
    ensures RemoveInv(Frame(up, s, p, red, pe, Mk(s, x, m, false, me, Mk(s, y, q, true, qe, b))), t)
  {
    MkMeasures(s, x, m, true, me, y);
    MkMeasures(s, Mk(s, x, m, true, me, y), q, false, qe, b);
    MkMeasures(s, y, q, true, qe, b);
    MkMeasures(s, x, m, false, me, Mk(s, y, q, true, qe, b));
  }

  lemma {:induction false} RemoveOuterNephew(up: Ctx, s: Side, p: Ptr, red: bool, pe: Entry,
                          a: Tree, q: Ptr, qe: Entry, b: Tree, t: Tree)
    requires RemoveInv(Frame(up, s, p, red, pe, Mk(s, a, q, false, qe, b)), t)
    requires !IsRed(t) && IsRed(b)
    ensures RemoveInv(Top, Plug(up, Mk(s, Mk(s, t, p, false, pe, a), q, red, qe, Paint(b, false))))
  {
    PaintMeasures(b, false);
    MkMeasures(s, a, q, false, qe, b);
    MkMeasures(s, t, p, false, pe, a);
    MkMeasures(s, Mk(s, t, p, false, pe, a), q, red, qe, Paint(b, false));
    var u := Mk(s, Mk(s, t, p, false, pe, a), q, red, qe, Paint(b, false));
    PlugBalanced(up, u);
    PlugNoRedRed(up, u);
  }

  lemma {:induction false} RemoveDone(c: Ctx, t: Tree)
    requires RemoveInv(c, t) && (c.Top? || IsRed(t))
    ensures RedBlack(Plug(c, Paint(t, false)))
  {
    var u := Paint(t, false);
    PlugBalanced(c, u);
    PlugNoRedRed(c, u);
    PlugIsRed(c, u);
  }
}
