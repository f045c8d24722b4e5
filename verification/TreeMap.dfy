/** The map a search tree stands for, and what a search learns on its way down. */
module TreeMap {
  import opened TreeShape

  // ---------------------------------------------------------------- sorted sequences as maps

  /** Later entries win; in a sorted sequence no two entries compete. */
  function MapOf(s: seq<Entry>): map<int, Value> {
    if s == [] then map[] else MapOf(s[..|s| - 1])[s[|s| - 1].key := s[|s| - 1].value]
  }

  lemma {:induction false} MapOfParts(a: seq<Entry>, b: seq<Entry>)
    ensures MapOf(a + b) == MapOf(a) + MapOf(b)
  {
    if b == [] {
      assert a + b == a;
    } else {
      assert (a + b)[..|a + b| - 1] == a + b[..|b| - 1];
      MapOfParts(a, b[..|b| - 1]);
    }
  }

  lemma {:induction false} NotAKey(s: seq<Entry>, k: int)
    requires forall i :: 0 <= i < |s| ==> s[i].key != k
    ensures k !in MapOf(s)
  {
    if s != [] { NotAKey(s[..|s| - 1], k); }
  }

  lemma {:induction false} MapOfSize(s: seq<Entry>)
    requires Sorted(s)
    ensures |MapOf(s)| == |s|
  {
    if s != [] {
      MapOfSize(s[..|s| - 1]);
      NotAKey(s[..|s| - 1], s[|s| - 1].key);
    }
  }

  /** Every key of s is below (above) k. */
  predicate Below(s: seq<Entry>, k: int) { forall i :: 0 <= i < |s| ==> s[i].key < k }
  predicate Above(s: seq<Entry>, k: int) { forall i :: 0 <= i < |s| ==> k < s[i].key }

  lemma {:induction false} SortedAround(a: seq<Entry>, e: Entry, b: seq<Entry>)
    ensures Sorted(a + [e] + b) <==> Sorted(a) && Sorted(b) && Below(a, e.key) && Above(b, e.key)
  {
    var s := a + [e] + b;
    if Sorted(s) {
      forall i, j | 0 <= i < j < |a| ensures a[i].key < a[j].key { assert s[i] == a[i] && s[j] == a[j]; }
      forall i, j | 0 <= i < j < |b| ensures b[i].key < b[j].key {
        assert s[|a| + 1 + i] == b[i] && s[|a| + 1 + j] == b[j];
      }
      forall i | 0 <= i < |a| ensures a[i].key < e.key { assert s[i] == a[i] && s[|a|] == e; }
      forall i | 0 <= i < |b| ensures e.key < b[i].key { assert s[|a| + 1 + i] == b[i] && s[|a|] == e; }
    }
  }

  lemma {:induction false} MapOfAround(a: seq<Entry>, e: Entry, b: seq<Entry>)
    requires Below(a, e.key) && Above(b, e.key)
    ensures MapOf(a + [e] + b) == (MapOf(a) + MapOf(b))[e.key := e.value]
    ensures MapOf(a + b) == MapOf(a) + MapOf(b)
    ensures e.key !in MapOf(a) + MapOf(b)
  {
    MapOfParts(a + [e], b);
    MapOfParts(a, b);
    assert (a + [e])[..|a|] == a;
    NotAKey(a, e.key);
    NotAKey(b, e.key);
  }

  /** Storing at a key that sits between a and b, and taking it out again. */
  lemma {:induction false} StoreBetween(a: seq<Entry>, e: Entry, b: seq<Entry>)
    requires Sorted(a + b) && Below(a, e.key) && Above(b, e.key)
    ensures Sorted(a + [e] + b) && MapOf(a + [e] + b) == MapOf(a + b)[e.key := e.value]
    ensures e.key !in MapOf(a + b)
    ensures MapOf(a + b) == MapOf(a + [e] + b) - {e.key}
  {
    assert Sorted(a) && Sorted(b) by {
      assert forall i :: 0 <= i < |a| ==> (a + b)[i] == a[i];
      assert forall i :: 0 <= i < |b| ==> (a + b)[|a| + i] == b[i];
    }
    SortedAround(a, e, b);
    MapOfAround(a, e, b);
  }

  /** The entries around a sorted entry are sorted without it. */
  lemma {:induction false} SortedWithout(a: seq<Entry>, e: Entry, b: seq<Entry>)
    requires Sorted(a + [e] + b)
    ensures Sorted(a + b) && Below(a, e.key) && Above(b, e.key)
  {
    SortedAround(a, e, b);
  }

  /** Overwriting the value at a key. */
  lemma {:induction false} Overwrite(a: seq<Entry>, e: Entry, b: seq<Entry>, v: Value)
    requires Sorted(a + [e] + b)
    ensures Sorted(a + [Entry(e.key, v)] + b)
    ensures e.key in MapOf(a + [e] + b) && MapOf(a + [e] + b)[e.key] == e.value
    ensures MapOf(a + [Entry(e.key, v)] + b) == MapOf(a + [e] + b)[e.key := v]
  {
    SortedAround(a, e, b);
    SortedAround(a, Entry(e.key, v), b);
    MapOfAround(a, e, b);
    MapOfAround(a, Entry(e.key, v), b);
  }

  // ---------------------------------------------------------------- what surrounds a hole

  function Before(c: Ctx): seq<Entry> {
    match c
    case Top => []
    case Frame(up, s, _, _, e, sib) => if s.L? then Before(up) else Before(up) + InOrder(sib) + [e]
  }

  function After(c: Ctx): seq<Entry> {
    match c
    case Top => []
    case Frame(up, s, _, _, e, sib) => if s.L? then [e] + InOrder(sib) + After(up) else After(up)
  }

  lemma {:induction false} InOrderPlug(c: Ctx, t: Tree)
    ensures InOrder(Plug(c, t)) == Before(c) + InOrder(t) + After(c)
    decreases c
  {
    if c.Frame? {
      var u := Mk(c.side, t, c.p, c.red, c.e, c.sib);
      InOrderPlug(c.up, u);
      AroundLeft(Before(c.up), InOrder(t), [c.e], InOrder(c.sib), After(c.up));
      AroundRight(Before(c.up), InOrder(c.sib), [c.e], InOrder(t), After(c.up));
    }
  }

  lemma {:induction false} AroundLeft(a: seq<Entry>, t: seq<Entry>, e: seq<Entry>, s: seq<Entry>, b: seq<Entry>)
    ensures a + (t + e + s) + b == a + t + (e + s + b)
  {
  }

  lemma {:induction false} AroundRight(a: seq<Entry>, s: seq<Entry>, e: seq<Entry>, t: seq<Entry>, b: seq<Entry>)
    ensures a + (s + e + t) + b == (a + s + e) + t + b
  {
  }

  /** The loop invariant of every descent: key belongs into the hole. */
  ghost predicate Between(c: Ctx, key: int) { Below(Before(c), key) && Above(After(c), key) }

  /** Going to the side that the comparison chooses keeps it. */
  lemma {:induction false} Descend(c: Ctx, t: Tree, key: int)
    requires t.N? && Between(c, key) && Sorted(InOrder(Plug(c, t))) && key != t.e.key
    ensures key < t.e.key ==> Between(Frame(c, L, t.p, t.red, t.e, t.r), key)
    ensures t.e.key < key ==> Between(Frame(c, R, t.p, t.red, t.e, t.l), key)
    ensures Plug(Frame(c, L, t.p, t.red, t.e, t.r), t.l) == Plug(c, t) == Plug(Frame(c, R, t.p, t.red, t.e, t.l), t.r)
  {
    FocusSorted(c, t);
    if key < t.e.key {
      assert After(Frame(c, L, t.p, t.red, t.e, t.r)) == [t.e] + InOrder(t.r) + After(c);
    } else {
      assert Before(Frame(c, R, t.p, t.red, t.e, t.l)) == Before(c) + InOrder(t.l) + [t.e];
    }
  }

  /** At a node, everything to the left is smaller and everything to the right is larger. */
  lemma {:induction false} FocusSorted(c: Ctx, t: Tree)
    requires t.N? && Sorted(InOrder(Plug(c, t)))
    ensures InOrder(Plug(c, t)) == (Before(c) + InOrder(t.l)) + [t.e] + (InOrder(t.r) + After(c))
    ensures Below(Before(c) + InOrder(t.l), t.e.key) && Above(InOrder(t.r) + After(c), t.e.key)
    ensures Below(InOrder(t.l), t.e.key) && Above(InOrder(t.r), t.e.key)
    ensures Sorted(Before(c) + InOrder(t.l)) && Sorted(InOrder(t.r) + After(c))
  {
    var a, b := Before(c) + InOrder(t.l), InOrder(t.r) + After(c);
    InOrderAround(c, t);
    SortedAround(a, t.e, b);
    BelowParts(Before(c), InOrder(t.l), t.e.key);
    AboveParts(InOrder(t.r), After(c), t.e.key);
  }

  lemma {:induction false} BelowParts(a: seq<Entry>, b: seq<Entry>, k: int)
    ensures Below(a + b, k) <==> Below(a, k) && Below(b, k)
  {
    assert forall i :: 0 <= i < |b| ==> (a + b)[|a| + i] == b[i];
    assert forall i :: 0 <= i < |a| ==> (a + b)[i] == a[i];
  }

  lemma {:induction false} AboveParts(a: seq<Entry>, b: seq<Entry>, k: int)
    ensures Above(a + b, k) <==> Above(a, k) && Above(b, k)
  {
    assert forall i :: 0 <= i < |b| ==> (a + b)[|a| + i] == b[i];
    assert forall i :: 0 <= i < |a| ==> (a + b)[i] == a[i];
  }

  /** The descent ends at a node with the key exactly when the map has it. */
  lemma {:induction false} FoundKey(c: Ctx, t: Tree)
    requires t.N? && Sorted(InOrder(Plug(c, t)))
    ensures t.e.key in MapOf(InOrder(Plug(c, t))) && MapOf(InOrder(Plug(c, t)))[t.e.key] == t.e.value
  {
    FocusSorted(c, t);
    Overwrite(Before(c) + InOrder(t.l), t.e, InOrder(t.r) + After(c), t.e.value);
  }

  lemma {:induction false} MissingKey(c: Ctx, key: int)
    requires Between(c, key) && Sorted(InOrder(Plug(c, E)))
    ensures key !in MapOf(InOrder(Plug(c, E)))
  {
    InOrderPlug(c, E);
    assert Before(c) + [] + After(c) == Before(c) + After(c);
    StoreBetween(Before(c), Entry(key, 0), After(c));
  }

  /** Storing a value at the focus. */
  lemma {:induction false} StoreAt(c: Ctx, t: Tree, v: Value)
    requires t.N? && Sorted(InOrder(Plug(c, t)))
    ensures var u := Plug(c, t.(e := Entry(t.e.key, v)));
            && Sorted(InOrder(u)) && MapOf(InOrder(u)) == MapOf(InOrder(Plug(c, t)))[t.e.key := v]
            && |InOrder(u)| == |InOrder(Plug(c, t))|
  {
    var a, b := Before(c) + InOrder(t.l), InOrder(t.r) + After(c);
    assert InOrder(Plug(c, t)) == a + [t.e] + b by { FocusSorted(c, t); }
    Overwrite(a, t.e, b, v);
    InOrderAround(c, t.(e := Entry(t.e.key, v)));
  }

  lemma {:induction false} InOrderAround(c: Ctx, t: Tree)
    requires t.N?
    ensures InOrder(Plug(c, t)) == (Before(c) + InOrder(t.l)) + [t.e] + (InOrder(t.r) + After(c))
  {
    InOrderPlug(c, t);
    assert Before(c) + (InOrder(t.l) + [t.e] + InOrder(t.r)) + After(c)
        == (Before(c) + InOrder(t.l)) + [t.e] + (InOrder(t.r) + After(c));
  }

  /** Filling the hole that a search for a missing key ends in. */
  lemma {:induction false} InsertAt(c: Ctx, leaf: Tree)
    requires leaf.N? && leaf.l == E && leaf.r == E && Between(c, leaf.e.key) && Sorted(InOrder(Plug(c, E)))
    ensures var u := Plug(c, leaf);
            && Sorted(InOrder(u)) && MapOf(InOrder(u)) == MapOf(InOrder(Plug(c, E)))[leaf.e.key := leaf.e.value]
            && |InOrder(u)| == |InOrder(Plug(c, E))| + 1
  {
    InOrderPlug(c, E);
    InOrderPlug(c, leaf);
    assert InOrder(leaf) == [leaf.e];
    assert Before(c) + [] + After(c) == Before(c) + After(c);
    StoreBetween(Before(c), leaf.e, After(c));
  }

  /** Emptying the focus of its own entry. */
  lemma {:induction false} RemoveAt(c: Ctx, t: Tree, s: seq<Entry>)
    requires t.N? && Sorted(InOrder(Plug(c, t)))
    requires s == (Before(c) + InOrder(t.l)) + (InOrder(t.r) + After(c))
    ensures Sorted(s) && MapOf(s) == MapOf(InOrder(Plug(c, t))) - {t.e.key} && |s| + 1 == |InOrder(Plug(c, t))|
  {
    FocusSorted(c, t);
    SortedWithout(Before(c) + InOrder(t.l), t.e, InOrder(t.r) + After(c));
    StoreBetween(Before(c) + InOrder(t.l), t.e, InOrder(t.r) + After(c));
  }

  // ---------------------------------------------------------------- how deep a search goes

  function Height(t: Tree): nat {
    match t
    case N(l, _, _, _, r) => 1 + if Height(l) > Height(r) then Height(l) else Height(r)
    case _ => 0
  }

  function Depth(c: Ctx): nat { if c.Top? then 0 else 1 + Depth(c.up) }

  lemma {:induction false} DepthBound(c: Ctx, t: Tree)
    ensures Depth(c) + Height(t) <= Height(Plug(c, t))
    decreases c
  {
    if c.Frame? {
      DepthBound(c.up, Mk(c.side, t, c.p, c.red, c.e, c.sib));
    }
  }

  function Pow2(n: nat): nat { if n == 0 then 1 else 2 * Pow2(n - 1) }

  /** Red nodes are never adjacent, so at least every second node of a path is black. */
  lemma {:induction false} HeightByBlack(t: Tree)
    requires Balanced(t) && NoRedRed(t)
    ensures Height(t) <= 2 * BlackHeight(t) + if IsRed(t) then 1 else 0
  {
    if t.N? {
      HeightByBlack(t.l);
      HeightByBlack(t.r);
    }
  }

  lemma {:induction false} SizeByBlack(t: Tree)
    requires Balanced(t)
    ensures |InOrder(t)| + 1 >= Pow2(BlackHeight(t))
  {
    if t.N? {
      SizeByBlack(t.l);
      SizeByBlack(t.r);
    }
  }

  lemma {:induction false} PowSquare(n: nat, k: nat)
    requires n <= 2 * k
    ensures Pow2(n) <= Pow2(k) * Pow2(k)
  {
    if n <= 1 {
      PowPositive(k);
    } else {
      PowSquare(n - 2, k - 1);
      assert Pow2(n) == 4 * Pow2(n - 2);
      assert Pow2(k) * Pow2(k) == 4 * (Pow2(k - 1) * Pow2(k - 1)) by {
        var x := Pow2(k - 1);
        assert (2 * x) * (2 * x) == 4 * (x * x);
      }
    }
  }

  lemma {:induction false} PowPositive(k: nat)
    ensures Pow2(k) >= 1 && (k > 0 ==> Pow2(k) >= 2)
  {
    if k > 0 { PowPositive(k - 1); }
  }

  lemma {:induction false} PowMonotone(m: nat, n: nat)
    requires m <= n
    ensures Pow2(m) <= Pow2(n)
    decreases n
  {
    if m < n { PowMonotone(m, n - 1); }
  }

  /** The height is at most twice the logarithm of the size: 2^height <= (total + 1)^2. */
  lemma {:induction false} HeightBound(t: Tree)
    requires RedBlack(t)
    ensures Pow2(Height(t)) <= (|InOrder(t)| + 1) * (|InOrder(t)| + 1)
  {
    HeightByBlack(t);
    SizeByBlack(t);
    PowSquare(Height(t), BlackHeight(t));
    Squares(Pow2(BlackHeight(t)), |InOrder(t)| + 1);
  }

  lemma {:induction false} Squares(x: nat, y: nat)
    requires x <= y
    ensures x * x <= y * y
  {
    assert x * x <= x * y;
    assert x * y <= y * y;
  }
}
