/** The text of src/map/hash.c where it departs from HashTable, and exactly when that matters. */
module HashAsWritten {
  import opened Wrappers
  import opened HashShape
  import opened HashSteps
  import HashTable

  // ---------------------------------------------------------------- hashRemove

  /** Lines 264-282 as written: the bucket's head is only redirected to a slot that exists. */
  function RemovedText(t: Table, b: nat, i: nat, parent: int): Table
    requires i < |t.slots| && b < |t.heads| && (parent == NONE || 0 <= parent < |t.slots|) && t.total > 0
  {
    var next := t.slots[i].next;
    var s1 := if parent == NONE then t.slots else t.slots[parent := t.slots[parent].(next := next)];
    Table(t.avalid, t.max, t.total - 1, i,
          if parent == NONE && IndexValid(t, next) then t.heads[b := next] else t.heads,
          s1[i := s1[i].(next := t.undef, value := 0, def := false)])
  }

  /** Removal as written is right exactly when the entry is not alone in its bucket. */
  lemma {:induction false} RemoveAsWritten(t: Table, g: Ghosts, b: nat, j: nat)
    requires Inv(t, g) && b < t.max && j < |g.chains[b]|
    ensures RemovedPlace(t, g.chains[b], j)
    ensures var i, parent := g.chains[b][j], ParentAt(g.chains[b], j);
            RemovedText(t, b, i, parent) == Removed(t, b, i, parent) <==> |g.chains[b]| != 1
  {
    RemovedIsPlace(t, g, b, j);
    var chain := g.chains[b];
    assert BucketOk(t.slots, t.heads[b], chain, Live(t.slots, t.avalid), b, t.max);
    LinkedAt(t.slots, t.heads[b], chain, j);
    LinkedAt(t.slots, t.heads[b], chain, 0);
    if |chain| == 1 {
      assert RemovedText(t, b, chain[0], NONE).heads[b] == chain[0];
      assert Removed(t, b, chain[0], NONE).heads[b] == NONE;
    } else if j == 0 {
      assert chain[1] in chain;
    }
  }

  /** The slot that a walk along next has reached after n steps. */
  function Walk(t: Table, index: int, n: nat): int
    decreases n
  {
    if n == 0 || !(0 <= index < |t.slots|) then index else Walk(t, t.slots[index].next, n - 1)
  }

  /** When it was alone, the head still names the freed slot. The next new key of that bucket takes that
      very slot and links it to itself, so a search for any other key of the bucket never ends. */
  lemma {:induction false} RemoveThenPutLoops(t: Table, g: Ghosts, b: nat, k: Key, v: Value, n: nat)
    requires Inv(t, g) && b < t.max && |g.chains[b]| == 1 && Bucket(k, t.max) == b
    ensures RemovedPlace(t, g.chains[b], 0)
    ensures var i := g.chains[b][0];
            var t1 := RemovedText(t, b, i, NONE);
            && 0 <= SlotFor(t1) < t1.max && Sized(t1)
            && var t2 := Stored(t1, k, v);
            && t2.slots[i].key == k && t2.slots[i].def && Walk(t2, t2.heads[b], n) == i
  {
    RemovedIsPlace(t, g, b, 0);
    assert BucketOk(t.slots, t.heads[b], g.chains[b], Live(t.slots, t.avalid), b, t.max);
    var i := g.chains[b][0];
    LinkedAt(t.slots, t.heads[b], g.chains[b], 0);
    var t1 := RemovedText(t, b, i, NONE);
    var t2 := Stored(t1, k, v);
    assert t2.slots[i].next == i && t2.heads[b] == i;
    LoopStays(t2, i, n);
  }

  lemma {:induction false} LoopStays(t: Table, i: nat, n: nat)
    requires i < |t.slots| && t.slots[i].next == i
    ensures Walk(t, i, n) == i
  {
    if n > 0 { LoopStays(t, i, n - 1); }
  }

  // ---------------------------------------------------------------- the shrink guard

  /** Line 137: the subtraction is done in uint32_t. */
  predicate GuardText(total: nat, max: nat) { total > 8 && total < (max / 2 - 16) % 0x1_0000_0000 }

  predicate GuardMeant(total: nat, max: nat) { total > 8 && total < max / 2 - 16 }

  /** The guard is right except for a table of 16 slots with more than 8 entries: that one it halves
      to fewer slots than it has entries. */
  lemma {:induction false} ShrinkGuard(t: Table, g: Ghosts)
    requires Inv(t, g)
    ensures (GuardText(t.total, t.max) <==> GuardMeant(t.total, t.max)) <==> !(t.max == 16 && t.total > 8)
    ensures t.max == 16 && t.total > 8 ==> GuardText(t.total, t.max) && t.max / 2 < t.total
  {
    InvSizes(t, g);
    hide Inv;
    Wraps(t.max / 2 - 16);
    if t.max < 32 {
      assert t.max == 8 || t.max == 16 by { SmallPowers(t.max); }
    }
    hide PowerOfTwo;
  }

  lemma {:induction false} Wraps(x: int)
    requires -16 <= x < 0x1_0000_0000
    ensures x % 0x1_0000_0000 == if x < 0 then x + 0x1_0000_0000 else x
  {
  }

  lemma {:induction false} SmallPowers(n: nat)
    requires PowerOfTwo(n) && 8 <= n < 32
    ensures n == 8 || n == 16
  {
    assert PowerOfTwo(n / 2) && PowerOfTwo(n / 4) && PowerOfTwo(n / 8);
  }

  // ---------------------------------------------------------------- growing

  /** Lines 201-205: p stays on slot 0, and i has been incremented before it is stored. */
  function GrowLoop(heads: seq<int>, slots: seq<Slot>, i: nat, total: nat): (seq<int>, seq<Slot>)
    requires |heads| > 0 && |slots| > 0
    decreases total - i
  {
    if i >= total then (heads, slots)
    else
      var b := Bucket(slots[0].key, |heads|);
      GrowLoop(heads[b := i + 1], slots[0 := slots[0].(next := heads[b])], i + 1, total)
  }

  function GrowText(t: Table): Table
    requires |t.slots| == t.max > 0
  {
    var r := GrowLoop(seq(2 * t.max, _ => NONE), t.slots + seq(t.max, _ => BLANK), 0, t.total);
    t.(max := 2 * t.max, heads := r.0, slots := r.1)
  }

  lemma {:induction false} GrowLoopEnds(heads: seq<int>, slots: seq<Slot>, i: nat, total: nat)
    requires |heads| > 0 && |slots| > 0 && i < total
    ensures var r := GrowLoop(heads, slots, i, total);
            && |r.0| == |heads| && |r.1| == |slots|
            && r.0 == heads[Bucket(slots[0].key, |heads|) := total]
            && r.1[1..] == slots[1..]
    decreases total - i
  {
    if i + 1 < total {
      var b := Bucket(slots[0].key, |heads|);
      GrowLoopEnds(heads[b := i + 1], slots[0 := slots[0].(next := heads[b])], i + 1, total);
    }
  }

  /** The loop of findHashNode, for at most fuel turns. */
  function Lookup(t: Table, index: int, k: Key, fuel: nat): Option<nat>
    decreases fuel
  {
    if fuel == 0 || !(0 <= index < |t.slots|) || !IndexValid(t, index) || !t.slots[index].def then None
    else if t.slots[index].key == k then Some(index)
    else Lookup(t, t.slots[index].next, k, fuel - 1)
  }

  /** Growth as written loses every key, and there are keys to lose: all buckets but one are empty, and that one leads
      to a blank slot. */
  lemma {:induction false} GrowLosesAll(t: Table, g: Ghosts, k: Key, fuel: nat)
    requires Inv(t, g) && t.total >= t.max
    ensures Contents(t, g) != map[]
    ensures var t' := GrowText(t);
            |t'.heads| == t'.max && Lookup(t', t'.heads[Bucket(k, t'.max)], k, fuel) == None
  {
    FullTableHasKeys(t, g);
    InvSizes(t, g);
    HashTable.FullTable(t, g);
    hide Inv;
    hide PowerOfTwo;
    var slots := t.slots + seq(t.max, _ => BLANK);
    GrowLoopEnds(seq(2 * t.max, _ => NONE), slots, 0, t.total);
    var t' := GrowText(t);
    assert t'.slots[1..][t.max - 1] == slots[1..][t.max - 1] == BLANK;
    hide GrowLoop;
  }

  /** A full table always holds a key to lose. */
  lemma {:induction false} FullTableHasKeys(t: Table, g: Ghosts)
    requires Inv(t, g) && t.total >= t.max
    ensures exists k :: k in Contents(t, g)
  {
    assert g.at.Keys != {};
    var k :| k in g.at.Keys;
    assert k in Contents(t, g);
  }

  // ---------------------------------------------------------------- shrinking

  /** Lines 177-190: i has been incremented before it is stored, and counts old slots, not new ones. */
  function ShrinkLoop(old_: seq<Slot>, i: nat, heads: seq<int>, slots: seq<Slot>, p: nat, total: nat): (seq<int>, seq<Slot>)
    requires |heads| > 0 && total <= |slots|
    decreases |old_| - i
  {
    if i >= |old_| || p >= total then (heads, slots)
    else if !old_[i].def then ShrinkLoop(old_, i + 1, heads, slots, p, total)
    else
      var b := Bucket(old_[i].key, |heads|);
      ShrinkLoop(old_, i + 1, heads[b := i + 1], slots[p := old_[i].(next := heads[b])], p + 1, total)
  }

  /** Line 141 moves the slots by tmpMax - max, computed in uint32_t. */
  function MovedBy(max: nat): int { (max / 2 - max) % 0x1_0000_0000 }

  /** That is never down by half, but up by almost 2^32 slots. (What follows takes the move as it is meant.) */
  lemma {:induction false} NeverMovedRight(max: nat)
    requires 8 <= max < NONE && PowerOfTwo(max)
    ensures MovedBy(max) != -(max / 2) && MovedBy(max) == 0x1_0000_0000 - max / 2 > 0
  {
    assert PowerOfTwo(max / 2);
  }

  /** Lines 137-139 and 155-190: avalid is one too small, and undef stays what it was. A table of 16 slots may have
      more keys than it keeps slots; the copies then run on into the old slots, behind the ones being read. */
  function ShrinkText(t: Table): Table
    requires t.max > 1
  {
    var n := t.max / 2;
    var r := ShrinkLoop(t.slots, 0, seq(n, _ => NONE), seq(if n < t.total then t.total else n, _ => BLANK), 0, t.total);
    Table(if t.total > 0 then t.total - 1 else NONE, n, t.total, t.undef, r.0, r.1)
  }

  /** What the loop keeps: no link leads to slot 0. */
  ghost predicate NoWayToFirst(heads: seq<int>, slots: seq<Slot>, p: nat) {
    && (forall b :: 0 <= b < |heads| ==> heads[b] != 0)
    && (forall x :: 0 <= x < |slots| ==> if x < p then slots[x].def && slots[x].next != 0 else !slots[x].def)
  }

  lemma {:induction false} ShrinkLoopKeeps(t: Table, at: map<Key, nat>, i: nat, heads: seq<int>, slots: seq<Slot>, p: nat, at1: map<Key, nat>)
    returns (last: nat, at2: map<Key, nat>)
    requires Sized(t) && Located(t, at) && |at| <= |slots| && |heads| > 0 && i <= |t.slots|
    requires HashTable.Copied(t, at, i, slots, p, at1) && NoWayToFirst(heads, slots, p)
    ensures var r := ShrinkLoop(t.slots, i, heads, slots, p, |at|);
            && |r.0| == |heads| && |r.1| == |slots|
            && HashTable.Copied(t, at, last, r.1, |at|, at2) && NoWayToFirst(r.0, r.1, |at|)
    decreases |t.slots| - i
  {
    hide HashTable.Copied;
    hide Located;
    hide NoWayToFirst;
    hide PowerOfTwo;
    hide Bucket;
    HashTable.StillToCome(t, at, i, slots, p, at1);
    if p == |at| {
      last, at2 := i, at1;
    } else if !t.slots[i].def {
      HashTable.CopySkip(t, at, i, slots, p, at1);
      last, at2 := ShrinkLoopKeeps(t, at, i + 1, heads, slots, p, at1);
    } else {
      var b := Bucket(t.slots[i].key, |heads|);
      var s := t.slots[i].(next := heads[b]);
      HashTable.CopyStep(t, at, i, slots, p, at1, heads[b]);
      NoWayStep(heads, slots, p, b, i + 1, s);
      last, at2 := ShrinkLoopKeeps(t, at, i + 1, heads[b := i + 1], slots[p := s], p + 1, at1[s.key := p]);
    }
  }

  lemma {:induction false} NoWayStep(heads: seq<int>, slots: seq<Slot>, p: nat, b: nat, link: nat, s: Slot)
    requires NoWayToFirst(heads, slots, p) && p < |slots| && b < |heads| && link > 0 && s.def && s.next == heads[b]
    ensures NoWayToFirst(heads[b := link], slots[p := s], p + 1)
  {
  }

  lemma {:induction false} LookupMisses(t: Table, index: int, k: Key, fuel: nat)
    requires index != 0
    requires forall x :: 0 < x < |t.slots| && t.slots[x].def ==> t.slots[x].key != k && t.slots[x].next != 0
    ensures Lookup(t, index, k, fuel) == None
    decreases fuel
  {
    if fuel > 0 && 0 <= index < |t.slots| && t.slots[index].def { LookupMisses(t, t.slots[index].next, k, fuel - 1); }
  }

  /** Every table with a key that shrinks, by the guard as written or as meant, loses the key that is copied first: it
      is in slot 0, and no link leads there. */
  lemma {:induction false} ShrinkLosesFirst(t: Table, g: Ghosts) returns (k: Key)
    requires Inv(t, g) && 0 < t.total
    ensures k in Contents(t, g) && |ShrinkText(t).heads| == t.max / 2 <= |ShrinkText(t).slots|
    ensures k == ShrinkText(t).slots[0].key
    ensures var t1 := ShrinkText(t); forall fuel :: Lookup(t1, t1.heads[Bucket(k, t1.max)], k, fuel) == None
  {
    k := ShrunkTextFacts(t, g);
    hide Inv;
    hide ShrinkText;
    hide Lookup;
    var t1 := ShrinkText(t);
    forall fuel ensures Lookup(t1, t1.heads[Bucket(k, t1.max)], k, fuel) == None {
      LookupMisses(t1, t1.heads[Bucket(k, t1.max)], k, fuel);
    }
  }

  lemma {:induction false} ShrunkTextFacts(t: Table, g: Ghosts) returns (k: Key)
    requires Inv(t, g) && 0 < t.total
    ensures var t1 := ShrinkText(t);
            && |t1.heads| == t1.max == t.max / 2 <= |t1.slots| && k == t1.slots[0].key && k in Contents(t, g)
            && (forall b :: 0 <= b < t1.max ==> t1.heads[b] != 0)
            && (forall x :: 0 < x < |t1.slots| && t1.slots[x].def ==> t1.slots[x].key != k && t1.slots[x].next != 0)
  {
    hide PowerOfTwo;
    hide Chained;
    hide FreeListed;
    var n := t.max / 2;
    var heads, slots := seq(n, _ => NONE), seq(if n < t.total then t.total else n, _ => BLANK);
    assert Sized(t) && Located(t, g.at);
    assert HashTable.Copied(t, g.at, 0, slots, 0, map[]);
    var last, at := ShrinkLoopKeeps(t, g.at, 0, heads, slots, 0, map[]);
    var r := ShrinkLoop(t.slots, 0, heads, slots, 0, t.total);
    CopiedFirst(t, g.at, last, r.0, r.1, t.total, at);
    hide ShrinkLoop;
    hide HashTable.Copied;
    hide NoWayToFirst;
    hide Located;
    k := ShrinkText(t).slots[0].key;
  }

  lemma {:induction false} CopiedFirst(t: Table, at0: map<Key, nat>, last: nat, heads: seq<int>, slots: seq<Slot>, p: nat, at: map<Key, nat>)
    requires HashTable.Copied(t, at0, last, slots, p, at) && NoWayToFirst(heads, slots, p) && 0 < p
    ensures |slots| > 0 && slots[0].key in at0 && (forall b :: 0 <= b < |heads| ==> heads[b] != 0)
    ensures forall x :: 0 < x < |slots| && slots[x].def ==> slots[x].key != slots[0].key && slots[x].next != 0
  {
    assert slots[0].key in at && at[slots[0].key] == 0;
    forall x | 0 < x < |slots| && slots[x].def ensures slots[x].key != slots[0].key && slots[x].next != 0 {
      assert at[slots[x].key] == x;
    }
  }

  /** The keys 0 to m - 1 in the first of n slots. */
  function Few(m: nat, n: nat): Table
    requires m <= n
  {
    Table(m, n, m, NONE, seq(n, b => if b < m then b else NONE),
          seq(n, i requires 0 <= i => if i < m then Slot(Key(i, None), 0, NONE, true) else BLANK))
  }

  function FewGhosts(m: nat, n: nat): Ghosts {
    Ghosts(seq(n, b requires 0 <= b => if b < m then [b] else []), [], map k | k in KeysTo(m) :: k.h)
  }

  function KeysTo(m: nat): set<Key> { if m == 0 then {} else KeysTo(m - 1) + {Key(m - 1, None)} }

  lemma {:induction false} KeysToAre(m: nat)
    ensures |KeysTo(m)| == m && forall k :: k in KeysTo(m) <==> k.str == None && k.h < m
  {
    if m > 0 { KeysToAre(m - 1); }
  }

  lemma {:induction false} FewIsTable(m: nat, n: nat)
    requires 8 <= n < NONE && PowerOfTwo(n) && m <= n
    ensures Inv(Few(m, n), FewGhosts(m, n)) && Contents(Few(m, n), FewGhosts(m, n)).Keys == KeysTo(m)
  {
    hide Chained;
    hide Located;
    hide FreeListed;
    hide KeysTo;
    hide PowerOfTwo;
    FewCount(m, n);
    FewChained(m, n);
    FewLocated(m, n);
    FewFree(m, n);
  }

  lemma {:induction false} FewCount(m: nat, n: nat)
    ensures FewGhosts(m, n).at.Keys == KeysTo(m) && |FewGhosts(m, n).at| == m
  {
    KeysToAre(m);
    hide KeysTo;
    assert FewGhosts(m, n).at.Keys == KeysTo(m);
  }

  lemma {:induction false} FewFree(m: nat, n: nat)
    requires m <= n
    ensures FreeListed(Few(m, n), [])
  {
    HashTable.NoneDeleted(Few(m, n));
  }

  lemma {:induction false} FewLocated(m: nat, n: nat)
    requires m <= n
    ensures Located(Few(m, n), FewGhosts(m, n).at)
  {
    KeysToAre(m);
    hide KeysTo;
  }

  lemma {:induction false} FewChained(m: nat, n: nat)
    requires 8 <= n && m <= n
    ensures var t, g := Few(m, n), FewGhosts(m, n); Chained(t.heads, t.slots, g.chains, Live(t.slots, m))
  {
    var t, g := Few(m, n), FewGhosts(m, n);
    var live := Live(t.slots, m);
    forall b | 0 <= b < n ensures BucketOk(t.slots, t.heads[b], g.chains[b], live, b, n) { FewBucket(m, n, b); }
    hide BucketOk;
    forall i | i in live ensures i < |t.slots| && i in g.chains[Bucket(t.slots[i].key, n)] { FewLive(m, n, i); }
  }

  lemma {:induction false} FewLive(m: nat, n: nat, i: nat)
    requires 8 <= n && m <= n && i < m
    ensures var t, g := Few(m, n), FewGhosts(m, n); i in g.chains[Bucket(t.slots[i].key, n)]
  {
    assert Bucket(Key(i, None), n) == i;
    assert i in [i];
  }

  lemma {:induction false} FewOne(m: nat, n: nat, b: nat)
    requires 8 <= n && b < m <= n
    ensures var t, g := Few(m, n), FewGhosts(m, n);
            Linked(t.slots, b, [b]) && g.chains[b] == [b] && b in Live(t.slots, m) && Bucket(Key(b, None), n) == b
  {
    var t := Few(m, n);
    var none: seq<nat> := [];
    assert [b][1..] == none;
    assert Linked(t.slots, NONE, none);
    assert t.slots[b] == Slot(Key(b, None), 0, NONE, true);
  }

  lemma {:induction false} FewBucket(m: nat, n: nat, b: nat)
    requires 8 <= n && m <= n && b < n
    ensures var t, g := Few(m, n), FewGhosts(m, n); BucketOk(t.slots, t.heads[b], g.chains[b], Live(t.slots, m), b, n)
  {
    var t, g := Few(m, n), FewGhosts(m, n);
    if b < m {
      FewOne(m, n, b);
      hide Linked;
      hide Live;
    }
  }

  lemma {:induction false} ShrinkLoopKeepsSlot(old_: seq<Slot>, i: nat, heads: seq<int>, slots: seq<Slot>, p: nat, total: nat, x: nat)
    requires |heads| > 0 && total <= |slots| && x < p && x < |slots|
    ensures var r := ShrinkLoop(old_, i, heads, slots, p, total); |r.1| == |slots| && r.1[x] == slots[x]
    decreases |old_| - i
  {
    if i < |old_| && p < total {
      if !old_[i].def {
        ShrinkLoopKeepsSlot(old_, i + 1, heads, slots, p, total, x);
      } else {
        var b := Bucket(old_[i].key, |heads|);
        ShrinkLoopKeepsSlot(old_, i + 1, heads[b := i + 1], slots[p := old_[i].(next := heads[b])], p + 1, total, x);
      }
    }
  }

  /** For instance nine keys in 64 slots: the table shrinks, and key 0 is gone. */
  lemma {:induction false} FewShrinks(m: nat, n: nat)
    requires 8 <= n < NONE && PowerOfTwo(n) && GuardMeant(m, n)
    ensures Inv(Few(m, n), FewGhosts(m, n)) && Key(0, None) in Contents(Few(m, n), FewGhosts(m, n))
    ensures var t := ShrinkText(Few(m, n));
            |t.heads| == n / 2 && forall fuel :: Lookup(t, t.heads[0], Key(0, None), fuel) == None
  {
    FewIsTable(m, n);
    KeysToAre(m);
    hide Inv;
    hide ShrinkLoop;
    var k := ShrinkLosesFirst(Few(m, n), FewGhosts(m, n));
    FewFirst(m, n);
  }

  lemma {:induction false} FewFirst(m: nat, n: nat)
    requires 0 < m <= n / 2
    ensures var t := ShrinkText(Few(m, n)); |t.slots| == n / 2 && t.slots[0].key == Key(0, None)
  {
    var t, h := Few(m, n), n / 2;
    var heads, slots := seq(h, _ => NONE), seq(h, _ => BLANK);
    var b := Bucket(t.slots[0].key, h);
    ShrinkLoopKeepsSlot(t.slots, 1, heads[b := 1], slots[0 := t.slots[0].(next := heads[b])], 1, m, 0);
  }

  /** Line 176 by itself: in a table that is otherwise right and has a key and room, the next new key is stored
      over a live one. */
  lemma {:induction false} AvalidNamesLive(t: Table, g: Ghosts)
    requires Inv(t, g) && g.free == [] && t.total > 0
    ensures var t1 := t.(avalid := t.total - 1); SlotFor(t1) == t.total - 1 && t.slots[t.total - 1].def
  {
    assert t.undef == NONE;
    assert t.avalid == t.total;
    FreeNone(t, g, t.total - 1);
  }

  lemma {:induction false} FreeNone(t: Table, g: Ghosts, i: nat)
    requires Inv(t, g) && g.free == [] && i < t.avalid
    ensures t.slots[i].def
  {
    assert i in g.free <==> !t.slots[i].def;
  }
}
