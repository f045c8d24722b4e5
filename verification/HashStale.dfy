/** resizeHash (src/map/hash.c:132-209) shrinks a table and leaves `undef` as it was, a slot of the old table. All else
    being repaired: exactly when that does no harm, over every run of new keys and growths that may follow. */
module HashStale {
  import opened Wrappers
  import opened HashShape
  import opened HashSteps
  import opened HashAsWritten
  import HashTable

  // ---------------------------------------------------------------- hashPut of a new key, on any table

  /** The loop of resizeHash that links the slots of a grown table anew, repaired. */
  function Rechained(heads: seq<int>, slots: seq<Slot>, i: nat, total: nat): (seq<int>, seq<Slot>)
    requires |heads| > 0
    decreases total - i
  {
    if i >= total || i >= |slots| then (heads, slots)
    else
      var b := Bucket(slots[i].key, |heads|);
      Rechained(heads[b := i], slots[i := slots[i].(next := heads[b])], i + 1, total)
  }

  function Grown(t: Table): Table
    requires t.max > 0
  {
    var r := Rechained(seq(2 * t.max, _ => NONE), t.slots + seq(t.max, _ => BLANK), 0, t.total);
    t.(max := 2 * t.max, heads := r.0, slots := r.1)
  }

  function Room(t: Table): Table {
    if t.max > 0 && t.total >= t.max && t.max < 0x8000_0000 then Grown(t) else t
  }

  function PutNew(t: Table, k: Key, v: Value): Table {
    var t0 := Room(t);
    if Sized(t0) && 0 <= SlotFor(t0) < t0.max then Stored(t0, k, v) else t0
  }

  function PutAll(t: Table, puts: seq<(Key, Value)>): Table
    decreases |puts|
  {
    if puts == [] then t else PutAll(PutNew(t, puts[0].0, puts[0].1), puts[1..])
  }

  function Expected(m: map<Key, Value>, puts: seq<(Key, Value)>): map<Key, Value>
    decreases |puts|
  {
    if puts == [] then m else Expected(m[puts[0].0 := puts[0].1], puts[1..])
  }

  predicate New(keys: set<Key>, puts: seq<(Key, Value)>)
    decreases |puts|
  {
    puts == [] || (puts[0].0 !in keys && Norm(puts[0].0) == puts[0].0 && New(keys + {puts[0].0}, puts[1..]))
  }

  /** The loop of findHashNode comes to the key and its value. */
  ghost predicate Finds(t: Table, k: Key, v: Value) {
    && 0 < t.max <= |t.heads|
    && exists fuel :: var r := Lookup(t, t.heads[Bucket(k, t.max)], k, fuel);
                      r.Some? && r.value < |t.slots| && t.slots[r.value].value == v
  }

  /** A table as a shrink leaves it, but for undef: more than 8 keys in the first slots, and more than 16 slots are free. */
  ghost predicate JustShrunk(t: Table, g: Ghosts) {
    && Inv(t, g) && g.free == [] && 8 < t.total && t.total + HashTable.HASH_IDLE_NODE < t.max <= 0x4000_0000
    && BlankRest(t)
  }

  predicate BlankRest(t: Table) { forall i :: t.avalid <= i < |t.slots| ==> t.slots[i] == BLANK }

  /** Is the map kept, whatever undef says, when these keys are put? */
  ghost predicate Kept(t: Table, g: Ghosts, undef: int, puts: seq<(Key, Value)>)
    requires Inv(t, g)
  {
    var m := Expected(Contents(t, g), puts);
    forall k :: k in m ==> Finds(PutAll(t.(undef := undef), puts), k, m[k])
  }

  ghost predicate AlwaysKept(t: Table, g: Ghosts, undef: int)
    requires Inv(t, g)
  {
    forall puts :: New(g.at.Keys, puts) && t.total + |puts| < 0x8000_0000 ==> Kept(t, g, undef, puts)
  }

  // ---------------------------------------------------------------- with the right undef

  lemma {:induction false} ChainAt(t: Table, g: Ghosts, b: nat, i: nat)
    requires Inv(t, g) && b < t.max && |g.chains| == t.max && i < |g.chains[b]|
    ensures var chain := g.chains[b];
            && chain[i] < t.max == |t.slots| < NONE && t.slots[chain[i]].def && t.heads != [] && |t.heads| == t.max
            && t.slots[chain[i]].key in g.at && g.at[t.slots[chain[i]].key] == chain[i]
            && t.slots[chain[i]].next == (if i + 1 < |chain| then chain[i + 1] else NONE)
  {
    ChainInTable(t, g, b, i);
    assert BucketOk(t.slots, t.heads[b], g.chains[b], Live(t.slots, t.avalid), b, t.max);
    LinkedAt(t.slots, t.heads[b], g.chains[b], i);
  }

  lemma {:induction false} LookupAlong(t: Table, g: Ghosts, k: Key, i: nat, j: nat)
    requires Inv(t, g) && k in g.at && |g.chains| == t.max
    requires var chain := g.chains[Bucket(k, t.max)]; i <= j < |chain| && chain[j] == g.at[k]
    ensures Lookup(t, g.chains[Bucket(k, t.max)][i], k, j - i + 1) == Some(g.at[k])
    decreases j - i
  {
    hide Inv;
    hide Sized;
    hide Bucket;
    InvSizes(t, g);
    var chain := g.chains[Bucket(k, t.max)];
    ChainAt(t, g, Bucket(k, t.max), i);
    if t.slots[chain[i]].key == k {
      assert Lookup(t, chain[i], k, j - i + 1) == Some(chain[i]);
    } else {
      assert i < j;
      LookupAlong(t, g, k, i + 1, j);
      assert Lookup(t, chain[i], k, j - i + 1) == Lookup(t, chain[i + 1], k, j - i);
    }
  }

  lemma {:induction false} HeadIs(t: Table, g: Ghosts, b: nat)
    requires Inv(t, g) && b < t.max && |g.chains| == t.max && g.chains[b] != []
    ensures |t.heads| == t.max && t.heads[b] == g.chains[b][0]
  {
    assert BucketOk(t.slots, t.heads[b], g.chains[b], Live(t.slots, t.avalid), b, t.max);
    LinkedAt(t.slots, t.heads[b], g.chains[b], 0);
  }

  lemma {:induction false} FoundIs(t: Table, k: Key, fuel: nat, i: nat)
    requires 0 < t.max <= |t.heads| && i < |t.slots| && Lookup(t, t.heads[Bucket(k, t.max)], k, fuel) == Some(i)
    ensures Finds(t, k, t.slots[i].value)
  {
  }

  lemma {:induction false} InvFinds(t: Table, g: Ghosts, k: Key)
    requires Inv(t, g) && k in g.at
    ensures Finds(t, k, Contents(t, g)[k])
  {
    hide Bucket;
    hide Sized;
    hide Finds;
    hide Lookup;
    InvSizes(t, g);
    InOwnChain(t, g, k);
    hide Inv;
    var b := Bucket(k, t.max);
    var j :| 0 <= j < |g.chains[b]| && g.chains[b][j] == g.at[k];
    HeadIs(t, g, b);
    LookupAlong(t, g, k, 0, j);
    FoundIs(t, k, j + 1, g.at[k]);
  }

  lemma {:induction false} RechainedKeeps(heads: seq<int>, slots: seq<Slot>, chains: seq<seq<nat>>, i: nat, total: nat)
    returns (chains': seq<seq<nat>>)
    requires |heads| > 0 && i <= total <= |slots| && Chained(heads, slots, chains, Live(slots, i))
    requires forall x :: 0 <= x < total ==> slots[x].def
    ensures var r := Rechained(heads, slots, i, total);
            && |r.0| == |heads| && |r.1| == |slots| && Chained(r.0, r.1, chains', Live(r.1, total))
            && HashTable.Relinked(slots, r.1, |slots|) && forall x :: total <= x < |slots| ==> r.1[x] == slots[x]
    decreases total - i
  {
    if i == total {
      chains' := chains;
    } else {
      var b := Bucket(slots[i].key, |heads|);
      var s := slots[i].(next := heads[b]);
      HashTable.RechainStep(heads, slots, chains, i, s);
      hide Chained;
      chains' := RechainedKeeps(heads[b := i], slots[i := s], chains[b := [i] + chains[b]], i + 1, total);
    }
  }

  /** What the loop is given, and what it makes of it. */
  lemma {:induction false} GrownLinks(t: Table) returns (chains: seq<seq<nat>>)
    requires 0 < t.max == t.total == |t.slots| && forall x :: 0 <= x < t.total ==> t.slots[x].def
    ensures var t' := Grown(t);
            && |t'.heads| == |t'.slots| == 2 * t.max && Chained(t'.heads, t'.slots, chains, Live(t'.slots, t.total))
            && HashTable.Relinked(t.slots, t'.slots, t.max) && forall x :: t.max <= x < |t'.slots| ==> t'.slots[x] == BLANK
  {
    var heads, slots := seq(2 * t.max, _ => NONE), t.slots + seq(t.max, _ => BLANK);
    var none: seq<nat> := [];
    var empty := seq(2 * t.max, _ => none);
    HashTable.NoChains(heads, slots, empty);
    chains := RechainedKeeps(heads, slots, empty, 0, t.total);
    hide Rechained;
    hide Chained;
    var r := Rechained(heads, slots, 0, t.total);
    forall i | 0 <= i < t.max ensures r.1[i].(next := 0) == t.slots[i].(next := 0) { assert slots[i] == t.slots[i]; }
  }

  lemma {:induction false} GrownKeeps(t: Table, g: Ghosts) returns (g': Ghosts)
    requires Inv(t, g) && t.total >= t.max && t.max < 0x8000_0000
    ensures var t' := Grown(t);
            && Inv(t', g') && Contents(t', g') == Contents(t, g) && g'.at == g.at && g'.free == []
            && t'.max == 2 * t.max && t'.avalid == t'.total == t.total == t.max && t'.undef == NONE && BlankRest(t')
  {
    InvSizes(t, g);
    HashTable.FullTable(t, g);
    hide Inv;
    hide PowerOfTwo;
    hide Chained;
    hide HashTable.Relinked;
    hide Rechained;
    var chains := GrownLinks(t);
    HashTable.GrownKeeps(t, g, Grown(t).heads, Grown(t).slots, chains);
    g' := g.(chains := chains);
  }

  lemma {:induction false} PutNewIs(t: Table, t0: Table, k: Key, v: Value)
    requires t0 == Room(t) && Sized(t0) && 0 <= SlotFor(t0) < t0.max
    ensures PutNew(t, k, v) == Stored(t0, k, v)
  {
    hide Room;
    hide Stored;
  }

  lemma {:induction false} PutTwo(t: Table, a: (Key, Value), b: (Key, Value))
    ensures PutAll(t, [a, b]) == PutNew(PutNew(t, a.0, a.1), b.0, b.1)
  {
    hide PutNew;
    var one, none: seq<(Key, Value)> := [b], [];
    var t1 := PutNew(t, a.0, a.1);
    assert [a, b][1..] == one && one[1..] == none;
    assert PutAll(t, [a, b]) == PutAll(t1, one);
    assert PutAll(t1, one) == PutAll(PutNew(t1, b.0, b.1), none);
  }

  lemma {:induction false} RoomIs(t: Table)
    requires 0 < t.max && t.total < 0x8000_0000 && t.total <= t.max
    ensures Room(t) == if t.total >= t.max then Grown(t) else t
  {
  }

  lemma {:induction false} RoomKeeps(t: Table, g: Ghosts) returns (g': Ghosts)
    requires Inv(t, g) && t.total < 0x8000_0000
    ensures var t0 := Room(t);
            && Inv(t0, g') && Contents(t0, g') == Contents(t, g) && g'.at == g.at && t0.total == t.total < t0.max
  {
    InvSizes(t, g);
    RoomIs(t);
    hide Inv;
    hide Grown;
    hide Room;
    hide PowerOfTwo;
    if t.total >= t.max { g' := GrownKeeps(t, g); } else { g' := g; }
  }

  lemma {:induction false} PutNewKeeps(t: Table, g: Ghosts, k: Key, v: Value) returns (g': Ghosts)
    requires Inv(t, g) && k !in g.at && t.total < 0x8000_0000
    ensures var t' := PutNew(t, k, v);
            && Inv(t', g') && Contents(t', g') == Contents(t, g)[k := v] && g'.at.Keys == g.at.Keys + {k} && t'.total == t.total + 1
  {
    hide Inv;
    hide PutNew;
    hide Room;
    hide Stored;
    var g0 := RoomKeeps(t, g);
    var t0 := Room(t);
    InvSizes(t0, g0);
    StoredKeeps(t0, g0, k, v);
    PutNewIs(t, t0, k, v);
    StoredTotal(t0, k, v);
    g' := StoredGhosts(t0, g0, k);
  }

  lemma {:induction false} StoredTotal(t: Table, k: Key, v: Value)
    requires Sized(t) && 0 <= SlotFor(t) < t.max
    ensures Stored(t, k, v).total == t.total + 1 && Stored(t, k, v).max == t.max
  {
  }

  lemma {:induction false} PutAllKeeps(t: Table, g: Ghosts, puts: seq<(Key, Value)>) returns (g': Ghosts)
    requires Inv(t, g) && New(g.at.Keys, puts) && t.total + |puts| < 0x8000_0000
    ensures Inv(PutAll(t, puts), g') && Contents(PutAll(t, puts), g') == Expected(Contents(t, g), puts)
    decreases |puts|
  {
    hide Inv;
    hide PutNew;
    if puts == [] {
      g' := g;
    } else {
      var g1 := PutNewKeeps(t, g, puts[0].0, puts[0].1);
      g' := PutAllKeeps(PutNew(t, puts[0].0, puts[0].1), g1, puts[1..]);
    }
  }

  lemma {:induction false} RightIsKept(t: Table, g: Ghosts, puts: seq<(Key, Value)>)
    requires Inv(t, g) && t.undef == NONE && New(g.at.Keys, puts) && t.total + |puts| < 0x8000_0000
    ensures Kept(t, g, NONE, puts)
  {
    var g' := PutAllKeeps(t, g, puts);
    var t', m := PutAll(t, puts), Expected(Contents(t, g), puts);
    assert t.(undef := NONE) == t;
    forall k | k in m ensures Finds(t', k, m[k]) {
      assert k in g'.at;
      InvFinds(t', g', k);
    }
  }

  // ---------------------------------------------------------------- keys that get lost

  lemma {:induction false} LookupAbsent(t: Table, index: int, k: Key, fuel: nat)
    requires forall x :: 0 <= x < |t.slots| && t.slots[x].def ==> t.slots[x].key != k
    ensures Lookup(t, index, k, fuel) == None
    decreases fuel
  {
    if fuel > 0 && 0 <= index < |t.slots| && t.slots[index].def { LookupAbsent(t, t.slots[index].next, k, fuel - 1); }
  }

  /** No slot holds the key. */
  predicate Absent(t: Table, k: Key) { forall x :: 0 <= x < |t.slots| && t.slots[x].def ==> t.slots[x].key != k }

  lemma {:induction false} AbsentIsLost(t: Table, k: Key, v: Value)
    requires Absent(t, k)
    ensures !Finds(t, k, v)
  {
    if Finds(t, k, v) {
      var fuel :| Lookup(t, t.heads[Bucket(k, t.max)], k, fuel).Some?;
      LookupAbsent(t, t.heads[Bucket(k, t.max)], k, fuel);
    }
  }

  /** undef names a live slot: the next new key takes it. */
  lemma {:induction false} OverLive(t: Table, g: Ghosts, undef: nat, k: Key, v: Value)
    requires Inv(t, g) && g.free == [] && BlankRest(t) && undef < t.avalid && t.total < t.max && k !in g.at
    ensures undef < |t.slots| && t.slots[undef].key in g.at && Absent(PutNew(t.(undef := undef), k, v), t.slots[undef].key)
  {
    FreeNone(t, g, undef);
    hide Chained;
    hide FreeListed;
    hide PowerOfTwo;
    var old_ := t.slots[undef].key;
    var t1 := PutNew(t.(undef := undef), k, v);
    assert t1 == Stored(t.(undef := undef), k, v);
    forall x | 0 <= x < |t1.slots| && t1.slots[x].def ensures t1.slots[x].key != old_ {
      if x != undef { assert x < t.avalid; }
    }
  }

  lemma {:induction false} LiveKeys(t: Table, g: Ghosts)
    requires Inv(t, g) && BlankRest(t)
    ensures forall x :: 0 <= x < |t.slots| && t.slots[x].def ==> t.slots[x].key in g.at && g.at[t.slots[x].key] == x
  {
  }

  lemma {:induction false} BehindSlots(t: Table, undef: nat, a: (Key, Value), b: (Key, Value))
    requires Sized(t) && BlankRest(t) && 0 < t.avalid <= undef < t.max
    ensures var t1 := Stored(t.(undef := undef), a.0, a.1);
            && Sized(t1) && t1.undef == 0 && t1.total == t.total + 1
            && var t2 := Stored(t1, b.0, b.1);
            && |t2.slots| == |t.slots| && t2.slots[0].key == b.0 && t2.slots[undef].key == a.0
            && forall x :: 0 <= x < |t.slots| && x != 0 && x != undef ==> t2.slots[x] == t.slots[x]
  {
    hide PowerOfTwo;
  }

  /** undef names a blank slot: the next new key takes that one uncounted, and the one after it takes slot 0, to which
      the blank slot links. */
  lemma {:induction false} BehindLive(t: Table, g: Ghosts, undef: nat, a: (Key, Value), b: (Key, Value))
    requires Inv(t, g) && g.free == [] && BlankRest(t) && 0 < t.total && t.total + 1 < t.max && t.avalid <= undef < t.max
    requires a.0 !in g.at && b.0 !in g.at
    ensures |t.slots| > 0 && t.slots[0].key in g.at
    ensures var t1 := Stored(t.(undef := undef), a.0, a.1);
            && Sized(t1) && t1.undef == 0 && t1.total == t.total + 1
            && Absent(Stored(t1, b.0, b.1), t.slots[0].key)
  {
    FreeNone(t, g, 0);
    InvSizes(t, g);
    BehindSlots(t, undef, a, b);
    LiveKeys(t, g);
    hide Inv;
    hide Stored;
    hide PowerOfTwo;
    var first := t.slots[0].key;
    var t2 := Stored(Stored(t.(undef := undef), a.0, a.1), b.0, b.1);
    forall x | 0 <= x < |t2.slots| && t2.slots[x].def ensures t2.slots[x].key != first {
      if x != 0 && x != undef { assert t2.slots[x] == t.slots[x]; }
    }
  }

  lemma {:induction false} BehindLivePuts(t: Table, g: Ghosts, undef: nat, a: (Key, Value), b: (Key, Value))
    requires Inv(t, g) && g.free == [] && BlankRest(t) && 0 < t.total && t.total + 1 < t.max && t.avalid <= undef < t.max
    requires a.0 !in g.at && b.0 !in g.at
    ensures |t.slots| > 0 && t.slots[0].key in g.at && Absent(PutAll(t.(undef := undef), [a, b]), t.slots[0].key)
  {
    BehindLive(t, g, undef, a, b);
    InvSizes(t, g);
    hide Inv;
    hide Absent;
    hide Stored;
    hide PutNew;
    hide BlankRest;
    hide PowerOfTwo;
    var t0 := t.(undef := undef);
    var t1 := Stored(t0, a.0, a.1);
    StoredTotal(t0, a.0, a.1);
    PutNewIs(t0, t0, a.0, a.1);
    PutNewIs(t1, t1, b.0, b.1);
    PutTwo(t0, a, b);
  }

  /** undef names no slot: until the table grows, that is as good as none. */
  lemma {:induction false} PutBeyond(t: Table, g: Ghosts, undef: int, k: Key, v: Value) returns (g': Ghosts)
    requires Inv(t, g) && t.undef == NONE && t.max <= undef && k !in g.at && t.total < t.max
    ensures var t' := PutNew(t, k, v);
            && PutNew(t.(undef := undef), k, v) == t'.(undef := undef) && t'.undef == NONE && t'.max == t.max
            && Inv(t', g') && g'.at.Keys == g.at.Keys + {k} && t'.total == t.total + 1
  {
    InvSizes(t, g);
    FreeHead(t, g);
    PutBeyondIs(t, undef, k, v);
    hide Inv;
    hide PutNew;
    hide Stored;
    StoredKeeps(t, g, k, v);
    StoredKeys(t, g, k);
    g' := StoredGhosts(t, g, k);
  }

  lemma {:induction false} PutBeyondIs(t: Table, undef: int, k: Key, v: Value)
    requires Sized(t) && t.undef == NONE && t.max <= undef && t.total < t.max && t.avalid < t.max
    ensures PutNew(t, k, v) == Stored(t, k, v)
    ensures var t' := PutNew(t, k, v);
            PutNew(t.(undef := undef), k, v) == t'.(undef := undef) && t'.undef == NONE && t'.max == t.max && t'.total == t.total + 1
  {
    hide PutNew;
    hide PowerOfTwo;
    PutNewIs(t, t, k, v);
    PutNewIs(t.(undef := undef), t.(undef := undef), k, v);
    StoredBeyond(t, undef, k, v);
    hide Stored;
  }

  lemma {:induction false} StoredKeys(t: Table, g: Ghosts, k: Key)
    requires |g.chains| == t.max > 0 && 0 <= SlotFor(t)
    ensures StoredGhosts(t, g, k).at.Keys == g.at.Keys + {k}
  {
  }

  lemma {:induction false} StoredBeyond(t: Table, undef: int, k: Key, v: Value)
    requires Sized(t) && t.undef == NONE && t.max <= undef && 0 <= SlotFor(t) < t.max
    ensures Stored(t.(undef := undef), k, v) == Stored(t, k, v).(undef := undef)
    ensures Stored(t, k, v).undef == NONE && Stored(t, k, v).max == t.max && Stored(t, k, v).total == t.total + 1
  {
  }

  lemma {:induction false} FillUp(t: Table, g: Ghosts, undef: int, puts: seq<(Key, Value)>, rest: seq<(Key, Value)>)
    returns (s: Table, g': Ghosts)
    requires Inv(t, g) && t.undef == NONE && t.max <= undef && t.total + |puts| == t.max && New(g.at.Keys, puts + rest)
    ensures PutAll(t.(undef := undef), puts + rest) == PutAll(s.(undef := undef), rest)
    ensures Inv(s, g') && s.max == t.max == s.total && New(g'.at.Keys, rest)
    ensures g'.at.Keys <= g.at.Keys + set i | 0 <= i < |puts| :: puts[i].0
    decreases |puts|
  {
    hide Inv;
    hide PutNew;
    if puts == [] {
      s, g' := t, g;
      assert puts + rest == rest;
      assert t.(undef := t.undef) == t;
    } else {
      var p := puts[0];
      assert (puts + rest)[0] == p && (puts + rest)[1..] == puts[1..] + rest;
      var g1 := PutBeyond(t, g, undef, p.0, p.1);
      s, g' := FillUp(PutNew(t, p.0, p.1), g1, undef, puts[1..], rest);
    }
  }

  // ---------------------------------------------------------------- new keys

  lemma {:induction false} FreshKey(keys: set<Key>) returns (k: Key)
    ensures k !in keys && k.str == None && k.h <= |keys| && Norm(k) == k
  {
    KeysToAre(|keys| + 1);
    hide KeysTo;
    var all := KeysTo(|keys| + 1);
    if all <= keys { HashTable.SubsetSize(all, keys); }
    k :| k in all && k !in keys;
  }

  lemma {:induction false} FreshPuts(keys: set<Key>, n: nat) returns (puts: seq<(Key, Value)>)
    ensures |puts| == n && New(keys, puts)
    decreases n
  {
    if n == 0 {
      puts := [];
    } else {
      var k := FreshKey(keys);
      var more := FreshPuts(keys + {k}, n - 1);
      puts := [(k, 0)] + more;
      assert puts[1..] == more;
    }
  }

  lemma {:induction false} ExpectedKeys(m: map<Key, Value>, puts: seq<(Key, Value)>)
    ensures m.Keys <= Expected(m, puts).Keys && forall i :: 0 <= i < |puts| ==> puts[i].0 in Expected(m, puts)
    decreases |puts|
  {
    if puts != [] {
      ExpectedKeys(m[puts[0].0 := puts[0].1], puts[1..]);
      assert forall i :: 0 < i < |puts| ==> puts[i] == puts[1..][i - 1];
    }
  }

  lemma {:induction false} LosesKey(t: Table, g: Ghosts, undef: int, puts: seq<(Key, Value)>, k: Key)
    requires Inv(t, g) && k in Expected(Contents(t, g), puts) && Absent(PutAll(t.(undef := undef), puts), k)
    ensures !Kept(t, g, undef, puts)
  {
    AbsentIsLost(PutAll(t.(undef := undef), puts), k, Expected(Contents(t, g), puts)[k]);
  }

  // ---------------------------------------------------------------- the condition

  /** Puts after which a key is lost. */
  lemma {:induction false} StaleLoses(t: Table, g: Ghosts, undef: nat) returns (puts: seq<(Key, Value)>)
    requires JustShrunk(t, g) && undef < 2 * t.max
    ensures New(g.at.Keys, puts) && t.total + |puts| < 0x8000_0000 && !Kept(t, g, undef, puts)
  {
    InvSizes(t, g);
    assert t.avalid == t.total && t.undef == NONE;
    if undef < t.avalid {
      puts := FreshPuts(g.at.Keys, 1);
      var a := puts[0];
      OverLive(t, g, undef, a.0, a.1);
      hide Inv;
      ExpectedKeys(Contents(t, g), puts);
      assert PutAll(t.(undef := undef), puts) == PutNew(t.(undef := undef), a.0, a.1) by { assert puts[1..] == []; }
      LosesKey(t, g, undef, puts, t.slots[undef].key);
    } else if undef < t.max {
      puts := FreshPuts(g.at.Keys, 2);
      assert puts == [puts[0], puts[1]] && puts[1..][0] == puts[1];
      BehindLivePuts(t, g, undef, puts[0], puts[1]);
      hide Inv;
      ExpectedKeys(Contents(t, g), puts);
      LosesKey(t, g, undef, puts, t.slots[0].key);
    } else {
      puts := StaleBeyond(t, g, undef);
    }
  }

  lemma {:induction false} TwoNew(keys: set<Key>, a: (Key, Value), b: (Key, Value))
    requires New(keys, [a, b])
    ensures a.0 !in keys && b.0 !in keys
  {
    assert [a, b][1..] == [b];
  }

  /** The keys that fill the table, and two more. */
  lemma {:induction false} BeyondPuts(t: Table, g: Ghosts, undef: nat, fill: seq<(Key, Value)>, a: (Key, Value), b: (Key, Value))
    returns (k: Key)
    requires Inv(t, g) && t.undef == NONE && t.max <= undef < 2 * t.max && t.max < 0x8000_0000
    requires t.total + |fill| == t.max && New(g.at.Keys, fill + [a, b])
    ensures k in g.at.Keys + set i | 0 <= i < |fill| :: fill[i].0
    ensures Absent(PutAll(t.(undef := undef), fill + [a, b]), k)
  {
    hide Inv;
    hide PutAll;
    hide Absent;
    hide Grown;
    hide BlankRest;
    hide New;
    var s, g1 := FillUp(t, g, undef, fill, [a, b]);
    InvSizes(s, g1);
    var g2 := GrownKeeps(s, g1);
    TwoNew(g1.at.Keys, a, b);
    k := GrownLoses(s, g1, g2, undef, a, b);
  }

  lemma {:induction false} BeyondLoses(t: Table, g: Ghosts, undef: nat, puts: seq<(Key, Value)>, n: nat)
    requires Inv(t, g) && t.undef == NONE && t.max <= undef < 2 * t.max && t.max < 0x8000_0000
    requires t.total + n == t.max && |puts| == n + 2 && New(g.at.Keys, puts)
    ensures !Kept(t, g, undef, puts)
  {
    hide Kept;
    hide PutAll;
    hide Absent;
    hide Expected;
    hide New;
    hide Inv;
    var fill, a, b := puts[..n], puts[n], puts[n + 1];
    assert puts == fill + [a, b];
    var k := BeyondPuts(t, g, undef, fill, a, b);
    ExpectedHas(t, g, puts, n, k);
    LosesKey(t, g, undef, puts, k);
  }

  lemma {:induction false} StaleBeyond(t: Table, g: Ghosts, undef: nat) returns (puts: seq<(Key, Value)>)
    requires JustShrunk(t, g) && t.max <= undef < 2 * t.max
    ensures New(g.at.Keys, puts) && t.total + |puts| < 0x8000_0000 && !Kept(t, g, undef, puts)
  {
    assert t.undef == NONE;
    var n := t.max - t.total;
    puts := FreshPuts(g.at.Keys, n + 2);
    BeyondLoses(t, g, undef, puts, n);
    hide Kept;
    hide Inv;
    hide New;
    hide BlankRest;
  }

  lemma {:induction false} ExpectedHas(t: Table, g: Ghosts, puts: seq<(Key, Value)>, n: nat, k: Key)
    requires Inv(t, g) && n <= |puts| && k in g.at.Keys + set i | 0 <= i < n :: puts[..n][i].0
    ensures k in Expected(Contents(t, g), puts)
  {
    hide Inv;
    ExpectedKeys(Contents(t, g), puts);
    assert Contents(t, g).Keys == g.at.Keys;
    hide Expected;
    assert forall i :: 0 <= i < n ==> puts[..n][i] == puts[i];
  }

  lemma {:induction false} GrownLoses(s: Table, g: Ghosts, g': Ghosts, undef: nat, a: (Key, Value), b: (Key, Value)) returns (k: Key)
    requires s.total == s.max && 0 < s.max < 0x8000_0000 && s.max <= undef < 2 * s.max && a.0 !in g.at && b.0 !in g.at
    requires var t := Grown(s);
             && Inv(t, g') && g'.at == g.at && g'.free == []
             && t.max == 2 * s.max && t.avalid == t.total == s.max && BlankRest(t)
    ensures k in g.at && Absent(PutAll(s.(undef := undef), [a, b]), k)
  {
    var t := Grown(s);
    InvSizes(t, g');
    BehindLivePuts(t, g', undef, a, b);
    k := t.slots[0].key;
    hide Inv;
    hide Absent;
    assert Grown(s.(undef := undef)) == t.(undef := undef);
    hide Grown;
    hide BlankRest;
    var s0 := s.(undef := undef);
    assert PutNew(s0, a.0, a.1) == PutNew(t.(undef := undef), a.0, a.1);
  }

  /** After a shrink, the map is kept by every run of new keys and growths exactly if undef is the end mark. (The old
      table had twice as many slots, and undef named none or one of them.) */
  lemma {:induction false} StaleUndef(t: Table, g: Ghosts, undef: int)
    requires JustShrunk(t, g) && (undef == NONE || 0 <= undef < 2 * t.max)
    ensures AlwaysKept(t, g, undef) <==> undef == NONE
  {
    if undef == NONE {
      assert t.undef == NONE;
      forall puts | New(g.at.Keys, puts) && t.total + |puts| < 0x8000_0000 ensures Kept(t, g, undef, puts) {
        RightIsKept(t, g, puts);
      }
    } else {
      var puts := StaleLoses(t, g, undef);
    }
  }

  /** And it is never the end mark when hashRemove shrinks a table, as it has just put a slot there. */
  lemma {:induction false} RemovalIsStale(t: Table, b: nat, i: nat, parent: int, t1: Table, g1: Ghosts)
    requires i < |t.slots| <= 2 * t1.max && b < |t.heads| && (parent == NONE || 0 <= parent < |t.slots|) && t.total > 0
    requires JustShrunk(t1, g1)
    ensures !AlwaysKept(t1, g1, Removed(t, b, i, parent).undef)
  {
    hide Inv;
    StaleUndef(t1, g1, i);
  }

  lemma {:induction false} FewLoses(t: Table, g: Ghosts, m: nat)
    requires Inv(t, g) && g.free == [] && BlankRest(t) && t.avalid == t.total == m && 0 < m && m + 1 < t.max == |t.slots|
    requires t.slots[0].key == Key(0, None) && Key(m, None) !in g.at && Key(m + 1, None) !in g.at
    ensures var puts := [(Key(m, None), 0), (Key(m + 1, None), 0)];
            forall v :: !Finds(PutAll(t.(undef := m), puts), Key(0, None), v)
  {
    hide Inv;
    hide Absent;
    hide Finds;
    hide PutAll;
    var a, b := (Key(m, None), 0), (Key(m + 1, None), 0);
    BehindLivePuts(t, g, m, a, b);
    hide BlankRest;
    forall v ensures !Finds(PutAll(t.(undef := m), [a, b]), Key(0, None), v) {
      AbsentIsLost(PutAll(t.(undef := m), [a, b]), Key(0, None), v);
    }
  }

  lemma {:induction false} FewKeys(m: nat)
    requires 0 < m
    ensures Key(0, None) in KeysTo(m) && Key(m, None) !in KeysTo(m) && Key(m + 1, None) !in KeysTo(m)
  {
    KeysToAre(m);
    hide KeysTo;
  }

  lemma {:induction false} FewRest(m: nat, n: nat)
    requires 0 < m < n
    ensures var t, g := Few(m, n), FewGhosts(m, n);
            BlankRest(t) && t.avalid == t.total == m && t.max == |t.slots| == n && g.free == [] && t.slots[0].key == Key(0, None)
    ensures FewGhosts(m, n).at.Keys == KeysTo(m)
  {
    FewCount(m, n);
    hide KeysTo;
  }

  lemma {:induction false} FewJustShrunk(m: nat, n: nat)
    requires 8 <= n <= 0x4000_0000 && PowerOfTwo(n) && 8 < m && m + HashTable.HASH_IDLE_NODE < n
    ensures var t, g := Few(m, n), FewGhosts(m, n);
            && Inv(t, g) && JustShrunk(t, g) && g.free == [] && BlankRest(t) && t.avalid == t.total == m && t.max == |t.slots| == n
            && t.slots[0].key == Key(0, None)
            && Key(0, None) in Contents(t, g) && Key(m, None) !in g.at && Key(m + 1, None) !in g.at
  {
    FewIsTable(m, n);
    FewRest(m, n);
    FewKeys(m);
    hide Inv;
    hide Few;
    hide FewGhosts;
    hide KeysTo;
    hide PowerOfTwo;
    hide BlankRest;
  }

  /** For instance keys 0 to m - 1 in n slots, and undef at the first free slot: two more keys, and key 0 is gone. (With 15
      keys in 32 slots: what is left when 33 keys have been put, 16 to 32 removed, and then 15.) */
  lemma {:induction false} StaleFew(m: nat, n: nat)
    requires 8 <= n <= 0x4000_0000 && PowerOfTwo(n) && 8 < m && m + HashTable.HASH_IDLE_NODE < n
    ensures JustShrunk(Few(m, n), FewGhosts(m, n)) && Key(0, None) in Contents(Few(m, n), FewGhosts(m, n))
    ensures var puts := [(Key(m, None), 0), (Key(m + 1, None), 0)];
            forall v :: !Finds(PutAll(Few(m, n).(undef := m), puts), Key(0, None), v)
  {
    hide Finds;
    hide PutAll;
    FewJustShrunk(m, n);
    hide JustShrunk;
    hide Few;
    hide FewGhosts;
    hide Inv;
    hide BlankRest;
    FewLoses(Few(m, n), FewGhosts(m, n), m);
  }
}
