/** src/map/hash.c: the hash table whose index area lies below its slots.

    The text has slips in resizeHash and hashRemove; each line corrected here carries the mark
    "repaired", and HashAsWritten says what the text does instead.
  */
module HashTable {
  import opened Wrappers
  import opened HashShape
  import opened HashSteps

  const HASH_DEFAULT_MAX_NODE := 8
  const HASH_IDLE_NODE := 16

  // ---------------------------------------------------------------- growing and shrinking, step by step

  /** Chaining slot i as hashPut would. */
  lemma {:induction false} RechainStep(heads: seq<int>, slots: seq<Slot>, chains: seq<seq<nat>>, i: nat, s: Slot)
    requires i < |slots| && Chained(heads, slots, chains, Live(slots, i)) && s.def && s.next == heads[Bucket(s.key, |heads|)]
    ensures var b := Bucket(s.key, |heads|);
            Chained(heads[b := i], slots[i := s], chains[b := [i] + chains[b]], Live(slots[i := s], i + 1))
  {
    PushChain(heads, slots, chains, Live(slots, i), i, s);
    assert Live(slots[i := s], i + 1) == Live(slots, i) + {i};
  }

  lemma {:induction false} NoChains(heads: seq<int>, slots: seq<Slot>, chains: seq<seq<nat>>)
    requires |heads| == |chains| > 0 && forall b :: 0 <= b < |heads| ==> heads[b] == NONE && chains[b] == []
    ensures Chained(heads, slots, chains, Live(slots, 0))
  {
  }

  /** Growing starts from a full table: every slot is live and the free list is empty. */
  lemma {:induction false} FullTable(t: Table, g: Ghosts)
    requires Inv(t, g) && t.total >= t.max
    ensures t.avalid == t.max == t.total && g.free == [] && t.undef == NONE
    ensures forall i :: 0 <= i < t.max ==> t.slots[i].def
  {
  }

  /** The same slots, up to their links. */
  ghost predicate Relinked(a: seq<Slot>, b: seq<Slot>, n: nat) {
    n <= |a| && n <= |b| && forall i :: 0 <= i < n ==> b[i].(next := 0) == a[i].(next := 0)
  }

  /** Doubling: new links, the same slots, the same map. */
  lemma {:induction false} GrownKeeps(t: Table, g: Ghosts, heads: seq<int>, slots: seq<Slot>, chains: seq<seq<nat>>)
    requires Inv(t, g) && t.total >= t.max && t.max < 0x8000_0000
    requires |heads| == |slots| == 2 * t.max && Chained(heads, slots, chains, Live(slots, t.max))
    requires Relinked(t.slots, slots, t.max)
    ensures var t', g' := t.(max := 2 * t.max, heads := heads, slots := slots), g.(chains := chains);
            Inv(t', g') && Contents(t', g') == Contents(t, g)
  {
    FullTable(t, g);
    GrownPieces(t, g.at, heads, slots);
  }

  lemma {:induction false} GrownPieces(t: Table, at: map<Key, nat>, heads: seq<int>, slots: seq<Slot>)
    requires Sized(t) && Located(t, at) && t.avalid == t.max && t.max < 0x8000_0000 && t.undef == NONE
    requires forall i :: 0 <= i < t.max ==> t.slots[i].def
    requires |heads| == |slots| == 2 * t.max && Relinked(t.slots, slots, t.max)
    ensures var t' := t.(max := 2 * t.max, heads := heads, slots := slots);
            Sized(t') && Located(t', at) && FreeListed(t', []) && Values(t', at) == Values(t, at)
  {
    assert PowerOfTwo(2 * t.max);
    NoneDeleted(t.(max := 2 * t.max, heads := heads, slots := slots));
  }

  lemma {:induction false} NoneDeleted(t: Table)
    requires t.avalid <= |t.slots| && t.undef == NONE && forall i :: 0 <= i < t.avalid ==> t.slots[i].def
    ensures FreeListed(t, [])
  {
  }

  /** Shrinking has looked at the first i old slots and kept p of them, in order. */
  ghost predicate Copied(t: Table, at: map<Key, nat>, i: nat, slots: seq<Slot>, p: nat, at': map<Key, nat>) {
    && p <= |slots| && |at'| == p
    && (forall k :: k in at' ==> k in at && at[k] < i && at[k] < |t.slots| && at'[k] < p
                                 && slots[at'[k]].key == k && slots[at'[k]].value == t.slots[at[k]].value)
    && (forall k :: k in at && at[k] < i ==> k in at')
    && (forall x :: 0 <= x < p ==> slots[x].def && slots[x].key in at' && at'[slots[x].key] == x)
  }

  /** There is room for every slot that is still to come. */
  lemma {:induction false} CopiedRoom(t: Table, at: map<Key, nat>, i: nat, slots: seq<Slot>, p: nat, at': map<Key, nat>)
    requires Copied(t, at, i, slots, p, at')
    ensures at'.Keys <= at.Keys && p <= |at|
    ensures p == |at| ==> at'.Keys == at.Keys
  {
    SubsetSize(at'.Keys, at.Keys);
    assert |at'.Keys| == |at'| && |at.Keys| == |at|;
  }

  lemma {:induction false} SubsetSize<T>(a: set<T>, b: set<T>)
    requires a <= b
    ensures |a| <= |b|
    ensures |a| == |b| ==> a == b
  {
    assert b == a + (b - a);
    assert |b| == |a| + |b - a|;
  }

  lemma {:induction false} CopyStep(t: Table, at: map<Key, nat>, i: nat, slots: seq<Slot>, p: nat, at': map<Key, nat>, next: int)
    requires Sized(t) && Located(t, at) && i < t.avalid && t.slots[i].def && Copied(t, at, i, slots, p, at') && p < |slots|
    ensures var s := t.slots[i].(next := next);
            Copied(t, at, i + 1, slots[p := s], p + 1, at'[s.key := p]) && s.key !in at'
  {
    var s := t.slots[i].(next := next);
    assert s.key in at && at[s.key] == i;
    assert s.key !in at';
  }

  lemma {:induction false} CopySkip(t: Table, at: map<Key, nat>, i: nat, slots: seq<Slot>, p: nat, at': map<Key, nat>)
    requires Sized(t) && Located(t, at) && i < t.max && (i >= t.avalid || !t.slots[i].def) && Copied(t, at, i, slots, p, at')
    ensures Copied(t, at, i + 1, slots, p, at')
  {
    assert forall k :: k in at ==> at[k] != i;
  }

  /** While slots are missing from the copy, the scan has not passed the used part of the old table. */
  lemma {:induction false} StillToCome(t: Table, at: map<Key, nat>, i: nat, slots: seq<Slot>, p: nat, at': map<Key, nat>)
    requires Sized(t) && Located(t, at) && Copied(t, at, i, slots, p, at')
    ensures p <= |at| && (p < |at| ==> i < t.avalid)
  {
    CopiedRoom(t, at, i, slots, p, at');
    if i >= t.avalid {
      assert at.Keys <= at'.Keys;
      SubsetSize(at.Keys, at'.Keys);
      assert |at'.Keys| == |at'| && |at.Keys| == |at|;
    }
  }

  /** The loop invariant of the compaction. */
  ghost predicate Compacting(t: Table, at: map<Key, nat>, i: nat, heads: seq<int>, slots: seq<Slot>, chains: seq<seq<nat>>,
                             p: nat, at': map<Key, nat>)
  {
    p <= |slots| && Chained(heads, slots, chains, Live(slots, p)) && Copied(t, at, i, slots, p, at')
  }

  lemma {:induction false} CompactStart(t: Table, at: map<Key, nat>, heads: seq<int>, slots: seq<Slot>, chains: seq<seq<nat>>)
    requires |heads| == |chains| > 0 && forall b :: 0 <= b < |heads| ==> heads[b] == NONE && chains[b] == []
    ensures Compacting(t, at, 0, heads, slots, chains, 0, map[])
  {
    NoChains(heads, slots, chains);
  }

  /** When the loop ends, whichever way, every live slot has been copied. */
  lemma {:induction false} CompactEnd(t: Table, at: map<Key, nat>, i: nat, heads: seq<int>, slots: seq<Slot>, chains: seq<seq<nat>>,
                                      p: nat, at': map<Key, nat>)
    requires Sized(t) && Located(t, at) && Compacting(t, at, i, heads, slots, chains, p, at')
    requires i >= t.max || p >= |at|
    ensures p == |at| && Chained(heads, slots, chains, Live(slots, p)) && Copied(t, at, i, slots, p, at')
  {
    StillToCome(t, at, i, slots, p, at');
  }

  /** One turn: a live slot is copied and chained, a deleted one is passed over. */
  lemma {:induction false} CompactCopy(t: Table, at: map<Key, nat>, i: nat, heads: seq<int>, slots: seq<Slot>,
                                       chains: seq<seq<nat>>, p: nat, at': map<Key, nat>, b: nat, s: Slot)
    requires Sized(t) && Located(t, at) && i < t.max && Compacting(t, at, i, heads, slots, chains, p, at')
    requires p < |at| <= |slots| && t.slots[i].def
    requires |heads| > 0 && b == Bucket(s.key, |heads|) && s == t.slots[i].(next := heads[b])
    ensures b < |chains| && Compacting(t, at, i + 1, heads[b := p], slots[p := s], chains[b := [p] + chains[b]], p + 1, at'[s.key := p])
  {
    StillToCome(t, at, i, slots, p, at');
    CopyStep(t, at, i, slots, p, at', heads[b]);
    RechainStep(heads, slots, chains, p, s);
  }

  lemma {:induction false} CompactSkip(t: Table, at: map<Key, nat>, i: nat, heads: seq<int>, slots: seq<Slot>,
                                       chains: seq<seq<nat>>, p: nat, at': map<Key, nat>)
    requires Sized(t) && Located(t, at) && i < t.max && Compacting(t, at, i, heads, slots, chains, p, at')
    requires !t.slots[i].def
    ensures Compacting(t, at, i + 1, heads, slots, chains, p, at')
  {
    CopySkip(t, at, i, slots, p, at');
  }

  /** Compaction: fewer slots, the same map. */
  lemma {:induction false} ShrunkKeeps(t: Table, g: Ghosts, i: nat, heads: seq<int>, slots: seq<Slot>, chains: seq<seq<nat>>, at': map<Key, nat>)
    requires Inv(t, g) && t.max > 16 && t.total <= t.max / 2 && |heads| == |slots| == t.max / 2
    requires Chained(heads, slots, chains, Live(slots, t.total)) && Copied(t, g.at, i, slots, t.total, at')
    ensures var t', g' := Table(t.total, t.max / 2, t.total, NONE, heads, slots), Ghosts(chains, [], at');
            Inv(t', g') && Contents(t', g') == Contents(t, g)
  {
    HalfEven(t.max);
    var t' := Table(t.total, t.max / 2, t.total, NONE, heads, slots);
    NoneDeleted(t');
    ShrunkLocated(t, g.at, i, t', at');
  }

  lemma {:induction false} ShrunkLocated(t: Table, at: map<Key, nat>, i: nat, t': Table, at': map<Key, nat>)
    requires Sized(t) && Located(t, at) && t'.avalid == |at| <= |t'.slots| && Copied(t, at, i, t'.slots, |at|, at')
    ensures Located(t', at') && Values(t', at') == Values(t, at)
  {
    CopiedRoom(t, at, i, t'.slots, |at|, at');
  }

  lemma {:induction false} HalfEven(n: nat)
    requires PowerOfTwo(n) && n > 16
    ensures n / 2 >= 8 && n == 2 * (n / 2) && PowerOfTwo(n / 2)
  {
  }

  // ---------------------------------------------------------------- the table

  datatype Status = S_ERR | S_OK

  /** The capacity that resizeHash leaves (hash.c:137, 142); 2^32 slots are more than malloc grants. */
  function Resized(total: nat, max: nat, mallocOk: bool): nat {
    if total > HASH_DEFAULT_MAX_NODE && max / 2 > HASH_IDLE_NODE && total < max / 2 - HASH_IDLE_NODE then max / 2
    else if total >= max && mallocOk && max < 0x8000_0000 then 2 * max
    else max
  }

  class HashMap {
    var avalid: nat
    var max: nat
    var total: nat
    var undef: int
    var heads: seq<int>
    var slots: seq<Slot>
    ghost var g: Ghosts

    function Tab(): Table
      reads this
    {
      Table(avalid, max, total, undef, heads, slots)
    }

    ghost predicate Valid()
      reads this
    {
      Inv(Tab(), g)
    }

    /** The finite map from normalised keys to values. */
    ghost function Map(): map<Key, Value>
      requires Valid()
      reads this
    {
      Contents(Tab(), g)
    }

    /** newHash. */
    constructor ()
      ensures Valid() && Map() == map[] && max == HASH_DEFAULT_MAX_NODE
    {
      avalid, max, total, undef := 0, HASH_DEFAULT_MAX_NODE, 0, NONE;
      heads := seq(HASH_DEFAULT_MAX_NODE, _ => NONE);
      slots := seq(HASH_DEFAULT_MAX_NODE, _ => BLANK);
      g := Ghosts(seq(HASH_DEFAULT_MAX_NODE, _ => []), [], map[]);
      new;
      NoChains(heads, slots, g.chains);
    }

    /** getHashKey: where the bucket's head is, counted from the start of the index area. */
    method GetHashKey(key: Key) returns (b: nat)
      requires Sized(Tab())
      ensures b == Bucket(key, max)
    {
      hide Or;
      hide TwoTo;
      TwoTo32();
      OffsetIsBucket(key, max, 32);
      var keyIndex := KeyIndex(key.h, max, 32);
      return keyIndex + max;
    }

    /** findHashNode; NONE stands for NULL. */
    method Find(key: Key) returns (index: int)
      requires Valid() && Norm(key) == key
      ensures key in Map() <==> index != NONE
      ensures key in Map() ==> index == g.at[key] && 0 <= index < |slots| && slots[index].value == Map()[key]
    {
      hide Inv;
      InvSizes(Tab(), g);
      var b := GetHashKey(key);
      index := heads[b];
      ghost var j := 0;
      SeekStart(Tab(), g, key);
      while IndexValid(Tab(), index)
        invariant Seeking(Tab(), g, key, index, j)
        decreases |g.chains[Bucket(key, max)]| - j
      {
        SeekRead(Tab(), g, key, index, j);
        if !slots[index].def {
          break;
        }
        if KeyEqual(key, slots[index].key) {
          return;
        }
        index := slots[index].next;
        j := j + 1;
      }
      SeekEnd(Tab(), g, key, index, j);
      index := NONE;
    }

    /** hashGet. */
    method Get(key: Key) returns (value: Option<Value>)
      requires Valid()
      ensures value == if Norm(key) in Map() then Some(Map()[Norm(key)]) else None
    {
      hide Inv;
      InvSizes(Tab(), g);
      NormTwice(key);
      var index := Find(Norm(key));
      value := if index != NONE then Some(slots[index].value) else None;
    }

    /** resizeHash. mallocOk says whether malloc grants a larger block. */
    method Resize(mallocOk: bool) returns (status: Status)
      requires Valid()
      modifies this
      ensures Valid() && Map() == old(Map()) && total == old(total) && max == Resized(old(total), old(max), mallocOk)
      ensures 2 * max == old(max) <==> total > HASH_DEFAULT_MAX_NODE && total + HASH_IDLE_NODE < old(max) / 2
      ensures max == 2 * old(max) <==> old(total >= max) && mallocOk && old(max) < 0x8000_0000
      ensures max == old(max) || max == 2 * old(max) || 2 * max == old(max)
      ensures status == S_ERR <==> old(total >= max) && (!mallocOk || old(max) >= 0x8000_0000)
      ensures status == S_ERR ==> max == old(max)
      ensures status == S_OK ==> total < max
    {
      hide Inv;
      InvSizes(Tab(), g);
      // repaired: hash.c:137 computes (max >> 1) - 16 in uint32_t, which wraps at max == 16
      if total > HASH_DEFAULT_MAX_NODE && max / 2 > HASH_IDLE_NODE && total < max / 2 - HASH_IDLE_NODE {
        Shrink();
        return S_OK;
      } else if total >= max {
        // 2^32 slots are more than malloc grants
        if !mallocOk || max >= 0x8000_0000 {
          return S_ERR;
        }
        Grow();
        return S_OK;
      }
      return S_OK;
    }

    method Grow()
      requires Valid() && total >= max && max < 0x8000_0000
      modifies this
      ensures Valid() && Map() == old(Map()) && total == old(total) && max == 2 * old(max)
    {
      hide Chained;
      hide Relinked;
      ghost var t0, g0 := Tab(), g;
      FullTable(t0, g0);
      ghost var chains := Enlarge();
      GrownKeeps(t0, g0, heads, slots, chains);
      g := g0.(chains := chains);
    }

    method Enlarge() returns (ghost chains: seq<seq<nat>>)
      requires |slots| == max == total > 0 && forall x :: 0 <= x < total ==> slots[x].def
      modifies this`max, this`heads, this`slots
      ensures Tab() == old(Tab()).(max := 2 * old(max), heads := heads, slots := slots)
      ensures |heads| == |slots| == 2 * old(max) && Chained(heads, slots, chains, Live(slots, old(max)))
      ensures Relinked(old(slots), slots, old(max))
    {
      slots := slots + seq(max, _ => BLANK);
      max := max * 2;
      heads := seq(max, _ => NONE);
      chains := Rechain();
    }

    /** The loop of resizeHash that links the slots of a grown table anew (hash.c:200-206). */
    method Rechain() returns (ghost chains: seq<seq<nat>>)
      requires |heads| == |slots| == max > 0 && total <= max && forall b :: 0 <= b < max ==> heads[b] == NONE
      requires forall x :: 0 <= x < total ==> slots[x].def
      modifies this`heads, this`slots
      ensures |heads| == |slots| == max && Chained(heads, slots, chains, Live(slots, total))
      ensures Relinked(old(slots), slots, max)
    {
      chains := seq(max, _ => []);
      NoChains(heads, slots, chains);
      var i: nat := 0;
      while i < total
        invariant 0 <= i <= total
        invariant |heads| == |slots| == max && Chained(heads, slots, chains, Live(slots, i))
        invariant Relinked(old(slots), slots, max)
      {
        var b := Bucket(slots[i].key, max);
        RechainStep(heads, slots, chains, i, slots[i].(next := heads[b]));
        chains := chains[b := [i] + chains[b]];
        slots := slots[i := slots[i].(next := heads[b])]; // repaired: hash.c:203 keeps writing slot 0
        heads := heads[b := i]; // repaired: hash.c:204 stores i after its increment
        i := i + 1;
      }
    }

    method Shrink()
      requires Valid() && max > 2 * HASH_IDLE_NODE && total < max / 2 - HASH_IDLE_NODE
      modifies this
      ensures Valid() && Map() == old(Map()) && total == old(total) && 2 * max == old(max)
    {
      hide Chained;
      hide Copied;
      ghost var t0, g0 := Tab(), g;
      HalfEven(max);
      ghost var i, chains, at := Halve(t0, g0.at);
      ShrunkKeeps(t0, g0, i, heads, slots, chains, at);
      g := Ghosts(chains, [], at);
    }

    method Halve(ghost t0: Table, ghost at0: map<Key, nat>)
      returns (ghost last: nat, ghost chains: seq<seq<nat>>, ghost at: map<Key, nat>)
      requires t0 == Tab() && Sized(t0) && Located(t0, at0) && total == |at0| < max / 2
      modifies this
      ensures Tab() == Table(t0.total, t0.max / 2, t0.total, NONE, heads, slots)
      ensures |heads| == |slots| == max && Chained(heads, slots, chains, Live(slots, total))
      ensures Copied(t0, at0, last, slots, total, at)
    {
      var oldNode := slots;
      max := max / 2;
      slots := seq(max, _ => BLANK); // repaired: hash.c:141 adds a negative difference that has wrapped in uint32_t
      heads := seq(max, _ => NONE);
      last, chains, at := Compact(oldNode, t0, at0);
      avalid := total; // repaired: hash.c:176 sets total - 1
      undef := NONE; // repaired: resizeHash leaves undef pointing into the old slots
    }

    /** The loop of resizeHash that copies the live slots down (hash.c:172-190). */
    method Compact(oldNode: seq<Slot>, ghost t0: Table, ghost at0: map<Key, nat>)
      returns (ghost last: nat, ghost chains: seq<seq<nat>>, ghost at: map<Key, nat>)
      requires Sized(t0) && Located(t0, at0) && oldNode == t0.slots && total == |at0| < max
      requires |heads| == |slots| == max && forall b :: 0 <= b < max ==> heads[b] == NONE
      modifies this`heads, this`slots
      ensures |heads| == |slots| == max && Chained(heads, slots, chains, Live(slots, total))
      ensures Copied(t0, at0, last, slots, total, at)
    {
      hide Compacting;
      chains := seq(max, _ => []);
      at := map[];
      CompactStart(t0, at0, heads, slots, chains);
      var i: nat, p: nat := 0, 0;
      while i < |oldNode| && p < total
        invariant 0 <= i <= |oldNode| && p <= total
        invariant |heads| == |slots| == max
        invariant Compacting(t0, at0, i, heads, slots, chains, p, at)
      {
        if oldNode[i].def {
          var b := Bucket(oldNode[i].key, max);
          var s := oldNode[i].(next := heads[b]);
          CompactCopy(t0, at0, i, heads, slots, chains, p, at, b, s);
          at := at[s.key := p];
          chains := chains[b := [p] + chains[b]];
          slots := slots[p := s];
          heads := heads[b := p]; // repaired: hash.c:183 stores the position in the old table
          p := p + 1;
        } else {
          CompactSkip(t0, at0, i, heads, slots, chains, p, at);
        }
        i := i + 1;
      }
      CompactEnd(t0, at0, i, heads, slots, chains, p, at);
      last := i;
    }

    /** hashPut; the result is the value that was replaced, if any. A new key is turned away only when the
        table is full and cannot grow. */
    method Put(key0: Key, value: Value, mallocOk: bool) returns (old_: Option<Value>)
      requires Valid()
      modifies this
      ensures Valid()
      ensures old_ == if Norm(key0) in old(Map()) then Some(old(Map())[Norm(key0)]) else None
      ensures var stuck := old(total >= max) && (!mallocOk || old(max) >= 0x8000_0000);
              if Norm(key0) in old(Map()) then Map() == old(Map())[Norm(key0) := value] && total == old(total)
              else if !stuck then Map() == old(Map())[Norm(key0) := value] && total == old(total) + 1
              else Map() == old(Map()) && total == old(total)
      ensures max == if old(total >= max) && mallocOk && old(max) < 0x8000_0000 then 2 * old(max) else old(max)
    {
      hide Inv;
      if total >= max {
        var _ := Resize(mallocOk);
      }
      NormTwice(key0);
      old_ := PutResized(Norm(key0), value);
    }

    method PutResized(key: Key, value: Value) returns (old_: Option<Value>)
      requires Valid() && Norm(key) == key
      modifies this
      ensures Valid() && max == old(max)
      ensures old_ == if key in old(Map()) then Some(old(Map())[key]) else None
      ensures if key in old(Map()) || old(total < max) then Map() == old(Map())[key := value] else Map() == old(Map())
      ensures total == old(total) + if key !in old(Map()) && old(total < max) then 1 else 0
    {
      hide Inv;
      hide StoredGhosts;
      InvSizes(Tab(), g);
      var current := Find(key);
      if current != NONE {
        var mv := slots[current].value;
        StoreKeeps(Tab(), g, key, value);
        slots := slots[current := slots[current].(value := value)];
        return Some(mv);
      }
      FreeHead(Tab(), g);
      if !IndexValid(Tab(), undef) && avalid >= max {
        return None;
      }
      ghost var t0 := Tab();
      StoredKeeps(t0, g, key, value);
      Store(key, value);
      g := StoredGhosts(t0, g, key);
      return None;
    }

    /** A new key goes into a free slot (hash.c:101-120). */
    method Store(key: Key, value: Value)
      requires Sized(Tab()) && 0 <= SlotFor(Tab()) < max
      modifies this
      ensures Tab() == Stored(old(Tab()), key, value) && g == old(g)
    {
      var b := GetHashKey(key);
      var index: nat;
      if IndexValid(Tab(), undef) {
        index := undef;
        undef := slots[index].next;
      } else {
        index := avalid;
        avalid := avalid + 1;
      }
      slots := slots[index := Slot(key, value, heads[b], true)];
      heads := heads[b := index];
      total := total + 1;
    }

    /** hashRemove; the result is the value of the removed entry, if there was one. */
    method Remove(key0: Key) returns (value: Option<Value>)
      requires Valid()
      modifies this
      ensures Valid()
      ensures value == if Norm(key0) in old(Map()) then Some(old(Map())[Norm(key0)]) else None
      ensures Map() == old(Map()) - {Norm(key0)}
      ensures total == old(total) - if Norm(key0) in old(Map()) then 1 else 0
      ensures max == if Norm(key0) in old(Map()) then Resized(total, old(max), true) else old(max)
      ensures 2 * max == old(max) <==>
                Norm(key0) in old(Map()) && total > HASH_DEFAULT_MAX_NODE && total + HASH_IDLE_NODE < old(max) / 2
      ensures max == old(max) || 2 * max == old(max)
    {
      hide Inv;
      InvSizes(Tab(), g);
      NormTwice(key0);
      var index, parent, j := Seek(Norm(key0));
      if index == NONE {
        return None;
      }
      value := Some(slots[index].value);
      Delete(Bucket(Norm(key0), max), index, parent, j);
      var _ := Resize(true);
    }

    /** The search of hashRemove, which remembers the previous slot of the chain. */
    method Seek(key: Key) returns (index: int, parent: int, ghost j: nat)
      requires Valid()
      ensures key in Map() <==> index != NONE
      ensures key in Map() ==>
                var chain := g.chains[Bucket(key, max)];
                && 0 <= index < max && j < |chain| && index == chain[j] == g.at[key] && parent == ParentAt(chain, j)
                && slots[index].key == key && slots[index].value == Map()[key]
    {
      hide Inv;
      InvSizes(Tab(), g);
      var b := GetHashKey(key);
      index := heads[b];
      parent := NONE;
      j := 0;
      SeekStart(Tab(), g, key);
      while IndexValid(Tab(), index)
        invariant Seeking(Tab(), g, key, index, j) && parent == ParentAt(g.chains[Bucket(key, max)], j)
        decreases |g.chains[Bucket(key, max)]| - j
      {
        SeekRead(Tab(), g, key, index, j);
        if !slots[index].def {
          break;
        }
        if KeyEqual(key, slots[index].key) {
          return;
        }
        parent := index;
        index := slots[parent].next;
        j := j + 1;
      }
      SeekEnd(Tab(), g, key, index, j);
      index := NONE;
    }

    /** The entry leaves its chain and its slot joins the free list (hash.c:264-282). */
    method Delete(b: nat, index: nat, parent: int, ghost j: nat)
      requires Valid() && b < max && j < |g.chains[b]| && index == g.chains[b][j]
      requires parent == ParentAt(g.chains[b], j) && index < |slots|
      modifies this
      ensures Valid() && Map() == old(Map() - {slots[index].key}) && total == old(total) - 1 && max == old(max)
      ensures old(slots[index].key in Map())
    {
      hide Inv;
      hide RemovedGhosts;
      InvSizes(Tab(), g);
      ghost var t0 := Tab();
      RemovedKeeps(t0, g, b, j);
      ghost var g1 := RemovedGhosts(g, b, j, t0.slots[index].key);
      Unlink(b, index, parent);
      g := g1;
    }

    method Unlink(b: nat, index: nat, parent: int)
      requires index < |slots| && b < |heads| && (parent == NONE || 0 <= parent < |slots|) && total > 0
      modifies this
      ensures Tab() == Removed(old(Tab()), b, index, parent) && g == old(g)
    {
      var nextIndex := slots[index].next;
      if parent == NONE {
        // repaired: hash.c:268 skips this when nextIndex is the end of the chain
        heads := heads[b := nextIndex];
      } else {
        slots := slots[parent := slots[parent].(next := nextIndex)];
      }
      var tmpIndex := undef;
      undef := index;
      slots := slots[index := slots[index].(next := tmpIndex, value := 0, def := false)];
      total := total - 1;
    }
  }
}
