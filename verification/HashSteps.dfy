/** What the statements of hashPut and hashRemove (src/map/hash.c) do to a table, as steps on values. */
module HashSteps {
  import opened HashShape

  /** HASH_KEY_INDEX_VALID. */
  predicate IndexValid(t: Table, index: int) { index != NONE && index < t.max }

  lemma {:induction false} InvSizes(t: Table, g: Ghosts)
    requires Inv(t, g)
    ensures Sized(t) && |g.chains| == t.max && t.total == |g.at| <= t.avalid
    ensures forall k :: k in g.at ==> g.at[k] < t.max && t.slots[g.at[k]].key == k
  {
  }

  lemma {:induction false} FreeHead(t: Table, g: Ghosts)
    requires Inv(t, g)
    ensures IndexValid(t, t.undef) <==> g.free != []
    ensures g.free != [] ==> 0 <= t.undef < t.avalid && t.undef == g.free[0] && !t.slots[t.undef].def
    ensures g.free == [] ==> t.total == t.avalid
    ensures t.total < t.max <==> IndexValid(t, t.undef) || t.avalid < t.max
  {
    if g.free != [] { assert g.free[0] in g.free; }
  }

  lemma {:induction false} InOwnChain(t: Table, g: Ghosts, k: Key)
    requires Inv(t, g) && k in g.at
    ensures g.at[k] in g.chains[Bucket(k, t.max)] && g.at[k] < |t.slots| && t.slots[g.at[k]].key == k
  {
    assert g.at[k] in Live(t.slots, t.avalid);
  }

  /** A key that its own chain does not hold is nowhere in the table. */
  lemma {:induction false} NotInChain(t: Table, g: Ghosts, k: Key)
    requires Inv(t, g)
    requires forall i :: i in g.chains[Bucket(k, t.max)] && i < |t.slots| ==> t.slots[i].key != k
    ensures k !in g.at
  {
    if k in g.at { InOwnChain(t, g, k); }
  }

  lemma {:induction false} ChainInTable(t: Table, g: Ghosts, b: nat, j: nat)
    requires Inv(t, g) && b < t.max && j < |g.chains[b]|
    ensures var i := g.chains[b][j];
            && i < t.avalid && t.slots[i].def && Bucket(t.slots[i].key, t.max) == b
            && t.slots[i].key in g.at && g.at[t.slots[i].key] == i
  {
    assert BucketOk(t.slots, t.heads[b], g.chains[b], Live(t.slots, t.avalid), b, t.max);
    assert g.chains[b][j] in g.chains[b];
  }

  // ---------------------------------------------------------------- walking a chain

  /** The loop invariant of findHashNode and hashRemove: j slots of key's chain have been passed, none
      with the key, and index is the next one. */
  ghost predicate Seeking(t: Table, g: Ghosts, key: Key, index: int, j: nat)
    requires t.max > 0 && |g.chains| == t.max
  {
    var chain := g.chains[Bucket(key, t.max)];
    && j <= |chain| && index == (if j < |chain| then chain[j] else NONE)
    && forall x :: 0 <= x < j ==> chain[x] < |t.slots| && t.slots[chain[x]].key != key
  }

  lemma {:induction false} SeekStart(t: Table, g: Ghosts, key: Key)
    requires Inv(t, g)
    ensures |g.chains| == t.max && Seeking(t, g, key, t.heads[Bucket(key, t.max)], 0)
  {
    var b := Bucket(key, t.max);
    assert BucketOk(t.slots, t.heads[b], g.chains[b], Live(t.slots, t.avalid), b, t.max);
  }

  lemma {:induction false} SeekRead(t: Table, g: Ghosts, key: Key, index: int, j: nat)
    requires Inv(t, g) && |g.chains| == t.max && Seeking(t, g, key, index, j) && IndexValid(t, index)
    ensures j < |g.chains[Bucket(key, t.max)]| && index == g.chains[Bucket(key, t.max)][j]
    ensures 0 <= index < t.max && t.slots[index].def
    ensures t.slots[index].key == key ==> key in g.at && g.at[key] == index
    ensures t.slots[index].key != key ==> Seeking(t, g, key, t.slots[index].next, j + 1)
  {
    var b := Bucket(key, t.max);
    ChainInTable(t, g, b, j);
    assert BucketOk(t.slots, t.heads[b], g.chains[b], Live(t.slots, t.avalid), b, t.max);
    LinkedAt(t.slots, t.heads[b], g.chains[b], j);
  }

  lemma {:induction false} SeekEnd(t: Table, g: Ghosts, key: Key, index: int, j: nat)
    requires Inv(t, g) && |g.chains| == t.max && Seeking(t, g, key, index, j) && !IndexValid(t, index)
    ensures key !in g.at
  {
    var b := Bucket(key, t.max);
    if j < |g.chains[b]| { ChainInTable(t, g, b, j); }
    NotInChain(t, g, key);
  }

  // ---------------------------------------------------------------- hashPut

  /** current->value = value. */
  lemma {:induction false} StoreKeeps(t: Table, g: Ghosts, k: Key, v: Value)
    requires Inv(t, g) && k in g.at
    ensures var t' := t.(slots := t.slots[g.at[k] := t.slots[g.at[k]].(value := v)]);
            Inv(t', g) && Contents(t', g) == Contents(t, g)[k := v]
  {
    StoreChains(t, g.chains, g.at[k], v);
    StoreFree(t, g.free, g.at[k], v);
    StoreLocated(t, g.at, k, v);
  }

  lemma {:induction false} StoreChains(t: Table, chains: seq<seq<nat>>, i: nat, v: Value)
    requires Sized(t) && Chained(t.heads, t.slots, chains, Live(t.slots, t.avalid)) && i < |t.slots|
    ensures var s := t.slots[i := t.slots[i].(value := v)];
            Live(s, t.avalid) == Live(t.slots, t.avalid) && Chained(t.heads, s, chains, Live(s, t.avalid))
  {
    var s := t.slots[i := t.slots[i].(value := v)];
    assert Live(s, t.avalid) == Live(t.slots, t.avalid);
    ChainedFrame(t.heads, t.slots, s, chains, Live(t.slots, t.avalid));
  }

  lemma {:induction false} StoreFree(t: Table, free: seq<nat>, i: nat, v: Value)
    requires Sized(t) && FreeListed(t, free) && i < |t.slots|
    ensures FreeListed(t.(slots := t.slots[i := t.slots[i].(value := v)]), free)
  {
    LinkedBounds(t.slots, t.undef, free);
    LinkedFrame(t.slots, t.slots[i := t.slots[i].(value := v)], t.undef, free);
  }

  lemma {:induction false} StoreLocated(t: Table, at: map<Key, nat>, k: Key, v: Value)
    requires Sized(t) && Located(t, at) && k in at
    ensures var t' := t.(slots := t.slots[at[k] := t.slots[at[k]].(value := v)]);
            Located(t', at) && Values(t', at) == Values(t, at)[k := v]
  {
  }

  /** A slot for a new key: the first deleted one, else the next unused one. */
  function SlotFor(t: Table): int { if IndexValid(t, t.undef) then t.undef else t.avalid }

  /** The table after lines 103-120 of hashPut. */
  function Stored(t: Table, k: Key, v: Value): Table
    requires Sized(t) && 0 <= SlotFor(t) < t.max
  {
    var i, b := SlotFor(t), Bucket(k, t.max);
    Table(if IndexValid(t, t.undef) then t.avalid else t.avalid + 1, t.max, t.total + 1,
          if IndexValid(t, t.undef) then t.slots[t.undef].next else t.undef,
          t.heads[b := i], t.slots[i := Slot(k, v, t.heads[b], true)])
  }

  function StoredGhosts(t: Table, g: Ghosts, k: Key): Ghosts
    requires |g.chains| == t.max > 0 && 0 <= SlotFor(t)
  {
    var i, b := SlotFor(t), Bucket(k, t.max);
    Ghosts(g.chains[b := [i] + g.chains[b]], if g.free == [] then [] else g.free[1..], g.at[k := i])
  }

  /** A new key is stored, in whichever slot, and nothing else changes. */
  lemma {:induction false} StoredKeeps(t: Table, g: Ghosts, k: Key, v: Value)
    requires Inv(t, g) && k !in g.at && t.total < t.max
    ensures 0 <= SlotFor(t) < t.max && |g.chains| == t.max
    ensures Inv(Stored(t, k, v), StoredGhosts(t, g, k))
    ensures Contents(Stored(t, k, v), StoredGhosts(t, g, k)) == Contents(t, g)[k := v]
  {
    FreeHead(t, g);
    var i := SlotFor(t);
    var t', g' := Stored(t, k, v), StoredGhosts(t, g, k);
    StoredChains(t, g.chains, k, v);
    StoredFree(t, g.free, k, v);
    StoredLocated(t, g.at, k, v);
    StoredContents(t, g.at, k, v);
  }

  lemma {:induction false} StoredLocated(t: Table, at: map<Key, nat>, k: Key, v: Value)
    requires Sized(t) && Located(t, at) && k !in at && 0 <= SlotFor(t) < t.max
    requires SlotFor(t) < t.avalid ==> !t.slots[SlotFor(t)].def
    requires SlotFor(t) >= t.avalid ==> SlotFor(t) == t.avalid && !IndexValid(t, t.undef)
    ensures Located(Stored(t, k, v), at[k := SlotFor(t)])
  {
  }

  lemma {:induction false} StoredContents(t: Table, at: map<Key, nat>, k: Key, v: Value)
    requires Sized(t) && Located(t, at) && k !in at && 0 <= SlotFor(t) < t.max
    requires SlotFor(t) < t.avalid ==> !t.slots[SlotFor(t)].def
    requires SlotFor(t) >= t.avalid ==> SlotFor(t) == t.avalid && !IndexValid(t, t.undef)
    requires Located(Stored(t, k, v), at[k := SlotFor(t)])
    ensures Values(Stored(t, k, v), at[k := SlotFor(t)]) == Values(t, at)[k := v]
  {
  }

  lemma {:induction false} StoredChains(t: Table, chains: seq<seq<nat>>, k: Key, v: Value)
    requires Sized(t) && Chained(t.heads, t.slots, chains, Live(t.slots, t.avalid)) && 0 <= SlotFor(t) < t.max
    requires SlotFor(t) < t.avalid ==> !t.slots[SlotFor(t)].def
    requires SlotFor(t) >= t.avalid ==> SlotFor(t) == t.avalid && !IndexValid(t, t.undef)
    ensures var t', b := Stored(t, k, v), Bucket(k, t.max);
            Chained(t'.heads, t'.slots, chains[b := [SlotFor(t) as nat] + chains[b]], Live(t'.slots, t'.avalid))
  {
    var i, t' := SlotFor(t), Stored(t, k, v);
    assert Live(t'.slots, t'.avalid) == Live(t.slots, t.avalid) + {i};
    PushChain(t.heads, t.slots, chains, Live(t.slots, t.avalid), i, t'.slots[i]);
  }

  lemma {:induction false} StoredFree(t: Table, free: seq<nat>, k: Key, v: Value)
    requires Sized(t) && FreeListed(t, free) && 0 <= SlotFor(t) < t.max
    requires free != [] ==> IndexValid(t, t.undef) && t.undef == free[0]
    requires free == [] ==> !IndexValid(t, t.undef)
    ensures FreeListed(Stored(t, k, v), if free == [] then [] else free[1..])
  {
    var t' := Stored(t, k, v);
    if free != [] {
      TailIn(free);
      LinkedBounds(t.slots, t.undef, free);
      LinkedFrame(t.slots, t'.slots, t'.undef, free[1..]);
    }
  }

  // ---------------------------------------------------------------- hashRemove

  /** The table after lines 264-282 of hashRemove: slot i, preceded in its chain by parent or first in
      it (parent == NONE), goes to the front of the free list. */
  function Removed(t: Table, b: nat, i: nat, parent: int): Table
    requires i < |t.slots| && b < |t.heads| && (parent == NONE || 0 <= parent < |t.slots|) && t.total > 0
  {
    var next := t.slots[i].next;
    var s1 := if parent == NONE then t.slots else t.slots[parent := t.slots[parent].(next := next)];
    Table(t.avalid, t.max, t.total - 1, i,
          if parent == NONE then t.heads[b := next] else t.heads,
          s1[i := s1[i].(next := t.undef, value := 0, def := false)])
  }

  function RemovedGhosts(g: Ghosts, b: nat, j: nat, k: Key): Ghosts
    requires b < |g.chains| && j < |g.chains[b]|
  {
    Ghosts(g.chains[b := DropAt(g.chains[b], j)], [g.chains[b][j]] + g.free, g.at - {k})
  }

  lemma {:induction false} RemovedKeeps(t: Table, g: Ghosts, b: nat, j: nat)
    requires Inv(t, g) && b < t.max && j < |g.chains[b]|
    ensures RemovedPlace(t, g.chains[b], j)
    ensures var i, parent := g.chains[b][j], ParentAt(g.chains[b], j);
            && t.slots[i].key in g.at
            && var t', g' := Removed(t, b, i, parent), RemovedGhosts(g, b, j, t.slots[i].key);
            && Inv(t', g') && Contents(t', g') == Contents(t, g) - {t.slots[i].key}
  {
    RemovedIsPlace(t, g, b, j);
    hide Chained;
    hide FreeListed;
    hide Located;
    var i, parent := g.chains[b][j], ParentAt(g.chains[b], j);
    RemovedInv(t, g, b, j);
    RemovedLocated(t, g.at, b, i, parent);
  }

  lemma {:induction false} RemovedInv(t: Table, g: Ghosts, b: nat, j: nat)
    requires Inv(t, g) && b < t.max && b < |g.chains| && j < |g.chains[b]| && RemovedPlace(t, g.chains[b], j)
    requires var i := g.chains[b][j]; i < |t.slots| && t.slots[i].key in g.at && g.at[t.slots[i].key] == i
    ensures var i := g.chains[b][j];
            Inv(Removed(t, b, i, ParentAt(g.chains[b], j)), RemovedGhosts(g, b, j, t.slots[i].key))
  {
    hide Chained;
    hide FreeListed;
    hide Located;
    var i, parent := g.chains[b][j], ParentAt(g.chains[b], j);
    OneLess(g.at, t.slots[i].key);
    RemovedChains(t, g.chains, b, j);
    RemovedFree(t, g.free, b, i, parent);
    RemovedLocated(t, g.at, b, i, parent);
  }

  lemma {:induction false} OneLess(at: map<Key, nat>, k: Key)
    requires k in at
    ensures |at - {k}| == |at| - 1
  {
    assert (at - {k})[k := at[k]] == at;
  }

  lemma {:induction false} RemovedIsPlace(t: Table, g: Ghosts, b: nat, j: nat)
    requires Inv(t, g) && b < t.max && j < |g.chains[b]|
    ensures RemovedPlace(t, g.chains[b], j)
    ensures t.slots[g.chains[b][j]].key in g.at && g.at[t.slots[g.chains[b][j]].key] == g.chains[b][j]
  {
    ChainInTable(t, g, b, j);
    if j > 0 { ChainInTable(t, g, b, j - 1); }
    assert NoDup(g.chains[b]) by {
      assert BucketOk(t.slots, t.heads[b], g.chains[b], Live(t.slots, t.avalid), b, t.max);
    }
  }

  lemma {:induction false} RemovedLocated(t: Table, at: map<Key, nat>, b: nat, i: nat, parent: int)
    requires Sized(t) && Located(t, at) && b < t.max && i < t.avalid && t.slots[i].def && t.total > 0
    requires parent == NONE || (0 <= parent < t.avalid && t.slots[parent].def && parent != i)
    ensures Located(Removed(t, b, i, parent), at - {t.slots[i].key})
    ensures Values(Removed(t, b, i, parent), at - {t.slots[i].key}) == Values(t, at) - {t.slots[i].key}
  {
    assert t.slots[i].key in at;
  }

  /** The slot that goes and the one before it are two different live slots. */
  ghost predicate RemovedPlace(t: Table, chain: seq<nat>, j: nat) {
    && Sized(t) && j < |chain| && t.total > 0
    && chain[j] < t.avalid && t.slots[chain[j]].def
    && (j > 0 ==> chain[j - 1] < t.avalid && t.slots[chain[j - 1]].def && chain[j - 1] != chain[j])
  }

  /** The slot passed just before position j of a chain. */
  function ParentAt(chain: seq<nat>, j: nat): int
    requires j <= |chain|
  {
    if j == 0 then NONE else chain[j - 1]
  }

  lemma {:induction false} RemovedLive(t: Table, chain: seq<nat>, j: nat, b: nat)
    requires RemovedPlace(t, chain, j) && b < t.max
    ensures var t' := Removed(t, b, chain[j], ParentAt(chain, j));
            && Live(t'.slots, t'.avalid) == Live(t.slots, t.avalid) - {chain[j]}
            && Redirected(t.slots, t'.slots, chain, j, Live(t.slots, t.avalid))
            && t'.heads == if j == 0 then t.heads[b := t.slots[chain[j]].next] else t.heads
  {
  }

  lemma {:induction false} RemovedChains(t: Table, chains: seq<seq<nat>>, b: nat, j: nat)
    requires Sized(t) && Chained(t.heads, t.slots, chains, Live(t.slots, t.avalid)) && b < t.max
    requires RemovedPlace(t, chains[b], j)
    ensures var t' := Removed(t, b, chains[b][j], ParentAt(chains[b], j));
            Chained(t'.heads, t'.slots, chains[b := DropAt(chains[b], j)], Live(t'.slots, t'.avalid))
  {
    RemovedLive(t, chains[b], j, b);
    DropChain(t.heads, t.slots, Removed(t, b, chains[b][j], ParentAt(chains[b], j)).slots, chains, Live(t.slots, t.avalid), b, j);
  }

  lemma {:induction false} RemovedFree(t: Table, free: seq<nat>, b: nat, i: nat, parent: int)
    requires Sized(t) && FreeListed(t, free) && b < t.max && i < t.avalid && t.slots[i].def && t.total > 0
    requires parent == NONE || (0 <= parent < t.avalid && t.slots[parent].def && parent != i)
    ensures FreeListed(Removed(t, b, i, parent), [i] + free)
  {
    var t' := Removed(t, b, i, parent);
    LinkedBounds(t.slots, t.undef, free);
    LinkedFrame(t.slots, t'.slots, t.undef, free);
    assert ([i] + free)[1..] == free;
  }
}
