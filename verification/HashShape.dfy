/** The slots, chains and free list of src/map/hash.c as values. */
module HashShape {
  import opened Wrappers

  /** A mapValue pointer. */
  type Value = int

  /** mapKey: a 64-bit number and, when str is not NULL, a string. */
  datatype Key = Key(h: nat, str: Option<string>)

  /** struct node. */
  datatype Slot = Slot(key: Key, value: Value, next: int, def: bool)

  /** HASH_KEY_DEFAULT_INDEX, the (uint32_t)-1 that ends every chain. */
  const NONE: int := 0xFFFF_FFFF

  const BLANK := Slot(Key(0, None), 0, 0, false)

  // ---------------------------------------------------------------- keys

  /** hashCode (map.c:66-81), in uint64_t. */
  function HashCode(s: string): nat {
    if s == "" then 0 else (HashCode(s[..|s| - 1]) * 31 + s[|s| - 1] as int) % 0x1_0000_0000_0000_0000
  }

  /** The hash is squeezed through an int on its way into the key (hash.c:33-36). */
  function Squeezed(h: nat): nat {
    var low := h % 0x1_0000_0000;
    if low < 0x8000_0000 then low else low + 0xFFFF_FFFF_0000_0000
  }

  /** What getHashKey turns a key into before it is compared or stored. */
  function Norm(k: Key): Key {
    if k.h == 0 && k.str.Some? && k.str.value != "" then Key(Squeezed(HashCode(k.str.value)), k.str) else k
  }

  lemma NormTwice(k: Key)
    ensures Norm(Norm(k)) == Norm(k)
  {
  }

  /** The string of a key stays; its number stays unless it is 0 and there is a string to take it from. */
  lemma {:induction false} NormIs(k: Key)
    ensures Norm(k).str == k.str
    ensures k.h != 0 || k.str == None || k.str == Some("") ==> Norm(k) == k
    ensures k.h == 0 && k.str.Some? && k.str.value != "" ==>
              Norm(k).h % 0x1_0000_0000 == HashCode(k.str.value) % 0x1_0000_0000
              && (Norm(k).h < 0x8000_0000 || 0xFFFF_FFFF_8000_0000 <= Norm(k).h < 0x1_0000_0000_0000_0000)
  {
  }

  /** Two keys with no number of their own are one exactly if they have the same string, whatever their hash codes. Any
      two keys are one exactly if they have the same string and the same number, the one a string gives included. */
  lemma {:induction false} NormSame(a: Key, b: Key)
    ensures a.h == 0 && b.h == 0 ==> (Norm(a) == Norm(b) <==> a.str == b.str)
    ensures a.h != 0 && b.h != 0 ==> (Norm(a) == Norm(b) <==> a == b)
    ensures a.h == 0 && b.h != 0 ==> (Norm(a) == Norm(b) <==> a.str == b.str && Norm(a).h == b.h)
  {
  }

  /** isHashKeyEqual. */
  function KeyEqual(tmpKey: Key, key: Key): (r: bool)
    ensures r <==> tmpKey.h == key.h && tmpKey.str == key.str
  {
    if tmpKey.h != key.h then false
    else if tmpKey.str == None && key.str == None then true
    else if (tmpKey.str == None && key.str.Some?) || (tmpKey.str.Some? && key.str == None) then false
    else tmpKey.str.value == key.str.value
  }

  /** The code of a string, carried on: each character counts for 31 times what the next one does. */
  lemma {:induction false} HashCodeMore(s: string, c: char)
    ensures HashCode(s + [c]) == (HashCode(s) * 31 + c as int) % 0x1_0000_0000_0000_0000 && HashCode("") == 0
  {
    assert (s + [c])[..|s|] == s;
  }

  /** The bucket of a key: its offset from the start of the index area. */
  function Bucket(k: Key, max: nat): (b: nat)
    requires max > 0
    ensures b < max
  {
    k.h % max
  }

  predicate PowerOfTwo(n: nat) { n == 1 || (n > 1 && n % 2 == 0 && PowerOfTwo(n / 2)) }

  /** The or of two n-bit numbers, bit by bit. */
  function Or(a: nat, b: nat, n: nat): nat
    decreases n
  {
    if n == 0 then 0 else 2 * Or(a / 2, b / 2, n - 1) + if a % 2 == 1 || b % 2 == 1 then 1 else 0
  }

  function TwoTo(n: nat): (p: nat)
    ensures p > 0
  {
    if n == 0 then 1 else 2 * TwoTo(n - 1)
  }

  /** The end of getHashKey (hash.c:41) for integers of n bits (32 there): the low bits of the key, or -max.
      The index area lies below the slots, so the result is negative. */
  function KeyIndex(h: nat, max: nat, n: nat): int
    requires max <= TwoTo(n)
  {
    Or(h % TwoTo(n), TwoTo(n) - max, n) - TwoTo(n)
  }

  /** Or-ing in -max counts up from -max by the low bits of the key, which are the key modulo max. */
  lemma {:induction false} OrCounts(k: nat, max: nat, n: nat)
    requires PowerOfTwo(max) && max <= TwoTo(n)
    ensures Or(k, TwoTo(n) - max, n) == TwoTo(n) - max + k % max
    decreases n
  {
    if max == 1 {
      OrOnes(k, n);
    } else {
      OrCounts(k / 2, max / 2, n - 1);
      assert (TwoTo(n) - max) / 2 == TwoTo(n - 1) - max / 2 && (TwoTo(n) - max) % 2 == 0;
      ModHalves(k, max / 2);
    }
  }

  lemma {:induction false} OrOnes(k: nat, n: nat)
    ensures Or(k, TwoTo(n) - 1, n) == TwoTo(n) - 1
    decreases n
  {
    if n > 0 {
      assert (TwoTo(n) - 1) / 2 == TwoTo(n - 1) - 1 && (TwoTo(n) - 1) % 2 == 1;
      OrOnes(k / 2, n - 1);
    }
  }

  lemma {:induction false} ModHalves(k: nat, m: nat)
    requires m > 0
    ensures k % (2 * m) == 2 * ((k / 2) % m) + k % 2
  {
    var q, r := (k / 2) / m, (k / 2) % m;
    assert k == 2 * (q * m + r) + k % 2;
    assert q * (2 * m) == 2 * (q * m);
    SameDivision(q, 2 * r + k % 2, k / (2 * m), k % (2 * m), 2 * m);
  }

  lemma {:induction false} Distribute(a: int, n: int, d: int)
    ensures (a + n) * d == a * d + n * d
  {
  }

  lemma {:induction false} AtLeast(n: nat, d: nat)
    requires n > 0
    ensures n * d >= d
    decreases n
  {
    if n > 1 { AtLeast(n - 1, d); Distribute(n - 1, 1, d); }
  }

  lemma {:induction false} NotMore(q: int, r: int, p: int, t: int, d: int)
    requires 0 <= r < d && 0 <= t < d && q * d + r == p * d + t
    ensures q <= p
  {
    if q > p {
      AtLeast(q - p, d);
      Distribute(p, q - p, d);
    }
  }

  lemma {:induction false} SameDivision(q: int, r: int, p: int, t: int, d: int)
    requires 0 <= r < d && 0 <= t < d && q * d + r == p * d + t
    ensures r == t
  {
    NotMore(q, r, p, t, d);
    NotMore(p, t, q, r, d);
  }

  /** Only the low 32 bits of the key matter. */
  lemma {:induction false} LowHalf(h: nat, max: nat, n: nat)
    requires PowerOfTwo(max) && max <= TwoTo(n)
    ensures (h % TwoTo(n)) % max == h % max
    decreases n
  {
    if max > 1 {
      LowHalf(h / 2, max / 2, n - 1);
      ModHalves(h, TwoTo(n - 1));
      var low := (h / 2) % TwoTo(n - 1);
      ModHalves(2 * low + h % 2, max / 2);
      ModHalves(h, max / 2);
    }
  }

  /** getHashKey addresses exactly the bucket the model uses, counted from the start of the index area. */
  lemma {:induction false} OffsetIsBucket(k: Key, max: nat, n: nat)
    requires PowerOfTwo(max) && max <= TwoTo(n)
    ensures KeyIndex(k.h, max, n) < 0 && KeyIndex(k.h, max, n) + max == Bucket(k, max)
  {
    OrCounts(k.h % TwoTo(n), max, n);
    LowHalf(k.h, max, n);
  }

  lemma {:induction false} TwoTo32()
    ensures TwoTo(32) == 0x1_0000_0000
  {
    Eightfold(0);
    Eightfold(8);
    Eightfold(16);
    Eightfold(24);
  }

  lemma {:induction false} Eightfold(n: nat)
    ensures TwoTo(n + 8) == 256 * TwoTo(n)
  {
    assert TwoTo(n + 2) == 4 * TwoTo(n) && TwoTo(n + 4) == 4 * TwoTo(n + 2);
    assert TwoTo(n + 6) == 4 * TwoTo(n + 4) && TwoTo(n + 8) == 4 * TwoTo(n + 6);
  }

  // ---------------------------------------------------------------- linked slots

  /** Following next from head visits exactly the slots of chain, in order, and ends in NONE. */
  ghost predicate Linked(slots: seq<Slot>, head: int, chain: seq<nat>)
    decreases chain
  {
    if chain == [] then head == NONE
    else head == chain[0] && chain[0] < |slots| && Linked(slots, slots[chain[0]].next, chain[1..])
  }

  ghost predicate NoDup(s: seq<nat>) {
    forall i, j :: 0 <= i < j < |s| ==> s[i] != s[j]
  }

  lemma TailIn(s: seq<nat>)
    requires s != []
    ensures forall i :: i in s[1..] ==> i in s
    ensures forall i :: i in s ==> i == s[0] || i in s[1..]
  {
    assert s == [s[0]] + s[1..];
  }

  lemma {:induction false} LinkedFrame(slots: seq<Slot>, slots': seq<Slot>, head: int, chain: seq<nat>)
    requires Linked(slots, head, chain)
    requires forall i :: i in chain ==> i < |slots| && i < |slots'| && slots'[i].next == slots[i].next
    ensures Linked(slots', head, chain)
    decreases chain
  {
    if chain != [] {
      TailIn(chain);
      LinkedFrame(slots, slots', slots[chain[0]].next, chain[1..]);
    }
  }

  lemma {:induction false} LinkedBounds(slots: seq<Slot>, head: int, chain: seq<nat>)
    requires Linked(slots, head, chain)
    ensures forall i :: i in chain ==> i < |slots|
    decreases chain
  {
    if chain != [] {
      TailIn(chain);
      LinkedBounds(slots, slots[chain[0]].next, chain[1..]);
    }
  }

  /** The j-th slot of a chain, and the chain from there on. */
  lemma {:induction false} LinkedAt(slots: seq<Slot>, head: int, chain: seq<nat>, j: nat)
    requires Linked(slots, head, chain) && j < |chain|
    ensures chain[j] < |slots| && Linked(slots, slots[chain[j]].next, chain[j + 1..])
    ensures j > 0 ==> chain[j - 1] < |slots| && slots[chain[j - 1]].next == chain[j]
    ensures slots[chain[j]].next == if j + 1 < |chain| then chain[j + 1] else NONE
    decreases chain
  {
    LinkedBounds(slots, head, chain);
    if j > 0 {
      LinkedAt(slots, slots[chain[0]].next, chain[1..], j - 1);
      assert chain[1..][j..] == chain[j + 1..];
    }
  }

  function DropAt(s: seq<nat>, j: nat): seq<nat>
    requires j < |s|
  {
    s[..j] + s[j + 1..]
  }

  lemma {:induction false} WithoutElements(s: seq<nat>, j: nat)
    requires j < |s| && NoDup(s)
    ensures NoDup(DropAt(s, j))
    ensures forall i :: i in DropAt(s, j) <==> i in s && i != s[j]
  {
    var w := DropAt(s, j);
    forall i | i in s && i != s[j] ensures i in w {
      var x :| 0 <= x < |s| && s[x] == i;
      assert if x < j then w[x] == i else w[x - 1] == i;
    }
    forall i | i in w ensures i in s && i != s[j] {
      var x :| 0 <= x < |w| && w[x] == i;
      assert if x < j then s[x] == i else s[x + 1] == i;
    }
  }

  /** Redirecting the link into a slot to its successor takes the slot out of the chain. */
  lemma {:induction false} LinkedSkip(slots: seq<Slot>, slots': seq<Slot>, head: int, chain: seq<nat>, j: nat)
    requires Linked(slots, head, chain) && NoDup(chain) && j < |chain| && |slots'| == |slots|
    requires forall i :: i in chain && i != chain[j] && (j == 0 || i != chain[j - 1]) ==>
                           i < |slots| && slots'[i].next == slots[i].next
    requires chain[j] < |slots| && (j > 0 ==> chain[j - 1] < |slots| && slots'[chain[j - 1]].next == slots[chain[j]].next)
    ensures Linked(slots', if j == 0 then slots[chain[0]].next else head, DropAt(chain, j))
    decreases chain
  {
    var w := DropAt(chain, j);
    TailIn(chain);
    if j == 0 {
      assert w == chain[1..];
      LinkedFrame(slots, slots', slots[chain[0]].next, chain[1..]);
    } else if j == 1 {
      LinkedAt(slots, head, chain, 1);
      assert w[1..] == chain[2..] == chain[1..][1..];
      TailIn(chain[1..]);
      LinkedFrame(slots, slots', slots[chain[1]].next, chain[2..]);
    } else {
      assert w[1..] == DropAt(chain[1..], j - 1);
      LinkedSkip(slots, slots', slots[chain[0]].next, chain[1..], j - 1);
    }
  }

  // ---------------------------------------------------------------- the index area

  /** The chain of bucket b is spelled out by the links, without repetition, and every slot on it is
      live and hashes to b. */
  ghost predicate BucketOk(slots: seq<Slot>, head: int, chain: seq<nat>, live: set<nat>, b: nat, max: nat)
    requires max > 0
  {
    && Linked(slots, head, chain) && NoDup(chain)
    && forall i :: i in chain ==> i in live && i < |slots| && Bucket(slots[i].key, max) == b
  }

  /** Every live slot lies in exactly one chain: the one its key hashes to. */
  ghost predicate Chained(heads: seq<int>, slots: seq<Slot>, chains: seq<seq<nat>>, live: set<nat>) {
    && |heads| == |chains| > 0
    && (forall b :: 0 <= b < |heads| ==> BucketOk(slots, heads[b], chains[b], live, b, |heads|))
    && (forall i :: i in live ==> i < |slots| && i in chains[Bucket(slots[i].key, |heads|)])
  }

  /** Slots outside the chains may change at will; inside, anything but key and next. */
  lemma {:induction false} ChainedFrame(heads: seq<int>, slots: seq<Slot>, slots': seq<Slot>, chains: seq<seq<nat>>, live: set<nat>)
    requires Chained(heads, slots, chains, live)
    requires forall i :: i in live ==> i < |slots'| && i < |slots| && slots'[i].next == slots[i].next && slots'[i].key == slots[i].key
    ensures Chained(heads, slots', chains, live)
  {
    forall b | 0 <= b < |heads| ensures BucketOk(slots', heads[b], chains[b], live, b, |heads|) {
      LinkedFrame(slots, slots', heads[b], chains[b]);
    }
  }

  /** A bucket that a store does not concern. */
  lemma {:induction false} BucketFrame(slots: seq<Slot>, slots': seq<Slot>, head: int, chain: seq<nat>, live: set<nat>, live': set<nat>, b: nat, max: nat)
    requires max > 0 && BucketOk(slots, head, chain, live, b, max)
    requires forall i :: i in chain ==> i in live' && i < |slots'| && slots'[i].next == slots[i].next && slots'[i].key == slots[i].key
    ensures BucketOk(slots', head, chain, live', b, max)
  {
    LinkedFrame(slots, slots', head, chain);
  }

  lemma {:induction false} PushLinked(slots: seq<Slot>, head: int, chain: seq<nat>, live: set<nat>, i: nat, s: Slot, b: nat, max: nat)
    requires max > 0 && BucketOk(slots, head, chain, live, b, max)
    requires i !in live && i < |slots| && s.next == head && Bucket(s.key, max) == b
    ensures BucketOk(slots[i := s], i, [i] + chain, live + {i}, b, max)
  {
    LinkedFrame(slots, slots[i := s], head, chain);
    assert ([i] + chain)[1..] == chain;
  }

  /** HASH_NEXT(current) = HASH_KEY(index); HASH_KEY(index) = slot: a slot enters at the front of its chain. */
  lemma {:induction false} PushChain(heads: seq<int>, slots: seq<Slot>, chains: seq<seq<nat>>, live: set<nat>, i: nat, s: Slot)
    requires Chained(heads, slots, chains, live) && i !in live && i < |slots|
    requires s.next == heads[Bucket(s.key, |heads|)]
    ensures var b := Bucket(s.key, |heads|);
            Chained(heads[b := i], slots[i := s], chains[b := [i] + chains[b]], live + {i})
  {
    var b := Bucket(s.key, |heads|);
    var heads', slots', chains', live' := heads[b := i], slots[i := s], chains[b := [i] + chains[b]], live + {i};
    forall x | 0 <= x < |heads'| ensures BucketOk(slots', heads'[x], chains'[x], live', x, |heads'|) {
      if x == b {
        PushLinked(slots, heads[b], chains[b], live, i, s, b, |heads|);
      } else {
        BucketFrame(slots, slots', heads[x], chains[x], live, live', x, |heads|);
      }
    }
  }

  /** The chain a slot leaves, spelled out by the redirected links. */
  ghost predicate Redirected(slots: seq<Slot>, slots': seq<Slot>, chain: seq<nat>, j: nat, live: set<nat>) {
    && j < |chain| && |slots'| == |slots| && chain[j] < |slots| && (j > 0 ==> chain[j - 1] < |slots|)
    && forall i :: i in live && i != chain[j] ==>
         i < |slots| && slots'[i].key == slots[i].key
         && slots'[i].next == if j > 0 && i == chain[j - 1] then slots[chain[j]].next else slots[i].next
  }

  lemma {:induction false} DropLinked(slots: seq<Slot>, slots': seq<Slot>, head: int, chain: seq<nat>, live: set<nat>, b: nat, max: nat, j: nat)
    requires max > 0 && BucketOk(slots, head, chain, live, b, max) && Redirected(slots, slots', chain, j, live)
    ensures BucketOk(slots', if j == 0 then slots[chain[0]].next else head, DropAt(chain, j), live - {chain[j]}, b, max)
  {
    WithoutElements(chain, j);
    LinkedSkip(slots, slots', head, chain, j);
  }

  /** The slot leaves its chain. Its own next may be anything afterwards. */
  lemma {:induction false} DropChain(heads: seq<int>, slots: seq<Slot>, slots': seq<Slot>, chains: seq<seq<nat>>, live: set<nat>, b: nat, j: nat)
    requires Chained(heads, slots, chains, live) && b < |heads| && Redirected(slots, slots', chains[b], j, live)
    ensures var i := chains[b][j];
            Chained(if j == 0 then heads[b := slots[i].next] else heads, slots', chains[b := DropAt(chains[b], j)], live - {i})
  {
    var i := chains[b][j];
    var heads' := if j == 0 then heads[b := slots[i].next] else heads;
    var chains', live' := chains[b := DropAt(chains[b], j)], live - {i};
    assert BucketOk(slots, heads[b], chains[b], live, b, |heads|);
    WithoutElements(chains[b], j);
    forall x | 0 <= x < |heads'| ensures BucketOk(slots', heads'[x], chains'[x], live', x, |heads'|) {
      if x == b {
        DropLinked(slots, slots', heads[b], chains[b], live, b, |heads|, j);
      } else {
        assert j > 0 ==> chains[b][j - 1] in chains[b];
        BucketFrame(slots, slots', heads[x], chains[x], live, live', x, |heads|);
      }
    }
  }

  // ---------------------------------------------------------------- the whole table

  /** The fields of struct hash. heads is the index area, slots the node area. */
  datatype Table = Table(avalid: nat, max: nat, total: nat, undef: int, heads: seq<int>, slots: seq<Slot>)

  /** What the links spell out: the chain of every bucket, the free list, and where each key is. */
  datatype Ghosts = Ghosts(chains: seq<seq<nat>>, free: seq<nat>, at: map<Key, nat>)

  function Live(slots: seq<Slot>, n: nat): set<nat>
    requires n <= |slots|
  {
    set i | 0 <= i < n && slots[i].def
  }

  predicate Sized(t: Table) {
    8 <= t.max < NONE && PowerOfTwo(t.max) && |t.heads| == |t.slots| == t.max && t.avalid <= t.max
  }

  /** The free list visits exactly the deleted slots. */
  ghost predicate FreeListed(t: Table, free: seq<nat>)
    requires t.avalid <= |t.slots|
  {
    && Linked(t.slots, t.undef, free) && NoDup(free)
    && (forall i :: i in free ==> i < t.avalid)
    && (forall i :: 0 <= i < t.avalid ==> (i in free <==> !t.slots[i].def))
  }

  /** at finds each key's slot; no key has two. */
  ghost predicate Located(t: Table, at: map<Key, nat>)
    requires t.avalid <= |t.slots|
  {
    && (forall k :: k in at ==> at[k] < t.avalid && t.slots[at[k]].def && t.slots[at[k]].key == k)
    && (forall i :: 0 <= i < t.avalid && t.slots[i].def ==> t.slots[i].key in at && at[t.slots[i].key] == i)
  }

  ghost predicate Inv(t: Table, g: Ghosts) {
    && Sized(t)
    && Chained(t.heads, t.slots, g.chains, Live(t.slots, t.avalid))
    && FreeListed(t, g.free)
    && Located(t, g.at)
    && t.total == |g.at| && t.total + |g.free| == t.avalid
  }

  function Values(t: Table, at: map<Key, nat>): map<Key, Value>
    requires forall k :: k in at ==> at[k] < |t.slots|
  {
    map k | k in at :: t.slots[at[k]].value
  }

  /** The finite map the table stands for. */
  ghost function Contents(t: Table, g: Ghosts): map<Key, Value>
    requires Inv(t, g)
  {
    Values(t, g.at)
  }
}
