/** A whole life of the hash table (src/map/hash.c): any run of calls does to it what it does to a finite map. */
module HashRun {
  import opened Wrappers
  import opened HashShape
  import opened HashTable

  /** mallocOk says whether malloc grants a larger block, should one be needed. */
  datatype Op = Put(key: Key, value: Value, mallocOk: bool) | Remove(key: Key) | Get(key: Key) | Resize(mallocOk: bool)

  /** A finite map with a capacity. */
  datatype Store = Store(m: map<Key, Value>, max: nat)

  /** A new key is refused only by a full table that cannot grow. */
  function Applied(s: Store, op: Op): Store {
    match op
    case Put(key, value, mallocOk) =>
      var max := if |s.m| >= s.max && mallocOk && s.max < 0x8000_0000 then 2 * s.max else s.max;
      Store(if Norm(key) in s.m || |s.m| < max then s.m[Norm(key) := value] else s.m, max)
    case Remove(key) =>
      var m := s.m - {Norm(key)};
      Store(m, if Norm(key) in s.m then Resized(|m|, s.max, true) else s.max)
    case Get(_) => s
    case Resize(mallocOk) => s.(max := Resized(|s.m|, s.max, mallocOk))
  }

  /** What the call returns: the value that was there. */
  function Answer(s: Store, op: Op): Option<Value> {
    if op.Resize? then None else if Norm(op.key) in s.m then Some(s.m[Norm(op.key)]) else None
  }

  /** The map after a run, and the answers on the way. */
  function After(s: Store, ops: seq<Op>): Store {
    if ops == [] then s else Applied(After(s, ops[..|ops| - 1]), ops[|ops| - 1])
  }

  function Answers(s: Store, ops: seq<Op>): seq<Option<Value>> {
    if ops == [] then []
    else Answers(s, ops[..|ops| - 1]) + [Answer(After(s, ops[..|ops| - 1]), ops[|ops| - 1])]
  }

  /** Whatever grows, shrinks and is compacted on the way, and whatever malloc refuses, every answer, the contents and
      the capacity at the end are those of that map; there are always at least eight slots, at least as many as keys,
      and their number is a power of two. */
  method RunAll(t: HashMap, ops: seq<Op>) returns (answers: seq<Option<Value>>)
    requires t.Valid()
    modifies t
    ensures t.Valid() && Store(t.Map(), t.max) == After(old(Store(t.Map(), t.max)), ops)
    ensures answers == Answers(old(Store(t.Map(), t.max)), ops)
    ensures 8 <= t.max && t.total <= t.max && PowerOfTwo(t.max) && t.total == |t.Map()|
  {
    hide Inv;
    hide Applied;
    hide Answer;
    ghost var s := Store(t.Map(), t.max);
    answers := [];
    assert ops[..0] == [];
    var i := 0;
    while i < |ops|
      invariant i <= |ops| && t.Valid() && Store(t.Map(), t.max) == After(s, ops[..i]) && answers == Answers(s, ops[..i])
      decreases |ops| - i
    {
      ghost var next := ops[..i + 1];
      assert next[..i] == ops[..i] && next[i] == ops[i];
      var answer := RunOne(t, ops[i]);
      answers := answers + [answer];
      i := i + 1;
    }
    assert ops[..i] == ops;
    ValidSizes(t);
  }

  method RunOne(t: HashMap, op: Op) returns (answer: Option<Value>)
    requires t.Valid()
    modifies t
    ensures t.Valid() && Store(t.Map(), t.max) == Applied(old(Store(t.Map(), t.max)), op)
    ensures answer == Answer(old(Store(t.Map(), t.max)), op)
  {
    hide Inv;
    hide Resized;
    ValidSizes(t);
    answer := None;
    match op {
      case Put(key, value, mallocOk) => answer := t.Put(key, value, mallocOk);
      case Remove(key) => answer := t.Remove(key);
      case Get(key) => answer := t.Get(key);
      case Resize(mallocOk) => var _ := t.Resize(mallocOk);
    }
    ValidSizes(t);
  }

  lemma {:induction false} ValidSizes(t: HashMap)
    requires t.Valid()
    ensures 8 <= t.max && t.total <= t.max && PowerOfTwo(t.max) && t.total == |t.Map()|
  {
    assert t.Map().Keys == t.g.at.Keys;
  }
}
