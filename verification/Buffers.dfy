/** src/types.c: the growable byte buffer, the array of buffers, and moving buffers from one array to another. */
module Buffers {
  import opened Decimal

  const MAX_QUERY_SIZE := 1024 * 1024 * 1024
  const PER_IOBUF_SIZE := 16384
  const PER_BUF_ARRAY_SIZE := 60

  // ---------------------------------------------------------------- all buffers in a row

  function Flat(ss: seq<seq<Byte>>): seq<Byte> {
    if ss == [] then [] else Flat(ss[..|ss| - 1]) + ss[|ss| - 1]
  }

  lemma {:induction false} FlatAppend(a: seq<seq<Byte>>, b: seq<seq<Byte>>)
    ensures Flat(a + b) == Flat(a) + Flat(b)
  {
    if b == [] {
      assert a + b == a;
    } else {
      assert (a + b)[..|a + b| - 1] == a + b[..|b| - 1];
      FlatAppend(a, b[..|b| - 1]);
    }
  }

  lemma {:induction false} FlatOne(s: seq<Byte>)
    ensures Flat([s]) == s
  {
    var none: seq<seq<Byte>> := [s][..0];
    assert none == [] && Flat(none) == [];
  }

  // ---------------------------------------------------------------- one buffer

  /** How much a block grows when it is `extra` units too small and grows by multiples of `unit`. */
  function Growth(extra: nat, unit: nat): (size: nat)
    requires extra > 0 && unit > 0
    ensures extra <= size < extra + unit
  {
    DivisionRemainder(extra + unit - 1, unit);
    (extra + unit - 1) / unit * unit
  }

  lemma {:induction false} DivisionRemainder(n: nat, unit: nat)
    requires unit > 0
    ensures n - unit < n / unit * unit <= n
  {
    assert n == n / unit * unit + n % unit;
  }

  lemma {:induction false} Joined<T>(now: seq<T>, was: seq<T>, add: seq<T>)
    requires |was| + |add| <= |now|
    requires forall i :: 0 <= i < |was| ==> now[i] == was[i]
    requires forall i :: 0 <= i < |add| ==> now[|was| + i] == add[i]
    ensures now[..|was| + |add|] == was + add
  {
    assert forall i :: |was| <= i < |was| + |add| ==> now[i] == now[|was| + (i - |was|)];
  }

  lemma {:induction false} RestLonger(was: seq<Byte>, add: seq<Byte>, from: nat)
    requires from <= |was|
    ensures (was + add)[from..] == was[from..] + add
  {
  }

  /** memcpy behind what is there. */
  method CopyIn(buf: array<Byte>, at: nat, add: seq<Byte>)
    requires at + |add| <= buf.Length
    modifies buf
    ensures buf[..at + |add|] == old(buf[..at]) + add
  {
    ghost var was := buf[..at];
    forall i | 0 <= i < |add| {
      buf[at + i] := add[i];
    }
    Joined(buf[..], was, add);
  }

  class Buffer {
    var buf: array<Byte>
    var max: nat
    var rpos: nat
    var wpos: nat
    var used: nat

    ghost predicate Valid()
      reads this
    {
      max == buf.Length && rpos <= wpos <= max && used == wpos
    }

    /** All that was written, including what has been read already. */
    ghost function Text(): seq<Byte>
      requires Valid()
      reads this, buf
    {
      buf[..wpos]
    }

    /** What was written and not yet read. */
    ghost function Unread(): seq<Byte>
      requires Valid()
      reads this, buf
    {
      buf[rpos..wpos]
    }

    /** newBuff. */
    constructor ()
      ensures Valid() && Text() == [] && rpos == 0 && fresh(buf)
    {
      max := PER_IOBUF_SIZE + 1;
      buf := new Byte[PER_IOBUF_SIZE + 1](_ => NUL);
      rpos, wpos, used := 0, 0, 0;
    }

    /** resizeBuff: realloc to another size. What was written must still fit. */
    method Resize(addSize: int)
      requires Valid() && wpos <= max + addSize
      modifies this
      ensures Valid() && Text() == old(Text()) && rpos == old(rpos) && max == old(max) + addSize
      ensures buf == old(buf) || fresh(buf)
    {
      if addSize == 0 {
        return;
      }
      var newBuf := new Byte[max + addSize](_ => NUL);
      forall i | 0 <= i < wpos {
        newBuf[i] := buf[i];
      }
      assert newBuf[..wpos] == buf[..wpos];
      max := max + addSize;
      buf := newBuf;
    }

    /** addBuff. */
    method Add(add: seq<Byte>)
      requires Valid()
      modifies this, buf
      ensures Valid() && rpos == old(rpos)
      ensures Text() == old(Text()) + add && Unread() == old(Unread()) + add
      ensures buf == old(buf) || fresh(buf)
    {
      var extra := |add| - (max - wpos);
      if extra > 0 {
        Resize(Growth(extra, PER_IOBUF_SIZE + 1)); // repaired: types.c:370-375 rounds down
        // repaired: types.c:381 adds len to used here and again below
      }
      RestLonger(buf[..wpos], add, rpos);
      CopyIn(buf, wpos, add);
      wpos := wpos + |add|;
      used := used + |add|;
    }

    /** srangeBuff: the first `current` bytes go, and reading starts again at the front. */
    method SRange(current: nat)
      requires Valid()
      modifies this, buf
      ensures Valid() && buf == old(buf) && max == old(max) && rpos == 0
      ensures Text() == Unread() == old(if current <= wpos then Text()[current..] else [])
    {
      rpos := 0;
      if current >= wpos {
        wpos := 0;
        used := 0;
        return;
      }
      wpos := wpos - current;
      used := used - current;
      ghost var was := buf[..];
      forall i | 0 <= i < wpos {
        buf[i] := buf[i + current];
      }
      assert buf[..wpos] == was[current..current + wpos];
    }

    /** What baseRead does with the bytes it received. */
    method Receive(bytes: seq<Byte>)
      requires Valid() && |bytes| <= PER_IOBUF_SIZE
      modifies this, buf
      ensures Valid() && rpos == old(rpos) && Text() == old(Text()) + bytes
      ensures buf == old(buf) || fresh(buf)
    {
      if max - wpos < PER_IOBUF_SIZE {
        Resize(PER_IOBUF_SIZE);
      }
      CopyIn(buf, wpos, bytes);
      wpos := wpos + |bytes|;
      if wpos > used {
        used := wpos;
      }
    }
  }

  datatype Op = Append(bytes: seq<Byte>) | Drop(n: nat)

  /** A byte sequence under appends and drops at the front. */
  function Applied(text: seq<Byte>, ops: seq<Op>): seq<Byte> {
    if ops == [] then text
    else
      var before := Applied(text, ops[..|ops| - 1]);
      match ops[|ops| - 1]
      case Append(bytes) => before + bytes
      case Drop(n) => if n <= |before| then before[n..] else []
  }

  function Appended(ops: seq<Op>): seq<Byte> {
    if ops == [] then []
    else Appended(ops[..|ops| - 1]) + match ops[|ops| - 1] case Append(bytes) => bytes case Drop(n) => []
  }

  /** Nothing but a beginning of what was there and was added is ever missing. */
  lemma {:induction false} AppliedIsRest(text: seq<Byte>, ops: seq<Op>) returns (dropped: nat)
    ensures dropped <= |text + Appended(ops)| && Applied(text, ops) == (text + Appended(ops))[dropped..]
    decreases |ops|
  {
    if ops == [] {
      dropped := 0;
      assert text + [] == text;
    } else {
      var add := Appended(ops[..|ops| - 1]);
      dropped := AppliedIsRest(text, ops[..|ops| - 1]);
      match ops[|ops| - 1]
      case Append(bytes) =>
        RestMore(text, add, dropped, bytes);
      case Drop(n) =>
        assert add + [] == add;
        RestLess(text + add, dropped, n);
        dropped := if n <= |text + add| - dropped then dropped + n else |text + add|;
    }
  }

  lemma {:induction false} RestMore(text: seq<Byte>, add: seq<Byte>, dropped: nat, bytes: seq<Byte>)
    requires dropped <= |text + add|
    ensures (text + add)[dropped..] + bytes == (text + (add + bytes))[dropped..]
  {
    assert text + (add + bytes) == (text + add) + bytes;
  }

  lemma {:induction false} RestLess(all: seq<Byte>, dropped: nat, n: nat)
    requires dropped <= |all|
    ensures n <= |all| - dropped ==> all[dropped..][n..] == all[dropped + n..]
  {
  }

  /** The growable buffer is that byte sequence, over any run of addBuff and srangeBuff. */
  method RunOps(b: Buffer, ops: seq<Op>)
    requires b.Valid() && b.rpos == 0
    modifies b, b.buf
    ensures b.Valid() && b.rpos == 0 && b.Unread() == Applied(old(b.Unread()), ops)
  {
    ghost var text := b.Unread();
    var i := 0;
    assert ops[..0] == [];
    while i < |ops|
      invariant i <= |ops| && b.Valid() && b.rpos == 0 && b.Text() == b.Unread() == Applied(text, ops[..i])
      invariant b.buf == old(b.buf) || fresh(b.buf)
      decreases |ops| - i
    {
      assert ops[..i + 1][..i] == ops[..i];
      match ops[i] {
        case Append(bytes) => b.Add(bytes);
        case Drop(n) => b.SRange(n);
      }
      i := i + 1;
    }
    assert ops[..i] == ops;
  }

  // ---------------------------------------------------------------- the array of buffers

  /** A buffer as an element of an array of buffers: the null pointer, or what was written to it and how
      much of that has been read. Buffer's methods say what happens inside. */
  datatype Slot = Null | Buff(text: seq<Byte>, rpos: nat) {
    predicate Valid() { Buff? && rpos <= |text| }

    function Unread(): seq<Byte>
      requires Valid()
    {
      text[rpos..]
    }
  }

  predicate AllValid(slots: seq<Slot>) { forall i :: 0 <= i < |slots| ==> slots[i].Valid() }

  function Unreads(slots: seq<Slot>): (queue: seq<seq<Byte>>)
    requires AllValid(slots)
    ensures |queue| == |slots| && forall i :: 0 <= i < |slots| ==> queue[i] == slots[i].Unread()
  {
    seq(|slots|, i requires 0 <= i < |slots| => slots[i].Unread())
  }

  lemma {:induction false} UnreadsMore(slots: seq<Slot>, rpos: nat, add: seq<Byte>)
    requires AllValid(slots) && rpos <= |slots|
    ensures var more := slots + [Buff(add, 0)];
            AllValid(more) && Unreads(more)[rpos..] == Unreads(slots)[rpos..] + [add]
  {
  }

  lemma {:induction false} UnreadsLonger(slots: seq<Slot>, rpos: nat, k: nat, add: seq<Byte>)
    requires AllValid(slots) && rpos <= k < |slots|
    ensures var longer := slots[k := Buff(slots[k].text + add, slots[k].rpos)];
            AllValid(longer) && Unreads(longer)[rpos..] == Unreads(slots)[rpos..][k - rpos := slots[k].Unread() + add]
  {
    assert (slots[k].text + add)[slots[k].rpos..] == slots[k].Unread() + add;
  }

  /** memmove to the front, and nothing behind. */
  method MoveDown(buff: array<Slot>, from: nat, n: nat)
    requires from + n <= buff.Length
    modifies buff
    ensures buff[..n] == old(buff[from..from + n]) && forall i :: n <= i < buff.Length ==> buff[i] == Null
  {
    forall i | 0 <= i < buff.Length {
      buff[i] := if i < n then buff[i + from] else Null;
    }
  }

  class BufferArray {
    var buff: array<Slot>
    var rpos: nat
    var wpos: nat
    var max: nat
    var used: nat
    var pendding: bool

    ghost predicate Valid()
      reads this, buff
    {
      && max == buff.Length && rpos <= wpos <= max && wpos <= used
      && AllValid(buff[..wpos])
      && (forall i :: wpos <= i < max ==> buff[i] == Null)
    }

    /** The unread bytes of the buffers that are not read through yet. */
    ghost function Queue(): (queue: seq<seq<Byte>>)
      requires Valid()
      reads this, buff
      ensures |queue| == wpos - rpos
    {
      Unreads(buff[..wpos])[rpos..]
    }

    /** newBuffArr. */
    constructor ()
      ensures Valid() && rpos == wpos == 0 && Queue() == [] && !pendding && fresh(buff)
    {
      max := PER_BUF_ARRAY_SIZE;
      buff := new Slot[PER_BUF_ARRAY_SIZE](_ => Null);
      rpos, wpos, used, pendding := 0, 0, 0, false;
    }

    /** resizeArrayBuff: buffers in use must still fit. */
    method Resize(addSize: int)
      requires Valid() && wpos <= max + addSize
      modifies this
      ensures Valid() && (buff == old(buff) || fresh(buff)) && max == old(max) + addSize
      ensures rpos == old(rpos) && wpos == old(wpos) && pendding == old(pendding)
      ensures buff[..wpos] == old(buff[..wpos]) && Queue() == old(Queue())
    {
      if addSize == 0 {
        return;
      }
      var newBuff := new Slot[max + addSize](_ => Null);
      forall i | 0 <= i < wpos {
        newBuff[i] := buff[i];
      }
      assert newBuff[..wpos] == buff[..wpos];
      max := max + addSize;
      buff := newBuff;
    }

    /** addBuffer: to buffer number alen, or to a new one behind the last. */
    method AddBuffer(alen: nat, add: seq<Byte>)
      requires Valid() && rpos <= alen
      modifies this, buff
      ensures Valid() && (buff == old(buff) || fresh(buff)) && rpos == old(rpos) && pendding == old(pendding)
      ensures Queue() == AddedTo(old(Queue()), alen - rpos, add)
    {
      if max <= alen {
        Resize(PER_BUF_ARRAY_SIZE);
      }
      ghost var was := buff[..wpos];
      var at := alen;
      if wpos <= alen {
        at := wpos;
        wpos := wpos + 1;
        used := used + 1;
      }
      if buff[at] == Null {
        buff[at] := Buff([], 0);
      }
      buff[at] := Buff(buff[at].text + add, buff[at].rpos);
      hide Unreads;
      hide AllValid;
      if |was| <= alen {
        assert [] + add == add;
        assert buff[..wpos] == was + [Buff(add, 0)];
        UnreadsMore(was, rpos, add);
      } else {
        assert buff[..wpos] == was[alen := Buff(was[alen].text + add, was[alen].rpos)];
        UnreadsLonger(was, rpos, alen, add);
      }
    }

    /** srangeArrayBuff: the first `current` buffers go. Only the ones behind them must be in order. */
    method SRange(current: nat)
      requires max == buff.Length && rpos <= wpos <= max && wpos <= used
      requires forall i :: wpos <= i < max ==> buff[i] == Null
      modifies this`wpos, this`rpos, this`used, buff
      ensures var k := old(if current == 0 then rpos else if current < wpos then current else wpos);
              && wpos == old(wpos) - k && rpos == (if k < old(rpos) then old(rpos) - k else 0) && wpos <= used
              && buff[..wpos] == old(buff[k..wpos])
      ensures forall i :: wpos <= i < max ==> buff[i] == Null
    {
      var tmpCurrentPos := if current == 0 then rpos else current; // repaired: types.c:175 takes every positive number for -1
      if tmpCurrentPos >= wpos {
        while wpos > 0
          invariant wpos <= old(wpos)
          invariant forall i :: wpos <= i < max ==> buff[i] == Null
        {
          wpos := wpos - 1;
          buff[wpos] := Null;
        }
        rpos := 0;
        used := 0;
        return;
      }
      rpos := if tmpCurrentPos < rpos then rpos - tmpCurrentPos else 0; // repaired: types.c:180 has made rpos 0 before this
      wpos := wpos - tmpCurrentPos;
      used := used - tmpCurrentPos;
      MoveDown(buff, tmpCurrentPos, wpos);
    }
  }

  // ---------------------------------------------------------------- hand-over

  lemma {:induction false} UnreadsMoved(slots: seq<Slot>, moved: seq<Slot>, rpos: nat)
    requires AllValid(slots) && AllValid(moved) && rpos <= |slots|
    ensures AllValid(slots + moved) && Unreads(slots + moved)[rpos..] == Unreads(slots)[rpos..] + Unreads(moved)
  {
  }

  lemma {:induction false} UnreadsCut(slots: seq<Slot>, k: nat)
    requires AllValid(slots) && k <= |slots|
    ensures AllValid(slots[..k]) && Unreads(slots[..k]) == Unreads(slots)[..k]
    ensures AllValid(slots[k..]) && Unreads(slots[k..]) == Unreads(slots)[k..]
  {
  }

  /** How many buffers mvArrayBuff moves: all, but not the one that is still being filled. */
  function Complete(wpos: nat, pendding: bool): nat {
    if pendding && wpos > 0 then wpos - 1 else wpos // repaired: types.c:411-414 underflows when pendding and empty
  }

  /** mvArrayBuff(dest, source, true): the complete buffers go behind those of dest, in order. */
  method MvArrayBuff(dest: BufferArray, source: BufferArray) returns (moved: bool)
    requires dest.Valid() && source.Valid() && dest != source && dest.buff != source.buff && source.rpos == 0
    modifies dest, dest.buff, source, source.buff
    ensures dest.Valid() && source.Valid() && dest.buff != source.buff
    ensures dest.buff == old(dest.buff) || fresh(dest.buff)
    ensures source.buff == old(source.buff) && source.rpos == 0
    ensures dest.rpos == old(dest.rpos) && dest.pendding == old(dest.pendding) && source.pendding == old(source.pendding)
    ensures var k := old(Complete(source.wpos, source.pendding));
            && moved == (k > 0)
            && dest.Queue() == old(dest.Queue()) + old(source.Queue())[..k]
            && source.Queue() == old(source.Queue())[k..]
  {
    var copyNum := Complete(source.wpos, source.pendding);
    if copyNum < 1 {
      return false;
    }
    if dest.max - dest.wpos < copyNum {
      dest.Resize(Growth(copyNum - (dest.max - dest.wpos), PER_BUF_ARRAY_SIZE)); // repaired: types.c:421-425 rounds down
    }
    hide Unreads;
    hide AllValid;
    ghost var from, to := source.buff[..source.wpos], dest.buff[..dest.wpos];
    UnreadsCut(from, copyNum);
    UnreadsMoved(to, from[..copyNum], dest.rpos);
    assert from[..copyNum] == source.buff[..copyNum];
    Swap(dest, source, copyNum);
    source.SRange(copyNum);
    assert source.buff[..source.wpos] == from[copyNum..];
    return true;
  }

  /** The loop of mvArrayBuff (src/types.c:432-439). */
  method Swap(dest: BufferArray, source: BufferArray, copyNum: nat)
    requires dest != source && dest.buff != source.buff
    requires copyNum <= source.wpos <= source.buff.Length && dest.wpos + copyNum <= dest.buff.Length
    requires forall i :: dest.wpos <= i < dest.buff.Length ==> dest.buff[i] == Null
    modifies dest`wpos, dest`used, dest.buff, source.buff
    ensures dest.wpos == old(dest.wpos) + copyNum && dest.used == old(dest.used) + copyNum
    ensures dest.buff[..dest.wpos] == old(dest.buff[..dest.wpos]) + old(source.buff[..copyNum])
    ensures forall i :: dest.wpos <= i < dest.buff.Length ==> dest.buff[i] == Null
    ensures source.buff[copyNum..] == old(source.buff[copyNum..])
  {
    ghost var from, to, w := source.buff[..], dest.buff[..], dest.wpos;
    var index := 0;
    while index < copyNum
      invariant index <= copyNum && dest.wpos == w + index && dest.used == old(dest.used) + index
      invariant forall i :: 0 <= i < w ==> dest.buff[i] == to[i]
      invariant forall i :: 0 <= i < index ==> dest.buff[w + i] == from[i]
      invariant forall i :: w + index <= i < dest.buff.Length ==> dest.buff[i] == Null
      invariant forall i :: index <= i < source.buff.Length ==> source.buff[i] == from[i]
    {
      var tmp := source.buff[index];
      source.buff[index] := dest.buff[dest.wpos];
      dest.buff[dest.wpos] := tmp;
      dest.wpos := dest.wpos + 1;
      dest.used := dest.used + 1;
      index := index + 1;
    }
    Joined(dest.buff[..], to[..w], from[..copyNum]);
  }

  /** One buffer more, or one buffer longer. */
  function AddedTo(queue: seq<seq<Byte>>, i: nat, add: seq<Byte>): seq<seq<Byte>> {
    if |queue| <= i then queue + [add] else queue[i := queue[i] + add]
  }
}
