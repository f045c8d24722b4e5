/** The lines of src/types.c, src/net/client.c and src/net/server.c that Buffers and Drain repair, as they
    are written: exactly when they do what they are for. */
module BuffersAsWritten {
  import opened Decimal
  import opened Buffers
  import opened Drain

  // ---------------------------------------------------------------- growth

  /** types.c:368-375: how much a buffer that is `extra` bytes too small grows. */
  function GrowthAsWritten(extra: nat): nat {
    var addSize := PER_IOBUF_SIZE + 1;
    addSize * (if extra / addSize <= 0 then 1 else extra / addSize)
  }

  /** The copy that follows stays inside the buffer exactly if one step of growth is enough, or the missing
      part happens to be a whole number of steps. */
  lemma {:induction false} GrowthIsEnough(extra: nat)
    requires extra > 0
    ensures extra <= GrowthAsWritten(extra) <==> extra <= PER_IOBUF_SIZE + 1 || extra % (PER_IOBUF_SIZE + 1) == 0
  {
    var addSize := PER_IOBUF_SIZE + 1;
    assert extra == addSize * (extra / addSize) + extra % addSize;
  }

  /** types.c:421-425: how much an array of buffers grows to take copyNum more. */
  function ArrayGrowthAsWritten(copyNum: nat): nat {
    PER_BUF_ARRAY_SIZE * (if copyNum / PER_BUF_ARRAY_SIZE <= 0 then 1 else copyNum / PER_BUF_ARRAY_SIZE)
  }

  lemma {:induction false} ArrayGrowthIsEnough(copyNum: nat, room: nat)
    requires room < copyNum
    ensures copyNum <= room + ArrayGrowthAsWritten(copyNum) <==>
              copyNum < PER_BUF_ARRAY_SIZE || copyNum % PER_BUF_ARRAY_SIZE <= room
  {
    assert copyNum == PER_BUF_ARRAY_SIZE * (copyNum / PER_BUF_ARRAY_SIZE) + copyNum % PER_BUF_ARRAY_SIZE;
  }

  /** types.c:366-386: the count `used` of a buffer after an append. */
  function UsedAsWritten(used: nat, room: nat, len: nat): nat {
    (if len > room then used + len else used) + len
  }

  /** It stays the number of bytes written exactly as long as nothing grows. */
  lemma {:induction false} UsedIsWritten(wpos: nat, room: nat, len: nat)
    ensures UsedAsWritten(wpos, room, len) >= wpos + len
    ensures UsedAsWritten(wpos, room, len) == wpos + len <==> len <= room
  {
  }

  // ---------------------------------------------------------------- hand-over

  datatype HandOver = OutOfBounds | HandOver(dest: seq<seq<Byte>>, source: seq<seq<Byte>>)

  const SIZE_MAX := 0xFFFF_FFFF_FFFF_FFFF

  /** srangeArrayBuff with its unsigned comparison (types.c:172-198), on buffers of which none is read. */
  function SRangeAsWritten(queue: seq<seq<Byte>>, current: nat): seq<seq<Byte>>
    requires |queue| <= SIZE_MAX && current <= SIZE_MAX
  {
    var tmpCurrentPos := if current == 0 then 0 else if current < SIZE_MAX then |queue| else current;
    if tmpCurrentPos >= |queue| then [] else queue[tmpCurrentPos..]
  }

  /** Asked to drop some buffers, it drops all of them, so it does as asked only when none would be left. */
  lemma {:induction false} SRangeDropsAll(queue: seq<seq<Byte>>, current: nat)
    requires |queue| <= SIZE_MAX && 0 < current <= SIZE_MAX
    ensures SRangeAsWritten(queue, current) == (if current <= |queue| then queue[current..] else []) <==> |queue| <= current
  {
  }

  /** mvArrayBuff(dest, source, true) with all the room it needs. */
  function HandOverAsWritten(dest: seq<seq<Byte>>, source: seq<seq<Byte>>, pendding: bool): HandOver
    requires |source| <= SIZE_MAX
  {
    var copyNum := if pendding then |source| - 1 else |source|;
    if copyNum < 0 then OutOfBounds // size_t: SIZE_MAX buffers are moved
    else if copyNum < 1 then HandOver(dest, source)
    else HandOver(dest + source[..copyNum], SRangeAsWritten(source, copyNum))
  }

  /** The hand-over keeps every byte exactly if no command is pending, or the pending one is the only one.
      A pending command behind complete ones is lost; a pending array without buffers runs wild. */
  lemma {:induction false} HandOverKeeps(dest: seq<seq<Byte>>, source: seq<seq<Byte>>, pendding: bool)
    requires |source| <= SIZE_MAX && NoneEmptyIn(source)
    ensures var r := HandOverAsWritten(dest, source, pendding);
            && (r.HandOver? && Flat(r.dest) + Flat(r.source) == Flat(dest) + Flat(source) <==> !pendding || |source| == 1)
            && (!pendding || |source| == 1 ==>
                  var k := Complete(|source|, pendding); r == HandOver(dest + source[..k], source[k..]))
  {
    var r := HandOverAsWritten(dest, source, pendding);
    if !pendding {
      FlatAppend(dest, source);
      assert source[..|source|] == source;
      assert Flat(r.dest) + Flat(r.source) == Flat(dest) + Flat(source);
    } else if |source| > 1 {
      var k := |source| - 1;
      FlatAppend(dest, source[..k]);
      assert r == HandOver(dest + source[..k], []);
      assert |Flat(source)| == |Flat(source[..k])| + |source[k]|;
    }
  }

  // ---------------------------------------------------------------- dropping buffers that have been sent

  /** srangeArrayBuff once its comparison is signed: reading starts at the front again (types.c:180), although
      lines 201-203 mean to move the reading position down with the buffers. */
  function SRangeText(slots: seq<Slot>, current: nat): (seq<Slot>, nat)
    requires current <= |slots|
  {
    (slots[current..], 0)
  }

  /** What the array then still has to send. */
  function Left(r: (seq<Slot>, nat)): seq<seq<Byte>>
    requires AllValid(r.0) && r.1 <= |r.0|
  {
    Unreads(r.0)[r.1..]
  }

  /** That is what it should be exactly if everything that was read is dropped. */
  lemma {:induction false} RewindIsRight(slots: seq<Slot>, rpos: nat, current: nat)
    requires AllValid(slots) && current <= rpos <= |slots|
    ensures AllValid(slots[current..])
    ensures Left(SRangeText(slots, current)) == Unreads(slots)[rpos..] <==> current == rpos
  {
    UnreadsCut(slots, current);
    assert |Left(SRangeText(slots, current))| == |slots| - current;
  }

  /** Otherwise a buffer that has been sent is in front again. It is empty, and baseWrite stops at it: whatever
      the socket would take, in any number of calls, nothing is ever sent again. */
  lemma {:induction false} RewindStops(slots: seq<Slot>, rpos: nat, current: nat, calls: seq<seq<SendResult>>)
    requires AllValid(slots) && current < rpos <= |slots| && slots[current].Unread() == []
    ensures AllValid(slots[current..])
    ensures var q := Left(SRangeText(slots, current)); AllCalls(q, calls, []) == Result(true, q, [])
  {
    UnreadsCut(slots, current);
    EmptyBufferBlocks(Left(SRangeText(slots, current)), calls);
  }

  // ---------------------------------------------------------------- the array of buffers shrinks

  /** writeR and writeC cut the array back to its first size (server.c:556-558): the buffers that are then still in
      it, sent or not. (The buffers before `current` are taken to have been dropped as they should.) */
  function ShrunkAsWritten(slots: seq<Slot>): seq<Slot> {
    if |slots| <= PER_BUF_ARRAY_SIZE then slots else slots[..PER_BUF_ARRAY_SIZE]
  }

  /** Nothing is lost exactly if all buffers fit, the sent ones included, or all have been sent. */
  lemma {:induction false} ShrinkKeeps(slots: seq<Slot>, rpos: nat)
    requires AllValid(slots) && rpos <= |slots| && NoneEmptyIn(Unreads(slots)[rpos..])
    ensures AllValid(ShrunkAsWritten(slots))
    ensures Flat(Left((ShrunkAsWritten(slots), Min(rpos, |ShrunkAsWritten(slots)|)))) == Flat(Unreads(slots)[rpos..])
            <==> |slots| <= PER_BUF_ARRAY_SIZE || rpos == |slots|
  {
    var k := PER_BUF_ARRAY_SIZE;
    var q := Unreads(slots)[rpos..];
    if |slots| > k {
      UnreadsCut(slots, k);
      var r := Min(rpos, k);
      var kept := Left((slots[..k], r));
      assert kept == Unreads(slots)[r..k];
      if rpos < |slots| {
        var cut := if rpos < k then k - rpos else 0;
        assert kept == q[..cut];
        FlatAppend(q[..cut], q[cut..]);
        assert q[..cut] + q[cut..] == q;
        FlatFront(q[cut..]);
      }
    }
  }

  // ---------------------------------------------------------------- sending

  /** baseWrite: after a send of writeLen bytes the buffer counts as sent (client.c:191-203). */
  function DrainedAsWritten(queue: seq<seq<Byte>>, sends: seq<SendResult>, wire: seq<Byte>): Result
    decreases sends
  {
    match TryOnce(queue, sends)
    case Return(ok) => Result(ok, queue, wire)
    case Partly(n) => Result(true, Taken(queue, n), wire + queue[0][..n])
    case Fully(n) =>
      var sent := wire + queue[0][..n];
      if GoOn(|sent|) then DrainedAsWritten(queue[1..], sends[1..], sent) else Result(true, queue[1..], sent)
  }

  /** One call after the other. */
  function Calls(queue: seq<seq<Byte>>, calls: seq<seq<SendResult>>, wire: seq<Byte>): Result
    decreases calls
  {
    if calls == [] then Result(true, queue, wire)
    else
      var r := DrainedAsWritten(queue, calls[0], []);
      Calls(r.queue, calls[1..], wire + r.wire)
  }

  ghost predicate Conserves(queue: seq<seq<Byte>>, calls: seq<seq<SendResult>>) {
    var r := Calls(queue, calls, []);
    r.wire + Flat(r.queue) == Flat(queue)
  }

  /** Every buffer fits into one send. */
  predicate Small(queue: seq<seq<Byte>>) { forall i :: 0 <= i < |queue| ==> |queue[i]| <= PER_IOBUF_SIZE }

  lemma {:induction false} SmallIsSafe(queue: seq<seq<Byte>>, sends: seq<SendResult>, wire: seq<Byte>)
    requires Small(queue)
    ensures DrainedAsWritten(queue, sends, wire) == Drained(queue, sends, wire)
    ensures Small(Drained(queue, sends, wire).queue)
    decreases sends
  {
    var t := TryOnce(queue, sends);
    if t.Fully? {
      SmallIsSafe(queue[1..], sends[1..], wire + queue[0][..t.n]);
    }
  }

  lemma {:induction false} SmallCalls(queue: seq<seq<Byte>>, calls: seq<seq<SendResult>>, wire: seq<Byte>)
    requires Small(queue)
    ensures var r := Calls(queue, calls, wire); r.wire + Flat(r.queue) == wire + Flat(queue)
    decreases calls
  {
    if calls != [] {
      var r := Drained(queue, calls[0], []);
      SmallIsSafe(queue, calls[0], []);
      DrainConserves(queue, calls[0], []);
      SmallCalls(r.queue, calls[1..], wire + r.wire);
      assert (wire + r.wire) + Flat(r.queue) == wire + (r.wire + Flat(r.queue));
      assert [] + Flat(queue) == Flat(queue);
    }
  }

  /** A call in which the socket takes one full send and then would block. */
  const ONE_SEND: seq<SendResult> := [Sent(PER_IOBUF_SIZE), WouldBlock]

  lemma {:induction false} OneSend(queue: seq<seq<Byte>>)
    requires queue != [] && queue[0] != []
    ensures DrainedAsWritten(queue, ONE_SEND, []) == Result(true, queue[1..], queue[0][..Min(|queue[0]|, PER_IOBUF_SIZE)])
  {
    var n := Min(|queue[0]|, PER_IOBUF_SIZE);
    assert TryOnce(queue, ONE_SEND) == Fully(n);
    assert [] + queue[0][..n] == queue[0][..n];
    assert ONE_SEND[1..] == [WouldBlock];
    assert TryOnce(queue[1..], [WouldBlock]) == Return(true);
  }

  /** Sending buffer after buffer up to a large one: bytes are gone. */
  lemma {:induction false} LargeLoses(queue: seq<seq<Byte>>, i: nat, wire: seq<Byte>) returns (calls: seq<seq<SendResult>>)
    requires NoneEmptyIn(queue) && i < |queue| && |queue[i]| > PER_IOBUF_SIZE
    ensures var r := Calls(queue, calls, wire); |r.wire| + |Flat(r.queue)| < |wire| + |Flat(queue)|
    decreases i
  {
    OneSend(queue);
    FlatFront(queue);
    var n := Min(|queue[0]|, PER_IOBUF_SIZE);
    var sent := wire + queue[0][..n];
    if |queue[0]| > PER_IOBUF_SIZE {
      calls := [ONE_SEND];
      assert calls[1..] == [];
      assert Calls(queue[1..], calls[1..], sent) == Result(true, queue[1..], sent);
    } else {
      var more := LargeLoses(queue[1..], i - 1, sent);
      calls := [ONE_SEND] + more;
      assert calls[1..] == more;
    }
  }

  /** Conservation as written: whatever the sends give, over any number of calls, no byte is lost, exactly
      if every buffer holds at most 16384 unread bytes. */
  lemma {:induction false} SendingKeeps(queue: seq<seq<Byte>>)
    requires NoneEmptyIn(queue)
    ensures Small(queue) <==> forall calls :: Conserves(queue, calls)
  {
    if Small(queue) {
      forall calls ensures Conserves(queue, calls) {
        SmallCalls(queue, calls, []);
        assert [] + Flat(queue) == Flat(queue);
      }
    } else {
      var i :| 0 <= i < |queue| && |queue[i]| > PER_IOBUF_SIZE;
      var calls := LargeLoses(queue, i, []);
      assert !Conserves(queue, calls);
    }
  }
}
