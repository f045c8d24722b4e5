/** baseWrite (src/net/client.c:138-209): sending what is queued, whatever send does. */
module Drain {
  import opened Decimal
  import opened Buffers

  const PER_MIN_SIZE := 128

  /** What send gives: an error other than EAGAIN, EAGAIN, or a number of bytes. A socket that is asked
      for more than `sends` lists would block. */
  datatype SendResult = Failure | WouldBlock | Sent(n: nat)

  function Min(a: nat, b: nat): nat { if a < b then a else b }

  /** One send from the buffer in front. */
  datatype Turn = Return(ok: bool) | Partly(n: nat) | Fully(n: nat)

  function TryOnce(queue: seq<seq<Byte>>, sends: seq<SendResult>): (t: Turn)
    ensures t.Partly? ==> queue != [] && 0 < t.n < Min(|queue[0]|, PER_IOBUF_SIZE) && sends != []
    ensures t.Fully? ==> queue != [] && 0 < t.n == Min(|queue[0]|, PER_IOBUF_SIZE) && sends != []
  {
    if queue == [] || queue[0] == [] || sends == [] then Return(true)
    else
      var writeLen := Min(|queue[0]|, PER_IOBUF_SIZE);
      match sends[0]
      case Failure => Return(false)
      case WouldBlock => Return(true)
      case Sent(n) => if n == 0 then Return(false) else if n < writeLen then Partly(n) else Fully(writeLen)
  }

  /** The queue after n bytes from the front have gone; a buffer that is empty then leaves it. */
  function Taken(queue: seq<seq<Byte>>, n: nat): seq<seq<Byte>>
    requires queue != [] && n <= |queue[0]|
  {
    if n == |queue[0]| then queue[1..] else queue[0 := queue[0][n..]]
  }

  datatype Result = Result(ok: bool, queue: seq<seq<Byte>>, wire: seq<Byte>)

  predicate GoOn(totalLen: nat) { PER_IOBUF_SIZE - totalLen >= PER_MIN_SIZE }

  /** baseWrite after wire has been sent. */
  function Drained(queue: seq<seq<Byte>>, sends: seq<SendResult>, wire: seq<Byte>): Result
    decreases sends
  {
    match TryOnce(queue, sends)
    case Return(ok) => Result(ok, queue, wire)
    case Partly(n) => Result(true, Taken(queue, n), wire + queue[0][..n])
    case Fully(n) =>
      var sent := wire + queue[0][..n];
      if GoOn(|sent|) then Drained(Taken(queue, n), sends[1..], sent) else Result(true, Taken(queue, n), sent)
  }

  // ---------------------------------------------------------------- what it means

  lemma {:induction false} FlatTaken(queue: seq<seq<Byte>>, n: nat)
    requires queue != [] && n <= |queue[0]|
    ensures queue[0][..n] + Flat(Taken(queue, n)) == Flat(queue)
  {
    FlatFront(queue);
    if n < |queue[0]| {
      var rest := Taken(queue, n);
      FlatFront(rest);
      assert rest[1..] == queue[1..];
      assert queue[0] == queue[0][..n] + rest[0];
      assert queue[0][..n] + (rest[0] + Flat(rest[1..])) == (queue[0][..n] + rest[0]) + Flat(rest[1..]);
    } else {
      assert queue[0][..n] == queue[0];
    }
  }

  lemma {:induction false} FlatFront(queue: seq<seq<Byte>>)
    requires queue != []
    ensures Flat(queue) == queue[0] + Flat(queue[1..])
  {
    FlatAppend([queue[0]], queue[1..]);
    assert [queue[0]] + queue[1..] == queue;
    FlatOne(queue[0]);
  }

  /** Conservation: what has been sent, followed by what is still queued, is what was queued; and one
      call sends at most 2 * 16384 - 128 bytes. */
  lemma {:induction false} DrainConserves(queue: seq<seq<Byte>>, sends: seq<SendResult>, wire: seq<Byte>)
    requires GoOn(|wire|)
    ensures var r := Drained(queue, sends, wire);
            && r.wire + Flat(r.queue) == wire + Flat(queue)
            && wire <= r.wire
            && |r.wire| <= 2 * PER_IOBUF_SIZE - PER_MIN_SIZE
    decreases sends
  {
    var t := TryOnce(queue, sends);
    if !t.Return? {
      FlatTaken(queue, t.n);
      var sent := wire + queue[0][..t.n];
      assert sent + Flat(Taken(queue, t.n)) == wire + (queue[0][..t.n] + Flat(Taken(queue, t.n)));
      if t.Fully? && GoOn(|sent|) {
        DrainConserves(Taken(queue, t.n), sends[1..], sent);
      }
    }
  }

  predicate NoneEmptyIn(queue: seq<seq<Byte>>) { forall i :: 0 <= i < |queue| ==> queue[i] != [] }

  lemma {:induction false} TakenKeeps(queue: seq<seq<Byte>>, n: nat)
    requires queue != [] && n <= |queue[0]| && NoneEmptyIn(queue)
    ensures NoneEmptyIn(Taken(queue, n))
  {
  }

  lemma {:induction false} DrainKeeps(queue: seq<seq<Byte>>, sends: seq<SendResult>, wire: seq<Byte>)
    requires NoneEmptyIn(queue)
    ensures NoneEmptyIn(Drained(queue, sends, wire).queue)
    decreases sends
  {
    var t := TryOnce(queue, sends);
    if !t.Return? {
      TakenKeeps(queue, t.n);
      if t.Fully? { DrainKeeps(Taken(queue, t.n), sends[1..], wire + queue[0][..t.n]); }
    }
  }

  predicate Willing(sends: seq<SendResult>) { forall i :: 0 <= i < |sends| ==> sends[i].Sent? && sends[i].n >= PER_IOBUF_SIZE }

  /** A socket that takes everything empties the queue, or gets more than 16384 - 128 bytes, in one call;
      there is no other reason to stop. */
  lemma {:induction false} DrainProgress(queue: seq<seq<Byte>>, sends: seq<SendResult>, wire: seq<Byte>)
    requires NoneEmptyIn(queue) && Willing(sends) && |sends| >= |Flat(queue)|
    ensures var r := Drained(queue, sends, wire); r.ok && (r.queue == [] || !GoOn(|r.wire|))
    decreases sends
  {
    if queue != [] {
      FlatFront(queue);
      var n := Min(|queue[0]|, PER_IOBUF_SIZE);
      FlatTaken(queue, n);
      assert TryOnce(queue, sends) == Fully(n);
      TakenKeeps(queue, n);
      var sent := wire + queue[0][..n];
      if GoOn(|sent|) {
        DrainProgress(Taken(queue, n), sends[1..], sent);
      }
    }
  }

  // ---------------------------------------------------------------- what each send has taken

  /** The queue when t bytes of it have gone. */
  function Rest(queue: seq<seq<Byte>>, t: nat): seq<seq<Byte>> {
    if t == 0 || queue == [] then queue
    else if t < |queue[0]| then queue[0 := queue[0][t..]]
    else Rest(queue[1..], t - |queue[0]|)
  }

  /** What is then left of the buffer in front. */
  function Front(queue: seq<seq<Byte>>, t: nat): nat { if Rest(queue, t) == [] then 0 else |Rest(queue, t)[0]| }

  /** What the first k sends have taken: each the least of what it gave, of 16384, and of what was left of the buffer in
      front. */
  function Accepted(queue: seq<seq<Byte>>, sends: seq<SendResult>, k: nat): nat
    requires k <= |sends|
  {
    if k == 0 then 0
    else
      var t := Accepted(queue, sends, k - 1);
      t + match sends[k - 1] case Sent(n) => Min(n, Min(PER_IOBUF_SIZE, Front(queue, t))) case _ => 0
  }

  /** Send k takes all it is offered. */
  predicate Full(queue: seq<seq<Byte>>, sends: seq<SendResult>, k: nat)
    requires k < |sends|
  {
    sends[k].Sent? && sends[k].n >= Min(PER_IOBUF_SIZE, Front(queue, Accepted(queue, sends, k)))
  }

  /** Send k is made: the ones before took all, leave more than 128 bytes of the 16384 for one call, and there is
      something to send. */
  ghost predicate Made(queue: seq<seq<Byte>>, sends: seq<SendResult>, k: nat) {
    && k < |sends| && (forall j :: 0 <= j < k ==> Full(queue, sends, j))
    && (k == 0 || Accepted(queue, sends, k) + PER_MIN_SIZE <= PER_IOBUF_SIZE)
    && Front(queue, Accepted(queue, sends, k)) > 0
  }

  lemma {:induction false} RestMore(queue: seq<seq<Byte>>, t: nat, n: nat)
    requires 0 < n <= Front(queue, t)
    ensures Rest(queue, t) != [] && Rest(queue, t + n) == Taken(Rest(queue, t), n)
    decreases |queue|
  {
    if t == 0 {
      if n == |queue[0]| { assert Rest(queue[1..], 0) == queue[1..]; }
    } else if t < |queue[0]| {
      if t + n < |queue[0]| {
        assert queue[0][t..][n..] == queue[0][t + n..];
      } else {
        assert queue[0 := queue[0][t..]][1..] == queue[1..];
      }
    } else {
      RestMore(queue[1..], t - |queue[0]|, n);
    }
  }

  lemma {:induction false} RestFlat(queue: seq<seq<Byte>>, t: nat)
    requires t <= |Flat(queue)|
    ensures Flat(Rest(queue, t)) == Flat(queue)[t..]
    decreases |queue|
  {
    if t > 0 && queue != [] {
      FlatFront(queue);
      if t < |queue[0]| {
        var q := queue[0 := queue[0][t..]];
        FlatFront(q);
        assert q[1..] == queue[1..];
      } else {
        RestFlat(queue[1..], t - |queue[0]|);
      }
    }
  }

  /** One send, seen both ways. */
  lemma {:induction false} SendOnce(queue: seq<seq<Byte>>, sends: seq<SendResult>, i: nat, t: nat)
    requires i < |sends| && t == Accepted(queue, sends, i) && Front(queue, t) > 0
    ensures var once := TryOnce(Rest(queue, t), sends[i..]);
            && (once.Fully? <==> Full(queue, sends, i))
            && Accepted(queue, sends, i + 1) == t + (match once case Return(_) => 0 case Partly(n) => n case Fully(n) => n)
            && (once.Partly? || once.Fully? ==> Rest(queue, Accepted(queue, sends, i + 1)) == Taken(Rest(queue, t), once.n))
            && (once.Return? && !once.ok <==> sends[i] in {Failure, Sent(0)})
  {
    var once := TryOnce(Rest(queue, t), sends[i..]);
    assert sends[i..][0] == sends[i];
    if !once.Return? { RestMore(queue, t, once.n); }
    hide Rest;
  }

  /** From the send number i on. */
  lemma {:induction false} DrainedFrom(queue: seq<seq<Byte>>, sends: seq<SendResult>, i: nat, wire: seq<Byte>) returns (m: nat)
    requires i <= |sends| && (forall j :: 0 <= j < i ==> Made(queue, sends, j) && Full(queue, sends, j))
    requires |wire| == Accepted(queue, sends, i) && (i == 0 || GoOn(|wire|))
    ensures i <= m <= |sends| && (forall k :: 0 <= k < m ==> Made(queue, sends, k)) && !Made(queue, sends, m)
    ensures var r := Drained(Rest(queue, |wire|), sends[i..], wire);
            && |r.wire| == Accepted(queue, sends, m) && r.queue == Rest(queue, |r.wire|)
            && (r.ok <==> !(m > i && sends[m - 1] in {Failure, Sent(0)}))
    decreases |sends| - i
  {
    hide Rest;
    hide Full;
    hide Accepted;
    var q := Rest(queue, |wire|);
    if i == |sends| || Front(queue, |wire|) == 0 {
      m := i;
      assert TryOnce(q, sends[i..]) == Return(true);
    } else {
      assert sends[i..][1..] == sends[i + 1..];
      assert Made(queue, sends, i);
      var t := TryOnce(q, sends[i..]);
      SendOnce(queue, sends, i, |wire|);
      hide Front;
      hide TryOnce;
      hide Taken;
      if t.Fully? && GoOn(|wire| + t.n) {
        m := DrainedFrom(queue, sends, i + 1, wire + q[0][..t.n]);
      } else {
        m := i + 1;
        if !t.Fully? { NotFull(queue, sends, i); }
      }
    }
  }

  lemma {:induction false} NotFull(queue: seq<seq<Byte>>, sends: seq<SendResult>, k: nat)
    requires k < |sends| && !Full(queue, sends, k)
    ensures !Made(queue, sends, k + 1)
  {
  }

  /** What the socket has is what the sends have taken, as many of them as the loop makes; what is left is the rest of the
      queue; and the call fails exactly if the last send made did, or took nothing. */
  lemma {:induction false} DrainedExactly(queue: seq<seq<Byte>>, sends: seq<SendResult>) returns (m: nat)
    ensures m <= |sends| && (forall k :: 0 <= k < m ==> Made(queue, sends, k)) && !Made(queue, sends, m)
    ensures var r, t := Drained(queue, sends, []), Accepted(queue, sends, m);
            && t <= |Flat(queue)| && r.wire == Flat(queue)[..t] && |r.wire| == t && r.queue == Rest(queue, t)
            && (r.ok <==> !(m > 0 && sends[m - 1] in {Failure, Sent(0)}))
  {
    assert sends[0..] == sends;
    m := DrainedFrom(queue, sends, 0, []);
    DrainConserves(queue, sends, []);
    var r := Drained(queue, sends, []);
    assert [] + Flat(queue) == Flat(queue);
    assert (r.wire + Flat(r.queue))[..|r.wire|] == r.wire;
  }

  /** For instance three bytes, of which the socket takes two. */
  lemma {:induction false} TwoOfThree(a: Byte, b: Byte, c: Byte)
    ensures Drained([[a, b, c]], [Sent(2)], []) == Result(true, [[c]], [a, b])
    ensures Drained([[a, b, c]], [Failure], []) == Result(false, [[a, b, c]], [])
  {
    var q: seq<seq<Byte>> := [[a, b, c]];
    assert [a, b, c][2..] == [c] && [a, b, c][..2] == [a, b];
    assert [] + [a, b] == [a, b];
    assert Taken(q, 2) == [[c]];
  }

  /** One call after the other. */
  function AllCalls(queue: seq<seq<Byte>>, calls: seq<seq<SendResult>>, wire: seq<Byte>): Result
    decreases calls
  {
    if calls == [] then Result(true, queue, wire)
    else
      var r := Drained(queue, calls[0], []);
      AllCalls(r.queue, calls[1..], wire + r.wire)
  }

  /** An empty buffer in front is never left behind, in any number of calls. */
  lemma {:induction false} EmptyBufferBlocks(queue: seq<seq<Byte>>, calls: seq<seq<SendResult>>)
    requires queue != [] && queue[0] == []
    ensures AllCalls(queue, calls, []) == Result(true, queue, [])
    decreases calls
  {
    if calls != [] {
      assert Drained(queue, calls[0], []) == Result(true, queue, []);
      var none: seq<Byte> := [];
      assert none + none == none;
      EmptyBufferBlocks(queue, calls[1..]);
    }
  }

  // ---------------------------------------------------------------- the loop

  /** The buffer in front after n of its bytes have been sent; PER_IOBUF_SIZE or all of them at most. */
  method Advance(cmds: BufferArray, n: nat)
    requires cmds.Valid() && cmds.rpos < cmds.wpos && n <= |cmds.Queue()[0]|
    modifies cmds`rpos, cmds.buff
    ensures cmds.Valid() && cmds.Queue() == Taken(old(cmds.Queue()), n)
  {
    var cmd := cmds.buff[cmds.rpos];
    ghost var was, q := cmds.buff[..cmds.wpos], cmds.Queue();
    if n == |cmd.text| - cmd.rpos {
      cmds.buff[cmds.rpos] := Buff([], 0);
      cmds.rpos := cmds.rpos + 1;
      assert cmds.buff[..cmds.wpos] == was[cmds.rpos - 1 := Buff([], 0)];
      assert cmds.Queue() == q[1..];
    } else {
      cmds.buff[cmds.rpos] := Buff(cmd.text, cmd.rpos + n);
      assert cmd.text[cmd.rpos + n..] == cmd.text[cmd.rpos..][n..];
      assert cmds.buff[..cmds.wpos] == was[cmds.rpos := Buff(cmd.text, cmd.rpos + n)];
      assert cmds.Queue() == q[0 := q[0][n..]];
    }
  }

  /** baseWrite: it sends what Drained says, and leaves the queue Drained says. */
  method BaseWrite(cmds: BufferArray, sends: seq<SendResult>) returns (ok: bool, wire: seq<Byte>)
    requires cmds.Valid()
    modifies cmds`rpos, cmds.buff
    ensures cmds.Valid()
    ensures Result(ok, cmds.Queue(), wire) == Drained(old(cmds.Queue()), sends, [])
  {
    ghost var goal := Drained(cmds.Queue(), sends, []);
    var sendLen := 0;
    wire := [];
    while true
      invariant cmds.Valid() && sendLen <= |sends|
      invariant Drained(cmds.Queue(), sends[sendLen..], wire) == goal
      decreases |sends| - sendLen
    {
      if cmds.used == 0 || cmds.rpos >= cmds.wpos || cmds.rpos >= cmds.used {
        return true, wire;
      }
      var cmd := cmds.buff[cmds.rpos];
      assert cmd == cmds.buff[..cmds.wpos][cmds.rpos] && cmds.Queue()[0] == cmd.text[cmd.rpos..];
      var writeLen := |cmd.text| - cmd.rpos;
      if writeLen <= 0 || sendLen == |sends| {
        return true, wire;
      }
      if writeLen >= PER_IOBUF_SIZE {
        writeLen := PER_IOBUF_SIZE;
      }
      var result := sends[sendLen];
      sendLen := sendLen + 1;
      if result == WouldBlock {
        return true, wire;
      }
      if result == Failure || result.n == 0 {
        return false, wire;
      }
      var wLen := if result.n < writeLen then result.n else writeLen;
      wire := wire + cmd.text[cmd.rpos..][..wLen];
      Advance(cmds, wLen); // repaired: client.c:191-206 clears the buffer whenever writeLen bytes were sent
      if wLen < writeLen || !GoOn(|wire|) {
        return true, wire;
      }
    }
  }

  lemma {:induction false} DroppedQueue(slots: seq<Slot>, k: nat, rpos: nat)
    requires AllValid(slots) && k <= rpos <= |slots|
    ensures AllValid(slots[k..]) && Unreads(slots[k..])[rpos - k..] == Unreads(slots)[rpos..]
  {
    UnreadsCut(slots, k);
  }

  /** What writeR and writeC do to the array after a write (src/net/server.c:555-563): buffers that have been
      sent are dropped, and the block shrinks to its first size. */
  method Tidy(cmds: BufferArray)
    requires cmds.Valid()
    modifies cmds, cmds.buff
    ensures cmds.Valid() && cmds.Queue() == old(cmds.Queue()) && cmds.pendding == old(cmds.pendding)
    ensures cmds.buff == old(cmds.buff) || fresh(cmds.buff)
    ensures var sent := old(cmds.rpos) >= PER_BUF_ARRAY_SIZE;
            && cmds.max == (if sent && old(cmds.wpos) <= 2 * PER_BUF_ARRAY_SIZE then PER_BUF_ARRAY_SIZE else old(cmds.max))
            && cmds.wpos == (if old(cmds.Queue()) == [] then 0 else if sent then old(cmds.wpos) - PER_BUF_ARRAY_SIZE else old(cmds.wpos))
            && cmds.rpos == (if old(cmds.Queue()) == [] then 0 else if sent then old(cmds.rpos) - PER_BUF_ARRAY_SIZE else old(cmds.rpos))
  {
    if cmds.rpos >= PER_BUF_ARRAY_SIZE {
      DroppedQueue(cmds.buff[..cmds.wpos], PER_BUF_ARRAY_SIZE, cmds.rpos);
      DroppedQueue(cmds.buff[..cmds.wpos], cmds.wpos, cmds.wpos);
      ghost var was := cmds.buff[..cmds.wpos];
      cmds.SRange(PER_BUF_ARRAY_SIZE);
      assert cmds.buff[..cmds.wpos] == was[PER_BUF_ARRAY_SIZE..];
      if cmds.wpos <= PER_BUF_ARRAY_SIZE { // repaired: server.c:558, 601 free buffers that are still queued
        cmds.Resize(PER_BUF_ARRAY_SIZE - cmds.max);
      }
    }
    if cmds.wpos <= cmds.rpos {
      Clear(cmds);
    }
  }

  /** clearArrayBuff. */
  method Clear(cmds: BufferArray)
    requires cmds.Valid() && cmds.Queue() == []
    modifies cmds`rpos, cmds`wpos, cmds.buff
    ensures cmds.Valid() && cmds.Queue() == [] && cmds.rpos == cmds.wpos == 0
  {
    forall i | 0 <= i < cmds.max {
      cmds.buff[i] := Null;
    }
    cmds.wpos := 0;
    cmds.rpos := 0;
  }
}
