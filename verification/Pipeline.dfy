/** From a client's socket to the sockets of the redis connections that serve it: parser, hand-over and drain
    together, over any run of reads and writes (readC and writeR of src/net/server.c, without the leases
    themselves, which are in Lease). */
module Pipeline {
  import opened Wrappers
  import opened Decimal
  import opened Buffers
  import opened Drain
  import opened Resp
  import opened RespMeaning
  import ClientParser
  import RespLimit

  // ---------------------------------------------------------------- the client after a hand-over

  /** What readC leaves of the parser's state once it has moved the complete commands (mvArrayBuff, and
      cmdNum back to 0). */
  function HandedOver(c: Client): Client {
    c.(cmds := c.cmds[Complete(|c.cmds|, c.pending)..], cmdNum := 0, done := [])
  }

  function Given(c: Client): seq<seq<Byte>> { c.cmds[..Complete(|c.cmds|, c.pending)] }

  lemma {:induction false} HandOverWf(c: Client)
    requires Wf(c)
    ensures Wf(HandedOver(c)) && Given(c) == AllEncoded(c.done) && Unread(HandedOver(c)) == Unread(c)
    ensures c.cmds == Given(c) + HandedOver(c).cmds && HandedOver(c).done == []
  {
    var none: seq<Command> := [];
    assert AllEncoded(none) == [];
    assert |AllEncoded(c.done)| == |c.done|;
    if c.pending {
      assert HandedOver(c).cmds == [Partial(c)] == AllEncoded(none) + [Partial(c)];
    } else {
      assert HandedOver(c).cmds == [] == AllEncoded(none) + [];
    }
    assert Partial(HandedOver(c)) == Partial(c);
  }

  // ---------------------------------------------------------------- handing over changes nothing else

  /** The client as it would be if the commands in h had not been moved away. */
  function Late(c: Client, h: seq<Command>): Client {
    c.(cmds := AllEncoded(h) + c.cmds, cmdNum := |h| + c.cmdNum, done := h + c.done)
  }

  function LateTurn(t: Resp.Turn, h: seq<Command>): Resp.Turn {
    match t case Next(c) => Next(Late(c, h)) case Stop => Stop case Fail(e) => Fail(e)
  }

  function LateOutcome(o: Outcome, h: seq<Command>): Outcome {
    match o case Ok(c) => Ok(Late(c, h)) case Err(e) => Err(e)
  }

  lemma {:induction false} LateAdded(c: Client, h: seq<Command>, add: seq<Byte>)
    ensures Added(Late(c, h), add) == Late(Added(c, add), h)
  {
    var a, i := AllEncoded(h), c.cmdNum;
    assert |a| == |h|;
    if |c.cmds| <= i {
      assert (a + c.cmds) + [add] == a + (c.cmds + [add]);
    } else {
      assert (a + c.cmds)[|h| + i := c.cmds[i] + add] == a + c.cmds[i := c.cmds[i] + add];
    }
  }

  lemma {:induction false} LateCompleted(c: Client, h: seq<Command>)
    requires c.rpos <= |c.buf|
    ensures Completed(Late(c, h)) == Late(Completed(c), h)
  {
    var d := [Command(c.head, c.args)];
    assert (h + c.done) + d == h + (c.done + d);
  }

  lemma {:induction false} LateTaken(c: Client, h: seq<Command>, v: int, len: nat)
    requires c.rpos + len + 3 <= |c.buf|
    ensures StarTaken(Late(c, h), v, len) == Late(StarTaken(c, v, len), h)
    ensures v >= 0 ==> DollarTaken(Late(c, h), v, len) == Late(DollarTaken(c, v, len), h)
  {
    LateAdded(c.(rpos := c.rpos + len + 3), h, c.buf[c.rpos..c.rpos + len + 1] + CRLF);
  }

  lemma {:induction false} LateBulk(c: Client, h: seq<Command>)
    requires c.rpos + c.bulk + 2 <= |c.buf| && c.multi > 0
    ensures BulkTaken(Late(c, h)) == Late(BulkTaken(c), h)
  {
    LateAdded(c.(rpos := c.rpos + c.bulk + 2), h, Unread(c)[..c.bulk] + CRLF);
  }

  lemma {:induction false} LateStep(c: Client, h: seq<Command>)
    requires c.rpos <= |c.buf|
    ensures Step(Late(c, h)) == LateTurn(Step(c), h)
  {
    hide StarTaken;
    hide DollarTaken;
    hide BulkTaken;
    hide Completed;
    hide ReadNumber;
    hide Late;
    LateLooks(c, h);
    if c.multi > 0 && c.bulk > 0 {
      LateReadBulk(c, h);
    } else if c.rpos < |c.buf| {
      if c.buf[c.rpos] != CR {
        var r := ReadNumber(Unread(c), |c.buf|);
        if r.Number? {
          LateTaken(c, h, r.v, r.len);
          LateCompleted(StarTaken(c, r.v, r.len), h);
          LateLooks(StarTaken(c, r.v, r.len), h);
        }
      }
    }
  }

  lemma {:induction false} LateLooks(c: Client, h: seq<Command>)
    ensures var l := Late(c, h);
            && l.buf == c.buf && l.rpos == c.rpos && l.multi == c.multi && l.bulk == c.bulk
            && (c.rpos <= |c.buf| ==> Unread(l) == Unread(c))
  {
  }

  lemma {:induction false} LateReadBulk(c: Client, h: seq<Command>)
    requires c.rpos <= |c.buf| && c.multi > 0
    ensures ReadBulk(Late(c, h)) == LateTurn(ReadBulk(c), h)
  {
    hide BulkTaken;
    hide Completed;
    hide Late;
    LateLooks(c, h);
    if |Unread(c)| >= c.bulk + 2 {
      LateBulk(c, h);
      LateLooks(BulkTaken(c), h);
      LateCompleted(BulkTaken(c), h);
    }
  }

  lemma {:induction false} LateRun(c: Client, h: seq<Command>)
    requires c.rpos <= |c.buf|
    ensures Run(Late(c, h)) == LateOutcome(Run(c), h)
    decreases |Unread(c)|
  {
    hide Step;
    hide Late;
    StepConsumes(c);
    LateLooks(c, h);
    LateStep(c, h);
    if Step(c).Next? {
      LateLooks(Step(c).c, h);
      RunStep(Late(c, h));
      LateRun(Step(c).c, h);
    }
  }

  // ---------------------------------------------------------------- the system

  /** The commands of one read, and the redis connection that was leased for it. */
  datatype Batch = Batch(lease: nat, cmds: seq<Command>)

  /** A client, and every redis connection it has been given: what is queued for each (`middle`) and what
      has been put on its socket; late are the bytes at the end of the client's buffer that have been received but
      not looked at, and quit says that it will not be read from again. pieces and log are not in the source: what
      the parser has been given, read by read, and what has been handed over. */
  datatype State = State(
    client: Client, late: seq<Byte>, quit: bool, queues: map<nat, seq<seq<Byte>>>, wires: map<nat, seq<Byte>>,
    pieces: seq<seq<Byte>>, log: seq<Batch>)

  const START := State(INIT, [], false, map[], map[], [], [])

  function Queue(s: State, lease: nat): seq<seq<Byte>> { if lease in s.queues then s.queues[lease] else [] }

  function Wire(s: State, lease: nat): seq<Byte> { if lease in s.wires then s.wires[lease] else [] }

  /** stale says whether an earlier call has left errno at EAGAIN; a recv that succeeds does not reset it. */
  datatype Event =
    | Read(bytes: seq<Byte>, lease: nat, stale: bool) // readC, with the connection it works for
    | Write(lease: nat, sends: seq<SendResult>)       // writeR, with what send gives

  /** baseRead drops a client whose buffer gets too long (client.c:124-128). */
  predicate TooMuch(s: State, bytes: seq<Byte>) { |s.client.buf| + |s.late| + |bytes| >= MAX_QUERY_SIZE }

  /** readC from processClient on; None if that fails. */
  function Accepted(s: State, more: seq<Byte>, lease: nat): Option<State> {
    if s.client.rpos > |s.client.buf| then None
    else
      match Run(Feed(s.client, more))
      case Err(_) => None
      case Ok(c) => Some(s.(
        client := HandedOver(c), late := [], queues := s.queues[lease := Queue(s, lease) + Given(c)],
        pieces := s.pieces + [more], log := s.log + [Batch(lease, c.done)]))
  }

  /** With errno at EAGAIN, readC goes no further than baseRead (server.c:449). */
  function After(s: State, e: Event): State {
    match e
    case Read(bytes, lease, stale) =>
      if s.quit then s
      else if TooMuch(s, bytes) then s.(quit := true)
      else if stale then s.(late := s.late + bytes)
      else
        (match Accepted(s, s.late + bytes, lease)
         case None => s.(late := s.late + bytes, quit := true)
         case Some(s1) => s1)
    case Write(lease, sends) =>
      var r := Drained(Queue(s, lease), sends, []);
      s.(queues := s.queues[lease := r.queue], wires := s.wires[lease := Wire(s, lease) + r.wire])
  }

  function AfterAll(s: State, es: seq<Event>): State
    decreases es
  {
    if es == [] then s else AfterAll(After(s, es[0]), es[1..])
  }

  /** The commands that were handed to one connection. */
  function For(log: seq<Batch>, lease: nat): seq<Command> {
    if log == [] then []
    else
      var b := log[|log| - 1];
      For(log[..|log| - 1], lease) + if b.lease == lease then b.cmds else []
  }

  /** All commands, whoever got them. */
  function All(log: seq<Batch>): seq<Command> {
    if log == [] then [] else All(log[..|log| - 1]) + log[|log| - 1].cmds
  }

  function Bytes(cs: seq<Command>): seq<Byte> { Flat(AllEncoded(cs)) }

  lemma {:induction false} BytesAppend(a: seq<Command>, b: seq<Command>)
    ensures Bytes(a + b) == Bytes(a) + Bytes(b) && AllEncoded(a + b) == AllEncoded(a) + AllEncoded(b)
  {
    assert AllEncoded(a + b) == AllEncoded(a) + AllEncoded(b);
    FlatAppend(AllEncoded(a), AllEncoded(b));
  }

  lemma {:induction false} LogMore(log: seq<Batch>, b: Batch, lease: nat)
    ensures All(log + [b]) == All(log) + b.cmds
    ensures For(log + [b], lease) == For(log, lease) + if b.lease == lease then b.cmds else []
  {
    assert (log + [b])[..|log|] == log;
  }

  // ---------------------------------------------------------------- the invariant

  ghost predicate Lossless(s: State, lease: nat) {
    Wire(s, lease) + Flat(Queue(s, lease)) == Bytes(For(s.log, lease))
  }

  /** The parser is where parsing everything that ever arrived would have left it, except that the commands
      in the log have been moved to the connections' queues, from where they get to the sockets in order. */
  ghost predicate Inv(s: State) {
    && Wf(s.client) && s.client.done == [] && Quiet(s.client)
    && FeedAll(INIT, s.pieces) == Ok(Late(s.client, All(s.log)))
    && Bytes(All(s.log)) + Flat(s.client.cmds) + Unread(s.client) == Join(s.pieces)
    && (forall lease :: Lossless(s, lease))
    && (forall lease :: NoneEmptyIn(Queue(s, lease)))
  }

  lemma {:induction false} InitInv()
    ensures Inv(START)
  {
    InitWf();
    var none: seq<Command> := [];
    assert AllEncoded(none) == [] && Late(INIT, none) == INIT;
    forall lease ensures Lossless(START, lease) { assert Flat(Queue(START, lease)) == []; }
  }

  lemma {:induction false} JoinMore(pieces: seq<seq<Byte>>, bytes: seq<Byte>)
    ensures Join(pieces + [bytes]) == Join(pieces) + bytes
  {
    if pieces == [] {
      assert (pieces + [bytes])[1..] == [];
      assert bytes + [] == bytes;
    } else {
      assert (pieces + [bytes])[1..] == pieces[1..] + [bytes];
      JoinMore(pieces[1..], bytes);
      assert pieces[0] + (Join(pieces[1..]) + bytes) == (pieces[0] + Join(pieces[1..])) + bytes;
    }
  }

  lemma {:induction false} FeedAllMore(c: Client, pieces: seq<seq<Byte>>, bytes: seq<Byte>)
    requires c.rpos <= |c.buf| && FeedAll(c, pieces).Ok?
    ensures var c1 := FeedAll(c, pieces).c;
            c1.rpos <= |c1.buf| && FeedAll(c, pieces + [bytes]) == Run(Feed(c1, bytes))
    decreases pieces
  {
    hide Run;
    RunMore(Feed(c, if pieces == [] then bytes else pieces[0]), []);
    if pieces == [] {
      assert (pieces + [bytes])[1..] == [];
    } else {
      assert (pieces + [bytes])[1..] == pieces[1..] + [bytes];
      FeedAllMore(Run(Feed(c, pieces[0])).c, pieces[1..], bytes);
    }
  }

  lemma {:induction false} FeedWf(c: Client, bytes: seq<Byte>)
    requires Wf(c)
    ensures Wf(Feed(c, bytes)) && Unread(Feed(c, bytes)) == Unread(c) + bytes
  {
    assert Partial(Feed(c, bytes)) == Partial(c);
  }

  lemma {:induction false} CommandsNotEmpty(cs: seq<Command>)
    ensures NoneEmptyIn(AllEncoded(cs))
  {
  }

  // ---------------------------------------------------------------- every event keeps it

  /** A write moves bytes from the queue of its connection to the socket. */
  lemma {:induction false} WriteQueues(s: State, lease: nat, sends: seq<SendResult>, l: nat)
    requires Lossless(s, l) && NoneEmptyIn(Queue(s, l))
    ensures var s1 := After(s, Write(lease, sends)); Lossless(s1, l) && NoneEmptyIn(Queue(s1, l))
  {
    hide Drained;
    hide For;
    hide Bytes;
    hide Flat;
    if l == lease {
      var q, w := Queue(s, l), Wire(s, l);
      var r := Drained(q, sends, []);
      DrainConserves(q, sends, []);
      DrainKeeps(q, sends, []);
      Grouped(w, r.wire, Flat(r.queue));
      Grouped([], Flat(q), []);
    }
  }

  lemma {:induction false} Grouped(a: seq<Byte>, b: seq<Byte>, c: seq<Byte>)
    ensures (a + b) + c == a + (b + c) && a + [] == a && [] + b == b
  {
    assert (a + b) + c == a + (b + c);
  }

  /** What a read adds to the queue of its connection is the commands it completed. */
  lemma {:induction false} ReadQueues(s: State, bytes: seq<Byte>, lease: nat, l: nat)
    requires Inv(s) && Accepted(s, bytes, lease).Some?
    ensures var s1 := Accepted(s, bytes, lease).value; Lossless(s1, l) && NoneEmptyIn(Queue(s1, l))
  {
    hide Run;
    hide Wf;
    hide AllEncoded;
    hide FeedAll;
    hide HandedOver;
    hide Bytes;
    hide Flat;
    hide For;
    hide NoneEmptyIn;
    var s1, c := Accepted(s, bytes, lease).value, Run(Feed(s.client, bytes)).c;
    FeedWf(s.client, bytes);
    RunWf(Feed(s.client, bytes));
    HandOverWf(c);
    LogMore(s.log, Batch(lease, c.done), l);
    assert Lossless(s, l) && NoneEmptyIn(Queue(s, l));
    if l == lease {
      QueueGrows(Wire(s, l), Queue(s, l), For(s.log, l), c.done);
    } else {
      assert For(s.log, l) + [] == For(s.log, l);
    }
  }

  lemma {:induction false} QueueGrows(w: seq<Byte>, q: seq<seq<Byte>>, cs: seq<Command>, more: seq<Command>)
    requires w + Flat(q) == Bytes(cs) && NoneEmptyIn(q)
    ensures w + Flat(q + AllEncoded(more)) == Bytes(cs + more) && NoneEmptyIn(q + AllEncoded(more))
  {
    CommandsNotEmpty(more);
    BytesAppend(cs, more);
    FlatAppend(q, AllEncoded(more));
    Grouped(w, Flat(q), Bytes(more));
  }

  /** Nothing that arrived is lost, and nothing else is there. */
  lemma {:induction false} ReadBytes(s: State, bytes: seq<Byte>, lease: nat)
    requires Inv(s) && Accepted(s, bytes, lease).Some?
    ensures var s1 := Accepted(s, bytes, lease).value;
            && Wf(s1.client) && s1.client.done == [] && Quiet(s1.client)
            && Bytes(All(s1.log)) + Flat(s1.client.cmds) + Unread(s1.client) == Join(s1.pieces)
  {
    hide Run;
    hide Wf;
    hide AllEncoded;
    hide FeedAll;
    hide HandedOver;
    hide Step;
    var s1, c := Accepted(s, bytes, lease).value, Run(Feed(s.client, bytes)).c;
    FeedWf(s.client, bytes);
    RunWf(Feed(s.client, bytes));
    RunIsQuiet(Feed(s.client, bytes));
    HandOverWf(c);
    HandOverQuiet(c);
    LogMore(s.log, Batch(lease, c.done), lease);
    BytesAppend(All(s.log), c.done);
    FlatAppend(Given(c), HandedOver(c).cmds);
    JoinMore(s.pieces, bytes);
    FourParts(Bytes(All(s.log)), Bytes(c.done), Flat(HandedOver(c).cmds), Unread(c));
    FourParts(Bytes(All(s.log)), Flat(s.client.cmds), Unread(s.client), bytes);
  }

  lemma {:induction false} FourParts(a: seq<Byte>, b: seq<Byte>, c: seq<Byte>, d: seq<Byte>)
    ensures (a + b) + c + d == a + ((b + c) + d)
    ensures (a + b + c) + d == a + (b + (c + d))
  {
    Grouped(a, b, c);
    Grouped(b, c, d);
    Grouped(a, b + c, d);
  }

  lemma {:induction false} HandOverQuiet(c: Client)
    requires Quiet(c)
    ensures Quiet(HandedOver(c))
  {
  }

  /** Late undoes the hand-over. */
  lemma {:induction false} LateHandOver(c: Client, h: seq<Command>)
    requires Wf(c)
    ensures Late(HandedOver(c), h + c.done) == Late(c, h)
  {
    HandOverWf(c);
    BytesAppend(h, c.done);
    assert (AllEncoded(h) + Given(c)) + HandedOver(c).cmds == AllEncoded(h) + (Given(c) + HandedOver(c).cmds);
    assert (h + c.done) + [] == h + c.done;
  }

  lemma {:induction false} LateFeed(c: Client, h: seq<Command>, bytes: seq<Byte>)
    ensures Feed(Late(c, h), bytes) == Late(Feed(c, bytes), h)
  {
  }

  lemma {:induction false} ReadParser(s: State, bytes: seq<Byte>, lease: nat)
    requires Inv(s) && Accepted(s, bytes, lease).Some?
    ensures var s1 := Accepted(s, bytes, lease).value; FeedAll(INIT, s1.pieces) == Ok(Late(s1.client, All(s1.log)))
  {
    hide Run;
    hide Wf;
    hide AllEncoded;
    hide FeedAll;
    hide HandedOver;
    hide Late;
    var c0 := Feed(s.client, bytes);
    var c := Run(c0).c;
    FeedWf(s.client, bytes);
    WfReads(s.client);
    WfReads(c0);
    RunWf(c0);
    FeedAllMore(INIT, s.pieces, bytes);
    LateFeed(s.client, All(s.log), bytes);
    LateRun(c0, All(s.log));
    LateHandOver(c, All(s.log));
    LogMore(s.log, Batch(lease, c.done), lease);
  }

  lemma {:induction false} WfReads(c: Client)
    requires Wf(c)
    ensures c.rpos <= |c.buf|
  {
  }

  lemma {:induction false} WriteLeaves(s: State, lease: nat, sends: seq<SendResult>)
    ensures var s1 := After(s, Write(lease, sends)); s1.client == s.client && s1.pieces == s.pieces && s1.log == s.log
  {
  }

  lemma {:induction false} AcceptedInv(s: State, more: seq<Byte>, lease: nat)
    requires Inv(s) && Accepted(s, more, lease).Some?
    ensures Inv(Accepted(s, more, lease).value)
  {
    hide Accepted;
    hide Wf;
    hide Quiet;
    hide Lossless;
    ReadBytes(s, more, lease);
    ReadParser(s, more, lease);
    var s1 := Accepted(s, more, lease).value;
    forall l ensures Lossless(s1, l) && NoneEmptyIn(Queue(s1, l)) { ReadQueues(s, more, lease, l); }
  }

  /** What is received but not looked at does not matter. */
  lemma {:induction false} LateInv(s: State, late: seq<Byte>, quit: bool)
    requires Inv(s)
    ensures Inv(s.(late := late, quit := quit))
  {
    hide Wf;
    hide Quiet;
    hide Bytes;
    hide Flat;
    var s1 := s.(late := late, quit := quit);
    forall l ensures Lossless(s1, l) && NoneEmptyIn(Queue(s1, l)) {
      assert Lossless(s, l) && NoneEmptyIn(Queue(s, l));
    }
  }

  lemma {:induction false} AfterInv(s: State, e: Event)
    requires Inv(s)
    ensures Inv(After(s, e))
  {
    hide Inv;
    match e
    case Read(bytes, lease, stale) =>
      hide Accepted;
      LateInv(s, s.late, true);
      LateInv(s, s.late + bytes, s.quit);
      LateInv(s, s.late + bytes, true);
      if Accepted(s, s.late + bytes, lease).Some? { AcceptedInv(s, s.late + bytes, lease); }
    case Write(lease, sends) =>
      WriteInv(s, lease, sends);
  }

  lemma {:induction false} WriteInv(s: State, lease: nat, sends: seq<SendResult>)
    requires Inv(s)
    ensures Inv(After(s, Write(lease, sends)))
  {
    hide After;
    hide Wf;
    hide Quiet;
    hide Lossless;
    var s1 := After(s, Write(lease, sends));
    WriteLeaves(s, lease, sends);
    forall l ensures Lossless(s1, l) && NoneEmptyIn(Queue(s1, l)) {
      assert Lossless(s, l) && NoneEmptyIn(Queue(s, l));
      WriteQueues(s, lease, sends, l);
    }
  }

  lemma {:induction false} AfterAllInv(s: State, es: seq<Event>)
    requires Inv(s)
    ensures Inv(AfterAll(s, es))
    decreases es
  {
    if es != [] {
      AfterInv(s, es[0]);
      AfterAllInv(After(s, es[0]), es[1..]);
    }
  }

  // ---------------------------------------------------------------- end to end

  /** The bytes of a run that baseRead has put into the client's buffer. */
  function Received(s: State, es: seq<Event>): seq<Byte>
    decreases es
  {
    if es == [] then []
    else
      (match es[0]
       case Read(bytes, _, _) => if s.quit || TooMuch(s, bytes) then [] else bytes
       case Write(_, _) => [])
      + Received(After(s, es[0]), es[1..])
  }

  lemma {:induction false} ReceivedAll(s: State, es: seq<Event>)
    ensures var s1 := AfterAll(s, es); Join(s1.pieces) + s1.late == Join(s.pieces) + s.late + Received(s, es)
    decreases es
  {
    if es == [] {
      assert Received(s, es) == [];
    } else {
      var s1 := After(s, es[0]);
      ReceivedAll(s1, es[1..]);
      ReceivedOnce(s, es[0]);
      var first: seq<Byte> := match es[0] case Read(bytes, _, _) => if s.quit || TooMuch(s, bytes) then [] else bytes case Write(_, _) => [];
      Grouped(Join(s.pieces) + s.late, first, Received(s1, es[1..]));
    }
  }

  lemma {:induction false} ReceivedOnce(s: State, e: Event)
    ensures var s1 := After(s, e);
            Join(s1.pieces) + s1.late == Join(s.pieces) + s.late +
              (match e case Read(bytes, _, _) => if s.quit || TooMuch(s, bytes) then [] else bytes case Write(_, _) => [])
  {
    hide Run;
    hide Drained;
    if e.Read? {
      JoinMore(s.pieces, s.late + e.bytes);
      Grouped(Join(s.pieces), s.late, e.bytes);
      Grouped(Join(s.pieces) + (s.late + e.bytes), [], []);
    }
    Grouped(Join(s.pieces) + s.late, [], []);
  }

  lemma {:induction false} LogIsParsed(s: State)
    requires Inv(s)
    ensures var whole := Run(Feed(INIT, Join(s.pieces))); whole.Ok? && whole.c.done == All(s.log)
  {
    hide Run;
    InitQuiet();
    ChunkIndependence(INIT, s.pieces);
  }

  /** For any cut of the client's input into reads, any choice of connections and any results of send: what
      is on a connection's socket is a beginning of the commands handed to it, byte for byte and in order;
      the commands handed over, read by read, are those that parsing the whole input at once gives, up to the last
      read that was looked at; and nothing is lost before the hand-over. */
  lemma {:induction false} EndToEnd(es: seq<Event>, lease: nat)
    ensures var s := AfterAll(START, es);
            && Wire(s, lease) <= Bytes(For(s.log, lease))
            && Wire(s, lease) + Flat(Queue(s, lease)) == Bytes(For(s.log, lease))
            && (var whole := Run(Feed(INIT, Join(s.pieces))); whole.Ok? && whole.c.done == All(s.log))
            && s.client.rpos <= |s.client.buf|
            && Bytes(All(s.log)) + Flat(s.client.cmds) + Unread(s.client) + s.late == Received(START, es)
  {
    hide Run;
    InitInv();
    AfterAllInv(START, es);
    var s := AfterAll(START, es);
    assert Lossless(s, lease);
    LogIsParsed(s);
    ReceivedAll(START, es);
    assert Join(START.pieces) + START.late + Received(START, es) == Received(START, es);
  }

  /** The commands handed over are those of all the input that has arrived exactly if the bytes not looked at, which
      are there only if errno was left at EAGAIN by an earlier call or the client has made an error, are no error and
      complete no command. */
  lemma {:induction false} HandedOverExactly(es: seq<Event>)
    ensures var s := AfterAll(START, es);
            && s.client.rpos <= |s.client.buf|
            && var whole, rest := Run(Feed(INIT, Received(START, es))), Run(Feed(s.client, s.late));
            whole.Ok? && whole.c.done == All(s.log) <==> rest.Ok? && rest.c.done == []
  {
    hide Run;
    hide Late;
    hide Wf;
    InitInv();
    AfterAllInv(START, es);
    var s := AfterAll(START, es);
    var h := All(s.log);
    var c0 := Feed(INIT, Join(s.pieces));
    InitQuiet();
    ChunkIndependence(INIT, s.pieces);
    WfReads(s.client);
    RunMore(c0, s.late);
    FeedTwice(INIT, Join(s.pieces), s.late);
    LateFeed(s.client, h, s.late);
    LateRun(Feed(s.client, s.late), h);
    LateDone(Run(Feed(s.client, s.late)), h);
    ReceivedAll(START, es);
    assert Join(START.pieces) + START.late + Received(START, es) == Received(START, es);
  }

  lemma {:induction false} FeedTwice(c: Client, a: seq<Byte>, b: seq<Byte>)
    ensures Feed(Feed(c, a), b) == Feed(c, a + b) && Feed(c, []) == c
  {
    assert (c.buf + a) + b == c.buf + (a + b);
  }

  lemma {:induction false} LateDone(o: Outcome, h: seq<Command>)
    ensures LateOutcome(o, h).Ok? <==> o.Ok?
    ensures o.Ok? ==> (LateOutcome(o, h).c.done == h <==> o.c.done == [])
  {
    if o.Ok? { assert |h + o.c.done| == |h| + |o.c.done|; }
  }

  /** For instance one whole command, read while errno is EAGAIN: nothing is handed over. */
  lemma {:induction false} StaleReadWaits(args: seq<seq<Byte>>, lease: nat)
    requires Sendable(args) && |Encoded(Usual(args))| < MAX_QUERY_SIZE
    ensures var e, s := Encoded(Usual(args)), AfterAll(START, [Read(Encoded(Usual(args)), lease, true)]);
            && s.late == e && s.log == [] && Queue(s, lease) == []
            && var whole := Run(Feed(INIT, e)); whole.Ok? && whole.c.done == [Usual(args)]
  {
    var e := Encoded(Usual(args));
    var es := [Read(e, lease, true)];
    assert es[1..] == [];
    assert [] + e == e;
    assert AfterAll(START, es) == AfterAll(After(START, es[0]), []);
    RespLimit.WholeCommand(args);
  }

  lemma {:induction false} InitQuiet()
    ensures Quiet(INIT)
  {
  }

  // ---------------------------------------------------------------- what each event does

  /** A read after any run. A client that has been ended stays so. Too long a buffer ends it. With errno at EAGAIN the read
      does nothing but keep the bytes. Otherwise it ends the client exactly if all that has been received, parsed in one
      piece, is an error; and if not, nothing is left unlooked at, the commands of all that has been received have been
      handed over, those that are new on the connection of this read, and no other connection is touched. */
  lemma {:induction false} ReadDoes(es: seq<Event>, bytes: seq<Byte>, lease: nat, stale: bool)
    ensures var s, s1 := AfterAll(START, es), After(AfterAll(START, es), Read(bytes, lease, stale));
            var whole := Run(Feed(INIT, Received(START, es) + bytes));
            if s.quit then s1 == s
            else if TooMuch(s, bytes) then s1 == s.(quit := true)
            else if stale then s1 == s.(late := s.late + bytes)
            else
              && (s1.quit <==> whole.Err?)
              && (s1.quit ==> s1.log == s.log && s1.queues == s.queues && s1.wires == s.wires)
              && (!s1.quit ==> s1.late == [] && ReadHandsOver(s, s1, lease, whole.c.done))
  {
    hide Run;
    hide Received;
    hide Accepted;
    var s := AfterAll(START, es);
    if !s.quit && !TooMuch(s, bytes) && !stale {
      InitInv();
      AfterAllInv(START, es);
      ReceivedAll(START, es);
      assert Join(START.pieces) + START.late + Received(START, es) == Received(START, es);
      AllOf(s, bytes, Received(START, es));
      LookedAt(s, s.late + bytes, lease, Received(START, es) + bytes);
    }
    hide ReadHandsOver;
    hide Inv;
  }

  lemma {:induction false} AllOf(s: State, bytes: seq<Byte>, received: seq<Byte>)
    requires Join(s.pieces) + s.late == received
    ensures Join(s.pieces) + (s.late + bytes) == received + bytes
  {
    Grouped(Join(s.pieces), s.late, bytes);
  }

  lemma {:induction false} LookedAt(s: State, more: seq<Byte>, lease: nat, all: seq<Byte>)
    requires Inv(s) && Join(s.pieces) + more == all
    ensures var whole, a := Run(Feed(INIT, all)), Accepted(s, more, lease);
            && (a == None <==> whole.Err?)
            && (a.Some? ==> a.value.quit == s.quit && a.value.late == [] && ReadHandsOver(s, a.value, lease, whole.c.done))
  {
    hide Run;
    hide Late;
    hide ReadHandsOver;
    WfReads(s.client);
    hide Wf;
    WholeRun(s, more, all);
    if Run(Feed(s.client, more)).Ok? { AcceptedDoes(s, more, lease, all); }
    hide Inv;
  }

  /** All commands are now those in whole, and the new ones have gone to this lease. */
  ghost predicate ReadHandsOver(s: State, s1: State, lease: nat, whole: seq<Command>) {
    && All(s1.log) == whole && All(s.log) <= whole
    && var new_ := whole[|All(s.log)|..];
    && s1.log == s.log + [Batch(lease, new_)]
    && Queue(s1, lease) == Queue(s, lease) + AllEncoded(new_)
    && (forall l :: l != lease ==> Queue(s1, l) == Queue(s, l)) && s1.wires == s.wires
  }

  lemma {:induction false} WholeRun(s: State, more: seq<Byte>, all: seq<Byte>)
    requires Inv(s) && s.client.rpos <= |s.client.buf| && Join(s.pieces) + more == all
    ensures Run(Feed(INIT, all)) == LateOutcome(Run(Feed(s.client, more)), All(s.log))
  {
    hide Run;
    hide Late;
    hide Wf;
    var h := All(s.log);
    InitQuiet();
    ChunkIndependence(INIT, s.pieces);
    RunMore(Feed(INIT, Join(s.pieces)), more);
    FeedTwice(INIT, Join(s.pieces), more);
    LateFeed(s.client, h, more);
    LateRun(Feed(s.client, more), h);
  }

  lemma {:induction false} AcceptedDoes(s: State, more: seq<Byte>, lease: nat, all: seq<Byte>)
    requires Inv(s) && s.client.rpos <= |s.client.buf| && Run(Feed(s.client, more)).Ok?
    requires Run(Feed(INIT, all)) == LateOutcome(Run(Feed(s.client, more)), All(s.log))
    ensures Accepted(s, more, lease).Some? && Accepted(s, more, lease).value.quit == s.quit
    ensures var s1 := Accepted(s, more, lease).value; s1.late == [] && ReadHandsOver(s, s1, lease, Run(Feed(INIT, all)).c.done)
  {
    hide Run;
    hide AllEncoded;
    var h, c := All(s.log), Run(Feed(s.client, more)).c;
    assert (h + c.done)[|h|..] == c.done;
    FeedWf(s.client, more);
    RunWf(Feed(s.client, more));
    HandOverWf(c);
    LogMore(s.log, Batch(lease, c.done), lease);
    hide Wf;
  }

  /** For instance one whole command, read first: it is handed over. */
  lemma {:induction false} FreshReadHandsOver(args: seq<seq<Byte>>, lease: nat)
    requires Sendable(args) && |Encoded(Usual(args))| < MAX_QUERY_SIZE
    ensures var e, s := Encoded(Usual(args)), AfterAll(START, [Read(Encoded(Usual(args)), lease, false)]);
            && !s.quit && s.late == [] && s.log == [Batch(lease, [Usual(args)])] && Queue(s, lease) == [e]
  {
    var e := Encoded(Usual(args));
    var none: seq<Event> := [];
    var es := [Read(e, lease, false)];
    assert es[1..] == none && AfterAll(START, es) == AfterAll(After(START, es[0]), none);
    ReadDoes(none, e, lease, false);
    RespLimit.WholeCommand(args);
    hide Run;
    hide Encoded;
    assert Received(START, none) == [] && [] + e == e;
    var noBatch: seq<Batch> := [];
    assert All(noBatch) == [] && noBatch + [Batch(lease, [Usual(args)])] == [Batch(lease, [Usual(args)])];
    assert AllEncoded([Usual(args)]) == [e];
  }

  /** A write puts on the socket what the sends take, and on no other. */
  lemma {:induction false} WriteDoes(s: State, lease: nat, sends: seq<SendResult>) returns (m: nat)
    ensures m <= |sends| && (forall k :: 0 <= k < m ==> Made(Queue(s, lease), sends, k)) && !Made(Queue(s, lease), sends, m)
    ensures var s1, q, t := After(s, Write(lease, sends)), Queue(s, lease), Drain.Accepted(Queue(s, lease), sends, m);
            && t <= |Flat(q)| && Wire(s1, lease) == Wire(s, lease) + Flat(q)[..t] && Queue(s1, lease) == Rest(q, t)
            && (forall l :: l != lease ==> Queue(s1, l) == Queue(s, l) && Wire(s1, l) == Wire(s, l))
            && s1.client == s.client && s1.late == s.late && s1.quit == s.quit && s1.log == s.log
  {
    m := DrainedExactly(Queue(s, lease), sends);
    hide Drained;
    hide Made;
  }

  predicate OnlyLease(log: seq<Batch>, lease: nat) { forall i :: 0 <= i < |log| ==> log[i].lease == lease }

  lemma {:induction false} OneLeaseGetsAll(log: seq<Batch>, lease: nat)
    requires OnlyLease(log, lease)
    ensures For(log, lease) == All(log)
  {
    if log != [] { OneLeaseGetsAll(log[..|log| - 1], lease); }
  }

  /** As long as the client stays on one connection (a blocking command keeps it there), the bytes on that
      connection's socket are a beginning of the bytes the client sent. */
  lemma {:induction false} OneConnection(es: seq<Event>, lease: nat)
    requires OnlyLease(AfterAll(START, es).log, lease)
    ensures var s := AfterAll(START, es); Wire(s, lease) <= Received(START, es)
    ensures var s := AfterAll(START, es);
            s.client.rpos <= |s.client.buf| &&
            Wire(s, lease) + Flat(Queue(s, lease)) + Flat(s.client.cmds) + Unread(s.client) + s.late == Received(START, es)
  {
    var s := AfterAll(START, es);
    EndToEnd(es, lease);
    OneLeaseGetsAll(s.log, lease);
    Front(Wire(s, lease), Flat(Queue(s, lease)), Flat(s.client.cmds), Unread(s.client), s.late);
  }

  lemma {:induction false} Front(a: seq<Byte>, b: seq<Byte>, c: seq<Byte>, d: seq<Byte>, e: seq<Byte>)
    ensures a <= a + b + c + d + e
  {
  }

  // ---------------------------------------------------------------- in place

  /** The way of one read in readC: baseRead, processClient, mvArrayBuff; or baseRead alone, if errno is still EAGAIN.
      Together the loops do what a Read event says. */
  method ForwardRead(c: ClientParser.Client, middle: BufferArray, bytes: seq<Byte>, lease: nat, stale: bool, ghost s: State)
    returns (quit: bool)
    requires c.Valid() && middle.Valid() && middle != c.cmds && middle.buff != c.cmds.buff
    requires |bytes| <= PER_IOBUF_SIZE
    requires !s.quit && s.client.rpos <= |s.client.buf|
    requires c.Abs() == Feed(s.client, s.late) && middle.Queue() == Queue(s, lease)
    modifies c, c.cmd, c.cmd.buf, c.cmds, c.cmds.buff, middle, middle.buff
    ensures var s1 := After(s, Read(bytes, lease, stale));
            && quit == s1.quit
            && (!quit ==> c.Valid() && middle.Valid() && c.Abs() == Feed(s1.client, s1.late) && middle.Queue() == Queue(s1, lease))
  {
    hide Run;
    FeedTwice(s.client, s.late, bytes);
    if c.cmd.wpos + |bytes| >= MAX_QUERY_SIZE {
      return true;
    }
    c.cmd.Receive(bytes);
    assert c.Abs() == Feed(s.client, s.late + bytes);
    if stale { // kept: server.c:449 looks at the errno of an earlier call
      return false;
    }
    quit := ForwardParsed(c, middle);
  }

  method ForwardParsed(c: ClientParser.Client, middle: BufferArray) returns (quit: bool)
    requires c.Valid() && middle.Valid() && middle != c.cmds && middle.buff != c.cmds.buff
    modifies c, c.cmd, c.cmd.buf, c.cmds, c.cmds.buff, middle, middle.buff
    ensures match Run(old(c.Abs()))
            case Err(_) => quit
            case Ok(c1) =>
              && !quit && c.Valid() && middle.Valid()
              && c.Abs() == Feed(HandedOver(c1), []) && middle.Queue() == old(middle.Queue()) + Given(c1)
  {
    hide Run;
    var e := c.ProcessClient();
    if e == None {
      HandOver(c, middle);
      FeedTwice(c.Abs(), [], []);
    }
    return e != None;
  }

  /** The hand-over in readC (src/net/server.c:487, 519). */
  method HandOver(c: ClientParser.Client, middle: BufferArray)
    requires c.Valid() && middle.Valid() && middle != c.cmds && middle.buff != c.cmds.buff
    modifies c`cmdNum, c`done, c.cmds, c.cmds.buff, middle, middle.buff
    ensures c.Valid() && middle.Valid() && c.Abs() == HandedOver(old(c.Abs()))
    ensures middle.Queue() == old(middle.Queue()) + Given(old(c.Abs()))
  {
    var moved := MvArrayBuff(middle, c.cmds);
    c.cmdNum := 0;
    c.done := [];
  }
}
