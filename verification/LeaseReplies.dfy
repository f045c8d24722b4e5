/** Leases and replies together: the events of Lease, where what a read from a redis connection comes to is not
    given but is what the parser of that connection makes of the bytes. */
module LeaseReplies {
  import opened Wrappers
  import opened Decimal
  import opened Buffers
  import R = Resp
  import opened Replies
  import opened Q = ReplyRun
  import L = Lease

  type Fd = L.Fd

  /** lines holds, for each open connection, its parser and what has gone through it since it was leased; the
      queue of a line is what it has handed to its client. */
  datatype World = World(svc: L.Service, lines: map<Fd, Leased>)

  datatype Happening =
    | Other(e: L.Event)
    | Asked(c: Fd, isBlock: bool, spare: Option<Fd>, replies: seq<Reply>) // a read completes commands; redis will reply so
    | Came(r: Fd, bytes: seq<Byte>, stale: bool) // stale: errno was left at EAGAIN by an earlier call

  /** An event in which no command is completed and no byte of a reply comes. */
  predicate NoTraffic(e: L.Event) {
    match e
    case ReadC(_, input, _) => !input.Commands?
    case ReadR(_, reply) => reply == L.Lost || reply == L.NoReply
    case _ => true
  }

  predicate Present(s: L.Service, r: Fd) { r in s.rToC && s.rToC[r] in s.clients && !s.clients[s.rToC[r]].isQuit }

  /** The parser of a connection that is not open yet is new. */
  function LineOf(w: World, r: Fd): Leased { if r in w.lines then w.lines[r] else FRESH }

  /** Redis sends the replies to what it was asked, in order, and nothing else. */
  ghost predicate Possible(w: World, h: Happening) {
    match h
    case Other(e) => NoTraffic(e) && L.Possible(w.svc, e)
    case Asked(c, isBlock, spare, replies) =>
      AllGood(replies) && L.Possible(w.svc, L.ReadC(c, L.Commands(|replies|, isBlock), spare))
    case Came(r, bytes, stale) => r in w.svc.redises && r in w.lines && Q.Possible(w.lines[r], Arrived(bytes, stale))
  }

  /** What the bytes come to. With errno at EAGAIN they are not looked at (server.c:389). */
  function Outcome(l: Leased, bytes: seq<Byte>, stale: bool): L.FromRedis
    requires Sound(l.s)
  {
    match Read(l, bytes, stale)
    case None => L.BadReply
    case Some(l1) =>
      if stale then L.NoReply else if l1.s.rNum <= l.s.rNum then L.Replies(l.s.rNum - l1.s.rNum) else L.BadReply
  }

  ghost function EventOf(w: World, h: Happening): L.Event
    requires Ok(w) && Possible(w, h)
  {
    match h
    case Other(e) => e
    case Asked(c, isBlock, spare, replies) => L.ReadC(c, L.Commands(|replies|, isBlock), spare)
    case Came(r, bytes, stale) => LinesOk(w, r); L.ReadR(r, Outcome(w.lines[r], bytes, stale))
  }

  /** The connection that a client's commands go to. */
  function Target(s: L.Service, c: Fd, spare: Option<Fd>): Option<Fd>
    requires c in s.clients && s.avalidNum == |s.idle|
  {
    if s.clients[c].isQuit then None
    else if s.clients[c].isBlock then (if c in s.cToR then Some(s.cToR[c]) else None)
    else L.Get(s, spare).0
  }

  ghost function Moved(w: World, h: Happening): map<Fd, Leased>
    requires Ok(w) && Possible(w, h)
  {
    match h
    case Other(e) => w.lines
    case Asked(c, isBlock, spare, replies) =>
      (match Target(w.svc, c, spare)
       case None => w.lines
       case Some(r) => w.lines[r := Q.Forward(LineOf(w, r), replies)])
    case Came(r, bytes, stale) =>
      LinesOk(w, r);
      match Read(w.lines[r], bytes, stale)
      case None => w.lines
      case Some(l) => w.lines[r := l]
  }

  /** The parser stays as the lease leaves it; the account starts anew. */
  function Renewed(l: Leased): Leased { Leased(l.s, [], [], [], [], []) }

  ghost function After(w: World, h: Happening): World
    requires Ok(w) && Possible(w, h)
  {
    EventIsPossible(w, h);
    Settled(L.Step(w.svc, EventOf(w, h)), Moved(w, h))
  }

  function Settled(s1: L.Service, lines: map<Fd, Leased>): World {
    World(s1, map r | r in s1.redises :: LineAfter(s1, lines, r))
  }

  function LineAfter(s1: L.Service, lines: map<Fd, Leased>, r: Fd): Leased {
    var l := if r in lines then lines[r] else FRESH;
    if r in s1.rToC then l else Renewed(l)
  }

  ghost predicate LineOk(s: L.Service, r: Fd, l: Leased)
    requires r in s.redises
  {
    && Q.Inv(l) && l.wire == [] && l.s.rNum == s.redises[r].rNum
    && (r !in s.rToC ==> l.due == [] && l.got == [] && l.queue == [] && l.late == [])
  }

  ghost predicate Ok(w: World) {
    L.Inv(w.svc) && w.lines.Keys == w.svc.redises.Keys && forall r :: r in w.svc.redises ==> LineOk(w.svc, r, w.lines[r])
  }

  lemma {:induction false} LinesOk(w: World, r: Fd)
    requires Ok(w) && r in w.lines
    ensures r in w.svc.redises && LineOk(w.svc, r, w.lines[r]) && Sound(w.lines[r].s)
  {
  }

  // ---------------------------------------------------------------- what a step does to the counts

  lemma {:induction false} ReadCounts(l: Leased, bytes: seq<Byte>, stale: bool)
    requires Q.Inv(l) && Read(l, bytes, stale).Some?
    ensures var l1 := Read(l, bytes, stale).value;
            && l1.s.rNum <= l.s.rNum && (stale ==> l1.s == l.s && l1.queue == l.queue)
            && l1.wire == l.wire && l1.due == l.due && l1.got == if stale then l.got else l.got + l.late + bytes
  {
    hide Run;
    hide Run0;
    Regrouped(l.got, l.late, bytes);
    if !stale {
      var x := Fed(l.s, l.late + bytes);
      RunIsRun0(x);
      Run0More(x, []);
    }
    hide RepliesBytes;
  }

  /** Lease's condition on a reply event, discharged. */
  lemma {:induction false} EventIsPossible(w: World, h: Happening)
    requires Ok(w) && Possible(w, h)
    ensures L.Possible(w.svc, EventOf(w, h))
  {
    hide Q.Inv;
    hide Read;
    hide L.Inv;
    if h.Came? { LinesOk(w, h.r); }
  }

  /** All connections that are left are as they were, and with whom they were. */
  ghost predicate Undisturbed(s: L.Service, s1: L.Service) {
    forall r :: r in s1.redises ==>
      && s1.redises[r] == (if r in s.redises then s.redises[r] else L.UNUSED)
      && (r in s1.rToC <==> r in s.rToC) && (r in s1.rToC ==> s1.rToC[r] == s.rToC[r])
  }

  lemma {:induction false} DropLeavesOthers(s: L.Service, r: Fd)
    ensures Undisturbed(s, L.Drop(s, r)) && r !in L.Drop(s, r).redises
  {
  }

  lemma {:induction false} DropClientLeavesOthers(s: L.Service, c: Fd)
    ensures Undisturbed(s, L.DropClient(s, c))
  {
  }

  lemma {:induction false} OtherClients(s: L.Service, s0: L.Service, s1: L.Service)
    requires s0 == s.(clients := s0.clients, cToR := s0.cToR) && Undisturbed(s0, s1)
    ensures Undisturbed(s, s1)
  {
  }

  /** Without traffic no count changes, and what was leased stays leased or is closed. */
  lemma {:induction false} QuietCounts(s: L.Service, e: L.Event)
    requires L.Inv(s) && L.Possible(s, e) && NoTraffic(e)
    ensures Undisturbed(s, L.Step(s, e))
  {
    hide L.Drop;
    hide L.DropClient;
    hide L.OnReadC;
    match e
    case Accept(c) =>
    case ReadC(c, input, spare) => QuietReadC(s, c, input, spare);
    case ReadR(r, _) =>
      hide L.Inv;
      DropLeavesOthers(s, r);
      if r in s.rToC {
        var s0 := L.Quit(s, s.rToC[r]).(cToR := s.cToR - {s.rToC[r]});
        DropLeavesOthers(s0, r);
        OtherClients(s, s0, L.Drop(s0, r));
      }
    case WriteR(r, _) =>
      hide L.Inv;
      DropLeavesOthers(s, r);
      if r in s.rToC {
        var s0 := L.Quit(s, s.rToC[r]);
        DropLeavesOthers(s0, r);
        OtherClients(s, s0, L.Drop(s0, r));
      }
    case WriteC(c, _, _) => DropClientLeavesOthers(s, c);
  }

  lemma {:induction false} QuietReadC(s: L.Service, c: Fd, input: L.FromClient, spare: Option<Fd>)
    requires L.Inv(s) && L.Possible(s, L.ReadC(c, input, spare)) && !input.Commands?
    ensures L.Inv(s) ==> Undisturbed(s, L.OnReadC(s, c, input, spare))
  {
    hide L.Drop;
    hide L.DropClient;
    hide L.Get;
    L.EntriesAreOpen(s, {});
    L.IdleIs(s);
    hide L.Inv;
    if input == L.Closed {
      DropClientLeavesOthers(s, c);
    } else if input.Garbled? && !s.clients[c].isQuit {
      if s.clients[c].isBlock {
        if c in s.cToR { QuietBlocked(s, c, input.isBlock); }
      } else {
        QuietRejected(s, c, input.isBlock, spare);
        hide L.Rejected;
      }
    }
  }

  lemma {:induction false} QuietBlocked(s: L.Service, c: Fd, isBlock: bool)
    requires c in s.clients && s.clients[c].isBlock && c in s.cToR
    ensures Undisturbed(s, L.Rejected(s, c, s.cToR[c], isBlock))
  {
    hide L.Drop;
    var s0 := s.(clients := s.clients[c := L.Client(true, isBlock)]);
    DropLeavesOthers(s0, s.cToR[c]);
    OtherClients(s, s0, L.Drop(s0, s.cToR[c]));
  }

  lemma {:induction false} Thereafter(s: L.Service, s1: L.Service, s2: L.Service)
    requires Undisturbed(s, s1) && Undisturbed(s1, s2) && s2.redises.Keys <= s1.redises.Keys
    ensures Undisturbed(s, s2)
  {
    forall r | r in s2.redises
      ensures s2.redises[r] == (if r in s.redises then s.redises[r] else L.UNUSED)
      ensures (r in s2.rToC <==> r in s.rToC) && (r in s2.rToC ==> s2.rToC[r] == s.rToC[r])
    {
      assert r in s1.redises;
    }
  }

  lemma {:induction false} QuietRejected(s: L.Service, c: Fd, isBlock: bool, spare: Option<Fd>)
    requires L.Inv(s) && c in s.clients && !s.clients[c].isBlock && (spare.Some? ==> spare.value !in s.redises)
    ensures match L.Get(s, spare)
            case (None, _) => true
            case (Some(r), s1) => c in s1.clients && Undisturbed(s, L.Rejected(s1, c, r, isBlock))
  {
    GetLeavesOthers(s, spare);
    var (r, s1) := L.Get(s, spare);
    if r.Some? {
      RejectedLeavesOthers(s1, c, r.value, isBlock);
      hide Undisturbed;
      hide L.Rejected;
      Thereafter(s, s1, L.Rejected(s1, c, r.value, isBlock));
    }
  }

  /** A connection that has just been leased goes back, or goes. */
  lemma {:induction false} RejectedLeavesOthers(s: L.Service, c: Fd, r: Fd, isBlock: bool)
    requires c in s.clients && !s.clients[c].isBlock && r in s.redises && s.redises[r] == L.UNUSED
    ensures var s1 := L.Rejected(s, c, r, isBlock); Undisturbed(s, s1) && s1.redises.Keys <= s.redises.Keys
  {
    var s0 := s.(clients := s.clients[c := L.Client(true, isBlock)]);
    DropLeavesOthers(s0, r);
    PutLeavesOthers(s0, r);
  }

  lemma {:induction false} GetLeavesOthers(s: L.Service, spare: Option<Fd>)
    requires L.Inv(s) && (spare.Some? ==> spare.value !in s.redises)
    ensures var (r, s1) := L.Get(s, spare);
            Undisturbed(s, s1) && s1.clients == s.clients && (r.Some? ==> r.value in s1.redises && s1.redises[r.value] == L.UNUSED)
  {
    L.GetKeeps(s, spare);
    L.GetLeavesClients(s, spare);
    hide L.IdleOk;
    hide L.TablesOk;
    hide L.BlockedOk;
  }

  lemma {:induction false} PutLeavesOthers(s: L.Service, r: Fd)
    requires r in s.redises && s.redises[r] == L.UNUSED
    ensures Undisturbed(s, L.Put(s, r))
  {
  }

  ghost predicate UndisturbedBut(s: L.Service, s1: L.Service, but: Fd) {
    forall r :: r in s1.redises && r != but ==>
      && s1.redises[r] == (if r in s.redises then s.redises[r] else L.UNUSED)
      && (r in s1.rToC <==> r in s.rToC) && (r in s1.rToC ==> s1.rToC[r] == s.rToC[r])
  }

  function CountOf(s: L.Service, r: Fd): nat { if r in s.redises then s.redises[r].rNum else 0 }

  lemma {:induction false} ForwardedCounts(s: L.Service, c: Fd, r: Fd, n: nat, isBlock: bool)
    requires c in s.clients && !s.clients[c].isQuit && r in s.redises
    ensures var s1 := L.Forwarded(s, c, r, n, isBlock);
            && r in s1.redises && s1.redises[r] == L.Redis(s.redises[r].rNum + n, isBlock)
            && r in s1.rToC && s1.rToC[r] == c && s1.clients == s.clients[c := L.Client(false, isBlock)]
            && UndisturbedBut(s, s1, r) && s1.redises.Keys == s.redises.Keys
  {
  }

  lemma {:induction false} ThereafterBut(s: L.Service, s1: L.Service, s2: L.Service, r: Fd)
    requires Undisturbed(s, s1) && UndisturbedBut(s1, s2, r) && s2.redises.Keys <= s1.redises.Keys
    ensures UndisturbedBut(s, s2, r)
  {
    forall x | x in s2.redises && x != r
      ensures s2.redises[x] == (if x in s.redises then s.redises[x] else L.UNUSED)
      ensures (x in s2.rToC <==> x in s.rToC) && (x in s2.rToC ==> s2.rToC[x] == s.rToC[x])
    {
      assert x in s1.redises;
    }
  }

  lemma {:induction false} LentCounts(s: L.Service, c: Fd, n: nat, isBlock: bool, spare: Option<Fd>)
    requires L.Inv(s) && c in s.clients && !s.clients[c].isQuit && (spare.Some? ==> spare.value !in s.redises)
    ensures match L.Get(s, spare)
            case (None, _) => true
            case (Some(r), s0) =>
              && c in s0.clients && r in s0.redises
              && var s1 := L.Forwarded(s0, c, r, n, isBlock);
              && r in s1.redises && s1.redises[r] == L.Redis(CountOf(s, r) + n, isBlock)
              && r in s1.rToC && s1.rToC[r] == c && s1.clients == s.clients[c := L.Client(false, isBlock)]
              && UndisturbedBut(s, s1, r)
  {
    GetLeavesOthers(s, spare);
    var (r, s0) := L.Get(s, spare);
    hide L.Inv;
    if r.Some? {
      ForwardedCounts(s0, c, r.value, n, isBlock);
      ThereafterBut(s, s0, L.Forwarded(s0, c, r.value, n, isBlock), r.value);
      hide L.Forwarded;
      hide L.Get;
      hide UndisturbedBut;
    }
  }

  lemma {:induction false} AskedCounts(s: L.Service, c: Fd, n: nat, isBlock: bool, spare: Option<Fd>)
    requires L.Inv(s) && L.Possible(s, L.ReadC(c, L.Commands(n, isBlock), spare))
    ensures s.avalidNum == |s.idle|
    ensures var s1 := L.Step(s, L.ReadC(c, L.Commands(n, isBlock), spare));
            match Target(s, c, spare)
            case None => Undisturbed(s, s1)
            case Some(r) =>
              && r in s1.redises && s1.redises[r] == L.Redis(CountOf(s, r) + n, isBlock)
              && r in s1.rToC && s1.rToC[r] == c && s1.clients == s.clients[c := L.Client(false, isBlock)]
              && UndisturbedBut(s, s1, r)
  {
    hide L.Get;
    hide L.Forwarded;
    hide UndisturbedBut;
    L.IdleIs(s);
    L.EntriesAreOpen(s, {});
    hide L.Inv;
    if s.clients[c].isQuit {
    } else if s.clients[c].isBlock {
      if c in s.cToR { ForwardedCounts(s, c, s.cToR[c], n, isBlock); }
    } else {
      LentCounts(s, c, n, isBlock, spare);
    }
  }

  lemma {:induction false} AnsweredCounts(s: L.Service, r: Fd, n: nat)
    requires r in s.redises && r in s.rToC && r !in s.idle && n <= s.redises[r].rNum
    ensures var s1 := L.Answered(s, r, n);
            && UndisturbedBut(s, s1, r)
            && r in s1.redises && s1.redises[r].rNum == s.redises[r].rNum - n
            && (r in s1.rToC <==> s.redises[r].isBlock || s.redises[r].rNum != n)
            && (r in s1.rToC ==> s1.rToC[r] == s.rToC[r]) && (r in s1.idle <==> r !in s1.rToC)
  {
    assert r in [r] + s.idle;
  }

  /** What a read of bytes does to the tables. */
  ghost predicate CameTo(s: L.Service, s1: L.Service, r: Fd, reply: L.FromRedis) {
    && UndisturbedBut(s, s1, r) && r in s.redises
    && (reply.Replies? && Present(s, r) ==>
          && r in s1.redises && s1.redises[r].rNum == s.redises[r].rNum - reply.n
          && (r in s1.rToC <==> s.redises[r].isBlock || s.redises[r].rNum != reply.n)
          && (r in s1.rToC ==> s1.rToC[r] == s.rToC[r]) && (r in s1.idle <==> r !in s1.rToC))
    && (reply == L.NoReply && Present(s, r) ==> s1 == s && r in s.rToC && r !in s.idle)
    && (reply == L.BadReply || !Present(s, r) ==> r !in s1.redises)
  }

  lemma {:induction false} CameCounts(s: L.Service, r: Fd, reply: L.FromRedis)
    requires L.Inv(s) && L.Possible(s, L.ReadR(r, reply)) && reply != L.Lost
    ensures CameTo(s, L.Step(s, L.ReadR(r, reply)), r, reply)
  {
    hide L.Inv;
    hide L.Answered;
    hide L.Drop;
    hide UndisturbedBut;
    LeasedNotIdle(s, r);
    if reply == L.BadReply || !Present(s, r) {
      CameGone(s, r, reply);
      hide L.OnReadR;
    } else if reply.Replies? {
      AnsweredCounts(s, r, reply.n);
    } else {
      NothingDisturbed(s, r);
    }
  }

  lemma {:induction false} LeasedNotIdle(s: L.Service, r: Fd)
    requires L.Inv(s)
    ensures r in s.rToC ==> r !in s.idle
  {
  }

  lemma {:induction false} NothingDisturbed(s: L.Service, r: Fd)
    ensures UndisturbedBut(s, s, r)
  {
  }

  lemma {:induction false} CameGone(s: L.Service, r: Fd, reply: L.FromRedis)
    requires L.Inv(s) && L.Possible(s, L.ReadR(r, reply)) && (reply == L.BadReply || !Present(s, r))
    ensures var s1 := L.OnReadR(s, r, reply); UndisturbedBut(s, s1, r) && r !in s1.redises
  {
    QuietCounts(s, L.ReadR(r, L.Lost));
    LostIsGone(s, r);
    hide L.Inv;
    hide L.Drop;
    hide L.Answered;
    assert L.OnReadR(s, r, reply) == L.OnReadR(s, r, L.Lost);
  }

  lemma {:induction false} LostIsGone(s: L.Service, r: Fd)
    requires r in s.redises
    ensures r !in L.OnReadR(s, r, L.Lost).redises
  {
    hide L.Drop;
    DropLeavesOthers(s, r);
    if r in s.rToC { DropLeavesOthers(L.Quit(s, s.rToC[r]).(cToR := s.cToR - {s.rToC[r]}), r); }
  }

  // ---------------------------------------------------------------- every step keeps it

  /** A connection that owes nothing is as good as new: all replies have been handed over, and nothing is left. */
  lemma {:induction false} RenewInv(l: Leased)
    requires Q.Inv(l) && l.s.rNum == 0
    ensures Q.Inv(Renewed(l)) && R.Unread(l.s.c) == [] && l.s.c.multi == 0 && l.s.c.bulk == 0 && l.s.c.cmds == []
    ensures l.wire + Flat(l.queue) == RepliesBytes(l.due)
  {
    Accounting(l);
    RenewedFlat(l);
    hide RepliesBytes;
    NothingDone(Virtual([], []));
    hide Run0;
  }

  lemma {:induction false} RenewedFlat(l: Leased)
    requires Q.Inv(l) && l.s.rNum == 0
    ensures l.wire + Flat(l.queue) == RepliesBytes(l.due) && l.s.c.cmds == []
  {
    Accounting(l);
    hide Run0;
    hide RepliesBytes;
    hide Whole;
    assert Flat(l.s.c.cmds) == [];
    assert l.wire + Flat(l.queue) + [] + [] == l.wire + Flat(l.queue);
  }

  lemma {:induction false} LineAfterOk(s1: L.Service, lines: map<Fd, Leased>, r: Fd)
    requires L.Inv(s1) && r in s1.redises
    requires var l := if r in lines then lines[r] else FRESH; Q.Inv(l) && l.wire == [] && l.s.rNum == s1.redises[r].rNum
    ensures LineOk(s1, r, LineAfter(s1, lines, r))
  {
    if r !in s1.rToC {
      IdleIsUnused(s1, r);
      hide L.Inv;
      hide Q.Inv;
      RenewInv(if r in lines then lines[r] else FRESH);
    }
  }

  lemma {:induction false} IdleIsUnused(s: L.Service, r: Fd)
    requires L.Inv(s) && r in s.redises && r !in s.rToC
    ensures r in s.idle && s.redises[r] == L.UNUSED
  {
  }

  /** The line of every connection that is open after the step, before accounts are renewed. */
  lemma {:induction false} MovedOk(w: World, h: Happening, r: Fd)
    requires Ok(w) && Possible(w, h) && L.Possible(w.svc, EventOf(w, h)) && r in L.Step(w.svc, EventOf(w, h)).redises
    ensures var lines := Moved(w, h);
            var l := if r in lines then lines[r] else FRESH;
            Q.Inv(l) && l.wire == [] && l.s.rNum == L.Step(w.svc, EventOf(w, h)).redises[r].rNum
  {
    hide L.Step;
    hide L.Inv;
    hide Q.Inv;
    hide Read;
    FreshInv();
    if r in w.lines { LinesOk(w, r); }
    match h
    case Other(e) => QuietCounts(w.svc, e);
    case Asked(c, isBlock, spare, replies) =>
      AskedCounts(w.svc, c, |replies|, isBlock, spare);
      var t := Target(w.svc, c, spare);
      if t == Some(r) { ForwardInv(LineOf(w, r), replies); }
    case Came(r1, bytes, stale) =>
      LinesOk(w, r1);
      CameCounts(w.svc, r1, Outcome(w.lines[r1], bytes, stale));
      if r == r1 {
        ReadInv(w.lines[r], bytes, stale);
        if Read(w.lines[r], bytes, stale).Some? { ReadCounts(w.lines[r], bytes, stale); }
      }
  }

  lemma {:induction false} SettledOk(s1: L.Service, lines: map<Fd, Leased>)
    requires L.Inv(s1) && forall r :: r in s1.redises ==> LineOk(s1, r, LineAfter(s1, lines, r))
    ensures Ok(Settled(s1, lines))
  {
    hide L.Inv;
    hide LineOk;
    hide LineAfter;
  }

  lemma {:induction false} AfterOk(w: World, h: Happening)
    requires Ok(w) && Possible(w, h)
    ensures Ok(After(w, h))
  {
    EventIsPossible(w, h);
    L.StepKeeps(w.svc, EventOf(w, h));
    hide L.Step;
    hide L.Inv;
    hide Moved;
    hide EventOf;
    hide LineOk;
    hide LineAfter;
    hide Settled;
    hide Ok;
    hide Q.Inv;
    var s1 := L.Step(w.svc, EventOf(w, h));
    forall r | r in s1.redises ensures LineOk(s1, r, LineAfter(s1, Moved(w, h), r)) {
      MovedOk(w, h, r);
      LineAfterOk(s1, Moved(w, h), r);
    }
    SettledOk(s1, Moved(w, h));
  }

  // ---------------------------------------------------------------- runs

  function Start(idle: seq<Fd>, maxNum: nat): World { World(L.Start(idle, maxNum), map r | r in idle :: FRESH) }

  lemma {:induction false} StartOk(idle: seq<Fd>, maxNum: nat)
    requires L.NoTwice(idle)
    ensures Ok(Start(idle, maxNum))
  {
    L.StartKeeps(idle, maxNum);
    FreshInv();
    hide L.Inv;
    hide Q.Inv;
  }

  /** The state after a run; None if one of the happenings cannot be. */
  ghost function Final(w: World, hs: seq<Happening>): Option<World>
    requires Ok(w)
    decreases |hs|
  {
    if hs == [] then Some(w)
    else if !Possible(w, hs[0]) then None
    else
      AfterOk(w, hs[0]);
      Final(After(w, hs[0]), hs[1..])
  }

  ghost function RunFrom(idle: seq<Fd>, maxNum: nat, hs: seq<Happening>): Option<World>
    requires L.NoTwice(idle)
  {
    StartOk(idle, maxNum);
    Final(Start(idle, maxNum), hs)
  }

  lemma {:induction false} FinalOk(w: World, hs: seq<Happening>)
    requires Ok(w) && Final(w, hs).Some?
    ensures Ok(Final(w, hs).value)
    decreases |hs|
  {
    hide Ok;
    hide After;
    hide Possible;
    if hs != [] {
      AfterOk(w, hs[0]);
      FinalOk(After(w, hs[0]), hs[1..]);
    }
  }

  /** In every reachable state, and however replies are cut into reads: rNum of every connection is the number of
      commands forwarded on it since it was leased, less the whole replies that have come; what it has handed to
      its client is a beginning of the replies to those commands; and the parser of a connection in the pool is
      between replies, with nothing unread and nothing kept, so that nothing of one lease gets into the next. */
  lemma {:induction false} Accounted(idle: seq<Fd>, maxNum: nat, hs: seq<Happening>)
    requires L.NoTwice(idle) && RunFrom(idle, maxNum, hs).Some?
    ensures var w := RunFrom(idle, maxNum, hs).value;
            forall r :: r in w.svc.redises ==> r in w.lines && Settles(w.svc, r, w.lines[r])
  {
    StartOk(idle, maxNum);
    FinalOk(Start(idle, maxNum), hs);
    var w := Final(Start(idle, maxNum), hs).value;
    forall r | r in w.svc.redises ensures r in w.lines && Settles(w.svc, r, w.lines[r]) {
      LinesOk(w, r);
      LineSettles(w.svc, r, w.lines[r]);
    }
  }

  ghost predicate Settles(s: L.Service, r: Fd, l: Leased)
    requires r in s.redises
  {
    && Sound(l.s) && s.redises[r].rNum == |l.due| - Whole(l.due, l.got) && Flat(l.queue) <= RepliesBytes(l.due)
    && (r in s.idle ==> s.redises[r].rNum == 0 && R.Unread(l.s.c) == [] && l.s.c.multi == 0 && l.s.c.bulk == 0 && l.s.c.cmds == [])
  }

  lemma {:induction false} LineSettles(s: L.Service, r: Fd, l: Leased)
    requires L.Inv(s) && r in s.redises && LineOk(s, r, l)
    ensures Settles(s, r, l)
  {
    Accounting(l);
    HandedOver(l);
    assert r in s.idle ==> s.redises[r] == L.UNUSED;
    hide L.Inv;
    if l.s.rNum == 0 { RenewInv(l); }
    hide Whole;
  }

  lemma {:induction false} HandedOver(l: Leased)
    requires Q.Inv(l) && l.wire == []
    ensures Sound(l.s) && Flat(l.queue) <= RepliesBytes(l.due)
  {
    hide Run0;
    hide Alike;
    assert [] + Flat(l.queue) == Flat(l.queue);
    Beginning(Flat(l.queue), Flat(l.s.c.cmds), R.Unread(l.s.c), [], RepliesBytes(l.due));
  }

  /** Unless a size limit is hit or the client is gone, reading puts a connection back exactly when errno was not left
      at EAGAIN, the connection is not blocked, and all the replies to what was forwarded on it have come, to the last
      byte; its client has then been handed exactly these bytes. Otherwise it stays with that client. */
  lemma {:induction false} ReturnedExactly(w: World, r: Fd, bytes: seq<Byte>, stale: bool)
    requires Ok(w) && Possible(w, Came(r, bytes, stale)) && Present(w.svc, r)
    requires Sound(w.lines[r].s) && Read(w.lines[r], bytes, stale).Some?
    ensures var was, l, w1 := w.lines[r], Read(w.lines[r], bytes, stale).value, After(w, Came(r, bytes, stale));
            && (r in w1.svc.idle <==>
                  !stale && !w.svc.redises[r].isBlock && was.got + was.late + bytes == RepliesBytes(was.due))
            && (r in w1.svc.idle ==> Flat(l.queue) == RepliesBytes(was.due) && r !in w1.svc.rToC)
            && (r !in w1.svc.idle ==> r in w1.svc.rToC && w1.svc.rToC[r] == w.svc.rToC[r] && r in w1.lines && w1.lines[r] == l)
  {
    hide Read;
    hide Q.Inv;
    hide Ok;
    hide After;
    hide RepliesBytes;
    CameState(w, r, bytes, stale);
    ReturnedLine(w, r, bytes, stale);
  }

  lemma {:induction false} ReturnedLine(w: World, r: Fd, bytes: seq<Byte>, stale: bool)
    requires Ok(w) && Possible(w, Came(r, bytes, stale)) && Sound(w.lines[r].s) && Read(w.lines[r], bytes, stale).Some?
    ensures var was, l := w.lines[r], Read(w.lines[r], bytes, stale).value;
            && (stale ==> l.s.rNum == was.s.rNum)
            && (!stale ==> (l.s.rNum == 0 <==> was.got + was.late + bytes == RepliesBytes(was.due)))
            && (!stale && l.s.rNum == 0 ==> Flat(l.queue) == RepliesBytes(was.due))
  {
    hide Read;
    hide Q.Inv;
    hide RepliesBytes;
    LinesOk(w, r);
    hide Ok;
    ReadInv(w.lines[r], bytes, stale);
    ReadCounts(w.lines[r], bytes, stale);
    LineEnds(Read(w.lines[r], bytes, stale).value);
  }

  lemma {:induction false} LineEnds(l: Leased)
    requires Q.Inv(l) && l.wire == []
    ensures l.s.rNum == 0 <==> l.got == RepliesBytes(l.due)
    ensures l.s.rNum == 0 ==> Flat(l.queue) == RepliesBytes(l.due)
  {
    Accounting(l);
    hide Run0;
    hide Whole;
    if l.s.rNum == 0 { RenewInv(l); }
    hide Q.Inv;
    assert [] + Flat(l.queue) == Flat(l.queue);
  }

  lemma {:induction false} CameState(w: World, r: Fd, bytes: seq<Byte>, stale: bool)
    requires Ok(w) && Possible(w, Came(r, bytes, stale)) && Present(w.svc, r)
    requires Sound(w.lines[r].s) && Read(w.lines[r], bytes, stale).Some?
    ensures var l, w1 := Read(w.lines[r], bytes, stale).value, After(w, Came(r, bytes, stale));
            && r in w1.svc.redises
            && (r in w1.svc.rToC <==> stale || w.svc.redises[r].isBlock || l.s.rNum != 0) && (r in w1.svc.idle <==> r !in w1.svc.rToC)
            && (r in w1.svc.rToC ==> w1.svc.rToC[r] == w.svc.rToC[r] && r in w1.lines && w1.lines[r] == l)
  {
    hide L.Inv;
    hide L.Step;
    hide Read;
    hide Q.Inv;
    hide UndisturbedBut;
    var l := w.lines[r];
    LinesOk(w, r);
    ReadCounts(l, bytes, stale);
    EventIsPossible(w, Came(r, bytes, stale));
    CameCounts(w.svc, r, Outcome(l, bytes, stale));
  }

  // ---------------------------------------------------------------- a lease without commands

  /** What closes a leased connection that no blocking command holds: the end of its client, or a failure or a
      protocol error on its own socket, or any event on it once its client has quit. */
  predicate Closes(s: L.Service, e: L.Event, r: Fd) {
    r in s.rToC && s.rToC[r] in s.clients &&
    var c := s.rToC[r];
    match e
    case Accept(_) => false
    case ReadC(c1, input, _) => c1 == c && input == L.Closed && !s.clients[c].isQuit
    case ReadR(r1, reply) => r1 == r && (reply == L.Lost || reply == L.BadReply || s.clients[c].isQuit)
    case WriteR(r1, ok) => r1 == r && !ok
    case WriteC(c1, ok, drained) => c1 == c && (!ok || (drained && s.clients[c].isQuit))
  }

  lemma {:induction false} ClosesExactly(s: L.Service, e: L.Event, r: Fd)
    requires L.Inv(s) && L.Possible(s, e) && r in s.rToC && !s.redises[r].isBlock
    ensures s.rToC[r] in s.clients && (r !in L.Step(s, e).redises <==> Closes(s, e, r))
  {
    assert r !in s.idle && r in s.redises;
    match e
    case Accept(c) =>
    case ReadC(c, input, spare) => ReadCCloses(s, c, input, spare, r);
    case ReadR(r1, reply) => hide L.Inv; hide L.Del; ReadRCloses(s, r1, reply, r);
    case WriteR(r1, ok) =>
      hide L.Inv;
      hide L.Drop;
      DropCloses(s, r1, r);
      if r1 in s.rToC { DropCloses(L.Quit(s, s.rToC[r1]), r1, r); }
    case WriteC(c, ok, drained) => hide L.Inv;
  }

  lemma {:induction false} DropCloses(s: L.Service, r1: Fd, r: Fd)
    ensures r in L.Drop(s, r1).redises <==> r in s.redises && r != r1
  {
  }

  lemma {:induction false} ReadRCloses(s: L.Service, r1: Fd, reply: L.FromRedis, r: Fd)
    requires r1 in s.redises && (reply.Replies? ==> reply.n <= s.redises[r1].rNum)
    requires r in s.rToC && r in s.redises && s.rToC[r] in s.clients
    ensures r !in L.OnReadR(s, r1, reply).redises <==> Closes(s, L.ReadR(r1, reply), r)
  {
    hide L.Drop;
    DropCloses(s, r1, r);
    if r1 in s.rToC { DropCloses(L.Quit(s, s.rToC[r1]).(cToR := s.cToR - {s.rToC[r1]}), r1, r); }
  }

  lemma {:induction false} ReadCCloses(s: L.Service, c: Fd, input: L.FromClient, spare: Option<Fd>, r: Fd)
    requires L.Inv(s) && L.Possible(s, L.ReadC(c, input, spare)) && r in s.rToC && !s.redises[r].isBlock
    ensures s.rToC[r] in s.clients && (r !in L.Step(s, L.ReadC(c, input, spare)).redises <==> Closes(s, L.ReadC(c, input, spare), r))
  {
    hide L.Drop;
    hide L.Get;
    hide L.Del;
    L.IdleIs(s);
    L.EntriesAreOpen(s, {});
    NotTarget(s, c, spare, r);
    hide L.Inv;
    hide L.Drop;
    hide L.Get;
    if !s.clients[c].isQuit && input.Garbled? {
      var s0 := s.(clients := s.clients[c := L.Client(true, input.isBlock)]);
      if s.clients[c].isBlock {
        if c in s.cToR { DropCloses(s0, s.cToR[c], r); }
      } else {
        var (t, s1) := L.Get(s, spare);
        if t.Some? { DropCloses(s1.(clients := s1.clients[c := L.Client(true, input.isBlock)]), t.value, r); }
      }
    }
  }

  /** Commands never go to a connection that is leased already, unless it is held by a blocking command. */
  lemma {:induction false} NotTarget(s: L.Service, c: Fd, spare: Option<Fd>, r: Fd)
    requires L.Inv(s) && c in s.clients && (spare.Some? ==> spare.value !in s.redises)
    requires r in s.rToC && !s.redises[r].isBlock
    ensures s.avalidNum == |s.idle| && r in s.redises && s.rToC[r] in s.clients
    ensures Target(s, c, spare) != Some(r)
    ensures !s.clients[c].isQuit && s.clients[c].isBlock ==> c in s.cToR && s.cToR[c] != r
    ensures L.Get(s, spare).0 != Some(r) && r in L.Get(s, spare).1.redises && L.Get(s, spare).1.clients == s.clients
  {
    if !s.clients[c].isQuit && s.clients[c].isBlock { L.BlockedFinds(s, c); }
  }

  /** A connection that is leased to c and has been asked nothing. */
  predicate Leaky(w: World, r: Fd, c: Fd) {
    r in w.svc.rToC && w.svc.rToC[r] == c && r in w.svc.redises && w.svc.redises[r] == L.UNUSED && r in w.lines && w.lines[r].due == []
  }

  lemma {:induction false} LeakStep(w: World, h: Happening, r: Fd, c: Fd)
    requires Ok(w) && Possible(w, h) && Leaky(w, r, c)
    ensures Leaky(After(w, h), r, c) <==> !Closes(w.svc, EventOf(w, h), r)
    ensures r in After(w, h).svc.redises <==> !Closes(w.svc, EventOf(w, h), r)
  {
    EventIsPossible(w, h);
    assert r in w.svc.rToC && !w.svc.redises[r].isBlock;
    ClosesExactly(w.svc, EventOf(w, h), r);
    LeakService(w, h, r, c);
    LeakLine(w, h, r, c);
    hide Ok;
    hide L.Step;
    hide Moved;
    hide EventOf;
    hide Possible;
    hide Closes;
  }

  lemma {:induction false} LeakService(w: World, h: Happening, r: Fd, c: Fd)
    requires Ok(w) && Possible(w, h) && Leaky(w, r, c) && L.Possible(w.svc, EventOf(w, h))
    ensures var s1 := L.Step(w.svc, EventOf(w, h));
            r in s1.redises ==> s1.redises[r] == L.UNUSED && r in s1.rToC && s1.rToC[r] == c
  {
    hide L.Inv;
    hide L.Step;
    hide Q.Inv;
    hide Read;
    hide Target;
    LinesOk(w, r);
    match h
    case Other(e) => QuietCounts(w.svc, e);
    case Asked(c1, isBlock, spare, replies) =>
      AskedCounts(w.svc, c1, |replies|, isBlock, spare);
      NotTarget(w.svc, c1, spare, r);
    case Came(r1, bytes, stale) =>
      LinesOk(w, r1);
      if r1 == r { SilentUntilAsked(w.lines[r], bytes, stale); }
      CameCounts(w.svc, r1, Outcome(w.lines[r1], bytes, stale));
  }

  lemma {:induction false} LeakLine(w: World, h: Happening, r: Fd, c: Fd)
    requires Ok(w) && Possible(w, h) && Leaky(w, r, c)
    ensures r in Moved(w, h) && Moved(w, h)[r] == w.lines[r]
  {
    hide L.Inv;
    hide Target;
    hide Read;
    hide Q.Inv;
    LinesOk(w, r);
    if h.Asked? { NotTarget(w.svc, h.c, h.spare, r); }
  }

  /** Does some step of a run close the connection? */
  ghost predicate ClosedBy(w: World, hs: seq<Happening>, r: Fd)
    requires Ok(w)
    decreases |hs|
  {
    hs != [] && Possible(w, hs[0]) &&
    (Closes(w.svc, EventOf(w, hs[0]), r) || (AfterOk(w, hs[0]); ClosedBy(After(w, hs[0]), hs[1..], r)))
  }

  /** Such a connection never goes back to the pool: it stays leased through every run until it is closed. */
  lemma {:induction false} LeaksForGood(w: World, hs: seq<Happening>, r: Fd, c: Fd)
    requires Ok(w) && Leaky(w, r, c) && Final(w, hs).Some? && !ClosedBy(w, hs, r)
    ensures Leaky(Final(w, hs).value, r, c) && r !in Final(w, hs).value.svc.idle
    decreases |hs|
  {
    LinesOk(w, r);
    assert r !in w.svc.idle;
    hide Ok;
    hide Possible;
    hide After;
    hide Closes;
    hide Leaky;
    if hs != [] {
      AfterOk(w, hs[0]);
      LeakStep(w, hs[0], r, c);
      LeaksForGood(After(w, hs[0]), hs[1..], r, c);
    }
  }

  /** A read from a client always leases a connection. It leaks exactly if the read completed no command; after
      a command, the replies bring the connection back. */
  lemma {:induction false} LeaksIffNothingAsked(w: World, c: Fd, spare: Option<Fd>, replies: seq<Reply>)
    requires Ok(w) && Possible(w, Asked(c, false, spare, replies)) && !w.svc.clients[c].isQuit && !w.svc.clients[c].isBlock
    requires w.svc.avalidNum == |w.svc.idle| && L.Get(w.svc, spare).0.Some?
    ensures var r, w1 := L.Get(w.svc, spare).0.value, After(w, Asked(c, false, spare, replies));
            && Ok(w1) && r in w1.lines && (Leaky(w1, r, c) <==> replies == [])
            && (0 < |RepliesBytes(replies)| < MAX_QUERY_SIZE ==>
                  var h := Came(r, RepliesBytes(replies), false); Possible(w1, h) && r in After(w1, h).svc.idle)
            && (replies != [] ==> RepliesBytes(replies) != [])
  {
    hide After;
    hide Ok;
    hide L.Get;
    hide RepliesBytes;
    var r, h := L.Get(w.svc, spare).0.value, Asked(c, false, spare, replies);
    AfterOk(w, h);
    AskedState(w, c, spare, replies);
    if replies != [] { SomeBytes(replies); }
    if 0 < |RepliesBytes(replies)| < MAX_QUERY_SIZE {
      assert [] + [] + RepliesBytes(replies) == RepliesBytes(replies);
      BroughtBack(After(w, h), r, RepliesBytes(replies));
    }
  }

  lemma {:induction false} BroughtBack(w: World, r: Fd, bytes: seq<Byte>)
    requires Ok(w) && r in w.svc.redises && r in w.lines && Present(w.svc, r) && !w.svc.redises[r].isBlock && bytes != []
    requires w.lines[r].got + w.lines[r].late + bytes == RepliesBytes(w.lines[r].due) && !TooMuch(w.lines[r], bytes)
    ensures Possible(w, Came(r, bytes, false)) && r in After(w, Came(r, bytes, false)).svc.idle
  {
    hide Q.Inv;
    hide RepliesBytes;
    hide Read;
    hide After;
    hide TooMuch;
    LinesOk(w, r);
    AllComesBack(w.lines[r], bytes);
    hide Ok;
    assert bytes != [] && w.lines[r].got + w.lines[r].late + bytes <= RepliesBytes(w.lines[r].due);
    ReturnedExactly(w, r, bytes, false);
  }

  lemma {:induction false} SomeBytes(replies: seq<Reply>)
    requires replies != []
    ensures RepliesBytes(replies) != []
  {
    var r := replies[0];
    assert |ReplyBytes(r)| > 0;
  }

  lemma {:induction false} AskedState(w: World, c: Fd, spare: Option<Fd>, replies: seq<Reply>)
    requires Ok(w) && Possible(w, Asked(c, false, spare, replies)) && !w.svc.clients[c].isQuit && !w.svc.clients[c].isBlock
    requires w.svc.avalidNum == |w.svc.idle| && L.Get(w.svc, spare).0.Some?
    ensures var r, w1 := L.Get(w.svc, spare).0.value, After(w, Asked(c, false, spare, replies));
            && r in w1.svc.redises && w1.svc.redises[r] == L.Redis(|replies|, false) && Present(w1.svc, r) && w1.svc.rToC[r] == c
            && r in w1.lines && w1.lines[r].due == replies && w1.lines[r].got == w1.lines[r].late == w1.lines[r].s.c.buf == []
  {
    hide Q.Inv;
    hide L.Inv;
    hide L.Step;
    hide L.Get;
    AskedCounts(w.svc, c, |replies|, false, spare);
    NewLine(w, spare);
    EventIsPossible(w, Asked(c, false, spare, replies));
    assert [] + replies == replies;
  }

  /** A connection that getRedis gives has not been asked anything, and its buffer is empty. */
  lemma {:induction false} NewLine(w: World, spare: Option<Fd>)
    requires Ok(w) && w.svc.avalidNum == |w.svc.idle| && (spare.Some? ==> spare.value !in w.svc.redises) && L.Get(w.svc, spare).0.Some?
    ensures var r := L.Get(w.svc, spare).0.value; CountOf(w.svc, r) == 0 && NothingIn(LineOf(w, r))
  {
    var r := L.Get(w.svc, spare).0.value;
    GetLeavesOthers(w.svc, spare);
    assert w.svc.avalidNum > 0 ==> r == w.svc.idle[0] && r in w.svc.redises && r !in w.svc.rToC;
    hide L.Inv;
    if r in w.lines {
      LinesOk(w, r);
      hide Ok;
      IdleLine(w.svc, r, w.lines[r]);
    }
    hide Q.Inv;
  }

  predicate NothingIn(l: Leased) { l.due == [] && l.got == [] && l.late == [] && l.s.c.buf == [] }

  lemma {:induction false} IdleLine(s: L.Service, r: Fd, l: Leased)
    requires r in s.redises && r !in s.rToC && s.redises[r].rNum == 0 && LineOk(s, r, l)
    ensures NothingIn(l)
  {
    RenewInv(l);
    assert l.s.c.rpos == 0;
    hide Run0;
  }
}
