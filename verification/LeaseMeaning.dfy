/** What the event callbacks of src/net/server.c do to clients and connections, one by one and both ways: which clients come,
    go and are told to quit, and which connections are opened, lent, given back and shut. */
module LeaseMeaning {
  import opened Wrappers
  import opened Lease

  // ---------------------------------------------------------------- words for events

  predicate Alive(s: Service, c: Fd) { c in s.clients && !s.clients[c].isQuit }

  /** A read of c's bytes that is looked at. */
  predicate Looked(s: Service, e: Event, c: Fd) {
    e.ReadC? && e.c == c && Alive(s, c) && (e.input.Commands? || e.input.Garbled?)
  }

  /** The connection it works for: the client's own, if it is in a blocking command, else an idle one, else a new one as
      long as less than maxNum are lent. */
  function Server(s: Service, c: Fd, spare: Option<Fd>): Option<Fd>
    requires c in s.clients
  {
    if s.clients[c].isBlock then (if c in s.cToR then Some(s.cToR[c]) else None)
    else if s.idle != [] then Some(s.idle[0])
    else if |s.rToC| < s.maxNum then spare
    else None
  }

  predicate Serves(s: Service, e: Event, c: Fd, r: Fd) { Looked(s, e, c) && Server(s, c, e.spare) == Some(r) }

  /** The owner of a connection. */
  predicate Owns(s: Service, c: Fd, r: Fd) { r in s.rToC && s.rToC[r] == c }

  // ---------------------------------------------------------------- clients

  predicate Admitted(s: Service, e: Event, c: Fd) { e == Accept(c) && |s.rToC| < s.maxNum }

  predicate Ended(s: Service, e: Event, c: Fd) {
    c in s.clients &&
    match e
    case ReadC(c1, input, _) => c1 == c && input == Closed && !s.clients[c].isQuit
    case WriteC(c1, ok, drained) => c1 == c && (!ok || (drained && s.clients[c].isQuit))
    case _ => false
  }

  /** A client is told to quit if no connection can be had for it, or it has made an error, or the connection lent to it
      fails. */
  predicate Told(s: Service, e: Event, c: Fd) {
    Alive(s, c) &&
    match e
    case ReadC(_, input, spare) => Looked(s, e, c) && (Server(s, c, spare) == None || input.Garbled?)
    case ReadR(r, reply) => Owns(s, c, r) && (reply == Lost || reply == BadReply)
    case WriteR(r, ok) => Owns(s, c, r) && !ok
    case _ => false
  }

  predicate ClientIs(s: Service, e: Event, s1: Service, c: Fd) {
    && (c in s1.clients <==> (c in s.clients && !Ended(s, e, c)) || Admitted(s, e, c))
    && (Admitted(s, e, c) ==> c in s1.clients && s1.clients[c] == Client(false, false))
    && (c in s.clients && c in s1.clients && !Admitted(s, e, c) ==>
          && (s1.clients[c].isQuit <==> s.clients[c].isQuit || Told(s, e, c))
          && s1.clients[c].isBlock ==
               if Looked(s, e, c) && Server(s, c, e.spare).Some? then e.input.isBlock else s.clients[c].isBlock)
  }

  // ---------------------------------------------------------------- connections

  predicate Opened(s: Service, e: Event, r: Fd) { e.ReadC? && Serves(s, e, e.c, r) && r !in s.redises }

  /** A connection is shut with its client; on an error of the client during, or at the start of, a blocking command; on an
      error of its own; or when it becomes readable and nobody has it, or a client that has quit. */
  predicate Shut(s: Service, e: Event, r: Fd) {
    match e
    case Accept(_) => false
    case ReadC(c, input, _) =>
      || (Ended(s, e, c) && Owns(s, c, r))
      || (Serves(s, e, c, r) && input.Garbled? && (s.clients[c].isBlock || input.isBlock))
    case ReadR(r1, reply) => r1 == r && (r !in s.rToC || !Alive(s, s.rToC[r]) || reply == Lost || reply == BadReply)
    case WriteR(r1, ok) => r1 == r && !ok
    case WriteC(c, _, _) => Ended(s, e, c) && Owns(s, c, r)
  }

  predicate Lent(s: Service, e: Event, r: Fd) { e.ReadC? && Serves(s, e, e.c, r) && e.input.Commands? }

  /** The last reply to what was forwarded on it, outside a blocking command. */
  predicate Returned(s: Service, e: Event, r: Fd) {
    && e.ReadR? && e.r == r && e.reply.Replies? && r in s.rToC && Alive(s, s.rToC[r])
    && r in s.redises && !s.redises[r].isBlock && s.redises[r].rNum == e.reply.n
  }

  function Before(s: Service, r: Fd): Redis { if r in s.redises then s.redises[r] else UNUSED }

  /** What is counted on it afterwards. */
  function CountedOn(s: Service, e: Event, r: Fd): Redis {
    if Lent(s, e, r) then Redis(Before(s, r).rNum + e.input.n, e.input.isBlock)
    else if e.ReadR? && e.r == r && e.reply.Replies? && e.reply.n <= Before(s, r).rNum
      then Redis(Before(s, r).rNum - e.reply.n, Before(s, r).isBlock)
    else Before(s, r)
  }

  predicate ConnectionIs(s: Service, e: Event, s1: Service, r: Fd) {
    && (r in s1.redises <==> (r in s.redises || Opened(s, e, r)) && !Shut(s, e, r))
    && (r in s1.rToC <==> (r in s.rToC || Lent(s, e, r)) && !Shut(s, e, r) && !Returned(s, e, r))
    && (r in s1.rToC ==> (Lent(s, e, r) || r in s.rToC) && s1.rToC[r] == if Lent(s, e, r) then e.c else s.rToC[r])
    && (r in s1.redises ==> s1.redises[r] == CountedOn(s, e, r))
  }

  /** A connection that has gone from the middle of the idle list. */
  ghost predicate Less(q: seq<Fd>, r: Fd, q1: seq<Fd>) {
    (r !in q && q1 == q) || exists i :: 0 <= i < |q| && q[i] == r && q1 == q[..i] + q[i + 1..]
  }

  /** The idle list: connections are taken from its front and put back there. */
  ghost predicate IdleIs(s: Service, e: Event, s1: Service) {
    match e
    case ReadC(c, input, spare) =>
      if Looked(s, e, c) && !s.clients[c].isBlock && Server(s, c, spare).Some? then
        var left := if s.idle == [] then [] else s.idle[1..];
        s1.idle == if input.Garbled? && !input.isBlock then [Server(s, c, spare).value] + left else left
      else s1.idle == s.idle
    case ReadR(r, _) =>
      if Shut(s, e, r) then Less(s.idle, r, s1.idle)
      else s1.idle == if Returned(s, e, r) then [r] + s.idle else s.idle
    case WriteR(r, _) => if Shut(s, e, r) then Less(s.idle, r, s1.idle) else s1.idle == s.idle
    case _ => s1.idle == s.idle
  }

  /** A client's own connection is the one last lent to it, until that goes, or until another one lent to it fails. */
  predicate LastIs(s: Service, e: Event, s1: Service, c: Fd) {
    var lent := e.ReadC? && e.c == c && Looked(s, e, c) && e.input.Commands? && Server(s, c, e.spare).Some?;
    && (c in s1.cToR <==>
          || lent
          || (&& c in s.cToR && !Ended(s, e, c) && !Shut(s, e, s.cToR[c]) && !Returned(s, e, s.cToR[c])
              && !(e.ReadR? && Owns(s, c, e.r) && Alive(s, c) && (e.reply == Lost || e.reply == BadReply))))
    && (c in s1.cToR ==> (lent || c in s.cToR) && s1.cToR[c] == if lent then Server(s, c, e.spare).value else s.cToR[c])
  }

  // ---------------------------------------------------------------- the pieces

  lemma {:induction false} StateIs(s: Service)
    requires Inv(s)
    ensures s.activeNum == |s.rToC| && s.avalidNum == |s.idle|
    ensures forall r :: r in s.rToC ==> s.rToC[r] in s.clients && r in s.redises && r !in s.idle
    ensures forall r :: r in s.idle ==> r in s.redises && s.redises[r] == UNUSED
    ensures forall c :: c in s.cToR ==> c in s.clients && s.cToR[c] in s.rToC && s.rToC[s.cToR[c]] == c
    ensures NoTwice(s.idle) && Mirrored(s)
  {
  }

  /** Every entry of cToR is mirrored in rToC; what is in use is not idle. */
  predicate Mirrored(s: Service) {
    && (forall c :: c in s.cToR ==> s.cToR[c] in s.rToC && s.rToC[s.cToR[c]] == c)
    && (forall r :: r in s.rToC ==> r in s.redises && r !in s.idle)
  }

  lemma {:induction false} PutIs(s: Service, r: Fd)
    ensures var t := Put(s, r); t.clients == s.clients && t.rToC == s.rToC && t.redises == s.redises[r := UNUSED]
    ensures Put(s, r).idle == [r] + s.idle && Put(s, r).cToR == s.cToR
  {
  }

  lemma {:induction false} DropIs(s: Service, r: Fd)
    ensures var t := Drop(s, r); t.clients == s.clients && t.rToC == s.rToC - {r} && t.redises == s.redises - {r}
    ensures Drop(s, r).cToR == if r in s.rToC then Unlinked(s.cToR, s.rToC[r], r) else s.cToR
    ensures Less(s.idle, r, Drop(s, r).idle)
  {
    WithoutLess(s.idle, r);
    hide Less;
    hide Without;
    hide Unlinked;
    if r !in s.rToC { assert s.rToC - {r} == s.rToC; }
  }

  lemma {:induction false} WithoutAt(q: seq<Fd>, r: Fd) returns (i: nat)
    requires r in q
    ensures i < |q| && q[i] == r && Without(q, r) == q[..i] + q[i + 1..]
  {
    if q[0] == r {
      i := 0;
    } else {
      var q1 := q[1..];
      assert q == [q[0]] + q1;
      var k := WithoutAt(q1, r);
      i := k + 1;
      assert q[..i] == [q[0]] + q1[..k] && q[i + 1..] == q1[k + 1..];
      assert [q[0]] + (q1[..k] + q1[k + 1..]) == ([q[0]] + q1[..k]) + q1[k + 1..];
    }
  }

  lemma {:induction false} WithoutLess(q: seq<Fd>, r: Fd)
    ensures |Without(q, r)| < |q| ==> Less(q, r, Without(q, r))
    ensures |Without(q, r)| >= |q| ==> Less(q, r, q)
  {
    if r in q { var i := WithoutAt(q, r); } else { WithoutNone(q, r); }
    hide Without;
  }

  lemma {:induction false} DropClientIs(s: Service, c: Fd)
    ensures var t := DropClient(s, c);
            t.clients == s.clients - {c} && t.rToC == s.rToC - Leases(s, c) && t.redises == s.redises - Leases(s, c)
    ensures var t := DropClient(s, c); t.idle == s.idle && t.cToR == s.cToR - {c}
  {
  }

  /** getRedis gives a connection exactly when there is one. */
  lemma {:induction false} GetIs(s: Service, spare: Option<Fd>)
    requires s.avalidNum == |s.idle| && s.activeNum == |s.rToC|
    ensures Get(s, spare).0 == if s.idle != [] then Some(s.idle[0]) else if |s.rToC| < s.maxNum then spare else None
    ensures var t := Get(s, spare).1;
            && t.clients == s.clients && t.rToC == s.rToC
            && t.cToR == s.cToR && t.idle == (if s.idle == [] then [] else s.idle[1..])
            && t.redises == (if s.idle == [] && Get(s, spare).0.Some? then s.redises[spare.value := UNUSED] else s.redises)
  {
  }

  lemma {:induction false} RejectedIs(s: Service, c: Fd, r: Fd, isBlock: bool)
    requires c in s.clients
    ensures var t := Rejected(s, c, r, isBlock);
            && t.clients == s.clients[c := Client(true, isBlock)]
            && t.rToC == (if s.clients[c].isBlock || isBlock then s.rToC - {r} else s.rToC)
            && t.redises == (if s.clients[c].isBlock || isBlock then s.redises - {r} else s.redises[r := UNUSED])
            && (if s.clients[c].isBlock || isBlock then Less(s.idle, r, t.idle) else t.idle == [r] + s.idle)
            && t.cToR == (if (s.clients[c].isBlock || isBlock) && r in s.rToC then Unlinked(s.cToR, s.rToC[r], r) else s.cToR)
  {
    hide Drop;
    hide Put;
    var s1 := s.(clients := s.clients[c := Client(true, isBlock)]);
    PutIs(s1, r);
    DropIs(s1, r);
  }

  lemma {:induction false} AnsweredIs(s: Service, r: Fd, n: nat)
    requires r in s.redises && r in s.rToC && n <= s.redises[r].rNum
    ensures var t, was := Answered(s, r, n), s.redises[r];
            && t.clients == s.clients
            && t.rToC == (if was.rNum == n && !was.isBlock then s.rToC - {r} else s.rToC)
            && t.redises == s.redises[r := Redis(was.rNum - n, was.isBlock)]
            && t.idle == (if was.rNum == n && !was.isBlock then [r] + s.idle else s.idle)
            && t.cToR == (if was.rNum == n && !was.isBlock then Unlinked(s.cToR, s.rToC[r], r) else s.cToR)
  {
    hide Unlinked;
  }

  // ---------------------------------------------------------------- a read of a client's bytes

  /** The state in which a read is dealt with, once its connection is there. */
  ghost predicate Given(s: Service, s1: Service, r: Fd) {
    && s1.clients == s.clients && s1.rToC == s.rToC && s1.cToR == s.cToR && r !in s1.idle
    && s1.redises == (if r in s.redises then s.redises else s.redises[r := UNUSED])
  }

  lemma {:induction false} Served(s: Service, c: Fd, input: FromClient, spare: Option<Fd>, r: Fd) returns (s1: Service)
    requires var e := ReadC(c, input, spare); Inv(s) && Possible(s, e) && Serves(s, e, c, r)
    ensures Given(s, s1, r) && r in s1.redises && Step(s, ReadC(c, input, spare)) == Processed(s1, c, r, input)
    ensures s1.idle == if s.clients[c].isBlock || s.idle == [] then s.idle else s.idle[1..]
    ensures if s.clients[c].isBlock then r in s.rToC && s.rToC[r] == c
            else r !in s.rToC && (r in s.redises ==> s.redises[r] == UNUSED)
  {
    StateIs(s);
    GetIs(s, spare);
    hide Inv;
    hide Get;
    hide Processed;
    if s.clients[c].isBlock {
      s1 := s;
    } else {
      if s.idle != [] { assert s.idle[0] in s.idle; }
      s1 := Get(s, spare).1;
    }
  }

  lemma {:induction false} NotServed(s: Service, c: Fd, input: FromClient, spare: Option<Fd>)
    requires var e := ReadC(c, input, spare); Inv(s) && Possible(s, e) && Looked(s, e, c) && Server(s, c, spare) == None
    ensures Step(s, ReadC(c, input, spare)) == Quit(s, c)
  {
    StateIs(s);
    GetIs(s, spare);
    hide Inv;
    hide Get;
    hide Processed;
  }

  lemma {:induction false} NotLooked(s: Service, c: Fd, input: FromClient, spare: Option<Fd>)
    requires var e := ReadC(c, input, spare); Inv(s) && Possible(s, e) && !Looked(s, e, c)
    ensures Step(s, ReadC(c, input, spare)) == if Ended(s, ReadC(c, input, spare), c) then DropClient(s, c) else s
  {
    hide Inv;
    hide Get;
    hide Processed;
    hide DropClient;
  }

  lemma {:induction false} ForwardedMeans(s: Service, e: Event, r: Fd, s1: Service)
    requires e.ReadC? && e.input.Commands? && Serves(s, e, e.c, r) && r in s1.redises && Given(s, s1, r)
    requires Mirrored(s) && s1.idle == if s.clients[e.c].isBlock || s.idle == [] then s.idle else s.idle[1..]
    ensures Means(s, e, Forwarded(s1, e.c, r, e.input.n, e.input.isBlock))
  {
    hide Server;
  }

  /** What an event comes to for every client, every connection and the idle list. */
  ghost predicate Means(s: Service, e: Event, s1: Service) {
    && (forall c :: ClientIs(s, e, s1, c) && LastIs(s, e, s1, c))
    && (forall r :: ConnectionIs(s, e, s1, r))
    && IdleIs(s, e, s1)
  }

  lemma {:induction false} NotLess(q: seq<Fd>, r: Fd, q1: seq<Fd>)
    requires r !in q && Less(q, r, q1)
    ensures q1 == q
  {
  }

  lemma {:induction false} RejectedMeans(s: Service, e: Event, r: Fd, s1: Service)
    requires e.ReadC? && e.input.Garbled? && Serves(s, e, e.c, r) && r in s1.redises && Given(s, s1, r)
    requires Mirrored(s) && s1.idle == if s.clients[e.c].isBlock || s.idle == [] then s.idle else s.idle[1..]
    requires if s.clients[e.c].isBlock then r in s.rToC && s.rToC[r] == e.c
             else r !in s.rToC && (r in s.redises ==> s.redises[r] == UNUSED)
    ensures Means(s, e, Rejected(s1, e.c, r, e.input.isBlock))
  {
    hide Rejected;
    hide Server;
    hide Means;
    hide Less;
    assert r in s.rToC ==> r in s.redises;
    hide Mirrored;
    var t := Rejected(s1, e.c, r, e.input.isBlock);
    RejectedIs(s1, e.c, r, e.input.isBlock);
    if s.clients[e.c].isBlock {
      NotLess(s1.idle, r, t.idle);
      BlockedRejectedMeans(s, e, r, t);
    } else {
      if e.input.isBlock { NotLess(s1.idle, r, t.idle); }
      FreeRejectedMeans(s, e, r, t);
    }
  }

  lemma {:induction false} BlockedRejectedMeans(s: Service, e: Event, r: Fd, t: Service)
    requires e.ReadC? && e.input.Garbled? && Serves(s, e, e.c, r) && s.clients[e.c].isBlock
    requires Mirrored(s) && r in s.rToC && s.rToC[r] == e.c
    requires t.clients == s.clients[e.c := Client(true, e.input.isBlock)] && t.idle == s.idle
    requires t.rToC == s.rToC - {r} && t.redises == s.redises - {r} && t.cToR == Unlinked(s.cToR, e.c, r)
    ensures Means(s, e, t)
  {
    hide Less;
  }

  lemma {:induction false} FreeRejectedMeans(s: Service, e: Event, r: Fd, t: Service)
    requires e.ReadC? && e.input.Garbled? && Serves(s, e, e.c, r) && !s.clients[e.c].isBlock
    requires Mirrored(s) && r !in s.rToC && (r in s.redises ==> s.redises[r] == UNUSED)
    requires t.clients == s.clients[e.c := Client(true, e.input.isBlock)] && t.rToC == s.rToC && t.cToR == s.cToR
    requires t.redises == if e.input.isBlock then s.redises - {r} else s.redises[r := UNUSED]
    requires var left := if s.idle == [] then [] else s.idle[1..]; t.idle == if e.input.isBlock then left else [r] + left
    ensures Means(s, e, t)
  {
    hide Less;
    hide Server;
  }

  lemma {:induction false} ServedMeans(s: Service, e: Event, r: Fd)
    requires Inv(s) && e.ReadC? && Possible(s, e) && Serves(s, e, e.c, r)
    ensures Means(s, e, Step(s, e))
  {
    hide Inv;
    hide Step;
    hide Means;
    hide Mirrored;
    hide Given;
    hide Forwarded;
    hide Rejected;
    hide Server;
    StateIs(s);
    var s1 := Served(s, e.c, e.input, e.spare, r);
    if e.input.Commands? { ForwardedMeans(s, e, r, s1); } else { RejectedMeans(s, e, r, s1); }
  }

  lemma {:induction false} ReadCMeans(s: Service, e: Event)
    requires Inv(s) && e.ReadC? && Possible(s, e)
    ensures Means(s, e, Step(s, e))
  {
    hide Inv;
    hide Step;
    hide Means;
    hide Mirrored;
    hide Server;
    StateIs(s);
    if !Looked(s, e, e.c) {
      NotLooked(s, e.c, e.input, e.spare);
      UnlookedMeans(s, e);
    } else if Server(s, e.c, e.spare) == None {
      NotServed(s, e.c, e.input, e.spare);
      UnservedMeans(s, e);
    } else {
      ServedMeans(s, e, Server(s, e.c, e.spare).value);
    }
  }

  lemma {:induction false} UnlookedMeans(s: Service, e: Event)
    requires Mirrored(s) && e.ReadC? && e.c in s.clients && !Looked(s, e, e.c)
    ensures Means(s, e, if Ended(s, e, e.c) then DropClient(s, e.c) else s)
  {
    DropClientIs(s, e.c);
    hide DropClient;
    hide Server;
  }

  lemma {:induction false} UnservedMeans(s: Service, e: Event)
    requires Mirrored(s) && e.ReadC? && Looked(s, e, e.c) && Server(s, e.c, e.spare) == None
    ensures Means(s, e, Quit(s, e.c))
  {
    hide Server;
  }

  // ---------------------------------------------------------------- the other events

  lemma {:induction false} AcceptMeans(s: Service, e: Event)
    requires Mirrored(s) && e.Accept? && Possible(s, e) && s.activeNum == |s.rToC|
    ensures Means(s, e, OnAccept(s, e.c))
  {
  }

  lemma {:induction false} WriteCMeans(s: Service, e: Event)
    requires Mirrored(s) && e.WriteC? && e.c in s.clients
    ensures Means(s, e, OnWriteC(s, e.c, e.ok, e.drained))
  {
    DropClientIs(s, e.c);
    hide DropClient;
  }

  /** A connection goes, and its owner, if there is one, is told. */
  lemma {:induction false} FailedMeans(s: Service, e: Event, s1: Service)
    requires (e.WriteR? && !e.ok) || (e.ReadR? && (e.reply == Lost || e.reply == BadReply))
    requires e.r in s.rToC ==> e.ReadR? ==> Alive(s, s.rToC[e.r])
    requires s1.clients == if e.r in s.rToC then Quit(s, s.rToC[e.r]).clients else s.clients
    requires s1.rToC == s.rToC - {e.r} && s1.redises == s.redises - {e.r} && Less(s.idle, e.r, s1.idle)
    requires Mirrored(s)
    requires s1.cToR == if e.r !in s.rToC then s.cToR else if e.ReadR? then s.cToR - {s.rToC[e.r]} else Unlinked(s.cToR, s.rToC[e.r], e.r)
    ensures Means(s, e, s1)
  {
    hide Server;
  }

  lemma {:induction false} WriteRMeans(s: Service, e: Event)
    requires Mirrored(s) && e.WriteR? && e.r in s.redises
    ensures Means(s, e, OnWriteR(s, e.r, e.ok))
  {
    hide Drop;
    if !e.ok {
      DropIs(s, e.r);
      if e.r in s.rToC { DropIs(Quit(s, s.rToC[e.r]), e.r); }
      FailedMeans(s, e, OnWriteR(s, e.r, e.ok));
    }
    hide Server;
  }

  lemma {:induction false} ReadRMeans(s: Service, e: Event)
    requires Mirrored(s) && e.ReadR? && Possible(s, e) && (e.r in s.rToC ==> s.rToC[e.r] in s.clients)
    ensures Means(s, e, OnReadR(s, e.r, e.reply))
  {
    hide Drop;
    hide Answered;
    hide Server;
    var t := OnReadR(s, e.r, e.reply);
    if e.r !in s.rToC || s.clients[s.rToC[e.r]].isQuit {
      DropIs(s, e.r);
      UnownedMeans(s, e, t);
    } else if e.reply.Replies? {
      AnsweredIs(s, e.r, e.reply.n);
      RepliedMeans(s, e, t);
    } else if e.reply != NoReply {
      var c := s.rToC[e.r];
      DropIs(Quit(s, c).(cToR := s.cToR - {c}), e.r);
      FailedMeans(s, e, t);
    }
  }

  lemma {:induction false} UnownedMeans(s: Service, e: Event, s1: Service)
    requires e.ReadR? && (e.r in s.rToC ==> !Alive(s, s.rToC[e.r]))
    requires s1.clients == s.clients && s1.rToC == s.rToC - {e.r} && s1.redises == s.redises - {e.r}
    requires Mirrored(s) && Less(s.idle, e.r, s1.idle)
    requires s1.cToR == if e.r in s.rToC then Unlinked(s.cToR, s.rToC[e.r], e.r) else s.cToR
    ensures Means(s, e, s1)
  {
  }

  lemma {:induction false} RepliedMeans(s: Service, e: Event, s1: Service)
    requires e.ReadR? && e.reply.Replies? && e.r in s.rToC && e.r in s.redises && Alive(s, s.rToC[e.r])
    requires var n, was := e.reply.n, s.redises[e.r];
             && n <= was.rNum && s1.clients == s.clients
             && s1.rToC == (if was.rNum == n && !was.isBlock then s.rToC - {e.r} else s.rToC)
             && s1.redises == s.redises[e.r := Redis(was.rNum - n, was.isBlock)]
             && s1.idle == (if was.rNum == n && !was.isBlock then [e.r] + s.idle else s.idle)
             && s1.cToR == (if was.rNum == n && !was.isBlock then Unlinked(s.cToR, s.rToC[e.r], e.r) else s.cToR)
    requires Mirrored(s)
    ensures Means(s, e, s1)
  {
  }

  lemma {:induction false} StepMeans(s: Service, e: Event)
    requires Inv(s) && Possible(s, e)
    ensures Means(s, e, Step(s, e))
  {
    StateIs(s);
    hide Inv;
    hide Means;
    hide OnReadC;
    hide OnReadR;
    match e
    case Accept(_) => AcceptMeans(s, e);
    case ReadC(_, _, _) => ReadCMeans(s, e);
    case ReadR(_, _) => ReadRMeans(s, e);
    case WriteR(_, _) => WriteRMeans(s, e);
    case WriteC(_, _, _) => WriteCMeans(s, e);
  }

  // ---------------------------------------------------------------- over every run

  /** In every reachable state, whatever comes next: which clients come, go and are told to quit, and which
      connection each has as its own. */
  lemma {:induction false} ClientsExactly(idle: seq<Fd>, maxNum: nat, es: seq<Event>, e: Event, c: Fd)
    requires NoTwice(idle) && RunFrom(idle, maxNum, es + [e]).Some?
    ensures RunFrom(idle, maxNum, es).Some?
    ensures ClientIs(RunFrom(idle, maxNum, es).value, e, RunFrom(idle, maxNum, es + [e]).value, c)
    ensures LastIs(RunFrom(idle, maxNum, es).value, e, RunFrom(idle, maxNum, es + [e]).value, c)
  {
    RunMeans(idle, maxNum, es, e);
    hide ClientIs;
    hide LastIs;
    hide ConnectionIs;
  }

  /** And which connections are opened, lent, given back and shut, and what is counted on
      them, and the idle list. */
  lemma {:induction false} ConnectionsExactly(idle: seq<Fd>, maxNum: nat, es: seq<Event>, e: Event, r: Fd)
    requires NoTwice(idle) && RunFrom(idle, maxNum, es + [e]).Some?
    ensures RunFrom(idle, maxNum, es).Some?
    ensures ConnectionIs(RunFrom(idle, maxNum, es).value, e, RunFrom(idle, maxNum, es + [e]).value, r)
    ensures IdleIs(RunFrom(idle, maxNum, es).value, e, RunFrom(idle, maxNum, es + [e]).value)
  {
    RunMeans(idle, maxNum, es, e);
    hide ClientIs;
    hide ConnectionIs;
    hide IdleIs;
  }

  lemma {:induction false} RunMeans(idle: seq<Fd>, maxNum: nat, es: seq<Event>, e: Event)
    requires NoTwice(idle) && RunFrom(idle, maxNum, es + [e]).Some?
    ensures RunFrom(idle, maxNum, es).Some?
    ensures Means(RunFrom(idle, maxNum, es).value, e, RunFrom(idle, maxNum, es + [e]).value)
  {
    StartKeeps(idle, maxNum);
    hide Inv;
    hide Step;
    hide Means;
    OneMore(Start(idle, maxNum), es, e);
  }

  lemma {:induction false} OneMore(s: Service, es: seq<Event>, e: Event)
    requires Inv(s) && Final(s, es + [e]).Some?
    ensures Final(s, es).Some? && Means(Final(s, es).value, e, Final(s, es + [e]).value)
    decreases |es|
  {
    hide Inv;
    hide Step;
    hide Means;
    hide Possible;
    if es == [] {
      assert [] + [e] == [e];
      StepMeans(s, e);
    } else {
      assert (es + [e])[1..] == es[1..] + [e];
      StepKeeps(s, es[0]);
      OneMore(Step(s, es[0]), es[1..], e);
    }
  }
}
