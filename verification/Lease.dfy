/** Which client uses which redis connection: the pool (src/net/pool.c) and the two tables, as the event
    callbacks of src/net/server.c change them. What the sockets give is part of the events. */
module Lease {
  import opened Wrappers

  type Fd = nat

  datatype Client = Client(isQuit: bool, isBlock: bool)

  datatype Redis = Redis(rNum: nat, isBlock: bool)

  const UNUSED := Redis(0, false)

  datatype Service = Service(
    idle: seq<Fd>, avalidNum: int, activeNum: int, minNum: int, maxNum: int,
    redises: map<Fd, Redis>, clients: map<Fd, Client>, cToR: map<Fd, Fd>, rToC: map<Fd, Fd>)

  // ---------------------------------------------------------------- the pool

  function Without(q: seq<Fd>, r: Fd): seq<Fd> {
    if q == [] then [] else if q[0] == r then q[1..] else [q[0]] + Without(q[1..], r)
  }

  /** getRedis; spare is the connection newRedis would open, if it can. */
  function Get(s: Service, spare: Option<Fd>): (Option<Fd>, Service)
    requires s.avalidNum == |s.idle|
  {
    if s.avalidNum > 0 then
      (Some(s.idle[0]), s.(idle := s.idle[1..], avalidNum := s.avalidNum - 1, activeNum := s.activeNum + 1))
    else if s.maxNum <= s.activeNum || spare == None then (None, s)
    else (spare, s.(activeNum := s.activeNum + 1, redises := s.redises[spare.value := UNUSED]))
  }

  /** putRedis. */
  function Put(s: Service, r: Fd): Service {
    s.(idle := [r] + s.idle, redises := s.redises[r := UNUSED],
       avalidNum := s.avalidNum + 1, activeNum := s.activeNum - 1) // repaired: pool.c:178-188 leaves the counters
  }

  /** delRedis for one connection. */
  function Del(s: Service, r: Fd): Service {
    var left := Without(s.idle, r); // repaired: pool.c:225-230 makes whatever r was last linked to the head
    // repaired: pool.c:219-233 leaves the counters
    if |left| < |s.idle| then s.(idle := left, avalidNum := s.avalidNum - 1, redises := s.redises - {r})
    else s.(activeNum := s.activeNum - 1, redises := s.redises - {r})
  }

  // ---------------------------------------------------------------- the tables

  /** The client's entry, if it is for this connection. */
  function Unlinked(cToR: map<Fd, Fd>, c: Fd, r: Fd): map<Fd, Fd> {
    if c in cToR && cToR[c] == r then cToR - {c} else cToR
  }

  /** Both entries of a leased connection. */
  function Forget(s: Service, r: Fd): Service
    requires r in s.rToC
  {
    s.(rToC := s.rToC - {r}, cToR := Unlinked(s.cToR, s.rToC[r], r))
  }

  /** The end of a connection that does not go back to the pool. */
  function Drop(s: Service, r: Fd): Service {
    if r in s.rToC then Del(Forget(s, r), r) else Del(s, r)
  }

  function Leases(s: Service, c: Fd): set<Fd> { set r | r in s.rToC && s.rToC[r] == c }

  /** A client goes, with all that was leased to it. */
  function DropClient(s: Service, c: Fd): Service {
    var leases := Leases(s, c); // repaired: server.c:437-447, 811-831 only know the last one
    s.(clients := s.clients - {c}, cToR := s.cToR - {c}, rToC := s.rToC - leases,
       redises := s.redises - leases, activeNum := s.activeNum - |leases|) // repaired: as in Del
  }

  function Quit(s: Service, c: Fd): Service {
    if c in s.clients then s.(clients := s.clients[c := s.clients[c].(isQuit := true)]) else s
  }

  // ---------------------------------------------------------------- the events

  /** What a read from a client comes to: the end; nothing that is looked at (no bytes, or bytes that only enter the
      buffer as errno was left at EAGAIN by an earlier call, server.c:449); a protocol error; or so many complete
      commands. isBlock says whether the client is in a blocking command afterwards. */
  datatype FromClient = Closed | Nothing | Garbled(isBlock: bool) | Commands(n: nat, isBlock: bool)

  /** NoReply: nothing that is looked at, likewise (server.c:389). */
  datatype FromRedis = Lost | NoReply | BadReply | Replies(n: nat)

  datatype Event =
    | Accept(c: Fd)
    | ReadC(c: Fd, input: FromClient, spare: Option<Fd>)
    | ReadR(r: Fd, reply: FromRedis)
    | WriteR(r: Fd, ok: bool)
    | WriteC(c: Fd, ok: bool, drained: bool)

  /** Events come from open sockets; new sockets are new; no more replies come than were asked for. */
  predicate Possible(s: Service, e: Event) {
    match e
    case Accept(c) => c !in s.clients
    case ReadC(c, _, spare) => c in s.clients && (spare.Some? ==> spare.value !in s.redises)
    case ReadR(r, reply) => r in s.redises && (reply.Replies? ==> reply.n <= s.redises[r].rNum)
    case WriteR(r, _) => r in s.redises
    case WriteC(c, _, _) => c in s.clients
  }

  /** acceptC, but for the number of clients. */
  function OnAccept(s: Service, c: Fd): Service {
    if s.activeNum >= s.maxNum then s else s.(clients := s.clients[c := Client(false, false)])
  }

  /** The end of readC: n commands for r. */
  function Forwarded(s: Service, c: Fd, r: Fd, n: nat, isBlock: bool): Service
    requires c in s.clients && r in s.redises
  {
    var was := s.redises[r];
    s.(cToR := s.cToR[c := r], rToC := s.rToC[r := c], // repaired: server.c:499 does not do this when isBlock is new
       redises := s.redises[r := Redis(was.rNum + n, isBlock)],
       clients := s.clients[c := s.clients[c].(isBlock := isBlock)])
  }

  /** readC after a protocol error. A connection that had been leased before may still owe replies. */
  function Rejected(s: Service, c: Fd, r: Fd, isBlock: bool): Service
    requires c in s.clients
  {
    var s1 := s.(clients := s.clients[c := Client(true, isBlock)]);
    if s.clients[c].isBlock || isBlock then Drop(s1, r) else Put(s1, r) // repaired: server.c:475 only sees the new isBlock
  }

  function Processed(s: Service, c: Fd, r: Fd, input: FromClient): Service
    requires c in s.clients && r in s.redises
  {
    match input
    case Commands(n, isBlock) => Forwarded(s, c, r, n, isBlock)
    case Garbled(isBlock) => Rejected(s, c, r, isBlock)
    case _ => s
  }

  function OnReadC(s: Service, c: Fd, input: FromClient, spare: Option<Fd>): Service
    requires c in s.clients && s.avalidNum == |s.idle|
    requires forall i :: 0 <= i < |s.idle| ==> s.idle[i] in s.redises
    requires forall c :: c in s.cToR ==> s.cToR[c] in s.redises
  {
    if s.clients[c].isQuit || input == Nothing then s
    else if input == Closed then DropClient(s, c)
    else if s.clients[c].isBlock then
      if c in s.cToR then Processed(s, c, s.cToR[c], input) else Quit(s, c)
    else
      match Get(s, spare)
      case (None, _) => Quit(s, c)
      case (Some(r), s1) => Processed(s1, c, r, input)
  }

  /** readR after n replies. */
  function Answered(s: Service, r: Fd, n: nat): Service
    requires r in s.redises && r in s.rToC && n <= s.redises[r].rNum
  {
    var was := s.redises[r];
    var now := was.(rNum := was.rNum - n);
    if now.isBlock || now.rNum != 0 then s.(redises := s.redises[r := now])
    else Put(Forget(s, r), r) // repaired: server.c:423 removes the client's entry even if it is for another connection
  }

  function OnReadR(s: Service, r: Fd, reply: FromRedis): Service
    requires r in s.redises && (reply.Replies? ==> reply.n <= s.redises[r].rNum)
  {
    if r !in s.rToC || s.rToC[r] !in s.clients || s.clients[s.rToC[r]].isQuit then
      Drop(s, r) // repaired: server.c:377 leaves the client's entry
    else
      match reply
      case NoReply => s
      case Replies(n) => Answered(s, r, n)
      case _ => var c := s.rToC[r]; Drop(Quit(s, c).(cToR := s.cToR - {c}), r)
  }

  function OnWriteR(s: Service, r: Fd, ok: bool): Service {
    if ok then s
    else if r in s.rToC then Drop(Quit(s, s.rToC[r]), r) // repaired: server.c:544-551 looks for the client too late
    else Drop(s, r)
  }

  function OnWriteC(s: Service, c: Fd, ok: bool, drained: bool): Service
    requires c in s.clients
  {
    if !ok || (drained && s.clients[c].isQuit) then DropClient(s, c) else s
  }

  // ---------------------------------------------------------------- the invariant

  predicate NoTwice(q: seq<Fd>) { forall i, j :: 0 <= i < j < |q| ==> q[i] != q[j] }

  /** The idle list is what avalidNum says, and its connections owe nothing. */
  predicate IdleOk(s: Service) {
    && |s.idle| == s.avalidNum && NoTwice(s.idle)
    && (forall i :: 0 <= i < |s.idle| ==> s.idle[i] in s.redises && s.idle[i] !in s.rToC && s.redises[s.idle[i]] == UNUSED)
  }

  function Limit(s: Service): int { if s.minNum < s.maxNum then s.maxNum else s.minNum }

  /** Every open connection is idle or leased, but for those the running callback holds in hand; the
      counters count them; and there are not too many. */
  predicate CountsOk(s: Service, hand: set<Fd>) {
    && |s.rToC| + |hand| == s.activeNum && s.activeNum + s.avalidNum <= Limit(s)
    && (forall r :: r in s.rToC ==> r in s.redises)
    && (forall r :: r in hand ==> r in s.redises && r !in s.rToC)
    && (forall i :: 0 <= i < |s.idle| ==> s.idle[i] !in hand)
    && (forall r :: r in s.redises ==> r in s.rToC || r in hand || r in s.idle)
  }

  /** Every entry of cToR is mirrored in rToC, and rToC has no clients that are gone. */
  predicate TablesOk(s: Service) {
    && (forall c :: c in s.cToR ==> c in s.clients && s.cToR[c] in s.rToC && s.rToC[s.cToR[c]] == c)
    && (forall r :: r in s.rToC ==> s.rToC[r] in s.clients)
  }

  predicate Blocked(s: Service, c: Fd) { c in s.clients && s.clients[c].isBlock && !s.clients[c].isQuit }

  predicate Kept(s: Service, r: Fd) {
    r in s.rToC && r in s.redises && s.redises[r].isBlock && s.rToC[r] in s.clients && !s.clients[s.rToC[r]].isQuit
  }

  /** A client in a blocking command finds its connection, and a connection is kept for no other reason. */
  ghost predicate BlockedOk(s: Service) {
    && (forall c :: Blocked(s, c) ==> c in s.cToR && s.cToR[c] in s.redises && s.redises[s.cToR[c]].isBlock)
    && (forall r :: Kept(s, r) ==> s.rToC[r] in s.cToR && s.cToR[s.rToC[r]] == r && s.clients[s.rToC[r]].isBlock)
  }

  ghost predicate Holding(s: Service, hand: set<Fd>) {
    IdleOk(s) && CountsOk(s, hand) && TablesOk(s) && BlockedOk(s)
  }

  /** Between events nothing is in hand. */
  ghost predicate Inv(s: Service) { Holding(s, {}) }

  ghost function Step(s: Service, e: Event): Service
    requires Inv(s) && Possible(s, e)
  {
    match e
    case Accept(c) => OnAccept(s, c)
    case ReadC(c, input, spare) => OnReadC(s, c, input, spare)
    case ReadR(r, reply) => OnReadR(s, r, reply)
    case WriteR(r, ok) => OnWriteR(s, r, ok)
    case WriteC(c, ok, drained) => OnWriteC(s, c, ok, drained)
  }

  // ---------------------------------------------------------------- the pool keeps it

  lemma {:induction false} WithoutIs(q: seq<Fd>, r: Fd)
    requires NoTwice(q)
    ensures NoTwice(Without(q, r)) && |Without(q, r)| == (if r in q then |q| - 1 else |q|)
    ensures forall x :: x in Without(q, r) <==> x in q && x != r
    decreases |q|
  {
    if q != [] {
      var q1 := q[1..];
      assert q == [q[0]] + q1;
      assert forall x :: x in q1 ==> exists j :: 0 <= j < |q1| && q1[j] == x;
      assert forall j :: 0 <= j < |q1| ==> q1[j] == q[j + 1] != q[0];
      assert q[0] !in q1;
      if q[0] != r {
        WithoutIs(q1, r);
        NoTwiceCons(q[0], Without(q1, r));
      }
    }
  }

  lemma {:induction false} NoTwiceCons(r: Fd, q: seq<Fd>)
    requires NoTwice(q) && r !in q
    ensures NoTwice([r] + q)
  {
  }

  lemma {:induction false} GetKeeps(s: Service, spare: Option<Fd>)
    requires Inv(s) && (spare.Some? ==> spare.value !in s.redises)
    ensures var (r, s1) := Get(s, spare);
            if r.Some? then Holding(s1, {r.value}) && s1.redises[r.value] == UNUSED && r.value !in s1.rToC else s1 == s
  {
    if s.avalidNum > 0 {
      PopKeeps(s);
      PopIdle(s);
    } else if s.activeNum < s.maxNum && spare != None {
      NewKeeps(s, spare.value);
    }
  }

  function Popped(s: Service): Service
    requires s.idle != []
  {
    s.(idle := s.idle[1..], avalidNum := s.avalidNum - 1, activeNum := s.activeNum + 1)
  }

  lemma {:induction false} PopKeeps(s: Service)
    requires Inv(s) && s.idle != []
    ensures Holding(Popped(s), {s.idle[0]})
  {
    SameTables(s, Popped(s));
    PopIdle(s);
    PopCounts(s);
    hide BlockedOk;
    hide TablesOk;
    hide IdleOk;
    hide CountsOk;
  }

  lemma {:induction false} PopIdle(s: Service)
    requires IdleOk(s) && s.idle != []
    ensures IdleOk(Popped(s)) && s.idle[0] !in Popped(s).idle
  {
    var q := s.idle[1..];
    assert forall i :: 0 <= i < |q| ==> q[i] == s.idle[i + 1];
  }

  lemma {:induction false} PopCounts(s: Service)
    requires IdleOk(s) && CountsOk(s, {}) && s.idle != []
    ensures CountsOk(Popped(s), {s.idle[0]})
  {
    var q, r := s.idle[1..], s.idle[0];
    PopIdle(s);
    assert r in s.redises && r !in s.rToC;
    assert s.idle == [r] + q;
    assert forall x :: x in s.idle ==> x == r || x in q;
    assert |s.rToC| + |{r}| == s.activeNum + 1;
    hide IdleOk;
  }

  /** The pool's own fields do not matter to the tables. */
  lemma {:induction false} SameTables(s: Service, s1: Service)
    requires s1.clients == s.clients && s1.cToR == s.cToR && s1.rToC == s.rToC && s1.redises == s.redises
    ensures TablesOk(s) ==> TablesOk(s1)
    ensures BlockedOk(s) ==> BlockedOk(s1)
  {
    assert forall c :: Blocked(s1, c) ==> Blocked(s, c);
    assert forall r :: Kept(s1, r) ==> Kept(s, r);
  }

  /** Nor does a connection that is not in them. */
  lemma {:induction false} OtherRedis(s: Service, s1: Service, r: Fd)
    requires s1.clients == s.clients && s1.cToR == s.cToR && s1.rToC == s.rToC && r !in s.rToC
    requires s1.redises == s.redises - {r} || s1.redises == s.redises[r := UNUSED]
    requires TablesOk(s) && BlockedOk(s)
    ensures TablesOk(s1) && BlockedOk(s1)
  {
    assert forall c :: Blocked(s1, c) ==> Blocked(s, c);
    assert forall r :: Kept(s1, r) ==> Kept(s, r);
  }

  lemma {:induction false} NewKeeps(s: Service, r: Fd)
    requires Inv(s) && s.avalidNum <= 0 && s.activeNum < s.maxNum && r !in s.redises
    ensures Holding(s.(activeNum := s.activeNum + 1, redises := s.redises[r := UNUSED]), {r})
  {
    hide BlockedOk;
    hide TablesOk;
    OtherRedis(s, s.(activeNum := s.activeNum + 1, redises := s.redises[r := UNUSED]), r);
  }

  lemma {:induction false} PutKeeps(s: Service, r: Fd)
    requires Holding(s, {r})
    ensures Inv(Put(s, r)) && r in Put(s, r).idle
  {
    hide BlockedOk;
    hide TablesOk;
    assert r in ([r] + s.idle);
    OtherRedis(s, Put(s, r), r);
  }

  lemma {:induction false} DelHeld(s: Service, r: Fd)
    requires Holding(s, {r})
    ensures Inv(Del(s, r))
  {
    hide BlockedOk;
    hide TablesOk;
    hide Without;
    WithoutIs(s.idle, r);
    WithoutNone(s.idle, r);
    OtherRedis(s, Del(s, r), r);
  }

  lemma {:induction false} WithoutNone(q: seq<Fd>, r: Fd)
    requires r !in q
    ensures Without(q, r) == q
    decreases |q|
  {
    if q != [] { WithoutNone(q[1..], r); }
  }

  lemma {:induction false} DelIdle(s: Service, r: Fd)
    requires Inv(s) && r in s.redises && r !in s.rToC
    ensures Inv(Del(s, r))
  {
    hide BlockedOk;
    hide TablesOk;
    hide IdleOk;
    hide CountsOk;
    DelIdlePool(s, r);
    OtherRedis(s, Del(s, r), r);
  }

  lemma {:induction false} DelIdlePool(s: Service, r: Fd)
    requires IdleOk(s) && CountsOk(s, {}) && r in s.redises && r !in s.rToC
    ensures IdleOk(Del(s, r)) && CountsOk(Del(s, r), {})
  {
    hide Without;
    WithoutIs(s.idle, r);
    var q := Without(s.idle, r);
    forall i | 0 <= i < |q| ensures q[i] in s.redises - {r} && q[i] !in s.rToC && s.redises[q[i]] == UNUSED {
      assert q[i] in q;
    }
    hide NoTwice;
  }

  // ---------------------------------------------------------------- the tables keep it

  /** A leased connection can be taken from its client if nobody needs it, or nobody will ask for it. */
  predicate Free(s: Service, r: Fd) {
    r in s.rToC && r in s.redises && s.rToC[r] in s.clients && (s.redises[r].isBlock ==> s.clients[s.rToC[r]].isQuit)
  }

  lemma {:induction false} ForgetKeeps(s: Service, r: Fd)
    requires Inv(s) && Free(s, r)
    ensures Holding(Forget(s, r), {r})
  {
    ForgetPool(s, r);
    ForgetTables(s, r);
    hide IdleOk;
    hide CountsOk;
    hide TablesOk;
    hide BlockedOk;
  }

  lemma {:induction false} ForgetPool(s: Service, r: Fd)
    requires IdleOk(s) && CountsOk(s, {}) && r in s.rToC
    ensures var s1 := Forget(s, r); IdleOk(s1) && CountsOk(s1, {r})
  {
  }

  lemma {:induction false} ForgetTables(s: Service, r: Fd)
    requires TablesOk(s) && BlockedOk(s) && Free(s, r)
    ensures var s1 := Forget(s, r); TablesOk(s1) && BlockedOk(s1)
  {
    var s1 := Forget(s, r);
    assert forall c :: Blocked(s1, c) ==> Blocked(s, c);
    assert forall r1 :: Kept(s1, r1) ==> Kept(s, r1);
  }

  lemma {:induction false} DropKeeps(s: Service, r: Fd)
    requires (Inv(s) && r in s.redises && (r in s.rToC ==> Free(s, r))) || Holding(s, {r})
    ensures Inv(Drop(s, r))
  {
    if r in s.rToC {
      ForgetKeeps(s, r);
      DelHeld(Forget(s, r), r);
    } else if Holding(s, {r}) {
      DelHeld(s, r);
    } else {
      DelIdle(s, r);
    }
  }

  lemma {:induction false} QuitKeeps(s: Service, c: Fd, isBlock: bool, hand: set<Fd>)
    requires Holding(s, hand) && c in s.clients
    ensures Holding(s.(clients := s.clients[c := Client(true, isBlock)]), hand)
  {
    SamePool(s, s.(clients := s.clients[c := Client(true, isBlock)]), hand);
    QuitTables(s, c, isBlock);
    hide IdleOk;
    hide CountsOk;
    hide TablesOk;
    hide BlockedOk;
  }

  lemma {:induction false} QuitTables(s: Service, c: Fd, isBlock: bool)
    requires TablesOk(s) && BlockedOk(s) && c in s.clients
    ensures var s1 := s.(clients := s.clients[c := Client(true, isBlock)]); TablesOk(s1) && BlockedOk(s1)
  {
    var s1 := s.(clients := s.clients[c := Client(true, isBlock)]);
    assert forall c :: Blocked(s1, c) ==> Blocked(s, c);
    assert forall r :: Kept(s1, r) ==> Kept(s, r) && s1.clients[s.rToC[r]] == s.clients[s.rToC[r]];
  }

  /** Clients do not matter to the pool. */
  lemma {:induction false} SamePool(s: Service, s1: Service, hand: set<Fd>)
    requires s1 == s.(clients := s1.clients, cToR := s1.cToR)
    ensures IdleOk(s) ==> IdleOk(s1)
    ensures CountsOk(s, hand) ==> CountsOk(s1, hand)
  {
  }

  lemma {:induction false} UnlinkKeeps(s: Service, c: Fd)
    requires Inv(s) && c in s.clients && s.clients[c].isQuit
    ensures Inv(s.(cToR := s.cToR - {c}))
  {
  }

  lemma {:induction false} DropClientKeeps(s: Service, c: Fd)
    requires Inv(s) && c in s.clients
    ensures Inv(DropClient(s, c))
  {
    DropClientPool(s, c);
    DropClientTables(s, c);
    hide IdleOk;
    hide CountsOk;
    hide TablesOk;
    hide BlockedOk;
  }

  lemma {:induction false} DropClientPool(s: Service, c: Fd)
    requires IdleOk(s) && CountsOk(s, {})
    ensures var s1 := DropClient(s, c); IdleOk(s1) && CountsOk(s1, {})
  {
    DropClientIdle(s, c);
    DropClientCounts(s, c);
    hide CountsOk;
    hide IdleOk;
  }

  lemma {:induction false} DropClientIdle(s: Service, c: Fd)
    requires IdleOk(s)
    ensures IdleOk(DropClient(s, c))
  {
    hide NoTwice;
    var s1 := DropClient(s, c);
    forall i | 0 <= i < |s.idle|
      ensures s.idle[i] in s1.redises && s.idle[i] !in s1.rToC && s1.redises[s.idle[i]] == UNUSED
    {
      assert s.idle[i] !in s.rToC;
    }
  }

  lemma {:induction false} DropClientCounts(s: Service, c: Fd)
    requires CountsOk(s, {})
    ensures CountsOk(DropClient(s, c), {})
  {
    var s1, leases := DropClient(s, c), Leases(s, c);
    Sizes(s.rToC, leases);
    assert |s1.rToC| == s1.activeNum;
    forall r | r in s1.redises ensures r in s1.rToC || r in s1.idle {
      assert r in s.redises;
    }
  }

  lemma {:induction false} Sizes(m: map<Fd, Fd>, gone: set<Fd>)
    requires gone <= m.Keys
    ensures |m - gone| == |m| - |gone|
  {
    assert (m - gone).Keys == m.Keys - gone;
    assert |m.Keys - gone| == |m.Keys| - |gone|;
  }

  lemma {:induction false} DropClientTables(s: Service, c: Fd)
    requires TablesOk(s) && BlockedOk(s)
    ensures var s1 := DropClient(s, c); TablesOk(s1) && BlockedOk(s1)
  {
    var s1 := DropClient(s, c);
    forall c1 | Blocked(s1, c1)
      ensures c1 in s1.cToR && s1.cToR[c1] in s1.redises && s1.redises[s1.cToR[c1]].isBlock
    {
      assert Blocked(s, c1);
    }
    forall r | Kept(s1, r)
      ensures s1.rToC[r] in s1.cToR && s1.cToR[s1.rToC[r]] == r && s1.clients[s1.rToC[r]].isBlock
    {
      assert Kept(s, r);
    }
  }

  lemma {:induction false} ForwardedKeeps(s: Service, c: Fd, r: Fd, n: nat, isBlock: bool)
    requires c in s.clients && !s.clients[c].isQuit
    requires if s.clients[c].isBlock then Inv(s) && c in s.cToR && s.cToR[c] == r else Holding(s, {r})
    ensures Inv(Forwarded(s, c, r, n, isBlock))
  {
    ForwardedPool(s, c, r, n, isBlock);
    ForwardedTables(s, c, r, n, isBlock);
    ForwardedBlocked(s, c, r, n, isBlock);
  }

  lemma {:induction false} ForwardedPool(s: Service, c: Fd, r: Fd, n: nat, isBlock: bool)
    requires c in s.clients && r in s.redises && IdleOk(s)
    requires if r in s.rToC then CountsOk(s, {}) else CountsOk(s, {r})
    ensures var s1 := Forwarded(s, c, r, n, isBlock); IdleOk(s1) && CountsOk(s1, {})
  {
  }

  lemma {:induction false} ForwardedTables(s: Service, c: Fd, r: Fd, n: nat, isBlock: bool)
    requires c in s.clients && r in s.redises && TablesOk(s) && (r in s.rToC ==> s.rToC[r] == c)
    ensures TablesOk(Forwarded(s, c, r, n, isBlock))
  {
  }

  lemma {:induction false} ForwardedBlocked(s: Service, c: Fd, r: Fd, n: nat, isBlock: bool)
    requires Holding(s, if r in s.rToC then {} else {r}) && r in s.redises && c in s.clients && !s.clients[c].isQuit
    requires if s.clients[c].isBlock then c in s.cToR && s.cToR[c] == r else r !in s.rToC
    ensures BlockedOk(Forwarded(s, c, r, n, isBlock))
  {
    hide IdleOk;
    var s1 := Forwarded(s, c, r, n, isBlock);
    forall r1 | Kept(s1, r1)
      ensures s1.rToC[r1] in s1.cToR && s1.cToR[s1.rToC[r1]] == r1 && s1.clients[s1.rToC[r1]].isBlock
    {
      if r1 != r { assert Kept(s, r1); }
    }
    forall c1 | Blocked(s1, c1)
      ensures c1 in s1.cToR && s1.cToR[c1] in s1.redises && s1.redises[s1.cToR[c1]].isBlock
    {
      if c1 != c { assert Blocked(s, c1); }
    }
  }

  // ---------------------------------------------------------------- every event keeps it

  lemma {:induction false} ReadCKeeps(s: Service, c: Fd, input: FromClient, spare: Option<Fd>)
    requires Inv(s) && Possible(s, ReadC(c, input, spare))
    ensures Inv(OnReadC(s, c, input, spare))
  {
    hide IdleOk;
    hide TablesOk;
    hide CountsOk;
    hide BlockedOk;
    hide Get;
    hide Processed;
    assert s.avalidNum == |s.idle| && forall i :: 0 <= i < |s.idle| ==> s.idle[i] in s.redises by { IdleIs(s); }
    EntriesAreOpen(s, {});
    if !s.clients[c].isQuit && input != Nothing {
      if input == Closed {
        DropClientKeeps(s, c);
      } else if s.clients[c].isBlock {
        BlockedFinds(s, c);
        ProcessedKeeps(s, c, s.cToR[c], input);
      } else {
        GetKeeps(s, spare);
        GetLeavesClients(s, spare);
        match Get(s, spare)
        case (None, s1) => QuitKeeps(s, c, s.clients[c].isBlock, {});
        case (Some(r), s1) =>
          HandIsOpen(s1, r);
          ProcessedKeeps(s1, c, r, input);
      }
    }
  }

  lemma {:induction false} IdleIs(s: Service)
    requires IdleOk(s)
    ensures s.avalidNum == |s.idle| && forall i :: 0 <= i < |s.idle| ==> s.idle[i] in s.redises
  {
  }

  lemma {:induction false} EntriesAreOpen(s: Service, hand: set<Fd>)
    requires Holding(s, hand)
    ensures forall c :: c in s.cToR ==> s.cToR[c] in s.redises
  {
  }

  lemma {:induction false} GetLeavesClients(s: Service, spare: Option<Fd>)
    requires s.avalidNum == |s.idle|
    ensures Get(s, spare).1.clients == s.clients
  {
  }

  /** A client in a blocking command is never told that its connection is missing (server.c:457). */
  lemma {:induction false} BlockedFinds(s: Service, c: Fd)
    requires Inv(s) && Blocked(s, c)
    ensures c in s.cToR && s.cToR[c] in s.redises && s.redises[s.cToR[c]].isBlock && s.rToC[s.cToR[c]] == c
  {
  }

  lemma {:induction false} HandIsOpen(s: Service, r: Fd)
    requires Holding(s, {r})
    ensures r in s.redises && r !in s.rToC && r !in s.idle
  {
    assert r in {r};
  }

  lemma {:induction false} ProcessedKeeps(s: Service, c: Fd, r: Fd, input: FromClient)
    requires c in s.clients && !s.clients[c].isQuit && (input.Commands? || input.Garbled?)
    requires if s.clients[c].isBlock then Inv(s) && c in s.cToR && s.cToR[c] == r && r in s.redises else Holding(s, {r}) && r in s.redises
    ensures Inv(Processed(s, c, r, input))
  {
    match input
    case Commands(n, isBlock) => ForwardedKeeps(s, c, r, n, isBlock);
    case Garbled(isBlock) => RejectedKeeps(s, c, r, isBlock);
  }

  lemma {:induction false} RejectedKeeps(s: Service, c: Fd, r: Fd, isBlock: bool)
    requires c in s.clients && !s.clients[c].isQuit
    requires if s.clients[c].isBlock then Inv(s) && c in s.cToR && s.cToR[c] == r && r in s.redises else Holding(s, {r})
    ensures Inv(Rejected(s, c, r, isBlock))
  {
    hide IdleOk;
    hide CountsOk;
    hide BlockedOk;
    hide Drop;
    hide Put;
    var s1 := s.(clients := s.clients[c := Client(true, isBlock)]);
    if s.clients[c].isBlock {
      QuitKeeps(s, c, isBlock, {});
      DropKeeps(s1, r);
    } else {
      QuitKeeps(s, c, isBlock, {r});
      if isBlock { DropKeeps(s1, r); } else { PutKeeps(s1, r); }
    }
  }

  lemma {:induction false} AnsweredKeeps(s: Service, r: Fd, n: nat)
    requires Inv(s) && r in s.redises && r in s.rToC && n <= s.redises[r].rNum
    ensures Inv(Answered(s, r, n))
  {
    var was := s.redises[r];
    var now := was.(rNum := was.rNum - n);
    if now.isBlock || now.rNum != 0 {
      CountedKeeps(s, r, now);
    } else {
      assert Free(s, r);
      hide Inv;
      hide Put;
      hide Forget;
      hide Holding;
      ForgetKeeps(s, r);
      PutKeeps(Forget(s, r), r);
    }
  }

  lemma {:induction false} CountedKeeps(s: Service, r: Fd, now: Redis)
    requires Inv(s) && r in s.rToC && r in s.redises && now.isBlock == s.redises[r].isBlock
    ensures Inv(s.(redises := s.redises[r := now]))
  {
    var s1 := s.(redises := s.redises[r := now]);
    assert forall r1 :: Kept(s1, r1) ==> Kept(s, r1);
    assert forall c :: Blocked(s1, c) ==> Blocked(s, c);
  }

  lemma {:induction false} ReadRKeeps(s: Service, r: Fd, reply: FromRedis)
    requires Inv(s) && Possible(s, ReadR(r, reply))
    ensures Inv(OnReadR(s, r, reply))
  {
    hide IdleOk;
    hide CountsOk;
    hide BlockedOk;
    hide Drop;
    hide Answered;
    if r !in s.rToC || s.clients[s.rToC[r]].isQuit {
      DropKeeps(s, r);
    } else if reply.Replies? {
      AnsweredKeeps(s, r, reply.n);
    } else if reply != NoReply {
      var c := s.rToC[r];
      QuitKeeps(s, c, s.clients[c].isBlock, {});
      UnlinkKeeps(Quit(s, c), c);
      DropKeeps(Quit(s, c).(cToR := s.cToR - {c}), r);
    }
  }

  lemma {:induction false} WriteRKeeps(s: Service, r: Fd, ok: bool)
    requires Inv(s) && r in s.redises
    ensures Inv(OnWriteR(s, r, ok))
  {
    hide IdleOk;
    hide CountsOk;
    hide BlockedOk;
    hide Drop;
    if r in s.rToC {
      var c := s.rToC[r];
      QuitKeeps(s, c, s.clients[c].isBlock, {});
      DropKeeps(Quit(s, c), r);
    } else {
      DropKeeps(s, r);
    }
  }

  lemma {:induction false} AcceptKeeps(s: Service, c: Fd)
    requires Inv(s) && c !in s.clients
    ensures Inv(OnAccept(s, c))
  {
    var s1 := s.(clients := s.clients[c := Client(false, false)]);
    SamePool(s, s1, {});
    assert forall c1 :: Blocked(s1, c1) ==> Blocked(s, c1);
    assert forall r :: Kept(s1, r) ==> Kept(s, r);
  }

  /** Every event callback keeps the invariant. */
  lemma {:induction false} StepKeeps(s: Service, e: Event)
    requires Inv(s) && Possible(s, e)
    ensures Inv(Step(s, e))
  {
    hide OnReadC;
    hide OnReadR;
    hide OnWriteR;
    match e
    case Accept(c) => AcceptKeeps(s, c);
    case ReadC(c, input, spare) => ReadCKeeps(s, c, input, spare);
    case ReadR(r, reply) => ReadRKeeps(s, r, reply);
    case WriteR(r, ok) => WriteRKeeps(s, r, ok);
    case WriteC(c, ok, drained) => if !ok || (drained && s.clients[c].isQuit) { DropClientKeeps(s, c); }
  }

  // ---------------------------------------------------------------- runs

  /** initPool with these connections, before any client. */
  function Start(idle: seq<Fd>, maxNum: nat): Service {
    Service(idle, |idle|, 0, |idle|, maxNum, map r | r in idle :: UNUSED, map[], map[], map[])
  }

  /** The state after a run of events; None if one of them cannot happen where it stands. */
  ghost function Final(s: Service, es: seq<Event>): Option<Service>
    requires Inv(s)
    decreases |es|
  {
    if es == [] then Some(s)
    else if !Possible(s, es[0]) then None
    else
      StepKeeps(s, es[0]);
      Final(Step(s, es[0]), es[1..])
  }

  lemma {:induction false} StartKeeps(idle: seq<Fd>, maxNum: nat)
    requires NoTwice(idle)
    ensures Inv(Start(idle, maxNum))
  {
    var s := Start(idle, maxNum);
    assert forall c :: !Blocked(s, c);
    assert forall r :: !Kept(s, r);
  }

  /** A run of the service from its start. */
  ghost function RunFrom(idle: seq<Fd>, maxNum: nat, es: seq<Event>): Option<Service>
    requires NoTwice(idle)
  {
    StartKeeps(idle, maxNum);
    Final(Start(idle, maxNum), es)
  }

  lemma {:induction false} FinalKeeps(s: Service, es: seq<Event>)
    requires Inv(s) && Final(s, es).Some?
    ensures var t := Final(s, es).value; Inv(t) && t.minNum == s.minNum && t.maxNum == s.maxNum
    decreases |es|
  {
    hide Step;
    if es != [] {
      StepKeeps(s, es[0]);
      StepLimit(s, es[0]);
      FinalKeeps(Step(s, es[0]), es[1..]);
    }
  }

  /** In every reachable state: each entry of cToR is mirrored in rToC; no connection in either table is in
      the idle list; the list is as long as avalidNum says; the counters never exceed the larger of maxNum
      and minNum; and an idle connection owes no reply. */
  lemma {:induction false} Reachable(idle: seq<Fd>, maxNum: nat, es: seq<Event>)
    requires NoTwice(idle) && RunFrom(idle, maxNum, es).Some?
    ensures var s := RunFrom(idle, maxNum, es).value;
      && (forall c :: c in s.cToR ==> s.cToR[c] in s.rToC && s.rToC[s.cToR[c]] == c && s.cToR[c] !in s.idle)
      && (forall r :: r in s.rToC ==> r !in s.idle && s.rToC[r] in s.clients)
      && |s.idle| == s.avalidNum && |s.rToC| == s.activeNum
      && s.activeNum + s.avalidNum <= (if maxNum > |idle| then maxNum else |idle|)
      && (forall r :: r in s.idle ==> r in s.redises && s.redises[r].rNum == 0)
  {
    StartKeeps(idle, maxNum);
    FinalKeeps(Start(idle, maxNum), es);
  }

  /** So they never exceed maxNum exactly if the pool does not start with more connections than that. */
  lemma {:induction false} NeverAboveMaxNum(idle: seq<Fd>, maxNum: nat)
    requires NoTwice(idle)
    ensures |idle| <= maxNum <==>
              forall es :: RunFrom(idle, maxNum, es).Some? ==>
                             var s := RunFrom(idle, maxNum, es).value; s.activeNum + s.avalidNum <= maxNum
  {
    StartKeeps(idle, maxNum);
    hide Inv;
    hide Step;
    forall es | RunFrom(idle, maxNum, es).Some?
      ensures |idle| <= maxNum ==>
                var s := RunFrom(idle, maxNum, es).value; s.activeNum + s.avalidNum <= maxNum
    {
      Reachable(idle, maxNum, es);
    }
    assert RunFrom(idle, maxNum, []).Some?;
  }

  lemma {:induction false} StepLimit(s: Service, e: Event)
    requires Inv(s) && Possible(s, e)
    ensures Step(s, e).minNum == s.minNum && Step(s, e).maxNum == s.maxNum
  {
    hide Holding;
    match e
    case Accept(c) =>
    case ReadC(c, input, spare) => ReadCLimit(s, c, input, spare);
    case ReadR(r, reply) => DropLimit(s, r); ReadRLimit(s, r, reply);
    case WriteR(r, ok) => DropLimit(s, r); if r in s.rToC { DropLimit(Quit(s, s.rToC[r]), r); }
    case WriteC(c, ok, drained) =>
  }

  lemma {:induction false} DropLimit(s: Service, r: Fd)
    ensures Drop(s, r).minNum == s.minNum && Drop(s, r).maxNum == s.maxNum
  {
  }

  lemma {:induction false} ReadCLimit(s: Service, c: Fd, input: FromClient, spare: Option<Fd>)
    requires Inv(s) && Possible(s, ReadC(c, input, spare))
    ensures var t := OnReadC(s, c, input, spare); t.minNum == s.minNum && t.maxNum == s.maxNum
  {
    hide Drop;
    IdleIs(s);
    hide Holding;
    var (r, s1) := Get(s, spare);
    match input
    case Garbled(b) =>
      if c in s.cToR { DropLimit(s.(clients := s.clients[c := Client(true, b)]), s.cToR[c]); }
      if r.Some? { DropLimit(s1.(clients := s.clients[c := Client(true, b)]), r.value); }
    case _ =>
  }

  lemma {:induction false} ReadRLimit(s: Service, r: Fd, reply: FromRedis)
    requires Inv(s) && Possible(s, ReadR(r, reply))
    ensures var t := OnReadR(s, r, reply); t.minNum == s.minNum && t.maxNum == s.maxNum
  {
    hide Drop;
    DropLimit(s, r);
    if r in s.rToC {
      var c := s.rToC[r];
      DropLimit(Quit(s, c).(cToR := s.cToR - {c}), r);
    }
  }

  /** A client that leaves takes every connection leased to it with it; none is left with a client that is gone. */
  lemma {:induction false} NothingDangles(s: Service, c: Fd)
    requires Inv(s) && c in s.clients
    ensures var s1 := Step(s, ReadC(c, Closed, None)); !s.clients[c].isQuit ==>
              c !in s1.clients && c !in s1.cToR && (forall r :: r in s1.rToC ==> s1.rToC[r] != c)
              && s1.idle == s.idle
  {
  }
}
