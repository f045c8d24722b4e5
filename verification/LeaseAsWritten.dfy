/** The lines of src/net/pool.c and src/net/server.c that Lease repairs, as they are written: exactly when
    they keep its invariant. */
module LeaseAsWritten {
  import opened Wrappers
  import opened Lease
  import LeaseServer

  // ---------------------------------------------------------------- the counters

  /** putRedis with a right list and the counters as they are written (pool.c:178-188): only initPool and
      getRedis ever count. */
  function PutText(s: Service, r: Fd): Service { Put(s, r).(avalidNum := s.avalidNum, activeNum := s.activeNum) }

  /** delRedis, likewise (pool.c:219-233). */
  function DelText(s: Service, r: Fd): Service { Del(s, r).(avalidNum := s.avalidNum, activeNum := s.activeNum) }

  /** Neither is ever right, whatever the connection; so once connections are returned or dropped, what follows
      in this module holds only for a pool whose counters and list are repaired. */
  lemma {:induction false} PutNeverRight(s: Service, r: Fd)
    requires Holding(s, {r})
    ensures !Inv(PutText(s, r))
  {
  }

  lemma {:induction false} DelNeverRight(s: Service, r: Fd)
    requires Holding(s, {r}) || (Inv(s) && r in s.redises)
    ensures !Inv(DelText(if r in s.rToC then Forget(s, r) else s, r))
  {
    hide Without;
    WithoutIs(s.idle, r);
    if r !in s.idle {
      WithoutNone(s.idle, r);
      CountsAreWrong(s, r);
    }
  }

  lemma {:induction false} CountsAreWrong(s: Service, r: Fd)
    requires (Holding(s, {r}) && r !in s.rToC) || (Inv(s) && r in s.rToC)
    ensures |s.rToC - {r}| != s.activeNum
  {
    Sizes(s.rToC, if r in s.rToC then {r} else {});
    assert r !in s.rToC ==> s.rToC - {r} == s.rToC;
  }

  /** Of all the ways a client ends, only that without a connection leaves the counters right. */
  lemma {:induction false} FreedUncounted(s: Service, c: Fd)
    requires Inv(s) && c in s.clients
    ensures Inv(DropClient(s, c).(activeNum := s.activeNum)) <==> Leases(s, c) == {}
  {
    hide IdleOk;
    hide TablesOk;
    hide BlockedOk;
    Sizes(s.rToC, Leases(s, c));
    if Leases(s, c) == {} {
      DropClientKeeps(s, c);
    }
  }

  /** The pool with its list right and its counters as written; out are the connections it has lent. */
  datatype PoolText = PoolText(idle: seq<Fd>, out: set<Fd>, avalidNum: nat, activeNum: nat)

  datatype Op = Lend(spare: Option<Fd>) | Return(r: Fd) | DropLent(r: Fd) | DropIdle(r: Fd)

  /** NullHead: getRedis follows a list that is empty (pool.c:156-157). */
  datatype Effect = To(p: PoolText) | Refused | NullHead | Impossible

  function Apply(p: PoolText, maxNum: nat, op: Op): Effect {
    match op
    case Lend(spare) =>
      if p.avalidNum > 0 then
        if p.idle == [] then NullHead
        else To(PoolText(p.idle[1..], p.out + {p.idle[0]}, p.avalidNum - 1, p.activeNum + 1))
      else if maxNum <= p.activeNum || spare == None then Refused
      else if spare.value in p.out || spare.value in p.idle then Impossible
      else To(p.(out := p.out + {spare.value}, activeNum := p.activeNum + 1))
    case Return(r) => if r in p.out then To(p.(idle := [r] + p.idle, out := p.out - {r})) else Impossible
    case DropLent(r) => if r in p.out then To(p.(out := p.out - {r})) else Impossible
    case DropIdle(r) => if r in p.idle then To(p.(idle := Without(p.idle, r))) else Impossible
  }

  function Applied(conns: seq<Fd>, maxNum: nat, ops: seq<Op>): Effect
    decreases |ops|
  {
    if ops == [] then To(PoolText(conns, {}, |conns|, 0))
    else
      match Applied(conns, maxNum, ops[..|ops| - 1])
      case To(p) => Apply(p, maxNum, ops[|ops| - 1])
      case e => e
  }

  function Loans(ops: seq<Op>): nat {
    if ops == [] then 0 else Loans(ops[..|ops| - 1]) + if ops[|ops| - 1].Lend? then 1 else 0
  }

  function Returns(ops: seq<Op>): nat {
    if ops == [] then 0 else Returns(ops[..|ops| - 1]) + if ops[|ops| - 1].Return? then 1 else 0
  }

  function LentDrops(ops: seq<Op>): nat {
    if ops == [] then 0 else LentDrops(ops[..|ops| - 1]) + if ops[|ops| - 1].DropLent? then 1 else 0
  }

  function IdleDrops(ops: seq<Op>): nat {
    if ops == [] then 0 else IdleDrops(ops[..|ops| - 1]) + if ops[|ops| - 1].DropIdle? then 1 else 0
  }

  /** How far the counters drift over any run of loans, returns and drops: activeNum counts every loan ever made
      and is too high by the returns and drops; avalidNum is too low by the returns, but for idle drops. */
  lemma {:induction false} Drift(conns: seq<Fd>, maxNum: nat, ops: seq<Op>)
    requires NoTwice(conns) && Applied(conns, maxNum, ops).To?
    ensures var p := Applied(conns, maxNum, ops).p;
            && p.activeNum == Loans(ops) && p.avalidNum == (if Loans(ops) < |conns| then |conns| - Loans(ops) else 0)
            && p.activeNum - |p.out| == Returns(ops) + LentDrops(ops)
            && |p.idle| - p.avalidNum == Returns(ops) - IdleDrops(ops)
            && NoTwice(p.idle) && (forall r :: r in p.out ==> r !in p.idle)
    decreases |ops|
  {
    if ops != [] {
      Drift(conns, maxNum, ops[..|ops| - 1]);
      ApplyKeeps(Applied(conns, maxNum, ops[..|ops| - 1]).p, maxNum, ops[|ops| - 1]);
    }
  }

  lemma {:induction false} ApplyKeeps(p: PoolText, maxNum: nat, op: Op)
    requires NoTwice(p.idle) && (forall r :: r in p.out ==> r !in p.idle) && Apply(p, maxNum, op).To?
    ensures var p1 := Apply(p, maxNum, op).p;
            && NoTwice(p1.idle) && (forall r :: r in p1.out ==> r !in p1.idle)
            && |p1.idle| == |p.idle| + (match op
                 case Lend(_) => if p.avalidNum > 0 then -1 else 0
                 case Return(_) => 1
                 case DropLent(_) => 0
                 case DropIdle(_) => -1)
            && |p1.out| == |p.out| + match op case Lend(_) => 1 case Return(_) => -1 case DropLent(_) => -1 case DropIdle(_) => 0
  {
    match op
    case Lend(_) =>
      if p.avalidNum > 0 {
        assert p.idle == [p.idle[0]] + p.idle[1..];
        assert forall x :: x in p.idle[1..] ==> exists j :: 0 < j < |p.idle| && p.idle[j] == x;
      }
    case Return(r) => NoTwiceCons(r, p.idle);
    case DropIdle(r) => WithoutIs(p.idle, r);
    case DropLent(_) =>
  }

  /** So the next loan is refused exactly once as many have been made as the larger of maxNum and minNum,
      however many connections are idle by then; and follows an empty list exactly if, before minNum loans, as
      many idle connections have been dropped as there were. */
  lemma {:induction false} NextLoan(conns: seq<Fd>, maxNum: nat, ops: seq<Op>, r: Fd)
    requires NoTwice(conns) && Applied(conns, maxNum, ops).To?
    ensures var e := Apply(Applied(conns, maxNum, ops).p, maxNum, Lend(Some(r)));
            && (e == Refused <==> Loans(ops) >= maxNum && Loans(ops) >= |conns|)
            && (e == NullHead <==> Loans(ops) < |conns| && IdleDrops(ops) == |conns| - Loans(ops) + Returns(ops))
  {
    Drift(conns, maxNum, ops);
  }

  // ---------------------------------------------------------------- the list

  /** delRedis: prev is never set, so r's successor becomes the head (pool.c:225-230). */
  function HeadAsWritten(next: map<Fd, Option<Fd>>, r: Fd): Option<Fd>
    requires r in next
  {
    next[r]
  }

  /** The list is then the old one without r exactly if r was its head, or r was leased and its successor
      has happened to stay the head. */
  lemma {:induction false} DelUnlinks(head: Option<Fd>, next: map<Fd, Option<Fd>>, idle: seq<Fd>, r: Fd)
    requires LeaseServer.Listed(head, next, idle) && NoTwice(idle) && r in next
    ensures LeaseServer.Listed(HeadAsWritten(next, r), next, Without(idle, r)) <==>
              if r in idle then r == idle[0] else next[r] == head
  {
    if r in idle {
      var i :| 0 <= i < |idle| && idle[i] == r;
      LeaseServer.ListedAt(head, next, idle, i);
      LeaseServer.WithoutAt(idle, i);
      if i > 0 {
        assert Without(idle, r)[0] == idle[0];
      } else {
        assert Without(idle, r) == idle[1..];
      }
    } else {
      WithoutNone(idle, r);
    }
  }

  /** Two connections are leased and the first one is deleted: the second one, still leased, is the idle list. */
  lemma {:induction false} DelBringsBackLeased(a: Fd, b: Fd)
    requires a != b
    ensures var next := map[a := Some(b), b := None];
            LeaseServer.Listed(Some(a), next, [a, b]) && LeaseServer.Listed(HeadAsWritten(next, a), next, [b])
  {
    assert [a, b][1..] == [b] && [b][1..] == [];
  }

  // ---------------------------------------------------------------- the tables

  // Each function below has one place as it is written, and all else, the pool's counters and list too, as in
  // Lease. What its lemma calls right is right under that condition only: see PutNeverRight, DelNeverRight.

  /** readC only enters the connection when the client is not blocked now (server.c:499). */
  function ForwardedAsWritten(s: Service, c: Fd, r: Fd, n: nat, isBlock: bool): Service
    requires c in s.clients && r in s.redises
  {
    var s1 := Forwarded(s, c, r, n, isBlock);
    if isBlock then s1.(cToR := s.cToR, rToC := s.rToC) else s1
  }

  /** That is right exactly if the client is not blocked now, or was so before and has its entries already. */
  lemma {:induction false} EnteredIfNotBlocked(s: Service, c: Fd, r: Fd, n: nat, isBlock: bool)
    requires c in s.clients && !s.clients[c].isQuit && r in s.redises
    requires if s.clients[c].isBlock then Inv(s) && c in s.cToR && s.cToR[c] == r else Holding(s, {r})
    ensures Inv(ForwardedAsWritten(s, c, r, n, isBlock)) <==> !isBlock || s.clients[c].isBlock
  {
    if s.clients[c].isBlock {
      assert s.cToR[c := r] == s.cToR && s.rToC[r := c] == s.rToC;
      ForwardedKeeps(s, c, r, n, isBlock);
    } else if !isBlock {
      ForwardedKeeps(s, c, r, n, isBlock);
    } else {
      HandIsOpen(s, r);
    }
  }

  /** readC's error exits (server.c:474-479, 487-491): the tables stay, and r goes where the client's new state
      says. */
  function RejectedAsWritten(s: Service, c: Fd, r: Fd, isBlock: bool): Service
    requires c in s.clients
  {
    var s1 := s.(clients := s.clients[c := Client(true, isBlock)]);
    if isBlock then Del(s1, r) else Put(s1, r)
  }

  /** Right exactly if the client was not blocked, so that r has just been leased. */
  lemma {:induction false} RejectedIfNotBlocked(s: Service, c: Fd, r: Fd, isBlock: bool)
    requires c in s.clients && !s.clients[c].isQuit
    requires if s.clients[c].isBlock then Inv(s) && c in s.cToR && s.cToR[c] == r else Holding(s, {r})
    ensures Inv(RejectedAsWritten(s, c, r, isBlock)) <==> !s.clients[c].isBlock
  {
    if s.clients[c].isBlock {
      var s1 := RejectedAsWritten(s, c, r, isBlock);
      assert r in s.rToC && s1.rToC == s.rToC;
      if isBlock {
        assert r !in s1.redises;
      } else {
        assert s1.idle[0] == r;
      }
    } else {
      HandIsOpen(s, r);
      RejectedKeeps(s, c, r, isBlock);
    }
  }

  /** readR after the last reply removes the client's entry, whoever it is for (server.c:422-424). */
  function AnsweredAsWritten(s: Service, r: Fd): Service
    requires r in s.rToC
  {
    Put(s.(rToC := s.rToC - {r}, cToR := s.cToR - {s.rToC[r]}), r)
  }

  /** Right exactly if the client is not meanwhile blocked on another connection. */
  lemma {:induction false} AnsweredIfNotBlocked(s: Service, r: Fd)
    requires Inv(s) && r in s.rToC && !s.redises[r].isBlock
    ensures Inv(AnsweredAsWritten(s, r)) <==> !Blocked(s, s.rToC[r])
  {
    var c, s1 := s.rToC[r], AnsweredAsWritten(s, r);
    if Blocked(s, c) {
      assert Blocked(s1, c) && c !in s1.cToR;
    } else {
      AnsweredUnblocked(s, r);
    }
  }

  lemma {:induction false} AnsweredUnblocked(s: Service, r: Fd)
    requires Inv(s) && r in s.rToC && !s.redises[r].isBlock && !Blocked(s, s.rToC[r])
    ensures Inv(AnsweredAsWritten(s, r))
  {
    var s0 := s.(rToC := s.rToC - {r}, cToR := s.cToR - {s.rToC[r]});
    TakenOutPool(s, s0, r);
    TakenOutTables(s, s0, r);
    hide IdleOk;
    hide CountsOk;
    hide BlockedOk;
    hide TablesOk;
    PutKeeps(s0, r);
  }

  lemma {:induction false} TakenOutPool(s: Service, s0: Service, r: Fd)
    requires s0 == s.(rToC := s.rToC - {r}, cToR := s0.cToR) && r in s.rToC
    ensures IdleOk(s) ==> IdleOk(s0)
    ensures IdleOk(s) && CountsOk(s, {}) ==> CountsOk(s0, {r})
  {
  }

  /** The client's entry may go if it is for no blocked client, and must go if it is for r. */
  lemma {:induction false} TakenOutTables(s: Service, s0: Service, r: Fd)
    requires s0 == s.(rToC := s.rToC - {r}, cToR := s0.cToR) && r in s.rToC && TablesOk(s) && BlockedOk(s)
    requires || (s0.cToR == s.cToR - {s.rToC[r]} && !Blocked(s, s.rToC[r]))
             || (s0.cToR == s.cToR && !(s.rToC[r] in s.cToR && s.cToR[s.rToC[r]] == r))
    ensures TablesOk(s0) && BlockedOk(s0)
  {
    assert forall c :: Blocked(s0, c) ==> Blocked(s, c);
    assert forall r1 :: Kept(s0, r1) ==> Kept(s, r1) && s0.rToC[r1] == s.rToC[r1];
  }

  /** removeRC(r, rk, NULL, NULL) leaves the client's entry (server.c:376-379, 543-544). */
  function DropAsWritten(s: Service, r: Fd): Service { Del(s.(rToC := s.rToC - {r}), r) }

  /** Right exactly if there is none for r. */
  lemma {:induction false} DropIfNoEntry(s: Service, r: Fd)
    requires Inv(s) && r in s.rToC
    ensures Inv(DropAsWritten(s, r)) <==> !(s.rToC[r] in s.cToR && s.cToR[s.rToC[r]] == r)
  {
    var c, s1 := s.rToC[r], DropAsWritten(s, r);
    assert s1.cToR == s.cToR && s1.rToC == s.rToC - {r};
    if !(c in s.cToR && s.cToR[c] == r) {
      DropUnentered(s, r);
    }
  }

  lemma {:induction false} DropUnentered(s: Service, r: Fd)
    requires Inv(s) && r in s.rToC && !(s.rToC[r] in s.cToR && s.cToR[s.rToC[r]] == r)
    ensures Inv(DropAsWritten(s, r))
  {
    var s0 := s.(rToC := s.rToC - {r});
    TakenOutPool(s, s0, r);
    TakenOutTables(s, s0, r);
    hide IdleOk;
    hide CountsOk;
    hide BlockedOk;
    hide TablesOk;
    DelHeld(s0, r);
  }

  /** writeR removes the entry and then looks for it (server.c:543-551): the client is not told. */
  function OnWriteFailureAsWritten(s: Service, r: Fd): Service {
    var s1 := DropAsWritten(s, r);
    if r in s1.rToC then Quit(s1, s1.rToC[r]) else s1
  }

  lemma {:induction false} ClientIsNotTold(s: Service, r: Fd)
    requires Inv(s) && r in s.rToC && !s.clients[s.rToC[r]].isQuit
    ensures !OnWriteFailureAsWritten(s, r).clients[s.rToC[r]].isQuit
    ensures OnWriteR(s, r, false).clients[s.rToC[r]].isQuit
  {
  }

  /** removeByC frees the client and the connection it has an entry for (server.c:811-831, 437-447). */
  function FreedAsWritten(s: Service, c: Fd): Service {
    var s1 := s.(clients := s.clients - {c}, cToR := s.cToR - {c});
    if c in s.cToR then Del(s1.(rToC := s.rToC - {s.cToR[c]}), s.cToR[c]) else s1
  }

  /** Right exactly if no other connection is leased to the client. */
  lemma {:induction false} FreedIfOnlyLease(s: Service, c: Fd)
    requires Inv(s) && c in s.clients
    ensures Inv(FreedAsWritten(s, c)) <==> Leases(s, c) == if c in s.cToR then {s.cToR[c]} else {}
  {
    var s1, leases := FreedAsWritten(s, c), Leases(s, c);
    var entry := if c in s.cToR then {s.cToR[c]} else {};
    FreedTables(s, c);
    hide Del;
    hide FreedAsWritten;
    hide IdleOk;
    hide CountsOk;
    hide BlockedOk;
    if leases == entry {
      DropClientKeeps(s, c);
      FreedIsDropped(s, c);
    } else {
      var r :| r in leases && r !in entry;
      assert r in s1.rToC && s1.rToC[r] == c;
    }
  }

  lemma {:induction false} FreedTables(s: Service, c: Fd)
    ensures var s1 := FreedAsWritten(s, c);
            s1.rToC == s.rToC - (if c in s.cToR then {s.cToR[c]} else {}) && s1.clients == s.clients - {c}
  {
    assert s.rToC - {} == s.rToC;
  }

  lemma {:induction false} MirrorIs(s: Service, c: Fd)
    requires Inv(s) && c in s.cToR
    ensures s.cToR[c] in s.rToC && s.rToC[s.cToR[c]] == c
  {
  }

  lemma {:induction false} FreedIsDropped(s: Service, c: Fd)
    requires Inv(s) && Leases(s, c) == if c in s.cToR then {s.cToR[c]} else {}
    ensures FreedAsWritten(s, c) == DropClient(s, c)
  {
    hide Del;
    hide Inv;
    if c in s.cToR {
      var r := s.cToR[c];
      MirrorIs(s, c);
      LeaseServer.LeasedIsBusy(s, r);
      LeaseServer.DelLeased(s.(clients := s.clients - {c}, cToR := s.cToR - {c}, rToC := s.rToC - {r}), r);
    } else {
      assert s.rToC - {} == s.rToC && s.redises - {} == s.redises;
    }
  }
}
