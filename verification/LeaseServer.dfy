/** The pool and the event callbacks in place: the linked list and counters of src/net/pool.c, and the tables
    of src/net/server.c, shown to do what Lease says. */
module LeaseServer {
  import opened Wrappers
  import opened Lease

  /** The list that starts at head and follows the next pointers. */
  ghost predicate Listed(head: Option<Fd>, next: map<Fd, Option<Fd>>, q: seq<Fd>)
    decreases |q|
  {
    if q == [] then head == None
    else head == Some(q[0]) && q[0] in next && Listed(next[q[0]], next, q[1..])
  }

  lemma {:induction false} ListedElsewhere(head: Option<Fd>, next: map<Fd, Option<Fd>>, q: seq<Fd>, r: Fd, to: Option<Fd>)
    requires Listed(head, next, q) && r !in q
    ensures Listed(head, next[r := to], q)
    decreases |q|
  {
    if q != [] { ListedElsewhere(next[q[0]], next, q[1..], r, to); }
  }

  lemma {:induction false} ListedAt(head: Option<Fd>, next: map<Fd, Option<Fd>>, q: seq<Fd>, i: nat)
    requires Listed(head, next, q) && i < |q|
    ensures q[i] in next && Listed(Some(q[i]), next, q[i..])
    ensures next[q[i]] == if i + 1 < |q| then Some(q[i + 1]) else None
    decreases |q|
  {
    if i > 0 {
      ListedAt(next[q[0]], next, q[1..], i - 1);
      assert q[1..][i - 1..] == q[i..];
    } else {
      assert q[0..] == q;
    }
  }

  /** Bridging over element i, 0 < i. */
  lemma {:induction false} ListedBridge(head: Option<Fd>, next: map<Fd, Option<Fd>>, q: seq<Fd>, i: nat)
    requires Listed(head, next, q) && NoTwice(q) && 0 < i < |q|
    ensures q[i] in next && Listed(head, next[q[i - 1] := next[q[i]]], q[..i] + q[i + 1..])
    decreases i
  {
    ListedAt(head, next, q, i);
    var bridged := next[q[i - 1] := next[q[i]]];
    if i == 1 {
      assert q[..1] + q[2..] == [q[0]] + q[2..];
      assert Listed(next[q[1]], next, q[1..][1..]) && q[1..][1..] == q[2..];
      ListedElsewhere(next[q[1]], next, q[2..], q[0], next[q[1]]);
    } else {
      ListedBridge(next[q[0]], next, q[1..], i - 1);
      assert (q[..i] + q[i + 1..])[1..] == q[1..][..i - 1] + q[1..][i..];
    }
  }

  lemma {:induction false} WithoutAt(q: seq<Fd>, i: nat)
    requires NoTwice(q) && i < |q|
    ensures Without(q, q[i]) == q[..i] + q[i + 1..]
    decreases i
  {
    if i > 0 {
      WithoutAt(q[1..], i - 1);
      assert q[..i] + q[i + 1..] == [q[0]] + (q[1..][..i - 1] + q[1..][i..]);
    }
  }

  class Pool {
    var redises: Option<Fd>
    var next: map<Fd, Option<Fd>> // the next pointers of all connections, leased ones too
    var avalidNum: int
    var activeNum: int
    const minNum: int
    const maxNum: int
    ghost var idle: seq<Fd>

    ghost predicate Valid()
      reads this
    {
      Listed(redises, next, idle) && NoTwice(idle) && avalidNum == |idle|
    }

    /** initPool with the connections that newRedis opened, minNum of them. */
    constructor (conns: seq<Fd>, maxNum: nat)
      requires NoTwice(conns)
      ensures Valid() && idle == conns && activeNum == 0 && minNum == |conns| && this.maxNum == maxNum
    {
      var list: map<Fd, Option<Fd>>, head := map[], None;
      var num := |conns|;
      while num > 0
        invariant 0 <= num <= |conns|
        invariant Listed(head, list, conns[num..])
      {
        num := num - 1;
        ListedElsewhere(head, list, conns[num + 1..], conns[num], head);
        list := list[conns[num] := head];
        head := Some(conns[num]);
        assert conns[num..][1..] == conns[num + 1..];
      }
      redises, next, idle := head, list, conns;
      avalidNum, activeNum, minNum, this.maxNum := |conns|, 0, |conns|, maxNum;
    }

    /** getRedis; spare is what newRedis would give. */
    method Get(spare: Option<Fd>) returns (r: Option<Fd>)
      requires Valid()
      modifies this
      ensures Valid()
      ensures if old(avalidNum) > 0 then r == Some(old(idle)[0]) && idle == old(idle)[1..] && activeNum == old(activeNum) + 1
              else idle == old(idle) &&
                   (if maxNum <= old(activeNum) || spare == None then r == None && activeNum == old(activeNum)
                    else r == spare && activeNum == old(activeNum) + 1)
    {
      if avalidNum > 0 {
        r := redises;
        redises := next[r.value];
        idle := idle[1..];
        avalidNum := avalidNum - 1;
        activeNum := activeNum + 1;
        return;
      }
      if maxNum <= activeNum || spare == None {
        return None;
      }
      next := next[spare.value := None];
      activeNum := activeNum + 1;
      return spare;
    }

    /** putRedis. */
    method Put(r: Fd)
      requires Valid() && r !in idle
      modifies this
      ensures Valid() && idle == [r] + old(idle) && activeNum == old(activeNum) - 1
    {
      ListedElsewhere(redises, next, idle, r, redises);
      next := next[r := redises];
      redises := Some(r);
      assert ([r] + idle)[1..] == idle;
      idle := [r] + idle;
      avalidNum := avalidNum + 1; // repaired: pool.c:178-188 leaves the counters
      activeNum := activeNum - 1;
    }

    /** delRedis for one connection. */
    method Del(r: Fd)
      requires Valid()
      modifies this
      ensures Valid() && idle == Without(old(idle), r)
      ensures activeNum == if r in old(idle) then old(activeNum) else old(activeNum) - 1
    {
      // repaired: pool.c:225-230 trusts prev, which is never set, and pool.c:219-233 leaves the counters
      if redises == Some(r) {
        WithoutAt(idle, 0);
        redises := next[r];
        idle := idle[1..];
        avalidNum := avalidNum - 1;
        return;
      }
      var p := redises;
      ghost var i := 0;
      while p.Some?
        invariant Valid() && idle == old(idle) && activeNum == old(activeNum)
        invariant i <= |idle| && p == if i < |idle| then Some(idle[i]) else None
        invariant forall k :: 0 <= k <= i && k < |idle| ==> idle[k] != r
        decreases |idle| - i
      {
        ListedAt(redises, next, idle, i);
        if next[p.value] == Some(r) {
          ListedBridge(redises, next, idle, i + 1);
          WithoutIs(idle, r);
          WithoutAt(idle, i + 1);
          next := next[p.value := next[r]];
          idle := Without(idle, r);
          avalidNum := avalidNum - 1;
          return;
        }
        p := next[p.value];
        i := i + 1;
      }
      WithoutNone(idle, r);
      activeNum := activeNum - 1;
    }
  }

  // ---------------------------------------------------------------- the callbacks

  class Server {
    const pool: Pool
    var redises: map<Fd, Redis>
    var clients: map<Fd, Client>
    var cToR: map<Fd, Fd>
    var rToC: map<Fd, Fd>

    ghost predicate Valid()
      reads this, pool
    {
      pool.Valid() && Inv(Abs())
    }

    ghost function Abs(): Service
      reads this, pool
    {
      Service(pool.idle, pool.avalidNum, pool.activeNum, pool.minNum, pool.maxNum, redises, clients, cToR, rToC)
    }

    constructor (conns: seq<Fd>, maxNum: nat)
      requires NoTwice(conns)
      ensures Valid() && Abs() == Start(conns, maxNum) && fresh(pool)
    {
      pool := new Pool(conns, maxNum);
      redises := map r | r in conns :: UNUSED;
      clients, cToR, rToC := map[], map[], map[];
      new;
      StartKeeps(conns, maxNum);
    }

    /** getRedis and newRedis. */
    method GetRedis(spare: Option<Fd>) returns (r: Option<Fd>)
      requires pool.Valid()
      modifies pool, this`redises
      ensures pool.Valid() && (r, Abs()) == Lease.Get(old(Abs()), spare)
    {
      var opening := pool.avalidNum <= 0;
      r := pool.Get(spare);
      if opening && r.Some? {
        redises := redises[r.value := UNUSED];
      }
    }

    method PutRedis(r: Fd)
      requires pool.Valid() && r !in pool.idle
      modifies pool, this`redises
      ensures pool.Valid() && Abs() == Lease.Put(old(Abs()), r)
    {
      redises := redises[r := UNUSED];
      pool.Put(r);
    }

    method DelRedis(r: Fd)
      requires pool.Valid()
      modifies pool, this`redises
      ensures pool.Valid() && Abs() == Del(old(Abs()), r)
    {
      WithoutIs(pool.idle, r);
      if r !in pool.idle { WithoutNone(pool.idle, r); }
      redises := redises - {r};
      pool.Del(r);
    }

    /** Both entries of r. */
    method ForgetRedis(r: Fd)
      requires r in rToC
      modifies this`rToC, this`cToR
      ensures Abs() == Forget(old(Abs()), r)
    {
      var c := rToC[r];
      rToC := rToC - {r};
      if c in cToR && cToR[c] == r {
        cToR := cToR - {c};
      }
    }

    /** removeRC for a redis connection. */
    method DropRedis(r: Fd)
      requires pool.Valid()
      modifies pool, this`redises, this`rToC, this`cToR
      ensures pool.Valid() && Abs() == Drop(old(Abs()), r)
    {
      if r in rToC {
        ForgetRedis(r);
      }
      DelRedis(r);
    }

    method QuitClient(c: Fd)
      modifies this`clients
      ensures Abs() == Quit(old(Abs()), c)
    {
      if c in clients {
        clients := clients[c := clients[c].(isQuit := true)];
      }
    }

    /** The end of a client: removeByC, and readC on a closed socket. */
    method FreeClient(c: Fd)
      requires Valid() && c in clients
      modifies pool, this
      ensures pool.Valid() && Abs() == DropClient(old(Abs()), c)
    {
      forall r | r in rToC ensures Without(pool.idle, r) == pool.idle { LeasedIsBusy(Abs(), r); }
      hide Holding;
      var leases := set r | r in rToC && rToC[r] == c;
      clients := clients - {c};
      cToR := cToR - {c};
      DropAll(leases); // repaired: server.c:437-447, 811-831 only know the last one
    }

    method DropAll(leases: set<Fd>)
      requires pool.Valid() && forall r :: r in leases ==> Without(pool.idle, r) == pool.idle
      modifies pool, this`redises, this`rToC
      ensures pool.Valid()
      ensures var s := old(Abs());
              Abs() == s.(rToC := s.rToC - leases, redises := s.redises - leases, activeNum := s.activeNum - |leases|)
      decreases |leases|
    {
      if leases != {} {
        hide Del;
        hide Without;
        ghost var s := Abs();
        var r :| r in leases;
        rToC := rToC - {r};
        DelLeased(Abs(), r);
        DelRedis(r);
        DropAll(leases - {r});
        assert {r} + (leases - {r}) == leases;
        MinusMinus(s.rToC, r, leases);
        MinusMinus(s.redises, r, leases);
      } else {
        assert rToC - leases == rToC;
        assert redises - leases == redises;
      }
    }

    method Accept(c: Fd)
      requires Valid() && c !in clients
      modifies this`clients
      ensures Valid() && Abs() == Step(old(Abs()), Event.Accept(c))
    {
      StepKeeps(Abs(), Event.Accept(c));
      if pool.activeNum < pool.maxNum {
        clients := clients[c := Client(false, false)];
      }
    }

    method ReadC(c: Fd, input: FromClient, spare: Option<Fd>)
      requires Valid() && Possible(Abs(), Event.ReadC(c, input, spare))
      modifies pool, this
      ensures Valid() && Abs() == Step(old(Abs()), Event.ReadC(c, input, spare))
    {
      hide Lease.Get;
      hide Holding;
      hide Processed;
      StepKeeps(Abs(), Event.ReadC(c, input, spare));
      InvReads(Abs());
      if clients[c].isQuit || input == Nothing { // kept: server.c:449 looks at the errno of an earlier call
        return;
      }
      if input == Closed {
        FreeClient(c);
        return;
      }
      var r;
      if clients[c].isBlock {
        if c !in cToR {
          QuitClient(c);
          return;
        }
        r := cToR[c];
      } else {
        GetKeeps(Abs(), spare);
        GetLeavesClients(Abs(), spare);
        var got := GetRedis(spare);
        if got == None {
          QuitClient(c);
          return;
        }
        r := got.value;
        HandIsOpen(Abs(), r);
      }
      Process(c, r, input);
    }

    /** The rest of readC, after processClient. */
    method Process(c: Fd, r: Fd, input: FromClient)
      requires pool.Valid() && c in clients && r in redises && (input.Commands? || input.Garbled?)
      requires clients[c].isBlock || r !in pool.idle
      modifies pool, this
      ensures pool.Valid() && Abs() == Processed(old(Abs()), c, r, input)
    {
      if input.Garbled? {
        Reject(c, r, input.isBlock);
      } else {
        Forward(c, r, input.n, input.isBlock);
      }
    }

    method Reject(c: Fd, r: Fd, isBlock: bool)
      requires pool.Valid() && c in clients && (clients[c].isBlock || r !in pool.idle)
      modifies pool, this
      ensures pool.Valid() && Abs() == Rejected(old(Abs()), c, r, isBlock)
    {
      hide Lease.Put;
      hide Drop;
      var wasBlock := clients[c].isBlock;
      clients := clients[c := Client(true, isBlock)];
      if wasBlock || isBlock { // repaired: server.c:475 only sees the new isBlock
        DropRedis(r);
      } else {
        PutRedis(r);
      }
    }

    method Forward(c: Fd, r: Fd, n: nat, isBlock: bool)
      requires pool.Valid() && c in clients && r in redises
      modifies this
      ensures Abs() == Forwarded(old(Abs()), c, r, n, isBlock)
    {
      clients := clients[c := clients[c].(isBlock := isBlock)];
      cToR := cToR[c := r]; // repaired: server.c:499 does not do this when isBlock is new
      rToC := rToC[r := c];
      var was := redises[r];
      redises := redises[r := Redis(was.rNum + n, isBlock)];
    }

    method ReadR(r: Fd, reply: FromRedis)
      requires Valid() && Possible(Abs(), Event.ReadR(r, reply))
      modifies pool, this
      ensures Valid() && Abs() == Step(old(Abs()), Event.ReadR(r, reply))
    {
      hide Holding;
      StepKeeps(Abs(), Event.ReadR(r, reply));
      if r !in rToC || rToC[r] !in clients || clients[rToC[r]].isQuit {
        DropRedis(r);
        return;
      }
      var c := rToC[r];
      match reply {
        case NoReply => // kept: server.c:389 looks at the errno of an earlier call
        case Replies(n) =>
          LeasedIsBusy(Abs(), r);
          TakeReplies(r, n);
        case _ =>
          QuitClient(c);
          cToR := cToR - {c};
          DropRedis(r);
      }
    }

    /** The end of readR, after processRedis. */
    method TakeReplies(r: Fd, n: nat)
      requires pool.Valid() && r in redises && r in rToC && n <= redises[r].rNum && r !in pool.idle
      modifies pool, this
      ensures pool.Valid() && Abs() == Answered(old(Abs()), r, n)
    {
      var was := redises[r];
      redises := redises[r := was.(rNum := was.rNum - n)];
      if redises[r].isBlock || redises[r].rNum != 0 {
        return;
      }
      ForgetRedis(r);
      PutRedis(r);
    }

    method WriteR(r: Fd, ok: bool)
      requires Valid() && r in redises
      modifies pool, this
      ensures Valid() && Abs() == Step(old(Abs()), Event.WriteR(r, ok))
    {
      StepKeeps(Abs(), Event.WriteR(r, ok));
      if !ok {
        if r in rToC { // repaired: server.c:544-551 looks for the client after removing its entry
          QuitClient(rToC[r]);
        }
        DropRedis(r);
      }
    }

    method WriteC(c: Fd, ok: bool, drained: bool)
      requires Valid() && c in clients
      modifies pool, this
      ensures Valid() && Abs() == Step(old(Abs()), Event.WriteC(c, ok, drained))
    {
      hide Holding;
      hide DropClient;
      StepKeeps(Abs(), Event.WriteC(c, ok, drained));
      if !ok || (drained && clients[c].isQuit) {
        FreeClient(c);
      }
    }
  }

  lemma {:induction false} MinusMinus<T>(m: map<Fd, T>, r: Fd, leases: set<Fd>)
    requires r in leases
    ensures (m - {r}) - (leases - {r}) == m - leases
  {
  }

  lemma {:induction false} DelLeased(s: Service, r: Fd)
    requires Without(s.idle, r) == s.idle
    ensures Del(s, r) == s.(activeNum := s.activeNum - 1, redises := s.redises - {r})
  {
  }

  lemma {:induction false} LeasedIsBusy(s: Service, r: Fd)
    requires Inv(s) && r in s.rToC
    ensures r in s.redises && r !in s.idle && Without(s.idle, r) == s.idle
  {
    WithoutNone(s.idle, r);
  }

  lemma {:induction false} InvReads(s: Service)
    requires Inv(s)
    ensures s.avalidNum == |s.idle| && forall c :: c in s.cToR ==> s.cToR[c] in s.redises
  {
    EntriesAreOpen(s, {});
  }
}
