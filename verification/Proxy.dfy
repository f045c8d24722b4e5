/** The whole proxy: what each client's parser makes of its bytes is forwarded on the connections that Lease gives it, and
    what each connection's parser makes of the replies goes back. Nothing is given but what the sockets give. */
module Proxy {
  import opened Wrappers
  import opened Decimal
  import opened Buffers
  import R = Resp
  import opened Replies
  import L = Lease
  import W = LeaseReplies
  import P = Pipeline
  import opened Q = ReplyRun
  import M = LeaseMeaning

  type Fd = L.Fd

  /** inputs holds, for each client, its parser and what has become of its bytes; ids numbers the leases. */
  datatype State = State(world: W.World, inputs: map<Fd, P.State>, ids: map<Fd, nat>, next: nat)

  datatype Act =
    | Other(h: W.Happening)
    | Bytes(c: Fd, bytes: seq<Byte>, stale: bool, isBlock: bool, spare: Option<Fd>, replies: seq<Reply>)

  /** Not a read of a client's bytes that is looked at. */
  predicate Aside(h: W.Happening) {
    match h
    case Other(e) => e.ReadC? ==> e.input == L.Closed || e.input == L.Nothing
    case Asked(_, _, _, _) => false
    case Came(_, _, _) => true
  }

  /** readC as far as it gets: nothing if the client has quit; its end if the buffer gets too long; nothing if errno is
      still EAGAIN; otherwise what the parser makes of the bytes. */
  ghost function Means(s: State, a: Act): W.Happening
    requires a.Bytes? ==> a.c in s.world.svc.clients && a.c in s.inputs
  {
    match a
    case Other(h) => h
    case Bytes(c, bytes, stale, isBlock, spare, replies) =>
      var i := s.inputs[c];
      if s.world.svc.clients[c].isQuit then W.Other(L.ReadC(c, L.Nothing, spare))
      else if P.TooMuch(i, bytes) then W.Other(L.ReadC(c, L.Closed, spare))
      else if stale then W.Other(L.ReadC(c, L.Nothing, spare))
      else if P.Accepted(i, i.late + bytes, 0) == None then W.Other(L.ReadC(c, L.Garbled(isBlock), spare))
      else W.Asked(c, isBlock, spare, replies)
  }

  /** The commands that a read completes. */
  function Commands(i: P.State, more: seq<Byte>): seq<R.Command> {
    match P.Accepted(i, more, 0)
    case None => []
    case Some(i1) => if i1.log == [] then [] else i1.log[|i1.log| - 1].cmds
  }

  /** Redis will reply once to each command. */
  ghost predicate Possible(s: State, a: Act)
    requires Ok(s)
  {
    && (a.Bytes? ==> a.c in s.world.svc.clients && a.c in s.inputs)
    && (a.Other? ==> Aside(a.h))
    && W.Possible(s.world, Means(s, a))
    && (a.Bytes? && Means(s, a).Asked? ==> |a.replies| == |Commands(s.inputs[a.c], s.inputs[a.c].late + a.bytes)|)
  }

  ghost predicate Ok(s: State) {
    && W.Ok(s.world) && s.inputs.Keys == s.world.svc.clients.Keys
    && (forall c :: c in s.inputs ==> P.Inv(s.inputs[c]) && Before(s.inputs[c].log, s.next))
    && (forall r :: r in s.world.svc.rToC ==> Linked(s, r))
    && (forall r, q :: r in s.world.svc.rToC && q in s.world.svc.rToC && r in s.ids && q in s.ids && s.ids[r] == s.ids[q] ==> r == q)
  }

  predicate Before(log: seq<P.Batch>, next: nat) { forall i :: 0 <= i < |log| ==> log[i].lease < next }

  /** As many replies are due on a lease as commands of its client have been forwarded on it. */
  ghost predicate Linked(s: State, r: Fd) {
    && r in s.world.svc.rToC && r in s.ids && s.ids[r] < s.next && r in s.world.lines && s.world.svc.rToC[r] in s.inputs
    && |P.For(s.inputs[s.world.svc.rToC[r]].log, s.ids[r])| == |s.world.lines[r].due|
  }

  ghost function After(s: State, a: Act): State
    requires Ok(s) && Possible(s, a)
  {
    var w1 := W.After(s.world, Means(s, a));
    match a
    case Other(_) => State(w1, Clients(s.inputs, w1), s.ids, s.next)
    case Bytes(c, bytes, stale, isBlock, spare, _) =>
      var i := s.inputs[c];
      if s.world.svc.clients[c].isQuit then State(w1, Clients(s.inputs, w1), s.ids, s.next)
      else if !Means(s, a).Asked? then State(w1, Clients(s.inputs[c := P.After(i, P.Read(bytes, 0, stale))], w1), s.ids, s.next)
      else
        TargetReads(s.world);
        match W.Target(s.world.svc, c, spare)
        case None => State(w1, Clients(s.inputs[c := i.(late := i.late + bytes, quit := true)], w1), s.ids, s.next)
        case Some(r) =>
          var id := if r in s.world.svc.rToC && r in s.ids then s.ids[r] else s.next;
          State(w1, Clients(s.inputs[c := Read(i, i.late + bytes, id)], w1), s.ids[r := id], s.next + 1)
  }

  function Read(i: P.State, more: seq<Byte>, id: nat): P.State {
    match P.Accepted(i, more, id) case None => i case Some(i1) => i1
  }

  /** Clients come and go with the tables. */
  function Clients(inputs: map<Fd, P.State>, w: W.World): map<Fd, P.State> {
    map c | c in w.svc.clients :: if c in inputs then inputs[c] else P.START
  }

  lemma {:induction false} TargetReads(w: W.World)
    requires W.Ok(w)
    ensures w.svc.avalidNum == |w.svc.idle|
  {
    L.IdleIs(w.svc);
  }

  // ---------------------------------------------------------------- what a step of the pool does to leases

  ghost predicate SameLease(w: W.World, w1: W.World, r: Fd) {
    && r in w.svc.rToC && r in w1.svc.rToC && w1.svc.rToC[r] == w.svc.rToC[r]
    && r in w.lines && r in w1.lines && w1.lines[r].due == w.lines[r].due
  }

  lemma {:induction false} AsideKeeps(w: W.World, h: W.Happening, r: Fd)
    requires W.Ok(w) && W.Possible(w, h) && !h.Asked? && r in W.After(w, h).svc.rToC
    ensures SameLease(w, W.After(w, h), r)
  {
    W.AfterOk(w, h);
    LeasedIsOpen(W.After(w, h), r);
    match h
    case Other(e) => OtherKeeps(w, e, r);
    case Came(r1, bytes, stale) => CameKeeps(w, r1, bytes, stale, r);
  }

  lemma {:induction false} LeasedIsOpen(w: W.World, r: Fd)
    requires W.Ok(w) && r in w.svc.rToC
    ensures r in w.svc.redises && r in w.lines && w.svc.rToC[r] in w.svc.clients
  {
  }

  lemma {:induction false} OtherKeeps(w: W.World, e: L.Event, r: Fd)
    requires W.Ok(w) && W.Possible(w, W.Other(e)) && r in W.After(w, W.Other(e)).svc.rToC && r in W.After(w, W.Other(e)).svc.redises
    ensures SameLease(w, W.After(w, W.Other(e)), r)
  {
    hide L.Inv;
    hide L.Step;
    hide Q.Inv;
    W.EventIsPossible(w, W.Other(e));
    W.QuietCounts(w.svc, e);
    LeasedIsOpen(w, r);
  }

  lemma {:induction false} CameKeeps(w: W.World, r1: Fd, bytes: seq<Byte>, stale: bool, r: Fd)
    requires W.Ok(w) && W.Possible(w, W.Came(r1, bytes, stale))
    requires r in W.After(w, W.Came(r1, bytes, stale)).svc.rToC && r in W.After(w, W.Came(r1, bytes, stale)).svc.redises
    ensures SameLease(w, W.After(w, W.Came(r1, bytes, stale)), r)
  {
    hide L.Inv;
    hide L.Step;
    hide Q.Inv;
    hide Q.Read;
    W.LinesOk(w, r1);
    W.EventIsPossible(w, W.Came(r1, bytes, stale));
    W.CameCounts(w.svc, r1, W.Outcome(w.lines[r1], bytes, stale));
    if Q.Read(w.lines[r1], bytes, stale).Some? { W.ReadCounts(w.lines[r1], bytes, stale); }
    LeasedIsOpen(w, r);
  }

  lemma {:induction false} AskedKeeps(w: W.World, c: Fd, isBlock: bool, spare: Option<Fd>, replies: seq<Reply>)
    requires W.Ok(w) && W.Possible(w, W.Asked(c, isBlock, spare, replies)) && w.svc.avalidNum == |w.svc.idle|
    ensures var w1 := W.After(w, W.Asked(c, isBlock, spare, replies));
            match W.Target(w.svc, c, spare)
            case None => forall r :: r in w1.svc.rToC ==> SameLease(w, w1, r)
            case Some(t) =>
              && (forall r :: r in w1.svc.rToC && r != t ==> SameLease(w, w1, r))
              && t in w1.svc.rToC && w1.svc.rToC[t] == c && t in w1.lines
              && (t in w.svc.rToC ==> w.svc.rToC[t] == c)
              && |w1.lines[t].due| == (if t in w.svc.rToC && t in w.lines then |w.lines[t].due| else 0) + |replies|
  {
    var h := W.Asked(c, isBlock, spare, replies);
    var w1 := W.After(w, h);
    W.AfterOk(w, h);
    TargetOwner(w, c, spare);
    W.EventIsPossible(w, h);
    W.AskedCounts(w.svc, c, |replies|, isBlock, spare);
    hide L.Inv;
    hide L.Step;
    hide Q.Inv;
    hide W.Target;
    forall r | r in w1.svc.rToC && W.Target(w.svc, c, spare) != Some(r) ensures SameLease(w, w1, r) {
      LeasedIsOpen(w1, r);
      AskedOthers(w, c, isBlock, spare, replies, r);
    }
    var t := W.Target(w.svc, c, spare);
    if t.Some? {
      LeasedIsOpen(w1, t.value);
      AskedTarget(w, c, isBlock, spare, replies, t.value);
    }
    hide W.Ok;
    hide W.After;
    hide SameLease;
  }

  lemma {:induction false} AskedOthers(w: W.World, c: Fd, isBlock: bool, spare: Option<Fd>, replies: seq<Reply>, r: Fd)
    requires W.Ok(w) && W.Possible(w, W.Asked(c, isBlock, spare, replies)) && w.svc.avalidNum == |w.svc.idle|
    requires var w1 := W.After(w, W.Asked(c, isBlock, spare, replies)); r in w1.svc.rToC && r in w1.svc.redises
    requires W.Target(w.svc, c, spare) != Some(r)
    ensures SameLease(w, W.After(w, W.Asked(c, isBlock, spare, replies)), r)
  {
    hide L.Inv;
    hide L.Step;
    hide Q.Inv;
    hide W.Target;
    W.EventIsPossible(w, W.Asked(c, isBlock, spare, replies));
    W.AskedCounts(w.svc, c, |replies|, isBlock, spare);
    LeasedIsOpen(w, r);
  }

  lemma {:induction false} AskedTarget(w: W.World, c: Fd, isBlock: bool, spare: Option<Fd>, replies: seq<Reply>, t: Fd)
    requires W.Ok(w) && W.Possible(w, W.Asked(c, isBlock, spare, replies)) && w.svc.avalidNum == |w.svc.idle|
    requires W.Target(w.svc, c, spare) == Some(t)
    requires t in w.svc.rToC || W.LineOf(w, t).due == []
    requires t in w.svc.rToC ==> t in w.lines
    ensures var w1 := W.After(w, W.Asked(c, isBlock, spare, replies));
            && t in w1.svc.redises && t in w1.svc.rToC && w1.svc.rToC[t] == c && t in w1.lines
            && |w1.lines[t].due| == (if t in w.svc.rToC then |w.lines[t].due| else 0) + |replies|
  {
    hide L.Inv;
    hide L.Step;
    hide Q.Inv;
    hide W.Target;
    W.EventIsPossible(w, W.Asked(c, isBlock, spare, replies));
    W.AskedCounts(w.svc, c, |replies|, isBlock, spare);
  }

  /** Commands go to the client's own connection, or to one that nobody has and that has been asked nothing. */
  lemma {:induction false} TargetOwner(w: W.World, c: Fd, spare: Option<Fd>)
    requires W.Ok(w) && c in w.svc.clients && (spare.Some? ==> spare.value !in w.svc.redises) && w.svc.avalidNum == |w.svc.idle|
    ensures match W.Target(w.svc, c, spare)
            case None => true
            case Some(t) =>
              if t in w.svc.rToC then w.svc.rToC[t] == c && t in w.lines
              else W.LineOf(w, t).due == []
  {
    if w.svc.clients[c].isQuit {
    } else if w.svc.clients[c].isBlock {
      L.BlockedFinds(w.svc, c);
      OwnOpen(w, c);
    } else if L.Get(w.svc, spare).0.Some? {
      W.NewLine(w, spare);
      GetIsFree(w.svc, spare);
    }
    hide W.Ok;
    hide L.Inv;
  }

  lemma {:induction false} OwnOpen(w: W.World, c: Fd)
    requires W.Ok(w) && L.Blocked(w.svc, c)
    ensures c in w.svc.cToR && w.svc.cToR[c] in w.svc.rToC && w.svc.rToC[w.svc.cToR[c]] == c && w.svc.cToR[c] in w.lines
  {
    L.BlockedFinds(w.svc, c);
    LeasedIsOpen(w, w.svc.cToR[c]);
  }

  lemma {:induction false} GetIsFree(s: L.Service, spare: Option<Fd>)
    requires L.Inv(s) && (spare.Some? ==> spare.value !in s.redises) && s.avalidNum == |s.idle|
    ensures L.Get(s, spare).0.Some? ==> L.Get(s, spare).0.value !in s.rToC
  {
  }

  // ---------------------------------------------------------------- what a step does to the clients

  lemma {:induction false} ForMore(i: P.State, more: seq<Byte>, id: nat, lease: nat)
    requires P.Accepted(i, more, id).Some?
    ensures var i1, cmds := Read(i, more, id), Commands(i, more);
            && i1.log == i.log + [P.Batch(id, cmds)]
            && P.For(i1.log, lease) == P.For(i.log, lease) + if id == lease then cmds else []
  {
    hide R.Run;
    var cmds := Commands(i, more);
    P.LogMore(i.log, P.Batch(id, cmds), lease);
  }

  lemma {:induction false} AnyLease(i: P.State, more: seq<Byte>, id: nat)
    ensures P.Accepted(i, more, id).Some? <==> P.Accepted(i, more, 0).Some?
  {
    hide R.Run;
  }

  lemma {:induction false} ForNone(log: seq<P.Batch>, lease: nat)
    requires Before(log, lease)
    ensures P.For(log, lease) == []
    decreases |log|
  {
    if log != [] { ForNone(log[..|log| - 1], lease); }
  }

  ghost predicate InputOk(i: P.State, next: nat) { P.Inv(i) && Before(i.log, next) }

  lemma {:induction false} StartInput(next: nat)
    ensures InputOk(P.START, next)
  {
    P.InitInv();
  }

  lemma {:induction false} ClientsAre(inputs: map<Fd, P.State>, w: W.World)
    ensures Clients(inputs, w).Keys == w.svc.clients.Keys
    ensures forall c :: c in w.svc.clients ==> Clients(inputs, w)[c] == if c in inputs then inputs[c] else P.START
  {
  }

  lemma {:induction false} QuietLease(s: State, w1: W.World, inputs: map<Fd, P.State>, r: Fd)
    requires Ok(s) && r in w1.svc.rToC && w1.svc.rToC[r] in w1.svc.clients && SameLease(s.world, w1, r)
    requires inputs.Keys == s.inputs.Keys && forall c :: c in inputs ==> inputs[c].log == s.inputs[c].log
    ensures Linked(State(w1, Clients(inputs, w1), s.ids, s.next), r) && r in s.world.svc.rToC
  {
    hide W.Ok;
    hide P.Inv;
    assert Linked(s, r);
  }

  /** A step that leaves the leases, and adds nothing to any log. */
  lemma {:induction false} QuietStep(s: State, w1: W.World, inputs: map<Fd, P.State>)
    requires Ok(s) && W.Ok(w1) && forall r :: r in w1.svc.rToC ==> SameLease(s.world, w1, r)
    requires inputs.Keys == s.inputs.Keys
    requires forall c :: c in inputs ==> InputOk(inputs[c], s.next) && inputs[c].log == s.inputs[c].log
    ensures Ok(State(w1, Clients(inputs, w1), s.ids, s.next))
  {
    hide W.Ok;
    hide P.Inv;
    hide SameLease;
    hide Linked;
    hide Before;
    var s1 := State(w1, Clients(inputs, w1), s.ids, s.next);
    StartInput(s.next);
    forall r | r in w1.svc.rToC ensures Linked(s1, r) && r in s.world.svc.rToC {
      assert SameLease(s.world, w1, r);
      LeasedIsOpen(w1, r);
      QuietLease(s, w1, inputs, r);
    }
    ClientsAre(inputs, w1);
  }

  /** The step of a read that completes commands on lease id. */
  lemma {:induction false} LoudStep(s: State, w1: W.World, c: Fd, t: Fd, id: nat, i1: P.State, cmds: seq<R.Command>)
    requires Ok(s) && W.Ok(w1) && c in s.inputs && InputOk(i1, s.next + 1)
    requires i1.log == s.inputs[c].log + [P.Batch(id, cmds)]
    requires id == if t in s.world.svc.rToC && t in s.ids then s.ids[t] else s.next
    requires forall r :: r in w1.svc.rToC && r != t ==> SameLease(s.world, w1, r)
    requires t in w1.svc.rToC && w1.svc.rToC[t] == c && t in w1.lines && (t in s.world.svc.rToC ==> s.world.svc.rToC[t] == c)
    requires |w1.lines[t].due| == (if t in s.world.svc.rToC && t in s.world.lines then |s.world.lines[t].due| else 0) + |cmds|
    ensures Ok(State(w1, Clients(s.inputs[c := i1], w1), s.ids[t := id], s.next + 1))
  {
    hide W.Ok;
    hide P.Inv;
    hide SameLease;
    hide Linked;
    var inputs := s.inputs[c := i1];
    var s1 := State(w1, Clients(inputs, w1), s.ids[t := id], s.next + 1);
    StartInput(s.next + 1);
    ClientsAre(inputs, w1);
    forall r | r in w1.svc.rToC ensures Linked(s1, r) && (r != t ==> r in s.world.svc.rToC && r in s.ids && s1.ids[r] == s.ids[r] != id) {
      LeasedIsOpen(w1, r);
      LoudLease(s, w1, c, t, id, i1, cmds, r);
    }
    hide Clients;
    forall x | x in s1.inputs ensures InputOk(s1.inputs[x], s1.next) {
      assert x in inputs ==> x == c || Before(s.inputs[x].log, s.next);
    }
  }

  lemma {:induction false} LoudLease(s: State, w1: W.World, c: Fd, t: Fd, id: nat, i1: P.State, cmds: seq<R.Command>, r: Fd)
    requires Ok(s) && c in s.inputs && r in w1.svc.rToC && w1.svc.rToC[r] in w1.svc.clients
    requires i1.log == s.inputs[c].log + [P.Batch(id, cmds)]
    requires id == if t in s.world.svc.rToC && t in s.ids then s.ids[t] else s.next
    requires r != t ==> SameLease(s.world, w1, r)
    requires t in w1.svc.rToC && w1.svc.rToC[t] == c && t in w1.lines && (t in s.world.svc.rToC ==> s.world.svc.rToC[t] == c)
    requires |w1.lines[t].due| == (if t in s.world.svc.rToC && t in s.world.lines then |s.world.lines[t].due| else 0) + |cmds|
    ensures var s1 := State(w1, Clients(s.inputs[c := i1], w1), s.ids[t := id], s.next + 1);
            Linked(s1, r) && (r != t ==> r in s.world.svc.rToC && r in s.ids && s1.ids[r] == s.ids[r] != id)
  {
    hide W.Ok;
    hide P.Inv;
    if t in s.world.svc.rToC { assert Linked(s, t); }
    if r == t {
      P.LogMore(s.inputs[c].log, P.Batch(id, cmds), id);
      if t !in s.world.svc.rToC { ForNone(s.inputs[c].log, id); }
    } else {
      assert Linked(s, r);
      P.LogMore(s.inputs[c].log, P.Batch(id, cmds), s.ids[r]);
    }
  }

  // ---------------------------------------------------------------- every step keeps it

  lemma {:induction false} AfterOk(s: State, a: Act)
    requires Ok(s) && Possible(s, a)
    ensures Ok(After(s, a))
  {
    W.AfterOk(s.world, Means(s, a));
    if Means(s, a).Asked? {
      AskedOk(s, a);
    } else {
      QuietOk(s, a);
    }
    hide Ok;
    hide After;
    hide Possible;
  }

  lemma {:induction false} QuietOk(s: State, a: Act)
    requires Ok(s) && Possible(s, a) && !Means(s, a).Asked? && W.Ok(W.After(s.world, Means(s, a)))
    ensures Ok(After(s, a))
  {
    hide W.Ok;
    hide W.After;
    hide W.Possible;
    hide P.Inv;
    hide Linked;
    hide SameLease;
    var w1 := W.After(s.world, Means(s, a));
    forall r | r in w1.svc.rToC ensures SameLease(s.world, w1, r) { AsideKeeps(s.world, Means(s, a), r); }
    forall c | c in s.inputs ensures InputOk(s.inputs[c], s.next) { }
    if a.Bytes? && !s.world.svc.clients[a.c].isQuit {
      var i1 := P.After(s.inputs[a.c], P.Read(a.bytes, 0, a.stale));
      QuietInput(s, a);
      QuietStep(s, w1, s.inputs[a.c := i1]);
    } else {
      QuietStep(s, w1, s.inputs);
    }
    hide Means;
    hide Ok;
    hide Clients;
  }

  lemma {:induction false} QuietInput(s: State, a: Act)
    requires Ok(s) && Possible(s, a) && !Means(s, a).Asked? && a.Bytes? && !s.world.svc.clients[a.c].isQuit
    ensures var i, i1 := s.inputs[a.c], P.After(s.inputs[a.c], P.Read(a.bytes, 0, a.stale));
            i1.log == i.log && InputOk(i1, s.next)
  {
    hide P.Inv;
    hide P.Accepted;
    hide W.Ok;
    hide W.Possible;
    P.AfterInv(s.inputs[a.c], P.Read(a.bytes, 0, a.stale));
  }

  lemma {:induction false} AskedOk(s: State, a: Act)
    requires Ok(s) && Possible(s, a) && Means(s, a).Asked? && W.Ok(W.After(s.world, Means(s, a)))
    ensures Ok(After(s, a))
  {
    hide W.Ok;
    hide W.After;
    hide W.Possible;
    hide W.Target;
    hide P.Inv;
    hide P.Accepted;
    hide Linked;
    hide SameLease;
    hide Commands;
    hide Read;
    assert a.Bytes?;
    var w1, c := W.After(s.world, Means(s, a)), a.c;
    var i := s.inputs[c];
    TargetReads(s.world);
    AskedKeeps(s.world, c, a.isBlock, a.spare, a.replies);
    match W.Target(s.world.svc, c, a.spare)
    case None =>
      var i1 := i.(late := i.late + a.bytes, quit := true);
      P.LateInv(i, i.late + a.bytes, true);
      forall x | x in s.inputs ensures InputOk(s.inputs[x], s.next) { }
      QuietStep(s, w1, s.inputs[c := i1]);
    case Some(t) =>
      var id := if t in s.world.svc.rToC && t in s.ids then s.ids[t] else s.next;
      LoudInput(s, c, i.late + a.bytes, t, id);
      LoudStep(s, w1, c, t, id, Read(i, i.late + a.bytes, id), Commands(i, i.late + a.bytes));
  }

  lemma {:induction false} LoudInput(s: State, c: Fd, more: seq<Byte>, t: Fd, id: nat)
    requires Ok(s) && c in s.inputs && P.Accepted(s.inputs[c], more, 0).Some?
    requires id == if t in s.world.svc.rToC && t in s.ids then s.ids[t] else s.next
    ensures var i1 := Read(s.inputs[c], more, id);
            InputOk(i1, s.next + 1) && i1.log == s.inputs[c].log + [P.Batch(id, Commands(s.inputs[c], more))]
  {
    hide W.Ok;
    hide P.Inv;
    AnyLease(s.inputs[c], more, id);
    ForMore(s.inputs[c], more, id, id);
    P.AcceptedInv(s.inputs[c], more, id);
    hide P.Accepted;
    if t in s.world.svc.rToC { assert Linked(s, t); }
  }

  // ---------------------------------------------------------------- runs

  function Start(idle: seq<Fd>, maxNum: nat): State { State(W.Start(idle, maxNum), map[], map[], 0) }

  lemma {:induction false} StartOk(idle: seq<Fd>, maxNum: nat)
    requires L.NoTwice(idle)
    ensures Ok(Start(idle, maxNum))
  {
    W.StartOk(idle, maxNum);
    hide W.Ok;
  }

  /** The state after a run; None if one of the acts cannot be. */
  ghost function Final(s: State, acts: seq<Act>): Option<State>
    requires Ok(s)
    decreases |acts|
  {
    if acts == [] then Some(s)
    else if !Possible(s, acts[0]) then None
    else
      AfterOk(s, acts[0]);
      Final(After(s, acts[0]), acts[1..])
  }

  ghost function RunFrom(idle: seq<Fd>, maxNum: nat, acts: seq<Act>): Option<State>
    requires L.NoTwice(idle)
  {
    StartOk(idle, maxNum);
    Final(Start(idle, maxNum), acts)
  }

  lemma {:induction false} FinalOk(s: State, acts: seq<Act>)
    requires Ok(s) && Final(s, acts).Some?
    ensures Ok(Final(s, acts).value)
    decreases |acts|
  {
    hide Ok;
    hide After;
    hide Possible;
    if acts != [] {
      AfterOk(s, acts[0]);
      FinalOk(After(s, acts[0]), acts[1..]);
    }
  }

  /** In every reachable state: rNum of a leased connection is the number of commands that the parser of its client has
      found in the client's bytes and that have been forwarded on this lease, less the number of whole replies that its
      own parser has found in the bytes from redis; the client has been handed a beginning of the replies to them; and
      the commands of each client that have been forwarded, on whatever leases, are those of all its bytes, in order. */
  lemma {:induction false} ForwardedLessAnswered(idle: seq<Fd>, maxNum: nat, acts: seq<Act>)
    requires L.NoTwice(idle) && RunFrom(idle, maxNum, acts).Some?
    ensures var s := RunFrom(idle, maxNum, acts).value;
            && (forall r :: r in s.world.svc.rToC ==> Accounted(s, r))
            && (forall c :: c in s.inputs ==> WellParsed(s.inputs[c]))
  {
    StartOk(idle, maxNum);
    FinalOk(Start(idle, maxNum), acts);
    var s := Final(Start(idle, maxNum), acts).value;
    forall r | r in s.world.svc.rToC ensures Accounted(s, r) { LinkedCounts(s, r); }
    forall c | c in s.inputs ensures WellParsed(s.inputs[c]) { P.LogIsParsed(s.inputs[c]); }
    hide Ok;
    hide Accounted;
    hide WellParsed;
  }

  ghost predicate Accounted(s: State, r: Fd) {
    && r in s.world.svc.rToC && r in s.ids && r in s.world.svc.redises && r in s.world.lines && s.world.svc.rToC[r] in s.inputs
    && var l, cmds := s.world.lines[r], P.For(s.inputs[s.world.svc.rToC[r]].log, s.ids[r]);
    && s.world.svc.redises[r].rNum == |cmds| - Whole(l.due, l.got) && |l.due| == |cmds|
    && Flat(l.queue) <= RepliesBytes(l.due)
  }

  ghost predicate WellParsed(i: P.State) {
    var whole := R.Run(R.Feed(R.INIT, R.Join(i.pieces))); whole.Ok? && whole.c.done == P.All(i.log)
  }

  lemma {:induction false} LinkedCounts(s: State, r: Fd)
    requires Ok(s) && r in s.world.svc.rToC
    ensures Accounted(s, r)
  {
    hide W.Ok;
    hide L.Inv;
    hide W.LineOk;
    hide P.Inv;
    hide Whole;
    hide RepliesBytes;
    hide P.For;
    assert Linked(s, r);
    LeasedIsOpen(s.world, r);
    W.LinesOk(s.world, r);
    WorldInv(s.world);
    W.LineSettles(s.world.svc, r, s.world.lines[r]);
    hide Ok;
  }

  lemma {:induction false} WorldInv(w: W.World)
    requires W.Ok(w)
    ensures L.Inv(w.svc)
  {
  }

  // ---------------------------------------------------------------- what a read of a client's bytes does

  /** All that has come from a client. */
  function Received(i: P.State): seq<Byte> { R.Join(i.pieces) + i.late }

  /** What a read does in the pool, in the client's parser, and on the connection it goes to: said of all the bytes that
      have come from the client, parsed in one piece. */
  ghost predicate ReadIs(s: State, a: Act, s1: State)
    requires a.Bytes? && a.c in s.world.svc.clients && a.c in s.inputs
  {
    var c, i, svc := a.c, s.inputs[a.c], s.world.svc;
    var whole := R.Run(R.Feed(R.INIT, Received(i) + a.bytes));
    if svc.clients[c].isQuit then s1.world.svc == svc && c in s1.inputs && s1.inputs[c] == i
    else if P.TooMuch(i, a.bytes) then c !in s1.world.svc.clients
    else if a.stale then s1.world.svc == svc && c in s1.inputs && s1.inputs[c] == i.(late := i.late + a.bytes)
    else if whole.Err? || M.Server(svc, c, a.spare) == None then
      && c in s1.world.svc.clients && s1.world.svc.clients[c].isQuit
      && c in s1.inputs && s1.inputs[c].log == i.log && s1.inputs[c].queues == i.queues
    else
      var r := M.Server(svc, c, a.spare).value;
      && c in s1.world.svc.clients && !s1.world.svc.clients[c].isQuit
      && M.Owns(s1.world.svc, c, r) && c in s1.inputs && r in s1.ids && r in s1.world.lines
      && s1.ids[r] == (if r in svc.rToC && r in s.ids then s.ids[r] else s.next)
      && s1.inputs[c].late == [] && P.ReadHandsOver(i, s1.inputs[c], s1.ids[r], whole.c.done)
      && |s1.world.lines[r].due| - |W.LineOf(s.world, r).due| == |whole.c.done| - |P.All(i.log)|
  }

  lemma {:induction false} ParsedAll(i: P.State, bytes: seq<Byte>, id: nat)
    requires P.Inv(i)
    ensures var a, whole := P.Accepted(i, i.late + bytes, id), R.Run(R.Feed(R.INIT, Received(i) + bytes));
            && (a == None <==> whole.Err?)
            && (a.Some? ==> a.value.late == [] && P.ReadHandsOver(i, a.value, id, whole.c.done))
  {
    hide R.Run;
    hide P.Accepted;
    hide P.ReadHandsOver;
    assert R.Join(i.pieces) + (i.late + bytes) == Received(i) + bytes;
    P.LookedAt(i, i.late + bytes, id, Received(i) + bytes);
    hide P.Inv;
  }

  lemma {:induction false} TargetIs(svc: L.Service, c: Fd, spare: Option<Fd>)
    requires L.Inv(svc) && c in svc.clients && !svc.clients[c].isQuit
    ensures svc.avalidNum == |svc.idle| && W.Target(svc, c, spare) == M.Server(svc, c, spare)
  {
    M.StateIs(svc);
    M.GetIs(svc, spare);
    hide L.Inv;
    hide L.Get;
  }

  /** The pool after a read that is not parsed. */
  lemma {:induction false} UnparsedStep(svc: L.Service, c: Fd, input: L.FromClient, spare: Option<Fd>)
    requires L.Inv(svc) && L.Possible(svc, L.ReadC(c, input, spare)) && (input == L.Nothing || (input == L.Closed && !svc.clients[c].isQuit))
    ensures var svc1 := L.Step(svc, L.ReadC(c, input, spare)); if input == L.Nothing then svc1 == svc else c !in svc1.clients
  {
    M.NotLooked(svc, c, input, spare);
    M.DropClientIs(svc, c);
    hide L.Inv;
    hide L.Step;
    hide L.DropClient;
  }

  /** The pool's part of a step. */
  lemma {:induction false} PoolAfter(s: State, a: Act)
    requires Ok(s) && Possible(s, a)
    ensures a.Bytes? ==> a.c in s.world.svc.clients && a.c in s.inputs
    ensures L.Inv(s.world.svc) && W.Ok(s.world) && W.Possible(s.world, Means(s, a))
    ensures var e := W.EventOf(s.world, Means(s, a));
            L.Possible(s.world.svc, e) && After(s, a).world.svc == L.Step(s.world.svc, e)
  {
    hide Means;
    hide Clients;
    hide W.Ok;
    hide L.Inv;
    hide L.Step;
    hide P.Inv;
    hide P.Accepted;
    hide Linked;
    hide W.Target;
    hide Before;
    hide Read;
    WorldInv(s.world);
    W.EventIsPossible(s.world, Means(s, a));
    TargetReads(s.world);
  }

  /** The client's part. */
  lemma {:induction false} InputAfter(s: State, a: Act)
    requires Ok(s) && Possible(s, a) && a.Bytes? && a.c in After(s, a).world.svc.clients
    ensures var c, i := a.c, s.inputs[a.c];
            && c in After(s, a).inputs
            && (s.world.svc.clients[c].isQuit ==> After(s, a).inputs[c] == i)
            && (!s.world.svc.clients[c].isQuit && !Means(s, a).Asked? ==>
                  After(s, a).inputs[c] == P.After(i, P.Read(a.bytes, 0, a.stale)))
  {
    hide W.Ok;
    hide Means;
    hide L.Inv;
    hide L.Step;
    hide P.Inv;
    hide P.Accepted;
    hide P.After;
    hide Linked;
    hide W.Target;
    hide W.After;
    hide W.Possible;
    hide Before;
    hide Read;
    TargetReads(s.world);
  }

  lemma {:induction false} UnparsedDoes(s: State, a: Act)
    requires Ok(s) && Possible(s, a) && a.Bytes?
    requires s.world.svc.clients[a.c].isQuit || P.TooMuch(s.inputs[a.c], a.bytes) || (a.stale && !s.inputs[a.c].quit)
    ensures ReadIs(s, a, After(s, a))
  {
    hide After;
    hide Ok;
    hide W.Ok;
    hide L.Inv;
    hide L.Step;
    hide P.Accepted;
    hide R.Run;
    hide Received;
    PoolAfter(s, a);
    UnparsedStep(s.world.svc, a.c, W.EventOf(s.world, Means(s, a)).input, a.spare);
    if a.c in After(s, a).world.svc.clients { InputAfter(s, a); }
    hide W.Possible;
    hide Possible;
  }

  /** A client for which no connection can be had, or that has sent something wrong, is told to quit. */
  lemma {:induction false} ToldStep(svc: L.Service, c: Fd, input: L.FromClient, spare: Option<Fd>)
    requires L.Inv(svc) && L.Possible(svc, L.ReadC(c, input, spare)) && !svc.clients[c].isQuit
    requires input.Garbled? || (input.Commands? && M.Server(svc, c, spare) == None)
    ensures var svc1 := L.Step(svc, L.ReadC(c, input, spare)); c in svc1.clients && svc1.clients[c].isQuit
  {
    M.StepMeans(svc, L.ReadC(c, input, spare));
    hide L.Inv;
    hide L.Step;
    hide M.Server;
    hide M.ConnectionIs;
    hide M.IdleIs;
    hide M.LastIs;
    assert M.ClientIs(svc, L.ReadC(c, input, spare), L.Step(svc, L.ReadC(c, input, spare)), c);
  }

  lemma {:induction false} GarbledDoes(s: State, a: Act)
    requires Ok(s) && Possible(s, a) && a.Bytes? && !s.world.svc.clients[a.c].isQuit && !P.TooMuch(s.inputs[a.c], a.bytes) && !a.stale
    requires var i := s.inputs[a.c];
             P.Accepted(i, i.late + a.bytes, 0) == None && R.Run(R.Feed(R.INIT, Received(i) + a.bytes)).Err?
    ensures ReadIs(s, a, After(s, a))
  {
    hide After;
    hide Ok;
    hide W.Ok;
    hide L.Inv;
    hide L.Step;
    hide P.Accepted;
    hide R.Run;
    hide Received;
    hide M.Server;
    PoolAfter(s, a);
    ToldStep(s.world.svc, a.c, L.Garbled(a.isBlock), a.spare);
    InputAfter(s, a);
    hide W.Possible;
  }

  /** A step that completes commands. */
  ghost predicate Asks(s: State, a: Act) {
    && Ok(s) && a.Bytes? && a.c in s.world.svc.clients && a.c in s.inputs && !s.world.svc.clients[a.c].isQuit
    && Means(s, a) == W.Asked(a.c, a.isBlock, a.spare, a.replies) && Possible(s, a)
    && W.Ok(s.world) && W.Possible(s.world, W.Asked(a.c, a.isBlock, a.spare, a.replies)) && P.Inv(s.inputs[a.c])
    && s.world.svc.avalidNum == |s.world.svc.idle|
    && |a.replies| == |Commands(s.inputs[a.c], s.inputs[a.c].late + a.bytes)|
  }

  lemma {:induction false} ItAsks(s: State, a: Act)
    requires Ok(s) && Possible(s, a) && a.Bytes? && Means(s, a).Asked?
    ensures Asks(s, a)
  {
    hide W.Ok;
    hide W.Possible;
    hide P.Inv;
    hide P.Accepted;
    hide P.TooMuch;
    hide Commands;
    hide Linked;
    hide Before;
    TargetReads(s.world);
  }

  lemma {:induction false} AfterAsked(s: State, a: Act)
    requires Asks(s, a)
    ensures var c, i, w1 := a.c, s.inputs[a.c], W.After(s.world, W.Asked(a.c, a.isBlock, a.spare, a.replies));
            match W.Target(s.world.svc, c, a.spare)
            case None => After(s, a) == State(w1, Clients(s.inputs[c := i.(late := i.late + a.bytes, quit := true)], w1), s.ids, s.next)
            case Some(r) =>
              var id := if r in s.world.svc.rToC && r in s.ids then s.ids[r] else s.next;
              After(s, a) == State(w1, Clients(s.inputs[c := Read(i, i.late + a.bytes, id)], w1), s.ids[r := id], s.next + 1)
  {
    hide Ok;
    hide Possible;
    hide Means;
    hide Clients;
    hide Read;
    hide Commands;
    hide P.Inv;
    hide W.Ok;
    hide W.Possible;
    hide W.Target;
    hide W.After;
  }

  /** The client's part. */
  lemma {:induction false} AskedAfter(s: State, a: Act)
    requires Asks(s, a) && a.c in After(s, a).world.svc.clients
    ensures var c, i, s1 := a.c, s.inputs[a.c], After(s, a);
            && c in s1.inputs
            && match W.Target(s.world.svc, c, a.spare)
               case None => s1.inputs[c] == i.(late := i.late + a.bytes, quit := true)
               case Some(r) =>
                 && r in s1.ids && s1.ids[r] == (if r in s.world.svc.rToC && r in s.ids then s.ids[r] else s.next)
                 && s1.inputs[c] == Read(i, i.late + a.bytes, s1.ids[r])
                 && s1.world == W.After(s.world, W.Asked(c, a.isBlock, a.spare, a.replies))
  {
    AfterAsked(s, a);
    hide Ok;
    hide Possible;
    hide After;
    hide Means;
    hide Read;
    hide Commands;
    hide P.Inv;
    hide W.Ok;
    hide W.Possible;
    hide W.Target;
    hide W.After;
  }

  lemma {:induction false} UnservedDoes(s: State, a: Act)
    requires Asks(s, a) && !P.TooMuch(s.inputs[a.c], a.bytes) && !a.stale
    requires M.Server(s.world.svc, a.c, a.spare) == None && W.Target(s.world.svc, a.c, a.spare) == None
    ensures ReadIs(s, a, After(s, a))
  {
    hide After;
    hide Ok;
    hide Possible;
    hide Means;
    hide Commands;
    hide P.Inv;
    hide W.Ok;
    hide L.Inv;
    hide L.Step;
    hide P.Accepted;
    hide R.Run;
    hide Received;
    hide M.Server;
    hide W.Target;
    hide W.Possible;
    PoolAfter(s, a);
    ToldStep(s.world.svc, a.c, L.Commands(|a.replies|, a.isBlock), a.spare);
    AskedAfter(s, a);
  }

  lemma {:induction false} LentStep(svc: L.Service, c: Fd, n: nat, isBlock: bool, spare: Option<Fd>)
    requires var e := L.ReadC(c, L.Commands(n, isBlock), spare); L.Inv(svc) && L.Possible(svc, e) && !svc.clients[c].isQuit
    requires M.Server(svc, c, spare).Some?
    ensures var svc1 := L.Step(svc, L.ReadC(c, L.Commands(n, isBlock), spare));
            c in svc1.clients && !svc1.clients[c].isQuit && M.Owns(svc1, c, M.Server(svc, c, spare).value)
  {
    var e := L.ReadC(c, L.Commands(n, isBlock), spare);
    M.StepMeans(svc, e);
    hide L.Inv;
    hide L.Step;
    hide M.Server;
    hide M.IdleIs;
    hide M.LastIs;
    assert M.ClientIs(svc, e, L.Step(svc, e), c);
    assert M.ConnectionIs(svc, e, L.Step(svc, e), M.Server(svc, c, spare).value);
  }

  /** The commands that a read completes are those that are new. */
  lemma {:induction false} NewCommands(i: P.State, bytes: seq<Byte>, id: nat)
    requires P.Inv(i) && P.Accepted(i, i.late + bytes, 0).Some?
    ensures var i1, whole := Read(i, i.late + bytes, id), R.Run(R.Feed(R.INIT, Received(i) + bytes));
            && i1.late == [] && i1.quit == i.quit && whole.Ok? && P.ReadHandsOver(i, i1, id, whole.c.done)
            && |Commands(i, i.late + bytes)| == |whole.c.done| - |P.All(i.log)|
  {
    AnyLease(i, i.late + bytes, id);
    ForMore(i, i.late + bytes, id, id);
    hide P.Inv;
    hide R.Run;
    hide Received;
    ParsedAll(i, bytes, id);
    QuitSame(i, i.late + bytes, id);
    hide P.Accepted;
    hide Commands;
  }

  lemma {:induction false} QuitSame(i: P.State, more: seq<Byte>, id: nat)
    ensures Read(i, more, id).quit == i.quit
  {
    hide R.Run;
  }

  lemma {:induction false} DueAfter(s: State, a: Act, r: Fd)
    requires Asks(s, a) && W.Target(s.world.svc, a.c, a.spare) == Some(r)
    ensures var w1 := W.After(s.world, W.Asked(a.c, a.isBlock, a.spare, a.replies));
            && r in w1.lines && |w1.lines[r].due| - |W.LineOf(s.world, r).due| == |Commands(s.inputs[a.c], s.inputs[a.c].late + a.bytes)|
  {
    AskedPossible(s.world, a.c, a.isBlock, a.spare, a.replies);
    AskedKeeps(s.world, a.c, a.isBlock, a.spare, a.replies);
    TargetOwner(s.world, a.c, a.spare);
    hide Ok;
    hide Possible;
    hide Means;
    hide Commands;
    hide W.Ok;
    hide W.Possible;
    hide W.Target;
    hide W.After;
    hide P.Inv;
    hide SameLease;
  }

  lemma {:induction false} AskedPossible(w: W.World, c: Fd, isBlock: bool, spare: Option<Fd>, replies: seq<Reply>)
    requires W.Possible(w, W.Asked(c, isBlock, spare, replies))
    ensures c in w.svc.clients && (spare.Some? ==> spare.value !in w.svc.redises)
  {
  }

  lemma {:induction false} HandedOverDoes(s: State, a: Act)
    requires Asks(s, a) && !P.TooMuch(s.inputs[a.c], a.bytes) && !a.stale
    requires var i := s.inputs[a.c]; P.Accepted(i, i.late + a.bytes, 0).Some?
    requires M.Server(s.world.svc, a.c, a.spare).Some? && W.Target(s.world.svc, a.c, a.spare) == M.Server(s.world.svc, a.c, a.spare)
    ensures ReadIs(s, a, After(s, a))
  {
    hide After;
    hide Ok;
    hide Possible;
    hide Means;
    hide W.Ok;
    hide W.Possible;
    hide L.Inv;
    hide L.Step;
    hide P.Inv;
    hide P.Accepted;
    hide P.ReadHandsOver;
    hide R.Run;
    hide Received;
    hide Commands;
    hide M.Server;
    hide W.Target;
    hide W.After;
    hide Read;
    var r := W.Target(s.world.svc, a.c, a.spare).value;
    PoolAfter(s, a);
    LentStep(s.world.svc, a.c, |a.replies|, a.isBlock, a.spare);
    AskedAfter(s, a);
    DueAfter(s, a, r);
    NewCommands(s.inputs[a.c], a.bytes, After(s, a).ids[r]);
  }

  /** A parser that has failed belongs to a client that has been told to quit. */
  ghost predicate QuitOk(s: State) {
    forall c :: c in s.inputs && s.inputs[c].quit ==> c in s.world.svc.clients && s.world.svc.clients[c].isQuit
  }

  lemma {:induction false} StaysQuit(svc: L.Service, e: L.Event, c: Fd)
    requires L.Inv(svc) && L.Possible(svc, e) && c in svc.clients && svc.clients[c].isQuit && c in L.Step(svc, e).clients
    ensures L.Step(svc, e).clients[c].isQuit
  {
    M.StepMeans(svc, e);
    hide L.Inv;
    hide L.Step;
    hide M.IdleIs;
    hide M.LastIs;
    hide M.ConnectionIs;
    hide M.Told;
    assert M.ClientIs(svc, e, L.Step(svc, e), c);
  }

  /** A step that completes no commands. */
  lemma {:induction false} UnaskedAfter(s: State, a: Act)
    requires Ok(s) && Possible(s, a) && !Means(s, a).Asked?
    ensures var w1 := W.After(s.world, Means(s, a));
            var inputs := if a.Other? || s.world.svc.clients[a.c].isQuit then s.inputs
                          else s.inputs[a.c := P.After(s.inputs[a.c], P.Read(a.bytes, 0, a.stale))];
            After(s, a) == State(w1, Clients(inputs, w1), s.ids, s.next)
  {
    hide W.Ok;
    hide W.Possible;
    hide W.After;
    hide Means;
    hide Clients;
    hide P.Inv;
    hide P.After;
    hide Linked;
    hide Before;
  }

  lemma {:induction false} OthersAfter(s: State, a: Act, c: Fd)
    requires Ok(s) && Possible(s, a) && c in After(s, a).inputs && (a.Bytes? ==> c != a.c)
    ensures c in After(s, a).world.svc.clients && After(s, a).inputs[c] == if c in s.inputs then s.inputs[c] else P.START
  {
    hide Ok;
    hide After;
    hide Possible;
    hide W.Ok;
    hide W.Possible;
    hide W.After;
    hide W.Target;
    hide Means;
    hide Read;
    hide Commands;
    hide P.Inv;
    hide P.After;
    PoolAfter(s, a);
    if Means(s, a).Asked? {
      ItIsBytes(s, a);
      ItAsks(s, a);
      AfterAsked(s, a);
    } else {
      UnaskedAfter(s, a);
    }
  }

  lemma {:induction false} ItIsBytes(s: State, a: Act)
    requires Ok(s) && Possible(s, a) && Means(s, a).Asked?
    ensures a.Bytes?
  {
    hide Ok;
    hide W.Possible;
  }

  lemma {:induction false} OwnQuit(s: State, a: Act)
    requires Ok(s) && QuitOk(s) && Possible(s, a) && a.Bytes? && a.c in After(s, a).world.svc.clients
    ensures a.c in After(s, a).inputs && (After(s, a).inputs[a.c].quit ==> After(s, a).world.svc.clients[a.c].isQuit)
  {
    ReadKnown(s, a);
    var svc, i := s.world.svc, s.inputs[a.c];
    hide Ok;
    hide Possible;
    hide After;
    hide L.Inv;
    hide L.Step;
    hide P.Inv;
    hide P.Accepted;
    hide R.Run;
    hide Received;
    hide W.Target;
    hide W.Ok;
    hide W.Possible;
    hide M.Server;
    PoolAfter(s, a);
    InputAfter(s, a);
    if svc.clients[a.c].isQuit {
      StaysQuit(svc, W.EventOf(s.world, Means(s, a)), a.c);
    } else if P.TooMuch(i, a.bytes) {
      UnparsedStep(svc, a.c, L.Closed, a.spare);
    } else if !a.stale {
      TargetIs(svc, a.c, a.spare);
      if P.Accepted(i, i.late + a.bytes, 0) == None {
        ToldStep(svc, a.c, L.Garbled(a.isBlock), a.spare);
      } else {
        ItAsks(s, a);
        AskedQuit(s, a);
      }
    }
  }

  lemma {:induction false} AskedQuit(s: State, a: Act)
    requires Asks(s, a) && QuitOk(s) && a.c in After(s, a).world.svc.clients && L.Inv(s.world.svc)
    requires W.Target(s.world.svc, a.c, a.spare) == M.Server(s.world.svc, a.c, a.spare)
    ensures a.c in After(s, a).inputs && (After(s, a).inputs[a.c].quit ==> After(s, a).world.svc.clients[a.c].isQuit)
  {
    hide Ok;
    hide Possible;
    hide After;
    hide Means;
    hide Commands;
    hide L.Inv;
    hide L.Step;
    hide P.Inv;
    hide W.Target;
    hide W.Ok;
    hide W.Possible;
    hide W.After;
    hide M.Server;
    hide Read;
    AskedAfter(s, a);
    PoolAfter(s, a);
    if M.Server(s.world.svc, a.c, a.spare) == None {
      ToldStep(s.world.svc, a.c, L.Commands(|a.replies|, a.isBlock), a.spare);
    } else {
      QuitSame(s.inputs[a.c], s.inputs[a.c].late + a.bytes, After(s, a).ids[M.Server(s.world.svc, a.c, a.spare).value]);
    }
  }

  lemma {:induction false} QuitKept(s: State, a: Act)
    requires Ok(s) && QuitOk(s) && Possible(s, a)
    ensures QuitOk(After(s, a))
  {
    hide Ok;
    hide Possible;
    hide After;
    hide L.Inv;
    hide L.Step;
    hide Means;
    hide W.Ok;
    hide W.Possible;
    hide W.EventOf;
    forall c | c in After(s, a).inputs && After(s, a).inputs[c].quit
      ensures c in After(s, a).world.svc.clients && After(s, a).world.svc.clients[c].isQuit
    {
      AfterOk(s, a);
      InputsAreClients(After(s, a));
      if a.Bytes? && c == a.c { OwnQuit(s, a); } else { OtherQuit(s, a, c); }
    }
  }

  lemma {:induction false} OtherQuit(s: State, a: Act, c: Fd)
    requires Ok(s) && QuitOk(s) && Possible(s, a) && c in After(s, a).inputs && (a.Bytes? ==> c != a.c)
    ensures c in After(s, a).world.svc.clients && (After(s, a).inputs[c].quit ==> After(s, a).world.svc.clients[c].isQuit)
  {
    hide Ok;
    hide Possible;
    hide After;
    hide L.Inv;
    hide L.Step;
    hide Means;
    hide W.Ok;
    hide W.Possible;
    hide W.EventOf;
    PoolAfter(s, a);
    OthersAfter(s, a, c);
    if c in s.inputs && s.inputs[c].quit { StaysQuit(s.world.svc, W.EventOf(s.world, Means(s, a)), c); }
  }

  lemma {:induction false} InputsAreClients(s: State)
    requires Ok(s)
    ensures s.inputs.Keys == s.world.svc.clients.Keys
  {
  }

  lemma {:induction false} FinalQuit(s: State, acts: seq<Act>)
    requires Ok(s) && QuitOk(s) && Final(s, acts).Some?
    ensures QuitOk(Final(s, acts).value)
    decreases |acts|
  {
    hide Ok;
    hide QuitOk;
    hide After;
    hide Possible;
    if acts != [] {
      AfterOk(s, acts[0]);
      QuitKept(s, acts[0]);
      FinalQuit(After(s, acts[0]), acts[1..]);
    }
  }

  /** For every client and every read: a client that has quit is not looked at; a buffer that gets too long is the end of
      it; bytes with errno at EAGAIN wait; an error in the bytes, or no connection, has it told to quit and hands nothing
      over; and otherwise all commands that all its bytes make up, and that have not been handed over before, go to the
      connection the pool gives for it, and that many more replies are due there. */
  lemma {:induction false} ReadDoes(s: State, a: Act)
    requires Ok(s) && QuitOk(s) && Possible(s, a) && a.Bytes?
    ensures ReadIs(s, a, After(s, a))
  {
    ReadKnown(s, a);
    var svc, i := s.world.svc, s.inputs[a.c];
    hide Ok;
    hide Possible;
    hide After;
    hide ReadIs;
    hide L.Inv;
    hide P.Inv;
    hide P.Accepted;
    hide R.Run;
    hide Received;
    hide W.Target;
    hide W.Possible;
    hide M.Server;
    if svc.clients[a.c].isQuit || P.TooMuch(i, a.bytes) || a.stale {
      UnparsedDoes(s, a);
    } else {
      ParsedAll(i, a.bytes, 0);
      TargetIs(svc, a.c, a.spare);
      if P.Accepted(i, i.late + a.bytes, 0) == None {
        GarbledDoes(s, a);
      } else {
        ItAsks(s, a);
        if M.Server(svc, a.c, a.spare) == None { UnservedDoes(s, a); } else { HandedOverDoes(s, a); }
      }
    }
  }

  lemma {:induction false} ReadKnown(s: State, a: Act)
    requires Ok(s) && Possible(s, a) && a.Bytes?
    ensures L.Inv(s.world.svc) && a.c in s.inputs && a.c in s.world.svc.clients && P.Inv(s.inputs[a.c])
  {
    WorldInv(s.world);
    hide W.Ok;
    hide P.Inv;
    hide Linked;
    hide Means;
    hide W.Possible;
  }

  /** In every reachable state. */
  lemma {:induction false} EveryReadDoes(idle: seq<Fd>, maxNum: nat, acts: seq<Act>, a: Act)
    requires L.NoTwice(idle) && RunFrom(idle, maxNum, acts).Some?
    ensures var s := RunFrom(idle, maxNum, acts).value;
            && Ok(s) && (a.Bytes? && Possible(s, a) ==> ReadIs(s, a, After(s, a)))
  {
    StartOk(idle, maxNum);
    hide Ok;
    hide Possible;
    hide After;
    hide ReadIs;
    var s0 := Start(idle, maxNum);
    assert QuitOk(s0);
    hide QuitOk;
    FinalOk(s0, acts);
    FinalQuit(s0, acts);
    var s := Final(s0, acts).value;
    if a.Bytes? && Possible(s, a) { ReadDoes(s, a); }
  }
}
