/** Replies over a whole lease: whatever way forwarding commands, reading replies and sending them on are
    interleaved, and however the replies are cut into reads. */
module ReplyRun {
  import opened Wrappers
  import opened Decimal
  import opened Buffers
  import opened Drain
  import R = Resp
  import opened Replies
  import RedisParser

  // ---------------------------------------------------------------- Run0

  lemma {:induction false} Run0More(s: Redis, t: seq<Byte>)
    requires Sound(s)
    ensures match Run0(s)
            case Done(s1) =>
              && Sound(s1) && Run0(Fed(s, t)) == Run0(Fed(s1, t))
              && s1.rNum <= s.rNum && |s1.c.buf| <= |s.c.buf| && Step0(s1) == Wait
            case Failed(e) => e == R.Protocol && Run0(Fed(s, t)) == Failed(R.Protocol)
    decreases |R.Unread(s.c)|, if s.c.multi == 0 then 1 else 0
  {
    hide Step;
    StepConsumes(s);
    StepMore(s, t);
    if Step(s).Go? {
      StepConsumes(Fed(s, t));
      Run0More(Step(s).s, t);
    }
  }

  /** The limit only ever stops a run that would otherwise wait. */
  lemma {:induction false} RunIsRun0(s: Redis)
    requires Sound(s)
    ensures match Run(s)
            case Done(t) => Run0(s) == Done(t) && Sound(t) && Step(t) == Wait
            case Failed(e) =>
              if e == R.Protocol then Run0(s) == Failed(e)
              else Run0(s).Done? && Sound(Run0(s).s) && Step(Run0(s).s) == Wrong(R.TooBig)
    decreases |R.Unread(s.c)|, if s.c.multi == 0 then 1 else 0
  {
    hide Step;
    StepConsumes(s);
    if Step(s).Go? { RunIsRun0(Step(s).s); }
  }

  /** The same connection with n more replies to come. */
  function Owing(s: Redis, n: nat): Redis { s.(rNum := s.rNum + n) }

  lemma {:induction false} StepOwing(s: Redis, n: nat)
    requires Sound(s) && s.rNum > 0
    ensures Step(Owing(s, n)) == match Step(s) case Go(s1) => Go(Owing(s1, n)) case t => t
  {
    hide LineTaken;
    hide UnknownTaken;
    hide R.ReadNumber;
    hide R.FindCr;
    hide NullTaken;
    hide EmptyTaken;
    hide R.DollarTaken;
    hide R.BulkTaken;
    hide Parsed;
  }

  // ---------------------------------------------------------------- parsers that will do the same

  /** Where a parser is; not which buffers it has filled, nor how much it has already read past. */
  ghost predicate Alike(s: Redis, t: Redis) {
    && Sound(s) && Sound(t) && s.rNum == t.rNum && s.c.multi == t.c.multi && s.c.bulk == t.c.bulk
    && R.Unread(s.c) == R.Unread(t.c)
  }

  ghost predicate AlikeTurns(a: Replies.Turn, b: Replies.Turn) {
    match a
    case Wait => b == Wait
    case Wrong(e) => b == Wrong(e)
    case Go(s) => b.Go? && Alike(s, b.s)
  }

  lemma {:induction false} AlikeCounted(s: Redis, t: Redis, c: R.Client, d: R.Client)
    requires s.rNum == t.rNum > 0 && c.rpos <= |c.buf| && d.rpos <= |d.buf|
    requires c.multi == d.multi && c.bulk == d.bulk && R.Unread(c) == R.Unread(d)
    ensures Alike(Counted(s, c), Counted(t, d))
  {
  }

  lemma {:induction false} LineFactsAll(c: R.Client, i: nat)
    requires c.rpos + i + 2 <= |c.buf|
    ensures var c1 := LineTaken(c, i);
            c1.rpos <= |c1.buf| && R.Unread(c1) == R.Unread(c)[i + 2..] && c1.multi == c.multi && c1.bulk == c.bulk
    ensures var c1 := UnknownTaken(c, i);
            c1.rpos <= |c1.buf| && R.Unread(c1) == R.Unread(c)[i + 2..] && c1.multi == c.multi && c1.bulk == c.bulk
  {
  }

  lemma {:induction false} AlikeLine(s: Redis, t: Redis, i: nat)
    requires Alike(s, t) && s.rNum > 0 && s.c.multi == 0 && i + 2 <= |R.Unread(s.c)|
    ensures AlikeTurns(WholeLine(s, i), WholeLine(t, i))
  {
    hide LineTaken;
    hide UnknownTaken;
    hide Parsed;
    LineFactsAll(s.c, i);
    LineFactsAll(t.c, i);
  }

  lemma {:induction false} HeaderFacts(c: R.Client, len: nat)
    requires c.rpos + len + 3 <= |c.buf|
    ensures var c1 := R.HeaderTaken(c, len);
            c1.rpos <= |c1.buf| && R.Unread(c1) == R.Unread(c)[len + 3..] && c1.multi == c.multi && c1.bulk == c.bulk
  {
  }

  lemma {:induction false} EmptyFacts(c: R.Client, len: nat)
    requires c.rpos + len + 5 <= |c.buf| && c.multi > 0
    ensures var c1 := EmptyTaken(c, len);
            c1.rpos <= |c1.buf| && R.Unread(c1) == R.Unread(c)[len + 5..] && c1.multi == c.multi - 1 && c1.bulk == c.bulk
  {
  }

  lemma {:induction false} AlikeHeader(s: Redis, t: Redis, v: int, len: nat)
    requires Alike(s, t) && s.rNum > 0 && s.c.multi > 0 && len + 3 <= |R.Unread(s.c)|
    ensures AlikeTurns(WithHeader(s, v, len), WithHeader(t, v, len))
  {
    hide R.HeaderTaken;
    hide EmptyTaken;
    hide Counted;
    HeaderFacts(s.c, len);
    HeaderFacts(t.c, len);
    if v < 0 {
      AlikeCounted(s, t, NullTaken(s.c, len), NullTaken(t.c, len));
    } else if v == 0 && |R.Unread(s.c)| >= len + 5 {
      EmptyFacts(s.c, len);
      EmptyFacts(t.c, len);
      AlikeCounted(s, t, EmptyTaken(s.c, len), EmptyTaken(t.c, len));
    }
  }

  lemma {:induction false} AlikeBody(s: Redis, t: Redis)
    requires Alike(s, t) && s.rNum > 0 && s.c.multi > 0
    ensures AlikeTurns(ReadBody(s), ReadBody(t))
  {
    hide Counted;
    if |R.Unread(s.c)| >= s.c.bulk + 2 {
      BodyFacts(s.c);
      BodyFacts(t.c);
      AlikeCounted(s, t, R.BulkTaken(s.c), R.BulkTaken(t.c));
    }
  }

  lemma {:induction false} BodyFacts(c: R.Client)
    requires c.rpos + c.bulk + 2 <= |c.buf| && c.multi > 0
    ensures var c1 := R.BulkTaken(c); R.Unread(c1) == R.Unread(c)[c.bulk + 2..] && c1.multi == c.multi - 1 && c1.bulk == 0
  {
  }

  lemma {:induction false} NumberLimit(u: seq<Byte>, m: nat, n: nat)
    requires u != [] && u[0] != CR
    ensures R.ReadNumber(u, m) == R.ReadNumber(u, n)
            || (R.ReadNumber(u, m) in {R.NeedMore, R.Bad(R.TooBig)} && R.ReadNumber(u, n) in {R.NeedMore, R.Bad(R.TooBig)})
  {
  }

  function Patient(t: Replies.Turn): Replies.Turn { if t == Wrong(R.TooBig) then Wait else t }

  lemma {:induction false} FirstAlike(s: Redis, t: Redis)
    requires Alike(s, t) && s.rNum > 0 && s.c.multi == 0
    ensures AlikeTurns(Patient(ReadLine(s)), Patient(ReadLine(t)))
  {
    hide WholeLine;
    hide R.FindCr;
    var u := R.Unread(s.c);
    if R.FindCr(u).Some? && R.FindCr(u).value + 1 < |u| {
      AlikeLine(s, t, R.FindCr(u).value);
      WholeLineSmall(s, R.FindCr(u).value);
    }
  }

  lemma {:induction false} WholeLineSmall(s: Redis, i: nat)
    requires Sound(s) && s.rNum > 0 && i + 2 <= |R.Unread(s.c)|
    ensures WholeLine(s, i) != Wrong(R.TooBig)
  {
    hide Parsed;
    hide LineTaken;
    hide UnknownTaken;
  }

  lemma {:induction false} ElementAlike(s: Redis, t: Redis)
    requires Alike(s, t) && s.rNum > 0 && s.c.multi > 0 && s.c.bulk == 0
    ensures AlikeTurns(Patient(ReadElement(s)), Patient(ReadElement(t)))
  {
    hide WithHeader;
    hide R.ReadNumber;
    hide R.FindCr;
    var u := R.Unread(s.c);
    if u != [] && u[0] == DOLLAR {
      NumberLimit(u, |s.c.buf|, |t.c.buf|);
      var r := R.ReadNumber(u, |s.c.buf|);
      if r.Number? {
        AlikeHeader(s, t, r.v, r.len);
        WithHeaderSmall(s, r.v, r.len);
      }
    }
  }

  lemma {:induction false} WithHeaderSmall(s: Redis, v: int, len: nat)
    requires Sound(s) && s.rNum > 0 && s.c.multi > 0 && len + 3 <= |R.Unread(s.c)|
    ensures WithHeader(s, v, len) != Wrong(R.TooBig)
  {
    hide Counted;
    hide R.HeaderTaken;
  }

  lemma {:induction false} Step0Alike(s: Redis, t: Redis)
    requires Alike(s, t)
    ensures AlikeTurns(Step0(s), Step0(t))
  {
    hide ReadLine;
    hide ReadElement;
    hide ReadBody;
    if s.rNum > 0 {
      if s.c.multi == 0 { FirstAlike(s, t); } else if s.c.bulk == 0 { ElementAlike(s, t); } else { AlikeBody(s, t); }
    }
  }

  lemma {:induction false} Run0Alike(s: Redis, t: Redis)
    requires Alike(s, t)
    ensures match Run0(s)
            case Failed(e) => Run0(t) == Failed(e)
            case Done(s1) => Run0(t).Done? && Alike(s1, Run0(t).s)
    decreases |R.Unread(s.c)|, if s.c.multi == 0 then 1 else 0
  {
    hide Step;
    StepConsumes(s);
    StepConsumes(t);
    Step0Alike(s, t);
    if Step0(s).Go? { Run0Alike(Step0(s).s, Step0(t).s); }
  }

  // ---------------------------------------------------------------- regular runs copy

  lemma {:induction false} RegularAlike(s: Redis, t: Redis)
    requires Alike(s, t)
    ensures Regular(s) == Regular(t)
  {
  }

  lemma {:induction false} RegularAllAlike(s: Redis, t: Redis)
    requires Alike(s, t) && RegularAll(s)
    ensures RegularAll(t)
    decreases |R.Unread(s.c)|, if s.c.multi == 0 then 1 else 0
  {
    hide Step;
    StepConsumes(s);
    StepConsumes(t);
    RegularAlike(s, t);
    Step0Alike(s, t);
    if Step(t).Go? { RegularAllAlike(Step(s).s, Step(t).s); }
  }

  lemma {:induction false} RegularBefore(s: Redis, t: seq<Byte>)
    requires Sound(s) && Regular(Fed(s, t))
    ensures Regular(s)
  {
    var u := R.Unread(s.c);
    UnreadFed(s.c, t);
    if R.FindCr(u).Some? && R.FindCr(u).value + 1 < |u| {
      R.FindCrMore(u, t);
      var i := R.FindCr(u).value;
      assert (u + t)[0] == u[0] && (u + t)[i + 1] == u[i + 1];
    }
  }

  /** What is regular with more to come is regular before it comes; and goes on so from where it has stopped. */
  lemma {:induction false} RegularSplit(s: Redis, t: seq<Byte>)
    requires Sound(s) && RegularAll(Fed(s, t))
    ensures RegularAll(s)
    ensures Run0(s).Done? ==> Sound(Run0(s).s) && RegularAll(Fed(Run0(s).s, t))
    decreases |R.Unread(s.c)|, if s.c.multi == 0 then 1 else 0
  {
    hide Step;
    StepConsumes(s);
    StepConsumes(Fed(s, t));
    StepMore(s, t);
    RegularBefore(s, t);
    if Step(s).Go? { RegularSplit(Step(s).s, t); }
  }

  lemma {:induction false} RunCopies(s: Redis)
    requires Sound(s) && AtEnd(s.c) && RegularAll(s) && Run(s).Done?
    ensures Sound(Run(s).s) && Copied(s.c, Run(s).s.c)
    decreases |R.Unread(s.c)|, if s.c.multi == 0 then 1 else 0
  {
    hide Step;
    StepConsumes(s);
    if Step(s).Go? {
      StepCopies(s);
      RunCopies(Step(s).s);
    }
  }

  // ---------------------------------------------------------------- how many replies have come

  /** The number of whole replies at the start of some bytes. */
  function Whole(rs: seq<Reply>, got: seq<Byte>): (n: nat)
    ensures n <= |rs|
  {
    if rs == [] || |got| < |ReplyBytes(rs[0])| then 0 else 1 + Whole(rs[1..], got[|ReplyBytes(rs[0])|..])
  }

  lemma {:induction false} NothingDone(s: Redis)
    requires Sound(s) && R.Unread(s.c) == [] && s.c.multi == 0
    ensures Run0(s) == Done(s)
  {
    assert R.FindCr(R.Unread(s.c)) == None;
  }

  /** A run that counts nothing and ends between replies has done nothing. */
  lemma {:induction false} NoCountNoMove(s: Redis)
    requires Sound(s) && Run0(s).Done? && Run0(s).s.rNum == s.rNum && Run0(s).s.c.multi == 0
    ensures Run0(s).s == s
    decreases |R.Unread(s.c)|, if s.c.multi == 0 then 1 else 0
  {
    StepConsumes(s);
    if Step(s).Go? {
      var s1 := Step(s).s;
      Run0More(s1, []);
      StepCounts(s);
      NoCountNoMove(s1);
    }
  }

  lemma {:induction false} StepCounts(s: Redis)
    requires Sound(s) && Step(s).Go?
    ensures Step(s).s.rNum == s.rNum ==> Step(s).s.c.multi > 0
  {
    hide R.ReadNumber;
    hide R.FindCr;
    hide Parsed;
  }

  /** Part of a reply is not a reply. */
  lemma {:induction false} PartIsNone(s: Redis, r: Reply, got: seq<Byte>)
    requires Sound(s) && AtEnd(s.c) && s.rNum > 0 && s.c.multi == 0 && s.c.bulk == 0 && Good(r)
    requires R.Unread(s.c) == got && got <= ReplyBytes(r) && got != ReplyBytes(r)
    ensures Run0(s).Done? && Run0(s).s.rNum == s.rNum
  {
    hide Run;
    hide Run0;
    hide RegularAll;
    var tail := ReplyBytes(r)[|got|..];
    assert got + tail == ReplyBytes(r);
    UnreadFed(s.c, tail);
    assert ReplyBytes(r) + [] == ReplyBytes(r);
    var s1 := RunReply(Fed(s, tail), r, []);
    NothingDone(s1);
    Run0More(s, tail);
    var t := Run0(s).s;
    if t.rNum != s.rNum {
      UnreadFed(t.c, tail);
      Run0More(Fed(t, tail), []);
      NoCountNoMove(Fed(t, tail));
    }
  }

  lemma {:induction false} RestIs(a: seq<Byte>, b: seq<Byte>, got: seq<Byte>)
    requires got <= a + b && |got| >= |a|
    ensures got == a + got[|a|..] && got[|a|..] <= b
  {
    assert got[..|a|] == (a + b)[..|a|];
    assert got[|a|..] == (a + b)[..|got|][|a|..] == b[..|got| - |a|];
  }

  /** The run of processRedis over what has come: it counts the whole replies, and if there is no part of another
      one, it has read everything. */
  lemma {:induction false} CountsWhole(s: Redis, rs: seq<Reply>, got: seq<Byte>)
    requires Sound(s) && AtEnd(s.c) && s.c.multi == 0 && s.c.bulk == 0 && |rs| <= s.rNum && AllGood(rs)
    requires R.Unread(s.c) == got && got <= RepliesBytes(rs)
    ensures Run0(s).Done? && Sound(Run0(s).s)
    ensures var t := Run0(s).s;
            && t.rNum == s.rNum - Whole(rs, got)
            && (Whole(rs, got) == |rs| ==> R.Unread(t.c) == [] && t.c.multi == 0 && t.c.bulk == 0)
    decreases |rs|
  {
    hide Run;
    hide Run0;
    hide RegularAll;
    hide ReplyBytes;
    Run0More(s, []);
    if rs == [] {
      NothingDone(s);
    } else {
      var r := rs[0];
      if |got| < |ReplyBytes(r)| {
        assert got == RepliesBytes(rs)[..|got|] == ReplyBytes(r)[..|got|];
        PartIsNone(s, r, got);
      } else {
        var rest := got[|ReplyBytes(r)|..];
        RestIs(ReplyBytes(r), RepliesBytes(rs[1..]), got);
        var s1 := RunReply(s, r, rest);
        CountsWhole(s1, rs[1..], rest);
      }
    }
  }

  /** All that redis sends is regular. */
  lemma {:induction false} AllRegular(s: Redis, rs: seq<Reply>)
    requires Sound(s) && AtEnd(s.c) && s.c.multi == 0 && s.c.bulk == 0 && |rs| <= s.rNum && AllGood(rs)
    requires R.Unread(s.c) == RepliesBytes(rs)
    ensures RegularAll(s)
    decreases |rs|
  {
    if rs == [] {
      assert R.FindCr(R.Unread(s.c)) == None;
    } else {
      hide Run;
      hide Run0;
      hide RegularAll;
      var s1 := RunReply(s, rs[0], RepliesBytes(rs[1..]));
      AllRegular(s1, rs[1..]);
    }
  }

  lemma {:induction false} BytesMore(rs: seq<Reply>, more: seq<Reply>)
    ensures RepliesBytes(rs + more) == RepliesBytes(rs) + RepliesBytes(more)
    ensures AllGood(rs) && AllGood(more) ==> AllGood(rs + more)
    decreases |rs|
  {
    if rs == [] {
      assert rs + more == more;
      assert [] + RepliesBytes(more) == RepliesBytes(more);
    } else {
      assert (rs + more)[1..] == rs[1..] + more;
      BytesMore(rs[1..], more);
      assert ReplyBytes(rs[0]) + (RepliesBytes(rs[1..]) + RepliesBytes(more))
          == (ReplyBytes(rs[0]) + RepliesBytes(rs[1..])) + RepliesBytes(more);
    }
  }

  /** Asking for more does not change how much has come. */
  lemma {:induction false} WholeMore(rs: seq<Reply>, more: seq<Reply>, got: seq<Byte>)
    requires got <= RepliesBytes(rs)
    ensures Whole(rs, got) == |rs| ==> got == RepliesBytes(rs)
    ensures Whole(rs, got) < |rs| ==> Whole(rs + more, got) == Whole(rs, got)
    decreases |rs|
  {
    if rs != [] {
      hide ReplyBytes;
      assert (rs + more)[1..] == rs[1..] + more && (rs + more)[0] == rs[0];
      if |got| >= |ReplyBytes(rs[0])| {
        var rest := got[|ReplyBytes(rs[0])|..];
        RestIs(ReplyBytes(rs[0]), RepliesBytes(rs[1..]), got);
        WholeMore(rs[1..], more, rest);
      }
    }
  }

  // ---------------------------------------------------------------- a lease

  /** The state of a leased connection, as readC, readR and writeC see it: the parser, what waits for the client
      (its `middle`), what has been put on the client's socket, and the bytes at the end of the parser's buffer
      that have been received but not looked at. due and got are not in the source: what redis answers to the
      commands forwarded so far, and the part of it that the parser has been given. */
  datatype Leased = Leased(s: Redis, queue: seq<seq<Byte>>, wire: seq<Byte>, due: seq<Reply>, got: seq<Byte>, late: seq<Byte>)

  const FRESH := Leased(Redis(R.INIT, 0), [], [], [], [], [])

  /** What readR leaves of the parser's state (server.c:400-407). */
  function Hand(s: Redis): Redis
    requires Sound(s)
  {
    s.(c := s.c.(cmds := s.c.cmds[Complete(|s.c.cmds|, s.rNum > 0)..], cmdNum := 0, buf := R.Unread(s.c), rpos := 0))
  }

  function Given(s: Redis): seq<seq<Byte>> { s.c.cmds[..Complete(|s.c.cmds|, s.rNum > 0)] }

  /** The end of readC: commands, and what redis will answer to them. */
  function Forward(l: Leased, replies: seq<Reply>): Leased { l.(s := Owing(l.s, |replies|), due := l.due + replies) }

  /** readR from processRedis on; None if that fails. */
  function Parse(l: Leased, more: seq<Byte>): Option<Leased>
    requires Sound(l.s)
  {
    match Run(Fed(l.s, more))
    case Failed(_) => None
    case Done(s1) =>
      if Sound(s1) then Some(l.(s := Hand(s1), queue := l.queue + Given(s1), got := l.got + more, late := [])) else None
  }

  /** baseRead drops a connection whose buffer gets too long (client.c:124-128). */
  predicate TooMuch(l: Leased, bytes: seq<Byte>) { |l.s.c.buf| + |l.late| + |bytes| >= MAX_QUERY_SIZE }

  /** readR. stale says whether an earlier call has left errno at EAGAIN: a recv that succeeds does not reset it, and
      then the bytes are received and readR goes no further (server.c:389). None if baseRead or processRedis fails. */
  function Read(l: Leased, bytes: seq<Byte>, stale: bool): Option<Leased>
    requires Sound(l.s)
  {
    if TooMuch(l, bytes) then None
    else if stale then Some(l.(late := l.late + bytes))
    else Parse(l, l.late + bytes)
  }

  /** writeC. */
  function Send(l: Leased, sends: seq<SendResult>): Leased {
    var r := Drained(l.queue, sends, []);
    l.(queue := r.queue, wire := l.wire + r.wire)
  }

  /** A parser that has been given everything at once. */
  function Virtual(due: seq<Reply>, got: seq<Byte>): Redis { Redis(R.INIT.(buf := got), |due|) }

  /** The parser is where it would be then; nothing that came is lost, doubled or out of order on its way to the
      client. */
  ghost predicate Inv(l: Leased) { Parsing(l) && l.got + l.late <= RepliesBytes(l.due) }

  ghost predicate Parsing(l: Leased) {
    && AllGood(l.due) && l.got <= RepliesBytes(l.due)
    && Sound(l.s) && AtEnd(l.s.c) && l.s.c.rpos == 0
    && Run0(Virtual(l.due, l.got)).Done? && Alike(Run0(Virtual(l.due, l.got)).s, l.s)
    && l.wire + Flat(l.queue) + Flat(l.s.c.cmds) + R.Unread(l.s.c) == l.got
    && (l.s.rNum == 0 ==> l.s.c.cmds == [])
  }

  lemma {:induction false} FreshInv()
    ensures Inv(FRESH)
  {
    NothingDone(Redis(R.INIT, 0));
    assert FRESH.got + FRESH.late == [];
  }

  /** Reply accounting: rNum is the number of commands forwarded less the number of whole replies that have
      come; and when it is 0, all that redis had to say has come, and none of it is left behind. */
  lemma {:induction false} Accounting(l: Leased)
    requires Parsing(l)
    ensures l.s.rNum == |l.due| - Whole(l.due, l.got)
    ensures l.s.rNum == 0 <==> l.got == RepliesBytes(l.due)
    ensures l.s.rNum == 0 ==> R.Unread(l.s.c) == [] && l.s.c.multi == 0 && l.s.c.bulk == 0
  {
    hide Run0;
    CountsWhole(Virtual(l.due, l.got), l.due, l.got);
    WholeMore(l.due, [], l.got);
    if l.got == RepliesBytes(l.due) { WholeAll(l.due); }
  }

  lemma {:induction false} WholeAll(rs: seq<Reply>)
    ensures Whole(rs, RepliesBytes(rs)) == |rs|
    decreases |rs|
  {
    if rs != [] {
      assert RepliesBytes(rs)[|ReplyBytes(rs[0])|..] == RepliesBytes(rs[1..]);
      WholeAll(rs[1..]);
    }
  }

  lemma {:induction false} ForwardInv(l: Leased, replies: seq<Reply>)
    requires Inv(l) && AllGood(replies)
    ensures Inv(Forward(l, replies))
  {
    hide Run0;
    hide Step;
    var v, n := Virtual(l.due, l.got), |replies|;
    var t := Run0(v).s;
    BytesMore(l.due, replies);
    Run0More(v, []);
    Accounting(l);
    if t.rNum > 0 { StepOwing(t, n); }
    OwingRun(v, n);
    WaitingStays(Owing(t, n));
    assert Virtual(l.due + replies, l.got) == Owing(v, n);
  }

  /** A run goes the same way when more replies are owed, and then on. */
  lemma {:induction false} OwingRun(s: Redis, n: nat)
    requires Sound(s) && Run0(s).Done?
    ensures Sound(Run0(s).s) && Run0(Owing(s, n)) == Run0(Owing(Run0(s).s, n))
    decreases |R.Unread(s.c)|, if s.c.multi == 0 then 1 else 0
  {
    hide Step;
    StepConsumes(s);
    if s.rNum > 0 {
      StepOwing(s, n);
      if Step(s).Go? {
        StepConsumes(Owing(s, n));
        OwingRun(Step(s).s, n);
      }
    } else {
      OwesNothing(s);
    }
  }

  lemma {:induction false} OwesNothing(s: Redis)
    requires Sound(s) && s.rNum == 0
    ensures Step(s) == Wait && Run0(s) == Done(s)
  {
  }

  /** A parser with nothing left to read between replies, or one that waits, goes on waiting. */
  lemma {:induction false} WaitingStays(s: Redis)
    requires Sound(s) && ((R.Unread(s.c) == [] && s.c.multi == 0) || Step0(s) == Wait)
    ensures Run0(s) == Done(s)
  {
    if R.Unread(s.c) == [] && s.c.multi == 0 { NothingDone(s); }
  }

  lemma {:induction false} ParseInv(l: Leased, bytes: seq<Byte>)
    requires Parsing(l) && l.got + bytes <= RepliesBytes(l.due)
    ensures Parse(l, bytes).Some? ==> Parsing(Parse(l, bytes).value)
    ensures Parse(l, bytes) == None ==> Run(Fed(l.s, bytes)) == Failed(R.TooBig)
  {
    hide Run;
    hide Run0;
    hide RegularAll;
    var v, x := Virtual(l.due, l.got), Fed(l.s, bytes);
    var t := Run0(v).s;
    UnreadFed(l.s.c, bytes);
    UnreadFed(t.c, bytes);
    Run0More(v, bytes);
    assert Fed(v, bytes) == Virtual(l.due, l.got + bytes);
    CountsWhole(Virtual(l.due, l.got + bytes), l.due, l.got + bytes);
    assert Alike(Fed(t, bytes), x);
    Run0Alike(Fed(t, bytes), x);
    RunIsRun0(x);
    if Run(x).Done? {
      var s1 := Run(x).s;
      Run0More(x, []);
      StreamRegular(l, bytes);
      RunCopies(x);
      HandKeeps(l, s1, bytes);
    }
  }

  lemma {:induction false} AllCounted(l: Leased, bytes: seq<Byte>)
    requires Parsing(l) && l.got + bytes == RepliesBytes(l.due)
    ensures var x := Fed(l.s, bytes); Sound(x) && Run0(x).Done? && Sound(Run0(x).s) && Run0(x).s.rNum == 0
  {
    hide Run;
    hide Run0;
    hide RegularAll;
    hide RepliesBytes;
    var v, x := Virtual(l.due, l.got), Fed(l.s, bytes);
    var t := Run0(v).s;
    UnreadFed(l.s.c, bytes);
    UnreadFed(t.c, bytes);
    Run0More(v, bytes);
    assert Fed(v, bytes) == Virtual(l.due, l.got + bytes);
    CountsWhole(Virtual(l.due, l.got + bytes), l.due, l.got + bytes);
    WholeAll(l.due);
    Run0Alike(Fed(t, bytes), x);
    Run0More(x, []);
  }

  /** Once all has come, nothing is left over for the parser's size limit to complain about. */
  lemma {:induction false} AllParsed(l: Leased, bytes: seq<Byte>)
    requires Parsing(l) && l.got + bytes == RepliesBytes(l.due)
    ensures Parse(l, bytes).Some? && Parse(l, bytes).value.got == RepliesBytes(l.due) && Parse(l, bytes).value.due == l.due
  {
    AllCounted(l, bytes);
    ParseInv(l, bytes);
    hide Run0;
    hide Run;
    hide Parsing;
    hide RepliesBytes;
    var x := Fed(l.s, bytes);
    RunIsRun0(x);
    OwesNothing(Run0(x).s);
  }

  /** Reading keeps the account; what is received but not looked at waits for the next read. An error can only be
      one of the two size limits. */
  lemma {:induction false} ReadInv(l: Leased, bytes: seq<Byte>, stale: bool)
    requires Inv(l) && l.got + l.late + bytes <= RepliesBytes(l.due)
    ensures Read(l, bytes, stale).Some? ==> Inv(Read(l, bytes, stale).value)
    ensures Read(l, bytes, stale) == None ==> TooMuch(l, bytes) || (!stale && Run(Fed(l.s, l.late + bytes)) == Failed(R.TooBig))
  {
    hide Run;
    hide RepliesBytes;
    hide Parsing;
    hide Parse;
    Regrouped(l.got, l.late, bytes);
    if TooMuch(l, bytes) {
    } else if stale {
      LateParsing(l, l.late + bytes);
    } else {
      ParseInv(l, l.late + bytes);
      StaysSound(l, l.late + bytes);
      if Parse(l, l.late + bytes).Some? { ParseTakes(l, l.late + bytes); }
    }
  }

  /** Once all has come, in a buffer that is not too long, nothing is left for a limit to complain about. */
  lemma {:induction false} AllComesBack(l: Leased, bytes: seq<Byte>)
    requires Inv(l) && l.got + l.late + bytes == RepliesBytes(l.due) && !TooMuch(l, bytes)
    ensures Sound(l.s) && Read(l, bytes, false).Some?
  {
    hide Parsing;
    hide Parse;
    hide RepliesBytes;
    Regrouped(l.got, l.late, bytes);
    StaysSound(l, l.late + bytes);
    AllParsed(l, l.late + bytes);
  }

  lemma {:induction false} Regrouped(a: seq<Byte>, b: seq<Byte>, c: seq<Byte>)
    ensures a + (b + c) == a + b + c && a + b + c + [] == a + b + c
  {
  }

  lemma {:induction false} StaysSound(l: Leased, more: seq<Byte>)
    requires Parsing(l)
    ensures Sound(l.s) && Sound(Fed(l.s, more))
  {
  }

  lemma {:induction false} LateParsing(l: Leased, late: seq<Byte>)
    ensures Parsing(l) ==> Parsing(l.(late := late)) && Sound(l.s)
  {
  }

  lemma {:induction false} ParseTakes(l: Leased, more: seq<Byte>)
    requires Sound(l.s) && Parse(l, more).Some?
    ensures var l1 := Parse(l, more).value; l1.got == l.got + more && l1.late == [] && l1.due == l.due && l1.wire == l.wire
  {
    hide Run;
  }

  /** A line without an end in sight, in a buffer with more than 65536 bytes in it, read or not. */
  predicate LongLine(s: Redis)
    requires Sound(s)
  {
    var u := R.Unread(s.c);
    && s.rNum > 0 && |s.c.buf| > R.MAX_INLINE_SIZE && R.FindCr(u) == None
    && (s.c.multi == 0 || (s.c.bulk == 0 && u != [] && u[0] == DOLLAR))
  }

  lemma {:induction false} StuckOnLongLine(s: Redis)
    requires Sound(s)
    ensures Step(s) == Wrong(R.TooBig) <==> LongLine(s)
  {
    hide LineTaken;
    hide UnknownTaken;
    hide Parsed;
  }

  lemma {:induction false} ParseFailsExactly(l: Leased, more: seq<Byte>)
    requires Parsing(l) && l.got + more <= RepliesBytes(l.due)
    ensures var r := Run0(Fed(l.s, more));
            r.Done? && Sound(r.s) && |r.s.c.buf| <= |l.s.c.buf| + |more| && (Parse(l, more) == None <==> LongLine(r.s))
  {
    hide Run;
    hide Run0;
    hide Step;
    hide LongLine;
    var x := Fed(l.s, more);
    ParseInv(l, more);
    RunIsRun0(x);
    Run0More(x, []);
    StuckOnLongLine(Run0(x).s);
    hide Parsing;
  }

  /** A read fails exactly if it makes the buffer too long, or it is looked at and, where the parser then has to
      wait, such a line is in front; never while at most 65536 bytes are in the buffer. */
  lemma {:induction false} ReadFailsExactly(l: Leased, bytes: seq<Byte>, stale: bool)
    requires Inv(l) && l.got + l.late + bytes <= RepliesBytes(l.due)
    ensures var r := Run0(Fed(l.s, l.late + bytes));
            r.Done? && Sound(r.s) && (Read(l, bytes, stale) == None <==> TooMuch(l, bytes) || (!stale && LongLine(r.s)))
    ensures Read(l, bytes, stale) == None ==> |l.s.c.buf| + |l.late| + |bytes| > R.MAX_INLINE_SIZE
  {
    hide Run0;
    hide RepliesBytes;
    hide Parsing;
    hide Parse;
    hide LongLine;
    Regrouped(l.got, l.late, bytes);
    StaysSound(l, l.late + bytes);
    ParseFailsExactly(l, l.late + bytes);
    var r := Run0(Fed(l.s, l.late + bytes));
    if LongLine(r.s) { LongIsLong(r.s); }
  }

  lemma {:induction false} LongIsLong(s: Redis)
    requires Sound(s) && LongLine(s)
    ensures |s.c.buf| > R.MAX_INLINE_SIZE
  {
  }

  lemma {:induction false} StreamRegular(l: Leased, bytes: seq<Byte>)
    requires Parsing(l) && l.got + bytes <= RepliesBytes(l.due)
    ensures Sound(Fed(l.s, bytes)) && RegularAll(Fed(l.s, bytes))
  {
    hide Run0;
    hide RegularAll;
    var all := RepliesBytes(l.due);
    var tail := all[|l.got + bytes|..];
    assert (l.got + bytes) + tail == all;
    var v, w := Virtual(l.due, l.got), Virtual(l.due, l.got + bytes);
    AllRegular(Virtual(l.due, all), l.due);
    assert Fed(w, tail) == Virtual(l.due, all);
    RegularSplit(w, tail);
    assert Fed(v, bytes) == w;
    RegularSplit(v, bytes);
    var t := Run0(v).s;
    UnreadFed(t.c, bytes);
    UnreadFed(l.s.c, bytes);
    RegularAllAlike(Fed(t, bytes), Fed(l.s, bytes));
  }

  /** The hand-over moves buffers, and nothing else. */
  lemma {:induction false} HandKeeps(l: Leased, s1: Redis, bytes: seq<Byte>)
    requires Sound(l.s) && Sound(s1) && Copied(Fed(l.s, bytes).c, s1.c)
    requires l.wire + Flat(l.queue) + Flat(l.s.c.cmds) + R.Unread(l.s.c) == l.got
    ensures Sound(Hand(s1)) && AtEnd(Hand(s1).c) && Hand(s1).c.rpos == 0 && Alike(s1, Hand(s1)) && (s1.rNum == 0 ==> Hand(s1).c.cmds == [])
    ensures l.wire + Flat(l.queue + Given(s1)) + Flat(Hand(s1).c.cmds) + R.Unread(Hand(s1).c) == l.got + bytes
  {
    UnreadFed(l.s.c, bytes);
    assert s1.c.cmds == Given(s1) + Hand(s1).c.cmds;
    FlatAppend(Given(s1), Hand(s1).c.cmds);
    FlatAppend(l.queue, Given(s1));
    assert R.Unread(Hand(s1).c) == R.Unread(s1.c);
    Pieces(l.wire, Flat(l.queue), Flat(Given(s1)), Flat(Hand(s1).c.cmds), R.Unread(s1.c));
    Tail(l.wire + Flat(l.queue), Flat(l.s.c.cmds), R.Unread(l.s.c), bytes);
  }

  lemma {:induction false} Pieces(a: seq<Byte>, b: seq<Byte>, c: seq<Byte>, d: seq<Byte>, e: seq<Byte>)
    ensures a + (b + c) + d + e == (a + b) + ((c + d) + e)
  {
    assert a + (b + c) == (a + b) + c;
    assert ((a + b) + c) + d == (a + b) + (c + d);
    assert ((a + b) + (c + d)) + e == (a + b) + ((c + d) + e);
  }

  lemma {:induction false} Tail(a: seq<Byte>, b: seq<Byte>, c: seq<Byte>, d: seq<Byte>)
    ensures a + (b + (c + d)) == (a + b + c) + d
  {
    assert (a + b + c) + d == (a + b) + (c + d);
    assert (a + b) + (c + d) == a + (b + (c + d));
  }

  lemma {:induction false} SendInv(l: Leased, sends: seq<SendResult>)
    requires Inv(l)
    ensures Inv(Send(l, sends))
  {
    hide Run0;
    hide Drained;
    hide Flat;
    var r := Drained(l.queue, sends, []);
    DrainConserves(l.queue, sends, []);
    assert [] + Flat(l.queue) == Flat(l.queue);
    assert (l.wire + r.wire) + Flat(r.queue) == l.wire + (r.wire + Flat(r.queue));
  }

  // ---------------------------------------------------------------- runs

  datatype Event =
    | Forwarded(replies: seq<Reply>)  // readC has forwarded so many commands, and redis will answer this
    | Arrived(bytes: seq<Byte>, stale: bool) // readR
    | Writable(sends: seq<SendResult>) // writeC

  /** Redis answers the commands it has been sent, one good reply each, in order, and nothing else. */
  predicate Possible(l: Leased, e: Event) {
    match e
    case Forwarded(replies) => AllGood(replies)
    case Arrived(bytes, _) => bytes != [] && l.got + l.late + bytes <= RepliesBytes(l.due)
    case Writable(_) => true
  }

  ghost function After(l: Leased, e: Event): Option<Leased>
    requires Inv(l)
  {
    if !Possible(l, e) then None
    else match e
      case Forwarded(replies) => Some(Forward(l, replies))
      case Arrived(bytes, stale) => Read(l, bytes, stale)
      case Writable(sends) => Some(Send(l, sends))
  }

  lemma {:induction false} AfterInv(l: Leased, e: Event)
    requires Inv(l) && After(l, e).Some?
    ensures Inv(After(l, e).value)
  {
    hide Inv;
    match e
    case Forwarded(replies) => ForwardInv(l, replies);
    case Arrived(bytes, stale) => ReadInv(l, bytes, stale);
    case Writable(sends) => SendInv(l, sends);
  }

  /** The state after a run; None if an event cannot happen, or a size limit is hit. */
  ghost function AfterAll(l: Leased, es: seq<Event>): (r: Option<Leased>)
    requires Inv(l)
    ensures r.Some? ==> Inv(r.value)
    decreases |es|
  {
    if es == [] then Some(l)
    else
      match After(l, es[0])
      case None => None
      case Some(l1) => AfterInv(l, es[0]); AfterAll(l1, es[1..])
  }

  /** A lease from its start. */
  ghost function RunFrom(es: seq<Event>): Option<Leased> {
    FreshInv();
    AfterAll(FRESH, es)
  }

  function Arrivals(es: seq<Event>): seq<Byte> {
    if es == [] then [] else (match es[0] case Arrived(bytes, _) => bytes case _ => []) + Arrivals(es[1..])
  }

  lemma {:induction false} ArrivedAll(l: Leased, es: seq<Event>)
    requires Inv(l) && AfterAll(l, es).Some?
    ensures var l1 := AfterAll(l, es).value; l1.got + l1.late == l.got + l.late + Arrivals(es)
    decreases |es|
  {
    hide Inv;
    hide Possible;
    if es == [] {
      assert Arrivals(es) == [];
    } else {
      var l1 := After(l, es[0]).value;
      ArrivedOnce(l, es[0]);
      AfterInv(l, es[0]);
      ArrivedAll(l1, es[1..]);
      var first: seq<Byte> := match es[0] case Arrived(bytes, _) => bytes case _ => [];
      assert (l.got + l.late) + (first + Arrivals(es[1..])) == ((l.got + l.late) + first) + Arrivals(es[1..]);
    }
  }

  lemma {:induction false} ArrivedOnce(l: Leased, e: Event)
    requires Inv(l) && After(l, e).Some?
    ensures var l1 := After(l, e).value; l1.got + l1.late == l.got + l.late + (match e case Arrived(bytes, _) => bytes case _ => [])
  {
    hide Run;
    hide Run0;
    hide RepliesBytes;
    if e.Arrived? {
      Regrouped(l.got, l.late, e.bytes);
    } else {
      Regrouped(l.got, l.late, []);
    }
  }

  /** For any interleaving of forwarding, reading and sending, and any cut of the replies into reads: rNum is the
      number of commands forwarded less the number of whole replies that the parser has been given; what is on the
      client's socket is a beginning of the replies, byte for byte and in order, and with what is on its way it is
      all that has arrived; and once nothing is owed, all replies are on the socket or queued for it. */
  lemma {:induction false} ReplyEndToEnd(es: seq<Event>)
    requires RunFrom(es).Some?
    ensures var l := RunFrom(es).value;
            && l.got + l.late == Arrivals(es) && l.s.rNum == |l.due| - Whole(l.due, l.got)
            && l.got + l.late <= RepliesBytes(l.due) && l.wire <= RepliesBytes(l.due)
            && Sound(l.s) && l.wire + Flat(l.queue) + Flat(l.s.c.cmds) + R.Unread(l.s.c) == l.got
            && (l.s.rNum == 0 <==> l.got == RepliesBytes(l.due))
            && (l.s.rNum == 0 ==> l.late == [] && l.wire + Flat(l.queue) == RepliesBytes(l.due))
  {
    FreshInv();
    var l := AfterAll(FRESH, es).value;
    ArrivedAll(FRESH, es);
    assert FRESH.got + FRESH.late + Arrivals(es) == Arrivals(es);
    Accounting(l);
    hide Run0;
    hide Whole;
    assert l.got <= RepliesBytes(l.due);
    Beginning(l.wire, Flat(l.queue), Flat(l.s.c.cmds), R.Unread(l.s.c), RepliesBytes(l.due));
    if l.s.rNum == 0 {
      assert Flat(l.s.c.cmds) == [];
      assert l.wire + Flat(l.queue) + [] + [] == l.wire + Flat(l.queue);
    }
  }

  /** After a read that does not fail, rNum is the number of commands forwarded less the number of whole replies that
      have arrived, exactly if errno was not left at EAGAIN, or no reply has been completed since it was not. */
  lemma {:induction false} CountedUnlessStale(l: Leased, bytes: seq<Byte>, stale: bool)
    requires Inv(l) && Possible(l, Arrived(bytes, stale)) && Read(l, bytes, stale).Some?
    ensures var l1, came := Read(l, bytes, stale).value, l.got + l.late + bytes;
            l1.s.rNum == |l1.due| - Whole(l1.due, came) <==> !stale || Whole(l1.due, came) == Whole(l1.due, l.got)
  {
    hide Run;
    hide Run0;
    hide Parsing;
    hide Parse;
    hide Whole;
    hide RepliesBytes;
    ReadInv(l, bytes, stale);
    StaysSound(l, l.late + bytes);
    Regrouped(l.got, l.late, bytes);
    var l1 := Read(l, bytes, stale).value;
    Accounting(l1);
    if !stale {
      ParseTakes(l, l.late + bytes);
    }
  }

  /** A read that is looked at hands over all but at most the last buffer, behind what was queued before; and once
      nothing is owed, that one too. */
  lemma {:induction false} ReadHandsOver(l: Leased, bytes: seq<Byte>)
    requires Inv(l) && Possible(l, Arrived(bytes, false)) && Read(l, bytes, false).Some?
    ensures var l1 := Read(l, bytes, false).value;
            && l1.late == [] && l.queue <= l1.queue && |l1.s.c.cmds| <= 1 && (l1.s.rNum == 0 ==> l1.s.c.cmds == [])
            && l1.wire + Flat(l1.queue) + Flat(l1.s.c.cmds) + R.Unread(l1.s.c) == l.got + l.late + bytes
  {
    hide Run;
    hide Run0;
    hide RepliesBytes;
    hide Alike;
    Regrouped(l.got, l.late, bytes);
    ReadInv(l, bytes, false);
    StaysSound(l, l.late + bytes);
    ParseTakes(l, l.late + bytes);
  }

  /** writeC: the client's socket gets what the sends take of the queue, and the rest stays queued. */
  lemma {:induction false} SendDoes(l: Leased, sends: seq<SendResult>) returns (m: nat)
    ensures m <= |sends| && (forall k :: 0 <= k < m ==> Made(l.queue, sends, k)) && !Made(l.queue, sends, m)
    ensures var l1, t := Send(l, sends), Accepted(l.queue, sends, m);
            && t <= |Flat(l.queue)| && l1.wire == l.wire + Flat(l.queue)[..t] && l1.queue == Rest(l.queue, t)
            && l1.s == l.s && l1.due == l.due && l1.got == l.got && l1.late == l.late
  {
    m := DrainedExactly(l.queue, sends);
    hide Drained;
    hide Made;
  }

  lemma {:induction false} Beginning(a: seq<Byte>, b: seq<Byte>, c: seq<Byte>, d: seq<Byte>, all: seq<Byte>)
    requires a + b + c + d <= all
    ensures a <= all
  {
    assert a == (a + b + c + d)[..|a|];
  }

  /** Nothing can be read from a connection on which nothing was asked. */
  lemma {:induction false} SilentUntilAsked(l: Leased, bytes: seq<Byte>, stale: bool)
    requires l.due == []
    ensures !Possible(l, Arrived(bytes, stale))
  {
  }

  /** For instance a status line of more than 65536 characters, read without its CRLF. */
  lemma {:induction false} LongStatus(text: seq<Byte>)
    requires GoodLine(text) && |text| > R.MAX_INLINE_SIZE
    ensures var l := Forward(FRESH, [Line(text)]);
            Inv(l) && Possible(l, Arrived(text, false)) && Read(l, text, false) == None
  {
    var r := Line(text);
    FreshInv();
    assert AllGood([r]) && [r][1..] == [];
    ForwardInv(FRESH, [r]);
    var l := Forward(FRESH, [r]);
    assert RepliesBytes([r]) == (text + R.CRLF) + [];
    assert text <= RepliesBytes(l.due) && [] + text == text && [] + [] + text == text;
    NoCr(text);
    UnreadFed(l.s.c, text);
    assert Step(Fed(l.s, text)) == Wrong(R.TooBig);
  }

  lemma {:induction false} NoCr(text: seq<Byte>)
    requires Plain(text)
    ensures R.FindCr(text) == None
    decreases |text|
  {
    if text != [] { NoCr(text[1..]); }
  }

  // ---------------------------------------------------------------- in place

  /** The way of one read in readR (server.c:383-407): baseRead, processRedis, mvArrayBuff, srangeBuff; or baseRead
      alone, if errno is still EAGAIN. */
  method ReadReplies(r: RedisParser.Connection, middle: BufferArray, bytes: seq<Byte>, stale: bool, ghost l: Leased) returns (ok: bool)
    requires r.Valid() && middle.Valid() && middle != r.c.cmds && middle.buff != r.c.cmds.buff
    requires |bytes| <= PER_IOBUF_SIZE && (r.c.cmds.pendding ==> r.rNum > 0)
    requires Sound(l.s) && r.Abs() == Fed(l.s, l.late) && middle.Queue() == l.queue
    modifies r`rNum, r.c, r.c.cmd, r.c.cmd.buf, r.c.cmds, r.c.cmds.buff, middle, middle.buff
    ensures match Read(l, bytes, stale)
            case None => !ok
            case Some(l1) =>
              && ok && r.Valid() && middle.Valid() && (r.c.cmds.pendding ==> r.rNum > 0)
              && r.Abs() == Fed(l1.s, l1.late) && middle.Queue() == l1.queue
  {
    hide Run;
    FedTwice(l.s, l.late, bytes);
    if r.c.cmd.wpos + |bytes| >= MAX_QUERY_SIZE {
      return false;
    }
    r.c.cmd.Receive(bytes);
    assert r.Abs() == Fed(l.s, l.late + bytes);
    if stale { // kept: server.c:389 looks at the errno of an earlier call
      return true;
    }
    ok := ParseReplies(r, middle);
  }

  lemma {:induction false} FedTwice(s: Redis, a: seq<Byte>, b: seq<Byte>)
    ensures Fed(Fed(s, a), b) == Fed(s, a + b) && Fed(s, []) == s
  {
    assert (s.c.buf + a) + b == s.c.buf + (a + b);
  }

  method ParseReplies(r: RedisParser.Connection, middle: BufferArray) returns (ok: bool)
    requires r.Valid() && middle.Valid() && middle != r.c.cmds && middle.buff != r.c.cmds.buff
    requires r.c.cmds.pendding ==> r.rNum > 0
    modifies r`rNum, r.c, r.c.cmd, r.c.cmd.buf, r.c.cmds, r.c.cmds.buff, middle, middle.buff
    ensures match Run(old(r.Abs()))
            case Failed(_) => !ok
            case Done(s1) =>
              && ok && r.Valid() && middle.Valid() && Sound(s1) && (r.c.cmds.pendding ==> r.rNum > 0)
              && r.Abs() == Fed(Hand(s1), []) && middle.Queue() == old(middle.Queue()) + Given(s1)
  {
    hide Run;
    var e := r.ProcessRedis();
    if e == None {
      HandReplies(r, middle);
      FedTwice(r.Abs(), [], []);
    }
    return e == None;
  }

  method HandReplies(r: RedisParser.Connection, middle: BufferArray)
    requires r.Valid() && middle.Valid() && middle != r.c.cmds && middle.buff != r.c.cmds.buff
    requires r.c.cmds.pendding == (r.rNum > 0)
    modifies r.c`cmdNum, r.c.cmd, r.c.cmd.buf, r.c.cmds, r.c.cmds.buff, middle, middle.buff
    ensures r.Valid() && middle.Valid() && r.c.cmds.pendding == (r.rNum > 0)
    ensures r.Abs() == Hand(old(r.Abs())) && middle.Queue() == old(middle.Queue()) + Given(old(r.Abs()))
  {
    MoveReplies(r, middle);
    TidyReplies(r);
  }

  method MoveReplies(r: RedisParser.Connection, middle: BufferArray)
    requires r.Valid() && middle.Valid() && middle != r.c.cmds && middle.buff != r.c.cmds.buff
    requires r.c.cmds.pendding == (r.rNum > 0)
    modifies r.c`cmdNum, r.c.cmds, r.c.cmds.buff, middle, middle.buff
    ensures r.Valid() && middle.Valid() && r.c.cmds.pendding == (r.rNum > 0)
    ensures var s := old(r.Abs());
            r.Abs() == s.(c := s.c.(cmds := s.c.cmds[Complete(|s.c.cmds|, s.rNum > 0)..], cmdNum := 0))
    ensures middle.Queue() == old(middle.Queue()) + Given(old(r.Abs()))
  {
    var moved := MvArrayBuff(middle, r.c.cmds);
    r.c.cmdNum := 0;
  }

  method TidyReplies(r: RedisParser.Connection)
    requires r.Valid()
    modifies r.c.cmd, r.c.cmd.buf
    ensures r.Valid() && r.Abs() == old(r.Abs()).(c := old(r.Abs()).c.(buf := R.Unread(old(r.Abs()).c), rpos := 0))
  {
    ghost var s := r.Abs();
    assert r.c.cmd.Text()[r.c.cmd.rpos..] == r.c.cmd.Unread() == R.Unread(s.c);
    hide R.Unread;
    r.c.cmd.SRange(r.c.cmd.rpos);
    assert r.c.cmds.Queue() == s.c.cmds;
    assert r.c.cmd.Text() == R.Unread(s.c);
  }
}
