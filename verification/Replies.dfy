/** The redis side of src/proto/multibulk.c (processRedis, and processCmds for a reply): counting replies, and
    copying them for the client.

    The formats are those of the Redis serialization protocol: lines ('+', '-', ':'), bulk strings, and arrays
    of bulk strings. */
module Replies {
  import opened Wrappers
  import opened Decimal
  import opened Buffers
  import opened Resp
  import opened RespMeaning

  const PLUS: Byte := 43
  const COLON: Byte := 58

  /** The error that processRedis puts in front of a line it does not know: "-the protocol error,
      unexpected line". */
  const UNEXPECTED: seq<Byte> := [
    45, 116, 104, 101, 32, 112, 114, 111, 116, 111, 99, 111, 108, 32, 101, 114, 114, 111, 114, 44, 32,
    117, 110, 101, 120, 112, 101, 99, 116, 101, 100, 32, 108, 105, 110, 101]

  /** A redis connection: the same parser state as a client's, and the replies it still owes. */
  datatype Redis = Redis(c: Client, rNum: nat)

  datatype Turn = Wait | Go(s: Redis) | Wrong(e: Error)

  predicate Sound(s: Redis) { s.c.rpos <= |s.c.buf| }

  // ---------------------------------------------------------------- one turn

  /** A line of i characters and what ends it, on its way to the buffer. */
  function LineTaken(c: Client, i: nat): Client
    requires c.rpos + i + 2 <= |c.buf|
  {
    Added(c.(rpos := c.rpos + i + 2), c.buf[c.rpos..c.rpos + i] + CRLF)
  }

  /** The same, after the error text for a line of an unknown type (addReplyCmd also counts a command). */
  function UnknownTaken(c: Client, i: nat): Client
    requires c.rpos + i + 2 <= |c.buf|
  {
    LineTaken(Added(c, UNEXPECTED + CRLF).(cmdNum := c.cmdNum + 1), i)
  }

  /** The end of processCmds: the reply is complete and its bytes leave the read buffer. */
  function ReplyTaken(c: Client): Client
    requires c.rpos <= |c.buf|
  {
    c.(argc := 0, cmdNum := c.cmdNum + 1, buf := Unread(c), rpos := 0, args := [])
  }

  /** One reply less, if this was its end. */
  function Counted(s: Redis, c: Client): Redis
    requires c.rpos <= |c.buf| && s.rNum > 0
  {
    if c.multi == 0 then Redis(ReplyTaken(c), s.rNum - 1) else s.(c := c)
  }

  /** The first line of a reply. */
  function ReadLine(s: Redis): (t: Turn)
    requires Sound(s) && s.rNum > 0 && s.c.multi == 0
  {
    var u := Unread(s.c);
    match FindCr(u)
    case None => if |s.c.buf| > MAX_INLINE_SIZE then Wrong(TooBig) else Wait
    case Some(i) => if i + 1 == |u| then Wait else WholeLine(s, i) // repaired: multibulk.c:191 moves rpos behind the data
  }

  /** The switch on the type of a first line of i characters. */
  function WholeLine(s: Redis, i: nat): (t: Turn)
    requires Sound(s) && s.rNum > 0 && i + 2 <= |Unread(s.c)|
  {
    var c, u := s.c, Unread(s.c);
    if u[0] == DOLLAR then Go(s.(c := c.(multi := 1)))
    else if i > 0 && (u[0] == STAR || u[0] == COLON) then
      if Parsed(u[1..i]) == None then Wrong(Protocol)
      else if u[0] == STAR && Parsed(u[1..i]).value > 0 then Go(s.(c := LineTaken(c, i).(multi := Parsed(u[1..i]).value)))
      else Go(Redis(LineTaken(c, i), s.rNum - 1))
    else if u[0] == PLUS || u[0] == MINUS then Go(Redis(LineTaken(c, i), s.rNum - 1))
    else Go(Redis(UnknownTaken(c, i), s.rNum - 1))
  }

  /** A null bulk string: only its header. */
  function NullTaken(c: Client, len: nat): Client
    requires c.rpos + len + 3 <= |c.buf| && c.multi > 0
  {
    HeaderTaken(c, len).(multi := c.multi - 1, argc := c.argc + 1)
  }

  /** An empty bulk string: its header and CRLF. */
  function EmptyTaken(c: Client, len: nat): Client
    requires c.rpos + len + 5 <= |c.buf| && c.multi > 0
  {
    Added(HeaderTaken(c, len).(rpos := c.rpos + len + 5), CRLF).(multi := c.multi - 1, argc := c.argc + 1)
  }

  /** The header of an element. */
  function ReadElement(s: Redis): (t: Turn)
    requires Sound(s) && s.rNum > 0 && s.c.multi > 0
  {
    var c, u := s.c, Unread(s.c);
    if u == [] then Wait // repaired: multibulk.c:68 reads past the data
    else if u[0] != DOLLAR then Wrong(Protocol)
    else match ReadNumber(u, |c.buf|)
      case NeedMore => Wait
      case Bad(e) => Wrong(e)
      case Number(v, len) => WithHeader(s, v, len)
  }

  /** What a header in front means. */
  function WithHeader(s: Redis, v: int, len: nat): (t: Turn)
    requires Sound(s) && s.rNum > 0 && s.c.multi > 0 && len + 3 <= |Unread(s.c)|
  {
    var c, u := s.c, Unread(s.c);
    if v > 0 then Go(s.(c := DollarTaken(c, v, len)))
    else if v < 0 then Go(Counted(s, NullTaken(c, len)))
    else if |u| < len + 5 then Wait // repaired: multibulk.c:86-94 leaves the CRLF of an empty bulk string unread
    else if u[len + 3] != CR || u[len + 4] != LF then Wrong(Protocol)
    else Go(Counted(s, EmptyTaken(c, len)))
  }

  function ReadBody(s: Redis): Turn
    requires Sound(s) && s.rNum > 0 && s.c.multi > 0
  {
    var c, u := s.c, Unread(s.c);
    if |u| < c.bulk + 2 then Wait
    else if u[c.bulk] != CR || u[c.bulk + 1] != LF then Wrong(Protocol)
    else Go(Counted(s, BulkTaken(c)))
  }

  function Step(s: Redis): Turn
    requires Sound(s)
  {
    if s.rNum == 0 then Wait
    else if s.c.multi == 0 then ReadLine(s)
    else if s.c.bulk == 0 then ReadElement(s)
    else ReadBody(s)
  }

  lemma {:induction false} HeaderMoves(c: Client, len: nat)
    requires c.rpos + len + 3 <= |c.buf|
    ensures var c1 := HeaderTaken(c, len);
            c1.rpos == c.rpos + len + 3 && c1.buf == c.buf && c1.multi == c.multi && c1.bulk == c.bulk
  {
  }

  lemma {:induction false} LineMoves(c: Client, i: nat)
    requires c.rpos + i + 2 <= |c.buf|
    ensures var c1 := LineTaken(c, i); c1.rpos == c.rpos + i + 2 && c1.buf == c.buf && c1.multi == c.multi
    ensures var c1 := UnknownTaken(c, i); c1.rpos == c.rpos + i + 2 && c1.buf == c.buf && c1.multi == c.multi
  {
  }

  lemma {:induction false} CountedMoves(s: Redis, c: Client)
    requires c.rpos <= |c.buf| && s.rNum > 0
    ensures var s1 := Counted(s, c);
            && Sound(s1) && Unread(s1.c) == Unread(c) && |s1.c.buf| <= |c.buf|
            && s1.rNum == if c.multi == 0 then s.rNum - 1 else s.rNum
  {
  }

  /** A turn consumes something, or at least settles what kind of reply it is. */
  ghost predicate Forward(s: Redis, s1: Redis)
    requires Sound(s)
  {
    && Sound(s1) && s1.rNum <= s.rNum && |s1.c.buf| <= |s.c.buf|
    && (|Unread(s1.c)| < |Unread(s.c)| || (Unread(s1.c) == Unread(s.c) && s.c.multi == 0 && s1.c.multi > 0))
  }

  lemma {:induction false} LineConsumes(s: Redis)
    requires Sound(s) && s.rNum > 0 && s.c.multi == 0 && ReadLine(s).Go?
    ensures Forward(s, ReadLine(s).s)
  {
    hide LineTaken;
    hide UnknownTaken;
    var i := FindCr(Unread(s.c)).value;
    LineMoves(s.c, i);
  }

  lemma {:induction false} ElementConsumes(s: Redis)
    requires Sound(s) && s.rNum > 0 && s.c.multi > 0 && ReadElement(s).Go?
    ensures Forward(s, ReadElement(s).s)
  {
    hide HeaderTaken;
    hide Counted;
    hide ReadNumber;
    var c, r := s.c, ReadNumber(Unread(s.c), |s.c.buf|);
    HeaderMoves(c, r.len);
    if r.v < 0 { CountedMoves(s, NullTaken(c, r.len)); }
    if r.v == 0 { CountedMoves(s, EmptyTaken(c, r.len)); }
  }

  lemma {:induction false} BodyConsumes(s: Redis)
    requires Sound(s) && s.rNum > 0 && s.c.multi > 0 && ReadBody(s).Go?
    ensures Forward(s, ReadBody(s).s)
  {
    hide Counted;
    CountedMoves(s, BulkTaken(s.c));
  }

  lemma {:induction false} StepConsumes(s: Redis)
    requires Sound(s)
    ensures Step(s).Go? ==> Forward(s, Step(s).s)
  {
    hide ReadLine;
    hide ReadElement;
    hide ReadBody;
    if Step(s).Go? {
      if s.c.multi == 0 { LineConsumes(s); } else if s.c.bulk == 0 { ElementConsumes(s); } else { BodyConsumes(s); }
    }
  }

  datatype Outcome = Done(s: Redis) | Failed(e: Error)

  /** processRedis. */
  function Run(s: Redis): Outcome
    requires Sound(s)
    decreases |Unread(s.c)|, if s.c.multi == 0 then 1 else 0
  {
    StepConsumes(s);
    match Step(s)
    case Wait => Done(s)
    case Wrong(e) => Failed(e)
    case Go(s1) => Run(s1)
  }

  /** A turn that waits for the end of a line, however long. */
  function Step0(s: Redis): Turn
    requires Sound(s)
  {
    if Step(s) == Wrong(TooBig) then Wait else Step(s)
  }

  /** processRedis but for its size limit. */
  function Run0(s: Redis): Outcome
    requires Sound(s)
    decreases |Unread(s.c)|, if s.c.multi == 0 then 1 else 0
  {
    StepConsumes(s);
    match Step0(s)
    case Wait => Done(s)
    case Wrong(e) => Failed(e)
    case Go(s1) => Run0(s1)
  }

  // ---------------------------------------------------------------- pieces

  function Fed(s: Redis, t: seq<Byte>): Redis { s.(c := Feed(s.c, t)) }

  lemma {:induction false} UnreadFed(c: Client, t: seq<Byte>)
    requires c.rpos <= |c.buf|
    ensures Unread(Feed(c, t)) == Unread(c) + t
  {
  }

  lemma {:induction false} LineMore(c: Client, t: seq<Byte>, i: nat)
    requires c.rpos + i + 2 <= |c.buf|
    ensures LineTaken(Feed(c, t), i) == Feed(LineTaken(c, i), t)
    ensures UnknownTaken(Feed(c, t), i) == Feed(UnknownTaken(c, i), t)
  {
    assert (c.buf + t)[c.rpos..c.rpos + i] == c.buf[c.rpos..c.rpos + i];
  }

  lemma {:induction false} CountedMore(s: Redis, c: Client, t: seq<Byte>)
    requires c.rpos <= |c.buf| && s.rNum > 0
    ensures Counted(Fed(s, t), Feed(c, t)) == Fed(Counted(s, c), t)
  {
    UnreadFed(c, t);
  }

  lemma {:induction false} ReadLineMore(s: Redis, t: seq<Byte>)
    requires Sound(s) && s.rNum > 0 && s.c.multi == 0
    ensures ReadLine(s).Go? ==> ReadLine(Fed(s, t)) == Go(Fed(ReadLine(s).s, t))
    ensures ReadLine(s) == Wrong(Protocol) ==> ReadLine(Fed(s, t)) == Wrong(Protocol)
  {
    hide WholeLine;
    hide FindCr;
    var u := Unread(s.c);
    UnreadFed(s.c, t);
    if FindCr(u).Some? && FindCr(u).value + 1 < |u| {
      FindCrMore(u, t);
      WholeLineMore(s, t, FindCr(u).value);
    }
  }

  lemma {:induction false} WholeLineMore(s: Redis, t: seq<Byte>, i: nat)
    requires Sound(s) && s.rNum > 0 && i + 2 <= |Unread(s.c)|
    ensures WholeLine(s, i).Go? ==> WholeLine(Fed(s, t), i) == Go(Fed(WholeLine(s, i).s, t))
    ensures WholeLine(s, i) == Wrong(Protocol) ==> WholeLine(Fed(s, t), i) == Wrong(Protocol)
  {
    hide LineTaken;
    hide UnknownTaken;
    hide Parsed;
    var u := Unread(s.c);
    UnreadFed(s.c, t);
    LineMore(s.c, t, i);
    assert (u + t)[0] == u[0];
    assert i > 0 ==> (u + t)[1..i] == u[1..i];
  }

  lemma {:induction false} ReadBodyMore(s: Redis, t: seq<Byte>)
    requires Sound(s) && s.rNum > 0 && s.c.multi > 0
    ensures ReadBody(s).Go? ==> ReadBody(Fed(s, t)) == Go(Fed(ReadBody(s).s, t))
    ensures ReadBody(s) == Wrong(Protocol) ==> ReadBody(Fed(s, t)) == Wrong(Protocol)
  {
    hide Counted;
    var c, u := s.c, Unread(s.c);
    UnreadFed(c, t);
    if |u| >= c.bulk + 2 {
      assert (u + t)[..c.bulk] == u[..c.bulk];
      assert BulkTaken(Feed(c, t)) == Feed(BulkTaken(c), t);
      CountedMore(s, BulkTaken(c), t);
    }
  }

  lemma {:induction false} ReadElementMore(s: Redis, t: seq<Byte>)
    requires Sound(s) && s.rNum > 0 && s.c.multi > 0
    ensures ReadElement(s).Go? ==> ReadElement(Fed(s, t)) == Go(Fed(ReadElement(s).s, t))
    ensures ReadElement(s) == Wrong(Protocol) ==> ReadElement(Fed(s, t)) == Wrong(Protocol)
  {
    hide ReadNumber;
    hide WithHeader;
    var c, u := s.c, Unread(s.c);
    UnreadFed(c, t);
    if u != [] {
      assert (u + t)[0] == u[0] == c.buf[c.rpos];
      if u[0] == DOLLAR {
        NumberMore(c, t);
        var r := ReadNumber(u, |c.buf|);
        if r.Number? { WithHeaderMore(s, t, r.v, r.len); }
      }
    }
  }

  lemma {:induction false} WithHeaderMore(s: Redis, t: seq<Byte>, v: int, len: nat)
    requires Sound(s) && s.rNum > 0 && s.c.multi > 0 && len + 3 <= |Unread(s.c)|
    ensures WithHeader(s, v, len).Go? ==> WithHeader(Fed(s, t), v, len) == Go(Fed(WithHeader(s, v, len).s, t))
    ensures WithHeader(s, v, len) == Wrong(Protocol) ==> WithHeader(Fed(s, t), v, len) == Wrong(Protocol)
  {
    hide Counted;
    hide HeaderTaken;
    var c := s.c;
    UnreadFed(c, t);
    HeaderMore(c, t, len);
    HeaderMoves(c, len);
    if v < 0 {
      CountedMore(s, NullTaken(c, len), t);
    } else if v == 0 && |Unread(c)| >= len + 5 {
      EmptyMore(c, t, len);
      CountedMore(s, EmptyTaken(c, len), t);
    }
  }

  lemma {:induction false} EmptyMore(c: Client, t: seq<Byte>, len: nat)
    requires c.rpos + len + 5 <= |c.buf| && c.multi > 0
    ensures EmptyTaken(Feed(c, t), len) == Feed(EmptyTaken(c, len), t)
  {
    HeaderMore(c, t, len);
  }

  lemma {:induction false} StepMore(s: Redis, t: seq<Byte>)
    requires Sound(s)
    ensures Step(s).Go? ==> Step(Fed(s, t)) == Go(Fed(Step(s).s, t))
    ensures Step(s) == Wrong(Protocol) ==> Step(Fed(s, t)) == Wrong(Protocol)
  {
    hide ReadLine;
    hide ReadElement;
    hide ReadBody;
    if s.rNum > 0 {
      if s.c.multi == 0 {
        ReadLineMore(s, t);
      } else if s.c.bulk == 0 {
        ReadElementMore(s, t);
      } else {
        ReadBodyMore(s, t);
      }
    }
  }

  /** Replies too may arrive in any pieces. */
  lemma {:induction false} RunMore(s: Redis, t: seq<Byte>)
    requires Sound(s)
    ensures match Run(s)
            case Done(s1) => Sound(s1) && Run(Fed(s, t)) == Run(Fed(s1, t))
            case Failed(e) => e == Protocol ==> Run(Fed(s, t)) == Failed(Protocol)
    decreases |Unread(s.c)|, if s.c.multi == 0 then 1 else 0
  {
    hide Step;
    StepConsumes(s);
    StepMore(s, t);
    if Step(s).Go? {
      StepConsumes(Fed(s, t));
      RunMore(Step(s).s, t);
    }
  }

  // ---------------------------------------------------------------- a verbatim copy

  /** The buffer that is being filled is the last one. */
  predicate AtEnd(c: Client) { |c.cmds| <= c.cmdNum + 1 }

  /** Nothing of what was there, or has come, is lost or added. */
  ghost predicate Copied(c: Client, c1: Client)
    requires c.rpos <= |c.buf|
  {
    AtEnd(c1) && c1.rpos <= |c1.buf| && Flat(c1.cmds) + Unread(c1) == Flat(c.cmds) + Unread(c)
  }

  lemma {:induction false} FlatLonger(q: seq<seq<Byte>>, add: seq<Byte>)
    requires q != []
    ensures var k := |q| - 1; Flat(q[k := q[k] + add]) == Flat(q) + add
  {
    var k := |q| - 1;
    var q1 := q[k := q[k] + add];
    assert q1[..k] == q[..k];
    assert Flat(q[..k]) + (q[k] + add) == (Flat(q[..k]) + q[k]) + add;
  }

  lemma {:induction false} FlatMore(q: seq<seq<Byte>>, add: seq<Byte>)
    ensures Flat(q + [add]) == Flat(q) + add
  {
    assert (q + [add])[..|q|] == q;
  }

  lemma {:induction false} AddedMoves(flat: seq<Byte>, add: seq<Byte>, u: seq<Byte>, u1: seq<Byte>)
    requires |add| <= |u| && add == u[..|add|] && u1 == u[|add|..]
    ensures (flat + add) + u1 == flat + u
  {
    assert u == add + u1;
  }

  lemma {:induction false} AddedCopies(c: Client, c1: Client, n: nat, add: seq<Byte>)
    requires AtEnd(c) && c.rpos + n <= |c.buf| && c1 == Added(c.(rpos := c.rpos + n), add) && add == Unread(c)[..n]
    ensures Copied(c, c1)
  {
    hide Flat;
    if |c.cmds| <= c.cmdNum { FlatMore(c.cmds, add); } else { FlatLonger(c.cmds, add); }
    assert Unread(c1) == Unread(c)[n..];
    AddedMoves(Flat(c.cmds), add, Unread(c), Unread(c1));
  }

  lemma {:induction false} HeaderCopies(c: Client, len: nat)
    requires AtEnd(c) && c.rpos + len + 3 <= |c.buf| && Unread(c)[len + 1..len + 3] == CRLF
    ensures Copied(c, HeaderTaken(c, len))
  {
    assert c.buf[c.rpos..c.rpos + len + 1] + CRLF == Unread(c)[..len + 3];
    AddedCopies(c, HeaderTaken(c, len), len + 3, Unread(c)[..len + 3]);
  }

  lemma {:induction false} LineCopies(c: Client, i: nat)
    requires AtEnd(c) && c.rpos + i + 2 <= |c.buf| && Unread(c)[i..i + 2] == CRLF
    ensures Copied(c, LineTaken(c, i))
  {
    assert c.buf[c.rpos..c.rpos + i] + CRLF == Unread(c)[..i + 2];
    AddedCopies(c, LineTaken(c, i), i + 2, Unread(c)[..i + 2]);
  }

  lemma {:induction false} CountedCopies(s: Redis, c: Client, c1: Client)
    requires c.rpos <= |c.buf| && Copied(c, c1) && s.rNum > 0
    ensures Copied(c, Counted(s, c1).c)
  {
  }

  lemma {:induction false} EmptyCopies(c: Client, len: nat)
    requires AtEnd(c) && c.rpos + len + 5 <= |c.buf| && c.multi > 0
    requires Unread(c)[len + 1..len + 3] == CRLF && Unread(c)[len + 3..len + 5] == CRLF
    ensures Copied(c, EmptyTaken(c, len))
  {
    hide HeaderTaken;
    hide Flat;
    hide Copied;
    var c1 := HeaderTaken(c, len);
    HeaderCopies(c, len);
    HeaderMoves(c, len);
    CopiedEnd(c, c1);
    CrlfCopies(c1);
    var c2 := Added(c1.(rpos := c1.rpos + 2), CRLF);
    CopiedOn(c, c1, c2);
    CopiedEnd(c, c2);
    hide Added;
    CopiedSame(c, c2, EmptyTaken(c, len));
  }

  lemma {:induction false} CopiedEnd(c: Client, c1: Client)
    requires c.rpos <= |c.buf| && Copied(c, c1)
    ensures AtEnd(c1) && c1.rpos <= |c1.buf|
  {
  }

  lemma {:induction false} CopiedOn(c: Client, c1: Client, c2: Client)
    requires c.rpos <= |c.buf| && Copied(c, c1) && c1.rpos <= |c1.buf| && Copied(c1, c2)
    ensures Copied(c, c2)
  {
  }

  lemma {:induction false} CopiedSame(c: Client, c1: Client, c2: Client)
    requires c.rpos <= |c.buf| && Copied(c, c1)
    requires c2.cmds == c1.cmds && c2.cmdNum == c1.cmdNum && c2.buf == c1.buf && c2.rpos == c1.rpos
    ensures Copied(c, c2)
  {
  }

  lemma {:induction false} CrlfCopies(c: Client)
    requires AtEnd(c) && c.rpos + 2 <= |c.buf| && c.buf[c.rpos..c.rpos + 2] == CRLF
    ensures Copied(c, Added(c.(rpos := c.rpos + 2), CRLF)) && Copied(c, Added(c, CRLF).(rpos := c.rpos + 2))
  {
    assert Unread(c)[..2] == CRLF;
    AddedCopies(c, Added(c.(rpos := c.rpos + 2), CRLF), 2, CRLF);
  }

  /** A first line of a known type, ended properly. */
  predicate Regular(s: Redis)
    requires Sound(s)
  {
    s.rNum > 0 && s.c.multi == 0 ==>
      var u := Unread(s.c);
      match FindCr(u)
      case None => true
      case Some(i) => i + 1 < |u| ==> u[i + 1] == LF && u[0] in {PLUS, MINUS, COLON, STAR, DOLLAR}
  }

  /** So are all first lines of a run. */
  ghost predicate RegularAll(s: Redis)
    requires Sound(s)
    decreases |Unread(s.c)|, if s.c.multi == 0 then 1 else 0
  {
    StepConsumes(s);
    Regular(s) && (Step(s).Go? ==> RegularAll(Step(s).s))
  }

  lemma {:induction false} LineStepCopies(s: Redis)
    requires Sound(s) && AtEnd(s.c) && Regular(s) && s.rNum > 0 && s.c.multi == 0 && ReadLine(s).Go?
    ensures Copied(s.c, ReadLine(s).s.c)
  {
    hide LineTaken;
    hide UnknownTaken;
    var u := Unread(s.c);
    var i := FindCr(u).value;
    LineMoves(s.c, i);
    assert u[i..i + 2] == CRLF;
    LineCopies(s.c, i);
  }

  lemma {:induction false} ElementStepCopies(s: Redis)
    requires Sound(s) && AtEnd(s.c) && s.rNum > 0 && s.c.multi > 0 && ReadElement(s).Go?
    ensures Copied(s.c, ReadElement(s).s.c)
  {
    hide ReadNumber;
    hide WithHeader;
    var u := Unread(s.c);
    var r := ReadNumber(u, |s.c.buf|);
    assert u[r.len + 1..r.len + 3] == CRLF;
    WithHeaderCopies(s, r.v, r.len);
  }

  lemma {:induction false} WithHeaderCopies(s: Redis, v: int, len: nat)
    requires Sound(s) && AtEnd(s.c) && s.rNum > 0 && s.c.multi > 0 && len + 3 <= |Unread(s.c)|
    requires Unread(s.c)[len + 1..len + 3] == CRLF && WithHeader(s, v, len).Go?
    ensures Copied(s.c, WithHeader(s, v, len).s.c)
  {
    hide HeaderTaken;
    hide Counted;
    hide EmptyTaken;
    hide Flat;
    var c, u := s.c, Unread(s.c);
    HeaderMoves(c, len);
    HeaderCopies(c, len);
    if v < 0 {
      CountedCopies(s, c, NullTaken(c, len));
    } else if v == 0 {
      assert u[len + 3..len + 5] == CRLF;
      EmptyCopies(c, len);
      CountedCopies(s, c, EmptyTaken(c, len));
    }
  }

  lemma {:induction false} BodyStepCopies(s: Redis)
    requires Sound(s) && AtEnd(s.c) && s.rNum > 0 && s.c.multi > 0 && ReadBody(s).Go?
    ensures Copied(s.c, ReadBody(s).s.c)
  {
    hide Counted;
    hide Added;
    var c, u := s.c, Unread(s.c);
    assert u[..c.bulk] + CRLF == u[..c.bulk + 2];
    AddedCopies(c, Added(c.(rpos := c.rpos + (c.bulk + 2)), u[..c.bulk + 2]), c.bulk + 2, u[..c.bulk + 2]);
    CountedCopies(s, c, BulkTaken(c));
  }

  /** A turn copies what it takes, if the line is a regular one. */
  lemma {:induction false} StepCopies(s: Redis)
    requires Sound(s) && AtEnd(s.c) && Regular(s) && Step(s).Go?
    ensures Copied(s.c, Step(s).s.c)
  {
    if s.c.multi == 0 { LineStepCopies(s); } else if s.c.bulk == 0 { ElementStepCopies(s); } else { BodyStepCopies(s); }
  }

  // ---------------------------------------------------------------- what redis sends

  datatype Item = Null | Text(bytes: seq<Byte>)

  datatype Reply = Line(text: seq<Byte>) | Single(item: Item) | Multi(items: seq<Item>)

  const NULL_BULK: seq<Byte> := [DOLLAR, MINUS, 49] + CRLF

  function ItemBytes(item: Item): seq<Byte> { match item case Null => NULL_BULK case Text(b) => Bulk(b) }

  function ItemsBytes(items: seq<Item>): seq<Byte> { if items == [] then [] else ItemBytes(items[0]) + ItemsBytes(items[1..]) }

  function ReplyBytes(r: Reply): seq<Byte> {
    match r
    case Line(text) => text + CRLF
    case Single(item) => ItemBytes(item)
    case Multi(items) => [STAR] + Print(|items|) + CRLF + ItemsBytes(items)
  }

  function RepliesBytes(rs: seq<Reply>): seq<Byte> { if rs == [] then [] else ReplyBytes(rs[0]) + RepliesBytes(rs[1..]) }

  predicate Plain(text: seq<Byte>) { forall i :: 0 <= i < |text| ==> text[i] != CR && text[i] != NUL }

  /** One line: a status, an error, an integer, or an empty or null array. */
  predicate GoodLine(text: seq<Byte>) {
    && text != [] && Plain(text)
    && (text[0] == PLUS || text[0] == MINUS
        || (text[0] == COLON && Parsed(text[1..]).Some?)
        || (text[0] == STAR && Parsed(text[1..]).Some? && Parsed(text[1..]).value <= 0))
  }

  predicate GoodItem(item: Item) { item.Text? ==> |item.bytes| <= LLONG_MAX }

  predicate GoodItems(items: seq<Item>) { items == [] || (GoodItem(items[0]) && GoodItems(items[1..])) }

  predicate Good(r: Reply) {
    match r
    case Line(text) => GoodLine(text)
    case Single(item) => GoodItem(item)
    case Multi(items) => 0 < |items| <= LLONG_MAX && GoodItems(items)
  }

  predicate AllGood(rs: seq<Reply>) { rs == [] || (Good(rs[0]) && AllGood(rs[1..])) }

  // ---------------------------------------------------------------- counting replies

  /** The way from s to s1: some turns, a verbatim copy of what they took, and n replies counted. */
  ghost predicate Leads(s: Redis, s1: Redis, rest: seq<Byte>, n: nat)
    requires Sound(s)
  {
    && Sound(s1) && Unread(s1.c) == rest && s1.rNum + n == s.rNum && s1.c.bulk == 0
    && AtEnd(s1.c) && Copied(s.c, s1.c) && SameRun(s, s1)
  }

  /** The run from s goes on from s1. */
  ghost predicate SameRun(s: Redis, s1: Redis)
    requires Sound(s) && Sound(s1)
  {
    Run(s1) == Run(s) && Run0(s1) == Run0(s) && (RegularAll(s1) ==> RegularAll(s)) && |s1.c.buf| <= |s.c.buf|
  }

  lemma {:induction false} OneTurn(s: Redis)
    requires Sound(s) && AtEnd(s.c) && Regular(s) && Step(s).Go?
    ensures var s1 := Step(s).s;
            Sound(s1) && AtEnd(s1.c) && Copied(s.c, s1.c) && SameRun(s, s1)
  {
    hide Step;
    StepConsumes(s);
    StepCopies(s);
  }

  lemma {:induction false} FindCrPlain(text: seq<Byte>, rest: seq<Byte>)
    requires Plain(text)
    ensures FindCr(text + CRLF + rest) == Some(|text|)
    decreases |text|
  {
    var u := text + CRLF + rest;
    if text != [] {
      assert u[1..] == text[1..] + CRLF + rest;
      FindCrPlain(text[1..], rest);
    }
  }

  lemma {:induction false} RunLine(s: Redis, text: seq<Byte>, rest: seq<Byte>)
    requires Sound(s) && AtEnd(s.c) && s.rNum > 0 && s.c.multi == 0 && s.c.bulk == 0
    requires GoodLine(text) && Unread(s.c) == text + CRLF + rest
    ensures Step(s).Go? && Leads(s, Step(s).s, rest, 1) && Step(s).s.c.multi == 0
  {
    var u, i := Unread(s.c), |text|;
    FindCrPlain(text, rest);
    assert u[1..i] == text[1..];
    assert u[0] == text[0] && u[i + 1] == LF;
    assert Regular(s);
    LineFacts(s.c, i);
    assert u[i + 2..] == rest;
    hide LineTaken;
    OneTurn(s);
  }

  lemma {:induction false} LineFacts(c: Client, i: nat)
    requires c.rpos + i + 2 <= |c.buf|
    ensures var c1 := LineTaken(c, i);
            c1.rpos <= |c1.buf| && Unread(c1) == Unread(c)[i + 2..] && c1.multi == c.multi && c1.bulk == c.bulk
  {
  }

  /** The header of an element, whatever follows. */
  lemma {:induction false} ElementHeader(s: Redis, v: int, len: nat)
    requires Sound(s) && s.rNum > 0 && s.c.multi > 0 && s.c.bulk == 0
    requires Unread(s.c) != [] && Unread(s.c)[0] == DOLLAR && ReadNumber(Unread(s.c), |s.c.buf|) == Number(v, len)
    ensures var u := Unread(s.c);
            Step(s) == if v > 0 then Go(s.(c := DollarTaken(s.c, v, len)))
                       else if v < 0 then Go(Counted(s, NullTaken(s.c, len)))
                       else if |u| < len + 5 then Wait
                       else if u[len + 3] != CR || u[len + 4] != LF then Wrong(Protocol)
                       else Go(Counted(s, EmptyTaken(s.c, len)))
  {
  }

  lemma {:induction false} CountedIs(s: Redis, c: Client)
    requires c.rpos <= |c.buf| && s.rNum > 0
    ensures var s1 := Counted(s, c);
            && s1.c.multi == c.multi && s1.c.bulk == c.bulk && Sound(s1) && Unread(s1.c) == Unread(c)
            && s1.rNum + (if c.multi == 0 then 1 else 0) == s.rNum
  {
  }

  lemma {:induction false} NullText(rest: seq<Byte>, wpos: nat)
    ensures var u := NULL_BULK + rest; u[0] == DOLLAR && ReadNumber(u, wpos) == Number(-1, 2) && u[5..] == rest
  {
    var text: seq<Byte> := [DOLLAR, MINUS, 49];
    var u := NULL_BULK + rest;
    assert u == text + CRLF + rest;
    FindCrPlain(text, rest);
    assert Print(1) == [49];
    assert u[1..3] == [MINUS, 49] == PrintInt(-1);
    ParsedExactly([MINUS, 49], -1);
  }

  lemma {:induction false} NullIs(c: Client, len: nat)
    requires c.rpos + len + 3 <= |c.buf| && c.multi > 0
    ensures var c1 := NullTaken(c, len);
            c1.rpos <= |c1.buf| && Unread(c1) == Unread(c)[len + 3..] && c1.multi == c.multi - 1 && c1.bulk == c.bulk
  {
    HeaderMoves(c, len);
  }

  lemma {:induction false} RunNull(s: Redis, rest: seq<Byte>)
    requires Sound(s) && AtEnd(s.c) && s.rNum > 0 && s.c.multi > 0 && s.c.bulk == 0 && Unread(s.c) == NULL_BULK + rest
    ensures Step(s).Go? && Step(s).s.c.multi == s.c.multi - 1
    ensures Leads(s, Step(s).s, rest, if s.c.multi == 1 then 1 else 0)
  {
    NullText(rest, |s.c.buf|);
    ElementHeader(s, -1, 2);
    NullIs(s.c, 2);
    CountedIs(s, NullTaken(s.c, 2));
    hide Step;
    hide Counted;
    hide NullTaken;
    OneTurn(s);
  }

  lemma {:induction false} RunEmpty(s: Redis, rest: seq<Byte>)
    requires Sound(s) && AtEnd(s.c) && s.rNum > 0 && s.c.multi > 0 && s.c.bulk == 0 && Unread(s.c) == Bulk([]) + rest
    ensures Step(s).Go? && Step(s).s.c.multi == s.c.multi - 1
    ensures Leads(s, Step(s).s, rest, if s.c.multi == 1 then 1 else 0)
  {
    var u := Unread(s.c);
    assert Print(0) == [ZERO];
    assert u == [DOLLAR] + Print(0) + CRLF + (CRLF + rest);
    RespMeaning.ReadLine(DOLLAR, 0, CRLF + rest, |s.c.buf|);
    assert u[4] == CR && u[5] == LF && u[6..] == rest;
    ElementHeader(s, 0, 1);
    HeaderMoves(s.c, 1);
    EmptyIs(s.c, 1);
    CountedIs(s, EmptyTaken(s.c, 1));
    hide Step;
    hide Counted;
    hide EmptyTaken;
    OneTurn(s);
  }

  lemma {:induction false} EmptyIs(c: Client, len: nat)
    requires c.rpos + len + 5 <= |c.buf| && c.multi > 0
    ensures var c1 := EmptyTaken(c, len);
            c1.rpos <= |c1.buf| && Unread(c1) == Unread(c)[len + 5..] && c1.multi == c.multi - 1 && c1.bulk == c.bulk
  {
  }

  lemma {:induction false} RunHeader(s: Redis, b: seq<Byte>, rest: seq<Byte>)
    requires Sound(s) && AtEnd(s.c) && s.rNum > 0 && s.c.multi > 0 && s.c.bulk == 0
    requires 0 < |b| <= LLONG_MAX && Unread(s.c) == Bulk(b) + rest
    ensures Step(s).Go?
    ensures var s1 := Step(s).s;
            && Sound(s1) && AtEnd(s1.c) && Copied(s.c, s1.c) && SameRun(s, s1)
            && s1.rNum == s.rNum && s1.c.multi == s.c.multi && s1.c.bulk == |b| && Unread(s1.c) == b + CRLF + rest
  {
    var u, n := Unread(s.c), |Print(|b|)|;
    assert u == [DOLLAR] + Print(|b|) + CRLF + (b + CRLF + rest);
    RespMeaning.ReadLine(DOLLAR, |b|, b + CRLF + rest, |s.c.buf|);
    ElementHeader(s, |b|, n);
    HeaderMoves(s.c, n);
    hide Step;
    OneTurn(s);
  }

  lemma {:induction false} RunBody(s: Redis, b: seq<Byte>, rest: seq<Byte>)
    requires Sound(s) && AtEnd(s.c) && s.rNum > 0 && s.c.multi > 0 && s.c.bulk == |b| > 0 && Unread(s.c) == b + CRLF + rest
    ensures Step(s).Go? && Step(s).s.c.multi == s.c.multi - 1
    ensures Leads(s, Step(s).s, rest, if s.c.multi == 1 then 1 else 0)
  {
    var u := Unread(s.c);
    assert u[|b|] == CR && u[|b| + 1] == LF && u[|b| + 2..] == rest;
    var c1 := BulkTaken(s.c);
    assert Step(s) == Go(Counted(s, c1));
    assert Unread(c1) == rest;
    CountedIs(s, c1);
    hide Step;
    hide Counted;
    OneTurn(s);
  }

  lemma {:induction false} RunItem(s: Redis, item: Item, rest: seq<Byte>) returns (s1: Redis)
    requires Sound(s) && AtEnd(s.c) && s.rNum > 0 && s.c.multi > 0 && s.c.bulk == 0
    requires GoodItem(item) && Unread(s.c) == ItemBytes(item) + rest
    ensures Leads(s, s1, rest, if s.c.multi == 1 then 1 else 0) && s1.c.multi == s.c.multi - 1
  {
    hide Step;
    hide Run;
    hide Bulk;
    if item.Null? {
      RunNull(s, rest);
      s1 := Step(s).s;
    } else if item.bytes == [] {
      RunEmpty(s, rest);
      s1 := Step(s).s;
    } else {
      RunHeader(s, item.bytes, rest);
      var s0 := Step(s).s;
      RunBody(s0, item.bytes, rest);
      s1 := Step(s0).s;
    }
  }

  lemma {:induction false} Chain(s: Redis, s0: Redis, s1: Redis, rest0: seq<Byte>, rest: seq<Byte>, n: nat, m: nat)
    requires Sound(s) && Leads(s, s0, rest0, n) && Leads(s0, s1, rest, m)
    ensures Leads(s, s1, rest, n + m)
  {
  }

  lemma {:induction false} RunItems(s: Redis, items: seq<Item>, rest: seq<Byte>) returns (s1: Redis)
    requires Sound(s) && AtEnd(s.c) && s.rNum > 0 && s.c.multi == |items| > 0 && s.c.bulk == 0
    requires GoodItems(items) && Unread(s.c) == ItemsBytes(items) + rest
    ensures Leads(s, s1, rest, 1) && s1.c.multi == 0
    decreases |items|
  {
    hide Run;
    hide ItemBytes;
    var rest0 := ItemsBytes(items[1..]) + rest;
    Regroup(ItemBytes(items[0]), ItemsBytes(items[1..]), rest, [], []);
    var s0 := RunItem(s, items[0], rest0);
    if |items| == 1 {
      assert rest0 == rest;
      s1 := s0;
    } else {
      s1 := RunItems(s0, items[1..], rest);
      Chain(s, s0, s1, rest0, rest, 0, 1);
    }
  }

  /** One reply, from its first byte to its last: exactly one is counted. */
  lemma {:induction false} RunReply(s: Redis, r: Reply, rest: seq<Byte>) returns (s1: Redis)
    requires Sound(s) && AtEnd(s.c) && s.rNum > 0 && s.c.multi == 0 && s.c.bulk == 0
    requires Good(r) && Unread(s.c) == ReplyBytes(r) + rest
    ensures Leads(s, s1, rest, 1) && s1.c.multi == 0
  {
    hide Run;
    match r
    case Line(text) =>
      RunLine(s, text, rest);
      s1 := Step(s).s;
    case Single(item) =>
      var s0 := RunDollar(s, item, rest);
      s1 := RunItem(s0, item, rest);
    case Multi(items) =>
      var s0 := RunStarLine(s, items, rest);
      s1 := RunItems(s0, items, rest);
  }

  lemma {:induction false} RunDollar(s: Redis, item: Item, rest: seq<Byte>) returns (s0: Redis)
    requires Sound(s) && AtEnd(s.c) && s.rNum > 0 && s.c.multi == 0 && s.c.bulk == 0
    requires Unread(s.c) == ItemBytes(item) + rest
    ensures s0 == s.(c := s.c.(multi := 1)) && SameRun(s, s0) && Copied(s.c, s0.c)
  {
    var u, text, after := Unread(s.c), ItemHead(item), ItemRest(item, rest);
    ItemStarts(item, rest);
    hide ItemHead;
    hide ItemRest;
    hide ItemBytes;
    FindCrPlain(text, after);
    assert u[0] == DOLLAR && u[|text| + 1] == LF;
    assert Step(s) == Go(s.(c := s.c.(multi := 1)));
    hide Step;
    s0 := Step(s).s;
    OneTurn(s);
  }

  function ItemHead(item: Item): seq<Byte> { [DOLLAR] + if item.Null? then [MINUS, 49] else Print(|item.bytes|) }

  function ItemRest(item: Item, rest: seq<Byte>): seq<Byte> { if item.Null? then rest else item.bytes + CRLF + rest }

  lemma {:induction false} ItemStarts(item: Item, rest: seq<Byte>)
    ensures ItemBytes(item) + rest == ItemHead(item) + CRLF + ItemRest(item, rest)
    ensures Plain(ItemHead(item)) && ItemHead(item) != [] && ItemHead(item)[0] == DOLLAR
  {
    hide Print;
    if item.Text? {
      var b, p := item.bytes, Print(|item.bytes|);
      assert (([DOLLAR] + p + CRLF) + b + CRLF) + rest == ([DOLLAR] + p) + CRLF + (b + CRLF + rest);
    }
  }

  lemma {:induction false} StarText(n: nat, after: seq<Byte>)
    requires n <= LLONG_MAX
    ensures var text, u := [STAR] + Print(n), [STAR] + Print(n) + CRLF + after;
            && FindCr(u) == Some(|text|) && |text| + 2 <= |u| && u[0] == STAR && u[|text| + 1] == LF
            && u[1..|text|] == Print(n) && u[|text| + 2..] == after && Parsed(Print(n)) == Some(n)
  {
    hide Print;
    hide Parsed;
    var text, u := [STAR] + Print(n), [STAR] + Print(n) + CRLF + after;
    assert Plain(text);
    FindCrPlain(text, after);
    ParsedExactly(Print(n), n);
  }

  lemma {:induction false} RunStarLine(s: Redis, items: seq<Item>, rest: seq<Byte>) returns (s0: Redis)
    requires Sound(s) && AtEnd(s.c) && s.rNum > 0 && s.c.multi == 0 && s.c.bulk == 0 && 0 < |items| <= LLONG_MAX
    requires Unread(s.c) == [STAR] + Print(|items|) + CRLF + ItemsBytes(items) + rest
    ensures Leads(s, s0, ItemsBytes(items) + rest, 0) && s0.c.multi == |items|
  {
    hide Print;
    hide Parsed;
    hide ItemsBytes;
    var n, after := |[STAR] + Print(|items|)|, ItemsBytes(items) + rest;
    assert Unread(s.c) == [STAR] + Print(|items|) + CRLF + after;
    StarText(|items|, after);
    hide FindCr;
    assert Step(s) == Go(s.(c := LineTaken(s.c, n).(multi := |items|)));
    LineFacts(s.c, n);
    hide Step;
    hide LineTaken;
    s0 := Step(s).s;
    OneTurn(s);
  }

  /** Reply accounting: whatever replies come, as long as no more come than were asked for, rNum goes down
      by exactly their number, nothing is left over, and what is added to the buffers is what came. (Waiting
      for more with a longer buffer is an error to the code, even if all of it has been read.) */
  lemma {:induction false} RepliesAreCounted(s: Redis, rs: seq<Reply>)
    requires Sound(s) && AtEnd(s.c) && s.c.multi == 0 && s.c.bulk == 0 && |rs| <= s.rNum
    requires AllGood(rs) && Unread(s.c) == RepliesBytes(rs)
    requires |rs| == s.rNum || |s.c.buf| <= MAX_INLINE_SIZE
    ensures Run(s).Done?
    ensures var s1 := Run(s).s;
            && s1.rNum == s.rNum - |rs| && Sound(s1) && Unread(s1.c) == [] && s1.c.multi == 0
            && Flat(s1.c.cmds) == Flat(s.c.cmds) + RepliesBytes(rs)
    decreases |rs|
  {
    if rs == [] {
      assert FindCr(Unread(s.c)) == None && Run(s) == Done(s);
      assert Flat(s.c.cmds) + [] == Flat(s.c.cmds);
    } else {
      hide Run;
      var rest := RepliesBytes(rs[1..]);
      var s0 := RunReply(s, rs[0], rest);
      RepliesAreCounted(s0, rs[1..]);
      CancelRest(Flat(s0.c.cmds), Flat(s.c.cmds), ReplyBytes(rs[0]), rest);
      assert (Flat(s.c.cmds) + ReplyBytes(rs[0])) + rest == Flat(s.c.cmds) + (ReplyBytes(rs[0]) + rest);
    }
  }

  lemma {:induction false} CancelRest(a: seq<Byte>, b: seq<Byte>, m: seq<Byte>, rest: seq<Byte>)
    requires a + rest == b + (m + rest)
    ensures a == b + m
  {
    assert b + (m + rest) == (b + m) + rest;
    assert a == (a + rest)[..|a|];
    assert b + m == ((b + m) + rest)[..|b + m|];
  }
}
