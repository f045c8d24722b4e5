/** The client side of src/proto/multibulk.c as a state machine on values: what one turn of its loops
    does, what a run of turns means, and that neither depends on how the input was cut into reads.

    The format is the Redis serialization protocol, sections "Arrays" and "Bulk strings".
  */
module Resp {
  import opened Wrappers
  import opened Decimal

  const MAX_INLINE_SIZE := 65536
  const CRLF: seq<Byte> := [CR, LF]
  const WORD := 0x1_0000_0000_0000_0000 // multiBulkLen and bulkLen are uint64_t

  // ---------------------------------------------------------------- the format

  /** A command as it was sent: the text of its argument count, and its arguments. */
  datatype Command = Command(head: seq<Byte>, args: seq<seq<Byte>>)

  function BulkHead(n: nat): seq<Byte> { [DOLLAR] + Print(n) + CRLF }

  function Bulk(a: seq<Byte>): seq<Byte> { BulkHead(|a|) + a + CRLF }

  function Bulks(args: seq<seq<Byte>>): seq<Byte> {
    if args == [] then [] else Bulks(args[..|args| - 1]) + Bulk(args[|args| - 1])
  }

  function Head(text: seq<Byte>): seq<Byte> { [STAR] + text + CRLF }

  function Encoded(c: Command): seq<Byte> { Head(c.head) + Bulks(c.args) }

  /** The parser's idea of a command: the count, read as a uint64_t, is the number of arguments, and no
      argument is empty. */
  predicate IsCommand(c: Command) {
    Parsed(c.head).Some? && Parsed(c.head).value % WORD == |c.args| && NoneEmpty(c.args)
  }

  predicate NoneEmpty(args: seq<seq<Byte>>) { forall i :: 0 <= i < |args| ==> |args[i]| > 0 }

  /** The usual spelling of a non-empty list of arguments. */
  function Usual(args: seq<seq<Byte>>): Command { Command(Print(|args|), args) }

  /** Up to 2^63 arguments, a command is spelled in the usual way, except that no arguments may be "-0". */
  lemma {:induction false} CommandsAreUsual(c: Command)
    requires |c.args| <= LLONG_MAX
    ensures IsCommand(c) <==> NoneEmpty(c.args) && (c == Usual(c.args) || (c.args == [] && c.head == [MINUS, ZERO]))
  {
    ParsedExactly(Print(|c.args|), |c.args|);
    ParsedExactly([MINUS, ZERO], 0);
    if Parsed(c.head).Some? {
      var v := Parsed(c.head).value;
      ParsedExactly(c.head, v);
      NegativeCount(v);
    }
    hide Print;
    hide Parsed;
  }

  /** A negative count turns into a very large one. */
  lemma {:induction false} NegativeCount(v: int)
    requires IsInt64(v)
    ensures v % WORD == if v < 0 then v + WORD else v
  {
  }

  // ---------------------------------------------------------------- the client

  /** struct client, as far as the parser reads and writes it. buf is cmd->buf up to wpos; cmds are the
      buffers of the command array. head, args and done are not in the struct: they name the command
      being read and those that have been completed since the last hand-over. */
  datatype Client = Client(
    buf: seq<Byte>, rpos: nat, multi: nat, bulk: nat, argc: nat,
    cmds: seq<seq<Byte>>, cmdNum: nat, pending: bool,
    head: seq<Byte>, args: seq<seq<Byte>>, done: seq<Command>)

  const INIT := Client([], 0, 0, 0, 0, [], 0, false, [], [], [])

  function Unread(c: Client): seq<Byte>
    requires c.rpos <= |c.buf|
  {
    c.buf[c.rpos..]
  }

  /** addBuffer: the bytes go to buffer number cmdNum, or to a new one behind the last. */
  function Added(c: Client, add: seq<Byte>): Client {
    c.(cmds := if |c.cmds| <= c.cmdNum then c.cmds + [add] else c.cmds[c.cmdNum := c.cmds[c.cmdNum] + add])
  }

  /** strchr(s, '\r'), which stops at a NUL. */
  function FindCr(s: seq<Byte>): (r: Option<nat>)
    ensures r.Some? ==> r.value < |s| && s[r.value] == CR && (s[0] != CR ==> r.value > 0)
  {
    if s == [] || s[0] == NUL then None
    else if s[0] == CR then Some(0)
    else match FindCr(s[1..]) case None => None case Some(i) => Some(i + 1)
  }

  datatype Error = TooBig | Protocol

  datatype Number = NeedMore | Bad(e: Error) | Number(v: int, len: nat)

  /** parseInputBuffNum on the unread bytes u of a buffer that is filled up to wpos. */
  function ReadNumber(u: seq<Byte>, wpos: nat): (r: Number)
    requires u != [] && u[0] != CR
    ensures r.Number? ==> r.len + 3 <= |u| && u[r.len + 1] == CR && u[r.len + 2] == LF && Parsed(u[1..r.len + 1]) == Some(r.v)
  {
    match FindCr(u)
    case None => if wpos > MAX_INLINE_SIZE then Bad(TooBig) else NeedMore
    case Some(i) =>
      if i + 1 == |u| then NeedMore // repaired: multibulk.c:229 reads past the data and calls it an error
      else if u[i + 1] != LF then Bad(Protocol)
      else match Parsed(u[1..i]) case None => Bad(Protocol) case Some(v) => Number(v, i - 1)
  }

  datatype Turn = Stop | Next(c: Client) | Fail(e: Error)

  /** The end of processCmds: the command is complete and its bytes leave the read buffer. */
  function Completed(c: Client): Client
    requires c.rpos <= |c.buf|
  {
    c.(argc := 0, cmdNum := c.cmdNum + 1, pending := false, buf := Unread(c), rpos := 0,
       head := [], args := [], done := c.done + [Command(c.head, c.args)])
  }

  /** A header line of len characters after the first, on its way to the command buffer. */
  function HeaderTaken(c: Client, len: nat): Client
    requires c.rpos + len + 3 <= |c.buf|
  {
    Added(c.(rpos := c.rpos + len + 3), c.buf[c.rpos..c.rpos + len + 1] + CRLF)
  }

  function StarTaken(c: Client, v: int, len: nat): (c1: Client)
    requires c.rpos + len + 3 <= |c.buf|
    ensures c1.rpos == c.rpos + len + 3 && c1.buf == c.buf
  {
    HeaderTaken(c, len).(multi := v % WORD, pending := true, head := Unread(c)[1..len + 1])
  }

  function ReadStar(c: Client): Turn
    requires c.rpos < |c.buf|
  {
    if c.buf[c.rpos] != STAR then Fail(Protocol)
    else match ReadNumber(Unread(c), |c.buf|)
      case NeedMore => Stop
      case Bad(e) => Fail(e)
      case Number(v, len) =>
        var c1 := StarTaken(c, v, len);
        if c1.multi == 0 then Next(Completed(c1)) else Next(c1)
  }

  function DollarTaken(c: Client, v: nat, len: nat): Client
    requires c.rpos + len + 3 <= |c.buf|
  {
    HeaderTaken(c, len).(bulk := v)
  }

  function ReadDollar(c: Client): Turn
    requires c.rpos < |c.buf|
  {
    if c.buf[c.rpos] != DOLLAR then Fail(Protocol)
    else match ReadNumber(Unread(c), |c.buf|)
      case NeedMore => Stop
      case Bad(e) => Fail(e)
      case Number(v, len) =>
        if v <= 0 then Fail(Protocol) else Next(DollarTaken(c, v, len))
  }

  /** An argument and its CRLF, on their way to the command buffer. */
  function BulkTaken(c: Client): (c1: Client)
    requires c.rpos + c.bulk + 2 <= |c.buf| && c.multi > 0
    ensures c1.rpos == c.rpos + c.bulk + 2 && c1.buf == c.buf
  {
    var a := Unread(c)[..c.bulk];
    Added(c.(rpos := c.rpos + c.bulk + 2), a + CRLF)
    .(bulk := 0, multi := c.multi - 1, argc := c.argc + 1, args := c.args + [a])
  }

  function ReadBulk(c: Client): Turn
    requires c.rpos <= |c.buf| && c.multi > 0
  {
    var u := Unread(c);
    if |u| < c.bulk + 2 then Stop
    else if u[c.bulk] != CR || u[c.bulk + 1] != LF then Fail(Protocol)
    else
      var c1 := BulkTaken(c);
      if c1.multi == 0 then Next(Completed(c1)) else Next(c1)
  }

  /** One turn: a header line, or an argument, whichever is due. */
  function Step(c: Client): Turn
    requires c.rpos <= |c.buf|
  {
    if c.multi > 0 && c.bulk > 0 then ReadBulk(c)
    else if c.rpos == |c.buf| then Stop // repaired: multibulk.c:68 reads past the data and calls it an error
    else if c.multi == 0 then ReadStar(c)
    else ReadDollar(c)
  }

  lemma {:induction false} StepConsumes(c: Client)
    requires c.rpos <= |c.buf|
    ensures Step(c).Next? ==> var c' := Step(c).c; c'.rpos <= |c'.buf| && |Unread(c')| < |Unread(c)|
  {
  }

  datatype Outcome = Ok(c: Client) | Err(e: Error)

  /** processClient: turns until there is nothing left to do. */
  function Run(c: Client): Outcome
    requires c.rpos <= |c.buf|
    decreases |Unread(c)|
  {
    StepConsumes(c);
    match Step(c)
    case Stop => Ok(c)
    case Fail(e) => Err(e)
    case Next(c') => Run(c')
  }

  // ---------------------------------------------------------------- chunk independence

  /** baseRead has put more bytes behind those already there. */
  function Feed(c: Client, more: seq<Byte>): Client { c.(buf := c.buf + more) }

  lemma {:induction false} FindCrMore(s: seq<Byte>, t: seq<Byte>)
    requires FindCr(s).Some?
    ensures FindCr(s + t) == FindCr(s)
  {
    if s[0] != CR {
      assert (s + t)[1..] == s[1..] + t;
      FindCrMore(s[1..], t);
    }
  }

  /** A header line that could be read, or was wrong, stays so when more bytes arrive. */
  lemma {:induction false} ReadNumberMore(u: seq<Byte>, wpos: nat, t: seq<Byte>)
    requires u != [] && u[0] != CR
    ensures ReadNumber(u, wpos) != NeedMore && ReadNumber(u, wpos) != Bad(TooBig) ==>
              ReadNumber(u + t, wpos + |t|) == ReadNumber(u, wpos)
  {
    if FindCr(u).Some? {
      FindCrMore(u, t);
      var i := FindCr(u).value;
      assert (u + t)[1..i] == u[1..i];
    }
  }

  /** So does a whole turn. */
  lemma {:induction false} StepMore(c: Client, t: seq<Byte>)
    requires c.rpos <= |c.buf|
    ensures Step(c).Next? ==> Step(Feed(c, t)) == Next(Feed(Step(c).c, t))
    ensures Step(c) == Fail(Protocol) ==> Step(Feed(c, t)) == Fail(Protocol)
  {
    assert Unread(Feed(c, t)) == Unread(c) + t;
    if c.multi > 0 && c.bulk > 0 {
      BulkMore(c, t);
    } else if c.rpos < |c.buf| {
      if c.multi == 0 { StarMore(c, t); } else { DollarMore(c, t); }
    }
  }

  lemma {:induction false} BulkMore(c: Client, t: seq<Byte>)
    requires c.rpos <= |c.buf| && c.multi > 0
    ensures ReadBulk(c).Next? ==> ReadBulk(Feed(c, t)) == Next(Feed(ReadBulk(c).c, t))
    ensures ReadBulk(c) == Fail(Protocol) ==> ReadBulk(Feed(c, t)) == Fail(Protocol)
  {
    var u := Unread(c);
    assert Unread(Feed(c, t)) == u + t;
    if |u| >= c.bulk + 2 {
      assert (u + t)[..c.bulk] == u[..c.bulk];
      assert BulkTaken(Feed(c, t)) == Feed(BulkTaken(c), t);
      CompletedMore(BulkTaken(c), t);
    }
  }

  lemma {:induction false} StarMore(c: Client, t: seq<Byte>)
    requires c.rpos < |c.buf|
    ensures ReadStar(c).Next? ==> ReadStar(Feed(c, t)) == Next(Feed(ReadStar(c).c, t))
    ensures ReadStar(c) == Fail(Protocol) ==> ReadStar(Feed(c, t)) == Fail(Protocol)
  {
    hide ReadNumber;
    hide StarTaken;
    hide Completed;
    assert (c.buf + t)[c.rpos] == c.buf[c.rpos];
    if c.buf[c.rpos] == STAR {
      NumberMore(c, t);
      var r := ReadNumber(Unread(c), |c.buf|);
      if r.Number? {
        var c1 := StarTaken(c, r.v, r.len);
        StarTakenMore(c, t, r.v, r.len);
        CompletedMore(c1, t);
        StarTurn(c, r.v, r.len);
        StarTurn(Feed(c, t), r.v, r.len);
      }
    }
  }

  lemma {:induction false} StarTurn(c: Client, v: int, len: nat)
    requires c.rpos < |c.buf| && c.buf[c.rpos] == STAR && ReadNumber(Unread(c), |c.buf|) == Number(v, len)
    ensures var c1 := StarTaken(c, v, len);
            ReadStar(c) == Next(if c1.multi == 0 then Completed(c1) else c1)
  {
  }

  lemma {:induction false} StarTakenMore(c: Client, t: seq<Byte>, v: int, len: nat)
    requires c.rpos + len + 3 <= |c.buf|
    ensures StarTaken(Feed(c, t), v, len) == Feed(StarTaken(c, v, len), t)
  {
    HeaderMore(c, t, len);
    assert Unread(Feed(c, t)) == Unread(c) + t;
    assert (Unread(c) + t)[1..len + 1] == Unread(c)[1..len + 1];
  }

  lemma {:induction false} CompletedMore(c: Client, t: seq<Byte>)
    requires c.rpos <= |c.buf|
    ensures Completed(Feed(c, t)) == Feed(Completed(c), t)
  {
    assert (c.buf + t)[c.rpos..] == c.buf[c.rpos..] + t;
  }

  lemma {:induction false} DollarMore(c: Client, t: seq<Byte>)
    requires c.rpos < |c.buf|
    ensures ReadDollar(c).Next? ==> ReadDollar(Feed(c, t)) == Next(Feed(ReadDollar(c).c, t))
    ensures ReadDollar(c) == Fail(Protocol) ==> ReadDollar(Feed(c, t)) == Fail(Protocol)
  {
    hide ReadNumber;
    hide HeaderTaken;
    hide FindCr;
    assert (c.buf + t)[c.rpos] == c.buf[c.rpos];
    if c.buf[c.rpos] == DOLLAR {
      NumberMore(c, t);
    }
  }

  lemma {:induction false} NumberMore(c: Client, t: seq<Byte>)
    requires c.rpos < |c.buf| && c.buf[c.rpos] != CR
    ensures Unread(Feed(c, t)) == Unread(c) + t
    ensures var r, r' := ReadNumber(Unread(c), |c.buf|), ReadNumber(Unread(c) + t, |c.buf| + |t|);
            && (r == Bad(Protocol) ==> r' == r)
            && (r.Number? ==>
                  && r' == r
                  && HeaderTaken(Feed(c, t), r.len) == Feed(HeaderTaken(c, r.len), t)
                  && (Unread(c) + t)[1..r.len + 1] == Unread(c)[1..r.len + 1]
                  && (c.buf + t)[c.rpos + r.len + 3..] == c.buf[c.rpos + r.len + 3..] + t)
  {
    hide ReadNumber;
    hide HeaderTaken;
    var u := Unread(c);
    assert Unread(Feed(c, t)) == u + t;
    ReadNumberMore(u, |c.buf|, t);
    var r := ReadNumber(u, |c.buf|);
    if r.Number? {
      HeaderMore(c, t, r.len);
    }
  }

  lemma {:induction false} HeaderMore(c: Client, t: seq<Byte>, len: nat)
    requires c.rpos + len + 3 <= |c.buf|
    ensures HeaderTaken(Feed(c, t), len) == Feed(HeaderTaken(c, len), t)
    ensures (c.buf + t)[c.rpos + len + 3..] == c.buf[c.rpos + len + 3..] + t
  {
    assert (c.buf + t)[c.rpos..c.rpos + len + 1] == c.buf[c.rpos..c.rpos + len + 1];
  }

  /** Parsing what has arrived, and then the rest, is parsing it all at once. An error in the bytes is
      an error either way. */
  lemma {:induction false} RunMore(c: Client, t: seq<Byte>)
    requires c.rpos <= |c.buf|
    ensures match Run(c)
            case Ok(c1) => c1.rpos <= |c1.buf| && Run(Feed(c, t)) == Run(Feed(c1, t))
            case Err(e) => e == Protocol ==> Run(Feed(c, t)) == Err(Protocol)
    decreases |Unread(c)|
  {
    StepConsumes(c);
    StepMore(c, t);
    if Step(c).Next? {
      StepConsumes(Feed(c, t));
      RunMore(Step(c).c, t);
    }
  }

  function Join(chunks: seq<seq<Byte>>): seq<Byte> {
    if chunks == [] then [] else chunks[0] + Join(chunks[1..])
  }

  /** One processClient for every read. */
  function FeedAll(c: Client, chunks: seq<seq<Byte>>): Outcome
    requires c.rpos <= |c.buf|
    decreases chunks
  {
    if chunks == [] then Ok(c)
    else match Run(Feed(c, chunks[0]))
      case Err(e) => Err(e)
      case Ok(c1) => RunMore(Feed(c, chunks[0]), []); FeedAll(c1, chunks[1..])
  }

  /** Nothing can be done without more input. */
  predicate Quiet(c: Client) { c.rpos <= |c.buf| && Step(c) == Stop }

  lemma {:induction false} RunIsQuiet(c: Client)
    requires c.rpos <= |c.buf| && Run(c).Ok?
    ensures Quiet(Run(c).c)
    decreases |Unread(c)|
  {
    StepConsumes(c);
    if Step(c).Next? { RunIsQuiet(Step(c).c); }
  }

  lemma {:induction false} QuietRun(c: Client)
    requires Quiet(c)
    ensures Run(c) == Ok(c)
  {
  }

  /** The first k reads together are too much for the parser. */
  ghost predicate TooBigAt(c: Client, chunks: seq<seq<Byte>>, k: nat)
    requires c.rpos <= |c.buf| && k <= |chunks|
  {
    Run(Feed(c, Join(chunks[..k]))) == Err(TooBig)
  }

  /** Chunk independence: however the input is cut into reads, the client ends up in the same state, and
      fails on the same bytes; except exactly for the size limit on an unfinished header line, which is
      applied wherever a read ends. */
  lemma {:induction false} ChunkIndependence(c: Client, chunks: seq<seq<Byte>>)
    requires Quiet(c)
    ensures FeedAll(c, chunks) == if exists k :: 0 <= k <= |chunks| && TooBigAt(c, chunks, k) then Err(TooBig)
                                  else Run(Feed(c, Join(chunks)))
    decreases chunks
  {
    hide Run;
    hide Step;
    if exists k :: 0 <= k <= |chunks| && TooBigAt(c, chunks, k) {
      var k :| 0 <= k <= |chunks| && TooBigAt(c, chunks, k);
      LimitReached(c, chunks, k);
    } else {
      FeedAllOrLimit(c, chunks);
      if FeedAll(c, chunks) == Err(TooBig) {
        var k := LimitWhere(c, chunks);
      }
    }
  }

  lemma {:induction false} FeedAllOrLimit(c: Client, chunks: seq<seq<Byte>>)
    requires Quiet(c)
    ensures FeedAll(c, chunks) == Err(TooBig) || FeedAll(c, chunks) == Run(Feed(c, Join(chunks)))
    decreases chunks
  {
    hide Run;
    hide Step;
    if chunks == [] {
      assert Feed(c, []) == c;
      QuietRun(c);
    } else {
      var c0 := Feed(c, chunks[0]);
      RunMore(c0, Join(chunks[1..]));
      assert Feed(c0, Join(chunks[1..])) == Feed(c, Join(chunks));
      if Run(c0).Ok? {
        RunIsQuiet(c0);
        FeedAllOrLimit(Run(c0).c, chunks[1..]);
      }
    }
  }

  /** What the first read does to the parser, and the others find. */
  lemma {:induction false} FirstRead(c: Client, chunks: seq<seq<Byte>>, k: nat)
    requires Quiet(c) && 0 < k <= |chunks|
    ensures var c0 := Feed(c, chunks[0]);
            match Run(c0)
            case Ok(c1) => Quiet(c1) && (TooBigAt(c, chunks, k) <==> TooBigAt(c1, chunks[1..], k - 1))
            case Err(e) => e == Protocol ==> !TooBigAt(c, chunks, k)
  {
    hide Run;
    hide Step;
    var c0, rest := Feed(c, chunks[0]), Join(chunks[1..][..k - 1]);
    assert chunks[..k][1..] == chunks[1..][..k - 1];
    RunMore(c0, rest);
    assert Feed(c0, rest) == Feed(c, Join(chunks[..k]));
    if Run(c0).Ok? { RunIsQuiet(c0); }
  }

  lemma {:induction false} LimitReached(c: Client, chunks: seq<seq<Byte>>, k: nat)
    requires Quiet(c) && k <= |chunks| && TooBigAt(c, chunks, k)
    ensures FeedAll(c, chunks) == Err(TooBig)
    decreases chunks
  {
    hide Run;
    hide Step;
    if k == 0 {
      assert Feed(c, Join(chunks[..0])) == c;
      QuietRun(c);
    } else {
      FirstRead(c, chunks, k);
      if Run(Feed(c, chunks[0])).Ok? { LimitReached(Run(Feed(c, chunks[0])).c, chunks[1..], k - 1); }
    }
  }

  lemma {:induction false} LimitWhere(c: Client, chunks: seq<seq<Byte>>) returns (k: nat)
    requires Quiet(c) && FeedAll(c, chunks) == Err(TooBig)
    ensures k <= |chunks| && TooBigAt(c, chunks, k)
    decreases chunks
  {
    hide Run;
    hide Step;
    var c0 := Feed(c, chunks[0]);
    FirstRead(c, chunks, 1);
    if Run(c0).Ok? {
      k := LimitWhere(Run(c0).c, chunks[1..]);
      k := k + 1;
      FirstRead(c, chunks, k);
    } else {
      k := 1;
      assert Join(chunks[..1]) == chunks[0] by {
        assert chunks[..1][1..] == [];
        assert chunks[0] + [] == chunks[0];
      }
    }
  }

  /** Where a run comes to rest: nothing more can be done, or something is wrong. */
  function Rested(c: Client): (q: Client)
    requires c.rpos <= |c.buf|
    ensures q.rpos <= |q.buf|
    decreases |Unread(c)|
  {
    StepConsumes(c);
    if Step(c).Next? then Rested(Step(c).c) else c
  }

  /** A header line without an end in sight, in a buffer with more than 65536 bytes in it, read or not. */
  predicate LongLine(c: Client)
    requires c.rpos <= |c.buf|
  {
    && !(c.multi > 0 && c.bulk > 0) && c.rpos < |c.buf| && |c.buf| > MAX_INLINE_SIZE
    && c.buf[c.rpos] == (if c.multi == 0 then STAR else DOLLAR) && FindCr(Unread(c)) == None
  }

  lemma {:induction false} TooBigIsLongLine(c: Client)
    requires c.rpos <= |c.buf|
    ensures Run(c) == Err(TooBig) <==> LongLine(Rested(c))
    decreases |Unread(c)|
  {
    StepConsumes(c);
    if Step(c).Next? { TooBigIsLongLine(Step(c).c); } else { StuckOnLongLine(c); }
  }

  lemma {:induction false} StuckOnLongLine(c: Client)
    requires c.rpos <= |c.buf|
    ensures Step(c) == Fail(TooBig) <==> LongLine(c)
  {
  }

  /** Shorter streams may be cut anywhere. */
  lemma {:induction false} HeaderLimit(c: Client, chunks: seq<seq<Byte>>)
    requires Quiet(c) && FeedAll(c, chunks) == Err(TooBig)
    ensures |c.buf| + |Join(chunks)| > MAX_INLINE_SIZE
    decreases chunks
  {
    var c0 := Feed(c, chunks[0]);
    RunLimit(c0);
    if Run(c0).Ok? {
      RunIsQuiet(c0);
      HeaderLimit(Run(c0).c, chunks[1..]);
    }
  }

  lemma {:induction false} RunLimit(c: Client)
    requires c.rpos <= |c.buf|
    ensures Run(c) == Err(TooBig) ==> |c.buf| > MAX_INLINE_SIZE
    ensures Run(c).Ok? ==> |Run(c).c.buf| <= |c.buf|
    decreases |Unread(c)|
  {
    StepConsumes(c);
    if Step(c).Next? { RunLimit(Step(c).c); }
  }
}
