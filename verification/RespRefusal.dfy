/** What the parser refuses, said of the bytes alone: where in the format they stop, and what is wrong there. */
module RespRefusal {
  import opened Wrappers
  import opened Decimal
  import opened Resp
  import opened RespMeaning
  import opened Buffers
  import Replies

  // ---------------------------------------------------------------- places in the format

  /** Between commands; behind some arguments of one; or behind the header of its next argument. */
  datatype Place =
    | AtStar(cs: seq<Command>)
    | AtDollar(cs: seq<Command>, head: seq<Byte>, args: seq<seq<Byte>>)
    | AtBody(cs: seq<Command>, head: seq<Byte>, args: seq<seq<Byte>>, n: nat)

  function Stream(cs: seq<Command>): seq<Byte> { Flat(AllEncoded(cs)) }

  /** The bytes up to a place. */
  function Upto(place: Place): seq<Byte> {
    match place
    case AtStar(cs) => Stream(cs)
    case AtDollar(cs, head, args) => Stream(cs) + (Head(head) + Bulks(args))
    case AtBody(cs, head, args, n) => Stream(cs) + (Head(head) + Bulks(args) + BulkHead(n))
  }

  predicate Fits(args: seq<seq<Byte>>) { forall i :: 0 <= i < |args| ==> 0 < |args[i]| <= LLONG_MAX }

  predicate Whole(cs: seq<Command>) { forall i :: 0 <= i < |cs| ==> IsCommand(cs[i]) && Fits(cs[i].args) }

  predicate Open(head: seq<Byte>, args: seq<seq<Byte>>) {
    Parsed(head).Some? && |args| < Parsed(head).value % WORD && Fits(args)
  }

  predicate Is(place: Place) {
    && Whole(place.cs)
    && (!place.AtStar? ==> Open(place.head, place.args))
    && (place.AtBody? ==> 0 < place.n <= LLONG_MAX)
  }

  // ---------------------------------------------------------------- what is wrong there

  /** The first CR of a line, with no NUL before it. */
  predicate EndsAt(q: seq<Byte>, i: int) { 0 <= i < |q| && q[i] == CR && Replies.Plain(q[..i]) }

  /** The line does not start as it should, or its CR is not followed by LF, or its text is no int64. */
  ghost predicate BadLine(b: Byte, q: seq<Byte>) {
    q != [] && (q[0] != b || exists i :: 0 < i && EndsAt(q, i) && i + 1 < |q| && (q[i + 1] != LF || Parsed(q[1..i]) == None))
  }

  /** An argument has at least one byte. */
  ghost predicate BadLength(q: seq<Byte>) {
    exists i :: 0 < i && EndsAt(q, i) && i + 1 < |q| && Parsed(q[1..i]).Some? && Parsed(q[1..i]).value <= 0
  }

  ghost predicate Wrong(place: Place, q: seq<Byte>) {
    match place
    case AtStar(_) => BadLine(STAR, q)
    case AtDollar(_, _, _) => BadLine(DOLLAR, q) || BadLength(q)
    case AtBody(_, _, _, n) => |q| >= n + 2 && q[n..n + 2] != CRLF
  }

  /** Somewhere in the bytes, the parser can see that something is wrong. */
  ghost predicate Refused(p: seq<Byte>) { exists place, q :: Is(place) && p == Upto(place) + q && Wrong(place, q) }

  // ---------------------------------------------------------------- one line

  lemma {:induction false} FindCrExactly(q: seq<Byte>, i: int)
    ensures FindCr(q) == Some(i) <==> EndsAt(q, i)
    decreases |q|
  {
    if q != [] && q[0] != NUL && q[0] != CR {
      var q1 := q[1..];
      FindCrExactly(q1, i - 1);
      if i > 0 && i < |q| {
        assert q[..i] == [q[0]] + q1[..i - 1];
        if EndsAt(q1, i - 1) { PlainCons(q[0], q1[..i - 1]); }
        if EndsAt(q, i) {
          forall j | 0 <= j < i - 1 ensures q1[j] != CR && q1[j] != NUL { assert q[..i][j + 1] == q1[j]; }
        }
      }
    } else if q != [] && 0 < i < |q| {
      assert q[..i][0] == q[0];
    }
  }

  lemma {:induction false} PlainCons(b: Byte, s: seq<Byte>)
    requires Replies.Plain(s) && b != CR && b != NUL
    ensures Replies.Plain([b] + s)
  {
  }

  lemma {:induction false} EndsOnce(q: seq<Byte>, i: int, j: int)
    requires EndsAt(q, i) && EndsAt(q, j)
    ensures i == j
  {
    FindCrExactly(q, i);
    FindCrExactly(q, j);
  }

  /** A header line is refused exactly if it is bad. */
  lemma {:induction false} LineRefused(b: Byte, q: seq<Byte>, wpos: nat)
    requires q != [] && b != CR
    ensures BadLine(b, q) <==> q[0] != b || ReadNumber(q, wpos) == Bad(Protocol)
  {
    if q[0] == b {
      forall i ensures FindCr(q) == Some(i) <==> EndsAt(q, i) { FindCrExactly(q, i); }
    }
  }

  lemma {:induction false} LengthRefused(q: seq<Byte>, wpos: nat)
    requires q != [] && q[0] == DOLLAR && ReadNumber(q, wpos) != Bad(Protocol)
    ensures BadLength(q) <==> ReadNumber(q, wpos).Number? && ReadNumber(q, wpos).v <= 0
  {
    forall i ensures FindCr(q) == Some(i) <==> EndsAt(q, i) { FindCrExactly(q, i); }
  }

  // ---------------------------------------------------------------- the parser at a place

  function PlaceOf(c: Client): Place {
    if !c.pending then AtStar(c.done)
    else if c.bulk == 0 then AtDollar(c.done, c.head, c.args)
    else AtBody(c.done, c.head, c.args, c.bulk)
  }

  /** The parser is at this place, and this has not been read yet. */
  predicate Stands(c: Client, place: Place, q: seq<Byte>) {
    && c.rpos <= |c.buf| && Unread(c) == q && c.done == place.cs
    && match place
       case AtStar(_) => c.multi == 0 && c.bulk == 0 && c.args == []
       case AtDollar(_, head, args) => Within(c, head, args) && c.bulk == 0
       case AtBody(_, head, args, n) => Within(c, head, args) && c.bulk == n > 0
  }

  predicate Within(c: Client, head: seq<Byte>, args: seq<seq<Byte>>) {
    && Open(head, args) && c.multi == Parsed(head).value % WORD - |args|
    && c.head == head && c.args == args
  }

  /** There, a turn fails exactly if something is wrong with the bytes. */
  lemma {:induction false} StepRefuses(c: Client, place: Place, q: seq<Byte>)
    requires Stands(c, place, q)
    ensures Step(c) == Fail(Protocol) <==> Wrong(place, q)
  {
    hide ReadNumber;
    hide BadLine;
    hide BadLength;
    hide Parsed;
    hide Fits;
    if place.AtBody? {
      BodyRefuses(c, q);
    } else if q == [] {
      NothingWrong(q);
    } else {
      assert c.buf[c.rpos] == q[0];
      LineRefused(if place.AtStar? then STAR else DOLLAR, q, |c.buf|);
      if place.AtDollar? { DollarRefuses(c, q); }
    }
  }

  lemma {:induction false} NothingWrong(q: seq<Byte>)
    requires q == []
    ensures !BadLine(STAR, q) && !BadLine(DOLLAR, q) && !BadLength(q)
  {
  }

  lemma {:induction false} BodyRefuses(c: Client, q: seq<Byte>)
    requires c.rpos <= |c.buf| && Unread(c) == q && c.multi > 0 && c.bulk > 0
    ensures Step(c) == Fail(Protocol) <==> |q| >= c.bulk + 2 && q[c.bulk..c.bulk + 2] != CRLF
  {
    if |q| >= c.bulk + 2 {
      var two := q[c.bulk..c.bulk + 2];
      assert two[0] == q[c.bulk] && two[1] == q[c.bulk + 1];
      assert two == CRLF <==> two[0] == CR && two[1] == LF;
    }
  }

  lemma {:induction false} DollarRefuses(c: Client, q: seq<Byte>)
    requires c.rpos < |c.buf| && Unread(c) == q && c.multi > 0 && c.bulk == 0
    ensures Step(c) == Fail(Protocol) <==> BadLine(DOLLAR, q) || BadLength(q)
  {
    hide BadLine;
    hide BadLength;
    assert c.buf[c.rpos] == q[0];
    LineRefused(DOLLAR, q, |c.buf|);
    if q[0] == DOLLAR && ReadNumber(q, |c.buf|) != Bad(Protocol) { LengthRefused(q, |c.buf|); }
    hide ReadNumber;
  }

  // ---------------------------------------------------------------- what is refused is wrong

  /** Along a run, the sizes of arguments are those that can be read. */
  predicate Sized(c: Client) { Whole(c.done) && Fits(c.args) && c.bulk <= LLONG_MAX }

  lemma {:induction false} StepSized(c: Client)
    requires Wf(c) && Sized(c) && Step(c).Next?
    ensures Sized(Step(c).c)
  {
    StepWf(c);
    StepSizes(c);
    var c' := Step(c).c;
    assert AllCommands(c'.done);
    hide Step;
    hide Wf;
    hide Verbatim;
    hide IsCommand;
    if c'.done != c.done {
      forall i | 0 <= i < |c'.done| ensures IsCommand(c'.done[i]) && Fits(c'.done[i].args) {
        if i < |c.done| { assert c'.done[i] == c.done[i]; }
      }
    }
  }

  /** What a turn adds to the arguments and commands read. */
  lemma {:induction false} StepSizes(c: Client)
    requires c.rpos <= |c.buf| && Fits(c.args) && c.bulk <= LLONG_MAX && Step(c).Next?
    ensures var c' := Step(c).c;
            && Fits(c'.args) && c'.bulk <= LLONG_MAX
            && (c'.done == c.done || exists k: Command :: Fits(k.args) && c'.done == c.done + [k])
  {
    if c.multi > 0 && c.bulk > 0 {
      var c1 := BulkTaken(c);
      assert Step(c) == Next(if c1.multi == 0 then Completed(c1) else c1);
      assert |Unread(c)[..c.bulk]| == c.bulk;
      assert Fits(c1.args) && c1.done == c.done && c1.bulk == 0;
      CompletedSizes(c1);
    } else if c.multi == 0 {
      var r := ReadNumber(Unread(c), |c.buf|);
      StarTurn(c, r.v, r.len);
      StarSizes(c, r.v, r.len);
      CompletedSizes(StarTaken(c, r.v, r.len));
      hide Step;
    } else {
      var r := ReadNumber(Unread(c), |c.buf|);
      LengthFits(c);
      assert Step(c) == Next(DollarTaken(c, r.v, r.len));
      hide Step;
    }
  }

  lemma {:induction false} StarSizes(c: Client, v: int, len: nat)
    requires c.rpos + len + 3 <= |c.buf|
    ensures var c1 := StarTaken(c, v, len); c1.args == c.args && c1.bulk == c.bulk && c1.done == c.done
  {
  }

  lemma {:induction false} CompletedSizes(c: Client)
    requires c.rpos <= |c.buf| && Fits(c.args)
    ensures var c' := Completed(c);
            && Fits(c'.args) && c'.bulk == c.bulk
            && exists k: Command :: Fits(k.args) && c'.done == c.done + [k]
  {
    assert Fits(Command(c.head, c.args).args);
  }

  lemma {:induction false} LengthFits(c: Client)
    requires c.rpos < |c.buf| && c.buf[c.rpos] == DOLLAR && ReadNumber(Unread(c), |c.buf|).Number?
    ensures ReadNumber(Unread(c), |c.buf|).v <= LLONG_MAX
  {
    var r := ReadNumber(Unread(c), |c.buf|);
    ParsedExactly(Unread(c)[1..r.len + 1], r.v);
  }

  lemma {:induction false} WhereItRests(c: Client) returns (c1: Client)
    requires Wf(c) && Sized(c)
    ensures Wf(c1) && Sized(c1) && Verbatim(c, c1)
    ensures match Step(c1) case Next(_) => false case Stop => Run(c) == Ok(c1) case Fail(e) => Run(c) == Err(e)
    decreases |Unread(c)|
  {
    assert c.rpos <= |c.buf|;
    hide Wf;
    hide Sized;
    StepConsumes(c);
    if Step(c).Next? {
      StepWf(c);
      StepSized(c);
      c1 := WhereItRests(Step(c).c);
    } else {
      c1 := c;
    }
  }

  /** The bytes a parser has taken are those up to where it is. */
  lemma {:induction false} StandsThere(c: Client)
    requires Wf(c) && Sized(c)
    ensures Is(PlaceOf(c)) && Stands(c, PlaceOf(c), Unread(c)) && Flat(c.cmds) == Upto(PlaceOf(c))
  {
    hide Flat;
    hide AllEncoded;
    hide Head;
    hide BulkHead;
    hide Bulks;
    hide Parsed;
    if c.pending {
      FlatAppend(AllEncoded(c.done), [Partial(c)]);
      OneFlat(Partial(c));
      var taken := Head(c.head) + Bulks(c.args);
      assert taken + [] == taken;
    } else {
      assert AllEncoded(c.done) + [] == AllEncoded(c.done);
    }
  }

  lemma {:induction false} OneFlat(s: seq<Byte>)
    ensures Flat([s]) == s
  {
    assert [s][..0] == [];
  }

  // ---------------------------------------------------------------- what is wrong is refused

  lemma {:induction false} ParsedPlain(text: seq<Byte>)
    requires Parsed(text).Some?
    ensures Replies.Plain(text)
  {
    var v := Parsed(text).value;
    ParsedExactly(text, v);
    hide Parsed;
    if text != [MINUS, ZERO] { assert Digits(if v < 0 then text[1..] else text); }
  }

  /** A header line with any text that parseInt accepts. */
  lemma {:induction false} ReadAnyLine(b: Byte, text: seq<Byte>, rest: seq<Byte>, wpos: nat)
    requires b != CR && b != NUL && Parsed(text).Some?
    ensures var u := [b] + text + CRLF + rest;
            && ReadNumber(u, wpos) == Number(Parsed(text).value, |text|) && u[1..|text| + 1] == text
            && u[|text| + 3..] == rest
  {
    ParsedPlain(text);
    PlainCons(b, text);
    Replies.FindCrPlain([b] + text, rest);
    var u := [b] + text + CRLF + rest;
    assert u[1..|text| + 1] == text;
    assert u[|text| + 3..] == rest;
    assert u[|text| + 1] == CR && u[|text| + 2] == LF;
    hide Parsed;
    hide FindCr;
  }

  lemma {:induction false} RunAnyStar(c: Client, text: seq<Byte>, rest: seq<Byte>)
    requires Stands(c, AtStar(c.done), Head(text) + rest) && Parsed(text).Some?
    ensures Step(c).Next?
    ensures var c' := Step(c).c;
            if Parsed(text).value % WORD == 0 then Finished(c', rest, c.done + [Command(text, [])])
            else Stands(c', AtDollar(c.done, text, []), rest)
  {
    var u, v := Unread(c), Parsed(text).value;
    ReadAnyLine(STAR, text, rest, |c.buf|);
    assert u == [STAR] + text + CRLF + rest;
    assert c.buf[c.rpos] == u[0];
    hide Parsed;
    hide ReadNumber;
    StarTurn(c, v, |text|);
    hide Step;
    AnyStarAfter(c, text, v, rest);
    hide StarTaken;
    assert c.args == [];
  }

  lemma {:induction false} AnyStarAfter(c: Client, text: seq<Byte>, v: int, rest: seq<Byte>)
    requires c.rpos <= |c.buf| && Unread(c) == [STAR] + text + CRLF + rest
    ensures var c1 := StarTaken(c, v, |text|);
            && c1.rpos <= |c1.buf| && Unread(c1) == rest && c1.multi == v % WORD && c1.bulk == c.bulk
            && c1.head == text && c1.args == c.args && c1.done == c.done
  {
    hide Added;
    assert Unread(StarTaken(c, v, |text|)) == Unread(c)[|text| + 3..] by { hide HeaderTaken; }
    AddedOnly(c.(rpos := c.rpos + |text| + 3), c.buf[c.rpos..c.rpos + |text| + 1] + CRLF);
  }

  lemma {:induction false} FitsRest(args: seq<seq<Byte>>)
    requires Fits(args)
    ensures SizesFit(args)
    decreases |args|
  {
    if args != [] { FitsRest(args[1..]); }
  }

  /** Some of a command's arguments. */
  lemma {:induction false} RunSome(c: Client, head: seq<Byte>, args: seq<seq<Byte>>, more: seq<seq<Byte>>, rest: seq<Byte>)
      returns (c': Client)
    requires Stands(c, AtDollar(c.done, head, args), BulksFrom(more) + rest) && Open(head, args + more)
    ensures Stands(c', AtDollar(c.done, head, args + more), rest) && Run(c) == Run(c')
    decreases |more|
  {
    hide Run;
    hide Step;
    hide Bulk;
    hide Unread;
    hide Parsed;
    if more == [] {
      assert args + more == args && BulksFrom(more) + rest == rest;
      c' := c;
    } else {
      var rest1, a := BulksFrom(more[1..]) + rest, more[0];
      assert a == (args + more)[|args|];
      Regroup(Bulk(a), BulksFrom(more[1..]), rest, [], []);
      RunArgument(c, a, rest1);
      RunStep(c);
      RunStep(Step(c).c);
      var c2 := Step(Step(c).c).c;
      assert (args + [a]) + more[1..] == args + more;
      OpenLess(head, args + [a], more[1..]);
      c' := RunSome(c2, head, args + [a], more[1..], rest);
    }
  }

  lemma {:induction false} OpenLess(head: seq<Byte>, args: seq<seq<Byte>>, more: seq<seq<Byte>>)
    requires Open(head, args + more)
    ensures Open(head, args)
  {
    hide Parsed;
    forall i | 0 <= i < |args| ensures 0 < |args[i]| <= LLONG_MAX { assert args[i] == (args + more)[i]; }
  }

  lemma {:induction false} RunAnyCommand(c: Client, k: Command, rest: seq<Byte>) returns (c2: Client)
    requires Stands(c, AtStar(c.done), Encoded(k) + rest) && IsCommand(k) && Fits(k.args)
    ensures Finished(c2, rest, c.done + [k]) && Run(c) == Run(c2)
  {
    hide Run;
    hide Step;
    hide Bulk;
    hide Unread;
    hide Parsed;
    hide Head;
    BulksBothWays([], k.args);
    assert [] + k.args == k.args && Bulks([]) + BulksFrom(k.args) == BulksFrom(k.args);
    Regroup(Head(k.head), BulksFrom(k.args), rest, [], []);
    RunAnyStar(c, k.head, BulksFrom(k.args) + rest);
    RunStep(c);
    c2 := Step(c).c;
    if k.args == [] {
      assert k == Command(k.head, []) && BulksFrom(k.args) + rest == rest;
    } else {
      FitsRest(k.args);
      var c1 := c2;
      c2 := RunArguments(c1, k.args, rest);
      assert [] + k.args == k.args;
    }
  }

  lemma {:induction false} StreamNone()
    ensures Stream([]) == []
  {
    assert AllEncoded([]) == [];
  }

  lemma {:induction false} StreamSnoc(cs: seq<Command>)
    requires cs != []
    ensures Stream(cs) == Stream(cs[..|cs| - 1]) + Encoded(cs[|cs| - 1])
  {
    hide Encoded;
    var front := cs[..|cs| - 1];
    assert AllEncoded(cs) == AllEncoded(front) + [Encoded(cs[|cs| - 1])];
    FlatAppend(AllEncoded(front), [Encoded(cs[|cs| - 1])]);
    OneFlat(Encoded(cs[|cs| - 1]));
  }

  lemma {:induction false} RunStream(cs: seq<Command>, rest: seq<Byte>) returns (c: Client)
    requires Whole(cs)
    ensures Finished(c, rest, cs) && Run(Feed(INIT, Stream(cs) + rest)) == Run(c)
    decreases |cs|
  {
    hide Run;
    hide Encoded;
    hide Stream;
    hide IsCommand;
    if cs == [] {
      StreamNone();
      assert [] + rest == rest;
      c := Feed(INIT, rest);
    } else {
      var front, last := cs[..|cs| - 1], cs[|cs| - 1];
      StreamSnoc(cs);
      Regroup(Stream(front), Encoded(last), rest, [], []);
      var c1 := RunStream(front, Encoded(last) + rest);
      assert Unread(c1) == c1.buf;
      c := RunAnyCommand(c1, last, rest);
      assert front + [last] == cs;
    }
  }

  /** From the start, the parser comes to every place there is. */
  lemma {:induction false} ComesTo(place: Place, q: seq<Byte>) returns (c: Client)
    requires Is(place)
    ensures Stands(c, place, q) && Run(Feed(INIT, Upto(place) + q)) == Run(c)
  {
    hide Run;
    hide Step;
    hide Stream;
    hide Parsed;
    hide IsCommand;
    match place
    case AtStar(cs) =>
      c := RunStream(cs, q);
      assert Unread(c) == c.buf;
    case AtDollar(cs, head, args) =>
      c := ComesToDollar(cs, head, args, q);
    case AtBody(cs, head, args, n) =>
      c := ComesToDollar(cs, head, args, BulkHead(n) + q);
      Regroup(Stream(cs), Head(head) + Bulks(args), BulkHead(n), q, []);
      UptoBody(cs, head, args, n, q);
      c := RunLength(c, n, q);
  }

  lemma {:induction false} UptoBody(cs: seq<Command>, head: seq<Byte>, args: seq<seq<Byte>>, n: nat, q: seq<Byte>)
    ensures Upto(AtBody(cs, head, args, n)) + q == Upto(AtDollar(cs, head, args)) + (BulkHead(n) + q)
  {
    hide Stream;
    hide Head;
    hide Bulks;
    hide BulkHead;
    var t := Head(head) + Bulks(args);
    assert Stream(cs) + (t + BulkHead(n)) + q == (Stream(cs) + t) + (BulkHead(n) + q);
  }

  lemma {:induction false} ComesToDollar(cs: seq<Command>, head: seq<Byte>, args: seq<seq<Byte>>, q: seq<Byte>)
      returns (c: Client)
    requires Whole(cs) && Open(head, args)
    ensures Stands(c, AtDollar(cs, head, args), q) && Run(Feed(INIT, Upto(AtDollar(cs, head, args)) + q)) == Run(c)
  {
    hide Run;
    hide Step;
    hide Stream;
    hide Parsed;
    hide IsCommand;
    hide Head;
    hide Upto;
    hide BulksFrom;
    hide Unread;
    var rest := BulksFrom(args) + q;
    UptoDollar(cs, head, args, q);
    var c0 := RunStream(cs, Head(head) + rest);
    AtStart(c0, Head(head) + rest, cs);
    hide Finished;
    RunAnyStar(c0, head, rest);
    RunStep(c0);
    assert [] + args == args;
    c := RunSome(Step(c0).c, head, [], args, q);
  }

  lemma {:induction false} AtStart(c: Client, q: seq<Byte>, cs: seq<Command>)
    requires Finished(c, q, cs)
    ensures Stands(c, AtStar(cs), q)
  {
    assert Unread(c) == c.buf;
  }

  lemma {:induction false} UptoDollar(cs: seq<Command>, head: seq<Byte>, args: seq<seq<Byte>>, q: seq<Byte>)
    ensures Upto(AtDollar(cs, head, args)) + q == Stream(cs) + (Head(head) + (BulksFrom(args) + q))
  {
    hide Stream;
    hide Head;
    BulksBothWays([], args);
    assert [] + args == args && Bulks([]) + BulksFrom(args) == BulksFrom(args);
    var h, b := Head(head), BulksFrom(args);
    assert (Stream(cs) + (h + b)) + q == Stream(cs) + (h + (b + q));
  }

  lemma {:induction false} RunLength(c: Client, n: nat, q: seq<Byte>) returns (c': Client)
    requires 0 < n <= LLONG_MAX && Stands(c, AtDollar(c.done, c.head, c.args), BulkHead(n) + q)
    ensures Stands(c', AtBody(c.done, c.head, c.args, n), q) && Run(c) == Run(c')
  {
    hide Parsed;
    hide Run;
    hide Fits;
    hide BulkHead;
    LengthTurn(c, n, q);
    LengthAfter(c, n, |Print(n)|);
    hide DollarTaken;
    hide Step;
    RunStep(c);
    c' := Step(c).c;
  }

  lemma {:induction false} LengthTurn(c: Client, n: nat, q: seq<Byte>)
    requires 0 < n <= LLONG_MAX && c.rpos <= |c.buf| && Unread(c) == BulkHead(n) + q && c.multi > 0 && c.bulk == 0
    ensures var len := |Print(n)|;
            && c.rpos + len + 3 <= |c.buf| && Step(c) == Next(DollarTaken(c, n, len)) && Unread(c)[len + 3..] == q
  {
    var digits := Print(n);
    ReadLine(DOLLAR, n, q, |c.buf|);
    assert Unread(c) == [DOLLAR] + digits + CRLF + q;
    assert c.buf[c.rpos] == Unread(c)[0];
    hide ReadNumber;
    DollarTurn(c, n, |digits|);
    hide Step;
  }

  lemma {:induction false} LengthAfter(c: Client, n: nat, len: nat)
    requires c.rpos + len + 3 <= |c.buf|
    ensures var c' := DollarTaken(c, n, len);
            && c'.rpos <= |c'.buf| && Unread(c') == Unread(c)[len + 3..] && c'.bulk == n
            && c'.multi == c.multi && c'.head == c.head && c'.args == c.args && c'.done == c.done
  {
    AddedOnly(c.(rpos := c.rpos + len + 3), c.buf[c.rpos..c.rpos + len + 1] + CRLF);
    AddedHead(c.(rpos := c.rpos + len + 3), c.buf[c.rpos..c.rpos + len + 1] + CRLF);
    hide Added;
  }

  lemma {:induction false} AddedHead(c: Client, add: seq<Byte>)
    ensures Added(c, add).head == c.head
  {
  }

  lemma {:induction false} StartOk(p: seq<Byte>)
    ensures Wf(Feed(INIT, p)) && Sized(Feed(INIT, p)) && Feed(INIT, p).cmds == [] && Unread(Feed(INIT, p)) == p
  {
    assert AllEncoded([]) == [];
  }

  lemma {:induction false} RunFails(c: Client)
    requires c.rpos <= |c.buf| && Step(c) == Fail(Protocol)
    ensures Run(c) == Err(Protocol)
  {
  }

  /** Where the parser stops reading p. */
  lemma {:induction false} Rests(p: seq<Byte>) returns (c: Client, place: Place, q: seq<Byte>)
    ensures Is(place) && p == Upto(place) + q && Stands(c, place, q)
    ensures match Step(c) case Next(_) => false case Stop => Run(Feed(INIT, p)) == Ok(c) case Fail(e) => Run(Feed(INIT, p)) == Err(e)
  {
    hide Run;
    hide Step;
    hide Wf;
    hide Sized;
    StartOk(p);
    c := WhereItRests(Feed(INIT, p));
    StandsThere(c);
    hide Is;
    hide Stands;
    hide Upto;
    place, q := PlaceOf(c), Unread(c);
    assert Flat([]) + p == p;
  }

  /** A protocol error is the answer to bytes that show something wrong, and to no others. */
  lemma {:induction false} RefusedExactly(p: seq<Byte>)
    ensures Run(Feed(INIT, p)) == Err(Protocol) <==> Refused(p)
  {
    hide Run;
    hide Upto;
    hide Wrong;
    hide Is;
    hide Stands;
    if Run(Feed(INIT, p)) == Err(Protocol) {
      var c, place, q := Rests(p);
      StepRefuses(c, place, q);
    }
    if Refused(p) {
      var place: Place, q :| Is(place) && p == Upto(place) + q && Wrong(place, q);
      var c := ComesTo(place, q);
      StepRefuses(c, place, q);
      RunFails(c) by { assert c.rpos <= |c.buf| by { StandsSound(c, place, q); } }
    }
  }

  lemma {:induction false} StandsSound(c: Client, place: Place, q: seq<Byte>)
    requires Stands(c, place, q)
    ensures c.rpos <= |c.buf| && Unread(c) == q
  {
  }

  // ---------------------------------------------------------------- what could still become commands

  /** Something can follow with which the bytes are a sequence of commands. */
  ghost predicate CanGoOn(p: seq<Byte>) { exists t, cs :: Whole(cs) && p + t == Stream(cs) }

  /** No more is there than the first character of a line, its text, and perhaps the CR. */
  ghost predicate Unended(b: Byte, q: seq<Byte>) { q != [] && q[0] == b && forall i :: EndsAt(q, i) ==> i + 1 == |q| }

  predicate HasCr(q: seq<Byte>) { q != [] && EndsAt(q, |q| - 1) }

  function TextOf(q: seq<Byte>): seq<Byte>
    requires q != []
  {
    if |q| > 1 && HasCr(q) then q[1..|q| - 1] else q[1..]
  }

  /** The beginnings of a number. */
  predicate Begins(text: seq<Byte>) { text == [] || text == [MINUS] || Parsed(text).Some? }

  predicate BeginsLength(text: seq<Byte>) { text == [] || (Parsed(text).Some? && Parsed(text).value > 0) }

  /** What the parser waits with that no more bytes can put right: a line it has not seen the end of, whose text is not
      the beginning of a number; or an argument with the first byte of what should be CRLF wrong. */
  ghost predicate Hopeless(place: Place, q: seq<Byte>) {
    match place
    case AtStar(_) =>
      Unended(STAR, q) && if HasCr(q) then Parsed(TextOf(q)) == None else !Begins(TextOf(q))
    case AtDollar(_, _, _) =>
      Unended(DOLLAR, q) && (!BeginsLength(TextOf(q)) || (HasCr(q) && TextOf(q) == []))
    case AtBody(_, _, _, n) => |q| == n + 1 && q[n] != CR
  }

  ghost predicate Doomed(p: seq<Byte>) { exists place, q :: Is(place) && p == Upto(place) + q && Hopeless(place, q) }

  // ---------------------------------------------------------------- numbers

  lemma {:induction false} CanonicalFront(d: seq<Byte>, k: nat)
    requires Canonical(d) && 0 < k <= |d|
    ensures Canonical(d[..k]) && Val(d[..k]) <= Val(d) && Print(Val(d[..k])) == d[..k]
    ensures Val(d) > 0 ==> Val(d[..k]) > 0
  {
    assert d[..k][0] == d[0];
    ValGrows(d, k);
    CanonicalPrint(d[..k]);
    if d[0] == ZERO { assert d[..k] == d; }
  }

  lemma {:induction false} Beginning(x: seq<Byte>, y: seq<Byte>)
    requires Parsed(x + y).Some?
    ensures Begins(x) && (Parsed(x + y).value > 0 ==> BeginsLength(x))
  {
    var text, v := x + y, Parsed(x + y).value;
    ParsedExactly(text, v);
    if x == [] || y == [] {
      assert y == [] ==> text == x;
    } else if text == [MINUS, ZERO] {
      assert x == text[..|x|] && v == 0;
      ParsedExactly([MINUS, ZERO], 0);
    } else if v < 0 {
      NegativeBeginning(x, y, v);
    } else {
      PrintCanonical(v);
      CanonicalFront(text, |x|);
      assert x == text[..|x|];
      ParsedExactly(x, Val(x));
    }
  }

  lemma {:induction false} NegativeBeginning(x: seq<Byte>, y: seq<Byte>, v: int)
    requires x != [] && v < 0 && IsInt64(v) && x + y == PrintInt(v)
    ensures Begins(x)
  {
    var d := Print(-v);
    PrintCanonical(-v);
    assert x + y == [MINUS] + d;
    assert x[0] == (x + y)[0] == MINUS;
    if |x| > 1 {
      var k := |x| - 1;
      CanonicalFront(d, k);
      var w: int := Val(d[..k]);
      assert x == ([MINUS] + d)[..|x|] == [MINUS] + d[..k];
      ParsedExactly(x, -w);
    } else {
      assert x == [MINUS];
    }
  }

  // ---------------------------------------------------------------- going on

  const ONE_BYTE: seq<Byte> := [65]

  /** Something to follow the arguments read so far. */
  lemma {:induction false} FromArguments(cs: seq<Command>, head: seq<Byte>, args: seq<seq<Byte>>) returns (t: seq<Byte>)
    requires Whole(cs) && Fits(args) && Parsed(head).Some? && |args| <= Parsed(head).value % WORD
    ensures exists ds :: Whole(ds) && Stream(cs) + (Head(head) + Bulks(args)) + t == Stream(ds)
  {
    hide Parsed;
    hide Head;
    hide Bulk;
    var more := seq(Parsed(head).value % WORD - |args|, i => ONE_BYTE);
    t := BulksFrom(more);
    var k := Command(head, args + more);
    BulksBothWays(args, more);
    var ds := cs + [k];
    assert ds[..|ds| - 1] == cs;
    StreamSnoc(ds);
    hide Stream;
    assert Encoded(k) == Head(head) + (Bulks(args) + t);
    Regroup(Head(head), Bulks(args), t, [], []);
    Regroup(Stream(cs), Head(head) + Bulks(args), t, [], []);
    assert Whole(ds);
  }

  lemma {:induction false} GoesOn(p: seq<Byte>, u: seq<Byte>, t: seq<Byte>)
    requires exists ds :: Whole(ds) && (p + u) + t == Stream(ds)
    ensures CanGoOn(p)
  {
    var ds :| Whole(ds) && (p + u) + t == Stream(ds);
    assert p + (u + t) == (p + u) + t;
  }

  /** A header line that could still be one is completed by these bytes. */
  function LineEnd(q: seq<Byte>, fill: seq<Byte>): seq<Byte> { if HasCr(q) then [LF] else fill + CRLF }

  lemma {:induction false} LineEnded(b: Byte, q: seq<Byte>, fill: seq<Byte>)
    requires q != [] && q[0] == b != CR
    ensures q + LineEnd(q, fill) == [b] + (TextOf(q) + if HasCr(q) then [] else fill) + CRLF
  {
    if HasCr(q) {
      assert q == [b] + q[1..|q| - 1] + [CR];
    } else {
      assert q == [b] + q[1..];
    }
  }

  lemma {:induction false} StarGoesOn(cs: seq<Command>, q: seq<Byte>)
    requires Whole(cs) && (q == [] || Unended(STAR, q)) && !Hopeless(AtStar(cs), q)
    ensures CanGoOn(Stream(cs) + q)
  {
    hide Stream;
    hide Parsed;
    if q == [] {
      assert Stream(cs) + [] + [] == Stream(cs);
    } else {
      var fill := if TextOf(q) == [] || TextOf(q) == [MINUS] then [ZERO] else [];
      var text := TextOf(q) + if HasCr(q) then [] else fill;
      ZeroParsed();
      assert [] + [ZERO] == [ZERO] && [MINUS] + [ZERO] == [MINUS, ZERO] && TextOf(q) + [] == TextOf(q);
      assert Parsed(text).Some?;
      LineEnded(STAR, q, fill);
      var u := LineEnd(q, fill);
      assert q + u == Head(text);
      hide LineEnd;
      hide Head;
      var t := FromArguments(cs, text, []);
      assert Head(text) + Bulks([]) == Head(text);
      assert (Stream(cs) + q) + u == Stream(cs) + (q + u);
      GoesOn(Stream(cs) + q, u, t);
    }
  }

  lemma {:induction false} ZeroParsed()
    ensures Parsed([ZERO]) == Some(0) && Parsed([MINUS, ZERO]) == Some(0) && Print(1) == [49] && Parsed([49]) == Some(1)
  {
    ParsedExactly([ZERO], 0);
    ParsedExactly([MINUS, ZERO], 0);
    ParsedExactly([49], 1);
    assert Print(0) == [ZERO] && Print(1) == [49];
  }

  /** The rest of an argument of n bytes, of which some are there. */
  lemma {:induction false} BodyGoesOn(cs: seq<Command>, head: seq<Byte>, args: seq<seq<Byte>>, n: nat, q: seq<Byte>)
    requires Whole(cs) && Open(head, args) && 0 < n <= LLONG_MAX
    requires |q| <= n || (|q| == n + 1 && q[n] == CR)
    ensures CanGoOn(Upto(AtBody(cs, head, args, n)) + q)
  {
    hide Stream;
    hide Parsed;
    hide Head;
    hide Bulks;
    hide BulkHead;
    var fill := seq(if |q| <= n then n - |q| else 0, i => ONE_BYTE[0]);
    var u := if |q| <= n then fill + CRLF else [LF];
    var a := if |q| <= n then q + fill else q[..n];
    assert q + u == a + CRLF && |a| == n;
    var t := FromArguments(cs, head, args + [a]);
    BulksSnoc(args, a);
    assert Bulk(a) == BulkHead(n) + a + CRLF;
    BodyBytes(cs, head, args, n, a, q, u);
    GoesOn(Upto(AtBody(cs, head, args, n)) + q, u, t);
  }

  lemma {:induction false} BodyBytes(cs: seq<Command>, head: seq<Byte>, args: seq<seq<Byte>>, n: nat, a: seq<Byte>, q: seq<Byte>, u: seq<Byte>)
    requires q + u == a + CRLF
    ensures (Upto(AtBody(cs, head, args, n)) + q) + u == Stream(cs) + (Head(head) + (Bulks(args) + (BulkHead(n) + a + CRLF)))
  {
    hide Stream;
    hide Head;
    hide Bulks;
    hide BulkHead;
    var s, h, b, l := Stream(cs), Head(head), Bulks(args), BulkHead(n);
    assert ((s + (h + b + l)) + q) + u == (s + (h + b + l)) + (q + u);
    assert (s + (h + b + l)) + (a + CRLF) == s + (h + (b + (l + a + CRLF)));
  }

  lemma {:induction false} DollarGoesOn(cs: seq<Command>, head: seq<Byte>, args: seq<seq<Byte>>, q: seq<Byte>)
    requires Whole(cs) && Open(head, args) && (q == [] || Unended(DOLLAR, q)) && !Hopeless(AtDollar(cs, head, args), q)
    ensures CanGoOn(Upto(AtDollar(cs, head, args)) + q)
  {
    hide Stream;
    hide Parsed;
    hide Head;
    hide Bulks;
    var p := Upto(AtDollar(cs, head, args));
    if q == [] {
      var t := FromArguments(cs, head, args);
      assert (p + q) + [] == p;
      GoesOn(p + q, [], t);
    } else {
      ZeroParsed();
      var fill := if TextOf(q) == [] then [49] else [];
      var text := TextOf(q) + if HasCr(q) then [] else fill;
      assert [] + [49] == [49] && TextOf(q) + [] == TextOf(q);
      assert Parsed(text).Some? && Parsed(text).value > 0;
      var n := Parsed(text).value;
      LengthIs(text);
      ParsedExactly(text, n);
      LineEnded(DOLLAR, q, fill);
      var u := LineEnd(q, fill);
      hide LineEnd;
      hide TextOf;
      assert q + u == BulkHead(n);
      BodyGoesOn(cs, head, args, n, []);
      UptoBody(cs, head, args, n, []);
      Longer(p + q, u, Upto(AtBody(cs, head, args, n)) + []) by {
        assert BulkHead(n) + [] == BulkHead(n);
        assert (p + q) + u == p + (q + u);
      }
    }
  }

  lemma {:induction false} Longer(p: seq<Byte>, u: seq<Byte>, p1: seq<Byte>)
    requires p1 == p + u && CanGoOn(p1)
    ensures CanGoOn(p)
  {
    var t: seq<Byte>, cs :| Whole(cs) && p1 + t == Stream(cs);
    GoesOn(p, u, t);
  }

  // ---------------------------------------------------------------- no going on

  /** Bytes that could still become commands are not refused. */
  lemma {:induction false} RefusedForGood(p: seq<Byte>)
    requires CanGoOn(p)
    ensures Run(Feed(INIT, p)) != Err(Protocol)
  {
    var t: seq<Byte>, cs :| Whole(cs) && p + t == Stream(cs);
    hide Run;
    hide Stream;
    RunMore(Feed(INIT, p), t);
    assert Feed(Feed(INIT, p), t) == Feed(INIT, p + t);
    StreamIsRead(cs);
  }

  lemma {:induction false} EndsLater(q: seq<Byte>, t: seq<Byte>, i: int)
    requires EndsAt(q + t, i)
    ensures i < |q| ==> EndsAt(q, i)
  {
    if i < |q| { assert (q + t)[..i] == q[..i]; }
  }

  lemma {:induction false} EndsStill(q: seq<Byte>, t: seq<Byte>, i: int)
    requires EndsAt(q, i)
    ensures EndsAt(q + t, i)
  {
    assert (q + t)[..i] == q[..i];
  }

  /** The text of a whole line starts with that of a line not ended. */
  lemma {:induction false} TextGrows(b: Byte, q: seq<Byte>, t: seq<Byte>, i: int) returns (y: seq<Byte>)
    requires Unended(b, q) && b != CR && EndsAt(q + t, i) && 0 < i && i + 1 < |q + t|
    ensures (q + t)[1..i] == TextOf(q) + y && (HasCr(q) ==> y == [])
  {
    var u := q + t;
    if HasCr(q) {
      EndsStill(q, t, |q| - 1);
      EndsOnce(u, i, |q| - 1);
      y := [];
      assert u[1..i] == q[1..i] + [];
    } else {
      if i < |q| { EndsLater(q, t, i); }
      y := u[|q|..i];
      assert u[1..i] == q[1..] + y;
    }
  }

  /** Nothing that follows puts it right. */
  lemma {:induction false} StaysHopeless(c: Client, place: Place, q: seq<Byte>, t: seq<Byte>)
    requires Stands(c, place, q + t) && Hopeless(place, q)
    ensures !Step(c).Next? && q + t != []
  {
    var u := q + t;
    hide Parsed;
    hide Fits;
    if place.AtBody? {
      assert u[place.n] == q[place.n];
    } else {
      var b := if place.AtStar? then STAR else DOLLAR;
      assert c.buf[c.rpos] == u[0] == q[0] == b;
      if Step(c).Next? {
        assert ReadNumber(u, |c.buf|).Number?;
        hide Step;
        LineIsGood(b, q, t, |c.buf|, place);
      }
    }
  }

  lemma {:induction false} LineIsGood(b: Byte, q: seq<Byte>, t: seq<Byte>, wpos: nat, place: Place)
    requires b == (if place.AtStar? then STAR else DOLLAR) && !place.AtBody? && Unended(b, q)
    requires q + t != [] && (q + t)[0] != CR && ReadNumber(q + t, wpos).Number?
    requires place.AtDollar? ==> ReadNumber(q + t, wpos).v > 0
    ensures !Hopeless(place, q)
  {
    var u, r := q + t, ReadNumber(q + t, wpos);
    var i := r.len + 1;
    FindCrExactly(u, i);
    assert FindCr(u) == Some(i);
    hide ReadNumber;
    var y := TextGrows(b, q, t, i);
    Beginning(TextOf(q), y);
    assert TextOf(q) + [] == TextOf(q);
    ParsedExactly([], r.v);
    hide Parsed;
  }

  lemma {:induction false} StreamIsRead(cs: seq<Command>)
    requires Whole(cs)
    ensures var r := Run(Feed(INIT, Stream(cs))); r.Ok? && r.c.buf == [] && r.c.done == cs
  {
    hide Run;
    hide Stream;
    var c := RunStream(cs, []);
    assert Stream(cs) + [] == Stream(cs);
    RunNothing(c);
  }

  lemma {:induction false} NeverRead(place: Place, q: seq<Byte>, t: seq<Byte>)
    requires Is(place) && Hopeless(place, q)
    ensures var r := Run(Feed(INIT, Upto(place) + (q + t))); r.Ok? ==> r.c.buf != []
  {
    hide Run;
    hide Upto;
    hide Is;
    hide Hopeless;
    hide Stands;
    hide Step;
    var c := ComesTo(place, q + t);
    StaysHopeless(c, place, q, t);
    StandsSound(c, place, q + t);
    NotNext(c);
  }

  lemma {:induction false} HopelessNoError(place: Place, q: seq<Byte>)
    requires Is(place) && Hopeless(place, q)
    ensures Run(Feed(INIT, Upto(place) + q)) != Err(Protocol)
  {
    hide Run;
    hide Upto;
    hide Is;
    hide Hopeless;
    hide Stands;
    hide Step;
    hide Wrong;
    var c := ComesTo(place, q);
    assert q + [] == q;
    StaysHopeless(c, place, q, []);
    HopelessWaits(place, q);
    StepRefuses(c, place, q);
    StandsSound(c, place, q);
    NotNext(c);
  }

  lemma {:induction false} NoStream(place: Place, q: seq<Byte>, t: seq<Byte>, cs: seq<Command>)
    requires Is(place) && Hopeless(place, q) && Whole(cs)
    ensures (Upto(place) + q) + t != Stream(cs)
  {
    hide Run;
    hide Stream;
    hide Upto;
    hide Is;
    hide Hopeless;
    hide Whole;
    NeverRead(place, q, t);
    StreamIsRead(cs);
    assert (Upto(place) + q) + t == Upto(place) + (q + t);
  }

  lemma {:induction false} DoomedForGood(p: seq<Byte>)
    requires Doomed(p)
    ensures !CanGoOn(p) && Run(Feed(INIT, p)) != Err(Protocol)
  {
    hide Run;
    hide Stream;
    hide Upto;
    hide Is;
    hide Hopeless;
    hide Whole;
    var place: Place, q :| Is(place) && p == Upto(place) + q && Hopeless(place, q);
    HopelessNoError(place, q);
    forall t: seq<Byte>, cs | Whole(cs) ensures p + t != Stream(cs) { NoStream(place, q, t, cs); }
  }

  lemma {:induction false} NotNext(c: Client)
    requires c.rpos <= |c.buf| && !Step(c).Next?
    ensures Run(c) == match Step(c) case Fail(e) => Err(e) case _ => Ok(c)
  {
  }

  lemma {:induction false} HopelessWaits(place: Place, q: seq<Byte>)
    requires Hopeless(place, q)
    ensures !Wrong(place, q)
  {
    hide Parsed;
    hide TextOf;
  }

  /** What a parser that has stopped without an error is waiting for. */
  lemma {:induction false} WaitsFor(c: Client, place: Place, q: seq<Byte>)
    requires Stands(c, place, q) && !Step(c).Next? && Step(c) != Fail(Protocol)
    ensures match place
            case AtStar(_) => q == [] || Unended(STAR, q)
            case AtDollar(_, _, _) => q == [] || Unended(DOLLAR, q)
            case AtBody(_, _, _, n) => |q| < n + 2
  {
    hide Parsed;
    hide Fits;
    if !place.AtBody? && q != [] {
      assert c.buf[c.rpos] == q[0];
      forall i | EndsAt(q, i) ensures i + 1 == |q| { FindCrExactly(q, i); }
    }
  }

  lemma {:induction false} WaitingGoesOn(c: Client, place: Place, q: seq<Byte>)
    requires Is(place) && Stands(c, place, q) && !Step(c).Next? && Step(c) != Fail(Protocol) && !Hopeless(place, q)
    ensures CanGoOn(Upto(place) + q)
  {
    WaitsFor(c, place, q);
    hide Step;
    hide Stands;
    hide Stream;
    match place
    case AtStar(cs) => StarGoesOn(cs, q);
    case AtDollar(cs, head, args) => DollarGoesOn(cs, head, args, q);
    case AtBody(cs, head, args, n) => BodyGoesOn(cs, head, args, n, q);
  }

  /** Bytes that cannot become commands are refused, or the parser is waiting with something hopeless. */
  lemma {:induction false} NoGoingOn(p: seq<Byte>)
    ensures !CanGoOn(p) <==> Refused(p) || Doomed(p)
  {
    hide Run;
    hide Upto;
    hide Is;
    hide Hopeless;
    hide Wrong;
    hide Stands;
    hide Step;
    hide CanGoOn;
    hide Refused;
    RefusedExactly(p);
    if Doomed(p) { DoomedForGood(p); }
    hide Doomed;
    if CanGoOn(p) {
      RefusedForGood(p);
    } else if !Refused(p) {
      var c, place, q := Rests(p);
      if !Hopeless(place, q) { WaitingGoesOn(c, place, q); }
      assert Doomed(p) by { DoomedBy(p, place, q); }
    }
  }

  lemma {:induction false} DoomedBy(p: seq<Byte>, place: Place, q: seq<Byte>)
    requires Is(place) && p == Upto(place) + q && Hopeless(place, q)
    ensures Doomed(p)
  {
  }

  /** So "a protocol error if and only if nothing can follow" holds of p exactly if p is not doomed. */
  lemma {:induction false} ErrorUnlessDoomed(p: seq<Byte>)
    ensures (Run(Feed(INIT, p)) == Err(Protocol) <==> !CanGoOn(p)) <==> !Doomed(p)
  {
    hide Run;
    hide CanGoOn;
    hide Refused;
    RefusedExactly(p);
    NoGoingOn(p);
    if Doomed(p) { DoomedForGood(p); }
    hide Doomed;
  }

  // ---------------------------------------------------------------- however the bytes arrive

  /** The same for any cut into reads: what is refused ends the client, if a line that is too long has not done so, and
      nothing else is a protocol error. */
  lemma {:induction false} ReadsRefusedExactly(chunks: seq<seq<Byte>>)
    ensures FeedAll(INIT, chunks) == Err(Protocol) ==> Refused(Join(chunks))
    ensures Refused(Join(chunks)) ==> FeedAll(INIT, chunks).Err?
    ensures Refused(Join(chunks)) && |Join(chunks)| <= MAX_INLINE_SIZE ==> FeedAll(INIT, chunks) == Err(Protocol)
  {
    hide Run;
    hide Refused;
    assert Quiet(INIT);
    ChunkIndependence(INIT, chunks);
    RefusedExactly(Join(chunks));
    if FeedAll(INIT, chunks) == Err(TooBig) { HeaderLimit(INIT, chunks); }
  }

  const X_LINE: seq<Byte> := [STAR, 120] // "*x"

  lemma {:induction false} NoNumberThere()
    ensures Is(AtStar([])) && Upto(AtStar([])) == [] && Hopeless(AtStar([]), X_LINE) && Wrong(AtStar([]), X_LINE + CRLF)
  {
    StreamNone();
    var q := X_LINE + CRLF;
    assert EndsAt(q, 2) && q[1..2] == [120] && q[3] == LF;
    assert Parsed([120]) == None;
    assert TextOf(X_LINE) == [120];
  }

  /** An asterisk and something that no number starts with: nothing can follow, but the parser waits; with the end of
      the line, it is an error. */
  lemma {:induction false} NoNumber()
    ensures Run(Feed(INIT, X_LINE)) == Ok(Feed(INIT, X_LINE)) && !CanGoOn(X_LINE)
    ensures Run(Feed(INIT, X_LINE + CRLF)) == Err(Protocol)
  {
    var start, c := AtStar([]), Feed(INIT, X_LINE);
    assert c.buf == X_LINE && Unread(c) == X_LINE;
    assert FindCr(X_LINE) == None && Step(c) == Stop;
    NotNext(c);
    NoNumberThere();
    hide Run;
    hide Step;
    hide Is;
    hide Upto;
    hide Hopeless;
    hide Wrong;
    assert [] + X_LINE == X_LINE && [] + (X_LINE + CRLF) == X_LINE + CRLF;
    DoomedBy(X_LINE, start, X_LINE);
    DoomedForGood(X_LINE);
    RefusedBy(X_LINE + CRLF, start, X_LINE + CRLF);
    RefusedExactly(X_LINE + CRLF);
  }

  lemma {:induction false} RefusedBy(p: seq<Byte>, place: Place, q: seq<Byte>)
    requires Is(place) && p == Upto(place) + q && Wrong(place, q)
    ensures Refused(p)
  {
  }
}
