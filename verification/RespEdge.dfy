/** The reads that the text of src/proto/multibulk.c takes for protocol errors, told from their bytes alone. */
module RespEdge {
  import opened Wrappers
  import opened Decimal
  import opened Resp
  import opened RespMeaning
  import opened RespAsWritten

  /** A header line up to its '\r'. */
  function HeaderCut(b: Byte, n: nat): seq<Byte> { [b] + Print(n) + [CR] }

  /** A beginning of some arguments that ends just before a '$' line, or on the '\r' of one. */
  predicate ArgumentsEdge(more: seq<seq<Byte>>, q: seq<Byte>) {
    more != [] &&
    (q == [] || q == HeaderCut(DOLLAR, |more[0]|)
     || (|q| >= |Bulk(more[0])| && ArgumentsEdge(more[1..], q[|Bulk(more[0])|..])))
  }

  predicate CommandEdge(args: seq<seq<Byte>>, p: seq<Byte>) {
    || p == HeaderCut(STAR, |args|)
    || (|p| >= |Head(Print(|args|))| && ArgumentsEdge(args, p[|Head(Print(|args|))|..]))
  }

  /** A beginning of a stream of commands that ends inside a command, just before a '$' line or on the '\r' of
      any header line. */
  predicate Edge(cs: seq<seq<seq<Byte>>>, p: seq<Byte>) {
    cs != [] &&
    var e := Encoded(Usual(cs[0]));
    if |p| < |e| then CommandEdge(cs[0], p) else Edge(cs[1..], p[|e|..])
  }

  // ---------------------------------------------------------------- failing is a matter of where Run ends

  predicate Fails(c: Client)
    requires c.rpos <= |c.buf|
  {
    match Run(c)
    case Err(e) => e == Protocol
    case Ok(q) => q.rpos <= |q.buf| && AtEdge(q)
  }

  lemma {:induction false} FailsIsError(c: Client)
    requires c.rpos <= |c.buf|
    ensures RunAsWritten(c) == Err(Protocol) <==> Fails(c)
  {
    RightUnlessAtEdge(c);
  }

  lemma {:induction false} RunsAlike(c: Client, c1: Client)
    requires c.rpos <= |c.buf| && c1.rpos <= |c1.buf| && Run(c) == Run(c1)
    ensures Fails(c) == Fails(c1)
  {
  }

  lemma {:induction false} Stopped(c: Client)
    requires c.rpos <= |c.buf| && (Step(c) == Stop || Step(c) == Fail(TooBig))
    ensures Fails(c) <==> Step(c) == Stop && AtEdge(c)
  {
  }

  // ---------------------------------------------------------------- unfinished header lines

  lemma {:induction false} FindCrOpen(b: Byte, text: seq<Byte>)
    requires b != CR && b != NUL && Digits(text)
    ensures FindCr([b] + text) == None && FindCr([b] + text + [CR]) == Some(|text| + 1)
    decreases |text|
  {
    var s, t := [b] + text, [b] + text + [CR];
    if text == [] {
      assert s[1..] == [] && t[1..] == [CR];
      assert FindCr([CR]) == Some(0);
    } else {
      assert s[1..] == [text[0]] + text[1..] && t[1..] == [text[0]] + text[1..] + [CR];
      FindCrOpen(text[0], text[1..]);
    }
  }

  /** A beginning of a header line: it has no '\r', or ends with it. */
  lemma {:induction false} LineBegun(b: Byte, n: nat, p: seq<Byte>)
    requires b != CR && b != NUL && p != [] && p <= [b] + Print(n) + CRLF && |p| < |Print(n)| + 3
    ensures p[0] == b && FindCr(p) == if p == HeaderCut(b, n) then Some(|p| - 1) else None
  {
    hide Print;
    var text, line := Print(n), [b] + Print(n) + CRLF;
    if |p| == |text| + 2 {
      assert p == line[..|p|] == [b] + text + [CR];
      FindCrOpen(b, text);
    } else {
      assert p == line[..|p|] == [b] + text[..|p| - 1];
      assert |p| != |HeaderCut(b, n)|;
      FindCrOpen(b, text[..|p| - 1]);
    }
  }

  /** Waiting for the rest of a header line fails exactly on its '\r'. */
  lemma {:induction false} LineFails(c: Client, n: nat)
    requires c.rpos < |c.buf| && !(c.multi > 0 && c.bulk > 0)
    requires var b, u := if c.multi == 0 then STAR else DOLLAR, Unread(c);
             u <= [b] + Print(n) + CRLF && |u| < |Print(n)| + 3
    ensures Fails(c) <==> Unread(c) == HeaderCut(if c.multi == 0 then STAR else DOLLAR, n)
  {
    hide Print;
    var b := if c.multi == 0 then STAR else DOLLAR;
    LineBegun(b, n, Unread(c));
    assert c.buf[c.rpos] == Unread(c)[0];
    Stopped(c);
  }

  // ---------------------------------------------------------------- arguments

  /** The header of an argument, whatever follows. */
  lemma {:induction false} HeaderTurn(c: Client, a: seq<Byte>, rest: seq<Byte>)
    requires c.rpos <= |c.buf| && c.multi > 0 && c.bulk == 0 && 0 < |a| <= LLONG_MAX && Unread(c) == BulkHead(|a|) + rest
    ensures Step(c).Next?
    ensures var c1 := Step(c).c; c1.rpos <= |c1.buf| && Unread(c1) == rest && c1.multi == c.multi && c1.bulk == |a|
  {
    hide ReadNumber;
    hide Print;
    ReadLine(DOLLAR, |a|, rest, |c.buf|);
    assert c.buf[c.rpos] == Unread(c)[0];
    DollarTurn(c, |a|, |Print(|a|)|);
    assert Unread(DollarTaken(c, |a|, |Print(|a|)|)) == Unread(c)[|Print(|a|)| + 3..];
  }

  /** Waiting for the rest of an argument is right. */
  lemma {:induction false} BodyWaits(c: Client)
    requires c.rpos <= |c.buf| && c.multi > 0 && c.bulk > 0 && |Unread(c)| < c.bulk + 2
    ensures !Fails(c)
  {
    Stopped(c);
  }

  lemma {:induction false} ArgumentCut(c: Client, a: seq<Byte>, q: seq<Byte>)
    requires c.rpos <= |c.buf| && c.multi > 0 && c.bulk == 0 && 0 < |a| <= LLONG_MAX
    requires Unread(c) == q != [] && q <= Bulk(a) && q != Bulk(a)
    ensures Fails(c) <==> q == HeaderCut(DOLLAR, |a|)
  {
    hide Print;
    hide Run;
    hide Fails;
    var head := BulkHead(|a|);
    if |q| < |head| {
      assert q <= head;
      assert head == [DOLLAR] + Print(|a|) + CRLF;
      LineFails(c, |a|);
    } else {
      var rest := q[|head|..];
      assert q[..|head|] == Bulk(a)[..|head|] == head;
      assert q == head + rest;
      HeaderTurn(c, a, rest);
      RunStep(c);
      var c1 := Step(c).c;
      RunsAlike(c, c1);
      BodyWaits(c1);
    }
  }

  lemma {:induction false} ArgumentsFail(c: Client, more: seq<seq<Byte>>, q: seq<Byte>)
    requires c.rpos <= |c.buf| && c.multi == |more| > 0 && c.bulk == 0 && SizesFit(more)
    requires Unread(c) == q && q <= BulksFrom(more) && q != BulksFrom(more)
    ensures Fails(c) <==> ArgumentsEdge(more, q)
    decreases |more|
  {
    hide Run;
    hide Bulk;
    hide Step;
    var a, b := more[0], Bulk(more[0]);
    if q == [] {
      BeforeDollar(c);
    } else if |q| < |b| {
      assert q <= b by { assert q == BulksFrom(more)[..|q|] == b[..|q|]; }
      ArgumentCut(c, a, q);
    } else {
      var rest := q[|b|..];
      assert q[..|b|] == BulksFrom(more)[..|b|] == b;
      assert q == b + rest;
      assert rest <= BulksFrom(more[1..]) && rest != BulksFrom(more[1..]) by {
        assert BulksFrom(more) == b + BulksFrom(more[1..]);
        assert rest == BulksFrom(more)[..|q|][|b|..] == BulksFrom(more[1..])[..|rest|];
      }
      assert more[1..] != [];
      RunArgument(c, a, rest);
      RunStep(c);
      RunStep(Step(c).c);
      var c2 := Step(Step(c).c).c;
      RunsAlike(c, c2);
      ArgumentsFail(c2, more[1..], rest);
      HeaderIsShort(a, q);
    }
  }

  lemma {:induction false} HeaderIsShort(a: seq<Byte>, q: seq<Byte>)
    requires |q| >= |Bulk(a)|
    ensures q != [] && q != HeaderCut(DOLLAR, |a|)
  {
  }

  lemma {:induction false} BeforeDollar(c: Client)
    requires c.rpos == |c.buf| && c.multi > 0 && c.bulk == 0
    ensures Fails(c)
  {
    Stopped(c);
  }

  // ---------------------------------------------------------------- commands

  lemma {:induction false} CommandFails(c: Client, args: seq<seq<Byte>>, p: seq<Byte>)
    requires c.rpos <= |c.buf| && c.multi == 0 && c.bulk == 0 && Sendable(args)
    requires Unread(c) == p != [] && p <= Encoded(Usual(args)) && p != Encoded(Usual(args))
    ensures Fails(c) <==> CommandEdge(args, p)
  {
    hide Run;
    hide Print;
    hide Step;
    hide Fails;
    hide Encoded;
    hide Head;
    hide BulksFrom;
    var head := Head(Print(|args|));
    EncodedParts(args);
    if |p| < |head| {
      assert p == (head + BulksFrom(args))[..|p|] == head[..|p|];
      StarCut(c, args, p);
    } else {
      var rest := p[|head|..];
      BehindHead(head, BulksFrom(args), p);
      RunStar(c, |args|, rest);
      RunStep(c);
      RunsAlike(c, Step(c).c);
      ArgumentsFail(Step(c).c, args, rest);
      StarLonger(args, p);
    }
  }

  lemma {:induction false} EncodedParts(args: seq<seq<Byte>>)
    ensures Encoded(Usual(args)) == Head(Print(|args|)) + BulksFrom(args)
  {
    hide Print;
    BulksBothWays([], args);
    assert [] + args == args;
    var none: seq<Byte> := [];
    assert Bulks([]) == none && none + BulksFrom(args) == BulksFrom(args);
  }

  lemma {:induction false} BehindHead(head: seq<Byte>, body: seq<Byte>, p: seq<Byte>)
    requires p <= head + body && p != head + body && |p| >= |head|
    ensures var rest := p[|head|..]; p == head + rest && rest <= body && rest != body
  {
    var rest := p[|head|..];
    assert p == (head + body)[..|p|];
    assert p[..|head|] == head;
    assert p == head + rest;
    assert rest == body[..|rest|];
  }

  lemma {:induction false} StarCut(c: Client, args: seq<seq<Byte>>, p: seq<Byte>)
    requires c.rpos <= |c.buf| && c.multi == 0 && c.bulk == 0
    requires Unread(c) == p != [] && p <= Head(Print(|args|)) && |p| < |Head(Print(|args|))|
    ensures Fails(c) <==> CommandEdge(args, p)
  {
    hide Print;
    hide Run;
    hide Fails;
    LineFails(c, |args|);
  }

  lemma {:induction false} StarLonger(args: seq<seq<Byte>>, p: seq<Byte>)
    requires |p| >= |Head(Print(|args|))|
    ensures p != HeaderCut(STAR, |args|)
  {
  }

  /** On bytes: reading a beginning p of any stream of commands, the text reports a protocol error exactly if p ends
      inside a command just before a '$' line, or on the '\r' of a header line. */
  lemma {:induction false} FailsExactlyAtEdges(c: Client, cs: seq<seq<seq<Byte>>>, p: seq<Byte>, done: seq<Command>)
    requires Finished(c, p, done) && AllSendable(cs) && p <= AllUsual(cs)
    ensures ProcessAsWritten(c) == Err(Protocol) <==> Edge(cs, p)
  {
    StreamFails(c, cs, p, done);
    FailsIsError(c);
    if p == [] {
      NothingRead(c);
    }
  }

  lemma {:induction false} NothingRead(c: Client)
    requires c.rpos == |c.buf| && c.multi == 0
    ensures !Fails(c)
  {
    Stopped(c);
  }

  lemma {:induction false} StreamFails(c: Client, cs: seq<seq<seq<Byte>>>, p: seq<Byte>, done: seq<Command>)
    requires Finished(c, p, done) && AllSendable(cs) && p <= AllUsual(cs)
    ensures Fails(c) <==> Edge(cs, p)
    decreases |cs|
  {
    hide Run;
    hide Fails;
    hide Step;
    hide Encoded;
    hide CommandEdge;
    assert Unread(c) == p;
    if p == [] {
      NothingRead(c);
      NoEdgeInNothing(cs);
    } else {
      assert cs != [];
      var e := Encoded(Usual(cs[0]));
      if |p| < |e| {
        assert p == AllUsual(cs)[..|p|] == e[..|p|];
        CommandFails(c, cs[0], p);
      } else {
        var rest := p[|e|..];
        assert p == e + rest by { assert p[..|e|] == AllUsual(cs)[..|e|] == e; }
        assert rest == AllUsual(cs)[..|p|][|e|..] == AllUsual(cs[1..])[..|rest|];
        var c2 := RunCommand(c, cs[0], rest);
        RunsAlike(c, c2);
        StreamFails(c2, cs[1..], rest, c2.done);
      }
    }
  }

  lemma {:induction false} NoEdgeInNothing(cs: seq<seq<seq<Byte>>>)
    ensures !Edge(cs, [])
  {
  }

  // ---------------------------------------------------------------- one read after another

  lemma {:induction false} ProcessStays(c: Client)
    requires c.rpos <= |c.buf|
    ensures ProcessAsWritten(c).Ok? ==> ProcessAsWritten(c).c.rpos <= |ProcessAsWritten(c).c.buf|
  {
    RightUnlessAtEdge(c);
    RunMore(c, []);
    hide Run;
    hide RunAsWritten;
  }

  /** One processClient of the text for every read. */
  function FeedAllAsWritten(c: Client, chunks: seq<seq<Byte>>): Outcome
    requires c.rpos <= |c.buf|
    decreases chunks
  {
    if chunks == [] then Ok(c)
    else
      ProcessStays(Feed(c, chunks[0]));
      match ProcessAsWritten(Feed(c, chunks[0]))
      case Err(e) => Err(e)
      case Ok(c1) => FeedAllAsWritten(c1, chunks[1..])
  }

  /** After p, no read ends at an edge or on the size limit. */
  ghost predicate Clean(c: Client, cs: seq<seq<seq<Byte>>>, p: seq<Byte>, chunks: seq<seq<Byte>>)
    requires c.rpos <= |c.buf|
    decreases chunks
  {
    chunks == [] ||
    (CleanAt(c, cs, p + chunks[0]) && Clean(c, cs, p + chunks[0], chunks[1..]))
  }

  ghost predicate CleanAt(c: Client, cs: seq<seq<seq<Byte>>>, p: seq<Byte>)
    requires c.rpos <= |c.buf|
  {
    !Edge(cs, p) && Run(Feed(c, p)) != Err(TooBig)
  }

  lemma {:induction false} ReadsFrom(c: Client, c1: Client, cs: seq<seq<seq<Byte>>>, p: seq<Byte>, chunks: seq<seq<Byte>>, done: seq<Command>)
    requires Finished(c, [], done) && AllSendable(cs) && p + Join(chunks) <= AllUsual(cs)
    requires Run(Feed(c, p)) == Ok(c1) && !Edge(cs, p)
    ensures c1.rpos <= |c1.buf| && (FeedAllAsWritten(c1, chunks).Ok? <==> Clean(c, cs, p, chunks))
    ensures FeedAllAsWritten(c1, chunks).Ok? ==> FeedAllAsWritten(c1, chunks) == FeedAll(c1, chunks)
    decreases chunks
  {
    hide Run;
    hide Fails;
    hide Edge;
    hide AllUsual;
    hide ProcessAsWritten;
    RunMore(Feed(c, p), []);
    if chunks != [] {
      var b, rest := chunks[0], Join(chunks[1..]);
      assert p + (b + rest) == (p + b) + rest;
      NextRead(c, c1, cs, p, b, done);
      ProcessStays(Feed(c1, b));
      RunMore(Feed(c1, b), []);
      if ProcessAsWritten(Feed(c1, b)).Ok? {
        ReadsFrom(c, ProcessAsWritten(Feed(c1, b)).c, cs, p + b, chunks[1..], done);
      }
    }
  }

  lemma {:induction false} NextRead(c: Client, c1: Client, cs: seq<seq<seq<Byte>>>, p: seq<Byte>, b: seq<Byte>, done: seq<Command>)
    requires Finished(c, [], done) && AllSendable(cs) && p + b <= AllUsual(cs)
    requires Run(Feed(c, p)) == Ok(c1) && c1.rpos <= |c1.buf| && !Edge(cs, p)
    ensures Run(Feed(c1, b)) == Run(Feed(c, p + b))
    ensures ProcessAsWritten(Feed(c1, b)).Ok? <==> !Edge(cs, p + b) && Run(Feed(c, p + b)) != Err(TooBig)
    ensures ProcessAsWritten(Feed(c1, b)).Ok? ==> ProcessAsWritten(Feed(c1, b)) == Run(Feed(c, p + b))
  {
    hide Run;
    hide Edge;
    hide AllUsual;
    var x, y := Feed(c1, b), Feed(c, p + b);
    RunMore(Feed(c, p), b);
    assert Feed(Feed(c, p), b) == y by { assert (c.buf + p) + b == c.buf + (p + b); }
    assert Unread(y) == p + b;
    StreamFails(y, cs, p + b, done);
    RunsAlike(x, y);
    FailsIsError(x);
    RightUnlessAtEdge(x);
    RunIsQuiet(Feed(c, p));
    if x.rpos == |x.buf| {
      assert b == [] && x == c1 && p + b == p;
      QuietRun(c1);
    }
    NoProtocol(y);
  }

  /** On a good stream the parser as it should be makes no protocol error. */
  lemma {:induction false} NoProtocol(c: Client)
    requires c.rpos <= |c.buf|
    ensures !Fails(c) ==> Run(c) != Err(Protocol)
  {
  }

  /** A read after which the text fails: the bytes up to it end at an edge, or on the size limit. */
  ghost predicate BadAt(c: Client, cs: seq<seq<seq<Byte>>>, chunks: seq<seq<Byte>>, k: nat)
    requires c.rpos <= |c.buf| && k <= |chunks|
  {
    Edge(cs, Join(chunks[..k])) || TooBigAt(c, chunks, k)
  }

  lemma {:induction false} CleanIs(c: Client, cs: seq<seq<seq<Byte>>>, p: seq<Byte>, chunks: seq<seq<Byte>>)
    requires c.rpos <= |c.buf|
    ensures Clean(c, cs, p, chunks) <==> forall k :: 0 < k <= |chunks| ==> CleanAt(c, cs, p + Join(chunks[..k]))
    decreases chunks
  {
    hide CleanAt;
    if chunks != [] {
      var b, j := chunks[0], chunks[1..];
      CleanIs(c, cs, p + b, j);
      assert Clean(c, cs, p, chunks) <==> CleanAt(c, cs, p + b) && Clean(c, cs, p + b, j);
      forall k | 0 < k <= |chunks| ensures p + Join(chunks[..k]) == (p + b) + Join(j[..k - 1]) {
        assert chunks[..k][0] == b && chunks[..k][1..] == j[..k - 1];
        assert p + (b + Join(j[..k - 1])) == (p + b) + Join(j[..k - 1]);
      }
      assert (p + b) + Join(j[..0]) == p + b;
      hide Join;
      hide Clean;
      if Clean(c, cs, p, chunks) {
        forall k | 0 < k <= |chunks| ensures CleanAt(c, cs, p + Join(chunks[..k])) {
          if k > 1 { assert CleanAt(c, cs, (p + b) + Join(j[..k - 1])); }
        }
      } else if forall k :: 0 < k <= |chunks| ==> CleanAt(c, cs, p + Join(chunks[..k])) {
        assert CleanAt(c, cs, p + Join(chunks[..1]));
        forall k | 0 < k <= |j| ensures CleanAt(c, cs, (p + b) + Join(j[..k])) {
          assert CleanAt(c, cs, p + Join(chunks[..k + 1]));
        }
      }
    }
  }

  /** For any sequence of reads of a stream of commands: the text fails exactly if some read ends at an edge of the stream
      or on the size limit, and else does what it should. */
  lemma {:induction false} ReadsFailExactly(c: Client, cs: seq<seq<seq<Byte>>>, chunks: seq<seq<Byte>>, done: seq<Command>)
    requires Finished(c, [], done) && AllSendable(cs) && Join(chunks) <= AllUsual(cs)
    ensures FeedAllAsWritten(c, chunks).Err? <==> exists k :: 0 <= k <= |chunks| && BadAt(c, cs, chunks, k)
    ensures FeedAllAsWritten(c, chunks).Ok? ==> FeedAllAsWritten(c, chunks) == FeedAll(c, chunks) == Run(Feed(c, Join(chunks)))
  {
    hide Run;
    hide Edge;
    hide AllUsual;
    hide Join;
    NoEdgeInNothing(cs);
    var c0 := Feed(c, []);
    assert c0 == c;
    NothingDone(c);
    assert [] + Join(chunks) == Join(chunks);
    ReadsFrom(c, c, cs, [], chunks, done);
    CleanIs(c, cs, [], chunks);
    NoneYet(c, chunks);
    forall k | 0 <= k <= |chunks| ensures BadAt(c, cs, chunks, k) <==> !CleanAt(c, cs, [] + Join(chunks[..k])) {
      assert [] + Join(chunks[..k]) == Join(chunks[..k]);
    }
    assert !BadAt(c, cs, chunks, 0);
    ChunkIndependence(c, chunks);
    hide CleanAt;
    hide Clean;
    if exists k :: 0 <= k <= |chunks| && TooBigAt(c, chunks, k) {
      var k :| 0 <= k <= |chunks| && TooBigAt(c, chunks, k);
      assert BadAt(c, cs, chunks, k);
    }
  }

  lemma {:induction false} NothingDone(c: Client)
    requires c.rpos == |c.buf| && c.multi == 0
    ensures Run(c) == Ok(c) && Quiet(c)
  {
  }

  lemma {:induction false} NoneYet(c: Client, chunks: seq<seq<Byte>>)
    requires c.rpos <= |c.buf|
    ensures Join(chunks[..0]) == [] && Feed(c, Join(chunks[..0])) == c
  {
  }
}
