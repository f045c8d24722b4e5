/** The limit on header lines at work: wpos counts the whole command so far, not the line, so whether a long
    but well-formed command is accepted depends on where the reads end. */
module RespLimit {
  import opened Wrappers
  import opened Decimal
  import opened Resp
  import opened RespMeaning

  lemma {:induction false} StepKeepsBuf(c: Client)
    requires c.rpos <= |c.buf| && Step(c).Next? && Step(c).c.multi > 0
    ensures Step(c).c.buf == c.buf
  {
  }

  /** The state after the first of two arguments, with one byte of the next header. */
  lemma {:induction false} AfterFirst(a: seq<Byte>) returns (c: Client)
    requires 0 < |a| <= LLONG_MAX
    ensures var p := Head(Print(2)) + Bulk(a) + [DOLLAR];
            && c.rpos <= |c.buf| && c.buf == p && Unread(c) == [DOLLAR] && c.multi == 1 && c.bulk == 0
            && Run(Feed(INIT, p)) == Run(c)
  {
    hide Run;
    hide Step;
    hide Head;
    hide Bulk;
    hide Unread;
    var p := Head(Print(2)) + Bulk(a) + [DOLLAR];
    var c0 := Feed(INIT, p);
    assert Unread(c0) == Head(Print(2)) + (Bulk(a) + [DOLLAR]) by {
      UnreadInit(p);
      assert p == Head(Print(2)) + (Bulk(a) + [DOLLAR]);
    }
    RunStar(c0, 2, Bulk(a) + [DOLLAR]);
    StepKeepsBuf(c0);
    RunStep(c0);
    var c1 := Step(c0).c;
    RunArgument(c1, a, [DOLLAR]);
    var c2 := Step(c1).c;
    RunStep(c1);
    RunStep(c2);
    c := Step(c2).c;
    StepKeepsBuf(c2);
    StepMulti(c1, c2);
    StepKeepsBuf(c1);
    assert [] + p == p;
  }

  /** A header line never ends a command that lacks arguments. */
  lemma {:induction false} StepMulti(c: Client, c1: Client)
    requires c.rpos <= |c.buf| && Step(c) == Next(c1) && c.multi > 1
    ensures c1.multi > 0
  {
  }

  lemma {:induction false} UnreadInit(p: seq<Byte>)
    ensures Unread(Feed(INIT, p)) == p
  {
  }

  /** A command of two arguments, the first longer than 65536 bytes, with a read that ends just behind the
      second '$': an error, although the same bytes in one piece are exactly that command. */
  lemma {:induction false} LongArgumentCut(a: seq<Byte>, b: seq<Byte>, chunks: seq<seq<Byte>>, k: nat)
    requires MAX_INLINE_SIZE < |a| <= LLONG_MAX && 0 < |b| <= LLONG_MAX && k <= |chunks|
    requires Join(chunks[..k]) == Head(Print(2)) + Bulk(a) + [DOLLAR] && Join(chunks) == Encoded(Usual([a, b]))
    ensures FeedAll(INIT, chunks) == Err(TooBig)
    ensures var whole := Run(Feed(INIT, Join(chunks))); whole.Ok? && whole.c.done == [Usual([a, b])] && whole.c.buf == []
  {
    hide Run;
    var c := AfterFirst(a);
    assert LongLine(c) && Step(c) == Fail(TooBig) by { OneDollar(c); }
    StuckRun(c);
    assert TooBigAt(INIT, chunks, k);
    QuietInit();
    ChunkIndependence(INIT, chunks);
    assert [a, b][1..] == [b] && [b][1..] == [];
    assert SizesFit([b]) && Sendable([a, b]);
    WholeCommand([a, b]);
  }

  lemma {:induction false} OneDollar(c: Client)
    requires c.rpos <= |c.buf| && Unread(c) == [DOLLAR] && c.multi == 1 && c.bulk == 0 && |c.buf| > MAX_INLINE_SIZE
    ensures LongLine(c) && Step(c) == Fail(TooBig)
  {
    assert c.buf[c.rpos] == Unread(c)[0];
    assert [DOLLAR][1..] == [];
    assert FindCr([DOLLAR][1..]) == None;
    StuckOnLongLine(c);
  }

  lemma {:induction false} StuckRun(c: Client)
    requires c.rpos <= |c.buf| && Step(c) == Fail(TooBig)
    ensures Run(c) == Err(TooBig)
  {
  }

  lemma {:induction false} QuietInit()
    ensures Quiet(INIT)
  {
  }

  lemma {:induction false} WholeCommand(args: seq<seq<Byte>>)
    requires Sendable(args)
    ensures var whole := Run(Feed(INIT, Encoded(Usual(args))));
            whole.Ok? && whole.c.done == [Usual(args)] && whole.c.buf == []
  {
    var cs := [args];
    assert cs[1..] == [];
    assert AllUsual(cs) == Encoded(Usual(args)) + [];
    assert AllUsual(cs) == Encoded(Usual(args));
    assert UsualAll(cs) == [Usual(args)] + UsualAll(cs[1..]);
    hide Run;
    hide Encoded;
    var c := Feed(INIT, AllUsual(cs));
    assert [] + AllUsual(cs) == AllUsual(cs);
    RoundTrip(c, cs, []);
    assert [] + UsualAll(cs) == [Usual(args)];
  }
}
