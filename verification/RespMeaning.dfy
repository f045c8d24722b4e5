/** What the parser's buffers hold: a verbatim copy of the input, cut exactly at command boundaries. */
module RespMeaning {
  import opened Wrappers
  import opened Decimal
  import opened Resp
  import opened Buffers

  function AllEncoded(cs: seq<Command>): seq<seq<Byte>> { seq(|cs|, i requires 0 <= i < |cs| => Encoded(cs[i])) }

  predicate AllCommands(cs: seq<Command>) { forall i :: 0 <= i < |cs| ==> IsCommand(cs[i]) }

  // ---------------------------------------------------------------- the invariant

  /** The part of a command that has been copied so far. */
  function Partial(c: Client): seq<Byte> {
    Head(c.head) + Bulks(c.args) + if c.bulk > 0 then BulkHead(c.bulk) else []
  }

  /** Buffer i holds exactly the i-th completed command; if a command is under way, one more buffer holds
      exactly the part of it that has been read. */
  ghost predicate Wf(c: Client) {
    && c.rpos <= |c.buf| && |c.done| == c.cmdNum
    && c.pending == (c.multi > 0)
    && AllCommands(c.done)
    && c.cmds == AllEncoded(c.done) + (if c.pending then [Partial(c)] else [])
    && NoneEmpty(c.args) && c.argc == |c.args|
    && if c.pending then Parsed(c.head).Some? && Parsed(c.head).value % WORD == c.multi + |c.args|
       else c.bulk == 0 && c.args == []
  }

  lemma {:induction false} InitWf()
    ensures Wf(INIT)
  {
  }

  /** A line that ReadNumber accepts is its first character, the number's text and CRLF. */
  lemma {:induction false} LineIs(u: seq<Byte>, wpos: nat)
    requires u != [] && u[0] != CR && ReadNumber(u, wpos).Number?
    ensures var r := ReadNumber(u, wpos);
            u[..r.len + 3] == [u[0]] + u[1..r.len + 1] + CRLF && u[..r.len + 1] + CRLF == u[..r.len + 3]
  {
  }

  /** A length that parseInt accepts and is positive is spelled in the usual way. */
  lemma {:induction false} LengthIs(text: seq<Byte>)
    requires Parsed(text).Some? && Parsed(text).value > 0
    ensures text == Print(Parsed(text).value)
  {
    ParsedExactly(text, Parsed(text).value);
  }

  // ---------------------------------------------------------------- one turn

  /** What a turn has added to the buffers is what it has taken from the input. */
  ghost predicate Verbatim(c: Client, c': Client)
    requires c.rpos <= |c.buf| && c'.rpos <= |c'.buf|
  {
    Flat(c'.cmds) + Unread(c') == Flat(c.cmds) + Unread(c)
  }

  /** Extending the command under way by some bytes of input. */
  lemma {:induction false} ExtendVerbatim(before: seq<seq<Byte>>, last: seq<Byte>, add: seq<Byte>, u: seq<Byte>, n: nat)
    requires n <= |u| && add == u[..n]
    ensures Flat(before + [last + add]) + u[n..] == Flat(before + [last]) + u
  {
    FlatAppend(before, [last + add]);
    FlatAppend(before, [last]);
    assert Flat([last + add]) == last + add by { assert [last + add][..0] == []; }
    assert Flat([last]) == last by { assert [last][..0] == []; }
    assert u == u[..n] + u[n..];
    assert Flat(before) + (last + add) + u[n..] == Flat(before) + last + (add + u[n..]);
  }

  lemma {:induction false} StartVerbatim(before: seq<seq<Byte>>, add: seq<Byte>, u: seq<Byte>, n: nat)
    requires n <= |u| && add == u[..n]
    ensures Flat(before + [add]) + u[n..] == Flat(before) + u
  {
    ExtendVerbatim(before, [], add, u, n);
    var none: seq<Byte> := [];
    FlatAppend(before, [none]);
    assert Flat([none]) == [] by { assert [none][..0] == []; }
    assert [] + add == add;
    assert Flat(before) + [] == Flat(before);
  }

  /** Completing a command: its buffer becomes one of the finished ones. */
  lemma {:induction false} CompletedWf(c: Client)
    requires c.rpos <= |c.buf| && |c.done| == c.cmdNum && AllCommands(c.done)
    requires c.cmds == AllEncoded(c.done) + [Head(c.head) + Bulks(c.args)]
    requires c.multi == 0 && c.bulk == 0 && IsCommand(Command(c.head, c.args))
    ensures Wf(Completed(c)) && Unread(Completed(c)) == Unread(c)
  {
    var d := c.done + [Command(c.head, c.args)];
    assert AllEncoded(d) == AllEncoded(c.done) + [Encoded(Command(c.head, c.args))];
    assert AllEncoded(d) + [] == AllEncoded(d);
  }

  lemma {:induction false} StarWf(c: Client)
    requires Wf(c) && c.multi == 0 && c.rpos < |c.buf| && ReadStar(c).Next?
    ensures var c' := ReadStar(c).c; Wf(c') && Verbatim(c, c')
  {
    var u, r := Unread(c), ReadNumber(Unread(c), |c.buf|);
    LineIs(u, |c.buf|);
    StarTurn(c, r.v, r.len);
    StarTakenWf(c, r.v, r.len);
    hide ReadNumber;
    hide ReadStar;
    var c1 := StarTaken(c, r.v, r.len);
    if c1.multi == 0 {
      CompletedWf(c1);
    }
  }

  lemma {:induction false} StarTakenWf(c: Client, v: int, len: nat)
    requires Wf(c) && c.multi == 0 && c.rpos + len + 3 <= |c.buf| && Parsed(Unread(c)[1..len + 1]) == Some(v)
    requires var u := Unread(c); u[..len + 3] == Head(u[1..len + 1]) && u[..len + 1] + CRLF == u[..len + 3]
    ensures var c1 := StarTaken(c, v, len);
            && c1.cmds == AllEncoded(c1.done) + [Head(c1.head) + Bulks(c1.args)] && Verbatim(c, c1)
            && (c1.multi > 0 ==> Wf(c1))
  {
    hide Head;
    hide IsCommand;
    hide BulkHead;
    hide Flat;
    hide AllEncoded;
    hide Parsed;
    var c1 := StarTaken(c, v, len);
    StarBuffers(c, v, len);
    assert Bulks([]) == [];
    assert Head(c1.head) + [] == Head(c1.head);
    assert |AllEncoded(c.done)| == |c.done|;
    StartVerbatim(AllEncoded(c.done), Head(c1.head), Unread(c), len + 3);
  }

  lemma {:induction false} StarBuffers(c: Client, v: int, len: nat)
    requires Wf(c) && c.multi == 0 && c.rpos + len + 3 <= |c.buf|
    requires var u := Unread(c); u[..len + 3] == Head(u[1..len + 1]) && u[..len + 1] + CRLF == u[..len + 3]
    ensures var c1 := StarTaken(c, v, len);
            && c1.cmds == AllEncoded(c.done) + [Head(c1.head)] && c.cmds == AllEncoded(c.done)
            && Unread(c1) == Unread(c)[len + 3..] && |AllEncoded(c.done)| == |c.done|
  {
    hide Head;
    hide IsCommand;
    var u := Unread(c);
    assert c.buf[c.rpos..c.rpos + len + 1] == u[..len + 1];
    assert AllEncoded(c.done) + [] == AllEncoded(c.done);
    assert |AllEncoded(c.done)| == |c.done|;
  }

  lemma {:induction false} DollarWf(c: Client)
    requires Wf(c) && c.multi > 0 && c.bulk == 0 && c.rpos < |c.buf| && ReadDollar(c).Next?
    ensures var c' := ReadDollar(c).c; Wf(c') && Verbatim(c, c')
  {
    var u, r := Unread(c), ReadNumber(Unread(c), |c.buf|);
    assert ReadDollar(c) == Next(DollarTaken(c, r.v, r.len)) by { hide Wf; }
    assert u[0] == DOLLAR by { hide Wf; }
    LineIs(u, |c.buf|);
    LengthIs(u[1..r.len + 1]);
    hide Wf;
    hide Verbatim;
    hide ReadDollar;
    hide ReadNumber;
    hide DollarTaken;
    DollarTakenWf(c, r.v, r.len);
  }

  lemma {:induction false} DollarTakenWf(c: Client, v: nat, len: nat)
    requires Wf(c) && c.multi > 0 && c.bulk == 0 && v > 0 && c.rpos + len + 3 <= |c.buf|
    requires Unread(c)[..len + 3] == BulkHead(v) && Unread(c)[..len + 1] + CRLF == BulkHead(v)
    ensures var c' := DollarTaken(c, v, len); Wf(c') && Verbatim(c, c')
  {
    hide Head;
    hide BulkHead;
    hide Bulks;
    hide IsCommand;
    var u, c1 := Unread(c), DollarTaken(c, v, len);
    assert c.buf[c.rpos..c.rpos + len + 1] == u[..len + 1];
    var last := Head(c.head) + Bulks(c.args);
    assert last + [] == last;
    assert Unread(c1) == u[len + 3..];
    assert c1.cmds == AllEncoded(c.done) + [last + BulkHead(v)];
    ExtendVerbatim(AllEncoded(c.done), last, BulkHead(v), u, len + 3);
  }

  lemma {:induction false} BulkWf(c: Client)
    requires Wf(c) && c.multi > 0 && c.bulk > 0 && ReadBulk(c).Next?
    ensures var c' := ReadBulk(c).c; Wf(c') && Verbatim(c, c')
  {
    var c1 := BulkTaken(c);
    assert ReadBulk(c) == Next(if c1.multi == 0 then Completed(c1) else c1);
    BulkTakenWf(c);
    if c1.multi == 0 {
      CompletedWf(c1);
    }
  }

  lemma {:induction false} BulkTakenWf(c: Client)
    requires Wf(c) && c.multi > 0 && c.bulk > 0 && ReadBulk(c).Next?
    ensures var c1 := BulkTaken(c);
            && c1.cmds == AllEncoded(c1.done) + [Head(c1.head) + Bulks(c1.args)] && Verbatim(c, c1)
            && Partial(c1) == Head(c1.head) + Bulks(c1.args) && NoneEmpty(c1.args)
  {
    hide Head;
    hide BulkHead;
    hide Bulks;
    hide IsCommand;
    hide Completed;
    var u, a := Unread(c), Unread(c)[..c.bulk];
    var c1 := BulkTaken(c);
    assert a + CRLF == u[..c.bulk + 2];
    PartialGrows(c.head, c.args, a);
    assert Unread(c1) == u[c.bulk + 2..];
    ExtendVerbatim(AllEncoded(c.done), Partial(c), a + CRLF, u, c.bulk + 2);
  }

  lemma {:induction false} PartialGrows(head: seq<Byte>, args: seq<seq<Byte>>, a: seq<Byte>)
    ensures (Head(head) + Bulks(args) + BulkHead(|a|)) + (a + CRLF) == Head(head) + Bulks(args + [a])
    ensures Head(head) + Bulks(args + [a]) + [] == Head(head) + Bulks(args + [a])
  {
    BulksSnoc(args, a);
    Regroup(Head(head), Bulks(args), BulkHead(|a|), a, CRLF);
  }

  lemma {:induction false} Regroup(a: seq<Byte>, b: seq<Byte>, c: seq<Byte>, d: seq<Byte>, e: seq<Byte>)
    ensures (a + b + c) + (d + e) == a + (b + (c + d + e))
    ensures (a + b) + c == a + (b + c)
  {
  }

  lemma {:induction false} BulksSnoc(args: seq<seq<Byte>>, a: seq<Byte>)
    ensures Bulks(args + [a]) == Bulks(args) + Bulk(a)
  {
    assert (args + [a])[..|args|] == args;
  }

  lemma {:induction false} StepWf(c: Client)
    requires Wf(c) && Step(c).Next?
    ensures var c' := Step(c).c; Wf(c') && Verbatim(c, c')
  {
    if c.multi > 0 && c.bulk > 0 {
      BulkWf(c);
    } else if c.multi == 0 {
      StarWf(c);
    } else {
      DollarWf(c);
    }
  }

  /** Verbatim copy: whenever the parser returns without an error, the bytes it added to the command
      buffers are the bytes it consumed, and the buffers are cut at the command boundaries. */
  lemma {:induction false} RunWf(c: Client)
    requires Wf(c) && Run(c).Ok?
    ensures Wf(Run(c).c) && Verbatim(c, Run(c).c)
    ensures c.done <= Run(c).c.done
    decreases |Unread(c)|
  {
    StepConsumes(c);
    if Step(c).Next? {
      StepWf(c);
      StepDone(c);
      RunWf(Step(c).c);
    }
  }

  lemma {:induction false} StepDone(c: Client)
    requires c.rpos <= |c.buf| && Step(c).Next?
    ensures c.done <= Step(c).c.done
  {
  }

  // ---------------------------------------------------------------- round trip

  function AllUsual(cs: seq<seq<seq<Byte>>>): seq<Byte> {
    if cs == [] then [] else Encoded(Usual(cs[0])) + AllUsual(cs[1..])
  }

  function UsualAll(cs: seq<seq<seq<Byte>>>): seq<Command> {
    if cs == [] then [] else [Usual(cs[0])] + UsualAll(cs[1..])
  }

  /** What a client may send: a non-empty list of non-empty arguments, of sizes an int64_t can count. */
  predicate Sendable(args: seq<seq<Byte>>) {
    0 < |args| <= LLONG_MAX && SizesFit(args)
  }

  predicate SizesFit(args: seq<seq<Byte>>) { args == [] || (0 < |args[0]| <= LLONG_MAX && SizesFit(args[1..])) }

  predicate AllSendable(cs: seq<seq<seq<Byte>>>) { cs == [] || (Sendable(cs[0]) && AllSendable(cs[1..])) }

  lemma {:induction false} FindCrLine(b: Byte, text: seq<Byte>, rest: seq<Byte>)
    requires b != CR && b != NUL && Digits(text)
    ensures FindCr([b] + text + CRLF + rest) == Some(|text| + 1)
    decreases |text|
  {
    var s := [b] + text + CRLF + rest;
    if text == [] {
      assert s[1..] == CRLF + rest;
      assert FindCr(s[1..]) == Some(0);
    } else {
      assert s[1..] == [text[0]] + text[1..] + CRLF + rest;
      FindCrLine(text[0], text[1..], rest);
    }
  }

  /** A line in the usual spelling is read back. */
  lemma {:induction false} ReadLine(b: Byte, n: nat, rest: seq<Byte>, wpos: nat)
    requires b != CR && b != NUL && n <= LLONG_MAX
    ensures var u := [b] + Print(n) + CRLF + rest;
            && ReadNumber(u, wpos) == Number(n, |Print(n)|) && u[1..|Print(n)| + 1] == Print(n) && u[|Print(n)| + 3..] == rest
  {
    FindCrLine(b, Print(n), rest);
    ParsedExactly(Print(n), n);
    var u := [b] + Print(n) + CRLF + rest;
    assert u[1..|Print(n)| + 1] == Print(n);
    assert u[|Print(n)| + 3..] == rest;
  }

  /** The state after the star line of a command. */
  lemma {:induction false} RunStar(c: Client, n: nat, rest: seq<Byte>)
    requires c.rpos <= |c.buf| && c.multi == 0 && 0 < n <= LLONG_MAX && Unread(c) == Head(Print(n)) + rest
    ensures Step(c).Next?
    ensures var c' := Step(c).c;
            && c'.rpos <= |c'.buf| && Unread(c') == rest && c'.multi == n && c'.bulk == c.bulk
            && c'.head == Print(n) && c'.args == c.args && c'.done == c.done
  {
    hide ReadNumber;
    ReadLine(STAR, n, rest, |c.buf|);
    assert Unread(c) == [STAR] + Print(n) + CRLF + rest;
    assert c.buf[c.rpos] == Unread(c)[0];
    StarTurn(c, n, |Print(n)|);
    StarAfter(c, n, Print(n), rest);
    hide Step;
    hide StarTaken;
  }

  lemma {:induction false} StarAfter(c: Client, n: nat, digits: seq<Byte>, rest: seq<Byte>)
    requires c.rpos <= |c.buf| && Unread(c) == [STAR] + digits + CRLF + rest && n < WORD
    ensures var c1 := StarTaken(c, n, |digits|);
            && c1.rpos <= |c1.buf| && Unread(c1) == rest && c1.multi == n && c1.bulk == c.bulk
            && c1.head == digits && c1.args == c.args && c1.done == c.done
  {
    hide Added;
    assert Unread(StarTaken(c, n, |digits|)) == Unread(c)[|digits| + 3..] by { hide HeaderTaken; }
    AddedOnly(c.(rpos := c.rpos + |digits| + 3), c.buf[c.rpos..c.rpos + |digits| + 1] + CRLF);
  }

  lemma {:induction false} AddedOnly(c: Client, add: seq<Byte>)
    ensures var c1 := Added(c, add); c1.bulk == c.bulk && c1.args == c.args && c1.done == c.done && c1.multi == c.multi && c1.buf == c.buf && c1.rpos == c.rpos
  {
  }

  /** The state after one whole argument: two turns. */
  lemma {:induction false} RunArgument(c: Client, a: seq<Byte>, rest: seq<Byte>)
    requires c.rpos <= |c.buf| && c.multi > 0 && c.bulk == 0 && 0 < |a| <= LLONG_MAX && Unread(c) == Bulk(a) + rest
    ensures Step(c).Next? && Step(c).c.rpos <= |Step(c).c.buf| && Step(Step(c).c).Next?
    ensures var c2 := Step(Step(c).c).c;
            && c2.rpos <= |c2.buf| && Unread(c2) == rest && c2.multi == c.multi - 1 && c2.bulk == 0
            && (if c.multi == 1 then c2.args == [] && c2.done == c.done + [Command(c.head, c.args + [a])] && c2.buf == rest && c2.rpos == 0
                else c2.args == c.args + [a] && c2.done == c.done && c2.head == c.head)
  {
    hide Step;
    hide ReadNumber;
    ReadLine(DOLLAR, |a|, a + CRLF + rest, |c.buf|);
    assert Unread(c) == [DOLLAR] + Print(|a|) + CRLF + (a + CRLF + rest);
    assert c.buf[c.rpos] == Unread(c)[0];
    DollarTurn(c, |a|, |Print(|a|)|);
    var c1 := Step(c).c;
    assert Unread(c1) == a + CRLF + rest;
    ReadArgument(c1, a, rest);
  }

  lemma {:induction false} DollarTurn(c: Client, v: nat, len: nat)
    requires c.rpos < |c.buf| && c.multi > 0 && c.bulk == 0 && v > 0
    requires c.buf[c.rpos] == DOLLAR && ReadNumber(Unread(c), |c.buf|) == Number(v, len)
    ensures Step(c) == Next(DollarTaken(c, v, len))
  {
  }

  lemma {:induction false} ReadArgument(c: Client, a: seq<Byte>, rest: seq<Byte>)
    requires c.rpos <= |c.buf| && c.multi > 0 && c.bulk == |a| > 0 && Unread(c) == a + CRLF + rest
    ensures Step(c).Next?
    ensures var c2 := Step(c).c;
            && c2.rpos <= |c2.buf| && Unread(c2) == rest && c2.multi == c.multi - 1 && c2.bulk == 0
            && (if c.multi == 1 then c2.args == [] && c2.done == c.done + [Command(c.head, c.args + [a])] && c2.buf == rest && c2.rpos == 0
                else c2.args == c.args + [a] && c2.done == c.done && c2.head == c.head)
  {
    var u := Unread(c);
    assert u[..|a|] == a && u[|a|] == CR && u[|a| + 1] == LF && u[|a| + 2..] == rest;
    assert c.buf[c.rpos + |a| + 2..] == u[|a| + 2..];
  }

  function BulksFrom(args: seq<seq<Byte>>): seq<Byte> {
    if args == [] then [] else Bulk(args[0]) + BulksFrom(args[1..])
  }

  lemma {:induction false} BulksBothWays(args: seq<seq<Byte>>, more: seq<seq<Byte>>)
    ensures Bulks(args + more) == Bulks(args) + BulksFrom(more)
    decreases |more|
  {
    if more == [] {
      assert args + more == args;
    } else {
      assert args + more == (args + [more[0]]) + more[1..];
      BulksBothWays(args + [more[0]], more[1..]);
      BulksSnoc(args, more[0]);
      Regroup(Bulks(args), Bulk(more[0]), BulksFrom(more[1..]), [], []);
    }
  }

  /** The remaining arguments of a command complete it. */
  lemma {:induction false} RunArguments(c: Client, more: seq<seq<Byte>>, rest: seq<Byte>) returns (c': Client)
    requires c.rpos <= |c.buf| && c.multi == |more| > 0 && c.bulk == 0
    requires SizesFit(more) && Unread(c) == BulksFrom(more) + rest
    ensures Finished(c', rest, c.done + [Command(c.head, c.args + more)]) && Run(c) == Run(c')
    decreases |more|
  {
    hide Run;
    hide Step;
    hide Bulk;
    hide Unread;
    var rest1 := BulksFrom(more[1..]) + rest;
    Regroup(Bulk(more[0]), BulksFrom(more[1..]), rest, [], []);
    RunArgument(c, more[0], rest1);
    RunStep(c);
    RunStep(Step(c).c);
    var c2 := Step(Step(c).c).c;
    if |more| == 1 {
      assert rest1 == rest && more == [more[0]];
      c' := c2;
    } else {
      c' := RunArguments(c2, more[1..], rest);
      assert c2.args + more[1..] == c.args + more;
    }
  }

  lemma {:induction false} RunStep(c: Client)
    requires c.rpos <= |c.buf| && Step(c).Next?
    ensures Step(c).c.rpos <= |Step(c).c.buf| && Run(c) == Run(Step(c).c)
  {
    StepConsumes(c);
  }

  /** Between commands, with rest unread and exactly the commands in done completed. */
  predicate Finished(c: Client, rest: seq<Byte>, done: seq<Command>) {
    && c.rpos == 0 && c.buf == rest && c.multi == 0 && c.bulk == 0 && c.args == [] && c.done == done
  }

  /** Encoding and parsing: any list of sendable commands, encoded one after the other, comes out as
      exactly that list, with nothing left over. */
  lemma {:induction false} RoundTrip(c: Client, cs: seq<seq<seq<Byte>>>, done: seq<Command>)
    requires Finished(c, AllUsual(cs), done) && AllSendable(cs)
    ensures Run(c).Ok? && Run(c).c.done == done + UsualAll(cs)
    ensures Run(c).c.buf == [] && Run(c).c.multi == 0
    decreases |cs|
  {
    hide Run;
    hide Encoded;
    hide Usual;
    if cs == [] {
      RunNothing(c);
    } else {
      var args, rest := cs[0], AllUsual(cs[1..]);
      var c2 := RunCommand(c, args, rest);
      RoundTrip(c2, cs[1..], c2.done);
      assert c2.done + UsualAll(cs[1..]) == done + ([Usual(args)] + UsualAll(cs[1..]));
    }
  }

  lemma {:induction false} RunNothing(c: Client)
    requires c.rpos == |c.buf|
    ensures c.multi == 0 ==> Run(c) == Ok(c)
  {
  }

  lemma {:induction false} RunCommand(c: Client, args: seq<seq<Byte>>, rest: seq<Byte>) returns (c2: Client)
    requires c.rpos <= |c.buf| && Unread(c) == Encoded(Usual(args)) + rest && c.multi == 0 && c.bulk == 0 && c.args == [] && Sendable(args)
    ensures Finished(c2, rest, c.done + [Usual(args)]) && Run(c) == Run(c2)
  {
    hide Run;
    hide Step;
    hide Bulk;
    hide Unread;
    BulksBothWays([], args);
    assert [] + args == args && Bulks([]) + BulksFrom(args) == BulksFrom(args);
    Regroup(Head(Print(|args|)), BulksFrom(args), rest, [], []);
    RunStar(c, |args|, BulksFrom(args) + rest);
    RunStep(c);
    var c1 := Step(c).c;
    c2 := RunArguments(c1, args, rest);
    assert c1.args + args == args;
  }
}
