/** Whole calls of processRedis as its text has it (src/proto/multibulk.c:134-213), told apart from what they should do
    by the bytes that have come. */
module ReplyEdge {
  import opened Wrappers
  import opened Decimal
  import opened Buffers
  import R = Resp
  import opened Replies
  import opened RepliesAsWritten
  import RespMeaning
  import Q = ReplyRun

  const CRLF := R.CRLF

  // ---------------------------------------------------------------- the text, turn by turn

  function StepText(s: Redis): Turn
    requires Sound(s)
  {
    if s.rNum == 0 then Wait
    else if s.c.multi == 0 then ReadLineText(s)
    else if s.c.bulk == 0 then ReadElementText(s)
    else ReadBody(s)
  }

  lemma {:induction false} OverrunConsumes(s: Redis)
    requires Sound(s) && s.rNum > 0 && s.c.multi == 0 && CutLine(s) && ReadLineText(s).Go?
    ensures Forward(s, ReadLineText(s).s)
    ensures R.Unread(s.c)[0] != DOLLAR ==> R.Unread(ReadLineText(s).s.c) == [] && ReadLineText(s).s.c.multi == 0
  {
    hide Parsed;
  }

  lemma {:induction false} StepTextConsumes(s: Redis)
    requires Sound(s)
    ensures StepText(s).Go? ==> Forward(s, StepText(s).s)
  {
    hide ReadLineText;
    hide ReadElementText;
    hide ReadLine;
    hide ReadElement;
    StepConsumes(s);
    if s.rNum > 0 && s.c.multi == 0 {
      RightUnlessCut(s);
      if CutLine(s) { if ReadLineText(s).Go? { OverrunConsumes(s); } }
    } else if s.rNum > 0 && s.c.bulk == 0 {
      ElementTextConsumes(s);
    }
  }

  lemma {:induction false} ElementTextConsumes(s: Redis)
    requires Sound(s) && s.rNum > 0 && s.c.multi > 0
    ensures ReadElementText(s).Go? ==> Forward(s, ReadElementText(s).s)
  {
    hide R.ReadNumber;
    hide R.HeaderTaken;
    hide Counted;
    var c, u := s.c, R.Unread(s.c);
    if ReadElementText(s).Go? {
      var r := R.ReadNumber(u, |c.buf|);
      HeaderMoves(c, r.len);
      if r.v <= 0 { CountedMoves(s, NullTaken(c, r.len)); }
    }
  }

  /** processRedis as it is written. */
  function RunText(s: Redis): Outcome
    requires Sound(s)
    decreases |R.Unread(s.c)|, if s.c.multi == 0 then 1 else 0
  {
    StepTextConsumes(s);
    match StepText(s)
    case Wait => Done(s)
    case Wrong(e) => Failed(e)
    case Go(s1) => RunText(s1)
  }

  // ---------------------------------------------------------------- where it goes off

  /** The turn for which the text does something else. */
  predicate OffAt(s: Redis)
    requires Sound(s)
  {
    var u := R.Unread(s.c);
    s.rNum > 0 && if s.c.multi == 0 then CutLine(s)
                  else s.c.bulk == 0 && (u == [] || (u[0] == DOLLAR && CutLine(s)) || EmptyNext(s))
  }

  /** There is such a turn in the run. */
  predicate Off(s: Redis)
    requires Sound(s)
    decreases |R.Unread(s.c)|, if s.c.multi == 0 then 1 else 0
  {
    StepConsumes(s);
    OffAt(s) || (Step(s).Go? && Off(Step(s).s))
  }

  lemma {:induction false} OnAt(s: Redis)
    requires Sound(s) && !OffAt(s)
    ensures StepText(s) == Step(s)
  {
    hide ReadLineText;
    hide ReadElementText;
    hide ReadLine;
    hide ReadElement;
    if s.rNum > 0 && s.c.multi == 0 { RightUnlessCut(s); }
    if s.rNum > 0 && s.c.multi > 0 && s.c.bulk == 0 { ElementRight(s); }
  }

  lemma {:induction false} OnIsRight(s: Redis)
    requires Sound(s) && !Off(s)
    ensures RunText(s) == Run(s)
    decreases |R.Unread(s.c)|, if s.c.multi == 0 then 1 else 0
  {
    hide Step;
    hide StepText;
    hide OffAt;
    StepConsumes(s);
    OnAt(s);
    if Step(s).Go? { OnIsRight(Step(s).s); }
  }

  // ---------------------------------------------------------------- and then it stays off

  lemma {:induction false} TextShrinks(s: Redis)
    requires Sound(s)
    ensures RunText(s).Done? ==> Sound(RunText(s).s) && |R.Unread(RunText(s).s.c)| <= |R.Unread(s.c)|
    decreases |R.Unread(s.c)|, if s.c.multi == 0 then 1 else 0
  {
    hide StepText;
    StepTextConsumes(s);
    if StepText(s).Go? { TextShrinks(StepText(s).s); }
  }

  /** What has been copied and what is left to read, together. */
  function Weight(c: R.Client): nat
    requires c.rpos <= |c.buf|
  {
    |Flat(c.cmds)| + |R.Unread(c)|
  }

  lemma {:induction false} AddedWeighs(c: R.Client, add: seq<Byte>)
    ensures |Flat(R.Added(c, add).cmds)| == |Flat(c.cmds)| + |add|
  {
    if |c.cmds| <= c.cmdNum {
      FlatMore(c.cmds, add);
    } else {
      LongerWeighs(c.cmds, c.cmdNum, add);
    }
  }

  lemma {:induction false} LongerWeighs(q: seq<seq<Byte>>, k: nat, add: seq<Byte>)
    requires k < |q|
    ensures |Flat(q[k := q[k] + add])| == |Flat(q)| + |add|
    decreases |q|
  {
    var n := |q| - 1;
    var q1 := q[k := q[k] + add];
    assert q == q[..n] + [q[n]] && q1 == q1[..n] + [q1[n]];
    FlatMore(q[..n], q[n]);
    FlatMore(q1[..n], q1[n]);
    if k == n {
      assert q1[..n] == q[..n];
    } else {
      assert q1[..n] == q[..n][k := q[..n][k] + add];
      LongerWeighs(q[..n], k, add);
    }
  }

  /** A turn of the text loses nothing, though it may copy too much. */
  lemma {:induction false} TextWeighs(s: Redis)
    requires Sound(s) && StepText(s).Go?
    ensures Sound(StepText(s).s) && Weight(StepText(s).s.c) >= Weight(s.c)
  {
    StepTextConsumes(s);
    if s.c.multi == 0 { LineWeighs(s); } else if s.c.bulk == 0 { ElementWeighs(s); } else { BodyWeighs(s); }
  }

  lemma {:induction false} TakenWeighs(c: R.Client, i: nat)
    requires c.rpos + i + 2 <= |c.buf|
    ensures Weight(LineTaken(c, i)) == Weight(c)
    ensures Weight(UnknownTaken(c, i)) == Weight(c) + |UNEXPECTED| + 2
  {
    hide Flat;
    hide R.Added;
    var c1 := c.(rpos := c.rpos + i + 2);
    var line := c.buf[c.rpos..c.rpos + i] + CRLF;
    AddedWeighs(c1, line);
    var c2 := R.Added(c, UNEXPECTED + CRLF).(cmdNum := c.cmdNum + 1);
    AddedWeighs(c, UNEXPECTED + CRLF);
    AddedLeaves(c, UNEXPECTED + CRLF);
    AddedWeighs(c2.(rpos := c2.rpos + i + 2), c2.buf[c2.rpos..c2.rpos + i] + CRLF);
    AddedLeaves(c1, line);
    AddedLeaves(c2.(rpos := c2.rpos + i + 2), c2.buf[c2.rpos..c2.rpos + i] + CRLF);
  }

  lemma {:induction false} AddedLeaves(c: R.Client, add: seq<Byte>)
    ensures R.Added(c, add).buf == c.buf && R.Added(c, add).rpos == c.rpos
    ensures R.Added(c, add).multi == c.multi && R.Added(c, add).bulk == c.bulk
  {
  }

  lemma {:induction false} OverrunWeighs(c: R.Client)
    requires c.rpos < |c.buf|
    ensures Weight(LineOverrun(c)) == Weight(c) + 1
  {
    hide Flat;
    hide R.Added;
    var c1, line := c.(rpos := |c.buf|), R.Unread(c)[..|R.Unread(c)| - 1] + CRLF;
    AddedWeighs(c1, line);
    AddedLeaves(c1, line);
  }

  lemma {:induction false} LineWeighs(s: Redis)
    requires Sound(s) && s.rNum > 0 && s.c.multi == 0 && ReadLineText(s).Go? && Sound(ReadLineText(s).s)
    ensures Weight(ReadLineText(s).s.c) >= Weight(s.c)
  {
    hide Parsed;
    hide LineTaken;
    hide UnknownTaken;
    hide LineOverrun;
    hide R.Added;
    hide R.FindCr;
    var c, u := s.c, R.Unread(s.c);
    if CutLine(s) {
      OverrunWeighs(c);
      var c2 := R.Added(c, UNEXPECTED + CRLF).(cmdNum := c.cmdNum + 1);
      AddedWeighs(c, UNEXPECTED + CRLF);
      AddedLeaves(c, UNEXPECTED + CRLF);
      OverrunWeighs(c2);
    } else {
      var i := R.FindCr(u).value;
      TakenWeighs(c, i);
    }
    hide Flat;
  }

  lemma {:induction false} CountedWeighs(s: Redis, c: R.Client)
    requires c.rpos <= |c.buf| && s.rNum > 0
    ensures Sound(Counted(s, c)) && Weight(Counted(s, c).c) == Weight(c)
  {
  }

  lemma {:induction false} HeaderWeighs(c: R.Client, len: nat)
    requires c.rpos + len + 3 <= |c.buf|
    ensures var c1 := R.HeaderTaken(c, len); c1.rpos <= |c1.buf| && Weight(c1) == Weight(c)
  {
    hide Flat;
    hide R.Added;
    var c1, line := c.(rpos := c.rpos + len + 3), c.buf[c.rpos..c.rpos + len + 1] + CRLF;
    AddedWeighs(c1, line);
    AddedLeaves(c1, line);
  }

  lemma {:induction false} ElementWeighs(s: Redis)
    requires Sound(s) && s.rNum > 0 && s.c.multi > 0 && ReadElementText(s).Go? && Sound(ReadElementText(s).s)
    ensures Weight(ReadElementText(s).s.c) >= Weight(s.c)
  {
    hide R.ReadNumber;
    hide R.HeaderTaken;
    hide Counted;
    hide Flat;
    var c := s.c;
    var r := R.ReadNumber(R.Unread(c), |c.buf|);
    HeaderMoves(c, r.len);
    HeaderWeighs(c, r.len);
    if r.v <= 0 { CountedWeighs(s, NullTaken(c, r.len)); }
  }

  lemma {:induction false} BodyWeighs(s: Redis)
    requires Sound(s) && s.rNum > 0 && s.c.multi > 0 && ReadBody(s).Go? && Sound(ReadBody(s).s)
    ensures Weight(ReadBody(s).s.c) >= Weight(s.c)
  {
    hide Counted;
    hide Flat;
    hide R.Added;
    var c, u := s.c, R.Unread(s.c);
    var c1, add := c.(rpos := c.rpos + c.bulk + 2), u[..c.bulk] + CRLF;
    AddedWeighs(c1, add);
    AddedLeaves(c1, add);
    CountedWeighs(s, R.BulkTaken(c));
  }

  lemma {:induction false} TextRunWeighs(s: Redis)
    requires Sound(s) && RunText(s).Done?
    ensures Sound(RunText(s).s) && Weight(RunText(s).s.c) >= Weight(s.c)
    decreases |R.Unread(s.c)|, if s.c.multi == 0 then 1 else 0
  {
    hide StepText;
    hide Weight;
    StepTextConsumes(s);
    if StepText(s).Go? {
      TextWeighs(s);
      TextRunWeighs(StepText(s).s);
    }
  }

  /** Between replies no element is under way. */
  predicate Tidy(s: Redis) { s.c.multi == 0 ==> s.c.bulk == 0 }

  lemma {:induction false} StepTidy(s: Redis)
    requires Sound(s) && Tidy(s) && Step(s).Go?
    ensures Tidy(Step(s).s)
  {
    hide ReadLine;
    hide ReadElement;
    hide ReadBody;
    if s.c.multi == 0 { LineTidy(s); } else if s.c.bulk == 0 { ElementTidy(s); } else { BodyTidy(s); }
  }

  lemma {:induction false} LineTidy(s: Redis)
    requires Sound(s) && s.rNum > 0 && s.c.multi == 0 && s.c.bulk == 0 && ReadLine(s).Go?
    ensures ReadLine(s).s.c.bulk == 0
  {
    hide LineTaken;
    hide UnknownTaken;
    hide Parsed;
    Q.LineFactsAll(s.c, R.FindCr(R.Unread(s.c)).value);
  }

  lemma {:induction false} ElementTidy(s: Redis)
    requires Sound(s) && s.rNum > 0 && s.c.multi > 0 && s.c.bulk == 0 && ReadElement(s).Go?
    ensures Tidy(ReadElement(s).s)
  {
    hide R.ReadNumber;
    hide R.HeaderTaken;
    hide NullTaken;
    hide EmptyTaken;
    hide Counted;
    var c := s.c;
    var r := R.ReadNumber(R.Unread(c), |c.buf|);
    HeaderMoves(c, r.len);
    NullIs(c, r.len);
    CountedIs(s, NullTaken(c, r.len));
    if |R.Unread(c)| >= r.len + 5 {
      EmptyIs(c, r.len);
      CountedIs(s, EmptyTaken(c, r.len));
    }
  }

  lemma {:induction false} BodyTidy(s: Redis)
    requires Sound(s) && s.rNum > 0 && s.c.multi > 0 && ReadBody(s).Go?
    ensures Tidy(ReadBody(s).s)
  {
    hide Counted;
    CountedIs(s, R.BulkTaken(s.c));
  }

  /** If a run ends where the text would take something, or fail, the text does not end there. */
  lemma {:induction false} TakesIsWrong(s: Redis)
    requires Sound(s) && Run(s) == Done(s)
    requires StepText(s).Wrong? || (StepText(s).Go? && Sound(StepText(s).s) && |R.Unread(StepText(s).s.c)| < |R.Unread(s.c)|)
    ensures RunText(s) != Run(s)
  {
    hide StepText;
    hide Step;
    hide Run;
    hide RunText;
    RunsOn(s);
    if StepText(s).Go? { TextShrinks(StepText(s).s); } else { TextErr(s); }
  }

  lemma {:induction false} CutIsWrong(s: Redis)
    requires Sound(s) && s.rNum > 0 && s.c.multi == 0 && s.c.bulk == 0 && CutLine(s)
    ensures RunText(s) != Run(s)
  {
    assert Step(s) == Wait;
    assert Run(s) == Done(s);
    StepTextConsumes(s);
    if R.Unread(s.c)[0] == DOLLAR {
      CutHeader(s);
      hide Run;
      var s1 := StepText(s).s;
      StepTextConsumes(s1);
      assert StepText(s1) == Wrong(R.Protocol);
    } else {
      if StepText(s).Go? { OverrunConsumes(s); }
      hide Run;
      hide LineOverrun;
      TakesIsWrong(s);
    }
  }

  lemma {:induction false} ElementIsWrong(s: Redis)
    requires Sound(s) && s.rNum > 0 && s.c.multi > 0 && s.c.bulk == 0
    requires R.Unread(s.c) == [] || (R.Unread(s.c)[0] == DOLLAR && CutLine(s))
    ensures RunText(s) != Run(s)
  {
    assert Step(s) == Wait;
    assert Run(s) == Done(s);
    hide Run;
    TakesIsWrong(s);
  }

  /** An empty bulk string, of which the text leaves the CRLF behind. */
  lemma {:induction false} EmptyIsWrong(s: Redis)
    requires Sound(s) && AtEnd(s.c) && RegularAll(s) && Run(s).Done? && s.rNum > 0 && s.c.multi > 0 && s.c.bulk == 0
    requires EmptyNext(s) && !CutLine(s)
    ensures RunText(s) != Run(s)
  {
    hide R.ReadNumber;
    hide Run;
    hide RunText;
    hide RegularAll;
    var u, len := R.Unread(s.c), R.ReadNumber(R.Unread(s.c), |s.c.buf|).len;
    var s1 := EmptyText(s, len);
    if |u| < len + 5 {
      ElementHeader(s, 0, len);
      hide Step;
      hide StepText;
      RunWaits(s);
      TakesIsWrong(s);
    } else {
      var s2 := EmptyMeant(s, len);
      RunsOn(s);
      hide Step;
      hide StepText;
      LeftBehind(s, s1, s2);
    }
  }

  lemma {:induction false} EmptyText(s: Redis, len: nat) returns (s1: Redis)
    requires Sound(s) && s.rNum > 0 && s.c.multi > 0 && s.c.bulk == 0 && !CutLine(s)
    requires R.Unread(s.c) != [] && R.Unread(s.c)[0] == DOLLAR && R.ReadNumber(R.Unread(s.c), |s.c.buf|) == R.Number(0, len)
    ensures StepText(s) == Go(s1) && Sound(s1) && len + 3 <= |R.Unread(s.c)| && R.Unread(s1.c) == R.Unread(s.c)[len + 3..]
    ensures s1.c.multi == s.c.multi - 1 && s1.c.bulk == 0 && s1.rNum == s.rNum - if s.c.multi == 1 then 1 else 0
  {
    hide R.ReadNumber;
    hide Counted;
    hide NullTaken;
    NullIs(s.c, len);
    CountedIs(s, NullTaken(s.c, len));
    s1 := Counted(s, NullTaken(s.c, len));
  }

  lemma {:induction false} EmptyMeant(s: Redis, len: nat) returns (s2: Redis)
    requires Sound(s) && s.rNum > 0 && s.c.multi > 0 && s.c.bulk == 0 && Run(s).Done?
    requires R.Unread(s.c) != [] && R.Unread(s.c)[0] == DOLLAR && R.ReadNumber(R.Unread(s.c), |s.c.buf|) == R.Number(0, len)
    requires |R.Unread(s.c)| >= len + 5
    ensures R.Unread(s.c)[len + 3] == CR
    ensures Step(s) == Go(s2) && Sound(s2) && R.Unread(s2.c) == R.Unread(s.c)[len + 5..]
    ensures s2.c.multi == s.c.multi - 1 && s2.rNum == s.rNum - if s.c.multi == 1 then 1 else 0
  {
    hide R.ReadNumber;
    hide Counted;
    hide EmptyTaken;
    ElementHeader(s, 0, len);
    var u := R.Unread(s.c);
    if u[len + 3] != CR || u[len + 4] != LF { RunFails(s); }
    hide Run;
    hide Step;
    EmptyIs(s.c, len);
    CountedIs(s, EmptyTaken(s.c, len));
    s2 := Counted(s, EmptyTaken(s.c, len));
  }

  lemma {:induction false} TextErr(s: Redis)
    requires Sound(s) && StepText(s).Wrong?
    ensures RunText(s).Failed?
  {
  }

  lemma {:induction false} RunWaits(s: Redis)
    requires Sound(s) && Step(s) == Wait
    ensures Run(s) == Done(s)
  {
  }

  lemma {:induction false} RunFails(s: Redis)
    requires Sound(s) && Step(s).Wrong?
    ensures Run(s).Failed?
  {
  }

  lemma {:induction false} RunsOn(s: Redis)
    requires Sound(s)
    ensures Step(s).Go? ==> Sound(Step(s).s) && Run(s) == Run(Step(s).s)
    ensures StepText(s).Go? ==> Sound(StepText(s).s) && RunText(s) == RunText(StepText(s).s)
  {
    StepConsumes(s);
    StepTextConsumes(s);
    hide Step;
    hide StepText;
  }

  /** s1 is where the text goes on, a CRLF before s2, where it should. */
  lemma {:induction false} LeftBehind(s: Redis, s1: Redis, s2: Redis)
    requires Sound(s) && AtEnd(s.c) && RegularAll(s) && Run(s).Done?
    requires Sound(s1) && Sound(s2) && RunText(s) == RunText(s1) && Run(s) == Run(s2)
    requires StepText(s) == Go(s1)
    requires |R.Unread(s1.c)| >= 2 && R.Unread(s1.c)[0] == CR && |R.Unread(s2.c)| < |R.Unread(s1.c)|
    requires s1.rNum == s2.rNum && s1.c.multi == s2.c.multi && (s1.c.multi > 0 ==> s1.c.bulk == 0)
    ensures RunText(s) != Run(s)
  {
    hide Run;
    hide RunText;
    hide RegularAll;
    TextWeighs(s);
    RunCopies(s);
    WeightKept(s.c, Run(s).s.c);
    hide Weight;
    if s1.rNum == 0 {
      TextWaits(s1);
      NothingOwed(s2);
    } else if s1.c.multi > 0 {
      TextFails(s1);
    } else if RunText(s1).Done? {
      StrayTurn(s1);
      TextRunWeighs(StepText(s1).s);
    }
  }

  lemma {:induction false} RunCopies(s: Redis)
    requires Sound(s) && AtEnd(s.c) && RegularAll(s) && Run(s).Done?
    ensures Sound(Run(s).s) && Copied(s.c, Run(s).s.c)
  {
    Q.RunCopies(s);
  }

  lemma {:induction false} WeightKept(c: R.Client, c1: R.Client)
    requires c.rpos <= |c.buf| && Copied(c, c1)
    ensures c1.rpos <= |c1.buf| && Weight(c1) == Weight(c)
  {
    assert |Flat(c1.cmds) + R.Unread(c1)| == |Flat(c.cmds) + R.Unread(c)|;
  }

  lemma {:induction false} TextWaits(s: Redis)
    requires Sound(s) && s.rNum == 0
    ensures RunText(s) == Done(s)
  {
  }

  lemma {:induction false} NothingOwed(s: Redis)
    requires Sound(s) && s.rNum == 0
    ensures Run(s) == Done(s)
  {
  }

  lemma {:induction false} TextFails(s: Redis)
    requires Sound(s) && s.rNum > 0 && s.c.multi > 0 && s.c.bulk == 0 && R.Unread(s.c) != [] && R.Unread(s.c)[0] == CR
    ensures RunText(s).Failed?
  {
  }

  lemma {:induction false} StrayTurn(s: Redis)
    requires Sound(s) && s.rNum > 0 && s.c.multi == 0 && |R.Unread(s.c)| >= 2 && R.Unread(s.c)[0] == CR
    ensures StepText(s).Go? && Sound(StepText(s).s) && Weight(StepText(s).s.c) > Weight(s.c)
    ensures RunText(s) == RunText(StepText(s).s)
  {
    assert R.FindCr(R.Unread(s.c)) == Some(0);
    assert StepText(s) == Go(Redis(UnknownTaken(s.c, 0), s.rNum - 1));
    TakenWeighs(s.c, 0);
    hide UnknownTaken;
    StepTextConsumes(s);
    RunsOn(s);
    hide RunText;
    hide Weight;
  }

  /** Once the text goes off, the call comes to something else. */
  lemma {:induction false} OffIsWrong(s: Redis)
    requires Sound(s) && AtEnd(s.c) && Tidy(s) && RegularAll(s) && Run(s).Done? && Off(s)
    ensures RunText(s) != Run(s)
    decreases |R.Unread(s.c)|, if s.c.multi == 0 then 1 else 0
  {
    if OffAt(s) {
      if s.c.multi == 0 {
        CutIsWrong(s);
      } else if R.Unread(s.c) == [] || (R.Unread(s.c)[0] == DOLLAR && CutLine(s)) {
        ElementIsWrong(s);
      } else {
        EmptyIsWrong(s);
      }
    } else {
      OnAt(s);
      hide Step;
      hide StepText;
      hide OffAt;
      StepConsumes(s);
      RunsOn(s);
      StepTidy(s);
      StepCopies(s);
      OffIsWrong(Step(s).s);
    }
  }

  // ---------------------------------------------------------------- told from the bytes

  /** Part of an item, q: it ends on the '\r' of the header, or it is the empty string and its header is there. */
  predicate ItemEdge(item: Item, q: seq<Byte>) {
    q == ItemHead(item) + [CR] || (item == Text([]) && |q| >= |ItemHead(item)| + 2)
  }

  /** A beginning of some items that ends just before one of them or on the '\r' of a header, or in which there is the
      header of an empty string. */
  predicate ItemsEdge(items: seq<Item>, q: seq<Byte>) {
    items != [] &&
    (q == [] || if |q| < |ItemBytes(items[0])| then ItemEdge(items[0], q)
                else items[0] == Text([]) || ItemsEdge(items[1..], q[|ItemBytes(items[0])|..]))
  }

  predicate HasEmpty(items: seq<Item>) { items != [] && (items[0] == Text([]) || HasEmpty(items[1..])) }

  function StarHead(n: nat): seq<Byte> { [STAR] + Print(n) }

  /** Part of a reply. */
  predicate PartEdge(r: Reply, p: seq<Byte>) {
    match r
    case Line(text) => p == text + [CR]
    case Single(item) => ItemEdge(item, p)
    case Multi(items) =>
      var head := StarHead(|items|);
      p == head + [CR] || (|p| >= |head| + 2 && ItemsEdge(items, p[|head| + 2..]))
  }

  predicate EmptyIn(r: Reply) {
    match r
    case Line(_) => false
    case Single(item) => item == Text([])
    case Multi(items) => HasEmpty(items)
  }

  /** A beginning of some replies that ends on the '\r' of a line or just before an element of an array, or in which
      there is the header of an empty bulk string. */
  predicate Edge(rs: seq<Reply>, p: seq<Byte>) {
    rs != [] &&
    if |p| < |ReplyBytes(rs[0])| then PartEdge(rs[0], p)
    else EmptyIn(rs[0]) || Edge(rs[1..], p[|ReplyBytes(rs[0])|..])
  }

  // ---------------------------------------------------------------- turns

  lemma {:induction false} OffOn(s: Redis)
    requires Sound(s) && !OffAt(s) && Step(s).Go?
    ensures Sound(Step(s).s) && (Off(s) <==> Off(Step(s).s))
  {
    hide Step;
    hide OffAt;
    StepConsumes(s);
  }

  lemma {:induction false} OffStops(s: Redis)
    requires Sound(s) && !Step(s).Go?
    ensures Off(s) <==> OffAt(s)
  {
    hide Step;
    hide OffAt;
  }

  /** Some first characters of a line that has no '\r'. */
  lemma {:induction false} NoCrIn(text: seq<Byte>, q: seq<Byte>)
    requires Plain(text) && q <= text
    ensures R.FindCr(q) == None
  {
    assert forall i :: 0 <= i < |q| ==> q[i] == text[i];
    Q.NoCr(q);
  }

  lemma {:induction false} CutAt(s: Redis, text: seq<Byte>)
    requires Sound(s) && Plain(text) && R.Unread(s.c) == text + [CR]
    ensures CutLine(s)
  {
    CutFound(text);
  }

  lemma {:induction false} WholeNotCut(s: Redis, text: seq<Byte>, after: seq<Byte>)
    requires Sound(s) && Plain(text) && R.Unread(s.c) == text + CRLF + after
    ensures R.FindCr(R.Unread(s.c)) == Some(|text|) && !CutLine(s)
  {
    FindCrPlain(text, after);
  }

  // ---------------------------------------------------------------- items

  lemma {:induction false} HeadIsPlain(item: Item)
    ensures Plain(ItemHead(item)) && ItemHead(item) != [] && ItemHead(item)[0] == DOLLAR
  {
    ItemStarts(item, []);
  }

  lemma {:induction false} HeadNumber(item: Item, after: seq<Byte>, wpos: nat)
    requires GoodItem(item)
    ensures var u := ItemHead(item) + CRLF + after;
            && u[0] == DOLLAR
            && R.ReadNumber(u, wpos) == R.Number(if item.Null? then -1 else |item.bytes|, |ItemHead(item)| - 1)
  {
    hide R.ReadNumber;
    hide Print;
    var u := ItemHead(item) + CRLF + after;
    if item.Null? {
      NullText(after, wpos);
      assert u == NULL_BULK + after;
    } else {
      assert u == [DOLLAR] + Print(|item.bytes|) + CRLF + after;
      RespMeaning.ReadLine(DOLLAR, |item.bytes|, after, wpos);
    }
  }

  /** At a whole header the text is off exactly if the string is empty. */
  lemma {:induction false} HeadOff(s: Redis, item: Item, after: seq<Byte>)
    requires Sound(s) && s.rNum > 0 && s.c.multi > 0 && s.c.bulk == 0 && GoodItem(item)
    requires R.Unread(s.c) == ItemHead(item) + CRLF + after
    ensures !CutLine(s) && (OffAt(s) <==> item == Text([]))
  {
    HeadIsPlain(item);
    hide ItemHead;
    WholeNotCut(s, ItemHead(item), after);
    HeadNumber(item, after, |s.c.buf|);
    hide R.ReadNumber;
    hide R.FindCr;
  }

  lemma {:induction false} DollarMoves(c: R.Client, v: nat, len: nat)
    requires c.rpos + len + 3 <= |c.buf|
    ensures var c1 := R.DollarTaken(c, v, len);
            c1.rpos <= |c1.buf| && R.Unread(c1) == R.Unread(c)[len + 3..] && c1.multi == c.multi && c1.bulk == v
  {
    HeaderMoves(c, len);
    hide R.HeaderTaken;
  }

  lemma {:induction false} Unheaded(u: seq<Byte>, head: seq<Byte>, after: seq<Byte>)
    requires u == head + CRLF + after
    ensures u[|head| + 2..] == after
  {
  }

  /** The header of a string that is not empty: s0 waits for its body. */
  lemma {:induction false} HeaderTurn(s: Redis, item: Item, after: seq<Byte>) returns (s0: Redis)
    requires Sound(s) && s.rNum > 0 && s.c.multi > 0 && s.c.bulk == 0 && GoodItem(item) && item.Text? && item.bytes != []
    requires R.Unread(s.c) == ItemHead(item) + CRLF + after
    ensures Step(s) == Go(s0) && Sound(s0) && R.Unread(s0.c) == after && s0.c.bulk == |item.bytes| && s0.c.multi == s.c.multi
    ensures s0.rNum == s.rNum
  {
    var len := |ItemHead(item)| - 1;
    HeadNumber(item, after, |s.c.buf|);
    Unheaded(R.Unread(s.c), ItemHead(item), after);
    hide ItemHead;
    hide R.ReadNumber;
    hide R.DollarTaken;
    ElementHeader(s, |item.bytes|, len);
    hide Step;
    DollarMoves(s.c, |item.bytes|, len);
    s0 := s.(c := R.DollarTaken(s.c, |item.bytes|, len));
  }

  lemma {:induction false} BodyWaits(s: Redis)
    requires Sound(s) && s.rNum > 0 && s.c.multi > 0 && s.c.bulk > 0 && |R.Unread(s.c)| < s.c.bulk + 2
    ensures !Off(s)
  {
    OffStops(s);
  }

  lemma {:induction false} ItemFirst(item: Item, q: seq<Byte>)
    requires q != [] && q <= ItemBytes(item)
    ensures q[0] == DOLLAR
  {
    ItemStarts(item, []);
    assert q[0] == ItemBytes(item)[0] == (ItemBytes(item) + [])[0];
  }

  lemma {:induction false} ItemPart(s: Redis, item: Item, q: seq<Byte>)
    requires Sound(s) && s.rNum > 0 && s.c.multi > 0 && s.c.bulk == 0 && GoodItem(item)
    requires R.Unread(s.c) == q != [] && q <= ItemBytes(item) && q != ItemBytes(item)
    ensures Off(s) <==> ItemEdge(item, q)
  {
    var head := ItemHead(item);
    HeadIsPlain(item);
    ItemHeads(item, q);
    ItemFirst(item, q);
    hide ItemHead;
    if |q| <= |head| {
      assert q == (head + CRLF)[..|q|] == head[..|q|];
      NoCrIn(head, q);
      HeadWaits(s);
    } else if |q| == |head| + 1 {
      assert q == (head + CRLF)[..|q|] == head + [CR];
      CutAt(s, head);
      hide Off;
      OffNow(s);
    } else {
      HeadedPart(s, item, q[|head| + 2..]);
    }
  }

  lemma {:induction false} OffNow(s: Redis)
    requires Sound(s) && OffAt(s)
    ensures Off(s)
  {
  }

  lemma {:induction false} HeadWaits(s: Redis)
    requires Sound(s) && s.rNum > 0 && s.c.multi > 0 && s.c.bulk == 0
    requires R.Unread(s.c) != [] && R.Unread(s.c)[0] == DOLLAR && R.FindCr(R.Unread(s.c)) == None
    ensures !Off(s)
  {
    OffStops(s);
  }

  lemma {:induction false} HeadedPart(s: Redis, item: Item, after: seq<Byte>)
    requires Sound(s) && s.rNum > 0 && s.c.multi > 0 && s.c.bulk == 0 && GoodItem(item)
    requires R.Unread(s.c) == ItemHead(item) + CRLF + after && |R.Unread(s.c)| < |ItemBytes(item)|
    ensures Off(s) <==> item == Text([])
  {
    HeadOff(s, item, after);
    ItemStarts(item, []);
    hide OffAt;
    if item == Text([]) {
      OffNow(s);
    } else {
      assert item.Text?;
      var s0 := HeaderTurn(s, item, after);
      OffOn(s);
      hide Step;
      hide Off;
      BodyWaits(s0);
    }
  }

  lemma {:induction false} ItemWhole(s: Redis, item: Item, rest: seq<Byte>) returns (s1: Redis)
    requires Sound(s) && AtEnd(s.c) && s.rNum > 0 && s.c.multi > 0 && s.c.bulk == 0 && GoodItem(item)
    requires R.Unread(s.c) == ItemBytes(item) + rest
    ensures Leads(s, s1, rest, if s.c.multi == 1 then 1 else 0) && s1.c.multi == s.c.multi - 1
    ensures Off(s) <==> item == Text([]) || Off(s1)
  {
    ItemStarts(item, rest);
    HeadOff(s, item, ItemRest(item, rest));
    hide OffAt;
    hide Off;
    hide Leads;
    hide R.Bulk;
    hide ItemHead;
    hide ItemRest;
    if item.Null? {
      s1 := NullWhole(s, rest);
    } else if item.bytes == [] {
      s1 := RunItem(s, item, rest);
      OffNow(s);
    } else {
      s1 := TextWhole(s, item.bytes, rest);
    }
  }

  lemma {:induction false} NullWhole(s: Redis, rest: seq<Byte>) returns (s1: Redis)
    requires Sound(s) && AtEnd(s.c) && s.rNum > 0 && s.c.multi > 0 && s.c.bulk == 0
    requires R.Unread(s.c) == NULL_BULK + rest && !OffAt(s)
    ensures Leads(s, s1, rest, if s.c.multi == 1 then 1 else 0) && s1.c.multi == s.c.multi - 1
    ensures Off(s) <==> Off(s1)
  {
    hide OffAt;
    hide Off;
    hide Step;
    hide Leads;
    RunNull(s, rest);
    OffOn(s);
    s1 := Step(s).s;
  }

  lemma {:induction false} TextWhole(s: Redis, b: seq<Byte>, rest: seq<Byte>) returns (s1: Redis)
    requires Sound(s) && AtEnd(s.c) && s.rNum > 0 && s.c.multi > 0 && s.c.bulk == 0 && 0 < |b| <= LLONG_MAX
    requires R.Unread(s.c) == R.Bulk(b) + rest && !OffAt(s)
    ensures Leads(s, s1, rest, if s.c.multi == 1 then 1 else 0) && s1.c.multi == s.c.multi - 1
    ensures Off(s) <==> Off(s1)
  {
    hide OffAt;
    hide Off;
    hide Step;
    hide Run;
    hide Run0;
    hide RegularAll;
    hide R.Bulk;
    hide Flat;
    RunHeader(s, b, rest);
    OffOn(s);
    var s0 := Step(s).s;
    RunBody(s0, b, rest);
    BodyIsOn(s0);
    OffOn(s0);
    s1 := Step(s0).s;
  }

  lemma {:induction false} BodyIsOn(s: Redis)
    requires Sound(s) && s.c.multi > 0 && s.c.bulk > 0
    ensures !OffAt(s)
  {
  }

  lemma {:induction false} ItemsPart(s: Redis, items: seq<Item>, q: seq<Byte>)
    requires Sound(s) && AtEnd(s.c) && s.rNum > 0 && s.c.multi == |items| > 0 && s.c.bulk == 0 && GoodItems(items)
    requires R.Unread(s.c) == q && q <= ItemsBytes(items) && q != ItemsBytes(items)
    ensures Off(s) <==> ItemsEdge(items, q)
    decreases |items|
  {
    hide Step;
    hide Run;
    hide ItemBytes;
    var b := ItemBytes(items[0]);
    if q == [] {
      OffNow(s);
    } else if |q| < |b| {
      assert q == ItemsBytes(items)[..|q|] == b[..|q|];
      ItemPart(s, items[0], q);
    } else {
      var rest := q[|b|..];
      Behind(b, ItemsBytes(items[1..]), q);
      var s1 := ItemWhole(s, items[0], rest);
      assert items[1..] != [];
      hide Off;
      ItemsPart(s1, items[1..], rest);
    }
  }

  lemma {:induction false} Behind(a: seq<Byte>, b: seq<Byte>, q: seq<Byte>)
    requires q <= a + b && q != a + b && |q| >= |a|
    ensures var rest := q[|a|..]; q == a + rest && rest <= b && rest != b
  {
    var rest := q[|a|..];
    assert q == (a + b)[..|q|];
    assert q[..|a|] == a;
    assert q == a + rest;
    assert rest == b[..|rest|];
  }

  lemma {:induction false} ItemsWhole(s: Redis, items: seq<Item>, rest: seq<Byte>) returns (s1: Redis)
    requires Sound(s) && AtEnd(s.c) && s.rNum > 0 && s.c.multi == |items| > 0 && s.c.bulk == 0 && GoodItems(items)
    requires R.Unread(s.c) == ItemsBytes(items) + rest
    ensures Leads(s, s1, rest, 1) && s1.c.multi == 0
    ensures Off(s) <==> HasEmpty(items) || Off(s1)
    decreases |items|
  {
    hide Run;
    hide Step;
    hide Off;
    hide ItemBytes;
    var rest0 := ItemsBytes(items[1..]) + rest;
    RespMeaning.Regroup(ItemBytes(items[0]), ItemsBytes(items[1..]), rest, [], []);
    var s0 := ItemWhole(s, items[0], rest0);
    if |items| == 1 {
      assert rest0 == rest;
      s1 := s0;
    } else {
      s1 := ItemsWhole(s0, items[1..], rest);
      Chain(s, s0, s1, rest0, rest, 0, 1);
    }
  }

  // ---------------------------------------------------------------- replies

  lemma {:induction false} LineWaits(s: Redis)
    requires Sound(s) && s.rNum > 0 && s.c.multi == 0 && R.FindCr(R.Unread(s.c)) == None
    ensures !Off(s)
  {
    OffStops(s);
  }

  /** A first line of which the end is missing, or its '\n'. */
  lemma {:induction false} LinePart(s: Redis, text: seq<Byte>, p: seq<Byte>)
    requires Sound(s) && s.rNum > 0 && s.c.multi == 0 && Plain(text) && R.Unread(s.c) == p
    requires p <= text + CRLF && |p| < |text| + 2
    ensures Off(s) <==> p == text + [CR]
  {
    if |p| <= |text| {
      assert p == (text + CRLF)[..|p|] == text[..|p|];
      NoCrIn(text, p);
      LineWaits(s);
    } else {
      assert p == (text + CRLF)[..|p|] == text + [CR];
      CutAt(s, text);
      OffNow(s);
    }
  }

  lemma {:induction false} LineIsOn(s: Redis, text: seq<Byte>, after: seq<Byte>)
    requires Sound(s) && s.c.multi == 0 && Plain(text) && R.Unread(s.c) == text + CRLF + after
    ensures !OffAt(s)
  {
    WholeNotCut(s, text, after);
  }

  /** The header of a bulk string, seen as a first line. */
  lemma {:induction false} DollarTurn(s: Redis, item: Item, after: seq<Byte>) returns (s0: Redis)
    requires Sound(s) && s.rNum > 0 && s.c.multi == 0 && s.c.bulk == 0 && R.Unread(s.c) == ItemHead(item) + CRLF + after
    ensures s0 == s.(c := s.c.(multi := 1)) && Sound(s0) && (Off(s) <==> Off(s0))
  {
    HeadIsPlain(item);
    hide ItemHead;
    WholeNotCut(s, ItemHead(item), after);
    hide R.FindCr;
    assert R.Unread(s.c)[0] == DOLLAR;
    s0 := s.(c := s.c.(multi := 1));
    assert Step(s) == Go(s0);
    LineIsOn(s, ItemHead(item), after);
    OffOn(s);
  }

  /** A beginning of an item, at its header. */
  lemma {:induction false} ItemHeads(item: Item, p: seq<Byte>)
    requires p <= ItemBytes(item)
    ensures var head := ItemHead(item);
            if |p| < |head| + 2 then p <= head + CRLF else p == head + CRLF + p[|head| + 2..]
  {
    var head := ItemHead(item);
    ItemStarts(item, []);
    assert ItemBytes(item) + [] == ItemBytes(item);
    hide ItemBytes;
    hide ItemHead;
    HeadOrMore(head + CRLF, ItemRest(item, []), p);
  }

  lemma {:induction false} HeadOrMore(a: seq<Byte>, b: seq<Byte>, p: seq<Byte>)
    requires p <= a + b
    ensures if |p| < |a| then p <= a else p == a + p[|a|..]
  {
    assert p == (a + b)[..|p|];
  }

  lemma {:induction false} SinglePart(s: Redis, item: Item, p: seq<Byte>)
    requires Sound(s) && s.rNum > 0 && s.c.multi == 0 && s.c.bulk == 0 && GoodItem(item)
    requires R.Unread(s.c) == p && p <= ItemBytes(item) && p != ItemBytes(item)
    ensures Off(s) <==> ItemEdge(item, p)
  {
    var head := ItemHead(item);
    HeadIsPlain(item);
    ItemHeads(item, p);
    hide ItemBytes;
    hide ItemHead;
    if |p| < |head| + 2 {
      LinePart(s, head, p);
    } else {
      var s0 := DollarTurn(s, item, p[|head| + 2..]);
      hide Off;
      ItemPart(s0, item, p);
    }
  }

  lemma {:induction false} SingleWhole(s: Redis, item: Item, rest: seq<Byte>) returns (s1: Redis)
    requires Sound(s) && AtEnd(s.c) && s.rNum > 0 && s.c.multi == 0 && s.c.bulk == 0 && GoodItem(item)
    requires R.Unread(s.c) == ItemBytes(item) + rest
    ensures Leads(s, s1, rest, 1) && s1.c.multi == 0
    ensures Off(s) <==> item == Text([]) || Off(s1)
  {
    hide Off;
    hide Run;
    hide Run0;
    hide RegularAll;
    hide ItemBytes;
    ItemStarts(item, rest);
    var s0 := DollarTurn(s, item, ItemRest(item, rest));
    var s2 := RunDollar(s, item, rest);
    s1 := ItemWhole(s0, item, rest);
    hide Flat;
  }

  lemma {:induction false} StarIsPlain(n: nat)
    ensures Plain(StarHead(n)) && StarHead(n)[0] == STAR
  {
    hide Print;
    var p := Print(n);
    assert Digits(p);
  }

  lemma {:induction false} StarTurn(s: Redis, n: nat, after: seq<Byte>) returns (s0: Redis)
    requires Sound(s) && AtEnd(s.c) && s.rNum > 0 && s.c.multi == 0 && s.c.bulk == 0 && 0 < n <= LLONG_MAX
    requires R.Unread(s.c) == StarHead(n) + CRLF + after
    ensures Sound(s0) && AtEnd(s0.c) && R.Unread(s0.c) == after && s0.c.multi == n && s0.c.bulk == 0 && s0.rNum == s.rNum
    ensures SameRun(s, s0) && Copied(s.c, s0.c) && (Off(s) <==> Off(s0))
  {
    hide Print;
    hide Parsed;
    StarIsPlain(n);
    StarText(n, after);
    LineIsOn(s, StarHead(n), after);
    hide R.FindCr;
    var i := |StarHead(n)|;
    assert Step(s) == Go(s.(c := LineTaken(s.c, i).(multi := n)));
    LineFacts(s.c, i);
    hide Step;
    hide LineTaken;
    OffOn(s);
    hide Off;
    hide OffAt;
    s0 := Step(s).s;
    OneTurn(s);
  }

  lemma {:induction false} MultiPart(s: Redis, items: seq<Item>, p: seq<Byte>)
    requires Sound(s) && AtEnd(s.c) && s.rNum > 0 && s.c.multi == 0 && s.c.bulk == 0 && Good(Multi(items))
    requires R.Unread(s.c) == p && p <= ReplyBytes(Multi(items)) && p != ReplyBytes(Multi(items))
    ensures Off(s) <==> PartEdge(Multi(items), p)
  {
    hide Print;
    hide ItemsBytes;
    var head := StarHead(|items|);
    var body := ItemsBytes(items);
    StarIsPlain(|items|);
    assert ReplyBytes(Multi(items)) == (head + CRLF) + body;
    if |p| < |head| + 2 {
      assert p == ((head + CRLF) + body)[..|p|] == (head + CRLF)[..|p|];
      LinePart(s, head, p);
    } else {
      Behind(head + CRLF, body, p);
      var q := p[|head| + 2..];
      var s0 := StarTurn(s, |items|, q);
      hide Off;
      ItemsPart(s0, items, q);
      assert |head + [CR]| < |p|;
    }
  }

  lemma {:induction false} MultiWhole(s: Redis, items: seq<Item>, rest: seq<Byte>) returns (s1: Redis)
    requires Sound(s) && AtEnd(s.c) && s.rNum > 0 && s.c.multi == 0 && s.c.bulk == 0 && Good(Multi(items))
    requires R.Unread(s.c) == ReplyBytes(Multi(items)) + rest
    ensures Leads(s, s1, rest, 1) && s1.c.multi == 0
    ensures Off(s) <==> HasEmpty(items) || Off(s1)
  {
    hide Print;
    hide ItemsBytes;
    hide Off;
    hide Run;
    hide Run0;
    hide RegularAll;
    var head, after := StarHead(|items|), ItemsBytes(items) + rest;
    assert ReplyBytes(Multi(items)) + rest == head + CRLF + after;
    var s0 := StarTurn(s, |items|, after);
    s1 := ItemsWhole(s0, items, rest);
    hide Flat;
  }

  lemma {:induction false} ReplyPart(s: Redis, r: Reply, p: seq<Byte>)
    requires Sound(s) && AtEnd(s.c) && s.rNum > 0 && s.c.multi == 0 && s.c.bulk == 0 && Good(r)
    requires R.Unread(s.c) == p && p <= ReplyBytes(r) && p != ReplyBytes(r)
    ensures Off(s) <==> PartEdge(r, p)
  {
    hide Off;
    match r
    case Line(text) => LinePart(s, text, p);
    case Single(item) => SinglePart(s, item, p);
    case Multi(items) => MultiPart(s, items, p);
  }

  lemma {:induction false} ReplyWhole(s: Redis, r: Reply, rest: seq<Byte>) returns (s1: Redis)
    requires Sound(s) && AtEnd(s.c) && s.rNum > 0 && s.c.multi == 0 && s.c.bulk == 0 && Good(r)
    requires R.Unread(s.c) == ReplyBytes(r) + rest
    ensures Leads(s, s1, rest, 1) && s1.c.multi == 0
    ensures Off(s) <==> EmptyIn(r) || Off(s1)
  {
    hide Off;
    hide Leads;
    match r
    case Line(text) => s1 := LineWhole(s, text, rest);
    case Single(item) => s1 := SingleWhole(s, item, rest);
    case Multi(items) => s1 := MultiWhole(s, items, rest);
  }

  lemma {:induction false} LineWhole(s: Redis, text: seq<Byte>, rest: seq<Byte>) returns (s1: Redis)
    requires Sound(s) && AtEnd(s.c) && s.rNum > 0 && s.c.multi == 0 && s.c.bulk == 0 && GoodLine(text)
    requires R.Unread(s.c) == text + CRLF + rest
    ensures Leads(s, s1, rest, 1) && s1.c.multi == 0
    ensures Off(s) <==> Off(s1)
  {
    LineIsOn(s, text, rest);
    hide OffAt;
    hide Off;
    hide Step;
    hide Leads;
    RunLine(s, text, rest);
    OffOn(s);
    s1 := Step(s).s;
  }

  /** Off or not, told from what has come since nothing was under way. */
  lemma {:induction false} StreamOff(s: Redis, rs: seq<Reply>, p: seq<Byte>)
    requires Sound(s) && AtEnd(s.c) && s.c.multi == 0 && s.c.bulk == 0 && |rs| <= s.rNum && AllGood(rs)
    requires R.Unread(s.c) == p && p <= RepliesBytes(rs)
    ensures Off(s) <==> Edge(rs, p)
    decreases |rs|
  {
    hide Off;
    hide Run;
    hide Run0;
    hide RegularAll;
    hide ReplyBytes;
    if rs == [] {
      NothingHere(s);
    } else {
      var b := ReplyBytes(rs[0]);
      if |p| < |b| {
        assert p == RepliesBytes(rs)[..|p|] == b[..|p|];
        ReplyPart(s, rs[0], p);
      } else {
        var rest := p[|b|..];
        Q.RestIs(b, RepliesBytes(rs[1..]), p);
        var s1 := ReplyWhole(s, rs[0], rest);
        StreamOff(s1, rs[1..], rest);
      }
    }
  }

  lemma {:induction false} NothingHere(s: Redis)
    requires Sound(s) && R.Unread(s.c) == [] && s.c.multi == 0
    ensures !Off(s)
  {
    OffStops(s);
  }

  // ---------------------------------------------------------------- one call, and one after another

  /** On bytes: given a beginning p of the replies, the text does something else than it should exactly if p is at such an
      edge. (If it should fail, for the size limit, an edge may also make it fail.) */
  lemma {:induction false} TextRightExactly(s: Redis, rs: seq<Reply>, p: seq<Byte>)
    requires Sound(s) && AtEnd(s.c) && s.c.multi == 0 && s.c.bulk == 0 && |rs| <= s.rNum && AllGood(rs)
    requires R.Unread(s.c) == p && p <= RepliesBytes(rs)
    ensures !Edge(rs, p) ==> RunText(s) == Run(s)
    ensures Run(s).Done? ==> (RunText(s) == Run(s) <==> !Edge(rs, p))
  {
    hide Off;
    hide Edge;
    StreamOff(s, rs, p);
    if Off(s) {
      if Run(s).Done? {
        PartRegular(s, rs, p);
        OffIsWrong(s);
      }
    } else {
      OnIsRight(s);
    }
  }

  lemma {:induction false} PartRegular(s: Redis, rs: seq<Reply>, p: seq<Byte>)
    requires Sound(s) && AtEnd(s.c) && s.c.multi == 0 && s.c.bulk == 0 && |rs| <= s.rNum && AllGood(rs)
    requires R.Unread(s.c) == p && p <= RepliesBytes(rs)
    ensures RegularAll(s)
  {
    hide RegularAll;
    hide Run0;
    var tail := RepliesBytes(rs)[|p|..];
    assert p + tail == RepliesBytes(rs);
    UnreadFed(s.c, tail);
    Q.AllRegular(Fed(s, tail), rs);
    Q.RegularSplit(s, tail);
  }

  /** What stays on with more to come is on before, and goes on from where it stopped. */
  lemma {:induction false} OffMore(s: Redis, t: seq<Byte>)
    requires Sound(s) && !Off(s) && Run0(s).Done?
    ensures Sound(Run0(s).s) && (Off(Fed(s, t)) <==> Off(Fed(Run0(s).s, t)))
    decreases |R.Unread(s.c)|, if s.c.multi == 0 then 1 else 0
  {
    hide Step;
    hide OffAt;
    StepConsumes(s);
    StepMore(s, t);
    if Step(s).Go? {
      OnMore(s, t);
      OffOn(Fed(s, t));
      OffMore(Step(s).s, t);
    }
  }

  lemma {:induction false} OnMore(s: Redis, t: seq<Byte>)
    requires Sound(s) && !OffAt(s) && Step(s).Go?
    ensures Sound(Fed(s, t)) && !OffAt(Fed(s, t))
  {
    var u := R.Unread(s.c);
    UnreadFed(s.c, t);
    hide WholeLine;
    hide WithHeader;
    hide Counted;
    hide Parsed;
    if s.c.multi == 0 {
      R.FindCrMore(u, t);
    } else if s.c.bulk == 0 {
      R.FindCrMore(u, t);
      NumberStays(s, t);
    }
  }

  lemma {:induction false} NumberSame(c: R.Client, t: seq<Byte>)
    requires c.rpos < |c.buf| && c.buf[c.rpos] != CR
    ensures var c1 := R.Feed(c, t);
            && c1.rpos < |c1.buf| && R.Unread(c)[0] == R.Unread(c1)[0] == c.buf[c.rpos]
            && (R.ReadNumber(R.Unread(c), |c.buf|).Number? ==>
                  R.ReadNumber(R.Unread(c1), |c1.buf|) == R.ReadNumber(R.Unread(c), |c.buf|))
  {
    hide R.ReadNumber;
    hide R.HeaderTaken;
    R.NumberMore(c, t);
    var u := R.Unread(c);
    assert (u + t)[0] == u[0];
  }

  lemma {:induction false} NumberStays(s: Redis, t: seq<Byte>)
    requires Sound(s) && s.rNum > 0 && s.c.multi > 0 && s.c.bulk == 0 && Step(s).Go? && !EmptyNext(s)
    ensures Sound(Fed(s, t)) && !EmptyNext(Fed(s, t)) && R.Unread(s.c) != [] && R.Unread(Fed(s, t).c)[0] == R.Unread(s.c)[0]
  {
    hide R.ReadNumber;
    hide WithHeader;
    NumberSame(s.c, t);
  }

  lemma {:induction false} OffAlike(s: Redis, t: Redis)
    requires Q.Alike(s, t)
    ensures Off(s) <==> Off(t)
    decreases |R.Unread(s.c)|, if s.c.multi == 0 then 1 else 0
  {
    hide Step;
    hide OffAt;
    StepConsumes(s);
    StepConsumes(t);
    OffAtAlike(s, t);
    Q.Step0Alike(s, t);
    if Step(s).Go? { OffAlike(Step(s).s, Step(t).s); }
  }

  lemma {:induction false} OffAtAlike(s: Redis, t: Redis)
    requires Q.Alike(s, t)
    ensures OffAt(s) <==> OffAt(t)
  {
    var u := R.Unread(s.c);
    if u != [] && u[0] != CR { Q.NumberLimit(u, |s.c.buf|, |t.c.buf|); }
    hide R.ReadNumber;
  }

  /** The same for every read of a lease: as long as no beginning of what has come was at an edge, the text has done what
      it should; and then the next call does exactly if the bytes up to and with this read are not at one either. */
  lemma {:induction false} ReadTextExactly(l: Q.Leased, more: seq<Byte>)
    requires Q.Inv(l) && l.got + more <= RepliesBytes(l.due) && !Edge(l.due, l.got)
    ensures Sound(Fed(l.s, more))
    ensures !Edge(l.due, l.got + more) ==> RunText(Fed(l.s, more)) == Run(Fed(l.s, more))
    ensures Run(Fed(l.s, more)).Done? ==> (RunText(Fed(l.s, more)) == Run(Fed(l.s, more)) <==> !Edge(l.due, l.got + more))
  {
    hide Off;
    hide Edge;
    hide Run0;
    hide RegularAll;
    var x := Fed(l.s, more);
    LeaseOff(l, more);
    if Off(x) {
      if Run(x).Done? {
        Q.StreamRegular(l, more);
        LeaseTidy(l);
        OffIsWrong(x);
      }
    } else {
      OnIsRight(x);
    }
  }

  lemma {:induction false} LeaseOff(l: Q.Leased, more: seq<Byte>)
    requires Q.Inv(l) && l.got + more <= RepliesBytes(l.due) && !Edge(l.due, l.got)
    ensures Sound(Fed(l.s, more)) && (Off(Fed(l.s, more)) <==> Edge(l.due, l.got + more))
  {
    hide Off;
    hide Edge;
    hide Run0;
    var v := Q.Virtual(l.due, l.got);
    var t := Run0(v).s;
    StreamOff(v, l.due, l.got);
    StreamOff(Q.Virtual(l.due, l.got + more), l.due, l.got + more);
    assert Fed(v, more) == Q.Virtual(l.due, l.got + more);
    OffMore(v, more);
    UnreadFed(t.c, more);
    UnreadFed(l.s.c, more);
    OffAlike(Fed(t, more), Fed(l.s, more));
  }

  lemma {:induction false} LeaseTidy(l: Q.Leased)
    requires Q.Inv(l)
    ensures Tidy(l.s)
  {
    hide Run0;
    RunTidy(Q.Virtual(l.due, l.got));
  }

  lemma {:induction false} RunTidy(s: Redis)
    requires Sound(s) && Tidy(s) && Run0(s).Done?
    ensures Tidy(Run0(s).s)
    decreases |R.Unread(s.c)|, if s.c.multi == 0 then 1 else 0
  {
    hide Step;
    StepConsumes(s);
    if Step(s).Go? {
      StepTidy(s);
      RunTidy(Step(s).s);
    }
  }
}
