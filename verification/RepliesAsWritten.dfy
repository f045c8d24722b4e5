/** The text of processRedis and processCmds (src/proto/multibulk.c) where it departs from Replies, and exactly
    when that matters. */
module RepliesAsWritten {
  import opened Wrappers
  import opened Decimal
  import opened Buffers
  import opened Resp
  import opened RespMeaning
  import opened Replies

  // ---------------------------------------------------------------- the first line of a reply

  /** A line whose '\n' has not arrived: it is copied, and rpos moves one behind the data (multibulk.c:190-191), where
      nothing more is found. (srangeBuff then clears the buffer, as it would from the end of the data.) */
  function LineOverrun(c: Client): Client
    requires c.rpos < |c.buf|
  {
    Added(c.(rpos := |c.buf|), Unread(c)[..|Unread(c)| - 1] + CRLF)
  }

  /** ReadLine as the text has it. The elements of an array are looked for at once, behind the data, where
      there is no '$'; those of a bulk string are looked for where its own line starts (multibulk.c:179-196). */
  function ReadLineText(s: Redis): Replies.Turn
    requires Sound(s) && s.rNum > 0 && s.c.multi == 0
  {
    var u := Unread(s.c);
    if !CutLine(s) then Replies.ReadLine(s)
    else if u[0] == DOLLAR then Go(s.(c := s.c.(multi := 1)))
    else if (u[0] == STAR || u[0] == COLON) && (|u| == 1 || Parsed(u[1..|u| - 1]) == None) then Wrong(Protocol)
    else if u[0] == STAR && Parsed(u[1..|u| - 1]).value > 0 then Wrong(Protocol)
    else if u[0] in {STAR, COLON, PLUS, MINUS} then Go(Redis(LineOverrun(s.c), s.rNum - 1))
    else Go(Redis(LineOverrun(Added(s.c, UNEXPECTED + CRLF).(cmdNum := s.c.cmdNum + 1)), s.rNum - 1))
  }

  /** The read has ended between '\r' and '\n'. */
  predicate CutLine(s: Redis)
    requires Sound(s)
  {
    FindCr(Unread(s.c)) == Some(|Unread(s.c)| - 1)
  }

  /** The text does with a first line what it should exactly if the line is not cut there. */
  lemma {:induction false} RightUnlessCut(s: Redis)
    requires Sound(s) && s.rNum > 0 && s.c.multi == 0
    ensures ReadLineText(s) == Replies.ReadLine(s) <==> !CutLine(s)
  {
  }

  /** A cut header of a bulk string, too: the next thing the text does is to call it an error. */
  lemma {:induction false} CutHeader(s: Redis)
    requires Sound(s) && s.rNum > 0 && s.c.multi == 0 && s.c.bulk == 0 && CutLine(s) && Unread(s.c)[0] == DOLLAR
    ensures Replies.ReadLine(s) == Wait && ReadLineText(s).Go?
    ensures var s1 := ReadLineText(s).s; Sound(s1) && s1.rNum > 0 && s1.c.multi > 0 && ReadElementText(s1) == Wrong(Protocol)
  {
  }

  /** For instance a status line, cut before its '\n': the reply is counted, and the buffer cleared. */
  lemma {:induction false} CutStatus(s: Redis, text: seq<Byte>)
    requires Sound(s) && s.rNum > 0 && s.c.multi == 0 && Plain(text) && Unread(s.c) == [PLUS] + text + [CR]
    ensures Replies.ReadLine(s) == Wait
    ensures var s1 := Redis(LineOverrun(s.c), s.rNum - 1); ReadLineText(s) == Go(s1) && Unread(s1.c) == []
  {
    CutFound([PLUS] + text);
    assert Unread(s.c) == ([PLUS] + text) + [CR];
    hide Added;
    LineOverrunEmpty(s.c);
  }

  lemma {:induction false} LineOverrunEmpty(c: Client)
    requires c.rpos < |c.buf|
    ensures Unread(LineOverrun(c)) == []
  {
  }

  /** If another reply is owed, the '\n' that comes next is taken for the start of a line that redis never sent:
      one more reply is counted, and an error text goes to the client. */
  lemma {:induction false} StrayLf(s: Redis, next: seq<Byte>)
    requires Sound(s) && s.rNum > 0 && s.c.multi == 0 && Plain(next) && Unread(s.c) == [LF] + next + CRLF
    ensures Replies.Step(s) == Go(Redis(UnknownTaken(s.c, |next| + 1), s.rNum - 1))
  {
    hide UnknownTaken;
    assert Unread(s.c) == ([LF] + next) + CRLF + [];
    FindCrPlain([LF] + next, []);
    assert Unread(s.c)[0] == LF;
  }

  lemma {:induction false} CutFound(text: seq<Byte>)
    requires Plain(text)
    ensures FindCr(text + [CR]) == Some(|text|)
    decreases text
  {
    if text != [] {
      assert (text + [CR])[1..] == text[1..] + [CR];
      CutFound(text[1..]);
    }
  }

  // ---------------------------------------------------------------- the elements of a reply

  /** ReadElement as the text has it: a '$' is expected even if nothing is left (multibulk.c:68), a '\n' even if
      it has not arrived (229), and behind "$0" nothing is skipped (86-94). */
  function ReadElementText(s: Redis): Replies.Turn
    requires Sound(s) && s.rNum > 0 && s.c.multi > 0
  {
    var c, u := s.c, Unread(s.c);
    if u == [] || u[0] != DOLLAR || CutLine(s) then Wrong(Protocol)
    else match ReadNumber(u, |c.buf|)
      case NeedMore => Wait
      case Bad(e) => Wrong(e)
      case Number(v, len) =>
        if v > 0 then Go(s.(c := DollarTaken(c, v, len))) else Go(Counted(s, NullTaken(c, len)))
  }

  /** An empty bulk string is next. */
  predicate EmptyNext(s: Redis)
    requires Sound(s)
  {
    var u := Unread(s.c);
    u != [] && u[0] == DOLLAR && ReadNumber(u, |s.c.buf|).Number? && ReadNumber(u, |s.c.buf|).v == 0
  }

  /** That is right exactly if the read has not ended between two elements, nor inside a header before its '\n',
      and the element is not the empty string. */
  lemma {:induction false} ElementRight(s: Redis)
    requires Sound(s) && s.rNum > 0 && s.c.multi > 0
    ensures var u := Unread(s.c);
            ReadElementText(s) == ReadElement(s) <==> !(u == [] || (u[0] == DOLLAR && CutLine(s)) || EmptyNext(s))
  {
    hide Counted;
    hide HeaderTaken;
    var c, u := s.c, Unread(s.c);
    if EmptyNext(s) && !CutLine(s) { EmptyDiffers(s); }
  }

  lemma {:induction false} EmptyDiffers(s: Redis)
    requires Sound(s) && s.rNum > 0 && s.c.multi > 0 && EmptyNext(s) && !CutLine(s)
    ensures ReadElementText(s) != ReadElement(s)
  {
    hide Counted;
    hide HeaderTaken;
    hide ReadNumber;
    var c, r := s.c, ReadNumber(Unread(s.c), |s.c.buf|);
    HeaderMoves(c, r.len);
    CountedMoves(s, NullTaken(c, r.len));
    if |Unread(c)| >= r.len + 5 {
      CountedMoves(s, EmptyTaken(c, r.len));
      assert |Unread(NullTaken(c, r.len))| != |Unread(EmptyTaken(c, r.len))|;
    }
  }

  /** For instance an array of two, cut behind its first element: an error instead of waiting for the rest. */
  lemma {:induction false} CutArray(s: Redis, b: seq<Byte>)
    requires Sound(s) && AtEnd(s.c) && s.rNum > 0 && s.c.multi == 2 && s.c.bulk == 0
    requires 0 < |b| <= LLONG_MAX && Unread(s.c) == Bulk(b)
    ensures Replies.Step(s).Go? && Sound(Replies.Step(s).s) && Replies.Step(Replies.Step(s).s).Go?
    ensures var s2 := Replies.Step(Replies.Step(s).s).s;
            Sound(s2) && s2.rNum == s.rNum && s2.c.multi == 1 && s2.c.bulk == 0
            && ReadElement(s2) == Wait && ReadElementText(s2) == Wrong(Protocol)
  {
    hide Replies.Step;
    hide Replies.Run;
    hide Bulk;
    assert Bulk(b) + [] == Bulk(b);
    RunHeader(s, b, []);
    RunBody(Replies.Step(s).s, b, []);
  }

  /** The CRLF that is left is then taken for a reply of its own, with an error text that redis never sent. */
  lemma {:induction false} StrayCrlf(s: Redis, rest: seq<Byte>)
    requires Sound(s) && s.rNum > 0 && s.c.multi == 0 && Unread(s.c) == CRLF + rest
    ensures Replies.Step(s) == Go(Redis(UnknownTaken(s.c, 0), s.rNum - 1))
    ensures AtEnd(s.c) ==>
              var s1 := Replies.Step(s).s; Flat(s1.c.cmds) == Flat(s.c.cmds) + UNEXPECTED + CRLF + CRLF
  {
    var u := Unread(s.c);
    assert u[0] == CR && FindCr(u) == Some(0);
    if AtEnd(s.c) { UnknownIs(s.c); }
  }

  lemma {:induction false} UnknownIs(c: Client)
    requires AtEnd(c) && c.rpos + 2 <= |c.buf|
    ensures Flat(UnknownTaken(c, 0).cmds) == Flat(c.cmds) + UNEXPECTED + CRLF + CRLF
  {
    hide Flat;
    if |c.cmds| <= c.cmdNum { FlatMore(c.cmds, UNEXPECTED + CRLF); } else { FlatLonger(c.cmds, UNEXPECTED + CRLF); }
    var c1 := Added(c, UNEXPECTED + CRLF).(cmdNum := c.cmdNum + 1);
    assert c.buf[c.rpos..c.rpos + 0] + CRLF == CRLF;
    FlatMore(c1.cmds, CRLF);
    assert (Flat(c.cmds) + (UNEXPECTED + CRLF)) + CRLF == ((Flat(c.cmds) + UNEXPECTED) + CRLF) + CRLF;
  }
}
