/** src/proto/multibulk.c, redis side: processRedis over the buffers of a connection, shown to do what
    Replies.Run says. */
module RedisParser {
  import opened Wrappers
  import opened Decimal
  import opened Buffers
  import R = Resp
  import opened ClientParser
  import P = Replies

  // ---------------------------------------------------------------- Run, turn by turn

  /** What is left to do once part of a reply has been taken. */
  function Left(s: P.Redis): P.Outcome
    requires P.Sound(s) && s.rNum > 0
  {
    P.CountedMoves(s, s.c);
    P.Run(P.Counted(s, s.c))
  }

  lemma {:induction false} LeftIs(s: P.Redis)
    requires P.Sound(s) && s.rNum > 0 && s.c.multi == 0
    ensures var s1 := P.Redis(P.ReplyTaken(s.c), s.rNum - 1); P.Sound(s1) && Left(s) == P.Run(s1)
  {
  }

  lemma {:induction false} LeftRuns(s: P.Redis)
    requires P.Sound(s) && s.rNum > 0 && s.c.multi > 0
    ensures Left(s) == P.Run(s)
  {
  }

  lemma {:induction false} AtLine(s: P.Redis)
    requires P.Sound(s) && s.rNum > 0 && s.c.multi == 0
    ensures match P.ReadLine(s)
            case Wait => P.Run(s) == P.Done(s)
            case Wrong(e) => P.Run(s) == P.Failed(e)
            case Go(s1) => P.Sound(s1) && P.Run(s) == P.Run(s1)
  {
    hide P.ReadLine;
    P.StepConsumes(s);
  }

  lemma {:induction false} AtElement(s: P.Redis)
    requires P.Sound(s) && s.rNum > 0 && s.c.multi > 0 && s.c.bulk == 0
    ensures var u := R.Unread(s.c);
            && (u == [] ==> P.Run(s) == P.Done(s))
            && (u != [] && u[0] != DOLLAR ==> P.Run(s) == P.Failed(R.Protocol))
            && (u != [] && u[0] == DOLLAR ==>
                  match R.ReadNumber(u, |s.c.buf|)
                  case NeedMore => P.Run(s) == P.Done(s)
                  case Bad(e) => P.Run(s) == P.Failed(e)
                  case Number(v, len) => ElementLeft(s, v, len))
  {
    hide R.ReadNumber;
    hide R.HeaderTaken;
    P.StepConsumes(s);
    LeftRuns(s);
    var u := R.Unread(s.c);
    if u != [] && u[0] == DOLLAR {
      var r := R.ReadNumber(u, |s.c.buf|);
      if r.Number? { P.HeaderMoves(s.c, r.len); }
    }
  }

  /** What a header in front means for the rest. */
  ghost predicate ElementLeft(s: P.Redis, v: int, len: nat)
    requires P.Sound(s) && s.rNum > 0 && s.c.multi > 0
  {
    var u := R.Unread(s.c);
    && len + 3 <= |u|
    && if v > 0 then
         var c := R.DollarTaken(s.c, v, len); c.rpos <= |c.buf| && Left(s) == Left(s.(c := c))
       else if v < 0 then
         var c := P.NullTaken(s.c, len); c.rpos <= |c.buf| && Left(s) == Left(s.(c := c))
       else if |u| < len + 5 then Left(s) == P.Done(s)
       else if u[len + 3] != CR || u[len + 4] != LF then Left(s) == P.Failed(R.Protocol)
       else
         var c := P.EmptyTaken(s.c, len); c.rpos <= |c.buf| && Left(s) == Left(s.(c := c))
  }

  lemma {:induction false} AtBody(s: P.Redis)
    requires P.Sound(s) && s.rNum > 0 && s.c.multi > 0 && s.c.bulk > 0
    ensures var u := R.Unread(s.c);
            P.Run(s) == if |u| < s.c.bulk + 2 then P.Done(s)
                        else if u[s.c.bulk] != CR || u[s.c.bulk + 1] != LF then P.Failed(R.Protocol)
                        else Left(s.(c := R.BulkTaken(s.c)))
  {
    P.StepConsumes(s);
  }

  /** The pieces of a turn in the order the loops do them. */
  lemma {:induction false} NullPieces(c: R.Client, len: nat, line: seq<Byte>)
    requires c.rpos + len + 3 <= |c.buf| && c.multi > 0 && line == c.buf[c.rpos..c.rpos + len + 1]
    ensures R.Added(c.(rpos := c.rpos + len + 3), line + R.CRLF).(multi := c.multi - 1, argc := c.argc + 1)
            == P.NullTaken(c, len)
  {
  }

  lemma {:induction false} EmptyPieces(c: R.Client, len: nat, line: seq<Byte>)
    requires c.rpos + len + 5 <= |c.buf| && c.multi > 0 && line == c.buf[c.rpos..c.rpos + len + 1]
    ensures R.Added(R.Added(c.(rpos := c.rpos + len + 3), line + R.CRLF), R.CRLF)
            .(rpos := c.rpos + len + 5, multi := c.multi - 1, argc := c.argc + 1)
            == P.EmptyTaken(c, len)
  {
  }

  lemma {:induction false} LinePieces(c: R.Client, i: nat, line: seq<Byte>)
    requires c.rpos + i + 2 <= |c.buf| && line == c.buf[c.rpos..c.rpos + i]
    ensures R.Added(c, line + R.CRLF).(rpos := c.rpos + i + 2) == P.LineTaken(c, i)
    ensures R.Added(R.Added(c, P.UNEXPECTED + R.CRLF).(cmdNum := c.cmdNum + 1), line + R.CRLF).(rpos := c.rpos + i + 2)
            == P.UnknownTaken(c, i)
  {
  }

  // ---------------------------------------------------------------- the connection

  class Connection {
    const c: Client
    var rNum: nat

    ghost predicate Valid()
      reads this, c, c.cmd, c.cmds, c.cmds.buff
    {
      c.Sound()
    }

    /** pendding only says whether replies are outstanding. */
    ghost function Abs(): (s: P.Redis)
      requires Valid()
      reads this, c, c.cmd, c.cmd.buf, c.cmds, c.cmds.buff
      ensures P.Sound(s) && R.Unread(s.c) == c.cmd.Unread() && s.rNum == rNum
    {
      P.Redis(c.Abs().(pending := false), rNum)
    }

    constructor (c: Client)
      requires c.Sound()
      ensures Valid() && this.c == c && rNum == 0
    {
      this.c := c;
      rNum := 0;
    }

    /** A line of len characters, copied and read past. */
    method TakeLine(len: nat)
      requires Valid() && c.cmd.rpos + len + 2 <= c.cmd.wpos
      modifies c.cmd`rpos, c.cmds, c.cmds.buff
      ensures Valid() && (c.cmds.buff == old(c.cmds.buff) || fresh(c.cmds.buff)) && c.cmds.pendding == old(c.cmds.pendding)
      ensures Abs() == old(Abs()).(c := P.LineTaken(old(Abs()).c, len))
    {
      hide R.Added;
      hide P.LineTaken;
      ghost var was := Abs().c;
      var line := c.cmd.buf[c.cmd.rpos..c.cmd.rpos + len];
      LinePieces(was, len, line);
      PendingAside(c.Abs(), line + R.CRLF);
      c.AddReply(line);
      c.cmd.rpos := c.cmd.rpos + len + 2;
    }

    /** addReplyCmd: an error of the proxy's own. */
    method AddUnexpected()
      requires Valid()
      modifies c`cmdNum, c.cmds, c.cmds.buff
      ensures Valid() && (c.cmds.buff == old(c.cmds.buff) || fresh(c.cmds.buff)) && c.cmds.pendding == old(c.cmds.pendding)
      ensures var s := old(Abs()); Abs() == s.(c := R.Added(s.c, P.UNEXPECTED + R.CRLF).(cmdNum := s.c.cmdNum + 1))
    {
      hide R.Added;
      PendingAside(c.Abs(), P.UNEXPECTED + R.CRLF);
      c.AddReply(P.UNEXPECTED);
      c.cmdNum := c.cmdNum + 1;
    }

    /** The first line of a reply. A line that is a whole reply is counted here. */
    method ProcessLine() returns (r: Status)
      requires Valid() && rNum > 0 && c.multiBulkLen == 0
      modifies this`rNum, c`multiBulkLen, c`cmdNum, c.cmd`rpos, c.cmds, c.cmds.buff
      ensures Valid() && (c.cmds.buff == old(c.cmds.buff) || fresh(c.cmds.buff)) && c.cmds.pendding == old(c.cmds.pendding)
      ensures match r
              case Complete =>
                && P.ReadLine(old(Abs())) == P.Go(Abs())
                && rNum == if c.multiBulkLen == 0 then old(rNum) - 1 else old(rNum)
              case NotYet => P.ReadLine(old(Abs())) == P.Wait && Abs() == old(Abs())
              case Failed(e) => P.ReadLine(old(Abs())) == P.Wrong(e)
    {
      hide R.FindCr;
      hide P.WholeLine;
      var newLine := StrChr(c.cmd);
      if newLine == None {
        return if c.cmd.wpos > R.MAX_INLINE_SIZE then Failed(R.TooBig) else NotYet;
      }
      if c.cmd.rpos + newLine.value + 1 == c.cmd.wpos { // repaired: multibulk.c:191 moves rpos behind the data
        return NotYet;
      }
      r := ProcessType(newLine.value);
    }

    /** The switch on the type of a reply. */
    method ProcessType(len: nat) returns (r: Status)
      requires Valid() && rNum > 0 && c.multiBulkLen == 0
      requires R.FindCr(c.cmd.Unread()) == Some(len) && c.cmd.rpos + len + 1 < c.cmd.wpos
      modifies this`rNum, c`multiBulkLen, c`cmdNum, c.cmd`rpos, c.cmds, c.cmds.buff
      ensures Valid() && (c.cmds.buff == old(c.cmds.buff) || fresh(c.cmds.buff)) && c.cmds.pendding == old(c.cmds.pendding)
      ensures r != NotYet
      ensures r == Complete ==> rNum == if c.multiBulkLen == 0 then old(rNum) - 1 else old(rNum)
      ensures P.WholeLine(old(Abs()), len) == match r case Complete => P.Go(Abs()) case NotYet => P.Wait case Failed(e) => P.Wrong(e)
    {
      hide R.FindCr;
      hide P.LineTaken;
      hide P.UnknownTaken;
      ghost var s := Abs();
      ghost var u := c.cmd.Unread();
      FindCrFrom(u, 0);
      assert u[0..] == u;
      var type_ := c.cmd.buf[c.cmd.rpos];
      assert type_ == u[0];
      if type_ == DOLLAR {
        c.multiBulkLen := 1;
        return Complete;
      }
      if type_ == STAR || type_ == P.COLON {
        r := ProcessNumber(type_ == STAR, len);
        return;
      }
      if type_ == P.PLUS || type_ == MINUS {
        TakeLine(len);
      } else {
        TakeUnknown(len);
      }
      rNum := rNum - 1;
      return Complete;
    }

    /** An integer, or the length of an array. */
    method ProcessNumber(isArray: bool, len: nat) returns (r: Status)
      requires Valid() && rNum > 0 && c.multiBulkLen == 0 && len > 0 && c.cmd.rpos + len + 1 < c.cmd.wpos
      modifies this`rNum, c`multiBulkLen, c.cmd`rpos, c.cmds, c.cmds.buff
      ensures Valid() && (c.cmds.buff == old(c.cmds.buff) || fresh(c.cmds.buff)) && c.cmds.pendding == old(c.cmds.pendding)
      ensures r != NotYet
      ensures r == Complete ==> rNum == if c.multiBulkLen == 0 then old(rNum) - 1 else old(rNum)
      ensures var s, n := old(Abs()), Parsed(old(c.cmd.Unread())[1..len]);
              if n == None then r == Failed(R.Protocol)
              else r == Complete &&
                   Abs() == if isArray && n.value > 0 then s.(c := P.LineTaken(s.c, len).(multi := n.value))
                            else P.Redis(P.LineTaken(s.c, len), s.rNum - 1)
    {
      hide P.LineTaken;
      hide Parsed;
      var text := c.cmd.buf[c.cmd.rpos + 1..c.cmd.rpos + len];
      ghost var u := c.cmd.Unread();
      assert |text| == len - 1 && forall k :: 0 <= k < len - 1 ==> text[k] == u[k + 1];
      assert text == u[1..len];
      var num := ParseInt(text);
      if num == None {
        return Failed(R.Protocol);
      }
      TakeLine(len);
      if isArray && num.value > 0 {
        c.multiBulkLen := num.value;
      } else {
        rNum := rNum - 1;
      }
      return Complete;
    }

    method TakeUnknown(len: nat)
      requires Valid() && c.cmd.rpos + len + 2 <= c.cmd.wpos
      modifies c`cmdNum, c.cmd`rpos, c.cmds, c.cmds.buff
      ensures Valid() && (c.cmds.buff == old(c.cmds.buff) || fresh(c.cmds.buff)) && c.cmds.pendding == old(c.cmds.pendding)
      ensures Abs() == old(Abs()).(c := P.UnknownTaken(old(Abs()).c, len))
    {
      AddUnexpected();
      TakeLine(len);
    }

    /** The header of an element in processCmds, and the element itself if nothing follows. */
    method ProcessElement() returns (r: Status)
      requires Valid() && rNum > 0 && c.multiBulkLen > 0 && c.bulkLen == 0
      modifies c`bulkLen, c`multiBulkLen, c`argc, c.cmd`rpos, c.cmds, c.cmds.buff
      ensures Valid() && (c.cmds.buff == old(c.cmds.buff) || fresh(c.cmds.buff)) && c.cmds.pendding == old(c.cmds.pendding)
      ensures match r
              case Complete =>
                && c.cmdNum < c.cmds.wpos
                && c.cmd.rpos > old(c.cmd.rpos) && Left(old(Abs())) == Left(Abs())
                && c.multiBulkLen == (if c.bulkLen > 0 then old(c.multiBulkLen) else old(c.multiBulkLen) - 1)
              case NotYet => Left(old(Abs())) == P.Done(Abs())
              case Failed(e) => Left(old(Abs())) == P.Failed(e)
    {
      hide P.Run;
      hide R.ReadNumber;
      hide R.DollarTaken;
      hide P.NullTaken;
      hide P.EmptyTaken;
      hide Left;
      ghost var s := Abs();
      ghost var u := c.cmd.Unread();
      AtElement(s);
      LeftRuns(s);
      if c.cmd.wpos <= c.cmd.rpos { // repaired: multibulk.c:68 reads past the data
        return NotYet;
      }
      assert c.cmd.buf[c.cmd.rpos] == u[0];
      if c.cmd.buf[c.cmd.rpos] != DOLLAR {
        return Failed(R.Protocol);
      }
      var num := c.ParseInputBuffNum();
      match num {
        case NeedMore => return NotYet;
        case Bad(e) => return Failed(e);
        case Number(v, len) => r := TakeElement(s, v, len);
      }
    }

    /** The part of processCmds between the header and the body. */
    method TakeElement(ghost s: P.Redis, v: int, len: nat) returns (r: Status)
      requires Valid() && rNum > 0 && c.multiBulkLen > 0 && c.bulkLen == 0
      requires s.c.rpos + len + 3 == c.cmd.rpos && Abs() == s.(c := s.c.(rpos := c.cmd.rpos)) && ElementLeft(s, v, len)
      modifies c`bulkLen, c`multiBulkLen, c`argc, c.cmd`rpos, c.cmds, c.cmds.buff
      ensures Valid() && (c.cmds.buff == old(c.cmds.buff) || fresh(c.cmds.buff)) && c.cmds.pendding == old(c.cmds.pendding)
      ensures match r
              case Complete =>
                && c.cmdNum < c.cmds.wpos
                && c.cmd.rpos > s.c.rpos && Left(s) == Left(Abs())
                && c.multiBulkLen == (if c.bulkLen > 0 then old(c.multiBulkLen) else old(c.multiBulkLen) - 1)
              case NotYet => Left(s) == P.Done(Abs())
              case Failed(e) => Left(s) == P.Failed(e)
    {
      hide R.DollarTaken;
      hide P.NullTaken;
      hide P.EmptyTaken;
      hide Left;
      if v > 0 {
        TakeHeader(s, v, len);
        return Complete;
      }
      if v < 0 {
        TakeNull(s, len);
        return Complete;
      }
      // repaired: multibulk.c:86-94 leaves the CRLF of an empty bulk string unread
      ghost var u := R.Unread(s.c);
      assert |u| == c.cmd.wpos - c.cmd.rpos + len + 3;
      if c.cmd.wpos - c.cmd.rpos < 2 {
        c.cmd.rpos := c.cmd.rpos - len - 3;
        return NotYet;
      }
      assert u[len + 3] == c.cmd.buf[c.cmd.rpos] && u[len + 4] == c.cmd.buf[c.cmd.rpos + 1];
      if c.cmd.buf[c.cmd.rpos] != CR || c.cmd.buf[c.cmd.rpos + 1] != LF {
        return Failed(R.Protocol);
      }
      TakeEmpty(s, len);
      return Complete;
    }

    method TakeHeader(ghost s: P.Redis, v: nat, len: nat)
      requires Valid() && s.c.rpos + len + 3 == c.cmd.rpos && Abs() == s.(c := s.c.(rpos := c.cmd.rpos))
      modifies c`bulkLen, c.cmds, c.cmds.buff
      ensures Valid() && c.cmdNum < c.cmds.wpos && (c.cmds.buff == old(c.cmds.buff) || fresh(c.cmds.buff)) && c.cmds.pendding == old(c.cmds.pendding)
      ensures c.bulkLen == v && Abs() == s.(c := R.DollarTaken(s.c, v, len))
    {
      hide R.Added;
      hide R.DollarTaken;
      var line := c.cmd.buf[c.cmd.rpos - len - 3..c.cmd.rpos - 2];
      DollarPieces(s.c, v, len, line);
      c.bulkLen := v;
      PendingAside(c.Abs(), line + R.CRLF);
      c.AddReply(line);
    }

    method TakeNull(ghost s: P.Redis, len: nat)
      requires Valid() && c.multiBulkLen > 0 && s.c.rpos + len + 3 == c.cmd.rpos && Abs() == s.(c := s.c.(rpos := c.cmd.rpos))
      modifies c`multiBulkLen, c`argc, c.cmds, c.cmds.buff
      ensures Valid() && c.cmdNum < c.cmds.wpos && (c.cmds.buff == old(c.cmds.buff) || fresh(c.cmds.buff)) && c.cmds.pendding == old(c.cmds.pendding)
      ensures c.multiBulkLen == old(c.multiBulkLen) - 1 && Abs() == s.(c := P.NullTaken(s.c, len))
    {
      hide R.Added;
      hide P.NullTaken;
      var line := c.cmd.buf[c.cmd.rpos - len - 3..c.cmd.rpos - 2];
      NullPieces(s.c, len, line);
      PendingAside(c.Abs(), line + R.CRLF);
      c.AddReply(line);
      c.multiBulkLen := c.multiBulkLen - 1;
      c.argc := c.argc + 1;
    }

    method TakeEmpty(ghost s: P.Redis, len: nat)
      requires Valid() && c.multiBulkLen > 0 && s.c.rpos + len + 3 == c.cmd.rpos && Abs() == s.(c := s.c.(rpos := c.cmd.rpos))
      requires c.cmd.rpos + 2 <= c.cmd.wpos
      modifies c`multiBulkLen, c`argc, c.cmd`rpos, c.cmds, c.cmds.buff
      ensures Valid() && c.cmdNum < c.cmds.wpos && (c.cmds.buff == old(c.cmds.buff) || fresh(c.cmds.buff)) && c.cmds.pendding == old(c.cmds.pendding)
      ensures c.cmd.rpos == old(c.cmd.rpos) + 2
      ensures c.multiBulkLen == old(c.multiBulkLen) - 1 && Abs() == s.(c := P.EmptyTaken(s.c, len))
    {
      hide R.Added;
      hide P.EmptyTaken;
      var line := c.cmd.buf[c.cmd.rpos - len - 3..c.cmd.rpos - 2];
      EmptyPieces(s.c, len, line);
      PendingAside(c.Abs(), line + R.CRLF);
      c.AddReply(line);
      TakeNothing();
    }

    /** The CRLF behind an empty bulk string. */
    method TakeNothing()
      requires Valid() && c.multiBulkLen > 0 && c.cmd.rpos + 2 <= c.cmd.wpos
      modifies c`multiBulkLen, c`argc, c.cmd`rpos, c.cmds, c.cmds.buff
      ensures Valid() && c.cmdNum < c.cmds.wpos && (c.cmds.buff == old(c.cmds.buff) || fresh(c.cmds.buff)) && c.cmds.pendding == old(c.cmds.pendding)
      ensures c.cmd.rpos == old(c.cmd.rpos) + 2 && c.multiBulkLen == old(c.multiBulkLen) - 1
      ensures var s := old(Abs());
              Abs() == s.(c := R.Added(s.c, R.CRLF).(rpos := s.c.rpos + 2, multi := s.c.multi - 1, argc := s.c.argc + 1))
    {
      hide R.Added;
      PendingAside(c.Abs(), R.CRLF);
      assert [] + R.CRLF == R.CRLF;
      c.AddReply([]);
      c.cmd.rpos := c.cmd.rpos + 2;
      c.multiBulkLen := c.multiBulkLen - 1;
      c.argc := c.argc + 1;
    }

    /** The body of an element in processCmds. */
    method ProcessBody() returns (r: Status)
      requires Valid() && rNum > 0 && c.multiBulkLen > 0 && c.bulkLen > 0
      modifies c`bulkLen, c`multiBulkLen, c`argc, c`args, c.cmd`rpos, c.cmds, c.cmds.buff
      ensures Valid() && (c.cmds.buff == old(c.cmds.buff) || fresh(c.cmds.buff)) && c.cmds.pendding == old(c.cmds.pendding)
      ensures match r
              case Complete =>
                && c.cmdNum < c.cmds.wpos
                && c.bulkLen == 0 && c.multiBulkLen == old(c.multiBulkLen) - 1 && c.cmd.rpos > old(c.cmd.rpos)
                && Left(old(Abs())) == Left(Abs())
              case NotYet => Left(old(Abs())) == P.Done(Abs())
              case Failed(e) => Left(old(Abs())) == P.Failed(e)
    {
      hide P.Run;
      hide R.Added;
      hide R.BulkTaken;
      hide Left;
      ghost var s := Abs();
      AtBody(s);
      LeftRuns(s);
      if c.cmd.wpos - c.cmd.rpos < c.bulkLen + 2 {
        return NotYet;
      }
      var a := c.cmd.buf[c.cmd.rpos..c.cmd.rpos + c.bulkLen];
      ghost var u := c.cmd.Unread();
      assert a == s.c.buf[s.c.rpos..s.c.rpos + s.c.bulk];
      assert u[c.bulkLen] == c.cmd.buf[c.cmd.rpos + c.bulkLen] && u[c.bulkLen + 1] == c.cmd.buf[c.cmd.rpos + c.bulkLen + 1];
      c.cmd.rpos := c.cmd.rpos + c.bulkLen;
      if c.cmd.buf[c.cmd.rpos] != CR || c.cmd.buf[c.cmd.rpos + 1] != LF {
        return Failed(R.Protocol);
      }
      TakeBulk(s, a);
      return Complete;
    }

    method TakeBulk(ghost s: P.Redis, a: seq<Byte>)
      requires Valid() && c.multiBulkLen > 0 && c.cmd.rpos + 2 <= c.cmd.wpos && s.c.rpos + s.c.bulk == c.cmd.rpos
      requires Abs() == s.(c := s.c.(rpos := c.cmd.rpos)) && a == s.c.buf[s.c.rpos..s.c.rpos + s.c.bulk]
      modifies c`bulkLen, c`multiBulkLen, c`argc, c`args, c.cmd`rpos, c.cmds, c.cmds.buff
      ensures Valid() && c.cmdNum < c.cmds.wpos && (c.cmds.buff == old(c.cmds.buff) || fresh(c.cmds.buff)) && c.cmds.pendding == old(c.cmds.pendding)
      ensures c.bulkLen == 0 && c.multiBulkLen == old(c.multiBulkLen) - 1 && c.cmd.rpos == old(c.cmd.rpos) + 2
      ensures Abs() == s.(c := R.BulkTaken(s.c))
    {
      hide R.Added;
      hide R.BulkTaken;
      BulkPieces(s.c, a);
      TakeBody(a);
    }

    method TakeBody(a: seq<Byte>)
      requires Valid() && c.multiBulkLen > 0 && c.cmd.rpos + 2 <= c.cmd.wpos
      modifies c`bulkLen, c`multiBulkLen, c`argc, c`args, c.cmd`rpos, c.cmds, c.cmds.buff
      ensures Valid() && c.cmdNum < c.cmds.wpos && (c.cmds.buff == old(c.cmds.buff) || fresh(c.cmds.buff)) && c.cmds.pendding == old(c.cmds.pendding)
      ensures c.cmd.rpos == old(c.cmd.rpos) + 2
      ensures var s := old(Abs());
              Abs() == s.(c := R.Added(s.c, a + R.CRLF).(rpos := s.c.rpos + 2, bulk := 0, multi := s.c.multi - 1,
                                                         argc := s.c.argc + 1, args := s.c.args + [a]))
    {
      hide R.Added;
      PendingAside(c.Abs(), a + R.CRLF);
      c.AddReply(a);
      c.cmd.rpos := c.cmd.rpos + 2;
      c.bulkLen := 0;
      c.multiBulkLen := c.multiBulkLen - 1;
      c.argc := c.argc + 1;
      c.args := c.args + [a];
    }

    /** The loop of processCmds, up to the end of the reply. */
    method ProcessElements() returns (r: Status)
      requires Valid() && rNum > 0 && c.multiBulkLen > 0
      modifies c`bulkLen, c`multiBulkLen, c`argc, c`args, c.cmd`rpos, c.cmds, c.cmds.buff
      ensures Valid() && (c.cmds.buff == old(c.cmds.buff) || fresh(c.cmds.buff)) && c.cmds.pendding == old(c.cmds.pendding)
      ensures match r
              case Complete => c.cmdNum < c.cmds.wpos && c.multiBulkLen == 0 && c.cmd.rpos > old(c.cmd.rpos) && Left(old(Abs())) == Left(Abs())
              case NotYet => Left(old(Abs())) == P.Done(Abs())
              case Failed(e) => Left(old(Abs())) == P.Failed(e)
    {
      hide P.Run;
      hide P.Sound;
      hide Left;
      hide Connection.Abs;
      ghost var goal, start, all := Left(Abs()), c.cmd.rpos, c.multiBulkLen;
      while c.multiBulkLen > 0
        invariant Valid() && (c.cmds.buff == old(c.cmds.buff) || fresh(c.cmds.buff)) && c.cmds.pendding == old(c.cmds.pendding)
        invariant start <= c.cmd.rpos && (c.cmd.rpos == start ==> c.multiBulkLen == all)
        invariant Left(Abs()) == goal && (c.multiBulkLen < all ==> c.cmdNum < c.cmds.wpos)
        decreases c.multiBulkLen
      {
        if c.bulkLen == 0 {
          r := ProcessElement();
          if r != Complete {
            return;
          }
        }
        if c.bulkLen > 0 {
          r := ProcessBody();
          if r != Complete {
            return;
          }
        }
      }
      return Complete;
    }

    /** The end of processCmds and of a turn of processRedis. */
    method Finish()
      requires Valid() && rNum > 0 && c.multiBulkLen == 0 && c.cmdNum < c.cmds.wpos
      modifies this`rNum, c`argc, c`cmdNum, c`args, c.cmd, c.cmd.buf
      ensures Valid() && c.cmd.buf == old(c.cmd.buf) && rNum == old(rNum) - 1
      ensures c.cmds.pendding == old(c.cmds.pendding) && c.cmd.rpos == 0 && c.cmd.wpos == old(c.cmd.wpos - c.cmd.rpos)
      ensures P.Run(Abs()) == Left(old(Abs()))
    {
      hide P.Run;
      hide Left;
      LeftIs(Abs());
      TakeReply();
      rNum := rNum - 1;
    }

    method TakeReply()
      requires Valid() && c.cmdNum < c.cmds.wpos
      modifies c`argc, c`cmdNum, c`args, c.cmd, c.cmd.buf
      ensures Valid() && c.cmd.buf == old(c.cmd.buf)
      ensures c.cmds.pendding == old(c.cmds.pendding) && c.cmd.rpos == 0 && c.cmd.wpos == old(c.cmd.wpos - c.cmd.rpos)
      ensures Abs() == old(Abs()).(c := P.ReplyTaken(old(Abs()).c))
    {
      c.args := [];
      c.argc := 0;
      c.cmdNum := c.cmdNum + 1;
      c.cmd.SRange(c.cmd.rpos);
    }

    /** One whole reply, or what there is of it. */
    method TakeReplyParts() returns (r: Status)
      requires Valid() && rNum > 0
      modifies this`rNum, c`bulkLen, c`multiBulkLen, c`argc, c`cmdNum, c`args, c.cmd, c.cmd.buf, c.cmds, c.cmds.buff
      ensures Valid() && c.cmd.buf == old(c.cmd.buf) && (c.cmds.buff == old(c.cmds.buff) || fresh(c.cmds.buff))
      ensures r == Complete ==> rNum == old(rNum) - 1
      ensures P.Run(old(Abs())) == match r case Complete => P.Run(Abs()) case NotYet => P.Done(Abs()) case Failed(e) => P.Failed(e)
      ensures r == NotYet ==> rNum > 0
    {
      hide P.Run;
      hide P.ReadLine;
      hide Left;
      if c.multiBulkLen == 0 {
        AtLine(Abs());
        r := ProcessLine();
        if r != Complete || c.multiBulkLen == 0 {
          return;
        }
      }
      r := TakeElements();
    }

    method TakeElements() returns (r: Status)
      requires Valid() && rNum > 0 && c.multiBulkLen > 0
      modifies this`rNum, c`bulkLen, c`multiBulkLen, c`argc, c`cmdNum, c`args, c.cmd, c.cmd.buf, c.cmds, c.cmds.buff
      ensures Valid() && c.cmd.buf == old(c.cmd.buf) && (c.cmds.buff == old(c.cmds.buff) || fresh(c.cmds.buff))
      ensures rNum == if r == Complete then old(rNum) - 1 else old(rNum)
      ensures P.Run(old(Abs())) == match r case Complete => P.Run(Abs()) case NotYet => P.Done(Abs()) case Failed(e) => P.Failed(e)
    {
      hide P.Run;
      hide Left;
      LeftRuns(Abs());
      r := ProcessElements();
      if r == Complete {
        Finish();
      }
    }

    /** A turn of processRedis. */
    method ProcessReply() returns (r: Status)
      requires Valid() && rNum > 0
      modifies this`rNum, c`bulkLen, c`multiBulkLen, c`argc, c`cmdNum, c`args, c.cmd, c.cmd.buf, c.cmds, c.cmds.buff
      ensures Valid() && c.cmd.buf == old(c.cmd.buf) && (c.cmds.buff == old(c.cmds.buff) || fresh(c.cmds.buff))
      ensures r == Complete ==> rNum == old(rNum) - 1 && !c.cmds.pendding
      ensures r == NotYet ==> rNum > 0 && c.cmds.pendding
      ensures P.Run(old(Abs())) == match r case Complete => P.Run(Abs()) case NotYet => P.Done(Abs()) case Failed(e) => P.Failed(e)
    {
      hide P.Run;
      SetPending(true);
      r := TakeReplyParts();
      SetPending(r != Complete);
    }

    method SetPending(pending: bool)
      requires Valid()
      modifies c.cmds`pendding
      ensures Valid() && c.cmds.pendding == pending && Abs() == old(Abs())
    {
      c.cmds.pendding := pending;
    }

    /** processRedis: what Run says, in place. pendding says afterwards whether replies are outstanding. */
    method ProcessRedis() returns (e: Option<R.Error>)
      requires Valid()
      modifies this`rNum, c`bulkLen, c`multiBulkLen, c`argc, c`cmdNum, c`args, c.cmd, c.cmd.buf, c.cmds, c.cmds.buff
      ensures Valid() && c.cmd.buf == old(c.cmd.buf) && (c.cmds.buff == old(c.cmds.buff) || fresh(c.cmds.buff))
      ensures P.Run(old(Abs())) == if e == None then P.Done(Abs()) else P.Failed(e.value)
      ensures e == None && old(rNum) > 0 ==> c.cmds.pendding == (rNum > 0)
      ensures e == None && old(rNum) == 0 ==> rNum == 0 && c.cmds.pendding == old(c.cmds.pendding)
    {
      hide P.Run;
      ghost var goal := P.Run(Abs());
      while rNum > 0
        invariant Valid() && c.cmd.buf == old(c.cmd.buf) && (c.cmds.buff == old(c.cmds.buff) || fresh(c.cmds.buff))
        invariant P.Run(Abs()) == goal
        invariant old(rNum) > 0 && rNum == 0 ==> !c.cmds.pendding
        invariant old(rNum) == 0 ==> rNum == 0 && c.cmds.pendding == old(c.cmds.pendding)
        decreases rNum
      {
        var r := ProcessReply();
        match r {
          case NotYet => return None;
          case Failed(err) => return Some(err);
          case Complete =>
        }
      }
      NothingOwed(Abs());
      return None;
    }
  }

  lemma {:induction false} NothingOwed(s: P.Redis)
    requires P.Sound(s) && s.rNum == 0
    ensures P.Run(s) == P.Done(s)
  {
  }

  lemma {:induction false} PendingAside(c: R.Client, add: seq<Byte>)
    ensures R.Added(c, add).(pending := false) == R.Added(c.(pending := false), add)
    ensures R.Added(c, add).cmdNum == c.cmdNum
  {
  }
}
