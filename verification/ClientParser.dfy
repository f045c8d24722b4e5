/** src/proto/multibulk.c, client side: processClient and its loops over the buffers of a client, shown to do
    what Resp.Run says. */
module ClientParser {
  import opened Wrappers
  import opened Decimal
  import opened Buffers
  import R = Resp

  // ---------------------------------------------------------------- Run, turn by turn

  /** What is left to do once a header line or an argument has been taken. */
  function Rest(c: R.Client): R.Outcome
    requires c.rpos <= |c.buf|
  {
    if c.multi == 0 then R.Run(R.Completed(c)) else R.Run(c)
  }

  lemma {:induction false} AtStar(c: R.Client)
    requires c.rpos < |c.buf| && c.multi == 0
    ensures c.buf[c.rpos] != STAR ==> R.Run(c) == R.Err(R.Protocol)
    ensures c.buf[c.rpos] == STAR ==>
              R.Unread(c) != [] && R.Unread(c)[0] == STAR && match R.ReadNumber(R.Unread(c), |c.buf|)
              case NeedMore => R.Run(c) == R.Ok(c)
              case Bad(e) => R.Run(c) == R.Err(e)
              case Number(v, len) => R.Run(c) == Rest(R.StarTaken(c, v, len))
  {
    R.StepConsumes(c);
  }

  lemma {:induction false} AtDollar(c: R.Client)
    requires c.rpos <= |c.buf| && c.multi > 0 && c.bulk == 0
    ensures c.rpos == |c.buf| ==> R.Run(c) == R.Ok(c)
    ensures c.rpos < |c.buf| && c.buf[c.rpos] != DOLLAR ==> R.Run(c) == R.Err(R.Protocol)
    ensures c.rpos < |c.buf| && c.buf[c.rpos] == DOLLAR ==>
              R.Unread(c) != [] && R.Unread(c)[0] == DOLLAR && match R.ReadNumber(R.Unread(c), |c.buf|)
              case NeedMore => R.Run(c) == R.Ok(c)
              case Bad(e) => R.Run(c) == R.Err(e)
              case Number(v, len) => R.Run(c) == if v <= 0 then R.Err(R.Protocol) else R.Run(R.DollarTaken(c, v, len))
  {
    R.StepConsumes(c);
  }

  lemma {:induction false} AtBulk(c: R.Client)
    requires c.rpos <= |c.buf| && c.multi > 0 && c.bulk > 0
    ensures var n := |c.buf| - c.rpos;
            R.Run(c) == if n < c.bulk + 2 then R.Ok(c)
                        else if c.buf[c.rpos + c.bulk] != CR || c.buf[c.rpos + c.bulk + 1] != LF then R.Err(R.Protocol)
                        else Rest(R.BulkTaken(c))
  {
    R.StepConsumes(c);
  }

  /** The pieces of a turn in the order the loops do them. */
  lemma {:induction false} DollarPieces(c: R.Client, v: nat, len: nat, line: seq<Byte>)
    requires c.rpos + len + 3 <= |c.buf| && line == c.buf[c.rpos..c.rpos + len + 1]
    ensures R.Added(c.(rpos := c.rpos + len + 3, bulk := v), line + R.CRLF) == R.DollarTaken(c, v, len)
  {
  }

  lemma {:induction false} StarPieces(c: R.Client, v: int, len: nat, line: seq<Byte>)
    requires c.rpos + len + 3 <= |c.buf| && line == c.buf[c.rpos..c.rpos + len + 1]
    ensures line[1..] == R.Unread(c)[1..len + 1]
    ensures R.Added(c.(rpos := c.rpos + len + 3), line + R.CRLF).(multi := v % R.WORD, head := line[1..], pending := true)
            == R.StarTaken(c, v, len)
  {
  }

  lemma {:induction false} BulkPieces(c: R.Client, a: seq<Byte>)
    requires c.rpos + c.bulk + 2 <= |c.buf| && c.multi > 0 && a == c.buf[c.rpos..c.rpos + c.bulk]
    ensures R.Added(c.(rpos := c.rpos + c.bulk), a + R.CRLF)
            .(rpos := c.rpos + c.bulk + 2, bulk := 0, multi := c.multi - 1, argc := c.argc + 1, args := c.args + [a])
            == R.BulkTaken(c)
  {
    assert a == R.Unread(c)[..c.bulk];
  }

  // ---------------------------------------------------------------- the search for the end of a line

  lemma {:induction false} FindCrFrom(u: seq<Byte>, k: nat)
    requires k <= |u|
    ensures R.FindCr(u[k..]) == if k == |u| || u[k] == NUL then None
                                else if u[k] == CR then Some(0)
                                else match R.FindCr(u[k + 1..]) case None => None case Some(i) => Some(i + 1)
  {
    if k < |u| {
      assert u[k..][1..] == u[k + 1..];
    }
  }

  /** strchr(nextReadBuff(c), '\r'), within what was received. */
  method StrChr(b: Buffer) returns (r: Option<nat>)
    requires b.Valid()
    ensures r == R.FindCr(b.Unread())
  {
    hide R.FindCr;
    ghost var u := b.Unread();
    var n, i := b.wpos - b.rpos, 0;
    assert u[0..] == u;
    while i < n
      invariant i <= n
      invariant R.FindCr(u) == match R.FindCr(u[i..]) case None => None case Some(k) => Some(k + i)
    {
      FindCrFrom(u, i);
      if b.buf[b.rpos + i] == NUL {
        return None;
      }
      if b.buf[b.rpos + i] == CR {
        return Some(i);
      }
      i := i + 1;
    }
    FindCrFrom(u, i);
    return None;
  }

  // ---------------------------------------------------------------- the client

  lemma {:induction false} AddedTwice(q: seq<seq<Byte>>, i: nat, a: seq<Byte>, b: seq<Byte>)
    requires i <= |q|
    ensures AddedTo(AddedTo(q, i, a), i, b) == AddedTo(q, i, a + b)
  {
    if |q| == i {
      assert (q + [a])[i := a + b] == q + [a + b];
    } else {
      assert (q[i] + a) + b == q[i] + (a + b);
    }
  }

  datatype Status = Complete | NotYet | Failed(e: R.Error)

  class Client {
    var cmd: Buffer
    var cmds: BufferArray
    var multiBulkLen: nat
    var bulkLen: nat
    var argc: nat
    var cmdNum: nat
    ghost var head: seq<Byte>
    ghost var args: seq<seq<Byte>>
    ghost var done: seq<R.Command>

    ghost predicate Sound()
      reads this, cmd, cmds, cmds.buff
    {
      cmd.Valid() && cmds.Valid() && cmds.rpos == 0 && cmdNum <= cmds.wpos
    }

    /** For a client's commands: one is pending exactly while it has a buffer of its own. */
    ghost predicate Valid()
      reads this, cmd, cmds, cmds.buff
    {
      Sound() && (cmds.pendding ==> cmdNum < cmds.wpos) && (multiBulkLen > 0 ==> cmds.pendding)
    }

    ghost function Abs(): (c: R.Client)
      requires Sound()
      reads this, cmd, cmd.buf, cmds, cmds.buff
      ensures c.rpos <= |c.buf| && R.Unread(c) == cmd.Unread()
    {
      R.Client(cmd.Text(), cmd.rpos, multiBulkLen, bulkLen, argc, cmds.Queue(), cmdNum, cmds.pendding, head, args, done)
    }

    /** newClient. */
    constructor ()
      ensures Valid() && Abs() == R.INIT
      ensures fresh(cmd) && fresh(cmd.buf) && fresh(cmds) && fresh(cmds.buff)
    {
      cmd := new Buffer();
      cmds := new BufferArray();
      multiBulkLen, bulkLen := 0, 0; // repaired: client.c:58-61 leaves them as malloc found them
      argc, cmdNum := 0, 0;
      head, args, done := [], [], [];
    }

    /** addReplyBySize: a line for the command buffer. */
    method AddReply(reply: seq<Byte>)
      requires Sound()
      modifies cmds, cmds.buff
      ensures Sound() && cmds.wpos > cmdNum && cmds.pendding == old(cmds.pendding) && (cmds.buff == old(cmds.buff) || fresh(cmds.buff))
      ensures Abs() == R.Added(old(Abs()), reply + R.CRLF)
    {
      ghost var q := cmds.Queue();
      cmds.AddBuffer(cmdNum, reply);
      cmds.AddBuffer(cmdNum, R.CRLF);
      AddedTwice(q, cmdNum, reply, R.CRLF);
    }

    /** parseInputBuffNum: a number is also read past. */
    method ParseInputBuffNum() returns (r: R.Number)
      requires Sound() && cmd.rpos < cmd.wpos && cmd.buf[cmd.rpos] != CR
      modifies cmd`rpos
      ensures Sound() && r == R.ReadNumber(old(cmd.Unread()), cmd.wpos)
      ensures cmd.rpos == if r.Number? then old(cmd.rpos) + r.len + 3 else old(cmd.rpos)
    {
      ghost var u := cmd.Unread();
      var newLine := StrChr(cmd);
      if newLine == None {
        return if cmd.wpos > R.MAX_INLINE_SIZE then R.Bad(R.TooBig) else R.NeedMore;
      }
      var at := cmd.rpos + newLine.value;
      assert at < cmd.wpos && u[newLine.value] == cmd.buf[at];
      if at + 1 == cmd.wpos { // repaired: multibulk.c:229 reads past the data
        return R.NeedMore;
      }
      assert u[newLine.value + 1] == cmd.buf[at + 1];
      if cmd.buf[at + 1] != LF {
        return R.Bad(R.Protocol);
      }
      ghost var rpos := cmd.rpos;
      forall k | 0 <= k < newLine.value - 1
        ensures cmd.buf[rpos + 1..at][k] == u[1..newLine.value][k]
      {
        assert cmd.buf[rpos + 1 + k] == u[1 + k];
      }
      assert cmd.buf[cmd.rpos + 1..at] == u[1..newLine.value];
      var num := ParseInt(cmd.buf[cmd.rpos + 1..at]);
      if num == None {
        return R.Bad(R.Protocol);
      }
      r := R.Number(num.value, newLine.value - 1);
      cmd.rpos := at + 2;
    }

    /** The loop of processCmds, up to the end of the command. */
    method ProcessArgs() returns (r: Status)
      requires Valid() && cmds.pendding
      modifies this`bulkLen, this`multiBulkLen, this`argc, this`args, cmd`rpos, cmds, cmds.buff
      ensures Valid() && cmds.pendding && (cmds.buff == old(cmds.buff) || fresh(cmds.buff))
      ensures cmd.rpos >= old(cmd.rpos) && (old(multiBulkLen) > 0 && r == Complete ==> cmd.rpos > old(cmd.rpos))
      ensures match r
              case Complete => multiBulkLen == 0 && Rest(old(Abs())) == Rest(Abs())
              case NotYet => Rest(old(Abs())) == R.Ok(Abs())
              case Failed(e) => Rest(old(Abs())) == R.Err(e)
    {
      hide Rest;
      ghost var goal, start := Rest(Abs()), cmd.rpos;
      while multiBulkLen > 0
        invariant Valid() && cmds.pendding && (cmds.buff == old(cmds.buff) || fresh(cmds.buff))
        invariant start <= cmd.rpos && (cmd.rpos == start ==> multiBulkLen == old(multiBulkLen))
        invariant Rest(Abs()) == goal
        decreases multiBulkLen
      {
        if bulkLen == 0 {
          r := ProcessDollar();
          if r != Complete {
            return;
          }
        }
        r := ProcessBulk();
        if r != Complete {
          return;
        }
      }
      return Complete;
    }

    /** A "$" line. */
    method ProcessDollar() returns (r: Status)
      requires Valid() && cmds.pendding && multiBulkLen > 0 && bulkLen == 0
      modifies this`bulkLen, cmd`rpos, cmds, cmds.buff
      ensures Valid() && cmds.pendding && (cmds.buff == old(cmds.buff) || fresh(cmds.buff))
      ensures cmd.rpos >= old(cmd.rpos)
      ensures match r
              case Complete => bulkLen > 0 && Rest(old(Abs())) == Rest(Abs())
              case NotYet => Rest(old(Abs())) == R.Ok(Abs())
              case Failed(e) => Rest(old(Abs())) == R.Err(e)
    {
      hide R.Run;
      hide R.ReadNumber;
      hide R.Added;
      hide R.DollarTaken;
      hide Rest;
      ghost var c := Abs();
      AtDollar(c);
      RestRuns(c);
      if cmd.wpos <= cmd.rpos { // repaired: multibulk.c:68 reads past the data
        return NotYet;
      }
      assert c.buf[c.rpos] == cmd.buf[cmd.rpos];
      if cmd.buf[cmd.rpos] != DOLLAR {
        return Failed(R.Protocol);
      }
      var num := ParseInputBuffNum();
      match num {
        case NeedMore => return NotYet;
        case Bad(e) => return Failed(e);
        case Number(v, len) =>
          if v <= 0 {
            return Failed(R.Protocol);
          }
          TakeDollar(v, len, c);
          RestRuns(Abs());
          return Complete;
      }
    }

    method TakeDollar(v: nat, len: nat, ghost c: R.Client)
      requires Valid() && cmds.pendding && c.rpos + len + 3 == cmd.rpos && Abs() == c.(rpos := cmd.rpos)
      modifies this`bulkLen, cmds, cmds.buff
      ensures Valid() && cmds.pendding && bulkLen == v && (cmds.buff == old(cmds.buff) || fresh(cmds.buff))
      ensures Abs() == R.DollarTaken(c, v, len)
    {
      hide R.Added;
      hide R.DollarTaken;
      var line := cmd.buf[cmd.rpos - len - 3..cmd.rpos - 2];
      DollarPieces(c, v, len, line);
      bulkLen := v;
      AddReply(line);
    }

    /** An argument. */
    method ProcessBulk() returns (r: Status)
      requires Valid() && cmds.pendding && multiBulkLen > 0 && bulkLen > 0
      modifies this`bulkLen, this`multiBulkLen, this`argc, this`args, cmd`rpos, cmds, cmds.buff
      ensures Valid() && cmds.pendding && (cmds.buff == old(cmds.buff) || fresh(cmds.buff))
      ensures cmd.rpos >= old(cmd.rpos)
      ensures match r
              case Complete => multiBulkLen == old(multiBulkLen) - 1 && cmd.rpos > old(cmd.rpos) && Rest(old(Abs())) == Rest(Abs())
              case NotYet => Rest(old(Abs())) == R.Ok(Abs())
              case Failed(e) => Rest(old(Abs())) == R.Err(e)
    {
      hide R.Run;
      hide R.Added;
      hide R.BulkTaken;
      ghost var c := Abs();
      AtBulk(c);
      if cmd.wpos - cmd.rpos < bulkLen + 2 {
        return NotYet;
      }
      var a := cmd.buf[cmd.rpos..cmd.rpos + bulkLen];
      cmd.rpos := cmd.rpos + bulkLen;
      if cmd.buf[cmd.rpos] != CR || cmd.buf[cmd.rpos + 1] != LF {
        return Failed(R.Protocol);
      }
      TakeBulk(a);
      BulkPieces(c, a);
      return Complete;
    }

    /** The end of a turn of the loop: the argument is copied, and CRLF behind it skipped. */
    method TakeBulk(a: seq<Byte>)
      requires Valid() && cmds.pendding && multiBulkLen > 0 && cmd.rpos + 2 <= cmd.wpos
      modifies this`bulkLen, this`multiBulkLen, this`argc, this`args, cmd`rpos, cmds, cmds.buff
      ensures Valid() && cmds.pendding && (cmds.buff == old(cmds.buff) || fresh(cmds.buff))
      ensures var c := old(Abs());
              Abs() == R.Added(c, a + R.CRLF)
              .(rpos := c.rpos + 2, bulk := 0, multi := c.multi - 1, argc := c.argc + 1, args := c.args + [a])
    {
      AddReply(a);
      cmd.rpos := cmd.rpos + 2;
      bulkLen := 0;
      multiBulkLen := multiBulkLen - 1;
      argc := argc + 1;
      args := args + [a];
    }

    /** The end of processCmds. */
    method Finish()
      requires Valid() && cmds.pendding && multiBulkLen == 0
      modifies this`argc, this`cmdNum, this`head, this`args, this`done, cmd, cmd.buf, cmds`pendding
      ensures Valid() && !cmds.pendding && cmd.buf == old(cmd.buf) && cmds.buff == old(cmds.buff)
      ensures cmd.rpos == 0 && cmd.wpos == old(cmd.wpos - cmd.rpos) && multiBulkLen == 0
      ensures Abs() == R.Completed(old(Abs()))
    {
      done := done + [R.Command(head, args)];
      head, args := [], [];
      argc := 0;
      cmdNum := cmdNum + 1;
      cmds.pendding := false;
      cmd.SRange(cmd.rpos);
    }

    /** processCmds. */
    method ProcessCmds() returns (r: Status)
      requires Valid() && cmds.pendding
      modifies this`bulkLen, this`multiBulkLen, this`argc, this`cmdNum, this`head, this`args, this`done
      modifies cmd, cmd.buf, cmds, cmds.buff
      ensures Valid() && cmd.buf == old(cmd.buf) && (cmds.buff == old(cmds.buff) || fresh(cmds.buff))
      ensures match r
              case Complete =>
                && multiBulkLen == 0 && cmd.rpos == 0 && Rest(old(Abs())) == R.Run(Abs())
                && cmd.wpos <= old(cmd.wpos - cmd.rpos) && (old(multiBulkLen) > 0 ==> cmd.wpos < old(cmd.wpos - cmd.rpos))
              case NotYet => Rest(old(Abs())) == R.Ok(Abs())
              case Failed(e) => Rest(old(Abs())) == R.Err(e)
    {
      hide R.Run;
      r := ProcessArgs();
      if r == Complete {
        Finish();
      }
    }

    /** The start of a command in processClient. */
    method ProcessStar() returns (r: Status)
      requires Valid() && multiBulkLen == 0 && cmd.rpos < cmd.wpos
      modifies this`multiBulkLen, this`head, cmd`rpos, cmds, cmds.buff
      ensures Valid() && (cmds.buff == old(cmds.buff) || fresh(cmds.buff))
      ensures cmd.rpos >= old(cmd.rpos)
      ensures match r
              case Complete => cmds.pendding && cmd.rpos > old(cmd.rpos) && R.Run(old(Abs())) == Rest(Abs())
              case NotYet => R.Run(old(Abs())) == R.Ok(Abs())
              case Failed(e) => R.Run(old(Abs())) == R.Err(e)
    {
      hide R.Run;
      hide R.ReadNumber;
      hide R.Added;
      hide R.StarTaken;
      hide Rest;
      ghost var c := Abs();
      AtStar(c);
      assert c.buf[c.rpos] == cmd.buf[cmd.rpos];
      if cmd.buf[cmd.rpos] != STAR {
        return Failed(R.Protocol);
      }
      var num := ParseInputBuffNum();
      match num {
        case NeedMore => return NotYet;
        case Bad(e) => return Failed(e);
        case Number(v, len) =>
          TakeStar(v, len, c);
          return Complete;
      }
    }

    method TakeStar(v: int, len: nat, ghost c: R.Client)
      requires Valid() && c.rpos + len + 3 == cmd.rpos && Abs() == c.(rpos := cmd.rpos)
      modifies this`multiBulkLen, this`head, cmds, cmds.buff
      ensures Valid() && cmds.pendding && (cmds.buff == old(cmds.buff) || fresh(cmds.buff))
      ensures Abs() == R.StarTaken(c, v, len)
    {
      hide R.Added;
      hide R.StarTaken;
      var line := cmd.buf[cmd.rpos - len - 3..cmd.rpos - 2];
      StarPieces(c, v, len, line);
      AddReply(line);
      StarCounted(v, line);
    }

    method StarCounted(v: int, line: seq<Byte>)
      requires Sound() && line != [] && cmdNum < cmds.wpos
      modifies this`multiBulkLen, this`head, cmds`pendding
      ensures Valid() && cmds.pendding
      ensures Abs() == old(Abs()).(multi := v % R.WORD, head := line[1..], pending := true)
    {
      multiBulkLen := v % R.WORD;
      head := line[1..];
      cmds.pendding := true; // processCmds sets it first of all
    }

    /** processClient: what Run says, in place. */
    method ProcessClient() returns (e: Option<R.Error>)
      requires Valid()
      modifies this`bulkLen, this`multiBulkLen, this`argc, this`cmdNum, this`head, this`args, this`done
      modifies cmd, cmd.buf, cmds, cmds.buff
      ensures Valid() && cmd.buf == old(cmd.buf) && (cmds.buff == old(cmds.buff) || fresh(cmds.buff))
      ensures R.Run(old(Abs())) == if e == None then R.Ok(Abs()) else R.Err(e.value)
    {
      hide R.Run;
      hide Rest;
      ghost var goal := R.Run(Abs());
      while cmd.wpos > cmd.rpos
        invariant Valid() && cmd.buf == old(cmd.buf) && (cmds.buff == old(cmds.buff) || fresh(cmds.buff))
        invariant R.Run(Abs()) == goal
        decreases cmd.wpos - cmd.rpos
      {
        var status;
        if multiBulkLen == 0 {
          status := ProcessStar();
          match status {
            case NotYet => return None;
            case Failed(err) => return Some(err);
            case Complete =>
          }
        } else {
          RestRuns(Abs());
        }
        status := ProcessCmds();
        match status {
          case NotYet => return None;
          case Failed(err) => return Some(err);
          case Complete =>
        }
      }
      NothingLeft(Abs());
      return None;
    }
  }

  lemma {:induction false} RestRuns(c: R.Client)
    requires c.rpos <= |c.buf| && c.multi > 0
    ensures Rest(c) == R.Run(c)
  {
  }

  lemma {:induction false} NothingLeft(c: R.Client)
    requires c.rpos == |c.buf|
    ensures R.Run(c) == R.Ok(c)
  {
  }
}
