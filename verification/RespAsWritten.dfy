/** The two places of src/proto/multibulk.c that look one byte past the data, as they are written: exactly
    which reads they take for protocol errors. The byte behind the data is NUL (srangeBuff and newBuff clear
    the buffer). */
module RespAsWritten {
  import opened Wrappers
  import opened Decimal
  import opened Resp

  /** parseInputBuffNum: the byte behind '\r' must be '\n', even if it has not arrived (multibulk.c:229). */
  function ReadNumberAsWritten(u: seq<Byte>, wpos: nat): Number
    requires u != [] && u[0] != CR
  {
    if FindCr(u) == Some(|u| - 1) then Bad(Protocol) else ReadNumber(u, wpos)
  }

  /** One turn. Inside processCmds a '$' is expected even if nothing is left (multibulk.c:68). */
  function StepAsWritten(c: Client): Turn
    requires c.rpos <= |c.buf|
  {
    if c.multi > 0 && c.bulk > 0 then ReadBulk(c)
    else if c.rpos == |c.buf| then (if c.multi == 0 then Stop else Fail(Protocol))
    else if Cut(c) then Fail(Protocol)
    else if c.multi == 0 then ReadStar(c)
    else ReadDollar(c)
  }

  /** A header line is due, and has arrived up to its '\r'. */
  predicate Cut(c: Client)
    requires c.rpos < |c.buf|
  {
    c.buf[c.rpos] == (if c.multi == 0 then STAR else DOLLAR) && FindCr(Unread(c)) == Some(|Unread(c)| - 1)
  }

  /** The text of ReadStar and ReadDollar with ReadNumberAsWritten is StepAsWritten's error. */
  lemma {:induction false} CutIsError(c: Client)
    requires c.rpos < |c.buf| && c.buf[c.rpos] == (if c.multi == 0 then STAR else DOLLAR)
    ensures Cut(c) <==> ReadNumberAsWritten(Unread(c), |c.buf|) != ReadNumber(Unread(c), |c.buf|)
    ensures Cut(c) ==> ReadNumberAsWritten(Unread(c), |c.buf|) == Bad(Protocol) && ReadNumber(Unread(c), |c.buf|) == NeedMore
  {
  }

  /** processClient: nothing to do if nothing has been read. */
  function ProcessAsWritten(c: Client): Outcome
    requires c.rpos <= |c.buf|
  {
    if c.rpos == |c.buf| then Ok(c) else RunAsWritten(c)
  }

  /** Its loops, once there is something. */
  function RunAsWritten(c: Client): Outcome
    requires c.rpos <= |c.buf|
    decreases |Unread(c)|
  {
    StepConsumes(c);
    StepsAlike(c);
    match StepAsWritten(c)
    case Stop => Ok(c)
    case Fail(e) => Err(e)
    case Next(c') => RunAsWritten(c')
  }

  /** The read ended where the text looks too far: inside a command, just before a '$' line or between the
      '\r' and the '\n' of a header line. */
  predicate AtEdge(c: Client)
    requires c.rpos <= |c.buf|
  {
    !(c.multi > 0 && c.bulk > 0) && if c.rpos == |c.buf| then c.multi > 0 else Cut(c)
  }

  lemma {:induction false} StepsAlike(c: Client)
    requires c.rpos <= |c.buf|
    ensures StepAsWritten(c) == if AtEdge(c) then Fail(Protocol) else Step(c)
    ensures AtEdge(c) ==> Step(c) == Stop
  {
    if c.rpos < |c.buf| && Cut(c) { CutIsError(c); }
  }

  /** The loops do what they are for exactly when the read does not end at such a place; there, they call a
      well-formed beginning an error. (RespEdge says which bytes end there.) */
  lemma {:induction false} RightUnlessAtEdge(c: Client)
    requires c.rpos <= |c.buf|
    ensures RunAsWritten(c) == Run(c) <==> !(Run(c).Ok? && Run(c).c.rpos <= |Run(c).c.buf| && AtEdge(Run(c).c))
    ensures RunAsWritten(c) != Run(c) ==> RunAsWritten(c) == Err(Protocol)
    decreases |Unread(c)|
  {
    hide Step;
    hide AtEdge;
    hide StepAsWritten;
    StepConsumes(c);
    StepsAlike(c);
    if Step(c).Next? { RightUnlessAtEdge(Step(c).c); }
  }

  const STAR_ONE: seq<Byte> := [STAR, 49, CR, LF] // "*1\r\n"

  lemma {:induction false} FirstLine()
    ensures Unread(Feed(INIT, STAR_ONE)) == STAR_ONE && ReadNumber(STAR_ONE, 4) == Number(1, 1)
  {
    var u := STAR_ONE;
    assert u[1..] == [49, CR, LF] && u[1..][1..] == [CR, LF];
    assert FindCr(u) == Some(2) by { assert FindCr(u[1..]) == Some(1) by { assert FindCr(u[1..][1..]) == Some(0); } }
    assert u[1..2] == [49];
    ParsedExactly([49], 1);
    assert Print(1) == [49];
    assert [] + STAR_ONE == STAR_ONE;
  }

  /** For instance, a client whose first read ends behind its "*1\r\n" line. */
  lemma {:induction false} FirstLineAlone()
    ensures RunAsWritten(Feed(INIT, STAR_ONE)) == Err(Protocol) && Run(Feed(INIT, STAR_ONE)).Ok?
  {
    hide ReadNumber;
    hide Run;
    hide RunAsWritten;
    var c := Feed(INIT, STAR_ONE);
    FirstLine();
    assert [] + STAR_ONE == STAR_ONE;
    StarTurn(c, 1, 1);
    EndsAtEdge(c, StarTaken(c, 1, 1));
  }

  lemma {:induction false} EndsAtEdge(c: Client, c1: Client)
    requires c.rpos <= |c.buf| && Step(c) == Next(c1)
    requires c1.rpos == |c1.buf| && c1.multi > 0 && c1.bulk == 0
    ensures Run(c) == Ok(c1) && RunAsWritten(c) == Err(Protocol)
  {
    StepConsumes(c);
    assert Step(c1) == Stop && AtEdge(c1);
    assert Run(c) == Run(c1) == Ok(c1);
    RightUnlessAtEdge(c);
  }
}
