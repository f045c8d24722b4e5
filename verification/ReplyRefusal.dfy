/** What the parser takes from redis for a part of a reply and what it refuses, said of the bytes alone. */
module ReplyRefusal {
  import opened Wrappers
  import opened Decimal
  import opened Buffers
  import R = Resp
  import opened Replies
  import opened RespRefusal
  import ReplyRun

  /** How far a connection is: the replies it owes, the elements left of the one being read, the bytes left of the
      element being read, and what has not been read. */
  datatype Spot = Spot(owed: nat, multi: nat, bulk: nat, rest: seq<Byte>)

  function SpotOf(s: Redis): Spot
    requires Sound(s)
  {
    Spot(s.rNum, s.c.multi, s.c.bulk, R.Unread(s.c))
  }

  /** One element less to come; after the last one, one reply less. */
  function Less(a: Spot, rest: seq<Byte>): Spot
    requires a.owed > 0 && a.multi > 0
  {
    if a.multi == 1 then Spot(a.owed - 1, 0, 0, rest) else Spot(a.owed, a.multi - 1, 0, rest)
  }

  /** A first line of i characters. Whatever byte comes after the CR goes with it. */
  predicate LineTo(a: Spot, i: int, b: Spot)
    requires a.owed > 0 && EndsAt(a.rest, i) && i + 1 < |a.rest|
  {
    var q := a.rest;
    if q[0] == DOLLAR then b == a.(multi := 1)
    else if q[0] == STAR && Parsed(q[1..i]).Some? && Parsed(q[1..i]).value > 0 then
      b == a.(multi := Parsed(q[1..i]).value, rest := q[i + 2..])
    else (q[0] == STAR || q[0] == COLON ==> Parsed(q[1..i]).Some?) && b == a.(owed := a.owed - 1, rest := q[i + 2..])
  }

  /** The header of an element; with it, all of an element that is null or empty. */
  predicate HeaderTo(a: Spot, i: int, b: Spot)
    requires a.owed > 0 && a.multi > 0 && 0 < i && EndsAt(a.rest, i) && i + 1 < |a.rest|
  {
    var q := a.rest;
    && q[0] == DOLLAR && q[i + 1] == LF && Parsed(q[1..i]).Some?
    && var v := Parsed(q[1..i]).value;
       if v > 0 then b == a.(bulk := v, rest := q[i + 2..])
       else if v < 0 then b == Less(a, q[i + 2..])
       else |q| >= i + 4 && q[i + 2..i + 4] == R.CRLF && b == Less(a, q[i + 4..])
  }

  ghost predicate Moves(a: Spot, b: Spot) {
    var q := a.rest;
    && a.owed > 0
    && if a.multi == 0 then exists i :: EndsAt(q, i) && i + 1 < |q| && LineTo(a, i, b)
       else if a.bulk == 0 then exists i :: 0 < i && EndsAt(q, i) && i + 1 < |q| && HeaderTo(a, i, b)
       else |q| >= a.bulk + 2 && q[a.bulk..a.bulk + 2] == R.CRLF && b == Less(a, q[a.bulk + 2..])
  }

  /** The text of a first line for an integer or an array is no int64. */
  ghost predicate BadFirst(q: seq<Byte>) {
    exists i :: 0 < i && EndsAt(q, i) && i + 1 < |q| && (q[0] == STAR || q[0] == COLON) && Parsed(q[1..i]) == None
  }

  /** No CRLF behind the header of an empty element. */
  ghost predicate BadEmpty(q: seq<Byte>) {
    exists i :: 0 < i && EndsAt(q, i) && i + 4 <= |q| && Parsed(q[1..i]) == Some(0) && q[i + 2..i + 4] != R.CRLF
  }

  ghost predicate WrongAt(a: Spot) {
    var q := a.rest;
    && a.owed > 0
    && if a.multi == 0 then BadFirst(q)
       else if a.bulk == 0 then BadLine(DOLLAR, q) || BadEmpty(q)
       else |q| >= a.bulk + 2 && q[a.bulk..a.bulk + 2] != R.CRLF
  }

  ghost predicate TurnIs(a: Spot, t: Replies.Turn) {
    match t
    case Go(s) => Sound(s) && Moves(a, SpotOf(s)) && !WrongAt(a)
    case Wrong(_) => t == Wrong(R.Protocol) && WrongAt(a) && forall b :: !Moves(a, b)
    case Wait => !WrongAt(a) && forall b :: !Moves(a, b)
  }

  // ---------------------------------------------------------------- one turn

  lemma {:induction false} WholeIs(s: Redis, i: nat)
    requires Sound(s) && s.rNum > 0 && s.c.multi == 0 && EndsAt(R.Unread(s.c), i) && i + 1 < |R.Unread(s.c)|
    ensures match WholeLine(s, i)
            case Go(t) => Sound(t) && LineTo(SpotOf(s), i, SpotOf(t))
            case Wrong(e) => e == R.Protocol && forall b :: !LineTo(SpotOf(s), i, b)
            case Wait => false
    ensures var q := R.Unread(s.c);
            WholeLine(s, i).Wrong? <==> i > 0 && (q[0] == STAR || q[0] == COLON) && Parsed(q[1..i]) == None
  {
    ReplyRun.LineFactsAll(s.c, i);
    StartsWithCr(R.Unread(s.c), i);
    hide Parsed;
    hide EndsAt;
    hide LineTaken;
    hide UnknownTaken;
  }

  lemma {:induction false} OneLine(a: Spot, i: nat)
    requires a.owed > 0 && a.multi == 0 && EndsAt(a.rest, i) && i + 1 < |a.rest|
    ensures forall b :: Moves(a, b) <==> LineTo(a, i, b)
    ensures BadFirst(a.rest) <==> i > 0 && (a.rest[0] == STAR || a.rest[0] == COLON) && Parsed(a.rest[1..i]) == None
  {
    forall j | EndsAt(a.rest, j) ensures j == i { EndsOnce(a.rest, i, j); }
    hide EndsAt;
    hide Parsed;
    hide LineTo;
  }

  lemma {:induction false} FirstIs(s: Redis)
    requires Sound(s) && s.rNum > 0 && s.c.multi == 0
    ensures TurnIs(SpotOf(s), Step0(s))
  {
    hide R.FindCr;
    hide EndsAt;
    hide WholeLine;
    hide LineTo;
    hide Parsed;
    var q := R.Unread(s.c);
    forall i ensures R.FindCr(q) == Some(i) <==> EndsAt(q, i) { FindCrExactly(q, i); }
    if R.FindCr(q).Some? && R.FindCr(q).value + 1 < |q| {
      var i := R.FindCr(q).value;
      WholeIs(s, i);
      OneLine(SpotOf(s), i);
      hide Moves;
      hide BadFirst;
    }
  }

  lemma {:induction false} StartsWithCr(q: seq<Byte>, i: int)
    requires EndsAt(q, i)
    ensures i > 0 <==> q[0] != CR
  {
    if i > 0 { assert q[..i][0] == q[0]; }
  }

  lemma {:induction false} LessIs(s: Redis, c: R.Client)
    requires Sound(s) && s.rNum > 0 && s.c.multi > 0 && c.rpos <= |c.buf| && c.multi == s.c.multi - 1 && c.bulk == 0
    ensures Sound(Counted(s, c)) && SpotOf(Counted(s, c)) == Less(SpotOf(s), R.Unread(c))
  {
  }

  lemma {:induction false} BodyIs(s: Redis)
    requires Sound(s) && s.rNum > 0 && s.c.multi > 0 && s.c.bulk > 0
    ensures TurnIs(SpotOf(s), Step0(s))
  {
    hide Counted;
    var q, n := R.Unread(s.c), s.c.bulk;
    if |q| >= n + 2 {
      assert q[n..n + 2] == R.CRLF <==> q[n] == CR && q[n + 1] == LF by { TwoBytes(q[n..n + 2]); }
      ReplyRun.BodyFacts(s.c);
      LessIs(s, R.BulkTaken(s.c));
    }
  }

  lemma {:induction false} TwoBytes(s: seq<Byte>)
    requires |s| == 2
    ensures s == R.CRLF <==> s[0] == CR && s[1] == LF
  {
  }

  /** What a header that is there comes to. */
  lemma {:induction false} HeaderIs(s: Redis, v: int, i: nat)
    requires Sound(s) && s.rNum > 0 && s.c.multi > 0 && s.c.bulk == 0
    requires var q := R.Unread(s.c);
             && 0 < i && EndsAt(q, i) && i + 2 <= |q| && q[0] == DOLLAR && q[i + 1] == LF && Parsed(q[1..i]) == Some(v)
    ensures match WithHeader(s, v, i - 1)
            case Go(t) => Sound(t) && HeaderTo(SpotOf(s), i, SpotOf(t))
            case w => forall b :: !HeaderTo(SpotOf(s), i, b)
    ensures WithHeader(s, v, i - 1).Wrong? ==> WithHeader(s, v, i - 1) == Wrong(R.Protocol)
    ensures var q := R.Unread(s.c);
            WithHeader(s, v, i - 1).Wrong? <==> v == 0 && |q| >= i + 4 && q[i + 2..i + 4] != R.CRLF
  {
    hide Parsed;
    hide EndsAt;
    hide R.HeaderTaken;
    hide EmptyTaken;
    hide Counted;
    var q := R.Unread(s.c);
    ReplyRun.HeaderFacts(s.c, i - 1);
    if v < 0 {
      LessIs(s, NullTaken(s.c, i - 1));
    } else if v == 0 && |q| >= i + 4 {
      TwoBytes(q[i + 2..i + 4]);
      ReplyRun.EmptyFacts(s.c, i - 1);
      if q[i + 2] == CR && q[i + 3] == LF { LessIs(s, EmptyTaken(s.c, i - 1)); }
    }
  }

  lemma {:induction false} OneHeader(a: Spot, i: nat)
    requires a.owed > 0 && a.multi > 0 && a.bulk == 0 && 0 < i && EndsAt(a.rest, i) && i + 1 < |a.rest|
    ensures forall b :: Moves(a, b) <==> HeaderTo(a, i, b)
    ensures BadEmpty(a.rest) <==> i + 4 <= |a.rest| && Parsed(a.rest[1..i]) == Some(0) && a.rest[i + 2..i + 4] != R.CRLF
  {
    forall j | EndsAt(a.rest, j) ensures j == i { EndsOnce(a.rest, i, j); }
    hide EndsAt;
    hide Parsed;
    hide HeaderTo;
  }

  /** No line, or a bad one, is the header of nothing. */
  lemma {:induction false} NoHeader(a: Spot, wpos: nat)
    requires a.owed > 0 && a.multi > 0 && a.bulk == 0 && a.rest != [] && a.rest[0] == DOLLAR && !R.ReadNumber(a.rest, wpos).Number?
    ensures forall b :: !Moves(a, b)
    ensures R.ReadNumber(a.rest, wpos) != R.Bad(R.Protocol) ==> !BadEmpty(a.rest)
  {
    var q := a.rest;
    forall i ensures R.FindCr(q) == Some(i) <==> EndsAt(q, i) { FindCrExactly(q, i); }
    hide EndsAt;
    hide R.FindCr;
    hide Parsed;
    hide Less;
  }

  lemma {:induction false} ElementIs(s: Redis)
    requires Sound(s) && s.rNum > 0 && s.c.multi > 0 && s.c.bulk == 0
    ensures TurnIs(SpotOf(s), Step0(s))
  {
    var q := R.Unread(s.c);
    if q == [] {
      assert !BadLine(DOLLAR, q) && !BadEmpty(q);
    } else if q[0] == DOLLAR {
      DollarIs(s);
    }
  }

  lemma {:induction false} HeaderTurn(s: Redis, v: int, i: nat)
    requires Sound(s) && s.rNum > 0 && s.c.multi > 0 && s.c.bulk == 0
    requires var q := R.Unread(s.c);
             && 0 < i && EndsAt(q, i) && i + 2 <= |q| && q[0] == DOLLAR && q[i + 1] == LF && Parsed(q[1..i]) == Some(v)
             && !BadLine(DOLLAR, q)
    requires Step(s) == WithHeader(s, v, i - 1)
    ensures TurnIs(SpotOf(s), Step0(s))
  {
    hide Step;
    hide Moves;
    hide BadLine;
    hide BadEmpty;
    hide HeaderTo;
    hide EndsAt;
    hide Parsed;
    hide WithHeader;
    HeaderIs(s, v, i);
    OneHeader(SpotOf(s), i);
  }

  lemma {:induction false} ElementStep(s: Redis)
    requires Sound(s) && s.rNum > 0 && s.c.multi > 0 && s.c.bulk == 0 && R.Unread(s.c) != [] && R.Unread(s.c)[0] == DOLLAR
    ensures Step(s) == match R.ReadNumber(R.Unread(s.c), |s.c.buf|)
                       case NeedMore => Wait
                       case Bad(e) => Wrong(e)
                       case Number(v, len) => WithHeader(s, v, len)
  {
    hide R.ReadNumber;
    hide WithHeader;
  }

  lemma {:induction false} DollarIs(s: Redis)
    requires Sound(s) && s.rNum > 0 && s.c.multi > 0 && s.c.bulk == 0 && R.Unread(s.c) != [] && R.Unread(s.c)[0] == DOLLAR
    ensures TurnIs(SpotOf(s), Step0(s))
  {
    hide Step;
    hide Moves;
    hide BadLine;
    hide BadEmpty;
    hide WithHeader;
    hide EndsAt;
    hide Parsed;
    hide R.FindCr;
    var q, wpos := R.Unread(s.c), |s.c.buf|;
    var r := R.ReadNumber(q, wpos);
    ElementStep(s);
    LineRefused(DOLLAR, q, wpos);
    if r.Number? {
      FindCrExactly(q, r.len + 1);
      HeaderTurn(s, r.v, r.len + 1);
    } else {
      NoHeader(SpotOf(s), wpos);
    }
    hide R.ReadNumber;
  }

  /** A turn of the parser, but for the size limit, is a move from one spot to the next; it fails exactly where
      something is wrong, and waits where there is neither. */
  lemma {:induction false} TurnExactly(s: Redis)
    requires Sound(s)
    ensures TurnIs(SpotOf(s), Step0(s))
  {
    if s.rNum > 0 {
      hide TurnIs;
      if s.c.multi == 0 { FirstIs(s); } else if s.c.bulk == 0 { ElementIs(s); } else { BodyIs(s); }
    }
  }

  // ---------------------------------------------------------------- what goes to the client

  predicate Known(text: seq<Byte>) {
    text != [] && (text[0] == PLUS || text[0] == MINUS || text[0] == COLON || text[0] == STAR)
  }

  /** What a move adds to the buffers: what has been read; but a first line always with CRLF behind it, and if it is of no
      known type with an error in front. */
  function CopyOf(a: Spot, b: Spot): seq<Byte>
    requires |b.rest| <= |a.rest|
  {
    var took := a.rest[..|a.rest| - |b.rest|];
    if a.multi > 0 || |took| < 2 then took
    else
      var text := took[..|took| - 2];
      (if Known(text) then [] else UNEXPECTED + R.CRLF) + text + R.CRLF
  }

  lemma {:induction false} Suffix(a: Spot, b: Spot)
    requires Moves(a, b)
    ensures |b.rest| <= |a.rest| && b.rest == a.rest[|a.rest| - |b.rest|..]
  {
    assert a.rest[0..] == a.rest;
    hide EndsAt;
    hide Parsed;
  }

  lemma {:induction false} AddedFlat(c: R.Client, add: seq<Byte>)
    requires AtEnd(c)
    ensures AtEnd(R.Added(c, add)) && Flat(R.Added(c, add).cmds) == Flat(c.cmds) + add
  {
    hide Flat;
    if |c.cmds| <= c.cmdNum { FlatMore(c.cmds, add); } else { FlatLonger(c.cmds, add); }
  }

  lemma {:induction false} LineFlat(c: R.Client, i: nat)
    requires AtEnd(c) && c.rpos + i + 2 <= |c.buf|
    ensures var c1 := LineTaken(c, i); AtEnd(c1) && Flat(c1.cmds) == Flat(c.cmds) + (R.Unread(c)[..i] + R.CRLF)
    ensures var c1 := UnknownTaken(c, i);
            AtEnd(c1) && Flat(c1.cmds) == Flat(c.cmds) + ((UNEXPECTED + R.CRLF) + (R.Unread(c)[..i] + R.CRLF))
  {
    hide Flat;
    var add := c.buf[c.rpos..c.rpos + i] + R.CRLF;
    assert c.buf[c.rpos..c.rpos + i] == R.Unread(c)[..i];
    AddedFlat(c.(rpos := c.rpos + i + 2), add);
    var c0 := R.Added(c, UNEXPECTED + R.CRLF);
    AddedFlat(c, UNEXPECTED + R.CRLF);
    AddedFlat(c0.(cmdNum := c.cmdNum + 1, rpos := c.rpos + i + 2), add);
    assert (Flat(c.cmds) + (UNEXPECTED + R.CRLF)) + add == Flat(c.cmds) + ((UNEXPECTED + R.CRLF) + add);
  }

  lemma {:induction false} CopyOfLine(a: Spot, b: Spot, i: nat)
    requires a.multi == 0 && i + 2 <= |a.rest| && b.rest == a.rest[i + 2..]
    ensures CopyOf(a, b) == if Known(a.rest[..i]) then a.rest[..i] + R.CRLF
                            else (UNEXPECTED + R.CRLF) + (a.rest[..i] + R.CRLF)
    ensures Known(a.rest[..i]) <==> i > 0 && (a.rest[0] == PLUS || a.rest[0] == MINUS || a.rest[0] == COLON || a.rest[0] == STAR)
  {
    var took, text := a.rest[..i + 2], a.rest[..i];
    assert took[..|took| - 2] == text;
    assert [] + text == text;
    assert (UNEXPECTED + R.CRLF) + (text + R.CRLF) == (UNEXPECTED + R.CRLF) + text + R.CRLF;
  }

  lemma {:induction false} LineCopied(s: Redis)
    requires Sound(s) && AtEnd(s.c) && s.rNum > 0 && s.c.multi == 0 && Step(s).Go?
    ensures var s1 := Step(s).s;
            && Sound(s1) && AtEnd(s1.c) && |R.Unread(s1.c)| <= |R.Unread(s.c)|
            && Flat(s1.c.cmds) == Flat(s.c.cmds) + CopyOf(SpotOf(s), SpotOf(s1))
  {
    hide Parsed;
    hide Flat;
    hide LineTaken;
    hide UnknownTaken;
    hide R.FindCr;
    var q := R.Unread(s.c);
    var i := R.FindCr(q).value;
    FindCrExactly(q, i);
    StartsWithCr(q, i);
    LineFlat(s.c, i);
    ReplyRun.LineFactsAll(s.c, i);
    assert Flat(s.c.cmds) + [] == Flat(s.c.cmds);
    if q[0] != DOLLAR { CopyOfLine(SpotOf(s), SpotOf(Step(s).s), i); }
  }

  lemma {:induction false} TurnCopies(s: Redis)
    requires Sound(s) && AtEnd(s.c) && Step(s).Go?
    ensures var s1 := Step(s).s;
            && Sound(s1) && AtEnd(s1.c) && |R.Unread(s1.c)| <= |R.Unread(s.c)|
            && Flat(s1.c.cmds) == Flat(s.c.cmds) + CopyOf(SpotOf(s), SpotOf(s1))
  {
    if s.c.multi == 0 {
      LineCopied(s);
    } else {
      assert Regular(s);
      TurnExactly(s);
      hide Step;
      hide Flat;
      hide Moves;
      StepConsumes(s);
      StepCopies(s);
      var s1, a := Step(s).s, SpotOf(s);
      Suffix(a, SpotOf(s1));
      var took := a.rest[..|a.rest| - |R.Unread(s1.c)|];
      assert a.rest == took + R.Unread(s1.c);
      CancelRest(Flat(s1.c.cmds), Flat(s.c.cmds), took, R.Unread(s1.c));
    }
  }

  // ---------------------------------------------------------------- a whole run

  lemma {:induction false} OneMove(a: Spot, b: Spot, b1: Spot)
    requires Moves(a, b) && Moves(a, b1)
    ensures b == b1
  {
    var q := a.rest;
    if a.multi == 0 || a.bulk == 0 {
      forall i, j | EndsAt(q, i) && EndsAt(q, j) ensures i == j { EndsOnce(q, i, j); }
    }
    hide EndsAt;
    hide Parsed;
    hide Less;
  }

  /** The spots a run goes through. */
  ghost predicate Way(way: seq<Spot>) { way != [] && forall i :: 0 <= i < |way| - 1 ==> Moves(way[i], way[i + 1]) }

  lemma {:induction false} WayCons(a: Spot, way: seq<Spot>)
    requires Way(way) && Moves(a, way[0])
    ensures Way([a] + way)
  {
    hide Moves;
    var w := [a] + way;
    forall i | 0 <= i < |w| - 1 ensures Moves(w[i], w[i + 1]) {
      if i > 0 { assert w[i] == way[i - 1] && w[i + 1] == way[i - 1 + 1]; }
    }
  }

  lemma {:induction false} WayRest(way: seq<Spot>)
    requires Way(way) && |way| > 1
    ensures Moves(way[0], way[1]) && Way(way[1..])
  {
    hide Moves;
    assert Moves(way[0], way[0 + 1]);
    forall i | 0 <= i < |way| - 2 ensures Moves(way[1..][i], way[1..][i + 1]) {
      assert way[1..][i] == way[i + 1] && way[1..][i + 1] == way[i + 1 + 1];
    }
  }

  function CopyAll(way: seq<Spot>): seq<Byte>
    requires forall i :: 0 <= i < |way| - 1 ==> |way[i + 1].rest| <= |way[i].rest|
  {
    if |way| <= 1 then [] else CopyOf(way[0], way[1]) + CopyAll(way[1..])
  }

  /** Nothing is unread on the way. */
  lemma {:induction false} WayShrinks(way: seq<Spot>)
    requires Way(way)
    ensures forall i :: 0 <= i < |way| - 1 ==> |way[i + 1].rest| <= |way[i].rest|
  {
    hide Moves;
    forall i | 0 <= i < |way| - 1 ensures |way[i + 1].rest| <= |way[i].rest| { Suffix(way[i], way[i + 1]); }
  }

  /** Where a run ends. */
  lemma {:induction false} WayOf(s: Redis) returns (way: seq<Spot>)
    requires Sound(s)
    ensures Way(way) && way[0] == SpotOf(s)
    ensures var last := way[|way| - 1];
            match Run0(s)
            case Failed(e) => e == R.Protocol && WrongAt(last)
            case Done(t) => Sound(t) && last == SpotOf(t) && !WrongAt(last) && forall b :: !Moves(last, b)
    decreases |R.Unread(s.c)|, if s.c.multi == 0 then 1 else 0
  {
    hide Step;
    hide Moves;
    hide WrongAt;
    hide Way;
    StepConsumes(s);
    TurnExactly(s);
    if Step0(s).Go? {
      var s1 := Step0(s).s;
      var rest := WayOf(s1);
      WayStarts(rest);
      WayCons(SpotOf(s), rest);
      way := [SpotOf(s)] + rest;
      assert way[|way| - 1] == rest[|rest| - 1];
    } else {
      way := [SpotOf(s)];
      OneSpot(SpotOf(s));
    }
  }

  lemma {:induction false} OneSpot(a: Spot)
    ensures Way([a])
  {
  }

  lemma {:induction false} WayStarts(way: seq<Spot>)
    requires Way(way)
    ensures way != []
  {
  }

  lemma {:induction false} WayFails(s: Redis, way: seq<Spot>)
    requires Sound(s) && Way(way) && way[0] == SpotOf(s) && WrongAt(way[|way| - 1])
    ensures Run0(s) == Failed(R.Protocol)
    decreases |way|
  {
    hide Step;
    hide Moves;
    hide WrongAt;
    hide Way;
    StepConsumes(s);
    TurnExactly(s);
    WayStarts(way);
    if |way| > 1 {
      WayRest(way);
      assert Step0(s).Go?;
      OneMove(SpotOf(s), way[1], SpotOf(Step0(s).s));
      WayFails(Step0(s).s, way[1..]);
    }
  }

  /** What a run has added to the buffers, spot by spot. */
  lemma {:induction false} WayCopies(s: Redis, way: seq<Spot>, last: Spot)
    requires Sound(s) && AtEnd(s.c) && Run0(s).Done? && Sound(Run0(s).s)
    requires Way(way) && way[0] == SpotOf(s) && way[|way| - 1] == last == SpotOf(Run0(s).s)
    requires forall i :: 0 <= i < |way| - 1 ==> |way[i + 1].rest| <= |way[i].rest|
    requires forall b :: !Moves(last, b)
    ensures AtEnd(Run0(s).s.c) && Flat(Run0(s).s.c.cmds) == Flat(s.c.cmds) + CopyAll(way)
    decreases |way|
  {
    hide Step;
    hide Moves;
    hide WrongAt;
    hide Way;
    hide CopyOf;
    hide Flat;
    StepConsumes(s);
    TurnExactly(s);
    WayStarts(way);
    if |way| > 1 {
      WayRest(way);
      var s1, rest := Step0(s).s, way[1..];
      OneMove(SpotOf(s), way[1], SpotOf(s1));
      TurnCopies(s);
      WayShrinks(rest);
      WayCopies(s1, rest, last);
      assert (Flat(s.c.cmds) + CopyOf(way[0], way[1])) + CopyAll(rest) == Flat(s.c.cmds) + CopyAll(way);
    } else {
      assert !Step0(s).Go?;
      assert Flat(s.c.cmds) + [] == Flat(s.c.cmds);
    }
  }

  /** A run of the parser, but for the size limit: it goes from spot to spot as far as it can, fails exactly if something
      is wrong where it stops, and otherwise has added to the buffers what those moves add. */
  lemma {:induction false} RunIs(s: Redis) returns (way: seq<Spot>)
    requires Sound(s) && AtEnd(s.c)
    ensures Way(way) && way[0] == SpotOf(s)
    ensures forall i :: 0 <= i < |way| - 1 ==> |way[i + 1].rest| <= |way[i].rest|
    ensures var last := way[|way| - 1];
            match Run0(s)
            case Failed(e) => e == R.Protocol && WrongAt(last)
            case Done(t) =>
              && Sound(t) && last == SpotOf(t) && !WrongAt(last) && (forall b :: !Moves(last, b))
              && Flat(t.c.cmds) == Flat(s.c.cmds) + CopyAll(way)
  {
    hide Run0;
    hide Moves;
    hide WrongAt;
    hide CopyAll;
    hide Flat;
    way := WayOf(s);
    WayShrinks(way);
    if Run0(s).Done? { WayCopies(s, way, way[|way| - 1]); }
  }

  /** Redis's bytes are refused exactly if some of them make up whole parts of the replies owed, and there is something
      wrong right behind those. */
  lemma {:induction false} FailsExactly(s: Redis)
    requires Sound(s)
    ensures Run0(s) == Failed(R.Protocol) <==> exists way :: Way(way) && way[0] == SpotOf(s) && WrongAt(way[|way| - 1])
  {
    hide Run0;
    hide Moves;
    hide WrongAt;
    var way := WayOf(s);
    forall way | Way(way) && way[0] == SpotOf(s) && WrongAt(way[|way| - 1])
      ensures Run0(s) == Failed(R.Protocol)
    {
      WayFails(s, way);
    }
  }
}
