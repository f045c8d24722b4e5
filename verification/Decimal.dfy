/** parseInt (src/types.c:252-331): which strings it accepts, and what they mean. */
module Decimal {
  import opened Wrappers

  type Byte = b: int | 0 <= b < 256

  const NUL: Byte := 0
  const LF: Byte := 10
  const CR: Byte := 13
  const DOLLAR: Byte := 36
  const STAR: Byte := 42
  const MINUS: Byte := 45
  const ZERO: Byte := 48

  const LLONG_MAX := 0x7FFF_FFFF_FFFF_FFFF
  const ULLONG_MAX := 0xFFFF_FFFF_FFFF_FFFF

  predicate IsDigit(b: Byte) { 48 <= b <= 57 }

  predicate Digits(s: seq<Byte>) { forall i :: 0 <= i < |s| ==> IsDigit(s[i]) }

  /** The number a digit string spells. */
  function Val(s: seq<Byte>): nat
    requires Digits(s)
  {
    if s == [] then 0 else Val(s[..|s| - 1]) * 10 + (s[|s| - 1] - ZERO)
  }

  /** The usual spelling of a number, without leading zeros. */
  function Print(n: nat): (s: seq<Byte>)
    ensures Digits(s) && s != []
  {
    if n < 10 then [(ZERO + n) as Byte] else Print(n / 10) + [(ZERO + n % 10) as Byte]
  }

  function PrintInt(v: int): seq<Byte> { if v < 0 then [MINUS] + Print(-v) else Print(v) }

  predicate IsInt64(v: int) { -LLONG_MAX - 1 <= v <= LLONG_MAX }

  /** No leading zero, or the single digit 0. */
  predicate Canonical(s: seq<Byte>) { s != [] && Digits(s) && (s[0] == ZERO ==> |s| == 1) }

  lemma {:induction false} PrintCanonical(n: nat)
    ensures Canonical(Print(n)) && Val(Print(n)) == n && (n > 0 ==> Print(n)[0] != ZERO)
  {
    if n >= 10 {
      PrintCanonical(n / 10);
      assert Print(n)[..|Print(n)| - 1] == Print(n / 10);
    } else {
      assert Print(n)[..0] == [];
    }
  }

  lemma {:induction false} CanonicalPrint(s: seq<Byte>)
    requires Canonical(s)
    ensures Print(Val(s)) == s && (s[0] != ZERO ==> Val(s) > 0)
  {
    if |s| > 1 {
      var t := s[..|s| - 1];
      CanonicalPrint(t);
      assert Val(s) / 10 == Val(t) && Val(s) % 10 == s[|s| - 1] - ZERO;
      assert s == t + [s[|s| - 1]];
    } else {
      assert s[..0] == [];
      assert s == [s[0]];
    }
  }

  /** A longer digit string is worth at least as much as any of its beginnings. */
  lemma {:induction false} ValGrows(s: seq<Byte>, k: nat)
    requires Digits(s) && k <= |s|
    ensures Val(s[..k]) <= Val(s)
  {
    if k < |s| {
      ValGrows(s[..|s| - 1], k);
      assert s[..|s| - 1][..k] == s[..k];
    } else {
      assert s[..k] == s;
    }
  }

  // ---------------------------------------------------------------- what parseInt means

  /** The value parseInt is meant to give, if it is meant to accept s. */
  function Parsed(s: seq<Byte>): Option<int> {
    if s == [] then None
    else if s == [ZERO] then Some(0)
    else
      var negative := s[0] == MINUS;
      var d := if negative then s[1..] else s;
      if d == [] then None
      else if negative && d == [ZERO] then Some(0)
      else if d[0] == ZERO || !Digits(d) then None
      else
        var n: int := Val(d);
        if negative then (if n <= LLONG_MAX + 1 then Some(-n) else None)
        else if n <= LLONG_MAX then Some(n) else None
  }

  /** parseInt accepts exactly the usual spellings of the signed 64-bit integers, and "-0". */
  lemma {:induction false} ParsedExactly(s: seq<Byte>, v: int)
    ensures Parsed(s) == Some(v) <==> (IsInt64(v) && s == PrintInt(v)) || (s == [MINUS, ZERO] && v == 0)
  {
    if s == [MINUS, ZERO] {
      MinusZero(v);
    } else if s != [] && s[0] == MINUS {
      NegativeExactly(s[1..], v);
      NegativePrint(s, v);
    } else {
      PositiveExactly(s, v);
    }
  }

  lemma {:induction false} MinusZero(v: int)
    ensures Parsed([MINUS, ZERO]) == Some(0) && PrintInt(v) != [MINUS, ZERO]
  {
    assert [MINUS, ZERO][1..] == [ZERO];
    if v < 0 {
      PrintCanonical(-v);
      assert PrintInt(v)[1] == Print(-v)[0] != ZERO;
    } else {
      assert IsDigit(PrintInt(v)[0]);
    }
  }

  lemma {:induction false} NegativePrint(s: seq<Byte>, v: int)
    requires s != [] && s[0] == MINUS
    ensures s == PrintInt(v) <==> v < 0 && s[1..] == Print(-v)
  {
    hide Print;
    assert s == [MINUS] + s[1..];
    if v < 0 {
      assert PrintInt(v)[1..] == Print(-v);
    } else {
      assert Digits(Print(v)) && Print(v) != [];
    }
  }

  lemma {:induction false} PositiveExactly(s: seq<Byte>, v: int)
    requires s == [] || s[0] != MINUS
    ensures Parsed(s) == Some(v) <==> IsInt64(v) && s == PrintInt(v)
  {
    hide Print;
    if v >= 0 { PrintCanonical(v); }
    if Canonical(s) { CanonicalPrint(s); }
    if s == [ZERO] { ZeroOnly(v); }
  }

  lemma {:induction false} ZeroOnly(v: int)
    ensures Val([ZERO]) == 0 && (v >= 0 && Print(v) == [ZERO] ==> v == 0)
  {
    assert [ZERO][..0] == [];
    if v >= 0 { PrintCanonical(v); }
  }

  lemma {:induction false} NegativeExactly(d: seq<Byte>, v: int)
    ensures d != [] && d[0] != ZERO && Digits(d) && Val(d) <= LLONG_MAX + 1 && -v == Val(d)
            <==> v < 0 && IsInt64(v) && d == Print(-v)
  {
    if v < 0 { PrintCanonical(-v); }
    if d != [] && d[0] != ZERO && Digits(d) { CanonicalPrint(d); }
  }

  // ---------------------------------------------------------------- the loop

  /** Storing a uint64_t into an int64_t. */
  function ToInt64(n: nat): int { if n <= LLONG_MAX then n else n - (ULLONG_MAX + 1) }

  /** parseInt. Every intermediate value of n fits uint64_t, which the guards are there for. */
  method ParseInt(numeric: seq<Byte>) returns (num: Option<int>)
    ensures num == Parsed(numeric)
  {
    var slen := |numeric|;
    if slen == 0 {
      return None;
    }
    if slen == 1 && numeric[0] == ZERO {
      return Some(0);
    }
    var plen := 0;
    var negative := false;
    if numeric[0] == MINUS {
      plen := 1;
      negative := true;
      if plen == slen {
        return None;
      }
    }
    ghost var d := numeric[plen..];
    if numeric[plen] == ZERO && plen == 1 && plen + 1 == slen { // repaired: types.c:284 accepts any string that starts with "-0"
      return Some(0);
    }
    if numeric[plen] < 49 || numeric[plen] > 57 {
      return None;
    }
    ghost var start := plen;
    ParsedBody(numeric, start, negative);
    var n: nat := numeric[plen] - ZERO;
    plen := plen + 1;
    SpelledFirst(d);
    hide Parsed;
    hide Val;
    hide Digits;
    hide Spelled;
    while plen < slen && 48 <= numeric[plen] <= 57 // repaired: types.c:297 starts at '1'
      invariant start < plen <= slen && n <= ULLONG_MAX && Spelled(d, plen - start, n)
    {
      SpelledNext(d, plen - start, n);
      if n > ULLONG_MAX / 10 {
        return None;
      }
      if n * 10 > ULLONG_MAX - (numeric[plen] - ZERO) {
        return None;
      }
      n := n * 10 + (numeric[plen] - ZERO);
      plen := plen + 1;
    }
    SpelledAll(d, plen - start, n);
    if plen < slen {
      return None;
    }
    num := WithSign(n, negative);
  }

  /** The loop's invariant: the first k characters are the digits of n. */
  predicate Spelled(d: seq<Byte>, k: nat, n: nat) { k <= |d| && Digits(d[..k]) && n == Val(d[..k]) }

  lemma {:induction false} SpelledFirst(d: seq<Byte>)
    requires d != [] && IsDigit(d[0])
    ensures Spelled(d, 1, d[0] - ZERO)
  {
    assert d[..0] == [];
    ValNext(d, 0);
  }

  /** One digit more; a number that no longer fits into 64 bits does not become one that does. */
  lemma {:induction false} SpelledNext(d: seq<Byte>, k: nat, n: nat)
    requires Spelled(d, k, n) && k < |d| && IsDigit(d[k])
    ensures Spelled(d, k + 1, n * 10 + (d[k] - ZERO))
    ensures n * 10 + (d[k] - ZERO) > ULLONG_MAX ==> (Digits(d) ==> Val(d) > ULLONG_MAX)
  {
    ValNext(d, k);
    if n * 10 + (d[k] - ZERO) > ULLONG_MAX { TooLarge(d, k + 1); }
  }

  lemma {:induction false} SpelledAll(d: seq<Byte>, k: nat, n: nat)
    requires Spelled(d, k, n) && (k < |d| ==> !IsDigit(d[k]))
    ensures if k < |d| then !Digits(d) else Digits(d) && Val(d) == n
  {
    if k == |d| { assert d[..k] == d; }
  }

  /** The end of parseInt: from uint64_t to int64_t. */
  method WithSign(n: int, negative: bool) returns (num: Option<int>)
    requires 0 <= n <= ULLONG_MAX
    ensures num == if negative then (if n <= LLONG_MAX + 1 then Some(-n) else None)
                   else if n <= LLONG_MAX then Some(n) else None
  {
    if negative {
      if n > LLONG_MAX + 1 {
        return None;
      }
      return Some(ToInt64((ULLONG_MAX + 1 - n) % (ULLONG_MAX + 1)));
    }
    if n > LLONG_MAX {
      return None;
    }
    return Some(ToInt64(n));
  }

  /** The case that the loop decides. */
  lemma {:induction false} ParsedBody(s: seq<Byte>, start: nat, negative: bool)
    requires |s| > start && negative == (s[0] == MINUS) && start == (if negative then 1 else 0) && 49 <= s[start] <= 57
    ensures var d := s[start..];
            Parsed(s) == if !Digits(d) then None
                         else var n: int := Val(d);
                              if negative then (if n <= LLONG_MAX + 1 then Some(-n) else None)
                              else if n <= LLONG_MAX then Some(n) else None
  {
    assert s[0..] == s;
  }

  lemma {:induction false} ValNext(d: seq<Byte>, k: nat)
    requires k < |d| && Digits(d[..k]) && IsDigit(d[k])
    ensures Digits(d[..k + 1]) && Val(d[..k + 1]) == Val(d[..k]) * 10 + (d[k] - ZERO)
  {
    assert d[..k + 1][..k] == d[..k] && d[..k + 1][k] == d[k];
  }

  lemma {:induction false} TooLarge(d: seq<Byte>, k: nat)
    requires k <= |d| && Digits(d[..k]) && Val(d[..k]) > ULLONG_MAX
    ensures Digits(d) ==> Val(d) > ULLONG_MAX
  {
    if Digits(d) { ValGrows(d, k); }
  }

  // ---------------------------------------------------------------- the text

  predicate TextDigits(s: seq<Byte>) { forall i :: 0 <= i < |s| ==> 49 <= s[i] <= 57 }

  /** What the text accepts: after the first digit only '1' to '9', and "-0" followed by anything. */
  function ParsedText(s: seq<Byte>): Option<int> {
    if s == [] then None
    else if s == [ZERO] then Some(0)
    else
      var negative := s[0] == MINUS;
      var d := if negative then s[1..] else s;
      if d == [] then None
      else if negative && d[0] == ZERO then Some(0)
      else if !TextDigits(d) then None
      else
        var n: int := Val(d);
        if negative then (if n <= LLONG_MAX + 1 then Some(-n) else None)
        else if n <= LLONG_MAX then Some(n) else None
  }

  function AfterFirstDigit(s: seq<Byte>): seq<Byte> {
    if s == [] || s == [MINUS] then [] else if s[0] == MINUS then s[2..] else s[1..]
  }

  /** The text is right exactly when nothing follows "-0" and no accepted number has a 0 after its
      first digit. In particular it refuses "10". */
  lemma {:induction false} ParseAsWritten(s: seq<Byte>)
    ensures ParsedText(s) == Parsed(s) <==>
            !(|s| > 2 && s[0] == MINUS && s[1] == ZERO) && !(Parsed(s).Some? && ZERO in AfterFirstDigit(s))
  {
    var negative := s != [] && s[0] == MINUS;
    var d := if negative then s[1..] else s;
    if Parsed(s).Some? && |d| > 1 {
      assert d[0] != ZERO && Digits(d);
      assert d[1..] == AfterFirstDigit(s);
      if ZERO in d[1..] {
        var i :| 0 <= i < |d[1..]| && d[1..][i] == ZERO;
        assert d[i + 1] == ZERO;
      } else {
        forall i | 0 <= i < |d| ensures 49 <= d[i] <= 57 {
          assert i > 0 ==> d[i] == d[1..][i - 1];
        }
      }
    }
  }

  lemma {:induction false} TenIsRefused()
    ensures Parsed(Print(10)) == Some(10) && ParsedText(Print(10)) == None
  {
    ParsedExactly(Print(10), 10);
    assert Print(10) == [49, ZERO] by { assert Print(1) == [49]; }
    assert Print(10)[1] == ZERO && Print(10)[0] == 49;
  }
}
