/**
 * The decimal grammar read by the C library's `strtol(s, &end, 10)` and `atoi(s)`:
 * optional leading white space, an optional sign, then decimal digits. Both are
 * library calls; this module states what they compute so that the callers in
 * 2/solution.c and 5/chat_server_exe.c can be modelled without foreign code.
 */
module Decimal {
  import opened Common

  const LONG_MAX: int := 0x7FFF_FFFF_FFFF_FFFF
  const LONG_MIN: int := -0x8000_0000_0000_0000

  /** White space as `isspace` sees it in the "C" locale (\v and \f are 11 and 12). */
  predicate IsSpace(c: char) {
    c == ' ' || c == '\t' || c == '\n' || c == '\r' || c as int == 11 || c as int == 12
  }

  predicate IsDigit(c: char) {
    '0' <= c <= '9'
  }

  predicate AllSpace(s: string) {
    forall k :: 0 <= k < |s| ==> IsSpace(s[k])
  }

  predicate AllDigits(s: string) {
    forall k :: 0 <= k < |s| ==> IsDigit(s[k])
  }

  /** The first index at or after `i` that does not hold white space. */
  function SkipSpace(s: string, i: nat): (j: nat)
    requires i <= |s|
    ensures i <= j <= |s|
    decreases |s| - i
  {
    if i < |s| && IsSpace(s[i]) then SkipSpace(s, i + 1) else i
  }

  /** The first index at or after `i` that does not hold a digit. */
  function DigitsEnd(s: string, i: nat): (j: nat)
    requires i <= |s|
    ensures i <= j <= |s|
    decreases |s| - i
  {
    if i < |s| && IsDigit(s[i]) then DigitsEnd(s, i + 1) else i
  }

  /** The value of a decimal digit (0 for any other character, which is never asked for). */
  function DigitValue(c: char): nat {
    if IsDigit(c) then c as int - '0' as int else 0
  }

  /** The number a run of decimal digits denotes (most significant first). */
  function DigitsValue(d: string): nat {
    if d == [] then 0 else DigitsValue(d[..|d| - 1]) * 10 + DigitValue(d[|d| - 1])
  }

  /** What `strtol(s, &end, 10)` returns, where `end` points, and whether it sets ERANGE. */
  datatype Conversion = Conversion(value: int, end: nat, overflow: bool)

  function Strtol(s: string): (r: Conversion)
    ensures r.end <= |s|
    ensures LONG_MIN <= r.value <= LONG_MAX
    ensures r.overflow ==> r.value == LONG_MAX || r.value == LONG_MIN
  {
    var i := SkipSpace(s, 0);
    var sign := SignAt(s, i);
    var j := i + |sign.Text()|;
    var k := DigitsEnd(s, j);
    if k == j then Conversion(0, 0, false)
    else Converted(sign.Apply(DigitsValue(s[j..k])), k)
  }

  /** The sign character, if any, at index `i`. */
  function SignAt(s: string, i: nat): (sign: Sign)
    requires i <= |s|
    ensures i + |sign.Text()| <= |s| && s[i..i + |sign.Text()|] == sign.Text()
  {
    if i < |s| && s[i] == '-' then Minus
    else if i < |s| && s[i] == '+' then Plus
    else NoSign
  }

  /** A value read from the digits, clamped to `long` with ERANGE on overflow. */
  function Converted(v: int, end: nat): Conversion {
    Conversion(Clamp(v), end, Clamp(v) != v)
  }

  /** glibc's `atoi`: `strtol` followed by the conversion of the long to a 32-bit int. */
  function Atoi(s: string): (n: int)
    ensures -0x8000_0000 <= n < 0x8000_0000
  {
    var v := Strtol(s).value % 0x1_0000_0000;
    if v >= 0x8000_0000 then v - 0x1_0000_0000 else v
  }

  /** The shortest decimal spelling of a natural number. */
  function ToDecimal(n: nat): (d: string)
    ensures |d| > 0 && AllDigits(d)
  {
    var last := ['0' + (n % 10) as char];
    if n < 10 then last else ToDecimal(n / 10) + last
  }

  /** Reading back the spelling of `n` gives `n`. */
  lemma {:induction false} DigitsValueOfDecimal(n: nat)
    ensures DigitsValue(ToDecimal(n)) == n
  {
    var d := ToDecimal(n);
    assert d[..|d| - 1] == if n < 10 then [] else ToDecimal(n / 10);
    if n >= 10 {
      DigitsValueOfDecimal(n / 10);
    }
  }

  /** The sign accepted in front of the digits. */
  datatype Sign = NoSign | Plus | Minus {
    function Text(): string {
      match this
      case NoSign => ""
      case Plus => "+"
      case Minus => "-"
    }
    function Apply(v: nat): int {
      if Minus? then -(v as int) else v
    }
  }

  function Clamp(v: int): int {
    if v > LONG_MAX then LONG_MAX else if v < LONG_MIN then LONG_MIN else v
  }

  /**
   * A well-formed number `ws + sign + digits`, followed by anything that does not
   * start with a digit, is read up to the end of its digits, with the value clamped
   * to the range of `long` and ERANGE raised exactly when clamping happened.
   */
  lemma {:induction false} StrtolReadsNumber(s: string, ws: string, sign: Sign, digits: string, rest: string)
    requires s == ws + (sign.Text() + (digits + rest))
    requires AllSpace(ws) && AllDigits(digits) && |digits| > 0
    requires rest == [] || !IsDigit(rest[0])
    ensures Strtol(s) == Converted(sign.Apply(DigitsValue(digits)), |ws| + |sign.Text()| + |digits|)
  {
    ScanNumber(s, ws, sign, digits, rest);
    StrtolAt(s, |ws|, sign, |ws| + |sign.Text()| + |digits|);
  }

  /** The three scanning steps of `strtol` on `ws + sign + digits + rest`. */
  lemma {:induction false} ScanNumber(s: string, ws: string, sign: Sign, digits: string, rest: string)
    requires s == ws + (sign.Text() + (digits + rest))
    requires AllSpace(ws) && AllDigits(digits) && |digits| > 0
    requires rest == [] || !IsDigit(rest[0])
    ensures SkipSpace(s, 0) == |ws|
    ensures SignAt(s, |ws|) == sign
    ensures DigitsEnd(s, |ws| + |sign.Text()|) == |ws| + |sign.Text()| + |digits|
    ensures s[|ws| + |sign.Text()|..|ws| + |sign.Text()| + |digits|] == digits
  {
    PartsOfNumber(ws, sign.Text(), digits, rest);
    SkipSpaceOver(s, 0, |ws|);
    DigitsEndOver(s, |ws| + |sign.Text()|, digits);
  }

  /** Where the pieces of `ws + st + digits + rest` sit. */
  lemma {:induction false} PartsOfNumber(ws: string, st: string, digits: string, rest: string)
    requires |digits| > 0
    ensures var s := ws + (st + (digits + rest));
      var j := |ws| + |st|;
      && s[..|ws|] == ws
      && s[|ws|] == (if st == [] then digits[0] else st[0])
      && s[|ws|..j] == st
      && s[j..j + |digits|] == digits
      && (j + |digits| < |s| ==> s[j + |digits|] == rest[0])
  {
    var s := ws + (st + (digits + rest));
    assert s[|ws|..] == st + (digits + rest);
    assert s[|ws| + |st|..] == digits + rest;
  }

  /** `strtol` unfolded once its three scanning steps are known. */
  lemma {:induction false} StrtolAt(s: string, i: nat, sign: Sign, k: nat)
    requires i <= |s| && SkipSpace(s, 0) == i && SignAt(s, i) == sign
    requires i + |sign.Text()| < k && DigitsEnd(s, i + |sign.Text()|) == k
    ensures Strtol(s) == Converted(sign.Apply(DigitsValue(s[i + |sign.Text()|..k])), k)
  {
  }

  /** `SkipSpace` stops at the first character that is not white space. */
  lemma {:induction false} SkipSpaceStops(s: string, i: nat)
    requires i <= |s|
    ensures forall k :: i <= k < SkipSpace(s, i) ==> IsSpace(s[k])
    ensures SkipSpace(s, i) < |s| ==> !IsSpace(s[SkipSpace(s, i)])
    decreases |s| - i
  {
    if i < |s| && IsSpace(s[i]) {
      SkipSpaceStops(s, i + 1);
    }
  }

  /** `DigitsEnd` stops at the first character that is not a digit. */
  lemma {:induction false} DigitsEndStops(s: string, i: nat)
    requires i <= |s|
    ensures forall k :: i <= k < DigitsEnd(s, i) ==> IsDigit(s[k])
    ensures DigitsEnd(s, i) < |s| ==> !IsDigit(s[DigitsEnd(s, i)])
    decreases |s| - i
  {
    if i < |s| && IsDigit(s[i]) {
      DigitsEndStops(s, i + 1);
    }
  }

  lemma {:induction false} SkipSpaceOver(s: string, i: nat, j: nat)
    requires i <= j <= |s| && (forall k :: i <= k < j ==> IsSpace(s[k]))
    requires j < |s| ==> !IsSpace(s[j])
    ensures SkipSpace(s, i) == j
    decreases j - i
  {
    if i < j {
      SkipSpaceOver(s, i + 1, j);
    }
  }

  lemma {:induction false} DigitsEndOver(s: string, j: nat, digits: string)
    requires j + |digits| <= |s| && s[j..j + |digits|] == digits && AllDigits(digits)
    requires j + |digits| < |s| ==> !IsDigit(s[j + |digits|])
    ensures DigitsEnd(s, j) == j + |digits|
    decreases |digits|
  {
    if digits != [] {
      assert s[j] == digits[0];
      assert s[j + 1..j + |digits|] == digits[1..];
      DigitsEndOver(s, j + 1, digits[1..]);
    }
  }

  /**
   * Conversely, whenever `strtol` consumes anything, the consumed part is white
   * space, a sign and at least one digit.
   */
  lemma {:induction false} StrtolShape(s: string) returns (ws: string, sign: Sign, digits: string)
    requires Strtol(s).end > 0
    ensures s[..Strtol(s).end] == ws + sign.Text() + digits
    ensures AllSpace(ws) && AllDigits(digits) && |digits| > 0
    ensures Strtol(s).value == Clamp(sign.Apply(DigitsValue(digits)))
  {
    var i := SkipSpace(s, 0);
    sign := SignAt(s, i);
    var j := i + |sign.Text()|;
    var k := DigitsEnd(s, j);
    assert k > j && Strtol(s) == Converted(sign.Apply(DigitsValue(s[j..k])), k);
    SkipSpaceStops(s, 0);
    DigitsEndStops(s, j);
    ws, digits := s[..i], s[j..k];
    assert AllSpace(ws) by {
      forall n | 0 <= n < |ws| ensures IsSpace(ws[n]) {
        assert ws[n] == s[n];
      }
    }
    assert AllDigits(digits) by {
      forall n | 0 <= n < |digits| ensures IsDigit(digits[n]) {
        assert digits[n] == s[j + n];
      }
    }
    assert s[..k] == s[..i] + s[i..j] + s[j..k];
  }
}
