/**
 * `port_from_str` in 5/chat_server_exe.c: the command-line port of the chat server,
 * read with `strtol` and accepted only when the whole string is a number in 0..65535.
 */
module ChatServerExe {
  import opened Common
  import opened Decimal

  const UINT16_MAX: int := 65535

  /**
   * `Some(p)` when `port_from_str` returns 0 after storing `p`, `None` when it returns -1
   * and leaves the port untouched. `errno` is set by `strtol` only on overflow. The
   * character at `end` is the terminating NUL exactly when the whole string was consumed.
   */
  function PortFromStr(s: CString): (port: Option<int>)
    ensures port.Some? ==> 0 <= port.value <= UINT16_MAX
    ensures port.Some? ==> Strtol(s).end == |s| && port.value == Strtol(s).value
  {
    var c := Strtol(s);
    if c.value == 0 && c.overflow then None
    else if c.end != |s| then None
    else if c.value > UINT16_MAX || c.value < 0 then None
    else Some(c.value)
  }

  /**
   * Every spelling of a port number, with leading white space and a sign allowed, is
   * accepted with its value.
   */
  lemma {:induction false} PortFromStrAccepts(ws: string, sign: Sign, n: nat)
    requires AllSpace(ws) && 0 <= sign.Apply(n) <= UINT16_MAX
    ensures '\0' !in ws + sign.Text() + ToDecimal(n)
    ensures PortFromStr(ws + sign.Text() + ToDecimal(n)) == Some(sign.Apply(n))
  {
    var d := ToDecimal(n);
    var s := ws + sign.Text() + d;
    assert s == ws + (sign.Text() + (d + ""));
    assert '\0' !in s by {
      assert forall k :: 0 <= k < |s| ==> IsSpace(s[k]) || s[k] in "+-" || IsDigit(s[k]);
    }
    StrtolReadsNumber(s, ws, sign, d, "");
    DigitsValueOfDecimal(n);
  }

  /** A number followed by anything that is not a digit is refused. */
  lemma {:induction false} PortFromStrRejectsTrailing(n: nat, rest: CString)
    requires n <= UINT16_MAX && rest != [] && !IsDigit(rest[0])
    ensures '\0' !in ToDecimal(n) + rest
    ensures PortFromStr(ToDecimal(n) + rest) == None
  {
    var d := ToDecimal(n);
    var s := d + rest;
    assert s == "" + (NoSign.Text() + (d + rest));
    assert '\0' !in s by {
      assert forall k :: 0 <= k < |d| ==> IsDigit(s[k]);
      assert forall k :: |d| <= k < |s| ==> s[k] == rest[k - |d|];
    }
    StrtolReadsNumber(s, "", NoSign, d, rest);
  }

  /** A number above 65535 is refused, whatever `strtol` clamps it to. */
  lemma {:induction false} PortFromStrRejectsLarge(n: nat)
    requires n > UINT16_MAX
    ensures '\0' !in ToDecimal(n)
    ensures PortFromStr(ToDecimal(n)) == None
  {
    var d := ToDecimal(n);
    assert d == "" + (NoSign.Text() + (d + ""));
    assert '\0' !in d by {
      assert forall k :: 0 <= k < |d| ==> IsDigit(d[k]);
    }
    StrtolReadsNumber(d, "", NoSign, d, "");
    DigitsValueOfDecimal(n);
  }

  /**
   * Conversely, an accepted string is white space, a sign and the digits of the port,
   * and the only accepted string without digits is the empty one, read as port 0.
   */
  lemma {:induction false} PortFromStrShape(s: CString, p: int) returns (ws: string, sign: Sign, digits: string)
    requires PortFromStr(s) == Some(p)
    ensures s == ws + sign.Text() + digits && AllSpace(ws) && AllDigits(digits)
    ensures p == sign.Apply(DigitsValue(digits))
    ensures digits == [] ==> s == [] && p == 0
  {
    if Strtol(s).end == 0 {
      ws, sign, digits := [], NoSign, [];
      assert s == [];
    } else {
      ws, sign, digits := StrtolShape(s);
      assert s[..Strtol(s).end] == s;
    }
  }

  /** The empty string passes every check and gives port 0. */
  lemma PortFromEmpty()
    ensures PortFromStr("") == Some(0)
  {
    assert Strtol("").end == 0;
  }
}
