/**
 * The two pieces of the shell in 2/solution.c that are plain computation: the exit
 * code chosen by the `exit` built-in and the removal of quotes from a word.
 */
module Shell {
  import opened Common
  import opened Decimal

  /** The code `exit` returns: 0 without arguments, `atoi` of a single argument, -1 otherwise. */
  function ExecExit(args: seq<string>): int {
    if |args| == 0 then 0
    else if |args| == 1 then Atoi(args[0])
    else -1
  }

  /** The decimal spelling of any integer, with a leading '-' when negative. */
  function Spell(n: int): string {
    if n < 0 then "-" + ToDecimal(-n) else ToDecimal(n)
  }

  /**
   * `exit` without arguments gives 0, with more than one gives -1, and with one
   * argument spelling a 32-bit integer gives that integer.
   */
  lemma {:induction false} ExecExitCodes(n: int, extra: seq<string>)
    requires -0x8000_0000 <= n < 0x8000_0000
    requires |extra| >= 2
    ensures ExecExit([]) == 0
    ensures ExecExit([Spell(n)]) == n
    ensures ExecExit(extra) == -1
  {
    var sign := if n < 0 then Minus else NoSign;
    var m: nat := if n < 0 then -n else n;
    var d := ToDecimal(m);
    var s := Spell(n);
    assert s == "" + (sign.Text() + (d + ""));
    StrtolReadsNumber(s, "", sign, d, "");
    DigitsValueOfDecimal(m);
    assert sign.Apply(m) == n;
    assert Strtol(s).value == n;
    AtoiOfInt(s, n);
  }

  lemma {:induction false} AtoiOfInt(s: string, n: int)
    requires -0x8000_0000 <= n < 0x8000_0000 && Strtol(s).value == n
    ensures Atoi(s) == n
  {
    if n < 0 {
      assert n % 0x1_0000_0000 == n + 0x1_0000_0000;
    } else {
      assert n % 0x1_0000_0000 == n;
    }
  }

  predicate IsQuote(c: char) {
    c == '"' || c == '\''
  }

  /**
   * What the loop of `unquote` has produced once it has emitted `out` and reached index
   * `i`, `q` being the quote character seen so far ('\0' until a quote is met at the
   * first or the last position).
   */
  function ScanFrom(s: string, i: nat, q: char, out: string): string
    requires 2 <= |s| && i <= |s|
    decreases |s| - i
  {
    if i == |s| then out
    else if IsQuote(s[i]) && (i == 0 || i == |s| - 1) then ScanFrom(s, i + 1, s[i], out)
    else if s[i] == '\\' && i + 1 < |s| && (s[i + 1] == q || s[i + 1] == '\\') then ScanFrom(s, i + 2, q, out + [s[i + 1]])
    else ScanFrom(s, i + 1, q, out + [s[i]])
  }

  /** The loop emits at most one character per input character, each taken from the input. */
  lemma {:induction false} ScanBounds(s: string, i: nat, q: char, out: string)
    requires 2 <= |s| && i <= |s|
    ensures |ScanFrom(s, i, q, out)| <= |out| + |s| - i
    ensures '\0' !in s && '\0' !in out ==> '\0' !in ScanFrom(s, i, q, out)
    decreases |s| - i
  {
    if i < |s| {
      if IsQuote(s[i]) && (i == 0 || i == |s| - 1) {
        ScanBounds(s, i + 1, s[i], out);
      } else if s[i] == '\\' && i + 1 < |s| && (s[i + 1] == q || s[i + 1] == '\\') {
        ScanBounds(s, i + 2, q, out + [s[i + 1]]);
      } else {
        ScanBounds(s, i + 1, q, out + [s[i]]);
      }
    }
  }

  /** The word `unquote` returns for `s`. */
  function UnquoteSpec(s: CString): CString {
    if |s| < 2 then s
    else
      ScanBounds(s, 0, '\0', []);
      ScanFrom(s, 0, '\0', [])
  }

  /**
   * `unquote`: copies the word into a zeroed buffer one character at a time, dropping a
   * quote at the first or last position and resolving a backslash followed by the
   * opening quote or by a backslash into its second character.
   */
  method Unquote(s: CString) returns (r: CString)
    ensures r == UnquoteSpec(s)
    ensures |r| <= |s|
  {
    var len := |s|;
    if len < 2 {
      return s;
    }
    var result := new char[len + 1]((_) => '\0');
    var quoteChar := '\0';
    var j := 0;
    var i := 0;
    while i < len
      invariant 0 <= j <= i <= len
      invariant ScanFrom(s, i, quoteChar, result[..j]) == ScanFrom(s, 0, '\0', [])
    {
      ghost var done := result[..j];
      if IsQuote(s[i]) && (i == 0 || i == len - 1) {
        quoteChar := s[i];
      } else if s[i] == '\\' && i + 1 < len && (s[i + 1] == quoteChar || s[i + 1] == '\\') {
        i := i + 1;
        result[j] := s[i];
        assert result[..j + 1] == done + [s[i]];
        j := j + 1;
      } else {
        result[j] := s[i];
        assert result[..j + 1] == done + [s[i]];
        j := j + 1;
      }
      i := i + 1;
    }
    // The buffer holds no NUL before index j and is zero from there on: as a C string it is result[..j].
    ScanBounds(s, 0, '\0', []);
    r := result[..j];
  }

  predicate PlainChar(c: char) {
    !IsQuote(c) && c != '\\'
  }

  /** A word with no quote and no backslash inside. */
  predicate Plain(m: string) {
    forall k :: 0 <= k < |m| ==> PlainChar(m[k])
  }

  predicate QuoteOrNothing(a: string) {
    a == "" || a == "\"" || a == "'"
  }

  lemma {:induction false} ScanPlain(s: string, i: nat, j: nat, q: char, out: string)
    requires 2 <= |s| && 1 <= i <= j <= |s|
    requires forall k :: i <= k < j ==> PlainChar(s[k])
    ensures ScanFrom(s, i, q, out) == ScanFrom(s, j, q, out + s[i..j])
    decreases j - i
  {
    if i == j {
      assert out + s[i..j] == out;
    } else {
      assert PlainChar(s[i]);
      ScanPlain(s, i + 1, j, q, out + [s[i]]);
      assert out + [s[i]] + s[i + 1..j] == out + s[i..j];
    }
  }

  /** A closing quote at the last position, or the end itself, emits nothing. */
  lemma ScanEnd(s: string, i: nat, q: char, out: string, b: string)
    requires 2 <= |s| && 1 <= i && i + |b| == |s| && s[i..] == b && QuoteOrNothing(b)
    ensures ScanFrom(s, i, q, out) == out
  {
    if b != [] {
      assert s[i] == b[0] && i == |s| - 1;
    }
  }

  /**
   * Quotes at the two ends are dropped, matched or not, and a word without quotes or
   * backslashes comes back unchanged.
   */
  lemma {:induction false} UnquoteDropsEdgeQuotes(a: string, m: string, b: string)
    requires QuoteOrNothing(a) && QuoteOrNothing(b) && Plain(m)
    requires '\0' !in a + m + b && |a + m + b| >= 2
    ensures UnquoteSpec(a + m + b) == m
  {
    var s := a + m + b;
    var i := |a| + |m|;
    assert s[i..] == b;
    var q := if a == "" then '\0' else a[0];
    ScanEnd(s, i, q, m, b);
    if a == "" {
      assert s[0] == m[0] && PlainChar(m[0]);
      assert ScanFrom(s, 0, q, []) == ScanFrom(s, 1, q, [] + [s[0]]);
      assert [] + [s[0]] == [s[0]];
      assert forall k :: 1 <= k < i ==> PlainChar(s[k]) by {
        assert forall k :: 1 <= k < i ==> s[k] == m[k];
      }
      ScanPlain(s, 1, i, '\0', [s[0]]);
      assert [s[0]] + s[1..i] == m;
    } else {
      assert forall k :: 1 <= k < i ==> PlainChar(s[k]) by {
        assert forall k :: 1 <= k < i ==> s[k] == m[k - 1];
      }
      assert ScanFrom(s, 0, '\0', []) == ScanFrom(s, 1, q, []);
      ScanPlain(s, 1, i, a[0], []);
      assert [] + s[1..i] == m;
    }
  }

  /** The backslash escaping of `t` inside a word quoted with `q`. */
  function Escape(t: string, q: char): (e: string)
    ensures |e| >= |t|
  {
    if t == [] then []
    else if t[0] == '\\' || t[0] == q then ['\\', t[0]] + Escape(t[1..], q)
    else [t[0]] + Escape(t[1..], q)
  }

  lemma {:induction false} ScanEscaped(s: string, p: nat, q: char, u: string, out: string)
    requires 2 <= |s| && 1 <= p <= |s| && IsQuote(q)
    requires s[p..] == Escape(u, q) + [q]
    ensures ScanFrom(s, p, q, out) == out + u
    decreases |u|
  {
    if u == [] {
      assert p == |s| - 1 && s[p] == q;
      assert out + u == out;
    } else {
      var e := Escape(u[1..], q);
      if u[0] == '\\' || u[0] == q {
        assert s[p..] == ['\\', u[0]] + (e + [q]);
        assert s[p + 2..] == e + [q];
        ScanEscaped(s, p + 2, q, u[1..], out + [u[0]]);
      } else {
        assert s[p..] == [u[0]] + (e + [q]);
        assert s[p + 1..] == e + [q];
        ScanEscaped(s, p + 1, q, u[1..], out + [u[0]]);
      }
      assert out + [u[0]] + u[1..] == out + u;
    }
  }

  /** Quoting a word and escaping its backslashes and quotes is undone by `unquote`. */
  lemma {:induction false} UnquoteOfQuoted(t: string, q: char)
    requires IsQuote(q) && '\0' !in t
    ensures '\0' !in [q] + Escape(t, q) + [q]
    ensures UnquoteSpec([q] + Escape(t, q) + [q]) == t
  {
    EscapeKeepsNul(t, q);
    var s := [q] + Escape(t, q) + [q];
    assert s[1..] == Escape(t, q) + [q];
    ScanEscaped(s, 1, q, t, []);
    assert [] + t == t;
  }

  /**
   * What `unquote` makes of the rest `t` of a word that does not open with a quote: no
   * quote character was seen, so only a doubled backslash is an escape, and a quote is
   * dropped only in the last position. A backslash before a quote is an ordinary character.
   */
  function Bare(t: string): string {
    if t == [] then []
    else if |t| == 1 && IsQuote(t[0]) then []
    else if |t| >= 2 && t[0] == '\\' && t[1] == '\\' then ['\\'] + Bare(t[2..])
    else [t[0]] + Bare(t[1..])
  }

  /** `unquote` of a word that does not open with a quote is `Bare` of the word. */
  lemma UnquoteOfBare(s: CString)
    requires 2 <= |s| && !IsQuote(s[0])
    ensures UnquoteSpec(s) == Bare(s)
  {
    ScanBare(s, 0, []);
    assert s[0..] == s && [] + Bare(s) == Bare(s);
  }

  lemma {:induction false} ScanBare(s: CString, i: nat, out: string)
    requires 2 <= |s| && i <= |s| && !IsQuote(s[0])
    ensures ScanFrom(s, i, '\0', out) == out + Bare(s[i..])
    decreases |s| - i
  {
    if i == |s| {
      assert out + Bare(s[i..]) == out + [];
    } else {
      var t := s[i..];
      assert t[0] == s[i] && s[i] != '\0';
      if IsQuote(s[i]) && (i == 0 || i == |s| - 1) {
        assert |t| == 1;
      } else if s[i] == '\\' && i + 1 < |s| && (s[i + 1] == '\0' || s[i + 1] == '\\') {
        assert s[i + 1] != '\0' && t[1] == s[i + 1] && t[2..] == s[i + 2..];
        ScanBare(s, i + 2, out + [s[i + 1]]);
      } else {
        assert t[1..] == s[i + 1..];
        ScanBare(s, i + 1, out + [s[i]]);
      }
    }
  }

  /**
   * In a word that does not open with a quote, a backslash before a quote is kept, and so
   * is that quote unless it is the last character.
   */
  lemma BareKeepsEscapedQuote(m: CString, q: char, n: CString)
    requires IsQuote(q) && |m| >= 1 && !IsQuote(m[0]) && n != []
    ensures UnquoteSpec(m + ['\\', q] + n) == Bare(m + ['\\', q] + n)
    ensures Bare(['\\', q] + n) == ['\\', q] + Bare(n)
  {
    var s := m + ['\\', q] + n;
    assert s[0] == m[0];
    UnquoteOfBare(s);
    assert (['\\', q] + n)[1..] == [q] + n && ([q] + n)[1..] == n;
  }

  lemma {:induction false} EscapeKeepsNul(t: string, q: char)
    requires IsQuote(q) && '\0' !in t
    ensures '\0' !in Escape(t, q)
  {
    if t != [] {
      EscapeKeepsNul(t[1..], q);
    }
  }
}
