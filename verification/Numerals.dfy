/** Integers at the start of a text, as PostgreSQL reads them from its configuration, and how they are printed. */
module Numerals {
  import opened Options

  // ---------- integers as text ----------

  predicate Digit(c: char) { '0' <= c <= '9' }

  predicate Octal(c: char) { '0' <= c <= '7' }

  predicate Hex(c: char) { Digit(c) || 'a' <= c <= 'f' || 'A' <= c <= 'F' }

  predicate Space(c: char) { c == ' ' || '\t' <= c <= '\r' || '\U{1c}' <= c <= '\U{1f}' }

  function DigitValue(c: char): int {
    if Digit(c) then c as int - '0' as int
    else if 'a' <= c <= 'f' then c as int - 'a' as int + 10
    else c as int - 'A' as int + 10
  }

  function DigitChar(n: int): (c: char)
    requires 0 <= n < 10
    ensures Digit(c) && DigitValue(c) == n
  {
    '0' + n as char
  }

  /** The decimal digits of a natural number. */
  function Digits(n: nat): (s: string)
    ensures s != [] && (forall c | c in s :: Digit(c)) && (s[0] == '0' <==> n == 0) && (n == 0 ==> s == "0")
  {
    if n < 10 then [DigitChar(n)] else Digits(n / 10) + [DigitChar(n % 10)]
  }

  function Print(n: int): string {
    if n < 0 then "-" + Digits(-n) else Digits(n)
  }

  function DigitsValue(s: string, base: nat): int
    decreases |s|
  {
    if s == [] then 0 else DigitsValue(s[..|s| - 1], base) * base + DigitValue(s[|s| - 1])
  }

  lemma {:induction false} DigitsValueOfDigits(n: nat)
    ensures DigitsValue(Digits(n), 10) == n
  {
    if n >= 10 {
      DigitsValueOfDigits(n / 10);
      assert Digits(n)[..|Digits(n)| - 1] == Digits(n / 10);
    } else {
      assert DigitsValue([DigitChar(n)], 10) == n by {
        assert [DigitChar(n)][..0] == [];
      }
    }
  }

  function SkipSpace(s: string): string
    decreases |s|
  {
    if s != [] && Space(s[0]) then SkipSpace(s[1..]) else s
  }

  function DropSpace(s: string): string
    decreases |s|
  {
    if s != [] && Space(s[|s| - 1]) then DropSpace(s[..|s| - 1]) else s
  }

  function Strip(s: string): string { DropSpace(SkipSpace(s)) }

  /** The length of the longest prefix of characters that satisfy `p`. */
  function Span(s: string, p: char -> bool): (n: nat)
    ensures n <= |s| && (forall i | 0 <= i < n :: p(s[i])) && (n < |s| ==> !p(s[n]))
    decreases |s|
  {
    if s != [] && p(s[0]) then 1 + Span(s[1..], p) else 0
  }

  /** A number at the start of a text, and what follows it. */
  datatype Scan = Scan(value: Option<int>, rest: string)

  /** An unsigned number: hexadecimal with a leading 0x, octal with a leading 0, or decimal. */
  function Unsigned(u: string): Scan {
    if |u| >= 3 && u[0] == '0' && u[1] == 'x' && Hex(u[2]) then
      var n := Span(u[2..], Hex);
      Scan(Some(DigitsValue(u[2..][..n], 16)), u[2..][n..])
    else if u != [] && u[0] == '0' then
      var n := Span(u, Octal);
      Scan(Some(DigitsValue(u[..n], 8)), u[n..])
    else if u != [] && Digit(u[0]) then
      var n := Span(u, Digit);
      Scan(Some(DigitsValue(u[..n], 10)), u[n..])
    else Scan(None, u)
  }

  /** `strtol`; without a number the whole text is left, and the value is `missing`. */
  function Strtol(text: string, missing: Option<int>): (r: Scan)
    ensures missing.Some? ==> r.value.Some?
  {
    var s := Strip(text);
    var signed := s != [] && (s[0] == '-' || s[0] == '+');
    var r := Unsigned(if signed then s[1..] else s);
    if r.value.None? then Scan(missing, s)
    else if signed && s[0] == '-' then r.(value := Some(-r.value.value))
    else r
  }

  // ---------- scanning what was printed ----------

  /** A unit: it starts like no number and no exponent, and has no space at either end. */
  predicate Letters(u: string) {
    && u != [] && !Digit(u[0]) && u[0] != 'x' && u[0] != '.' && u[0] != 'e' && u[0] != 'E'
    && !Space(u[0]) && !Space(u[|u| - 1])
  }

  lemma StripNothing(s: string)
    requires s != [] && !Space(s[0]) && !Space(s[|s| - 1])
    ensures Strip(s) == s
  {}

  lemma SpanOf(s: string, u: string, p: char -> bool)
    requires forall c | c in s :: p(c)
    requires u != [] && !p(u[0])
    ensures Span(s + u, p) == |s|
  {
    var n := Span(s + u, p);
    assert forall i | 0 <= i < |s| :: (s + u)[i] in s;
    assert (s + u)[|s|] == u[0];
  }

  lemma UnsignedPrinted(n: nat, u: string)
    requires Letters(u)
    ensures Unsigned(Digits(n) + u) == Scan(Some(n), u)
  {
    var d := Digits(n);
    assert (d + u)[|d|..] == u && (d + u)[..|d|] == d;
    if n == 0 {
      SpanOf(d, u, Octal);
      assert DigitsValue("0", 8) == 0 by { assert "0"[..0] == []; }
    } else {
      SpanOf(d, u, Digit);
      DigitsValueOfDigits(n);
    }
  }

  /** With a leading 0 the number is octal, with a leading 0x it is hexadecimal; what follows is left. */
  lemma UnsignedOctal(o: string, u: string)
    requires (forall c | c in o :: Octal(c)) && u != [] && !Octal(u[0]) && (o == [] ==> u[0] != 'x')
    ensures Unsigned("0" + o + u) == Scan(Some(DigitsValue("0" + o, 8)), u)
  {
    var s := "0" + o;
    assert forall c | c in s :: Octal(c);
    assert s + u == "0" + o + u && (s + u)[..|s|] == s && (s + u)[|s|..] == u;
    assert |s + u| >= 2 && (s + u)[1] != 'x' by {
      if o != [] { assert (s + u)[1] == o[0] && o[0] in o; } else { assert (s + u)[1] == u[0]; }
    }
    SpanOf(s, u, Octal);
  }

  lemma UnsignedHex(h: string, u: string)
    requires h != [] && (forall c | c in h :: Hex(c)) && u != [] && !Hex(u[0])
    ensures Unsigned("0x" + h + u) == Scan(Some(DigitsValue(h, 16)), u)
  {
    var s := "0x" + h + u;
    assert s[2..] == h + u && (h + u)[..|h|] == h && (h + u)[|h|..] == u;
    assert s[2] == h[0] && h[0] in h;
    SpanOf(h, u, Hex);
  }

  /** A sign in front, and spaces around. */
  lemma SignedNumber(text: string, u: string, missing: Option<int>)
    requires Strip(text) == u && u != [] && (u[0] == '-' || u[0] == '+') && Unsigned(u[1..]).value.Some?
    ensures var r := Unsigned(u[1..]);
      Strtol(text, missing) == Scan(Some(if u[0] == '-' then -r.value.value else r.value.value), r.rest)
  {}

  /** A printed integer followed by a unit is read back. */
  lemma ScanPrinted(n: int, u: string)
    requires Letters(u)
    ensures Strtol(Print(n) + u, None) == Scan(Some(n), u)
  {
    hide Unsigned, Letters, Strip;
    var s := Print(n) + u;
    NoSpaces(n, u);
    if n < 0 {
      UnsignedPrinted(-n, u);
      assert s[1..] == Digits(-n) + u;
    } else {
      UnsignedPrinted(n, u);
    }
  }

  lemma NoSpaces(n: int, u: string)
    requires Letters(u)
    ensures Strip(Print(n) + u) == Print(n) + u
    ensures n >= 0 ==> Digit((Digits(n) + u)[0])
  {
    var s := Print(n) + u;
    assert s[|s| - 1] == u[|u| - 1];
    if n >= 0 {
      assert s[0] == Digits(n)[0] && Digits(n)[0] in Digits(n);
    }
    StripNothing(s);
  }
}
