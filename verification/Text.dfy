/** What the parser's character-level operations do to the text that is still to be read, and decimal printing. */
module Text {

  /** A parsed value and the text after it. */
  datatype Parse<+T> = Fail | Got(value: T, rest: string)

  const INT_MAX := 0x7fff_ffff

  predicate IsSpace(c: char) { c == '\t' || c == '\r' || c == ' ' }

  predicate IsDigit(c: char) { '0' <= c <= '9' }

  function SkipSpace(s: string): (r: string)
    ensures |r| <= |s| && (r == [] || !IsSpace(r[0]))
  {
    if s != [] && IsSpace(s[0]) then SkipSpace(s[1..]) else s
  }

  /** Past the end of the line; a NUL ends the text. */
  function SkipLine(s: string): (r: string)
    ensures |r| <= |s|
  {
    if s == [] || s[0] == '\0' then s else if s[0] == '\n' then s[1..] else SkipLine(s[1..])
  }

  /** Past the end of the line, with nothing but carriage returns before it. */
  function SkipEol(s: string): (r: Parse<()>)
    ensures r.Got? ==> |r.rest| <= |s|
  {
    if s == [] || s[0] == '\0' then Got((), s)
    else if s[0] == '\n' then Got((), s[1..])
    else if s[0] == '\r' then SkipEol(s[1..])
    else Fail
  }

  /** The digits at the front of s, after digits of value val. */
  function Digits(s: string, val: nat): (r: Parse<nat>)
    ensures r.Got? ==> |r.rest| <= |s| && (s != [] && IsDigit(s[0]) ==> |r.rest| < |s|)
  {
    if s == [] || !IsDigit(s[0]) then Got(val, s)
    else
      var val2 := val * 10 + (s[0] as int - '0' as int);
      if val2 > INT_MAX then Fail else Digits(s[1..], val2)
  }

  function ParseInt(s: string): (r: Parse<int>)
    ensures r.Got? ==> |r.rest| < |s|
  {
    var t := SkipSpace(s);
    var u := if t != [] && (t[0] == '-' || t[0] == '+') then t[1..] else t;
    if u == [] || !IsDigit(u[0]) then Fail
    else
      match Digits(u, 0)
      case Fail => Fail
      case Got(val, rest) =>
        var magnitude: int := val;
        Got(if t[0] == '-' then -magnitude else magnitude, rest)
  }

  /** The characters up to the next blank or end of line. */
  function Word(s: string): (r: (string, string))
    ensures |r.1| <= |s|
  {
    if s == [] || s[0] == ' ' || s[0] == '\n' then ("", s)
    else var (w, rest) := Word(s[1..]); ([s[0]] + w, rest)
  }

  function ParseString(s: string): (r: (string, string))
    ensures |r.1| <= |s|
  {
    Word(SkipSpace(s))
  }

  // ---- printing ----

  function DigitChar(d: nat): char
    requires d < 10
  {
    '0' + d as char
  }

  function PrintNat(n: nat): (s: string)
    ensures |s| > 0 && IsDigit(s[0])
  {
    (if n < 10 then [] else PrintNat(n / 10)) + [DigitChar(n % 10)]
  }

  function PrintInt(i: int): string {
    if i < 0 then "-" + PrintNat(-i) else PrintNat(i)
  }

  lemma DigitPrinted(d: nat, val: nat, rest: string)
    requires d < 10 && val * 10 + d <= INT_MAX
    ensures Digits([DigitChar(d)] + rest, val) == Digits(rest, val * 10 + d)
  {
    assert ([DigitChar(d)] + rest)[1..] == rest;
  }

  /** Reading the digits of n leaves off where the text after them begins. */
  lemma {:induction false} DigitsOfPrinted(n: nat, rest: string)
    requires n <= INT_MAX
    ensures Digits(PrintNat(n) + rest, 0) == Digits(rest, n)
  {
    hide Digits, DigitChar;
    var d := [DigitChar(n % 10)];
    DigitPrinted(n % 10, n / 10, rest);
    if n < 10 {
      assert PrintNat(n) == d;
    } else {
      DigitsOfPrinted(n / 10, d + rest);
      assert PrintNat(n) + rest == PrintNat(n / 10) + (d + rest);
    }
  }

  predicate NoDigitNext(s: string) { s == [] || !IsDigit(s[0]) }

  lemma DigitsEnd(val: nat, rest: string)
    requires NoDigitNext(rest)
    ensures Digits(rest, val) == Got(val, rest)
  {}

  /** Printing, then parsing is the identity on 32-bit numbers. */
  lemma ParsePrinted(i: int, rest: string)
    requires -INT_MAX <= i <= INT_MAX && NoDigitNext(rest)
    ensures ParseInt(PrintInt(i) + rest) == Got(i, rest)
  {
    hide Digits, PrintNat;
    var n := if i < 0 then -i else i;
    DigitsOfPrinted(n, rest);
    DigitsEnd(n, rest);
    var s := PrintInt(i) + rest;
    assert SkipSpace(s) == s;
    if i < 0 { assert s[1..] == PrintNat(n) + rest; }
  }

  /** A sign may be positive. */
  lemma ParsePlus(n: nat, rest: string)
    requires n <= INT_MAX && NoDigitNext(rest)
    ensures ParseInt("+" + PrintNat(n) + rest) == Got(n, rest)
  {
    hide Digits, PrintNat;
    DigitsOfPrinted(n, rest);
    DigitsEnd(n, rest);
    var s := "+" + PrintNat(n) + rest;
    assert SkipSpace(s) == s && s[1..] == PrintNat(n) + rest;
  }

  lemma ParseAfterBlank(s: string)
    ensures ParseInt(" " + s) == ParseInt(s)
  {
    assert (" " + s)[1..] == s;
    SkipSpaceIdle(s);
  }

  lemma {:induction false} SkipSpaceIdle(s: string)
    ensures SkipSpace(" " + s) == SkipSpace(s)
  {}

  /** A word is read up to the blank after it. */
  lemma {:induction false} WordPrinted(w: string, rest: string)
    requires forall i :: 0 <= i < |w| ==> w[i] != ' ' && w[i] != '\n'
    requires rest == [] || rest[0] == ' ' || rest[0] == '\n'
    ensures Word(w + rest) == (w, rest)
  {
    if w == [] {
      assert w + rest == rest;
    } else {
      assert (w + rest)[1..] == w[1..] + rest;
      WordPrinted(w[1..], rest);
      assert [w[0]] + w[1..] == w;
    }
  }

  /** The rest of a line is skipped whatever it says. */
  lemma {:induction false} SkipLinePrinted(line: string, rest: string)
    requires forall i :: 0 <= i < |line| ==> line[i] != '\0' && line[i] != '\n'
    ensures SkipLine(line + "\n" + rest) == rest
  {
    var s := line + "\n" + rest;
    if line == [] {
      assert s[1..] == rest;
    } else {
      assert s[1..] == line[1..] + "\n" + rest;
      SkipLinePrinted(line[1..], rest);
    }
  }
}
