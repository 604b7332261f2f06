/** Text operations the communication module borrows from Python's `str`:
    the `in` substring test, `lower()`, `"\n".join(...)` and `str(int)`. */
module Strings {

  /** `needle in hay`: the needle occurs at some position of the haystack. */
  ghost predicate IsSubstring(needle: string, hay: string)
  {
    exists i :: 0 <= i <= |hay| && needle <= hay[i..]
  }

  /** Dropping the first character of a haystack that does not start with the
      needle loses no occurrence of it. */
  lemma SubstringStep(needle: string, hay: string)
    requires |hay| > 0 && !(needle <= hay)
    ensures IsSubstring(needle, hay) <==> IsSubstring(needle, hay[1..])
  {
    if IsSubstring(needle, hay) {
      var i :| 0 <= i <= |hay| && needle <= hay[i..];
      assert i != 0;
      assert hay[1..][i - 1..] == hay[i..];
    }
    if IsSubstring(needle, hay[1..]) {
      var j :| 0 <= j <= |hay[1..]| && needle <= hay[1..][j..];
      assert hay[1..][j..] == hay[j + 1..];
    }
  }

  /** Executable substring test, scanning the haystack from the left. */
  function Contains(needle: string, hay: string): (r: bool)
    ensures r <==> IsSubstring(needle, hay)
    decreases |hay|
  {
    if needle <= hay then
      assert hay[0..] == hay;
      true
    else if |hay| == 0 then
      false
    else
      SubstringStep(needle, hay);
      Contains(needle, hay[1..])
  }

  /** A string occurs in any text built around it. */
  lemma SubstringOfConcat(prefix: string, x: string, suffix: string)
    ensures IsSubstring(x, prefix + x + suffix)
  {
    var s := prefix + x + suffix;
    assert s[|prefix|..] == x + suffix;
  }

  /** A string occurs in any text it starts. */
  lemma SubstringOfStart(x: string, rest: string)
    ensures IsSubstring(x, x + rest)
  {
    assert (x + rest)[0..] == x + rest;
  }

  /** An occurrence inside a suffix is an occurrence in the whole text. */
  lemma SubstringOfSuffix(x: string, prefix: string, y: string)
    requires IsSubstring(x, y)
    ensures IsSubstring(x, prefix + y)
  {
    var i :| 0 <= i <= |y| && x <= y[i..];
    assert (prefix + y)[|prefix| + i..] == y[i..];
  }

  /** Every character of an occurring needle is a character of the haystack. */
  lemma SubstringCharsOccur(needle: string, hay: string, c: char)
    requires IsSubstring(needle, hay) && c in needle
    ensures c in hay
  {
  }

  /** Every string contains itself. */
  lemma SubstringReflexive(x: string)
    ensures IsSubstring(x, x)
  {
    assert x[0..] == x;
  }

  /** Python's `lower()` on one character: ASCII capitals and the capitals
      of the Latin-1 block (U+00C0..U+00DE except the sign U+00D7) map to the
      letter 0x20 above them; everything else is left as it is. */
  function LowerChar(c: char): (r: char)
  {
    if 'A' <= c <= 'Z' || ('\U{C0}' <= c <= '\U{DE}' && c != '\U{D7}') then
      (c as int + 32) as char
    else
      c
  }

  /** Python's `lower()`, character by character. */
  function Lower(s: string): (r: string)
  {
    seq(|s|, i requires 0 <= i < |s| => LowerChar(s[i]))
  }

  /** Lowering a lowered text changes nothing. */
  lemma LowerIdempotent(s: string)
    ensures Lower(Lower(s)) == Lower(s)
  {
  }

  /** `"\n".join(lines)`. */
  function JoinLines(lines: seq<string>): (r: string)
  {
    if |lines| == 0 then ""
    else if |lines| == 1 then lines[0]
    else lines[0] + "\n" + JoinLines(lines[1..])
  }

  /** Joining loses none of the joined lines: each one occurs in the result. */
  lemma {:induction false} JoinLinesContainsEach(lines: seq<string>, k: nat)
    requires k < |lines|
    ensures IsSubstring(lines[k], JoinLines(lines))
  {
    if |lines| == 1 {
      SubstringReflexive(lines[0]);
    } else if k == 0 {
      SubstringOfConcat("", lines[0], "\n" + JoinLines(lines[1..]));
      assert "" + lines[0] + ("\n" + JoinLines(lines[1..])) == JoinLines(lines);
    } else {
      JoinLinesContainsEach(lines[1..], k - 1);
      SubstringOfSuffix(lines[k], lines[0] + "\n", JoinLines(lines[1..]));
      assert lines[0] + "\n" + JoinLines(lines[1..]) == JoinLines(lines);
    }
  }

  /** The number of bytes a character takes in UTF-8, the encoding in which
      the database stores text. */
  function Utf8Width(c: char): (w: nat)
    ensures 1 <= w <= 4
    ensures w == 1 <==> (c as int) < 0x80
  {
    if (c as int) < 0x80 then 1
    else if (c as int) < 0x800 then 2
    else if (c as int) < 0x1_0000 then 3
    else 4
  }

  /** The number of bytes a text takes in UTF-8. */
  function Utf8Length(s: string): (n: nat)
    ensures |s| <= n <= 4 * |s|
  {
    if |s| == 0 then 0 else Utf8Width(s[0]) + Utf8Length(s[1..])
  }

  /** The UTF-8 length of a concatenation is the sum of the parts' lengths. */
  lemma {:induction false} Utf8LengthConcat(a: string, b: string)
    ensures Utf8Length(a + b) == Utf8Length(a) + Utf8Length(b)
  {
    if |a| > 0 {
      assert (a + b)[1..] == a[1..] + b;
      Utf8LengthConcat(a[1..], b);
    } else {
      assert a + b == b;
    }
  }

  /** The character of one decimal digit. */
  function DigitChar(d: nat): (c: char)
    requires d < 10
    ensures '0' <= c <= '9'
  {
    (48 + d) as char
  }

  /** The decimal digits of a natural number, most significant first. */
  function Digits(n: nat): (r: string)
    ensures |r| >= 1 && (n >= 10 ==> |r| >= 2)
    ensures forall i :: 0 <= i < |r| ==> '0' <= r[i] <= '9'
    decreases n
  {
    if n < 10 then [DigitChar(n)] else Digits(n / 10) + [DigitChar(n % 10)]
  }

  /** Python's `str(n)` for an integer: a minus sign before a negative number. */
  function IntText(n: int): (r: string)
  {
    if n < 0 then "-" + Digits(-n) else Digits(n)
  }

  /** Different numbers have different digit strings. */
  lemma {:induction false} DigitsInjective(a: nat, b: nat)
    requires Digits(a) == Digits(b)
    ensures a == b
    decreases a
  {
    var da, db := Digits(a), Digits(b);
    if a >= 10 && b >= 10 {
      assert da[..|da| - 1] == Digits(a / 10);
      assert db[..|db| - 1] == Digits(b / 10);
      DigitsInjective(a / 10, b / 10);
      assert da[|da| - 1] == DigitChar(a % 10);
      assert db[|db| - 1] == DigitChar(b % 10);
    } else if a < 10 && b < 10 {
      assert da[0] == DigitChar(a) && db[0] == DigitChar(b);
    }
  }

  /** The text of a number starts with a minus sign exactly when it is negative. */
  lemma IntTextSign(n: int)
    ensures |IntText(n)| > 0 && (IntText(n)[0] == '-' <==> n < 0)
  {
  }

  /** `str(a) == str(b)` exactly when `a == b`. */
  lemma IntTextInjective(a: int, b: int)
    ensures IntText(a) == IntText(b) <==> a == b
  {
    IntTextSign(a);
    IntTextSign(b);
    if IntText(a) == IntText(b) {
      var ta, tb := IntText(a), IntText(b);
      if a < 0 && b < 0 {
        assert ta[1..] == Digits(-a) && tb[1..] == Digits(-b);
        DigitsInjective(-a, -b);
      } else if a >= 0 && b >= 0 {
        DigitsInjective(a, b);
      }
    }
  }
}
