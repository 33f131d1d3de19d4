/**
 * The pieces of Python's string handling the generator relies on: `str.strip()`,
 * `str.split(sep)` with a one-character separator, and `int(s, base)` for bases 10 and
 * 16, over ASCII text.
 */
module PyText {
  import opened Wrappers

  /** The ASCII characters `str.isspace()` accepts. */
  predicate IsSpace(c: char) {
    c == ' ' || 9 <= c as int <= 13 || 28 <= c as int <= 31
  }

  /** The number of leading white-space characters. */
  function Leading(s: string): (n: nat)
    ensures n <= |s|
    ensures forall k :: 0 <= k < n ==> IsSpace(s[k])
    ensures n < |s| ==> !IsSpace(s[n])
  {
    if s == [] || !IsSpace(s[0]) then 0 else 1 + Leading(s[1..])
  }

  /** The length of `s` without its trailing white space. */
  function Trailing(s: string): (m: nat)
    ensures m <= |s|
    ensures forall k :: m <= k < |s| ==> IsSpace(s[k])
    ensures m > 0 ==> !IsSpace(s[m - 1])
  {
    if s == [] || !IsSpace(s[|s| - 1]) then |s| else Trailing(s[..|s| - 1])
  }

  /** `s.strip()`: `s` without white space at either end. */
  function Strip(s: string): (r: string)
    ensures |r| > 0 ==> !IsSpace(r[0]) && !IsSpace(r[|r| - 1])
    ensures (forall k :: 0 <= k < |s| ==> !IsSpace(s[k])) ==> r == s
  {
    var t := s[Leading(s)..];
    t[..Trailing(t)]
  }

  /** `s.split(sep)`: the pieces between the separators, so one more piece than separators. */
  function Split(s: string, sep: char): (r: seq<string>)
    ensures |r| >= 1
    ensures forall i :: 0 <= i < |r| ==> sep !in r[i]
  {
    if s == [] then [[]]
    else
      var rest := Split(s[1..], sep);
      if s[0] == sep then [[]] + rest else [[s[0]] + rest[0]] + rest[1..]
  }

  /** `sep.join(parts)`. */
  function Join(parts: seq<string>, sep: char): string {
    if parts == [] then []
    else if |parts| == 1 then parts[0]
    else parts[0] + [sep] + Join(parts[1..], sep)
  }

  /** Joining the pieces of a split gives the text back. */
  lemma {:induction false} JoinSplit(s: string, sep: char)
    ensures Join(Split(s, sep), sep) == s
  {
    if s != [] {
      JoinSplit(s[1..], sep);
      var rest := Split(s[1..], sep);
      if s[0] == sep {
        assert ([[]] + rest)[1..] == rest;
      } else {
        var r := [[s[0]] + rest[0]] + rest[1..];
        assert r[1..] == rest[1..];
        if |rest| > 1 {
          assert rest == [rest[0]] + rest[1..];
        }
      }
    }
  }

  /** Splitting text joined from pieces without the separator gives the pieces back. */
  lemma {:induction false} SplitJoin(parts: seq<string>, sep: char)
    requires |parts| >= 1
    requires forall i :: 0 <= i < |parts| ==> sep !in parts[i]
    ensures Split(Join(parts, sep), sep) == parts
    decreases parts, 1
  {
    if |parts| == 1 {
      SplitNoSeparator(parts[0], sep);
    } else {
      var tail := Join(parts[1..], sep);
      SplitJoin(parts[1..], sep);
      SplitPrefix(parts[0], [sep] + tail, sep);
      assert ([sep] + tail)[1..] == tail;
      assert Split([sep] + tail, sep) == [[]] + parts[1..];
      assert Join(parts, sep) == parts[0] + ([sep] + tail);
      assert parts[0] + [] == parts[0];
      assert parts == [parts[0]] + parts[1..];
    }
  }

  lemma {:induction false} SplitNoSeparator(s: string, sep: char)
    requires sep !in s
    ensures Split(s, sep) == [s]
  {
    if s != [] {
      SplitNoSeparator(s[1..], sep);
      assert [s[0]] + s[1..] == s;
    }
  }

  /** A piece without the separator is glued to the first piece of what follows. */
  lemma {:induction false} SplitPrefix(p: string, rest: string, sep: char)
    requires sep !in p
    ensures Split(p + rest, sep) == [p + Split(rest, sep)[0]] + Split(rest, sep)[1..]
  {
    if p != [] {
      SplitPrefix(p[1..], rest, sep);
      assert (p + rest)[1..] == p[1..] + rest;
      assert [p[0]] + (p[1..] + Split(rest, sep)[0]) == p + Split(rest, sep)[0];
    } else {
      assert p + rest == rest;
      assert p + Split(rest, sep)[0] == Split(rest, sep)[0];
      assert [Split(rest, sep)[0]] + Split(rest, sep)[1..] == Split(rest, sep);
    }
  }

  /** The value of an ASCII digit or letter as a digit of the given base. */
  function Digit(c: char, base: nat): (r: Option<nat>)
    ensures r.Some? ==> r.value < base
  {
    var v :=
      if '0' <= c <= '9' then c as int - '0' as int
      else if 'a' <= c <= 'z' then c as int - 'a' as int + 10
      else if 'A' <= c <= 'Z' then c as int - 'A' as int + 10
      else base;
    if 0 <= v < base then Some(v) else None
  }

  /**
   * The digit part of an integer literal: digits of the base, with single underscores
   * between them, and one allowed in front only after a base prefix.
   */
  predicate WellFormed(body: string, base: nat, afterPrefix: bool) {
    && |body| > 0
    && body[|body| - 1] != '_'
    && (afterPrefix || body[0] != '_')
    && (forall i :: 0 <= i < |body| ==> body[i] == '_' || Digit(body[i], base).Some?)
    && (forall i :: 0 <= i < |body| - 1 ==> body[i] != '_' || body[i + 1] != '_')
  }

  /** The digits of `s` without its underscores. */
  function Digits(s: string): (r: string)
    ensures '_' !in r
    ensures forall c :: c in r ==> c in s
  {
    if s == [] then [] else (if s[0] == '_' then [] else [s[0]]) + Digits(s[1..])
  }

  /** The value of a digit string, most significant digit first. */
  function Value(ds: string, base: nat): nat
    requires forall c :: c in ds ==> Digit(c, base).Some?
  {
    if ds == [] then 0 else Value(ds[..|ds| - 1], base) * base + Digit(ds[|ds| - 1], base).value
  }

  /** Whether `s` opens with the base-16 prefix `0x` or `0X`. */
  predicate HexPrefix(s: string) {
    |s| >= 2 && s[0] == '0' && (s[1] == 'x' || s[1] == 'X')
  }

  /** The unsigned part of an integer literal: for base 16 an optional `0x`, then the digits. */
  function Unsigned(rest: string, base: nat): (r: Option<nat>)
    requires base == 10 || base == 16
  {
    var prefixed := base == 16 && HexPrefix(rest);
    var body := if prefixed then rest[2..] else rest;
    if WellFormed(body, base, prefixed) then Some(Value(Digits(body), base)) else None
  }

  /**
   * `int(s, base)`: white space around, an optional sign, then the unsigned part. None
   * where Python raises ValueError.
   */
  function ParseInt(s: string, base: nat): (r: Option<int>)
    requires base == 10 || base == 16
    ensures r.Some? ==> Strip(s) != []
  {
    var t := Strip(s);
    if |t| > 0 && t[0] == '-' then
      match Unsigned(t[1..], base)
      case Some(v) => Some(-(v as int))
      case None => None
    else if |t| > 0 && t[0] == '+' then
      match Unsigned(t[1..], base)
      case Some(v) => Some(v)
      case None => None
    else
      match Unsigned(t, base)
      case Some(v) => Some(v)
      case None => None
  }

  /** The digit character of a value below 16. */
  function DigitChar(d: nat): (c: char)
    requires d < 16
  {
    if d < 10 then ('0' as int + d) as char else ('a' as int + d - 10) as char
  }

  /** `str(n)` in the given base, most significant digit first. */
  function Show(n: nat, base: nat): (r: string)
    requires base == 10 || base == 16
    ensures |r| >= 1
    ensures forall c :: c in r ==> Digit(c, base).Some?
    ensures r[0] == '0' ==> n == 0 && r == "0"
  {
    if n < base then [DigitChar(n)] else Show(n / base, base) + [DigitChar(n % base)]
  }

  /** The digits `str` writes have the value written. */
  lemma {:induction false} ValueShow(n: nat, base: nat)
    requires base == 10 || base == 16
    ensures Value(Show(n, base), base) == n
  {
    var r := Show(n, base);
    if n < base {
      assert r[..0] == [];
    } else {
      ValueShow(n / base, base);
      assert r[..|r| - 1] == Show(n / base, base);
    }
  }

  /** `str(i)`: a minus sign for a negative number. */
  function ShowInt(i: int, base: nat): (r: string)
    requires base == 10 || base == 16
  {
    if i < 0 then "-" + Show(-i, base) else Show(i, base)
  }

  lemma DigitsPlain(s: string)
    requires '_' !in s
    ensures Digits(s) == s
  {
  }

  /** Plain digits are not white space, signs or underscores. */
  lemma DigitsAreNotMarks(s: string, base: nat)
    requires forall c :: c in s ==> Digit(c, base).Some?
    ensures forall k :: 0 <= k < |s| ==> !IsSpace(s[k]) && s[k] != '_' && s[k] != '-' && s[k] != '+'
  {
    forall k | 0 <= k < |s|
      ensures !IsSpace(s[k]) && s[k] != '_' && s[k] != '-' && s[k] != '+'
    {
      assert s[k] in s;
    }
  }

  /** Digits alone, with no sign and no base prefix, read as their value. */
  lemma ParseDigits(s: string, base: nat)
    requires base == 10 || base == 16
    requires |s| > 0 && forall c :: c in s ==> Digit(c, base).Some?
    requires !(base == 16 && HexPrefix(s))
    ensures Unsigned(s, base) == Some(Value(s, base))
    ensures ParseInt(s, base) == Some(Value(s, base))
  {
    DigitsAreNotMarks(s, base);
    assert Strip(s) == s;
    DigitsPlain(s);
    assert WellFormed(s, base, false);
  }

  /** The minus branch of `ParseInt`, on text that is already stripped. */
  lemma MinusBranch(t: string, base: nat, v: nat)
    requires base == 10 || base == 16
    requires Strip(t) == t && |t| > 0 && t[0] == '-'
    requires Unsigned(t[1..], base) == Some(v)
    ensures ParseInt(t, base) == Some(-(v as int))
  {
  }

  /** A minus sign in front of plain digits is not white space either. */
  lemma StripMinus(s: string, base: nat)
    requires forall c :: c in s ==> Digit(c, base).Some?
    ensures Strip("-" + s) == "-" + s
  {
    DigitsAreNotMarks(s, base);
    var m := "-" + s;
    forall k | 0 <= k < |m|
      ensures !IsSpace(m[k])
    {
      if k > 0 {
        assert m[k] == s[k - 1];
      }
    }
  }

  /** A minus sign in front of an unsigned literal negates its value. */
  lemma ParseNegative(s: string, base: nat, v: nat)
    requires base == 10 || base == 16
    requires Unsigned(s, base) == Some(v)
    requires Strip("-" + s) == "-" + s
    ensures ParseInt("-" + s, base) == Some(-(v as int))
  {
    assert ("-" + s)[1..] == s;
    MinusBranch("-" + s, base, v);
  }

  /** `int` reads back what `str` writes. */
  lemma ParseShow(i: int, base: nat)
    requires base == 10 || base == 16
    ensures ParseInt(ShowInt(i, base), base) == Some(i)
  {
    var n: nat := if i < 0 then -i else i;
    var digits := Show(n, base);
    assert Unsigned(digits, base) == Some(n) && ParseInt(digits, base) == Some(n) by {
      assert !HexPrefix(digits) by {
        if |digits| >= 2 && digits[0] == '0' {
          assert digits == "0";
        }
      }
      ValueShow(n, base);
      ParseDigits(digits, base);
    }
    if i < 0 {
      assert Strip("-" + digits) == "-" + digits by {
        StripMinus(digits, base);
      }
      ParseNegative(digits, base, n);
    }
  }

  /** Two hexadecimal digits, leading zero included. */
  function Hex2(n: nat): (r: string)
    requires n < 256
    ensures |r| == 2
  {
    [DigitChar(n / 16), DigitChar(n % 16)]
  }

  /** `int(h, 16)` reads back a pair of hexadecimal digits. */
  lemma ParseHex2(n: nat)
    requires n < 256
    ensures ParseInt(Hex2(n), 16) == Some(n)
  {
    var s := Hex2(n);
    assert Digit(s[0], 16) == Some(n / 16) && Digit(s[1], 16) == Some(n % 16);
    assert !HexPrefix(s);
    assert s[..1] == [s[0]] && [s[0]][..0] == [];
    assert Value([s[0]], 16) == n / 16;
    assert Value(s, 16) == (n / 16) * 16 + n % 16;
    ParseDigits(s, 16);
  }
}
