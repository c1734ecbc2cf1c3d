/** The parts of Python's `str` behaviour that the modelled code relies on:
    `split`, `join` and single-character `replace`; `startswith`, `endswith`
    and `in`; `strip`; `str(int)`, `int(str)`; and the ordering of strings. */
module Text {
  import opened Wrappers

  /** `sep.join(parts)` */
  function Join(sep: string, parts: seq<string>): string
  {
    if |parts| == 0 then ""
    else if |parts| == 1 then parts[0]
    else parts[0] + sep + Join(sep, parts[1..])
  }

  /** `s.split(sep)` for a non-empty separator: the string is scanned from the
      left and cut at every occurrence of `sep` that does not overlap an
      earlier cut. */
  function Split(s: string, sep: string): (parts: seq<string>)
    requires |sep| > 0
    ensures |parts| >= 1
    decreases |s|
  {
    if |s| < |sep| then [s]
    else if s[..|sep|] == sep then [""] + Split(s[|sep|..], sep)
    else
      var rest := Split(s[1..], sep);
      [[s[0]] + rest[0]] + rest[1..]
  }

  /** Joining the pieces of a split with the same separator gives the string back. */
  lemma {:induction false} JoinSplit(s: string, sep: string)
    requires |sep| > 0
    ensures Join(sep, Split(s, sep)) == s
    decreases |s|
  {
    if |s| < |sep| {
    } else if s[..|sep|] == sep {
      var rest := Split(s[|sep|..], sep);
      JoinSplit(s[|sep|..], sep);
      assert Split(s, sep) == [""] + rest;
      assert s == s[..|sep|] + s[|sep|..];
    } else {
      var rest := Split(s[1..], sep);
      JoinSplit(s[1..], sep);
      JoinHead([s[0]], rest, sep);
      assert s == [s[0]] + s[1..];
    }
  }

  /** Characters added to the front of the first part come out at the front of
      the joined string. */
  lemma JoinHead(a: string, parts: seq<string>, sep: string)
    requires |parts| >= 1
    ensures Join(sep, [a + parts[0]] + parts[1..]) == a + Join(sep, parts)
  {
    var q := [a + parts[0]] + parts[1..];
    assert q[1..] == parts[1..];
  }

  /** `s.replace(c, with)` for a one-character `c`: every occurrence is replaced. */
  function ReplaceChar(s: string, c: char, with: string): (r: string)
    ensures c !in s ==> r == s
  {
    if |s| == 0 then ""
    else (if s[0] == c then with else [s[0]]) + ReplaceChar(s[1..], c, with)
  }

  lemma {:induction false} ReplaceCharAppend(a: string, b: string, c: char, with: string)
    ensures ReplaceChar(a + b, c, with) == ReplaceChar(a, c, with) + ReplaceChar(b, c, with)
  {
    if |a| > 0 {
      assert (a + b)[1..] == a[1..] + b;
      ReplaceCharAppend(a[1..], b, c, with);
    } else {
      assert a + b == b;
    }
  }

  /** `s.startswith(p)` */
  predicate IsPrefix(p: string, s: string)
  {
    |p| <= |s| && s[..|p|] == p
  }

  /** `s.endswith(p)` */
  predicate IsSuffix(p: string, s: string)
  {
    |p| <= |s| && s[|s| - |p|..] == p
  }

  /** `needle in s` */
  predicate Contains(needle: string, s: string)
  {
    exists k :: 0 <= k <= |s| && IsPrefix(needle, s[k..])
  }

  lemma PrefixIsContained(p: string, s: string)
    requires IsPrefix(p, s)
    ensures Contains(p, s)
  {
    assert s[0..] == s;
  }

  lemma SuffixIsContained(p: string, s: string)
    requires IsSuffix(p, s)
    ensures Contains(p, s)
  {
    var k := |s| - |p|;
    assert IsPrefix(p, s[k..]);
  }

  /** The characters Python's `str.isspace` accepts (and so `str.strip` removes). */
  predicate IsSpace(c: char)
  {
    c in {' ', '\t', '\n', '\r', '\U{0B}', '\U{0C}', '\U{1C}', '\U{1D}', '\U{1E}', '\U{1F}',
          '\U{85}', '\U{A0}', '\U{1680}', '\U{2000}', '\U{2001}', '\U{2002}', '\U{2003}',
          '\U{2004}', '\U{2005}', '\U{2006}', '\U{2007}', '\U{2008}', '\U{2009}', '\U{200A}',
          '\U{2028}', '\U{2029}', '\U{202F}', '\U{205F}', '\U{3000}'}
  }

  function StripLeft(s: string): string
  {
    if |s| > 0 && IsSpace(s[0]) then StripLeft(s[1..]) else s
  }

  function StripRight(s: string): string
  {
    if |s| > 0 && IsSpace(s[|s| - 1]) then StripRight(s[..|s| - 1]) else s
  }

  /** `s.strip()` */
  function Strip(s: string): string
  {
    StripRight(StripLeft(s))
  }

  /** Everything before `i` and from `j` on is white space. */
  predicate SpaceOutside(s: string, i: nat, j: nat)
    requires i <= j <= |s|
  {
    (forall k :: 0 <= k < i ==> IsSpace(s[k])) && (forall k :: j <= k < |s| ==> IsSpace(s[k]))
  }

  /** `strip` removes white space from both ends only: what is left is the
      piece of the string between a white-space head and a white-space
      tail, it neither starts nor ends with white space, and a string with
      no white space at either end is its own strip. */
  lemma {:induction false} StripShape(s: string)
    ensures var r := Strip(s);
            && (exists i, j :: 0 <= i <= j <= |s| && r == s[i..j] && SpaceOutside(s, i, j))
            && (|r| > 0 ==> !IsSpace(r[0]) && !IsSpace(r[|r| - 1]))
            && (|s| > 0 && !IsSpace(s[0]) && !IsSpace(s[|s| - 1]) ==> r == s)
  {
    var l := StripLeft(s);
    var i := StripLeftShape(s);
    var j := StripRightShape(l);
    var r := Strip(s);
    assert r == s[i..i + j] by {
      assert s[i..][..j] == s[i..i + j];
    }
    assert SpaceOutside(s, i, i + j) by {
      forall k | i + j <= k < |s| ensures IsSpace(s[k]) {
        assert s[k] == l[k - i];
      }
    }
    assert exists i', j' :: 0 <= i' <= j' <= |s| && r == s[i'..j'] && SpaceOutside(s, i', j');
    if |s| > 0 && !IsSpace(s[0]) && !IsSpace(s[|s| - 1]) {
      assert l == s;
    }
  }

  lemma {:induction false} StripLeftShape(s: string) returns (i: nat)
    ensures i <= |s| && StripLeft(s) == s[i..]
    ensures forall k :: 0 <= k < i ==> IsSpace(s[k])
    ensures |StripLeft(s)| > 0 ==> !IsSpace(StripLeft(s)[0])
    ensures |s| > 0 && !IsSpace(s[|s| - 1]) ==> |StripLeft(s)| > 0 && !IsSpace(StripLeft(s)[|StripLeft(s)| - 1])
    decreases |s|
  {
    if |s| > 0 && IsSpace(s[0]) {
      var k := StripLeftShape(s[1..]);
      i := k + 1;
      assert s[1..][k..] == s[i..];
    } else {
      i := 0;
    }
  }

  lemma {:induction false} StripRightShape(s: string) returns (j: nat)
    ensures j <= |s| && StripRight(s) == s[..j]
    ensures forall k :: j <= k < |s| ==> IsSpace(s[k])
    ensures |StripRight(s)| > 0 ==> !IsSpace(StripRight(s)[|StripRight(s)| - 1])
    ensures |s| > 0 && !IsSpace(s[0]) ==> |StripRight(s)| > 0 && !IsSpace(StripRight(s)[0])
    ensures |s| > 0 && !IsSpace(s[|s| - 1]) ==> StripRight(s) == s
    decreases |s|
  {
    if |s| > 0 && IsSpace(s[|s| - 1]) {
      j := StripRightShape(s[..|s| - 1]);
      assert s[..|s| - 1][..j] == s[..j];
    } else {
      j := |s|;
    }
  }

  predicate IsDigit(c: char)
  {
    '0' <= c <= '9'
  }

  predicate AllDigits(s: string)
  {
    forall k :: 0 <= k < |s| ==> IsDigit(s[k])
  }

  function DigitChar(d: nat): (c: char)
    requires d < 10
    ensures IsDigit(c)
  {
    "0123456789"[d]
  }

  function DigitValue(c: char): (d: nat)
    requires IsDigit(c)
    ensures d < 10
  {
    c as int - '0' as int
  }

  /** `str(n)` for a natural number: its decimal digits, no leading zeros. */
  function NatString(n: nat): (s: string)
    ensures |s| >= 1 && AllDigits(s)
    decreases n
  {
    if n < 10 then [DigitChar(n)] else NatString(n / 10) + [DigitChar(n % 10)]
  }

  /** `str(i)` for an integer. */
  function DecimalString(i: int): string
  {
    if i < 0 then "-" + NatString(-i) else NatString(i)
  }

  /** A number below ten prints as its one digit. */
  lemma SmallDecimal(n: nat)
    requires n < 10
    ensures DecimalString(n) == ["0123456789"[n]]
    ensures n == 1 ==> DecimalString(n) == "1"
  {
  }

  /** The number a string of decimal digits denotes. */
  function DigitsValue(s: string): nat
    requires AllDigits(s)
  {
    if |s| == 0 then 0 else DigitsValue(s[..|s| - 1]) * 10 + DigitValue(s[|s| - 1])
  }

  /** Python's `int(s)` on a string: surrounding white space, an optional sign
      and at least one decimal digit; `None` where Python raises ValueError. */
  function ParseInt(s: string): Option<int>
  {
    var t := Strip(s);
    if |t| >= 2 && (t[0] == '-' || t[0] == '+') && AllDigits(t[1..]) then
      Some(if t[0] == '-' then -(DigitsValue(t[1..]) as int) else DigitsValue(t[1..]))
    else if |t| >= 1 && AllDigits(t) then
      Some(DigitsValue(t))
    else
      None
  }

  lemma {:induction false} NatStringValue(n: nat)
    ensures DigitsValue(NatString(n)) == n
    decreases n
  {
    if n >= 10 {
      var s := NatString(n);
      NatStringValue(n / 10);
      assert s[..|s| - 1] == NatString(n / 10);
      assert DigitValue(s[|s| - 1]) == n % 10;
    } else {
      assert DigitValue(DigitChar(n)) == n;
    }
  }

  /** `int(str(i)) == i`: parsing the decimal form of an integer recovers it. */
  lemma ParseDecimal(i: int)
    ensures ParseInt(DecimalString(i)) == Some(i)
  {
    var s := DecimalString(i);
    var n: nat := if i < 0 then -i else i;
    NatStringValue(n);
    var d := NatString(n);
    assert Strip(s) == s by {
      assert !IsSpace(s[0]) && !IsSpace(s[|s| - 1]);
      StripShape(s);
    }
    if i < 0 {
      assert s[1..] == d;
    } else {
      assert s == d;
      assert !(s[0] == '-' || s[0] == '+');
    }
  }

  /** Python's `a < b` on strings: lexicographic by code point, a proper
      prefix coming first. */
  predicate Less(a: string, b: string)
  {
    if |a| == 0 then |b| > 0
    else if |b| == 0 then false
    else if a[0] != b[0] then a[0] < b[0]
    else Less(a[1..], b[1..])
  }

  /** Exactly one of `a < b`, `a == b`, `b < a` holds. */
  lemma {:induction false} LessTrichotomy(a: string, b: string)
    ensures Less(a, b) || a == b || Less(b, a)
    ensures !(Less(a, b) && a == b) && !(Less(b, a) && a == b) && !(Less(a, b) && Less(b, a))
  {
    if |a| > 0 && |b| > 0 && a[0] == b[0] {
      LessTrichotomy(a[1..], b[1..]);
      assert a == [a[0]] + a[1..] && b == [b[0]] + b[1..];
      if a[1..] == b[1..] {
        assert a == b;
      }
    }
  }

  /** `a < b` and `b < c` give `a < c`; with `LessTrichotomy` this makes
      string order a strict total order. */
  lemma {:induction false} LessTransitive(a: string, b: string, c: string)
    requires Less(a, b) && Less(b, c)
    ensures Less(a, c)
    decreases |a|
  {
    if |a| > 0 && a[0] == b[0] && b[0] == c[0] {
      LessTransitive(a[1..], b[1..], c[1..]);
    }
  }
}
