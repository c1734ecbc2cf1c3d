/** The general helpers of `yamlpath/func.py`: escaping of YAML Path text,
    the search comparison, anchor bookkeeping, and a few tree rewrites. */
module Func {
  import opened Wrappers
  import Text
  import opened PathTypes
  import opened Nodes

  // ---------------------------------------------------------------------
  // ensure_escaped and escape_path_section
  // ---------------------------------------------------------------------

  /** The escape sequence written for a symbol: a backslash, then the symbol. */
  function EscapeOf(symbol: char): string
  {
    ['\\', symbol]
  }

  /** The inner loop's list: every part with each bare symbol replaced by its
      escape sequence. */
  function ReplaceEach(parts: seq<string>, symbol: char): (r: seq<string>)
    ensures |r| == |parts|
    ensures forall k :: 0 <= k < |parts| ==> r[k] == Text.ReplaceChar(parts[k], symbol, EscapeOf(symbol))
  {
    if |parts| == 0 then []
    else [Text.ReplaceChar(parts[0], symbol, EscapeOf(symbol))] + ReplaceEach(parts[1..], symbol)
  }

  /** One turn of the outer loop: split on the escape sequence, so that
      symbols written escaped already are left alone, replace the bare
      symbols in every part, and join the parts with the escape sequence. */
  function EscapeOne(value: string, symbol: char): string
  {
    Text.Join(EscapeOf(symbol), ReplaceEach(Text.Split(value, EscapeOf(symbol)), symbol))
  }

  /** The value after escaping each symbol in turn, in the order given. */
  function Escaped(value: string, symbols: seq<char>): string
    decreases |symbols|
  {
    if |symbols| == 0 then value else Escaped(EscapeOne(value, symbols[0]), symbols[1..])
  }

  /** `ensure_escaped(value, *symbols)` */
  method EnsureEscaped(value: string, symbols: seq<char>) returns (escaped: string)
    ensures escaped == Escaped(value, symbols)
  {
    escaped := value;
    for i := 0 to |symbols|
      invariant Escaped(escaped, symbols[i..]) == Escaped(value, symbols)
    {
      var replaceTerm := EscapeOf(symbols[i]);
      var oparts := Text.Split(escaped, replaceTerm);
      var eparts: seq<string> := [];
      for j := 0 to |oparts|
        invariant |eparts| == j
        invariant forall k :: 0 <= k < j ==> eparts[k] == Text.ReplaceChar(oparts[k], symbols[i], replaceTerm)
      {
        eparts := eparts + [Text.ReplaceChar(oparts[j], symbols[i], replaceTerm)];
      }
      assert eparts == ReplaceEach(oparts, symbols[i]);
      ghost var before := escaped;
      escaped := Text.Join(replaceTerm, eparts);
      assert escaped == EscapeOne(before, symbols[i]);
      assert symbols[i..][0] == symbols[i] && symbols[i..][1..] == symbols[i + 1..];
    }
  }

  /** A reference reading of one turn, scanning from the left: an escape
      sequence already present is copied, a bare symbol gets a backslash in
      front of it, and every other character is copied. */
  function EscapeScan(s: string, c: char): string
  {
    if |s| >= 2 && s[0] == '\\' && s[1] == c then EscapeOf(c) + EscapeScan(s[2..], c)
    else if |s| >= 1 then (if s[0] == c then EscapeOf(c) else [s[0]]) + EscapeScan(s[1..], c)
    else ""
  }

  /** The split/replace/join turn and the scan agree on every string. */
  lemma {:induction false} EscapeOneIsScan(s: string, c: char)
    ensures EscapeOne(s, c) == EscapeScan(s, c)
    decreases |s|
  {
    if |s| < 2 {
      EscapeOneShort(s, c);
    } else if s[..2] == EscapeOf(c) {
      EscapeOneIsScan(s[2..], c);
      EscapeOneAtEscape(s, c);
    } else {
      EscapeOneIsScan(s[1..], c);
      EscapeOneAtOther(s, c);
    }
  }

  /** A string too short to hold an escape sequence. */
  lemma EscapeOneShort(s: string, c: char)
    requires |s| < 2
    ensures EscapeOne(s, c) == EscapeScan(s, c)
  {
    var rt := EscapeOf(c);
    assert Text.Split(s, rt) == [s];
    if |s| == 1 {
      assert Text.ReplaceChar(s, c, rt) == (if s[0] == c then rt else [s[0]]) + Text.ReplaceChar(s[1..], c, rt);
    }
  }

  /** A string that starts with the escape sequence: it is kept, and the
      rest is treated on its own. */
  lemma EscapeOneAtEscape(s: string, c: char)
    requires |s| >= 2 && s[..2] == EscapeOf(c)
    requires EscapeOne(s[2..], c) == EscapeScan(s[2..], c)
    ensures EscapeOne(s, c) == EscapeScan(s, c)
  {
    var rt := EscapeOf(c);
    var rest := Text.Split(s[2..], rt);
    assert Text.Split(s, rt) == [""] + rest;
    var er := ReplaceEach(rest, c);
    assert ReplaceEach([""] + rest, c) == [""] + er;
    assert ([""] + er)[1..] == er;
    assert EscapeScan(s, c) == rt + EscapeScan(s[2..], c) by {
      assert s[0] == '\\' && s[1] == c;
    }
    calc {
      EscapeOne(s, c);
      Text.Join(rt, [""] + er);
      "" + rt + Text.Join(rt, er);
      rt + EscapeOne(s[2..], c);
    }
  }

  /** A string that does not start with the escape sequence: its first
      character is replaced or copied, then the rest follows. */
  lemma EscapeOneAtOther(s: string, c: char)
    requires |s| >= 2 && s[..2] != EscapeOf(c)
    requires EscapeOne(s[1..], c) == EscapeScan(s[1..], c)
    ensures EscapeOne(s, c) == EscapeScan(s, c)
  {
    var rt := EscapeOf(c);
    var rest := Text.Split(s[1..], rt);
    var head := if s[0] == c then rt else [s[0]];
    assert Text.Split(s, rt) == [[s[0]] + rest[0]] + rest[1..];
    Text.ReplaceCharAppend([s[0]], rest[0], c, rt);
    assert Text.ReplaceChar([s[0]], c, rt) == head;
    var er := ReplaceEach(rest, c);
    assert ReplaceEach([[s[0]] + rest[0]] + rest[1..], c) == [head + er[0]] + er[1..];
    Text.JoinHead(head, er, rt);
  }

  /** Every occurrence of `c` in `s` directly follows a backslash; for the
      first character, `afterBackslash` says whether the character in
      front of `s` is one. */
  predicate EscapedAfter(afterBackslash: bool, s: string, c: char)
  {
    forall k :: 0 <= k < |s| && s[k] == c ==> if k == 0 then afterBackslash else s[k - 1] == '\\'
  }

  /** Every occurrence of `c` in `s` is immediately preceded by a backslash.
      That backslash may itself be the second half of an escaped backslash,
      so this does not say the occurrence is read as escaped (see
      `BackslashedSymbolExample`). */
  predicate AllEscaped(s: string, c: char)
  {
    EscapedAfter(false, s, c)
  }

  lemma EscapedAfterAt(b: bool, s: string, c: char, k: int)
    requires EscapedAfter(b, s, c) && 0 <= k < |s| && s[k] == c
    ensures if k == 0 then b else s[k - 1] == '\\'
  {
  }

  lemma EscapedAfterCons(b: bool, x: char, t: string, c: char)
    ensures EscapedAfter(b, [x] + t, c) <==> (x == c ==> b) && EscapedAfter(x == '\\', t, c)
  {
    var s := [x] + t;
    assert s[0] == x;
    assert forall k :: 0 < k < |s| ==> s[k] == t[k - 1];
    if (x == c ==> b) && EscapedAfter(x == '\\', t, c) {
      forall k | 0 <= k < |s| && s[k] == c
        ensures if k == 0 then b else s[k - 1] == '\\'
      {
        if k > 0 {
          EscapedAfterAt(x == '\\', t, c, k - 1);
        }
      }
    }
    if EscapedAfter(b, s, c) {
      if x == c {
        EscapedAfterAt(b, s, c, 0);
      }
      forall k | 0 <= k < |t| && t[k] == c
        ensures if k == 0 then x == '\\' else t[k - 1] == '\\'
      {
        EscapedAfterAt(b, s, c, k + 1);
      }
    }
  }

  lemma EscapedAfterPair(b: bool, t: string, c: char)
    requires c != '\\'
    ensures EscapedAfter(b, EscapeOf(c) + t, c) <==> EscapedAfter(false, t, c)
  {
    assert EscapeOf(c) + t == ['\\'] + ([c] + t);
    EscapedAfterCons(b, '\\', [c] + t, c);
    EscapedAfterCons(true, c, t, c);
  }

  /** A scan leaves no bare occurrence of a symbol other than the backslash. */
  lemma {:induction false} ScanEscapes(s: string, c: char, b: bool)
    requires c != '\\'
    ensures EscapedAfter(b, EscapeScan(s, c), c)
    decreases |s|
  {
    if |s| >= 2 && s[0] == '\\' && s[1] == c {
      ScanEscapes(s[2..], c, false);
      EscapedAfterPair(b, EscapeScan(s[2..], c), c);
    } else if |s| >= 1 {
      if s[0] == c {
        ScanEscapes(s[1..], c, false);
        EscapedAfterPair(b, EscapeScan(s[1..], c), c);
      } else {
        ScanEscapes(s[1..], c, s[0] == '\\');
        EscapedAfterCons(b, s[0], EscapeScan(s[1..], c), c);
      }
    }
  }

  /** Scanning for another symbol `d` keeps every `c` escaped. */
  lemma {:induction false} ScanKeepsEscaped(s: string, c: char, d: char, b: bool)
    requires c != '\\' && d != c
    requires EscapedAfter(b, s, c)
    ensures EscapedAfter(b, EscapeScan(s, d), c)
    decreases |s|
  {
    if |s| >= 1 {
      assert s == [s[0]] + s[1..];
      EscapedAfterCons(b, s[0], s[1..], c);
    }
    if |s| >= 2 && s[0] == '\\' && s[1] == d {
      assert s[1..] == [s[1]] + s[2..];
      EscapedAfterCons(true, s[1], s[2..], c);
      ScanKeepsEscaped(s[2..], c, d, d == '\\');
      var t := EscapeScan(s[2..], d);
      assert EscapeOf(d) + t == ['\\'] + ([d] + t);
      EscapedAfterCons(b, '\\', [d] + t, c);
      EscapedAfterCons(true, d, t, c);
    } else if |s| >= 1 {
      var t := EscapeScan(s[1..], d);
      if s[0] == d {
        ScanKeepsEscaped(s[1..], c, d, d == '\\');
        assert EscapeOf(d) + t == ['\\'] + ([d] + t);
        EscapedAfterCons(b, '\\', [d] + t, c);
        EscapedAfterCons(true, d, t, c);
      } else {
        ScanKeepsEscaped(s[1..], c, d, s[0] == '\\');
        EscapedAfterCons(b, s[0], t, c);
      }
    }
  }

  /** A string whose every `c` is escaped already is left as it is. */
  lemma {:induction false} ScanFixed(s: string, c: char)
    requires c != '\\'
    requires EscapedAfter(false, s, c)
    ensures EscapeScan(s, c) == s
    decreases |s|
  {
    if |s| >= 1 {
      assert s == [s[0]] + s[1..];
      EscapedAfterCons(false, s[0], s[1..], c);
    }
    if |s| >= 2 && s[0] == '\\' && s[1] == c {
      assert s[1..] == [s[1]] + s[2..];
      EscapedAfterCons(true, s[1], s[2..], c);
      ScanFixed(s[2..], c);
      assert s == EscapeOf(c) + s[2..];
    } else if |s| >= 1 {
      if s[0] == '\\' && |s| >= 2 {
        assert s[1..] == [s[1]] + s[2..];
        EscapedAfterCons(true, s[1], s[2..], c);
        EscapedAfterCons(false, s[1], s[2..], c);
      }
      ScanFixed(s[1..], c);
    }
  }

  /** A scan changes nothing in a string without the symbol. */
  lemma {:induction false} ScanWithoutSymbol(s: string, c: char)
    requires c !in s
    ensures EscapeScan(s, c) == s
    decreases |s|
  {
    if |s| >= 1 {
      assert s[1..] == s[1..];
      assert c !in s[1..];
      ScanWithoutSymbol(s[1..], c);
      assert s == [s[0]] + s[1..];
    }
  }

  /** ensure_escaped with one symbol other than the backslash: every
      occurrence of the symbol in the result is preceded by a backslash. */
  lemma EscapedOneEscapes(value: string, c: char)
    requires c != '\\'
    ensures AllEscaped(Escaped(value, [c]), c)
  {
    assert [c][1..] == [];
    assert Escaped(value, [c]) == EscapeOne(value, c);
    EscapeOneIsScan(value, c);
    ScanEscapes(value, c, false);
  }

  /** ensure_escaped with one symbol other than the backslash is idempotent:
      an occurrence written `\c` is not escaped a second time. */
  lemma EscapedOneIdempotent(value: string, c: char)
    requires c != '\\'
    ensures Escaped(Escaped(value, [c]), [c]) == Escaped(value, [c])
  {
    assert [c][1..] == [];
    var once := EscapeOne(value, c);
    assert Escaped(value, [c]) == Escaped(once, []) == once;
    assert Escaped(once, [c]) == Escaped(EscapeOne(once, c), []) == EscapeOne(once, c);
    EscapeOneIsScan(value, c);
    ScanEscapes(value, c, false);
    EscapeOneIsScan(once, c);
    ScanFixed(once, c);
  }

  /** ensure_escaped returns its input unchanged when none of the symbols
      occurs in it. */
  lemma {:induction false} EscapedWithoutSymbols(value: string, symbols: seq<char>)
    requires forall k :: 0 <= k < |symbols| ==> symbols[k] !in value
    ensures Escaped(value, symbols) == value
    decreases |symbols|
  {
    if |symbols| > 0 {
      EscapeOneIsScan(value, symbols[0]);
      ScanWithoutSymbol(value, symbols[0]);
      EscapedWithoutSymbols(value, symbols[1..]);
    }
  }

  /** Later turns keep an escaped symbol escaped. */
  lemma {:induction false} EscapedKeepsEscaped(value: string, symbols: seq<char>, c: char)
    requires c != '\\' && AllEscaped(value, c)
    ensures AllEscaped(Escaped(value, symbols), c)
    decreases |symbols|
  {
    if |symbols| > 0 {
      var d := symbols[0];
      EscapeOneIsScan(value, d);
      if d == c {
        ScanFixed(value, c);
      } else {
        ScanKeepsEscaped(value, c, d, false);
      }
      EscapedKeepsEscaped(EscapeOne(value, d), symbols[1..], c);
    }
  }

  /** Escaping several symbols in turn: every occurrence of every listed
      symbol other than the backslash ends up immediately preceded by a
      backslash. */
  lemma {:induction false} EscapedEscapesAll(value: string, symbols: seq<char>, c: char)
    requires c in symbols && c != '\\'
    ensures AllEscaped(Escaped(value, symbols), c)
    decreases |symbols|
  {
    if symbols[0] == c {
      EscapeOneIsScan(value, c);
      ScanEscapes(value, c, false);
      EscapedKeepsEscaped(EscapeOne(value, c), symbols[1..], c);
    } else {
      EscapedEscapesAll(EscapeOne(value, symbols[0]), symbols[1..], c);
    }
  }

  /** The symbols escape_path_section escapes, in its order: the backslash
      first, then the separator, then the other YAML Path punctuation. */
  function PathSectionSymbols(pathsep: PathSep): seq<char>
  {
    ['\\', SepChar(pathsep), '(', ')', '[', ']', '^', '$', '%', ' ', '\'', '"']
  }

  /** `escape_path_section(section, pathsep)`: every occurrence of a listed
      symbol other than the backslash is immediately preceded by a
      backslash, and a section without any listed symbol is unchanged. */
  function EscapePathSection(section: string, pathsep: PathSep): (r: string)
    ensures forall c :: c in PathSectionSymbols(pathsep) && c != '\\' ==> AllEscaped(r, c)
    ensures (forall c :: c in PathSectionSymbols(pathsep) ==> c !in section) ==> r == section
  {
    var r := Escaped(section, PathSectionSymbols(pathsep));
    assert forall c :: c in PathSectionSymbols(pathsep) && c != '\\' ==> AllEscaped(r, c) by {
      forall c | c in PathSectionSymbols(pathsep) && c != '\\' ensures AllEscaped(r, c) {
        EscapedEscapesAll(section, PathSectionSymbols(pathsep), c);
      }
    }
    if forall c :: c in PathSectionSymbols(pathsep) ==> c !in section then
      EscapedWithoutSymbols(section, PathSectionSymbols(pathsep));
      r
    else
      r
  }

  /** A symbol that already follows a backslash in the section is taken as
      escaped by its own turn, but the backslash turn has doubled that
      backslash first: the section `\.` comes out as `\\.`, an escaped
      backslash followed by a bare dot. */
  lemma BackslashedSymbolExample(section: string)
    requires section == "\\."
    ensures EscapePathSection(section, Dot) == "\\\\."
  {
    var symbols := PathSectionSymbols(Dot);
    var rest := symbols[2..];
    var doubled := BackslashTurnExample(section);
    DotTurnExample(doubled);
    NoOtherSymbol(doubled, rest);
    EscapedWithoutSymbols(doubled, rest);
    calc {
      Escaped(section, symbols);
      Escaped(doubled, symbols[1..]);
      { assert symbols[1..][0] == '.' && symbols[1..][1..] == rest; }
      Escaped(EscapeOne(doubled, '.'), rest);
      doubled;
    }
  }

  /** None of the punctuation after the separator occurs in a string of
      backslashes and dots. */
  lemma NoOtherSymbol(s: string, rest: seq<char>)
    requires forall k :: 0 <= k < |s| ==> s[k] == '\\' || s[k] == '.'
    requires rest == PathSectionSymbols(Dot)[2..]
    ensures forall k :: 0 <= k < |rest| ==> rest[k] !in s
  {
    forall k | 0 <= k < |rest| ensures rest[k] !in s {
      assert rest[k] != '\\' && rest[k] != '.';
    }
  }

  /** The backslash turn on `\.` doubles the backslash. */
  lemma BackslashTurnExample(s: string) returns (doubled: string)
    requires s == "\\."
    ensures doubled == "\\\\." && EscapeOne(s, '\\') == doubled
  {
    doubled := ['\\'] + s;
    EscapeOneIsScan(s, '\\');
    assert s[1..] == [s[2 - 1]] && s[1..][1..] == [];
    assert EscapeScan(s[1..], '\\') == s[1..];
  }

  /** The dot turn on `\\.` finds `\.` and keeps it. */
  lemma DotTurnExample(s: string)
    requires s == "\\\\."
    ensures EscapeOne(s, '.') == s
  {
    EscapeOneIsScan(s, '.');
    assert s[1..][2..] == [];
    assert EscapeScan(s[1..], '.') == s[1..];
  }

  // ---------------------------------------------------------------------
  // search_matches
  // ---------------------------------------------------------------------

  /** The NotImplementedError raised for a method without a branch. */
  datatype SearchError = NotImplemented

  /** The "numeric" methods: on an integer haystack they parse the needle
      with `int()` and compare numbers. */
  predicate IsComparison(m: SearchMethod)
  {
    m.Equals? || m.GreaterThan? || m.LessThan? || m.GreaterThanOrEqual? || m.LessThanOrEqual?
  }

  /** `haystack OP needle` for the comparison methods, on any values that
      have an equality and a strict order. */
  function CompareInts(m: SearchMethod, h: int, n: int): bool
    requires IsComparison(m)
  {
    match m
    case Equals => h == n
    case GreaterThan => h > n
    case LessThan => h < n
    case GreaterThanOrEqual => h >= n
    case LessThanOrEqual => h <= n
  }

  function CompareStrings(m: SearchMethod, h: string, n: string): bool
    requires IsComparison(m)
  {
    match m
    case Equals => h == n
    case GreaterThan => Text.Less(n, h)
    case LessThan => Text.Less(h, n)
    case GreaterThanOrEqual => Text.Less(n, h) || h == n
    case LessThanOrEqual => Text.Less(h, n) || h == n
  }

  /** `search_matches(method, needle, haystack)` for integer and string
      haystacks; `Err` where the source raises NotImplementedError. */
  function SearchMatches(m: SearchMethod, needle: string, haystack: Scalar): (r: Result<bool, SearchError>)
    ensures r.Err? <==> m.Unlisted?
  {
    if m.Unlisted? then Err(NotImplemented)
    else if m.StartsWith? then Ok(Text.IsPrefix(needle, Str(haystack)))
    else if m.EndsWith? then Ok(Text.IsSuffix(needle, Str(haystack)))
    else if m.Contains? then Ok(Text.Contains(needle, Str(haystack)))
    else match haystack
      case IntScalar(i) =>
        (match Text.ParseInt(needle)
         case Some(n) => Ok(CompareInts(m, i, n))
         case None => Ok(false))
      case StrScalar(h, _) => Ok(CompareStrings(m, h, needle))
  }

  /** On an integer haystack a needle that `int()` rejects matches under no
      comparison method, and raises nothing. */
  lemma UnparsedNeedleNeverMatches(m: SearchMethod, needle: string, i: int)
    requires IsComparison(m) && Text.ParseInt(needle).None?
    ensures SearchMatches(m, needle, IntScalar(i)) == Ok(false)
  {
  }

  /** On an integer haystack the comparison is numeric: the needle written
      in decimal compares as the number it denotes. */
  lemma NumericComparison(m: SearchMethod, i: int, j: int)
    requires IsComparison(m)
    ensures SearchMatches(m, Text.DecimalString(j), IntScalar(i)) == Ok(CompareInts(m, i, j))
  {
    Text.ParseDecimal(j);
  }

  /** The three strict outcomes are exclusive and, whenever the needle can
      be compared with the haystack at all, exhaustive; the inclusive
      methods are the strict one or equality. */
  lemma ComparisonsAgree(needle: string, haystack: Scalar)
    ensures var lt := SearchMatches(LessThan, needle, haystack).value;
            var eq := SearchMatches(Equals, needle, haystack).value;
            var gt := SearchMatches(GreaterThan, needle, haystack).value;
            && SearchMatches(GreaterThanOrEqual, needle, haystack).value == (gt || eq)
            && SearchMatches(LessThanOrEqual, needle, haystack).value == (lt || eq)
            && !(lt && eq) && !(lt && gt) && !(eq && gt)
            && (haystack.StrScalar? || Text.ParseInt(needle).Some? ==> lt || eq || gt)
  {
    if haystack.StrScalar? {
      Text.LessTrichotomy(haystack.s, needle);
    }
  }

  /** The substring methods test the string form of the haystack, so an
      integer matches by its decimal digits; a prefix or a suffix is also
      contained. */
  lemma SubstringMethods(needle: string, haystack: Scalar)
    ensures SearchMatches(StartsWith, needle, haystack).value ==> SearchMatches(Contains, needle, haystack).value
    ensures SearchMatches(EndsWith, needle, haystack).value ==> SearchMatches(Contains, needle, haystack).value
    ensures SearchMatches(Contains, needle, haystack).value <==> Text.Contains(needle, Str(haystack))
  {
    if Text.IsPrefix(needle, Str(haystack)) {
      Text.PrefixIsContained(needle, Str(haystack));
    }
    if Text.IsSuffix(needle, Str(haystack)) {
      Text.SuffixIsContained(needle, Str(haystack));
    }
  }

  /** Two concrete cases: `10` starts with "1" but is not equal to "1". */
  lemma IntegerHaystackExample()
    ensures SearchMatches(StartsWith, "1", IntScalar(10)) == Ok(true)
    ensures SearchMatches(Equals, "1", IntScalar(10)) == Ok(false)
  {
    assert Text.DecimalString(10) == "10";
    NumericComparison(Equals, 10, 1);
  }

  /** `(matches and not inverted) or (inverted and not matches)`: whether a
      candidate is a search result, for the methods a search term can hold. */
  predicate Hit(t: SearchTerms, candidate: Scalar)
  {
    SearchMatches(t.searchMethod, t.term, candidate).value != t.inverted
  }

  // ---------------------------------------------------------------------
  // get_node_anchor and search_anchor
  // ---------------------------------------------------------------------

  /** `get_node_anchor(node)`: the anchor name, or None for a node without
      one or with an empty one. */
  function GetNodeAnchor(node: Node): (r: Option<string>)
    ensures r.Some? ==> node.anchor == r && r.value != ""
    ensures r.None? ==> node.anchor == None || node.anchor == Some("")
  {
    match node.anchor
    case None => None
    case Some(name) => if name == "" then None else Some(name)
  }

  /** The anchor names seen so far, as `search_anchor` keeps them for its caller. */
  predicate NoDuplicates(names: seq<string>)
  {
    forall i, j :: 0 <= i < j < |names| ==> names[i] != names[j]
  }

  /** The seen list after `search_anchor` met a node with this anchor. */
  function Recorded(seen: seq<string>, anchor: Option<string>): seq<string>
  {
    match anchor
    case None => seen
    case Some(name) => if name in seen then seen else seen + [name]
  }

  /** The classification `search_anchor` returns, given the anchor name and
      the list as it was before the call. */
  function ClassifyAnchor(anchor: Option<string>, seen: seq<string>, terms: SearchTerms,
                          searchAnchors: bool, includeAliases: bool): AnchorMatch
  {
    match anchor
    case None => NoAnchor
    case Some(name) =>
      var isAlias := name in seen;
      if !searchAnchors then (if isAlias then UnsearchableAlias else UnsearchableAnchor)
      else if isAlias && !includeAliases then AliasExcluded
      else if Hit(terms, StrScalar(name, Plain)) then (if isAlias then AliasIncluded else Match)
      else NoMatch
  }

  /** The caller-owned `seen_anchors` list. */
  class AnchorList {
    var names: seq<string>

    constructor ()
      ensures names == []
    {
      names := [];
    }

    /** `search_anchor(node, terms, seen_anchors, search_anchors=...,
        include_aliases=...)`: the name is recorded before the flags are
        looked at. */
    method SearchAnchor(node: Node, terms: SearchTerms, searchAnchors: bool, includeAliases: bool)
      returns (r: AnchorMatch)
      modifies this
      ensures r == ClassifyAnchor(GetNodeAnchor(node), old(names), terms, searchAnchors, includeAliases)
      ensures names == Recorded(old(names), GetNodeAnchor(node))
    {
      var anchorName := GetNodeAnchor(node);
      if anchorName.None? {
        return NoAnchor;
      }
      var name := anchorName.value;
      var isAlias := true;
      if name !in names {
        isAlias := false;
        names := names + [name];
      }
      if !searchAnchors {
        r := UnsearchableAnchor;
        if isAlias {
          r := UnsearchableAlias;
        }
        return;
      }
      if isAlias && !includeAliases {
        return AliasExcluded;
      }
      r := NoMatch;
      var matches := SearchMatches(terms.searchMethod, terms.term, StrScalar(name, Plain)).value;
      if (matches && !terms.inverted) || (terms.inverted && !matches) {
        r := Match;
        if isAlias {
          r := AliasIncluded;
        }
      }
    }
  }

  /** A node without a usable anchor is `NO_ANCHOR` and leaves the list as
      it was; otherwise its name is in the list afterwards, added only if
      it was missing, so the list never gains a duplicate. */
  lemma RecordedKeepsNoDuplicates(seen: seq<string>, node: Node)
    requires NoDuplicates(seen)
    ensures var a := GetNodeAnchor(node);
            && NoDuplicates(Recorded(seen, a))
            && (a.None? ==> Recorded(seen, a) == seen)
            && (a.Some? ==>
                  && a.value in Recorded(seen, a)
                  && Recorded(seen, a) == if a.value in seen then seen else seen + [a.value])
  {
  }

  /** A node whose anchor is missing or empty is `NO_ANCHOR`, whatever the
      flags, and is not recorded. */
  lemma MissingAnchor(seen: seq<string>, node: Node, terms: SearchTerms,
                      searchAnchors: bool, includeAliases: bool)
    requires node.anchor == None || node.anchor == Some("")
    ensures ClassifyAnchor(GetNodeAnchor(node), seen, terms, searchAnchors, includeAliases) == NoAnchor
    ensures Recorded(seen, GetNodeAnchor(node)) == seen
  {
  }

  /** The first meeting of a name classifies it as an anchor, every later
      one as an alias. */
  lemma LaterOccurrenceIsAlias(seen: seq<string>, node: Node, terms: SearchTerms,
                               searchAnchors: bool, includeAliases: bool)
    requires GetNodeAnchor(node).Some?
    ensures var a := GetNodeAnchor(node);
            ClassifyAnchor(a, Recorded(seen, a), terms, searchAnchors, includeAliases)
              in {UnsearchableAlias, AliasExcluded, AliasIncluded, NoMatch}
    ensures var a := GetNodeAnchor(node);
            a.value !in seen ==>
              ClassifyAnchor(a, seen, terms, searchAnchors, includeAliases)
                in {UnsearchableAnchor, Match, NoMatch}
  {
  }

  /** The order in which `search_anchor` decides: unsearchable first, then
      excluded aliases, then the match test, which is `matches XOR inverted`. */
  lemma AnchorDecisionOrder(seen: seq<string>, name: string, terms: SearchTerms,
                            searchAnchors: bool, includeAliases: bool)
    ensures var r := ClassifyAnchor(Some(name), seen, terms, searchAnchors, includeAliases);
            && (!searchAnchors <==> r in {UnsearchableAnchor, UnsearchableAlias})
            && (r == AliasExcluded <==> searchAnchors && name in seen && !includeAliases)
            && (r in {Match, AliasIncluded} <==>
                  searchAnchors && (name !in seen || includeAliases)
                  && SearchMatches(terms.searchMethod, terms.term, StrScalar(name, Plain)).value != terms.inverted)
  {
  }

  // ---------------------------------------------------------------------
  // build_next_node
  // ---------------------------------------------------------------------

  /** An empty CommentedMap and an empty CommentedSeq. */
  const EmptyMap: Node := MapNode([], [], None)
  const EmptySeq: Node := SeqNode([], None)

  /** `build_next_node(yaml_path, depth, value)`, where `wrapped` stands
      for `wrap_type(value)`: the default for the next path segment. */
  function BuildNextNode(segments: seq<Segment>, depth: nat, wrapped: Node): (r: Node)
    ensures depth < |segments| && segments[depth].kind == KeySegment ==> r == EmptyMap
    ensures depth < |segments| && segments[depth].kind == IndexSegment ==> r == EmptySeq
    ensures (depth >= |segments| || segments[depth].kind == OtherSegment) ==> r == wrapped
  {
    if !(|segments| > 0 && |segments| > depth) then wrapped
    else match segments[depth].kind
      case IndexSegment => EmptySeq
      case KeySegment => EmptyMap
      case OtherSegment => wrapped
  }

  /** The node built for a key or an index segment is an empty container
      of the matching kind, whatever value was supplied. */
  lemma NextNodeIsContainer(segments: seq<Segment>, depth: nat, wrapped: Node, other: Node)
    requires depth < |segments| && segments[depth].kind != OtherSegment
    ensures BuildNextNode(segments, depth, wrapped) == BuildNextNode(segments, depth, other)
    ensures var r := BuildNextNode(segments, depth, wrapped);
            IsContainer(r) && (r.MapNode? <==> segments[depth].kind == KeySegment)
  {
  }

  // ---------------------------------------------------------------------
  // append_list_element
  // ---------------------------------------------------------------------

  /** A CommentedSeq: its elements and `ca.items`, the comment slots kept
      per element index. */
  class CommentedList {
    var items: seq<Node>
    var comments: map<int, seq<Option<string>>>

    /** Every comment entry has a first slot, as ruamel.yaml writes them. */
    predicate Valid()
      reads this
    {
      forall k :: k in comments ==> |comments[k]| >= 1
    }

    constructor (elements: seq<Node>, slots: map<int, seq<Option<string>>>)
      requires forall k :: k in slots ==> |slots[k]| >= 1
      ensures Valid() && items == elements && comments == slots
    {
      items := elements;
      comments := slots;
    }

    /** The tail comment of the list, if its last element has one. */
    function TailComment(): Option<string>
      reads this
      requires Valid()
    {
      var tail := |items| - 1;
      if tail in comments then comments[tail][0] else None
    }

    /** `append_list_element(data, value)` without an anchor: `value` is
        appended and returned, and a comment trailing the old last element
        moves to the new one. */
    method AppendListElement(value: Node) returns (newElement: Node)
      requires Valid()
      modifies this
      ensures Valid()
      ensures items == old(items) + [value] && newElement == value
      ensures var tail := |old(items)| - 1;
              comments ==
                if tail in old(comments) && old(comments)[tail][0].Some? then
                  old(comments)[tail := [None] + old(comments)[tail][1..]]
                               [tail + 1 := [old(comments)[tail][0], None, None, None]]
                else old(comments)
      ensures old(TailComment()).Some? ==> TailComment() == old(TailComment())
    {
      var oldTailPos := |items| - 1;
      items := items + [value];
      newElement := items[|items| - 1];
      if oldTailPos in comments {
        var oldComment := comments[oldTailPos][0];
        if oldComment.Some? {
          comments := comments[oldTailPos := [None] + comments[oldTailPos][1..]];
          comments := comments[oldTailPos + 1 := [oldComment, None, None, None]];
        }
      }
    }
  }

  // ---------------------------------------------------------------------
  // unwrap_node_coords
  // ---------------------------------------------------------------------

  /** What `unwrap_node_coords` is handed: a NodeCoords wrapper, a plain
      Python list, or a document node (a CommentedSeq being a list too). */
  datatype Data = Coords(inner: Data) | PyList(items: seq<Data>) | Value(v: Node)

  /** No NodeCoords wrapper and no CommentedSeq remains in the list structure. */
  predicate Unwrapped(d: Data)
  {
    match d
    case Coords(_) => false
    case PyList(items) => forall k :: 0 <= k < |items| ==> Unwrapped(items[k])
    case Value(v) => !v.SeqNode?
  }

  /** `unwrap_node_coords(data)` */
  function Unwrap(d: Data): (r: Data)
    ensures Unwrapped(r)
    ensures d.PyList? ==> r.PyList? && |r.items| == |d.items|
  {
    match d
    case Coords(inner) => Unwrap(inner)
    case PyList(items) => PyList(UnwrapList(items))
    case Value(v) => UnwrapNode(v)
  }

  function UnwrapList(items: seq<Data>): (r: seq<Data>)
    ensures |r| == |items|
    ensures forall k :: 0 <= k < |r| ==> r[k] == Unwrap(items[k])
  {
    if |items| == 0 then [] else [Unwrap(items[0])] + UnwrapList(items[1..])
  }

  /** A CommentedSeq is iterated as a list and comes back as a plain list of
      its unwrapped elements; any other node is returned as it is. */
  function UnwrapNode(v: Node): (r: Data)
    ensures Unwrapped(r)
    ensures v.SeqNode? ==> r.PyList? && |r.items| == |v.elems|
    ensures !v.SeqNode? ==> r == Value(v)
  {
    match v
    case SeqNode(elems, _) => PyList(UnwrapElems(elems))
    case _ => Value(v)
  }

  function UnwrapElems(elems: seq<Node>): (r: seq<Data>)
    ensures |r| == |elems|
    ensures forall k :: 0 <= k < |r| ==> r[k] == UnwrapNode(elems[k])
  {
    if |elems| == 0 then [] else [UnwrapNode(elems[0])] + UnwrapElems(elems[1..])
  }

  /** Data with nothing left to strip comes back unchanged, so unwrapping
      twice is unwrapping once. */
  lemma {:induction false} UnwrapIdentity(d: Data)
    requires Unwrapped(d)
    ensures Unwrap(d) == d
  {
    match d
    case PyList(items) =>
      forall k | 0 <= k < |items| ensures Unwrap(items[k]) == items[k] {
        UnwrapIdentity(items[k]);
      }
      assert UnwrapList(items) == items;
    case Value(v) =>
  }

  lemma UnwrapIdempotent(d: Data)
    ensures Unwrap(Unwrap(d)) == Unwrap(d)
  {
    UnwrapIdentity(Unwrap(d));
  }

  /** Any number of NodeCoords layers are stripped. */
  lemma {:induction false} UnwrapLayers(d: Data, n: nat)
    ensures Unwrap(Wrapped(d, n)) == Unwrap(d)
  {
    if n > 0 {
      UnwrapLayers(d, n - 1);
    }
  }

  function Wrapped(d: Data, n: nat): Data
  {
    if n == 0 then d else Coords(Wrapped(d, n - 1))
  }

  // ---------------------------------------------------------------------
  // quote_every_string
  // ---------------------------------------------------------------------

  /** Strings that `quote_every_string` leaves alone. */
  predicate IsQuotedStyle(st: Style)
  {
    st == DoubleQuoted || st == SingleQuoted
  }

  /** A scalar after quoting: a string neither double- nor single-quoted
      is wrapped in DoubleQuotedScalarString. */
  function QuoteScalar(v: Scalar): (r: Scalar)
    ensures r.StrScalar? <==> v.StrScalar?
    ensures Str(r) == Str(v)
    ensures r.StrScalar? ==> IsQuotedStyle(r.style)
    ensures v.IntScalar? ==> r == v
    ensures v.StrScalar? && IsQuotedStyle(v.style) ==> r == v
    ensures v.StrScalar? && !IsQuotedStyle(v.style) ==> r.style == DoubleQuoted
  {
    match v
    case StrScalar(s, st) => if IsQuotedStyle(st) then v else StrScalar(s, DoubleQuoted)
    case IntScalar(_) => v
  }

  /** `quote_every_string(data)` as a value: the quoted tree. A wrapped
      string is a new object, so it carries no anchor. */
  function Quoted(n: Node): Node
  {
    match n
    case MapNode(own, merged, a) =>
      MapNode(seq(|own|, k requires 0 <= k < |own| => QuotedEntry(own[k].key, Quoted(own[k].value))),
              seq(|merged|, k requires 0 <= k < |merged| => QuotedEntry(merged[k].key, Quoted(merged[k].value))),
              a)
    case SeqNode(elems, a) => SeqNode(seq(|elems|, k requires 0 <= k < |elems| => Quoted(elems[k])), a)
    case ScalarNode(v, a) =>
      if v.StrScalar? && !IsQuotedStyle(v.style) then ScalarNode(QuoteScalar(v), None) else n
  }

  /** An entry whose key is quoted and whose value has been quoted already. */
  function QuotedEntry(key: Scalar, quotedValue: Node): Entry
  {
    Entry(QuoteScalar(key), quotedValue)
  }

  /** Every string key and value of the tree is double- or single-quoted. */
  predicate AllQuoted(n: Node)
  {
    match n
    case MapNode(own, merged, _) =>
      && (forall k :: 0 <= k < |own| ==> ScalarQuoted(own[k].key) && AllQuoted(own[k].value))
      && (forall k :: 0 <= k < |merged| ==> ScalarQuoted(merged[k].key) && AllQuoted(merged[k].value))
    case SeqNode(elems, _) => forall k :: 0 <= k < |elems| ==> AllQuoted(elems[k])
    case ScalarNode(v, _) => ScalarQuoted(v)
  }

  predicate ScalarQuoted(v: Scalar)
  {
    v.StrScalar? ==> IsQuotedStyle(v.style)
  }

  /** The two trees have the same shape: the same kinds of node, the same
      lengths, the same key text in the same order, the same scalar text. */
  predicate SameShape(a: Node, b: Node)
  {
    match a
    case MapNode(own, merged, _) =>
      && b.MapNode? && |own| == |b.own| && |merged| == |b.merged|
      && (forall k :: 0 <= k < |own| ==>
            SameText(own[k].key, b.own[k].key) && SameShape(own[k].value, b.own[k].value))
      && (forall k :: 0 <= k < |merged| ==>
            SameText(merged[k].key, b.merged[k].key) && SameShape(merged[k].value, b.merged[k].value))
    case SeqNode(elems, _) =>
      b.SeqNode? && |elems| == |b.elems|
      && forall k :: 0 <= k < |elems| ==> SameShape(elems[k], b.elems[k])
    case ScalarNode(v, _) =>
      b.ScalarNode? && SameText(v, b.value)
  }

  /** Two scalars of the same kind with the same text. */
  predicate SameText(v: Scalar, w: Scalar)
  {
    Str(v) == Str(w) && (v.StrScalar? <==> w.StrScalar?)
  }

  /** After quoting every string is quoted. */
  lemma {:induction false} QuotedIsAllQuoted(n: Node)
    ensures AllQuoted(Quoted(n))
  {
    match n
    case MapNode(own, merged, _) =>
      forall k | 0 <= k < |own| ensures AllQuoted(Quoted(own[k].value)) {
        QuotedIsAllQuoted(own[k].value);
      }
      forall k | 0 <= k < |merged| ensures AllQuoted(Quoted(merged[k].value)) {
        QuotedIsAllQuoted(merged[k].value);
      }
    case SeqNode(elems, _) =>
      forall k | 0 <= k < |elems| ensures AllQuoted(Quoted(elems[k])) {
        QuotedIsAllQuoted(elems[k]);
      }
    case ScalarNode(_, _) =>
  }

  /** A tree whose strings are all quoted already is left as it is: quoted
      strings, integers and the containers holding them are unchanged. */
  lemma {:induction false} QuotedUnchanged(n: Node)
    requires AllQuoted(n)
    ensures Quoted(n) == n
  {
    match n
    case MapNode(own, merged, _) =>
      forall k | 0 <= k < |own| ensures Quoted(own[k].value) == own[k].value {
        QuotedUnchanged(own[k].value);
      }
      forall k | 0 <= k < |merged| ensures Quoted(merged[k].value) == merged[k].value {
        QuotedUnchanged(merged[k].value);
      }
    case SeqNode(elems, _) =>
      forall k | 0 <= k < |elems| ensures Quoted(elems[k]) == elems[k] {
        QuotedUnchanged(elems[k]);
      }
    case ScalarNode(_, _) =>
  }

  lemma QuotedIdempotent(n: Node)
    ensures Quoted(Quoted(n)) == Quoted(n)
  {
    QuotedIsAllQuoted(n);
    QuotedUnchanged(Quoted(n));
  }

  /** Quoting keeps the shape of the tree: key order, list lengths, and the
      text of every key and scalar. */
  lemma {:induction false} QuotedSameShape(n: Node)
    ensures SameShape(n, Quoted(n))
  {
    match n
    case MapNode(own, merged, _) =>
      forall k | 0 <= k < |own| ensures SameShape(own[k].value, Quoted(own[k].value)) {
        QuotedSameShape(own[k].value);
      }
      forall k | 0 <= k < |merged| ensures SameShape(merged[k].value, Quoted(merged[k].value)) {
        QuotedSameShape(merged[k].value);
      }
    case SeqNode(elems, _) =>
      forall k | 0 <= k < |elems| ensures SameShape(elems[k], Quoted(elems[k])) {
        QuotedSameShape(elems[k]);
      }
    case ScalarNode(_, _) =>
  }

  /** `quote_every_string(data)`: every unquoted string key is replaced at
      its own position, then every value is replaced by its quoted form. */
  method QuoteEveryString(data: Node) returns (r: Node)
    ensures r == Quoted(data)
    decreases data
  {
    match data {
      case MapNode(own, merged, a) =>
        // `items()` lists the own entries, then the merged ones.
        var all := own + merged;
        var out := all;
        for idx := 0 to |all|
          invariant |out| == |all|
          invariant forall k :: 0 <= k < idx ==> out[k] == Entry(QuoteScalar(all[k].key), all[k].value)
          invariant forall k :: idx <= k < |all| ==> out[k] == all[k]
        {
          var key := all[idx].key;
          if key.StrScalar? && !IsQuotedStyle(key.style) {
            out := out[idx := Entry(StrScalar(key.s, DoubleQuoted), out[idx].value)];
          }
        }
        for idx := 0 to |all|
          invariant |out| == |all|
          invariant forall k :: 0 <= k < idx ==> out[k] == Entry(QuoteScalar(all[k].key), Quoted(all[k].value))
          invariant forall k :: idx <= k < |all| ==> out[k] == Entry(QuoteScalar(all[k].key), all[k].value)
        {
          var val := if idx < |own| then own[idx].value else merged[idx - |own|].value;
          assert val == all[idx].value;
          var q := QuoteEveryString(val);
          out := out[idx := Entry(out[idx].key, q)];
        }
        assert out[..|own|] == Quoted(data).own;
        assert out[|own|..] == Quoted(data).merged;
        r := MapNode(out[..|own|], out[|own|..], a);
      case SeqNode(elems, a) =>
        var out := elems;
        for idx := 0 to |elems|
          invariant |out| == |elems|
          invariant forall k :: 0 <= k < idx ==> out[k] == Quoted(elems[k])
          invariant forall k :: idx <= k < |elems| ==> out[k] == elems[k]
        {
          var q := QuoteEveryString(elems[idx]);
          out := out[idx := q];
        }
        r := SeqNode(out, a);
      case ScalarNode(v, _) =>
        if v.StrScalar? && !IsQuotedStyle(v.style) {
          r := ScalarNode(StrScalar(v.s, DoubleQuoted), None);
        } else {
          r := data;
        }
    }
  }
}
