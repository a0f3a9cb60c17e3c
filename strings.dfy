/**
 * String operations of JavaScript and Rust that the rest of the model relies
 * on, stated on `seq<char>`. Case mapping is ASCII-only.
 */
module Strings {
  import opened Common

  /** Which language's notion of white space a trim uses. */
  datatype Lang = Js | Rust

  /** `\s` and `String.prototype.trim` in JavaScript; `char::is_whitespace` in Rust. */
  predicate IsSpace(c: char, lang: Lang) {
    c == '\t' || c == '\n' || c == '\U{000B}' || c == '\U{000C}' || c == '\r' || c == ' '
    || c == '\U{00A0}' || c == '\U{1680}' || ('\U{2000}' <= c <= '\U{200A}')
    || c == '\U{2028}' || c == '\U{2029}' || c == '\U{202F}' || c == '\U{205F}' || c == '\U{3000}'
    || (lang == Js && c == '\U{FEFF}') || (lang == Rust && c == '\U{0085}')
  }

  /** ASCII decimal digit (`\d` in a JavaScript regular expression). */
  predicate IsDigit(c: char) { '0' <= c <= '9' }

  predicate IsAsciiLetter(c: char) { 'a' <= c <= 'z' || 'A' <= c <= 'Z' }

  /** A word character of a non-Unicode JavaScript regular expression (`\w`). */
  predicate IsWordChar(c: char) { IsAsciiLetter(c) || IsDigit(c) || c == '_' }

  function TrimStart(s: string, lang: Lang): (r: string)
    ensures |r| <= |s| && r == s[|s| - |r|..]
    ensures r == [] || !IsSpace(r[0], lang)
    ensures forall i :: 0 <= i < |s| - |r| ==> IsSpace(s[i], lang)
    ensures forall c :: c in r ==> c in s
  {
    if |s| > 0 && IsSpace(s[0], lang) then TrimStart(s[1..], lang) else s
  }

  function TrimEnd(s: string, lang: Lang): (r: string)
    ensures |r| <= |s| && r == s[..|r|]
    ensures r == [] || !IsSpace(r[|r| - 1], lang)
    ensures forall i :: |r| <= i < |s| ==> IsSpace(s[i], lang)
    ensures forall c :: c in r ==> c in s
  {
    if |s| > 0 && IsSpace(s[|s| - 1], lang) then TrimEnd(s[..|s| - 1], lang) else s
  }

  function Trim(s: string, lang: Lang): (r: string)
    ensures |r| <= |s|
    ensures r == [] || (!IsSpace(r[0], lang) && !IsSpace(r[|r| - 1], lang))
    ensures forall c :: c in r ==> c in s
  {
    TrimEnd(TrimStart(s, lang), lang)
  }

  predicate StartsWith(s: string, prefix: string) {
    |prefix| <= |s| && s[..|prefix|] == prefix
  }

  predicate EndsWith(s: string, suffix: string) {
    |suffix| <= |s| && s[|s| - |suffix|..] == suffix
  }

  /** `sub` occurs in `s` starting at position `i`. */
  predicate OccursAt(s: string, sub: string, i: nat) {
    i + |sub| <= |s| && s[i..i + |sub|] == sub
  }

  /** `s.indexOf(sub, from)`: the first position at or after `from` where `sub` occurs, or -1. */
  function IndexOfFrom(s: string, sub: string, from: nat): (r: int)
    ensures r == -1 || (from <= r && OccursAt(s, sub, r))
    ensures r == -1 ==> forall i: nat :: from <= i ==> !OccursAt(s, sub, i)
    ensures r >= 0 ==> forall i: nat :: from <= i < r ==> !OccursAt(s, sub, i)
    decreases |s| - from
  {
    if from + |sub| > |s| then -1
    else if s[from..from + |sub|] == sub then from
    else IndexOfFrom(s, sub, from + 1)
  }

  /** The first occurrence at or after `from` is the one `indexOf` finds. */
  lemma IndexOfIs(s: string, sub: string, from: nat, p: nat)
    requires from <= p && OccursAt(s, sub, p)
    requires forall q: nat :: from <= q < p ==> !OccursAt(s, sub, q)
    ensures IndexOfFrom(s, sub, from) == p
  {
  }

  predicate Contains(s: string, sub: string) {
    IndexOfFrom(s, sub, 0) >= 0
  }

  /** `s.lastIndexOf(c)` for a single character, or -1. */
  function LastIndexOf(s: string, c: char): (r: int)
    ensures -1 <= r < |s|
    ensures r >= 0 ==> s[r] == c
    ensures forall i :: r < i < |s| ==> s[i] != c
  {
    if |s| == 0 then -1
    else if s[|s| - 1] == c then |s| - 1
    else LastIndexOf(s[..|s| - 1], c)
  }

  /** The text after the last `c` (all of `s` when there is none): `s.split(c).pop()`. */
  function AfterLast(s: string, c: char): (r: string)
    ensures c !in r
    ensures EndsWith(s, r)
    ensures |r| == |s| || (|r| < |s| && s[|s| - |r| - 1] == c)
  {
    s[LastIndexOf(s, c) + 1..]
  }

  /** JavaScript `s.substring(start, end)`: both ends clamped to `[0, |s|]` and swapped when reversed. */
  function Substring(s: string, start: int, end: int): (r: string)
    ensures |r| <= |s|
  {
    var a := if start < 0 then 0 else if start > |s| then |s| else start;
    var b := if end < 0 then 0 else if end > |s| then |s| else end;
    if a <= b then s[a..b] else s[b..a]
  }

  /** `s.split(sep)` for a one-character separator: the pieces between separators, empty ones included. */
  function Split(s: string, sep: char): (r: seq<string>)
    ensures |r| >= 1
    ensures forall i :: 0 <= i < |r| ==> sep !in r[i]
  {
    if s == [] then [""]
    else
      var rest := Split(s[1..], sep);
      if s[0] == sep then [""] + rest else [[s[0]] + rest[0]] + rest[1..]
  }

  /** `parts.join(sep)`. */
  function Join(parts: seq<string>, sep: string): string {
    if |parts| == 0 then ""
    else if |parts| == 1 then parts[0]
    else parts[0] + sep + Join(parts[1..], sep)
  }

  /** `parts.filter(Boolean)` on strings: the non-empty pieces, in order. */
  function NonEmpty(parts: seq<string>): (r: seq<string>)
    ensures |r| <= |parts|
    ensures forall i :: 0 <= i < |r| ==> r[i] != ""
  {
    if |parts| == 0 then []
    else if parts[0] == "" then NonEmpty(parts[1..])
    else [parts[0]] + NonEmpty(parts[1..])
  }

  function ToLowerChar(c: char): char {
    if 'A' <= c <= 'Z' then (c as int + 32) as char else c
  }

  function ToUpperChar(c: char): char {
    if 'a' <= c <= 'z' then (c as int - 32) as char else c
  }

  function ToLower(s: string): (r: string)
    ensures |r| == |s| && forall i :: 0 <= i < |s| ==> r[i] == ToLowerChar(s[i])
  {
    if s == [] then [] else [ToLowerChar(s[0])] + ToLower(s[1..])
  }

  function ToUpper(s: string): (r: string)
    ensures |r| == |s| && forall i :: 0 <= i < |s| ==> r[i] == ToUpperChar(s[i])
  {
    if s == [] then [] else [ToUpperChar(s[0])] + ToUpper(s[1..])
  }

  /** `String(n)` for a natural number: its decimal digits without leading zeros. */
  function NatToString(n: nat): (r: string)
    ensures |r| >= 1 && forall i :: 0 <= i < |r| ==> IsDigit(r[i])
    decreases n
  {
    if n < 10 then [('0' as int + n) as char]
    else NatToString(n / 10) + [('0' as int + n % 10) as char]
  }

  /** The value of a string of decimal digits. */
  function DigitsValue(s: string): nat
    requires forall i :: 0 <= i < |s| ==> IsDigit(s[i])
  {
    if s == [] then 0
    else assert IsDigit(s[|s| - 1]); DigitsValue(s[..|s| - 1]) * 10 + (s[|s| - 1] as int - '0' as int)
  }

  lemma {:induction false} DigitsValueOfNatToString(n: nat)
    ensures DigitsValue(NatToString(n)) == n
    decreases n
  {
    if n >= 10 {
      DigitsValueOfNatToString(n / 10);
      var s := NatToString(n);
      assert s[..|s| - 1] == NatToString(n / 10);
    }
  }

  /** The longest prefix of `s` made of decimal digits. */
  function DigitRun(s: string): (r: string)
    ensures StartsWith(s, r)
    ensures forall i :: 0 <= i < |r| ==> IsDigit(r[i])
    ensures |r| == |s| || !IsDigit(s[|r|])
  {
    if |s| > 0 && IsDigit(s[0]) then [s[0]] + DigitRun(s[1..]) else []
  }

  lemma {:induction false} DigitRunAppend(d: string, t: string)
    requires forall i :: 0 <= i < |d| ==> IsDigit(d[i])
    requires t == [] || !IsDigit(t[0])
    ensures DigitRun(d + t) == d
    decreases |d|
  {
    if |d| > 0 {
      assert (d + t)[1..] == d[1..] + t;
      DigitRunAppend(d[1..], t);
    } else {
      assert d + t == t;
    }
  }

  lemma {:induction false} JoinSplit(s: string, sep: char)
    ensures Join(Split(s, sep), [sep]) == s
    decreases |s|
  {
    if s != [] {
      var rest := Split(s[1..], sep);
      JoinSplit(s[1..], sep);
      if s[0] == sep {
        assert Split(s, sep) == [""] + rest;
        assert Join([""] + rest, [sep]) == "" + [sep] + Join(rest, [sep]);
      } else {
        var r := Split(s, sep);
        assert r == [[s[0]] + rest[0]] + rest[1..];
        if |rest| == 1 {
          assert Join(r, [sep]) == [s[0]] + rest[0];
        } else {
          assert Join(rest, [sep]) == rest[0] + [sep] + Join(rest[1..], [sep]);
          assert r[1..] == rest[1..];
          assert Join(r, [sep]) == ([s[0]] + rest[0]) + [sep] + Join(rest[1..], [sep]);
        }
        assert [s[0]] + s[1..] == s;
      }
    }
  }

  /** Code-point lexicographic order on strings (Rust's `String::cmp`; UTF-8 byte order agrees with it). */
  predicate StrLe(a: string, b: string)
    decreases |a|
  {
    a == [] || (b != [] && (a[0] < b[0] || (a[0] == b[0] && StrLe(a[1..], b[1..]))))
  }

  lemma StrLeTotal(a: string, b: string)
    ensures StrLe(a, b) || StrLe(b, a)
    decreases |a|
  {
    if a != [] && b != [] && a[0] == b[0] {
      StrLeTotal(a[1..], b[1..]);
    }
  }

  lemma StartsWithTrans(a: string, b: string, c: string)
    requires StartsWith(a, b) && StartsWith(b, c)
    ensures StartsWith(a, c)
  {
    assert a[..|c|] == a[..|b|][..|c|];
  }

  /** Splitting at a separator splits the text around it. */
  lemma {:induction false} SplitConcat(a: string, b: string, sep: char)
    ensures Split(a + [sep] + b, sep) == Split(a, sep) + Split(b, sep)
    decreases |a|
  {
    if a == [] {
      assert (a + [sep] + b)[1..] == b;
    } else {
      assert (a + [sep] + b)[1..] == a[1..] + [sep] + b;
      SplitConcat(a[1..], b, sep);
    }
  }

  lemma SplitNoSep(s: string, sep: char)
    requires sep !in s
    ensures Split(s, sep) == [s]
  {
    if s != [] {
      SplitNoSep(s[1..], sep);
      assert [s[0]] + s[1..] == s;
    }
  }

  lemma {:induction false} NonEmptyAppend(a: seq<string>, b: seq<string>)
    ensures NonEmpty(a + b) == NonEmpty(a) + NonEmpty(b)
    decreases |a|
  {
    if a == [] {
      assert a + b == b;
    } else {
      assert (a + b)[1..] == a[1..] + b;
      NonEmptyAppend(a[1..], b);
    }
  }

  lemma TrimIdentity(s: string, lang: Lang)
    requires s != [] && !IsSpace(s[0], lang) && !IsSpace(s[|s| - 1], lang)
    ensures TrimStart(s, lang) == s && TrimEnd(s, lang) == s && Trim(s, lang) == s
  {
  }

  /** Splitting a join gives the parts back when no part holds the separator. */
  lemma {:induction false} SplitJoin(parts: seq<string>, sep: char)
    requires |parts| >= 1
    requires forall i :: 0 <= i < |parts| ==> sep !in parts[i]
    ensures Split(Join(parts, [sep]), sep) == parts
    decreases |parts|
  {
    if |parts| == 1 {
      SplitNoSep(parts[0], sep);
    } else {
      SplitJoin(parts[1..], sep);
      SplitNoSep(parts[0], sep);
      SplitConcat(parts[0], Join(parts[1..], [sep]), sep);
      assert [parts[0]] + parts[1..] == parts;
    }
  }

  lemma {:induction false} NonEmptyKeeps(parts: seq<string>)
    requires forall i :: 0 <= i < |parts| ==> parts[i] != ""
    ensures NonEmpty(parts) == parts
  {
    if parts != [] {
      NonEmptyKeeps(parts[1..]);
      assert [parts[0]] + parts[1..] == parts;
    }
  }

  /** One more part joined at the end. */
  lemma {:induction false} JoinSnoc(a: seq<string>, x: string, sep: string)
    requires a != []
    ensures Join(a + [x], sep) == Join(a, sep) + sep + x
    decreases |a|
  {
    if |a| == 1 {
      assert (a + [x])[1..] == [x];
    } else {
      assert (a + [x])[1..] == a[1..] + [x];
      JoinSnoc(a[1..], x, sep);
    }
  }

  /** Text appended after `x` continues the last piece of `x`'s split; the pieces before it stay. */
  lemma SplitAppendLast(x: string, y: string, sep: char)
    ensures var p := Split(x, sep);
      Split(x + y, sep) == p[..|p| - 1] + Split(p[|p| - 1] + y, sep)
  {
    var p := Split(x, sep);
    var init, last := p[..|p| - 1], p[|p| - 1];
    SplitAsJoin(x, sep);
    if |p| == 1 {
      assert init == [];
    } else {
      AppendAssoc(Join(init, [sep]) + [sep], last, y);
      SplitAfterJoin(init, last + y, sep);
    }
  }

  /** A string is its split pieces joined: the pieces before the last, a separator, and the last. */
  lemma SplitAsJoin(x: string, sep: char)
    ensures var p := Split(x, sep);
      if |p| == 1 then x == p[0]
      else x == Join(p[..|p| - 1], [sep]) + [sep] + p[|p| - 1]
  {
    var p := Split(x, sep);
    JoinSplit(x, sep);
    if |p| > 1 {
      assert p[..|p| - 1] + [p[|p| - 1]] == p;
      JoinSnoc(p[..|p| - 1], p[|p| - 1], [sep]);
    }
  }

  /** Split pieces joined back, then a separator and more text. */
  lemma SplitAfterJoin(init: seq<string>, rest: string, sep: char)
    requires |init| >= 1 && forall i :: 0 <= i < |init| ==> sep !in init[i]
    ensures Split(Join(init, [sep]) + [sep] + rest, sep) == init + Split(rest, sep)
  {
    SplitJoin(init, sep);
    SplitConcat(Join(init, [sep]), rest, sep);
  }
}
